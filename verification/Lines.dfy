/** Text split on newlines, joined with a separator, and the "Speaker X: text" line format. */
module Lines {
  import opened Options
  import opened Text

  /** First newline at or after i, or the end of the text. */
  function LineEnd(t: string, i: nat): (e: nat)
    requires i <= |t|
    ensures i <= e <= |t|
    ensures e < |t| ==> t[e] == '\n'
    decreases |t| - i
  {
    if i == |t| || t[i] == '\n' then i else LineEnd(t, i + 1)
  }

  function LineSpans(t: string, i: nat): (r: seq<Span>)
    requires i <= |t|
    ensures r != []
    decreases |t| - i
  {
    var e := LineEnd(t, i);
    if e == |t| then [Span(i, e)] else [Span(i, e)] + LineSpans(t, e + 1)
  }

  /** str.split("\n"). */
  function SplitLines(t: string): seq<string> {
    Texts(t, LineSpans(t, 0))
  }

  function Join(sep: string, parts: seq<string>): string {
    if parts == [] then ""
    else if |parts| == 1 then parts[0]
    else parts[0] + sep + Join(sep, parts[1..])
  }

  lemma {:induction false} JoinHas(sep: string, parts: seq<string>, c: char)
    ensures (exists p :: p in parts && c in p) ==> c in Join(sep, parts)
    ensures c in Join(sep, parts) ==> c in sep || exists p :: p in parts && c in p
    decreases |parts|
  {
    if |parts| > 1 {
      JoinHas(sep, parts[1..], c);
      assert parts == [parts[0]] + parts[1..];
      if c in Join(sep, parts) && c !in sep {
        if c in parts[0] {
          assert parts[0] in parts;
        } else {
          assert Join(sep, parts) == parts[0] + (sep + Join(sep, parts[1..]));
          var p :| p in parts[1..] && c in p;
          assert p in parts;
        }
      }
    } else if |parts| == 1 {
      assert parts[0] in parts;
    }
  }

  /** Consecutive lines are one newline apart; the last one ends the text. */
  ghost predicate Lined(t: string, ls: seq<Span>, i: nat) {
    && ls != [] && ls[0].start == i && ls[|ls| - 1].end == |t|
    && (forall k :: 0 <= k < |ls| ==> ls[k].start <= ls[k].end <= |t|)
    && (forall j, k :: 0 <= j < k < |ls| && k == j + 1 ==> ls[k].start == ls[j].end + 1 && t[ls[j].end] == '\n')
  }

  lemma {:induction false} LineSpansLined(t: string, i: nat)
    requires i <= |t|
    ensures Lined(t, LineSpans(t, i), i)
    decreases |t| - i
  {
    hide LineEnd, Lined;
    var e := LineEnd(t, i);
    if e < |t| {
      LineSpansLined(t, e + 1);
      LinedCons(t, LineSpans(t, e + 1), i, e);
    } else {
      LinedLast(t, i);
    }
  }

  lemma LinedLast(t: string, i: nat)
    requires i <= |t|
    ensures Lined(t, [Span(i, |t|)], i)
  {
  }

  lemma LinedCons(t: string, rest: seq<Span>, i: nat, e: nat)
    requires i <= e < |t| && t[e] == '\n' && Lined(t, rest, e + 1)
    ensures Lined(t, [Span(i, e)] + rest, i)
  {
    var ls := [Span(i, e)] + rest;
    forall j, k | 0 <= j < k < |ls| && k == j + 1
      ensures ls[k].start == ls[j].end + 1 && t[ls[j].end] == '\n'
    {
      assert ls[k] == rest[j];
      if j > 0 { assert ls[j] == rest[j - 1]; }
    }
  }

  lemma LineEndAt(t: string, i: nat, e: nat)
    requires i <= e <= |t| && '\n' !in t[i..e] && (e == |t| || t[e] == '\n')
    ensures LineEnd(t, i) == e
    decreases e - i
  {
    if i < e {
      assert t[i] == t[i..e][0];
      assert t[i + 1..e] == t[i..e][1..];
      LineEndAt(t, i + 1, e);
    }
  }

  lemma LineHasNoNewline(t: string, i: nat)
    requires i <= |t|
    ensures '\n' !in t[i..LineEnd(t, i)]
    decreases |t| - i
  {
    if i < |t| && t[i] != '\n' {
      LineHasNoNewline(t, i + 1);
      assert t[i..LineEnd(t, i)] == [t[i]] + t[i + 1..LineEnd(t, i)];
    }
  }

  lemma {:induction false} LinesHaveNoNewline(t: string, i: nat)
    requires i <= |t|
    ensures forall l :: l in Texts(t, LineSpans(t, i)) ==> '\n' !in l
    decreases |t| - i
  {
    LineHasNoNewline(t, i);
    var e := LineEnd(t, i);
    if e < |t| {
      LinesHaveNoNewline(t, e + 1);
      assert LineSpans(t, i)[1..] == LineSpans(t, e + 1);
    } else {
      assert LineSpans(t, i)[1..] == [];
    }
  }

  lemma SuffixParts(t: string, i: nat, a: string, b: string)
    requires i <= |t| && t[i..] == a + "\n" + b
    ensures i + |a| < |t| && t[i..i + |a|] == a && t[i + |a|] == '\n' && t[i + |a| + 1..] == b
  {
    var u := t[i..];
    assert u[..|a|] == a && u[|a|] == '\n' && u[|a| + 1..] == b;
  }

  /** The first line's text, and the rest. */
  lemma LineTexts(t: string, i: nat)
    requires i <= |t|
    ensures var e := LineEnd(t, i);
      Texts(t, LineSpans(t, i)) == [t[i..e]] + if e == |t| then [] else Texts(t, LineSpans(t, e + 1))
  {
    var e := LineEnd(t, i);
    if e < |t| {
      assert ([Span(i, e)] + LineSpans(t, e + 1))[1..] == LineSpans(t, e + 1);
    }
  }

  lemma FirstLine(t: string, i: nat, first: string)
    requires i + |first| <= |t| && t[i..i + |first|] == first && '\n' !in first
    requires i + |first| < |t| ==> t[i + |first|] == '\n'
    ensures Texts(t, LineSpans(t, i)) ==
      [first] + if i + |first| == |t| then [] else Texts(t, LineSpans(t, i + |first| + 1))
  {
    LineEndAt(t, i, i + |first|);
    LineTexts(t, i);
  }

  lemma SuffixWhole(t: string, i: nat, a: string)
    requires i <= |t| && t[i..] == a
    ensures i + |a| == |t| && t[i..i + |a|] == a
  {
  }

  // The proof of SplitJoinFrom works on these by name, with their definitions hidden.

  predicate OneLine(s: string) { '\n' !in s }

  predicate NoNewlines(ls: seq<string>) {
    forall k :: 0 <= k < |ls| ==> OneLine(ls[k])
  }

  predicate RestIs(t: string, i: nat, rest: string) {
    i <= |t| && t[i..] == rest
  }

  function OnTwoLines(a: string, b: string): string { a + "\n" + b }

  function Head(ls: seq<string>): string
    requires ls != []
  {
    ls[0]
  }

  function Tail(ls: seq<string>): (r: seq<string>)
    requires ls != []
    ensures |r| == |ls| - 1
  {
    ls[1..]
  }

  function Cons(first: string, rest: seq<string>): seq<string> { [first] + rest }

  lemma LastLineText(t: string, i: nat, last: string)
    requires RestIs(t, i, last) && OneLine(last)
    ensures Texts(t, LineSpans(t, i)) == Cons(last, [])
  {
    SuffixWhole(t, i, last);
    hide LineSpans, Texts;
    FirstLine(t, i, last);
  }

  lemma LineBeforeRest(t: string, i: nat, first: string, after: string)
    requires RestIs(t, i, OnTwoLines(first, after)) && OneLine(first)
    ensures RestIs(t, i + |first| + 1, after)
    ensures Texts(t, LineSpans(t, i)) == Cons(first, Texts(t, LineSpans(t, i + |first| + 1)))
  {
    SuffixParts(t, i, first, after);
    hide LineSpans, Texts;
    FirstLine(t, i, first);
  }

  lemma HeadAndTail(ls: seq<string>)
    requires ls != []
    ensures ls == Cons(Head(ls), Tail(ls))
    ensures |ls| == 1 ==> Tail(ls) == []
  {
  }

  lemma JoinHead(ls: seq<string>)
    requires ls != []
    ensures Join("\n", ls) == if |ls| == 1 then Head(ls) else OnTwoLines(Head(ls), Join("\n", Tail(ls)))
  {
  }

  lemma NoNewlinesTail(ls: seq<string>)
    requires ls != [] && NoNewlines(ls)
    ensures OneLine(Head(ls)) && NoNewlines(Tail(ls))
  {
    hide OneLine;
  }

  lemma RestIsInText(t: string, i: nat, rest: string)
    requires RestIs(t, i, rest)
    ensures i <= |t|
  {
  }

  lemma {:induction false} SplitJoinFrom(t: string, i: nat, ls: seq<string>)
    requires ls != [] && RestIs(t, i, Join("\n", ls)) && NoNewlines(ls)
    ensures i <= |t| && Texts(t, LineSpans(t, i)) == ls
    decreases |ls|
  {
    hide *;
    var first, rest := Head(ls), Tail(ls);
    HeadAndTail(ls);
    JoinHead(ls);
    NoNewlinesTail(ls);
    RestIsInText(t, i, Join("\n", ls));
    if |ls| > 1 {
      LineBeforeRest(t, i, first, Join("\n", rest));
      SplitJoinFrom(t, i + |first| + 1, rest);
    } else {
      LastLineText(t, i, first);
    }
  }

  /** Joining lines with newlines and splitting them again gives them back exactly when none holds a newline. */
  lemma SplitJoin(ls: seq<string>)
    requires ls != []
    ensures SplitLines(Join("\n", ls)) == ls <==> forall l :: l in ls ==> '\n' !in l
  {
    var t := Join("\n", ls);
    LinesHaveNoNewline(t, 0);
    if forall l :: l in ls ==> '\n' !in l {
      assert t[0..] == t && NoNewlines(ls);
      SplitJoinFrom(t, 0, ls);
    }
  }

  const MAX_LABEL := 24

  predicate StartsWith(s: string, prefix: string) {
    |prefix| <= |s| && s[..|prefix|] == prefix
  }

  /** 'Speaker A: text' as (label, text); no label for anything else. */
  function SplitLine(line: string): (Option<string>, string) {
    var i := Find(line, ": ", 0);
    if i.Some? && StartsWith(line[..i.value], "Speaker ") && i.value <= MAX_LABEL
    then (Some(line[..i.value]), line[i.value + 2..])
    else (None, line)
  }

  /** A speaker label as a line may carry it. */
  predicate IsLabel(name: string) {
    "Speaker " <= name && |name| <= 24 && forall j :: 0 <= j <= |name| ==> !OccursAt(name, ": ", j)
  }

  /** A line has a label exactly if it is one, the first colon and space, and the text. */
  lemma SplitLineReads(line: string, name: string, text: string)
    ensures SplitLine(line) == (Some(name), text) <==> line == name + ": " + text && IsLabel(name)
    ensures SplitLine(line).0.None? ==> SplitLine(line).1 == line
  {
    var i := Find(line, ": ", 0);
    if line == name + ": " + text && IsLabel(name) {
      assert line[|name|..|name| + 2] == ": ";
      assert OccursAt(line, ": ", |name|);
      forall j | 0 <= j < |name| ensures !OccursAt(line, ": ", j) {
        NoneEarlier(name, text, j);
      }
      assert line[..|name|] == name && line[|name| + 2..] == text && name[..8] == "Speaker ";
    }
    if SplitLine(line).0.Some? && SplitLine(line) == (Some(name), text) {
      var n := i.value;
      assert name == line[..n] && text == line[n + 2..] && line[n..n + 2] == ": ";
      assert line == line[..n] + line[n..n + 2] + line[n + 2..];
      forall j | 0 <= j <= |name| ensures !OccursAt(name, ": ", j) {
        if j + 2 <= n {
          assert !OccursAt(line, ": ", j);
          assert name[j..j + 2] == line[j..j + 2];
        }
      }
      assert name[..8] == "Speaker ";
    }
  }

  lemma NoneEarlier(name: string, text: string, j: nat)
    requires j < |name| && forall k :: 0 <= k <= |name| ==> !OccursAt(name, ": ", k)
    ensures !OccursAt(name + ": " + text, ": ", j)
  {
    var line := name + ": " + text;
    if j + 1 < |name| {
      assert !OccursAt(name, ": ", j);
      assert line[j..j + 2] == name[j..j + 2];
    } else {
      assert line[j..j + 2][1] == line[|name|] == ':';
    }
  }
}
