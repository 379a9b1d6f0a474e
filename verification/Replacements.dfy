/** applyReplacements and the overlap filter of internal/links/link_refactor.go. */
module Replacements {
  import opened Common

  datatype Replacement = Replacement(start: nat, end: nat, newValue: string)

  /** Every edit lies in a text of length n and covers at least one character. */
  ghost predicate InText(reps: seq<Replacement>, n: nat)
  {
    forall i :: 0 <= i < |reps| ==> reps[i].start < reps[i].end <= n
  }

  /** Strictly increasing and pairwise disjoint. */
  ghost predicate Ordered(reps: seq<Replacement>)
  {
    forall i, j :: 0 <= i < j < |reps| ==> reps[i].end <= reps[j].start
  }

  ghost predicate SortedStarts(reps: seq<Replacement>)
  {
    forall i, j :: 0 <= i < j < |reps| ==> reps[i].start <= reps[j].start
  }

  // ----- applying edits -----

  /** The text applyReplacements still has to write from position last on. */
  function Applied(content: string, reps: seq<Replacement>, last: nat): string
    requires InText(reps, |content|) && last <= |content|
  {
    if reps == [] then content[last..]
    else if reps[0].start < last then Applied(content, reps[1..], last)
    else content[last..reps[0].start] + reps[0].newValue + Applied(content, reps[1..], reps[0].end)
  }

  /** applyReplacements. */
  method ApplyReplacements(content: string, reps: seq<Replacement>) returns (out: string)
    requires InText(reps, |content|)
    ensures out == Applied(content, reps, 0)
  {
    if reps == [] {
      return content;
    }
    out := "";
    var last: nat := 0;
    for i := 0 to |reps|
      invariant last <= |content|
      invariant out + Applied(content, reps[i..], last) == Applied(content, reps, 0)
    {
      assert reps[i..][0] == reps[i] && reps[i..][1..] == reps[i + 1..];
      if reps[i].start < last {
        continue;
      }
      ghost var before, rest := out, Applied(content, reps[i + 1..], reps[i].end);
      out := out + content[last..reps[i].start];
      out := out + reps[i].newValue;
      assert before + (content[last..reps[i].start] + reps[i].newValue + rest) == out + rest;
      last := reps[i].end;
    }
    assert reps[|reps|..] == [];
    out := out + content[last..];
  }

  /** gaps[0] + texts[0] + gaps[1] + ... + gaps[|texts|]. */
  function Interleave(gaps: seq<string>, texts: seq<string>): string
    requires |gaps| == |texts| + 1
  {
    if texts == [] then gaps[0] else gaps[0] + texts[0] + Interleave(gaps[1..], texts[1..])
  }

  /** The stretches of content between the edits, from position last on. */
  function Gaps(content: string, reps: seq<Replacement>, last: nat): (gaps: seq<string>)
    requires InText(reps, |content|) && Ordered(reps) && last <= |content|
    requires reps != [] ==> last <= reps[0].start
    ensures |gaps| == |reps| + 1
  {
    if reps == [] then [content[last..]]
    else [content[last..reps[0].start]] + Gaps(content, reps[1..], reps[0].end)
  }

  function Olds(content: string, reps: seq<Replacement>): (texts: seq<string>)
    requires InText(reps, |content|)
    ensures |texts| == |reps| && forall i :: 0 <= i < |reps| ==> texts[i] == content[reps[i].start..reps[i].end]
  {
    seq(|reps|, i requires 0 <= i < |reps| => content[reps[i].start..reps[i].end])
  }

  function News(reps: seq<Replacement>): (texts: seq<string>)
    ensures |texts| == |reps| && forall i :: 0 <= i < |reps| ==> texts[i] == reps[i].newValue
  {
    seq(|reps|, i requires 0 <= i < |reps| => reps[i].newValue)
  }

  /**
   Ordered edits are all carried out and nothing else changes: the same gaps, in the same order, join
   the replaced texts to the input and the new texts to the output.
   */
  lemma {:induction false} EveryEditLands(content: string, reps: seq<Replacement>, last: nat)
    requires InText(reps, |content|) && Ordered(reps) && last <= |content|
    requires reps != [] ==> last <= reps[0].start
    ensures Interleave(Gaps(content, reps, last), Olds(content, reps)) == content[last..]
    ensures Interleave(Gaps(content, reps, last), News(reps)) == Applied(content, reps, last)
  {
    if reps != [] {
      var r := reps[0];
      EveryEditLands(content, reps[1..], r.end);
      assert Olds(content, reps)[1..] == Olds(content, reps[1..]);
      assert News(reps)[1..] == News(reps[1..]);
      assert content[last..r.start] + content[r.start..r.end] + content[r.end..] == content[last..];
    }
  }

  /** How much the edits that end at or before a position make the text in front of it longer. */
  function Drift(reps: seq<Replacement>, pos: nat): int
  {
    if reps == [] then 0
    else (if reps[0].end <= pos then |reps[0].newValue| - (reps[0].end - reps[0].start) else 0) + Drift(reps[1..], pos)
  }

  lemma {:induction false} NoDriftBefore(reps: seq<Replacement>, pos: nat)
    requires forall i :: 0 <= i < |reps| ==> pos < reps[i].end
    ensures Drift(reps, pos) == 0
  {
    if reps != [] { NoDriftBefore(reps[1..], pos); }
  }

  ghost predicate StandsAt(text: string, p: int, part: string)
  {
    0 <= p && p + |part| <= |text| && text[p..p + |part|] == part
  }

  lemma StandsBehind(front: string, rest: string, p: int, part: string)
    requires StandsAt(rest, p, part)
    ensures StandsAt(front + rest, |front| + p, part)
  {
  }

  lemma StandsBefore(front: string, rest: string, p: nat, part: string)
    requires StandsAt(front, p, part)
    ensures StandsAt(front + rest, p, part)
  {
    assert (front + rest)[p..p + |part|] == front[p..p + |part|];
  }

  /** The first edit, with what comes before and behind it. */
  lemma AppliedFirst(content: string, reps: seq<Replacement>, last: nat)
    requires InText(reps, |content|) && last <= |content| && reps != [] && last <= reps[0].start
    ensures Applied(content, reps, last) == (content[last..reps[0].start] + reps[0].newValue) + Applied(content, reps[1..], reps[0].end)
  {
  }

  /** What stands at a place behind the first edit. */
  lemma StandsBehindFirst(content: string, reps: seq<Replacement>, last: nat, pos: nat, part: string)
    requires InText(reps, |content|) && last <= |content| && reps != [] && last <= reps[0].start && reps[0].end <= pos
    requires StandsAt(Applied(content, reps[1..], reps[0].end), pos - reps[0].end + Drift(reps[1..], pos), part)
    ensures StandsAt(Applied(content, reps, last), pos - last + Drift(reps, pos), part)
  {
    var front, rest := content[last..reps[0].start] + reps[0].newValue, Applied(content, reps[1..], reps[0].end);
    AppliedFirst(content, reps, last);
    StandsBehind(front, rest, pos - reps[0].end + Drift(reps[1..], pos), part);
    assert |front| == reps[0].start - last + |reps[0].newValue|;
    assert Drift(reps, pos) == |reps[0].newValue| - (reps[0].end - reps[0].start) + Drift(reps[1..], pos);
  }

  lemma NothingEndsBefore(reps: seq<Replacement>, n: nat, pos: nat)
    requires InText(reps, n) && Ordered(reps) && reps != [] && pos < reps[0].end
    ensures Drift(reps, pos) == 0
  {
    forall i | 0 <= i < |reps|
      ensures pos < reps[i].end
    {
      assert i > 0 ==> reps[0].end <= reps[i].start;
    }
    NoDriftBefore(reps, pos);
  }

  lemma SliceOfSlice(s: string, i: nat, j: nat, a: nat, b: nat)
    requires i <= a <= b <= j <= |s|
    ensures StandsAt(s[i..j], a - i, s[a..b])
  {
    var mid, part := s[i..j], s[a..b];
    assert forall x :: 0 <= x < b - a ==> mid[a - i..][..b - a][x] == mid[a - i + x] == s[a + x] == part[x];
    assert mid[a - i..a - i + |part|] == mid[a - i..][..b - a];
  }

  /** A stretch in front of all edits is in the output where it was. */
  lemma FrontStays(content: string, reps: seq<Replacement>, last: nat, a: nat, b: nat)
    requires InText(reps, |content|) && Ordered(reps) && last <= a <= b <= |content|
    requires reps != [] ==> b <= reps[0].start
    ensures StandsAt(Applied(content, reps, last), a - last + Drift(reps, a), content[a..b])
  {
    if reps == [] {
      SliceOfSlice(content, last, |content|, a, b);
      assert content[last..|content|] == content[last..];
    } else {
      NothingEndsBefore(reps, |content|, a);
      AppliedFirst(content, reps, last);
      SliceOfSlice(content, last, reps[0].start, a, b);
      StandsBeforeTwo(content[last..reps[0].start], reps[0].newValue, Applied(content, reps[1..], reps[0].end), a - last, content[a..b]);
    }
  }

  lemma StandsBeforeTwo(front: string, mid: string, rest: string, p: nat, part: string)
    requires StandsAt(front, p, part)
    ensures StandsAt((front + mid) + rest, p, part)
  {
    StandsBefore(front, mid, p, part);
    StandsBefore(front + mid, rest, p, part);
  }

  /** A stretch no edit touches is in the output, moved by the drift of the edits before it. */
  lemma {:induction false} StretchStays(content: string, reps: seq<Replacement>, last: nat, a: nat, b: nat)
    requires InText(reps, |content|) && Ordered(reps) && last <= a <= b <= |content|
    requires reps != [] ==> last <= reps[0].start
    requires forall i :: 0 <= i < |reps| ==> reps[i].end <= a || b <= reps[i].start
    ensures StandsAt(Applied(content, reps, last), a - last + Drift(reps, a), content[a..b])
  {
    if reps != [] && reps[0].end <= a {
      StretchStays(content, reps[1..], reps[0].end, a, b);
      StandsBehindFirst(content, reps, last, a, content[a..b]);
    } else {
      FrontStays(content, reps, last, a, b);
    }
  }

  /** The new text of an edit stands where the text it replaces was, moved by the drift of the edits before it. */
  ghost predicate Lands(content: string, reps: seq<Replacement>, last: nat, e: Replacement)
    requires InText(reps, |content|) && last <= |content|
  {
    StandsAt(Applied(content, reps, last), e.start - last + Drift(reps, e.start), e.newValue)
  }

  lemma FirstEditStands(content: string, reps: seq<Replacement>, last: nat)
    requires InText(reps, |content|) && Ordered(reps) && last <= |content| && reps != [] && last <= reps[0].start
    ensures Lands(content, reps, last, reps[0])
  {
    NothingEndsBefore(reps, |content|, reps[0].start);
    AppliedFirst(content, reps, last);
    var front, text := content[last..reps[0].start], reps[0].newValue;
    assert StandsAt(front + text, |front|, text);
    StandsBefore(front + text, Applied(content, reps[1..], reps[0].end), |front|, text);
  }

  lemma LandsBehindFirst(content: string, reps: seq<Replacement>, last: nat, e: Replacement)
    requires InText(reps, |content|) && last <= |content| && reps != [] && last <= reps[0].start && reps[0].end <= e.start
    requires Lands(content, reps[1..], reps[0].end, e)
    ensures Lands(content, reps, last, e)
  {
    StandsBehindFirst(content, reps, last, e.start, e.newValue);
  }

  /** Every edit lands. */
  lemma {:induction false} EditStands(content: string, reps: seq<Replacement>, last: nat, k: nat)
    requires InText(reps, |content|) && Ordered(reps) && last <= |content| && k < |reps|
    requires last <= reps[0].start
    ensures Lands(content, reps, last, reps[k])
  {
    if k > 0 {
      var e, rest := reps[k], reps[1..];
      assert rest[k - 1] == e && reps[0].end <= e.start;
      assert rest[0].start >= reps[0].end;
      EditStands(content, rest, reps[0].end, k - 1);
      LandsBehindFirst(content, reps, last, e);
    } else {
      FirstEditStands(content, reps, last);
    }
  }

  // ----- dropping overlaps -----

  /** The edits the filter keeps of the first ones: each starts where the last kept one has ended. */
  ghost function Kept(reps: seq<Replacement>): (kept: seq<Replacement>)
    ensures |kept| <= |reps| && (reps != [] ==> kept != [])
  {
    if reps == [] then []
    else
      var front, r := Kept(reps[..|reps| - 1]), reps[|reps| - 1];
      if front != [] && r.start < front[|front| - 1].end then front else front + [r]
  }

  lemma OrderedMore(kept: seq<Replacement>, r: Replacement, n: nat)
    requires Ordered(kept) && InText(kept, n) && InText([r], n) && (kept != [] ==> kept[|kept| - 1].end <= r.start)
    ensures Ordered(kept + [r]) && InText(kept + [r], n)
  {
    assert [r][0] == r;
    forall i | 0 <= i < |kept|
      ensures kept[i].end <= r.start
    {
      assert i < |kept| - 1 ==> kept[i].end <= kept[|kept| - 1].start;
    }
  }

  /** What the filter keeps of sorted edits is ordered, and every kept edit is one of the given ones. */
  lemma {:induction false} KeptIsOrdered(reps: seq<Replacement>, n: nat)
    requires InText(reps, n)
    ensures Ordered(Kept(reps)) && InText(Kept(reps), n)
    ensures forall r :: r in Kept(reps) ==> r in reps
  {
    if reps != [] {
      var front, r := reps[..|reps| - 1], reps[|reps| - 1];
      KeptIsOrdered(front, n);
      assert forall e :: e in front ==> e in reps;
      if Kept(front) == [] || Kept(front)[|Kept(front)| - 1].end <= r.start { OrderedMore(Kept(front), r, n); }
    }
  }

  /** The kept edit at index i begins no later than r, and r begins inside it. */
  predicate Shadows(reps: seq<Replacement>, i: nat, r: Replacement)
  {
    i < |reps| && reps[i].start <= r.start < reps[i].end
  }

  /** Nothing is dropped without need: a dropped edit begins inside one that stands before it and is kept. */
  lemma {:induction false} DroppedOverlapsKept(reps: seq<Replacement>, n: nat, j: nat)
    requires InText(reps, n) && SortedStarts(reps) && j < |reps| && reps[j] !in Kept(reps)
    ensures exists i: nat :: i < j && reps[i] in Kept(reps) && Shadows(reps, i, reps[j])
  {
    var m := |reps| - 1;
    var front := reps[..m];
    var kept := Kept(front);
    if j < m {
      assert front[j] == reps[j];
      DroppedOverlapsKept(front, n, j);
      var i: nat :| i < j && front[i] in kept && Shadows(front, i, front[j]);
      assert reps[i] == front[i] && Shadows(reps, i, reps[j]);
    } else {
      var last := kept[|kept| - 1];
      KeptIsOrdered(front, n);
      assert last in kept && last in front;
      var i: nat :| i < m && front[i] == last;
      assert reps[i] == last && last in Kept(reps) && Shadows(reps, i, reps[j]);
    }
  }

  /** The compaction loop: it overwrites the front of the very slice it reads. */
  method CompactOverlaps(a: array<Replacement>) returns (n: nat)
    modifies a
    ensures n <= a.Length && a[..n] == Kept(old(a[..]))
  {
    n := 0;
    ghost var reps := a[..];
    for k := 0 to a.Length
      invariant n <= k
      invariant a[..n] == Kept(reps[..k])
      invariant a[k..] == reps[k..]
    {
      var r := a[k];
      assert reps[..k + 1][..k] == reps[..k] && a[k] == a[k..][0] == reps[k];
      assert a[k + 1..] == a[k..][1..] == reps[k + 1..];
      if n > 0 && r.start < a[n - 1].end {
        assert a[..n][n - 1] == a[n - 1];
        continue;
      }
      ghost var before := a[..n];
      assert n > 0 ==> before[n - 1] == a[n - 1];
      a[n] := r;
      assert a[..n + 1] == before + [r];
      n := n + 1;
    }
    assert reps[..a.Length] == reps;
  }
}
