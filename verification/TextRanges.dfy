/** mergeRanges and isExcludedOffset of internal/links/link_refactor.go: the byte ranges inside code. */
module TextRanges {
  import opened Common

  datatype Range = Range(start: int, stop: int)

  predicate InRange(r: Range, offset: int)
  {
    r.start <= offset < r.stop
  }

  /** offset lies in one of the ranges, whatever their order, overlaps or emptiness. */
  ghost predicate Covered(ranges: seq<Range>, offset: int)
  {
    exists r :: r in ranges && InRange(r, offset)
  }

  predicate Before(a: Range, b: Range)
  {
    a.start < b.start || (a.start == b.start && a.stop <= b.stop)
  }

  ghost predicate SortedByStart(ranges: seq<Range>)
  {
    forall i, j :: 0 <= i < j < |ranges| ==> ranges[i].start <= ranges[j].start
  }

  function Insert(r: Range, sorted: seq<Range>): (out: seq<Range>)
    requires SortedByStart(sorted)
    ensures SortedByStart(out) && |out| == |sorted| + 1
    ensures forall x :: x in out <==> x == r || x in sorted
    ensures forall i :: 0 <= i < |out| ==> out[i].start >= r.start || (sorted != [] && out[i].start >= sorted[0].start)
  {
    if sorted == [] || Before(r, sorted[0]) then [r] + sorted
    else
      var rest := Insert(r, sorted[1..]);
      assert [sorted[0]] + sorted[1..] == sorted;
      [sorted[0]] + rest
  }

  /** sort.Slice by start, then stop. */
  function Sorted(ranges: seq<Range>): (out: seq<Range>)
    ensures SortedByStart(out) && |out| == |ranges|
    ensures forall x :: x in out <==> x in ranges
  {
    if ranges == [] then []
    else
      assert [ranges[0]] + ranges[1..] == ranges;
      Insert(ranges[0], Sorted(ranges[1..]))
  }

  /** mergeRanges: the merged ranges are sorted and cover exactly what the raw ranges cover. */
  method MergeRanges(raw: seq<Range>) returns (merged: seq<Range>)
    ensures SortedByStart(merged)
    ensures forall o :: Covered(merged, o) <==> Covered(raw, o)
  {
    if |raw| < 2 {
      return raw;
    }
    var ranges := Sorted(raw);
    merged := [];
    var current := ranges[0];
    for i := 1 to |ranges|
      invariant SortedByStart(merged) && forall j :: 0 <= j < |merged| ==> merged[j].start <= current.start
      invariant current.start <= ranges[i - 1].start
      invariant forall o :: Covered(merged + [current], o) <==> Covered(ranges[..i], o)
    {
      var next := ranges[i];
      assert ranges[..i + 1] == ranges[..i] + [next];
      ghost var before := merged + [current];
      CoveredGrows(ranges[..i], next);
      if next.start <= current.stop {
        if next.stop > current.stop {
          MergedCovers(merged, current, next);
          current := current.(stop := next.stop);
        } else {
          assert forall o :: InRange(next, o) ==> InRange(current, o) && current in before;
        }
        continue;
      }
      merged := merged + [current];
      CoveredGrows(before, next);
      current := next;
    }
    assert ranges[..|ranges|] == ranges;
    merged := merged + [current];
  }

  lemma CoveredGrows(ranges: seq<Range>, next: Range)
    ensures forall o :: Covered(ranges + [next], o) <==> Covered(ranges, o) || InRange(next, o)
  {
    forall o
      ensures Covered(ranges + [next], o) <==> Covered(ranges, o) || InRange(next, o)
    {
      if Covered(ranges, o) {
        var r :| r in ranges && InRange(r, o);
        assert r in ranges + [next];
      }
      if InRange(next, o) { assert next in ranges + [next]; }
    }
  }

  /** Extending the current range over one that touches it adds exactly that one. */
  lemma MergedCovers(merged: seq<Range>, current: Range, next: Range)
    requires current.start <= next.start <= current.stop < next.stop
    ensures forall o :: Covered(merged + [current.(stop := next.stop)], o) <==>
                        Covered(merged + [current], o) || InRange(next, o)
  {
    CoveredGrows(merged, current);
    CoveredGrows(merged, current.(stop := next.stop));
  }

  /** isExcludedOffset stops at the first range that starts later; on sorted ranges that loses nothing. */
  method IsExcludedOffset(offset: int, ranges: seq<Range>) returns (excluded: bool)
    requires SortedByStart(ranges)
    ensures excluded <==> Covered(ranges, offset)
  {
    for i := 0 to |ranges|
      invariant forall j :: 0 <= j < i ==> !InRange(ranges[j], offset)
    {
      if InRange(ranges[i], offset) {
        assert ranges[i] in ranges;
        return true;
      }
      if offset < ranges[i].start {
        return false;
      }
    }
    excluded := false;
  }
}
