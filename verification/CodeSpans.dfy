/**
 The importer's scanner for code: rewriteOutsideCodeSpans and its helpers in
 internal/importer/content_transformer.go. It follows the code, which is not a full CommonMark scanner.
 */
module CodeSpans {
  import opened Common
  import opened Text
  import R = Replacements

  // ----- where code starts and where it ends, as functions of the text -----

  predicate IsLineStart(content: string, i: nat)
    requires i <= |content|
  {
    i == 0 || content[i - 1] == '\n'
  }

  /** How many copies of c stand at position i. */
  function RunLength(content: string, i: nat, c: char): (n: nat)
    requires i <= |content|
    ensures i + n <= |content|
    decreases |content| - i
  {
    if i < |content| && content[i] == c then RunLength(content, i + 1, c) + 1 else 0
  }

  lemma {:induction false} RunOf(content: string, i: nat, c: char)
    requires i <= |content|
    ensures forall j :: i <= j < i + RunLength(content, i, c) ==> content[j] == c
    ensures i + RunLength(content, i, c) < |content| ==> content[i + RunLength(content, i, c)] != c
    decreases |content| - i
  {
    if i < |content| && content[i] == c { RunOf(content, i + 1, c); }
  }

  /** Where the line of position i ends: at its newline, or with the text. */
  function LineEnd(content: string, i: nat): (end: nat)
    requires i <= |content|
    ensures i <= end <= |content|
    decreases |content| - i
  {
    if i < |content| && content[i] != '\n' then LineEnd(content, i + 1) else i
  }

  lemma {:induction false} LineOf(content: string, i: nat)
    requires i <= |content|
    ensures forall j :: i <= j < LineEnd(content, i) ==> content[j] != '\n'
    ensures LineEnd(content, i) < |content| ==> content[LineEnd(content, i)] == '\n'
    decreases |content| - i
  {
    if i < |content| && content[i] != '\n' { LineOf(content, i + 1); }
  }

  /** How many copies of c a line starts with, behind at most three spaces. */
  function FenceRun(content: string, i: nat, c: char): (n: nat)
    requires i <= |content|
  {
    var indent := RunLength(content, i, ' ');
    if !IsLineStart(content, i) || indent > 3 then 0 else RunLength(content, i + indent, c)
  }

  datatype Fence = Fence(mark: char, length: nat)

  /** The fence that opens a block on the line starting at i. */
  function FenceAt(content: string, i: nat): Option<Fence>
    requires i <= |content|
  {
    if FenceRun(content, i, '`') >= 3 then Some(Fence('`', FenceRun(content, i, '`')))
    else if FenceRun(content, i, '~') >= 3 then Some(Fence('~', FenceRun(content, i, '~')))
    else None
  }

  /** The first line from position at on that closes a fence: as many fence characters or more, whatever follows. */
  function ClosingLine(content: string, at: nat, fence: Fence): (r: Option<nat>)
    requires at <= |content|
    ensures r.Some? ==> at <= r.value <= |content|
    decreases |content| - at
  {
    if FenceRun(content, at, fence.mark) >= fence.length then Some(at)
    else if at == |content| then None
    else ClosingLine(content, at + 1, fence)
  }

  /** It is the first such line, and none is missed. */
  lemma {:induction false} ClosingLineIsFirst(content: string, at: nat, fence: Fence)
    requires at <= |content|
    ensures
      var r := ClosingLine(content, at, fence);
      && (r.Some? ==> FenceRun(content, r.value, fence.mark) >= fence.length)
      && forall j :: at <= j <= |content| && (r.Some? ==> j < r.value) ==> FenceRun(content, j, fence.mark) < fence.length
    decreases |content| - at
  {
    if FenceRun(content, at, fence.mark) < fence.length && at < |content| { ClosingLineIsFirst(content, at + 1, fence); }
  }

  function BehindLine(content: string, i: nat): nat
    requires i <= |content|
  {
    if LineEnd(content, i) < |content| then LineEnd(content, i) + 1 else |content|
  }

  /** A block ends behind its closing line, or with the text. */
  function FenceEnd(content: string, start: nat, fence: Fence): nat
    requires start < |content|
  {
    var close := ClosingLine(content, start + 1, fence);
    if close.Some? then BehindLine(content, close.value) else |content|
  }

  /** The first position from at on with n backticks that no further backtick follows; others may stand before. */
  function ClosingTicks(content: string, at: nat, n: nat): (r: Option<nat>)
    requires at <= |content|
    ensures r.Some? ==> at <= r.value <= |content| - n
    decreases |content| - at
  {
    if RunLength(content, at, '`') == n then Some(at)
    else if at == |content| then None
    else ClosingTicks(content, at + 1, n)
  }

  lemma {:induction false} ClosingTicksAreFirst(content: string, at: nat, n: nat)
    requires at <= |content|
    ensures
      var r := ClosingTicks(content, at, n);
      && (r.Some? ==> RunLength(content, r.value, '`') == n)
      && forall j :: at <= j <= |content| && (r.Some? ==> j < r.value) ==> RunLength(content, j, '`') != n
    decreases |content| - at
  {
    if RunLength(content, at, '`') != n && at < |content| { ClosingTicksAreFirst(content, at + 1, n); }
  }

  /** An inline span ends behind its closing backticks, or with the text. */
  function InlineEnd(content: string, start: nat, n: nat): nat
    requires start + n <= |content|
  {
    var close := ClosingTicks(content, start + n, n);
    if close.Some? then close.value + n else |content|
  }

  predicate StartsCode(content: string, i: nat)
    requires i < |content|
  {
    content[i] == '`' || FenceAt(content, i).Some?
  }

  function CodeEnd(content: string, i: nat): nat
    requires i < |content| && StartsCode(content, i)
  {
    if FenceAt(content, i).Some? then FenceEnd(content, i, FenceAt(content, i).value)
    else InlineEnd(content, i, RunLength(content, i, '`'))
  }

  /** Code is never empty and stays within the text. */
  lemma CodeAdvances(content: string, i: nat)
    requires i < |content| && StartsCode(content, i)
    ensures i < CodeEnd(content, i) <= |content|
  {
    if FenceAt(content, i).None? {
      assert RunLength(content, i, '`') > 0;
    }
  }

  /**
   A span of n backticks is closed by any longer run too, at its last n backticks: CommonMark section 6.1
   asks for a run of equal length.
   */
  lemma LongerRunCloses(content: string, start: nat, n: nat, at: nat)
    requires n > 0 && start + n <= at <= |content| && RunLength(content, at, '`') >= n
    requires forall j :: start + n <= j < at ==> content[j] != '`'
    ensures InlineEnd(content, start, n) == at + RunLength(content, at, '`')
  {
    var m := RunLength(content, at, '`');
    forall j | at <= j <= at + m
      ensures RunLength(content, j, '`') == at + m - j
    {
      RunTail(content, at, j);
    }
    forall j | start + n <= j < at
      ensures RunLength(content, j, '`') == 0
    {
    }
    assert RunLength(content, at + m - n, '`') == n;
    ClosingTicksAreFirst(content, start + n, n);
    assert ClosingTicks(content, start + n, n) == Some(at + m - n);
  }

  lemma {:induction false} RunTail(content: string, at: nat, j: nat)
    requires at <= |content| && at <= j <= at + RunLength(content, at, '`')
    ensures RunLength(content, j, '`') == at + RunLength(content, at, '`') - j
    decreases |content| - at
  {
    if at < j { RunTail(content, at + 1, j); }
  }

  // ----- the same, read off the text -----

  /** Exactly n copies of c stand at i: no fewer, and the text ends behind them or goes on with something else. */
  ghost predicate IsRun(content: string, i: nat, n: nat, c: char)
  {
    i + n <= |content| && (forall j :: i <= j < i + n ==> content[j] == c) && (i + n < |content| ==> content[i + n] != c)
  }

  lemma RunIff(content: string, i: nat, n: nat, c: char)
    requires i <= |content|
    ensures RunLength(content, i, c) == n <==> IsRun(content, i, n, c)
  {
    RunOf(content, i, c);
  }

  /** A line begins at i with at most three spaces and then exactly n copies of c. */
  ghost predicate Fences(content: string, i: nat, n: nat, c: char)
  {
    i <= |content| && (i == 0 || content[i - 1] == '\n') &&
    exists indent: nat :: indent <= 3 && IsRun(content, i, indent, ' ') && IsRun(content, i + indent, n, c)
  }

  lemma FencesIff(content: string, i: nat, n: nat, c: char)
    requires i <= |content| && n > 0
    ensures FenceRun(content, i, c) == n <==> Fences(content, i, n, c)
  {
    var indent := RunLength(content, i, ' ');
    RunIff(content, i, indent, ' ');
    RunIff(content, i + indent, n, c);
    if Fences(content, i, n, c) {
      var k: nat :| k <= 3 && IsRun(content, i, k, ' ') && IsRun(content, i + k, n, c);
      RunIff(content, i, k, ' ');
    }
  }

  lemma FenceMark(content: string, i: nat, c: char)
    requires i <= |content| && FenceRun(content, i, c) > 0
    ensures i + RunLength(content, i, ' ') < |content| && content[i + RunLength(content, i, ' ')] == c
  {
    RunOf(content, i + RunLength(content, i, ' '), c);
  }

  /** What opens a block: a line that begins with three or more backticks, or tildes. */
  lemma FenceAtIff(content: string, i: nat, fence: Fence)
    requires i <= |content|
    ensures FenceAt(content, i) == Some(fence) <==> fence.mark in {'`', '~'} && fence.length >= 3 && Fences(content, i, fence.length, fence.mark)
  {
    var ticks, tildes := FenceRun(content, i, '`'), FenceRun(content, i, '~');
    if fence.length > 0 { FencesIff(content, i, fence.length, fence.mark); }
    if ticks > 0 { FenceMark(content, i, '`'); }
    if tildes > 0 { FenceMark(content, i, '~'); }
  }

  /** The line at j closes the fence: it begins with as many of its marks, or more. */
  ghost predicate ClosesFence(content: string, j: nat, fence: Fence)
  {
    exists n :: n >= fence.length && Fences(content, j, n, fence.mark)
  }

  lemma ClosesFenceIff(content: string, j: nat, fence: Fence)
    requires j <= |content| && fence.length > 0
    ensures ClosesFence(content, j, fence) <==> FenceRun(content, j, fence.mark) >= fence.length
  {
    if n :| n >= fence.length && Fences(content, j, n, fence.mark) { FencesIff(content, j, n, fence.mark); }
    if FenceRun(content, j, fence.mark) >= fence.length { FencesIff(content, j, FenceRun(content, j, fence.mark), fence.mark); }
  }

  /** The line that j stands on ends before `end`, with its newline or with the text. */
  ghost predicate LineEndsAt(content: string, j: nat, end: nat)
  {
    && j <= end <= |content| && (forall k :: j <= k < end - 1 ==> content[k] != '\n')
    && (end == |content| || (end > j && content[end - 1] == '\n'))
  }

  /** A block ends behind the first line that closes it, or with the text when none does. */
  lemma FenceEndIs(content: string, start: nat, fence: Fence)
    requires start < |content| && fence.length > 0
    ensures forall j :: start < j <= |content| && ClosesFence(content, j, fence) && (forall k :: start < k < j ==> !ClosesFence(content, k, fence)) ==>
              LineEndsAt(content, j, FenceEnd(content, start, fence))
    ensures (forall j :: start < j <= |content| ==> !ClosesFence(content, j, fence)) ==> FenceEnd(content, start, fence) == |content|
  {
    forall j: nat | j <= |content| { ClosesFenceIff(content, j, fence); }
    ClosingLineIsFirst(content, start + 1, fence);
    var close := ClosingLine(content, start + 1, fence);
    if close.Some? { LineOf(content, close.value); }
  }

  /** A span of n backticks ends behind the first n backticks that no further one follows, or with the text when there are none. */
  lemma InlineEndIs(content: string, start: nat, n: nat)
    requires start + n <= |content|
    ensures forall j :: start + n <= j <= |content| && IsRun(content, j, n, '`') && (forall k :: start + n <= k < j ==> !IsRun(content, k, n, '`')) ==>
              InlineEnd(content, start, n) == j + n
    ensures (forall j :: start + n <= j <= |content| ==> !IsRun(content, j, n, '`')) ==> InlineEnd(content, start, n) == |content|
  {
    forall j: nat | j <= |content| { RunIff(content, j, n, '`'); }
    ClosingTicksAreFirst(content, start + n, n);
  }

  /** Code starts at a backtick, and at a line that opens a block; where both do, it is the block. */
  lemma CodeIs(content: string, i: nat, n: nat, c: char)
    requires i < |content|
    ensures c in {'`', '~'} && n >= 3 && Fences(content, i, n, c) ==> StartsCode(content, i) && CodeEnd(content, i) == FenceEnd(content, i, Fence(c, n))
    ensures n > 0 && IsRun(content, i, n, '`') && FenceAt(content, i).None? ==> StartsCode(content, i) && CodeEnd(content, i) == InlineEnd(content, i, n)
    ensures content[i] != '`' && FenceAt(content, i).None? ==> !StartsCode(content, i)
  {
    if n > 0 {
      FenceAtIff(content, i, Fence(c, n));
      RunIff(content, i, n, '`');
    }
  }

  // ----- the code's loops -----

  /** countRepeatedByte, and countLeadingByte from position 0. */
  method CountRepeatedByte(content: string, start: nat, target: char) returns (count: nat)
    requires start <= |content|
    ensures count == RunLength(content, start, target)
  {
    count := 0;
    while start + count < |content| && content[start + count] == target
      invariant start + count <= |content|
      invariant RunLength(content, start, target) == count + RunLength(content, start + count, target)
    {
      count := count + 1;
    }
  }

  method FindLineEnd(content: string, start: nat) returns (lineEnd: nat)
    requires start <= |content|
    ensures lineEnd == LineEnd(content, start)
  {
    lineEnd := start;
    while lineEnd < |content| && content[lineEnd] != '\n'
      invariant start <= lineEnd <= |content| && LineEnd(content, start) == LineEnd(content, lineEnd)
    {
      lineEnd := lineEnd + 1;
    }
  }

  /** A run of anything but newlines stays on its line. */
  lemma RunStaysOnLine(content: string, i: nat, c: char)
    requires i <= |content| && c != '\n'
    ensures i + RunLength(content, i, c) <= LineEnd(content, i)
  {
    var n, end := RunLength(content, i, c), LineEnd(content, i);
    RunOf(content, i, c);
    LineOf(content, i);
    assert forall j :: i <= j < i + n ==> content[j] != '\n';
  }

  /** The run of c behind the spaces of a line, none if the indent exceeds three. */
  lemma FenceRunOnLine(content: string, i: nat, c: char)
    requires i <= |content| && c != '\n'
    ensures FenceRun(content, i, c) <= LineEnd(content, i) - i - RunLength(content, i, ' ') || FenceRun(content, i, c) == 0
  {
    var indent := RunLength(content, i, ' ');
    RunStaysOnLine(content, i, ' ');
    RunStaysOnLine(content, i + indent, c);
    LineEndFrom(content, i, i + indent);
  }

  lemma {:induction false} LineEndFrom(content: string, i: nat, j: nat)
    requires i <= |content| && i <= j <= LineEnd(content, i)
    ensures LineEnd(content, j) == LineEnd(content, i)
    decreases |content| - i
  {
    if i < j { LineEndFrom(content, i + 1, j); }
  }

  /** detectFenceStart. */
  method DetectFenceStart(content: string, index: nat) returns (fence: Option<Fence>)
    requires index < |content|
    ensures fence == FenceAt(content, index)
  {
    FenceRunOnLine(content, index, '`');
    FenceRunOnLine(content, index, '~');
    if !IsLineStart(content, index) {
      return None;
    }
    var lineEnd := FindLineEnd(content, index);
    var indent := CountRepeatedByte(content, index, ' ');
    RunStaysOnLine(content, index, ' ');
    if indent > 3 || lineEnd - index - indent < 3 {
      return None;
    }
    var c := content[index + indent];
    if c == '`' || c == '~' {
      var runLen := CountRepeatedByte(content, index + indent, c);
      if runLen >= 3 {
        return Some(Fence(c, runLen));
      }
    }
    return None;
  }

  /** No position inside a line is the start of a line. */
  lemma NoLineStartsWithin(content: string, i: nat, j: nat)
    requires i <= |content| && i < j <= LineEnd(content, i)
    ensures !IsLineStart(content, j)
  {
    LineOf(content, i);
  }

  /** The search may skip lines that do not close. */
  lemma {:induction false} SkipTo(content: string, at: nat, to: nat, fence: Fence)
    requires at <= to <= |content| && forall j :: at <= j < to ==> FenceRun(content, j, fence.mark) < fence.length
    ensures ClosingLine(content, at, fence) == ClosingLine(content, to, fence)
    decreases |content| - at
  {
    if at < to { SkipTo(content, at + 1, to, fence); }
  }

  /** The rest of a line that does not close, and its newline, may be skipped. */
  lemma SkipLine(content: string, at: nat, i: nat, fence: Fence)
    requires fence.length > 0 && i <= |content| && i <= at <= i + 1
    requires at == i ==> FenceRun(content, i, fence.mark) < fence.length
    ensures LineEnd(content, i) == |content| && at <= |content| ==> ClosingLine(content, at, fence).None?
    ensures LineEnd(content, i) < |content| ==> ClosingLine(content, at, fence) == ClosingLine(content, LineEnd(content, i) + 1, fence)
  {
    var end := LineEnd(content, i);
    forall j | at <= j <= end
      ensures FenceRun(content, j, fence.mark) < fence.length
    {
      if i < j { NoLineStartsWithin(content, i, j); }
    }
    if end < |content| {
      SkipTo(content, at, end + 1, fence);
    } else if at <= |content| {
      ClosingLineIsFirst(content, at, fence);
    }
  }

  /** findFenceEnd. */
  method FindFenceEnd(content: string, start: nat, fence: Fence) returns (end: nat)
    requires start < |content| && fence.length >= 3 && fence.mark in {'`', '~'}
    ensures end == FenceEnd(content, start, fence)
  {
    var i := start;
    while true
      invariant start <= i <= |content|
      invariant i > start ==> IsLineStart(content, i) && ClosingLine(content, start + 1, fence) == ClosingLine(content, i, fence)
      decreases |content| - i
    {
      var lineEnd := FindLineEnd(content, i);
      if i > start {
        var indent := CountRepeatedByte(content, i, ' ');
        RunStaysOnLine(content, i, ' ');
        FenceRunOnLine(content, i, fence.mark);
        if indent <= 3 && lineEnd - i - indent >= fence.length {
          var run := CountRepeatedByte(content, i + indent, fence.mark);
          if run >= fence.length {
            return if lineEnd < |content| then lineEnd + 1 else lineEnd;
          }
        }
      }
      SkipLine(content, if i > start then i else start + 1, i, fence);
      if lineEnd >= |content| {
        return |content|;
      }
      LineOf(content, i);
      i := lineEnd + 1;
    }
  }

  /** findInlineCodeEnd: strings.IndexByte is the inner loop. */
  method FindInlineCodeEnd(content: string, start: nat, delimiterLen: nat) returns (end: nat)
    requires start + delimiterLen <= |content| && delimiterLen > 0
    ensures end == InlineEnd(content, start, delimiterLen)
  {
    var searchFrom := start + delimiterLen;
    while searchFrom < |content|
      invariant start + delimiterLen <= searchFrom <= |content|
      invariant ClosingTicks(content, start + delimiterLen, delimiterLen) == ClosingTicks(content, searchFrom, delimiterLen)
    {
      var next := searchFrom;
      while next < |content| && content[next] != '`'
        invariant searchFrom <= next <= |content|
        invariant ClosingTicks(content, searchFrom, delimiterLen) == ClosingTicks(content, next, delimiterLen)
      {
        next := next + 1;
      }
      if next == |content| {
        return |content|;
      }
      var run := CountRepeatedByte(content, next, '`');
      if run == delimiterLen {
        return next + delimiterLen;
      }
      searchFrom := next + 1;
    }
    return |content|;
  }

  // ----- the partition -----

  /** The code found so far, last first: each code behind the ones before it. */
  datatype Scan = Begin | Behind(before: Scan, start: nat, stop: nat)
  {
    /** Where the plain text behind the code begins. */
    function Plain(): nat
    {
      if Begin? then 0 else stop
    }

    function Length(): nat
    {
      if Begin? then 0 else before.Length() + 1
    }
  }

  /** No code starts in the plain text from a up to b. */
  ghost predicate PlainText(content: string, a: nat, b: nat)
  {
    a <= b <= |content| && forall i :: a <= i < b ==> !StartsCode(content, i)
  }

  /** Each code starts where code first starts behind the one before, and ends where that code ends. */
  ghost predicate IsCode(content: string, scan: Scan)
  {
    scan.Plain() <= |content| &&
    match scan
    case Begin => true
    case Behind(before, start, stop) =>
      && IsCode(content, before) && start < stop && PlainText(content, before.Plain(), start)
      && start < |content| && StartsCode(content, start) && stop == CodeEnd(content, start)
  }

  /** The scan is all the code of the text up to upTo, where none begins again. */
  ghost predicate CodeUpTo(content: string, scan: Scan, upTo: nat)
  {
    IsCode(content, scan) && PlainText(content, scan.Plain(), upTo)
  }

  lemma {:induction false} SameLengthSameCode(content: string, a: Scan, b: Scan)
    requires IsCode(content, a) && IsCode(content, b) && a.Length() == b.Length()
    ensures a == b
  {
    if a.Behind? {
      SameLengthSameCode(content, a.before, b.before);
      assert forall i :: a.before.Plain() <= i < a.start || b.before.Plain() <= i < b.start ==> !StartsCode(content, i);
    }
  }

  lemma {:induction false} NoMoreCode(content: string, a: Scan, b: Scan)
    requires CodeUpTo(content, a, |content|) && IsCode(content, b)
    ensures b.Length() <= a.Length()
  {
    if b.Length() > a.Length() {
      NoMoreCode(content, a, b.before);
      SameLengthSameCode(content, a, b.before);
      assert false;
    }
  }

  /** The text decides its code: there is one way to split it. */
  lemma ScansAgree(content: string, a: Scan, b: Scan)
    requires CodeUpTo(content, a, |content|) && CodeUpTo(content, b, |content|)
    ensures a == b
  {
    NoMoreCode(content, a, b);
    NoMoreCode(content, b, a);
    SameLengthSameCode(content, a, b);
  }

  /** What to put in place of a plain piece that begins at a position; the importer's error stops the pass. */
  type Rewrite = (nat, string) -> Result<string, string>

  /** The scan splits the text into plain pieces and code. */
  predicate Splits(content: string, scan: Scan)
  {
    scan.Plain() <= |content| && (scan.Behind? ==> scan.before.Plain() <= scan.start <= scan.stop && Splits(content, scan.before))
  }

  lemma {:induction false} CodeSplits(content: string, scan: Scan)
    requires IsCode(content, scan)
    ensures Splits(content, scan)
  {
    if scan.Behind? { CodeSplits(content, scan.before); }
  }

  /** The output up to the last code: plain text rewritten, code verbatim; the first error wins. */
  function Output(content: string, scan: Scan, rewrite: Rewrite): Result<string, string>
    requires Splits(content, scan)
  {
    match scan
    case Begin => Ok("")
    case Behind(before, start, stop) =>
      var done := Output(content, before, rewrite);
      if done.Err? then done
      else
        var plain := rewrite(before.Plain(), content[before.Plain()..start]);
        if plain.Err? then plain else Ok(done.value + plain.value + content[start..stop])
  }

  function WholeOutput(content: string, scan: Scan, rewrite: Rewrite): Result<string, string>
    requires Splits(content, scan)
  {
    var done := Output(content, scan, rewrite);
    if done.Err? then done
    else
      var plain := rewrite(scan.Plain(), content[scan.Plain()..]);
      if plain.Err? then plain else Ok(done.value + plain.value)
  }

  // ----- the parts of the text, and what becomes of them -----

  /** The pieces in front of each code, and the codes. */
  function Before(content: string, scan: Scan): (texts: seq<string>)
    requires Splits(content, scan)
    ensures |texts| == scan.Length()
  {
    if scan.Begin? then [] else Before(content, scan.before) + [content[scan.before.Plain()..scan.start]]
  }

  function Inside(content: string, scan: Scan): (texts: seq<string>)
    requires Splits(content, scan)
    ensures |texts| == scan.Length()
  {
    if scan.Begin? then [] else Inside(content, scan.before) + [content[scan.start..scan.stop]]
  }

  /** Where the pieces begin. */
  function BeginningsOf(scan: Scan): (at: seq<nat>)
    ensures |at| == scan.Length()
  {
    if scan.Begin? then [] else BeginningsOf(scan.before) + [scan.before.Plain()]
  }

  lemma {:induction false} InterleaveMore(gaps: seq<string>, texts: seq<string>, text: string, gap: string)
    requires |gaps| == |texts| + 1
    ensures R.Interleave(gaps + [gap], texts + [text]) == R.Interleave(gaps, texts) + text + gap
  {
    if texts == [] {
      assert texts + [text] == [text] && (gaps + [gap])[1..] == [gap] && [text][1..] == [];
      assert R.Interleave(gaps + [gap], [text]) == gaps[0] + text + R.Interleave([gap], []);
    } else {
      assert (gaps + [gap])[1..] == gaps[1..] + [gap] && (texts + [text])[1..] == texts[1..] + [text];
      InterleaveMore(gaps[1..], texts[1..], text, gap);
      assert gaps[0] + texts[0] + (R.Interleave(gaps[1..], texts[1..]) + text + gap) == gaps[0] + texts[0] + R.Interleave(gaps[1..], texts[1..]) + text + gap;
    }
  }

  lemma {:induction false} LastGap(front: seq<string>, last: string, texts: seq<string>)
    requires |front| == |texts|
    ensures R.Interleave(front + [last], texts) == R.Interleave(front + [""], texts) + last
  {
    if texts == [] {
      assert front + [last] == [last] && front + [""] == [""];
    } else {
      assert (front + [last])[1..] == front[1..] + [last] && (front + [""])[1..] == front[1..] + [""];
      LastGap(front[1..], last, texts[1..]);
      assert front[0] + texts[0] + (R.Interleave(front[1..] + [""], texts[1..]) + last) == front[0] + texts[0] + R.Interleave(front[1..] + [""], texts[1..]) + last;
    }
  }

  /** One more pair of a gap and a text behind it. */
  lemma PairMore(front: seq<string>, gap: string, texts: seq<string>, text: string)
    requires |front| == |texts|
    ensures R.Interleave(front + [gap] + [""], texts + [text]) == R.Interleave(front + [""], texts) + gap + text
  {
    InterleaveMore(front + [gap], texts, text, "");
    LastGap(front, gap, texts);
    var all := R.Interleave(front + [""], texts) + gap + text;
    assert all + "" == all;
  }

  /** The parts make up the text. */
  lemma {:induction false} PartsAreText(content: string, scan: Scan)
    requires Splits(content, scan)
    ensures R.Interleave(Before(content, scan) + [""], Inside(content, scan)) == content[..scan.Plain()]
  {
    if scan.Behind? {
      PartsAreText(content, scan.before);
      PairMore(Before(content, scan.before), content[scan.before.Plain()..scan.start], Inside(content, scan.before), content[scan.start..scan.stop]);
      assert content[..scan.before.Plain()] + content[scan.before.Plain()..scan.start] + content[scan.start..scan.stop] == content[..scan.stop];
    }
  }

  /** Each piece is rewritten to the text given for it. */
  ghost predicate PiecesBecome(content: string, scan: Scan, rewrite: Rewrite, now: seq<string>)
    requires Splits(content, scan)
  {
    |now| == scan.Length() && forall i :: 0 <= i < |now| ==> rewrite(BeginningsOf(scan)[i], Before(content, scan)[i]) == Ok(now[i])
  }

  lemma {:induction false} OutputIs(content: string, scan: Scan, rewrite: Rewrite, now: seq<string>)
    requires Splits(content, scan) && PiecesBecome(content, scan, rewrite, now)
    ensures Output(content, scan, rewrite) == Ok(R.Interleave(now + [""], Inside(content, scan)))
  {
    if scan.Behind? {
      var n := |now| - 1;
      var front := now[..n];
      forall i | 0 <= i < n
        ensures rewrite(BeginningsOf(scan.before)[i], Before(content, scan.before)[i]) == Ok(front[i])
      {
        assert BeginningsOf(scan)[i] == BeginningsOf(scan.before)[i] && Before(content, scan)[i] == Before(content, scan.before)[i];
      }
      OutputIs(content, scan.before, rewrite, front);
      assert BeginningsOf(scan)[n] == scan.before.Plain() && Before(content, scan)[n] == content[scan.before.Plain()..scan.start];
      PairMore(front, now[n], Inside(content, scan.before), content[scan.start..scan.stop]);
      assert now == front + [now[n]];
    }
  }

  /**
   What a pass makes of a text when every piece can be rewritten: the text is its pieces with the codes between
   them, and the output is the rewritten pieces with the very same codes between them.
   */
  lemma WholeOutputIs(content: string, scan: Scan, rewrite: Rewrite, now: seq<string>, last: string)
    requires Splits(content, scan) && PiecesBecome(content, scan, rewrite, now) && rewrite(scan.Plain(), content[scan.Plain()..]) == Ok(last)
    ensures content == R.Interleave(Before(content, scan) + [content[scan.Plain()..]], Inside(content, scan))
    ensures WholeOutput(content, scan, rewrite) == Ok(R.Interleave(now + [last], Inside(content, scan)))
  {
    PartsAreText(content, scan);
    LastGap(Before(content, scan), content[scan.Plain()..], Inside(content, scan));
    assert content[..scan.Plain()] + content[scan.Plain()..] == content;
    OutputIs(content, scan, rewrite, now);
    LastGap(now, last, Inside(content, scan));
  }

  /** The two branches of the loop: where the code that starts at i ends. */
  method FindCode(content: string, i: nat) returns (end: Option<nat>)
    requires i < |content|
    ensures end == if StartsCode(content, i) then Some(CodeEnd(content, i)) else None
  {
    var fence := DetectFenceStart(content, i);
    if fence.Some? {
      var fenceEnd := FindFenceEnd(content, i, fence.value);
      return Some(fenceEnd);
    }
    if content[i] == '`' {
      var runLen := CountRepeatedByte(content, i, '`');
      var codeEnd := FindInlineCodeEnd(content, i, runLen);
      return Some(codeEnd);
    }
    return None;
  }

  /** The piece of plain text that ends at upTo could not be rewritten; all before it could. */
  ghost predicate StoppedAt(content: string, scan: Scan, upTo: nat, rewrite: Rewrite, r: Result<string, string>)
  {
    && CodeUpTo(content, scan, upTo) && (upTo < |content| ==> StartsCode(content, upTo))
    && Splits(content, scan) && Output(content, scan, rewrite).Ok?
    && r == rewrite(scan.Plain(), content[scan.Plain()..upTo])
  }

  /** rewriteOutsideCodeSpans: scan is the code it found. */
  method RewriteOutsideCodeSpans(content: string, rewrite: Rewrite) returns (r: Result<string, string>, ghost scan: Scan)
    ensures r.Ok? ==> CodeUpTo(content, scan, |content|) && Splits(content, scan) && r == WholeOutput(content, scan, rewrite)
    ensures r.Err? ==> exists upTo: nat :: StoppedAt(content, scan, upTo, rewrite, r)
  {
    var out, plainStart, i := "", 0, 0;
    scan := Begin;
    while i < |content|
      invariant plainStart == scan.Plain() && CodeUpTo(content, scan, i)
      invariant Splits(content, scan) && Output(content, scan, rewrite) == Ok(out)
      decreases |content| - i
    {
      var end := FindCode(content, i);
      if end.None? {
        i := i + 1;
        continue;
      }
      CodeAdvances(content, i);
      var rewritten := rewrite(plainStart, content[plainStart..i]);
      if rewritten.Err? {
        assert StoppedAt(content, scan, i, rewrite, rewritten);
        return rewritten, scan;
      }
      scan := Behind(scan, i, end.value);
      out := out + rewritten.value + content[i..end.value];
      i := end.value;
      plainStart := i;
    }
    assert content[plainStart..i] == content[plainStart..];
    var rewritten := rewrite(plainStart, content[plainStart..]);
    if rewritten.Err? {
      assert StoppedAt(content, scan, i, rewrite, rewritten);
      return rewritten, scan;
    }
    return Ok(out + rewritten.value), scan;
  }

  /** A rewrite that changes nothing gives the text back. */
  lemma {:induction false} UnchangedOutput(content: string, scan: Scan, rewrite: Rewrite)
    requires Splits(content, scan) && forall at, s :: rewrite(at, s) == Ok(s)
    ensures Output(content, scan, rewrite) == Ok(content[..scan.Plain()])
  {
    if scan.Behind? {
      UnchangedOutput(content, scan.before, rewrite);
      var from := scan.before.Plain();
      assert content[..from] + content[from..scan.start] + content[scan.start..scan.stop] == content[..scan.stop];
    }
  }

  lemma IdentityKeepsText(content: string, scan: Scan, rewrite: Rewrite)
    requires Splits(content, scan) && forall at, s :: rewrite(at, s) == Ok(s)
    ensures WholeOutput(content, scan, rewrite) == Ok(content)
  {
    UnchangedOutput(content, scan, rewrite);
    assert content[..scan.Plain()] + content[scan.Plain()..] == content;
  }
}
