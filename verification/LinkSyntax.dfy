/**
 What the inline-link scanner of internal/links/link_refactor.go takes for a link, said of the text
 itself: which brackets belong together and where a destination ends, with a character counting as escaped
 when an odd number of backslashes stands right before it.
 */
module LinkSyntax {
  import opened Common
  import opened InlineLinks

  const BLANKS: set<char> := {' ', '\n', '\t'}

  // ----- escapes and nesting -----

  /** How many backslashes stand right before j, none of them before position from. */
  function Backslashes(content: string, from: nat, j: nat): nat
    requires from <= j <= |content|
    decreases j
  {
    if from < j && content[j - 1] == '\\' then 1 + Backslashes(content, from, j - 1) else 0
  }

  predicate Escaped(content: string, from: nat, j: nat)
    requires from <= j <= |content|
  {
    Backslashes(content, from, j) % 2 == 1
  }

  /** Opening less closing brackets between two positions, escaped ones left out. */
  function Nesting(content: string, from: nat, j: nat, open: char, close: char): int
    requires from <= j <= |content|
    decreases j
  {
    if j == from then 0
    else Nesting(content, from, j - 1, open, close) +
         (if Escaped(content, from, j - 1) then 0 else if content[j - 1] == open then 1 else if content[j - 1] == close then -1 else 0)
  }

  /** The bracket at j brings a nesting that was depth at from down to nothing. */
  predicate Closes(content: string, from: nat, depth: int, open: char, close: char, j: nat)
  {
    from <= j < |content| && content[j] == close && !Escaped(content, from, j) && depth + Nesting(content, from, j, open, close) == 1
  }

  ghost predicate FirstToClose(content: string, from: nat, depth: int, open: char, close: char, j: nat)
  {
    Closes(content, from, depth, open, close, j) && forall k :: from <= k < j ==> !Closes(content, from, depth, open, close, k)
  }

  /** Behind an unescaped backslash and the character it escapes, nothing is escaped and the nesting is as before. */
  lemma SkipEscape(content: string, from: nat, i: nat, open: char, close: char)
    requires open != '\\' && close != '\\' && from <= i && i + 2 <= |content| && content[i] == '\\' && !Escaped(content, from, i)
    ensures !Escaped(content, from, i + 2) && Nesting(content, from, i + 2, open, close) == Nesting(content, from, i, open, close)
    ensures Escaped(content, from, i + 1)
  {
    assert Backslashes(content, from, i + 1) == 1 + Backslashes(content, from, i);
    assert Nesting(content, from, i + 1, open, close) == Nesting(content, from, i, open, close);
  }

  lemma {:induction false} ClosingFound(content: string, from: nat, start: int, i: nat, depth: int, open: char, close: char)
    requires open != close && open != '\\' && close != '\\' && from <= i
    requires i <= |content| ==> !Escaped(content, from, i) && depth == start + Nesting(content, from, i, open, close)
    ensures
      var r := ClosingFrom(content, i, depth, open, close);
      && (r.Some? ==> Closes(content, from, start, open, close, r.value))
      && forall j :: i <= j < |content| && (r.Some? ==> j < r.value) ==> !Closes(content, from, start, open, close, j)
    decreases |content| - i
  {
    if i < |content| {
      if content[i] == open {
        ClosingFound(content, from, start, i + 1, depth + 1, open, close);
      } else if content[i] == close {
        if depth != 1 { ClosingFound(content, from, start, i + 1, depth - 1, open, close); }
      } else if content[i] == '\\' {
        if i + 2 <= |content| { SkipEscape(content, from, i, open, close); }
        ClosingFound(content, from, start, i + 2, depth, open, close);
      } else {
        ClosingFound(content, from, start, i + 1, depth, open, close);
      }
    }
  }

  /** The scan for a closing bracket finds the first one that closes, and finds none exactly if none does. */
  lemma ClosingFromIff(content: string, from: nat, depth: int, open: char, close: char, j: nat)
    requires open != close && open != '\\' && close != '\\'
    ensures ClosingFrom(content, from, depth, open, close) == Some(j) <==> FirstToClose(content, from, depth, open, close, j)
    ensures ClosingFrom(content, from, depth, open, close).None? <==> forall k: nat :: !Closes(content, from, depth, open, close, k)
  {
    ClosingFound(content, from, depth, from, depth, open, close);
  }

  // ----- destinations -----

  /** The first unescaped > from position from on is at j. */
  ghost predicate FirstAngle(content: string, from: nat, j: nat)
  {
    && from <= j < |content| && content[j] == '>' && !Escaped(content, from, j)
    && forall k :: from <= k < j && content[k] == '>' ==> Escaped(content, from, k)
  }

  /** At j a bare destination ends: an unescaped blank, or an unescaped parenthesis that was not opened in it. */
  predicate EndsBare(content: string, from: nat, j: nat)
  {
    && from <= j < |content| && !Escaped(content, from, j)
    && (content[j] in BLANKS || (content[j] == ')' && Nesting(content, from, j, '(', ')') == 0))
  }

  ghost predicate FirstBare(content: string, from: nat, j: nat)
  {
    EndsBare(content, from, j) && forall k :: from <= k < j ==> !EndsBare(content, from, k)
  }

  lemma {:induction false} AngleFound(content: string, from: nat, i: nat)
    requires from <= i && (i <= |content| ==> !Escaped(content, from, i))
    ensures
      var r := AngleEnd(content, i);
      && (r.Some? ==> content[r.value] == '>' && !Escaped(content, from, r.value))
      && forall j :: i <= j < |content| && (r.Some? ==> j < r.value) && content[j] == '>' ==> Escaped(content, from, j)
    decreases |content| - i
  {
    if i < |content| && content[i] != '>' {
      if content[i] == '\\' && i + 2 <= |content| { SkipEscape(content, from, i, '(', ')'); }
      AngleFound(content, from, if content[i] == '\\' then i + 2 else i + 1);
    }
  }

  lemma AngleEndIff(content: string, from: nat, j: nat)
    ensures AngleEnd(content, from) == Some(j) <==> FirstAngle(content, from, j)
  {
    AngleFound(content, from, from);
  }

  lemma {:induction false} BareFound(content: string, from: nat, i: nat, depth: nat)
    requires from <= i && (i <= |content| ==> !Escaped(content, from, i) && depth == Nesting(content, from, i, '(', ')'))
    ensures
      var r := BareEnd(content, i, depth);
      && (r.Some? ==> EndsBare(content, from, r.value))
      && forall j :: i <= j < |content| && (r.Some? ==> j < r.value) ==> !EndsBare(content, from, j)
    decreases |content| - i
  {
    if i < |content| {
      if content[i] == '\\' {
        if i + 2 <= |content| { SkipEscape(content, from, i, '(', ')'); }
        BareFound(content, from, i + 2, depth);
      } else if content[i] == '(' {
        BareFound(content, from, i + 1, depth + 1);
      } else if content[i] == ')' {
        if depth > 0 { BareFound(content, from, i + 1, depth - 1); }
      } else if !IsBlank(content[i]) {
        BareFound(content, from, i + 1, depth);
      }
    }
  }

  lemma BareEndIff(content: string, from: nat, j: nat)
    ensures BareEnd(content, from, 0) == Some(j) <==> FirstBare(content, from, j)
  {
    BareFound(content, from, from, 0);
  }

  /** Nothing but blanks between i and j, and something else at j. */
  predicate FirstNonBlank(content: string, i: nat, j: nat)
  {
    i <= j < |content| && content[j] !in BLANKS && forall k :: i <= k < j ==> content[k] in BLANKS
  }

  lemma {:induction false} SkipBlanksIff(content: string, i: nat, j: nat)
    ensures SkipBlanks(content, i) == j && j < |content| <==> FirstNonBlank(content, i, j)
    decreases |content| - i
  {
    if i < |content| && IsBlank(content[i]) { SkipBlanksIff(content, i + 1, j); }
  }

  /** occ is the destination of a link whose parenthesis was opened just before start, and which is closed. */
  ghost predicate IsDestination(content: string, start: nat, occ: Occurrence)
  {
    && IsOccurrence(content, start, occ)
    && (exists k: nat :: FirstNonBlank(content, start, k) && DestinationFrom(content, k, occ))
    && (exists k: nat :: Closes(content, start, 1, '(', ')', k))
  }

  /** The part of a destination behind the blanks. */
  ghost predicate DestinationFrom(content: string, k: nat, occ: Occurrence)
    requires k < |content|
  {
    if content[k] == '<' then occ.start == k + 1 && FirstAngle(content, k + 1, occ.end)
    else occ.start == k && FirstBare(content, k, occ.end)
  }

  /** The parser finds exactly the destinations. */
  lemma DestinationAtIff(content: string, start: nat, occ: Occurrence)
    ensures DestinationAt(content, start) == Some(occ) <==> IsDestination(content, start, occ)
  {
    var i := SkipBlanks(content, start);
    SkipBlanksIff(content, start, i);
    ClosingFromIff(content, start, 1, '(', ')', 0);
    AngleEndIff(content, i + 1, occ.end);
    BareEndIff(content, i, occ.end);
    forall k: nat
      ensures FirstNonBlank(content, start, k) <==> k == i && i < |content|
    {
      SkipBlanksIff(content, start, k);
    }
  }

  /** The text of a link begins at i: it is no image, the bracket is closed at textEnd, and a parenthesis follows at paren. */
  ghost predicate IsLinkText(content: string, i: nat, textEnd: nat, paren: nat)
  {
    && i < |content| && content[i] == '[' && !(i > 0 && content[i - 1] == '!')
    && FirstToClose(content, i, 0, '[', ']', textEnd) && FirstNonBlank(content, textEnd + 1, paren) && content[paren] == '('
  }

  /** Where a link's text ends, and where its parenthesis is, is unique. */
  lemma OneLinkText(content: string, i: nat, textEnd: nat, paren: nat)
    ensures IsLinkText(content, i, textEnd, paren) <==>
              && i < |content| && content[i] == '[' && !(i > 0 && content[i - 1] == '!')
              && ClosingFrom(content, i, 0, '[', ']') == Some(textEnd)
              && SkipBlanks(content, textEnd + 1) == paren && paren < |content| && content[paren] == '('
  {
    ClosingFromIff(content, i, 0, '[', ']', textEnd);
    SkipBlanksIff(content, textEnd + 1, paren);
  }

  lemma FoundIsLink(content: string, i: nat, occ: Occurrence)
    requires i < |content| && LinkAt(content, i) == Some(occ)
    ensures exists textEnd: nat, paren: nat :: IsLinkText(content, i, textEnd, paren) && IsDestination(content, paren + 1, occ)
  {
    var textEnd := ClosingFrom(content, i, 0, '[', ']').value;
    var paren := SkipBlanks(content, textEnd + 1);
    OneLinkText(content, i, textEnd, paren);
    DestinationAtIff(content, paren + 1, occ);
  }

  lemma LinkIsFound(content: string, i: nat, occ: Occurrence, textEnd: nat, paren: nat)
    requires IsLinkText(content, i, textEnd, paren) && IsDestination(content, paren + 1, occ)
    ensures LinkAt(content, i) == Some(occ)
  {
    OneLinkText(content, i, textEnd, paren);
    DestinationAtIff(content, paren + 1, occ);
  }

  /** The scanner finds exactly the links. */
  lemma LinkAtIff(content: string, i: nat, occ: Occurrence)
    requires i < |content|
    ensures LinkAt(content, i) == Some(occ) <==>
              exists textEnd: nat, paren: nat :: IsLinkText(content, i, textEnd, paren) && IsDestination(content, paren + 1, occ)
  {
    if LinkAt(content, i) == Some(occ) {
      FoundIsLink(content, i, occ);
    }
    if textEnd: nat, paren: nat :| IsLinkText(content, i, textEnd, paren) && IsDestination(content, paren + 1, occ) {
      LinkIsFound(content, i, occ, textEnd, paren);
    }
  }
}
