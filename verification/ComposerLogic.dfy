/** The two coordinate systems of the composer: expanded cursors count characters of the prompt,
    collapsed cursors count every inline token as one. */
module ComposerLogic {
  import opened Text
  import opened ComposerMentions

  /** What a token's context is does not matter to a cursor. */
  type Segments = seq<Segment<()>>

  function ClampTo(limit: nat, cursor: Number): (r: nat)
    ensures r <= limit
    ensures cursor.NotFinite? ==> r == limit
    ensures cursor.Finite? && 0.0 <= cursor.value <= limit as real ==> r == cursor.value.Floor
  {
    if cursor.NotFinite? then limit
    else var whole := cursor.value.Floor; if whole < 0 then 0 else if whole > limit then limit else whole
  }

  function ExpandedLength(s: Segment<()>): nat {
    |PrintSegment(s)|
  }

  function CollapsedLength(s: Segment<()>): nat {
    if s.TextSegment? then |s.text| else 1
  }

  function ExpandedTotal(segments: Segments): nat {
    if segments == [] then 0 else ExpandedLength(segments[0]) + ExpandedTotal(segments[1..])
  }

  function CollapsedTotal(segments: Segments): nat {
    if segments == [] then 0 else CollapsedLength(segments[0]) + CollapsedTotal(segments[1..])
  }

  /** Every segment takes room, as the segments of a prompt do. */
  predicate Solid(segments: Segments) {
    forall i | 0 <= i < |segments| :: ExpandedLength(segments[i]) > 0
  }

  // Reference maps, one segment at a time

  function Expand(segments: Segments, c: nat): nat {
    if segments == [] then 0
    else
      var s := segments[0];
      if c <= CollapsedLength(s) then
        if s.TextSegment? || c == 0 then c else ExpandedLength(s)
      else ExpandedLength(s) + Expand(segments[1..], c - CollapsedLength(s))
  }

  function Collapse(segments: Segments, e: nat): nat {
    if segments == [] then 0
    else
      var s := segments[0];
      if e <= ExpandedLength(s) then
        if s.TextSegment? || e == 0 then e else 1
      else CollapsedLength(s) + Collapse(segments[1..], e - ExpandedLength(s))
  }

  /** The two maps form a Galois connection: collapsing `e` stays at or before `c` exactly when
      `e` is at or before the expansion of `c`. */
  lemma {:induction false} Galois(segments: Segments, e: nat, c: nat)
    requires Solid(segments) && e <= ExpandedTotal(segments)
    ensures Collapse(segments, e) <= c <==> e <= Expand(segments, c)
  {
    hide PrintSegment;
    if segments != [] {
      var s := segments[0];
      assert ExpandedLength(s) > 0;
      LengthsAgree(s);
      if e > ExpandedLength(s) && c > CollapsedLength(s) {
        Galois(segments[1..], e - ExpandedLength(s), c - CollapsedLength(s));
      } else if e > ExpandedLength(s) {
        CollapsePositive(segments[1..], e - ExpandedLength(s));
      }
    }
  }

  lemma LengthsAgree(s: Segment<()>)
    ensures s.TextSegment? ==> ExpandedLength(s) == CollapsedLength(s)
    ensures ExpandedLength(s) >= CollapsedLength(s)
  {}

  lemma {:induction false} CollapsePositive(segments: Segments, e: nat)
    requires Solid(segments) && 0 < e <= ExpandedTotal(segments)
    ensures Collapse(segments, e) > 0
  {
    hide PrintSegment;
    if segments != [] {
      LengthsAgree(segments[0]);
      assert ExpandedLength(segments[0]) > 0;
    }
  }

  lemma {:induction false} Bounds(segments: Segments, e: nat, c: nat)
    requires Solid(segments)
    ensures Expand(segments, c) <= ExpandedTotal(segments) <= |Print(segments)|
    ensures Collapse(segments, e) <= CollapsedTotal(segments) <= ExpandedTotal(segments)
    ensures |Print(segments)| == ExpandedTotal(segments)
  {
    hide PrintSegment;
    if segments != [] {
      var s := segments[0];
      LengthsAgree(s);
      Bounds(segments[1..], if e > ExpandedLength(s) then e - ExpandedLength(s) else 0,
             if c > CollapsedLength(s) then c - CollapsedLength(s) else 0);
    }
  }

  /** Every collapsed cursor comes back from its expansion. */
  lemma {:induction false} CollapseExpand(segments: Segments, c: nat)
    requires Solid(segments) && c <= CollapsedTotal(segments)
    ensures Collapse(segments, Expand(segments, c)) == c
  {
    hide PrintSegment;
    if segments != [] {
      var s := segments[0];
      assert ExpandedLength(s) > 0;
      LengthsAgree(s);
      if c > CollapsedLength(s) {
        var c' := c - CollapsedLength(s);
        CollapseExpand(segments[1..], c');
        ExpandPositive(segments[1..], c');
      }
    }
  }

  lemma {:induction false} ExpandPositive(segments: Segments, c: nat)
    requires Solid(segments) && 0 < c <= CollapsedTotal(segments)
    ensures Expand(segments, c) > 0
  {
    hide PrintSegment;
    if segments != [] {
      assert ExpandedLength(segments[0]) > 0;
    }
  }

  lemma Monotone(segments: Segments, e: nat, e': nat, c: nat, c': nat)
    requires Solid(segments) && e <= e' <= ExpandedTotal(segments) && c <= c'
    ensures Collapse(segments, e) <= Collapse(segments, e') && Expand(segments, c) <= Expand(segments, c')
  {
    Bounds(segments, e, c);
    Galois(segments, e', Collapse(segments, e'));
    Galois(segments, e, Collapse(segments, e'));
    Galois(segments, Expand(segments, c), c);
    Galois(segments, Expand(segments, c), c');
  }

  /** `e` lies strictly inside some inline token. */
  ghost predicate Interior(segments: Segments, e: nat) {
    exists i | 0 <= i < |segments| :: InsideToken(segments, i, e)
  }

  ghost predicate InsideToken(segments: Segments, i: nat, e: nat)
    requires i < |segments|
  {
    !segments[i].TextSegment? && ExpandedTotal(segments[..i]) < e < ExpandedTotal(segments[..i]) + ExpandedLength(segments[i])
  }

  lemma {:induction false} InteriorStep(segments: Segments, e: nat)
    requires segments != []
    ensures Interior(segments, e) <==>
      || (!segments[0].TextSegment? && 0 < e < ExpandedLength(segments[0]))
      || (e >= ExpandedLength(segments[0]) && Interior(segments[1..], e - ExpandedLength(segments[0])))
  {
    hide PrintSegment;
    var s, rest := segments[0], segments[1..];
    assert ExpandedTotal(segments[..0]) == 0;
    forall i: nat | i < |rest|
      ensures ExpandedTotal(segments[..i + 1]) == ExpandedLength(s) + ExpandedTotal(rest[..i])
    {
      assert segments[..i + 1][1..] == rest[..i];
    }
    if Interior(segments, e) {
      var i :| 0 <= i < |segments| && InsideToken(segments, i, e);
      if i > 0 {
        assert rest[i - 1] == segments[i];
        assert InsideToken(rest, i - 1, e - ExpandedLength(s));
      }
    }
    if !s.TextSegment? && 0 < e < ExpandedLength(s) {
      assert InsideToken(segments, 0, e);
    }
    if e >= ExpandedLength(s) && Interior(rest, e - ExpandedLength(s)) {
      var i :| 0 <= i < |rest| && InsideToken(rest, i, e - ExpandedLength(s));
      assert InsideToken(segments, i + 1, e);
    }
  }

  /** Collapsing and expanding again rounds up to the next position outside every token. */
  lemma {:induction false} RoundsUp(segments: Segments, e: nat)
    requires Solid(segments) && e <= ExpandedTotal(segments)
    ensures var r := Expand(segments, Collapse(segments, e));
      && e <= r && !Interior(segments, r)
      && forall x | e <= x < r :: Interior(segments, x)
  {
    hide PrintSegment, Interior;
    var r := Expand(segments, Collapse(segments, e));
    if segments == [] {
      NoInterior(0);
    } else {
      var s, rest := segments[0], segments[1..];
      assert ExpandedLength(s) > 0;
      LengthsAgree(s);
      if e > ExpandedLength(s) {
        var e' := e - ExpandedLength(s);
        RoundsUp(rest, e');
        CollapsePositive(rest, e');
        InteriorStep(segments, r);
        forall x | e <= x < r ensures Interior(segments, x) {
          InteriorStep(segments, x);
        }
      } else {
        RoundsUpHere(segments, e);
      }
    }
  }

  lemma NoInterior(e: nat)
    ensures !Interior([], e)
  {}

  lemma {:induction false} StartIsOutside(segments: Segments)
    requires Solid(segments)
    ensures !Interior(segments, 0)
  {}

  lemma RoundsUpHere(segments: Segments, e: nat)
    requires Solid(segments) && segments != [] && e <= ExpandedLength(segments[0])
    ensures var r := Expand(segments, Collapse(segments, e));
      && e <= r <= ExpandedLength(segments[0]) && !Interior(segments, r)
      && forall x | e <= x < r :: Interior(segments, x)
  {
    hide PrintSegment, Interior;
    var s, rest := segments[0], segments[1..];
    var r := Expand(segments, Collapse(segments, e));
    LengthsAgree(s);
    StartIsOutside(rest);
    InteriorStep(segments, r);
    forall x | e <= x < r ensures Interior(segments, x) {
      InteriorStep(segments, x);
    }
  }

  // The program's loops

  method ExpandCollapsedComposerCursor(text: string, cursorInput: Number) returns (expandedCursor: nat)
    ensures expandedCursor == Expand(PromptSegments<()>(text, []), ClampTo(|text|, cursorInput))
    ensures expandedCursor <= |text|
  {
    hide PrintSegment, PromptSegments, Canonical;
    var collapsedCursor := ClampTo(|text|, cursorInput);
    var segments: Segments := SplitPrompt(text, []);
    PromptIsSolid(text);
    Bounds(segments, 0, collapsedCursor);
    if segments == [] {
      return collapsedCursor;
    }
    var remaining: nat := collapsedCursor;
    expandedCursor := 0;
    for i := 0 to |segments|
      invariant expandedCursor + Expand(segments[i..], remaining) == Expand(segments, collapsedCursor)
    {
      var segment := segments[i];
      assert segments[i..][0] == segment && segments[i..][1..] == segments[i + 1..];
      if !segment.TextSegment? {
        if remaining <= 1 {
          return expandedCursor + (if remaining == 0 then 0 else ExpandedLength(segment));
        }
        remaining := remaining - 1;
      } else {
        LengthsAgree(segment);
        if remaining <= |segment.text| {
          return expandedCursor + remaining;
        }
        remaining := remaining - |segment.text|;
      }
      expandedCursor := expandedCursor + ExpandedLength(segment);
    }
  }

  method CollapseExpandedComposerCursor(text: string, cursorInput: Number) returns (collapsedCursor: nat)
    ensures collapsedCursor == Collapse(PromptSegments<()>(text, []), ClampTo(|text|, cursorInput))
    ensures collapsedCursor <= CollapsedTotal(PromptSegments<()>(text, []))
  {
    hide PrintSegment, PromptSegments, Canonical;
    var expandedCursor := ClampTo(|text|, cursorInput);
    var segments: Segments := SplitPrompt(text, []);
    PromptIsSolid(text);
    Bounds(segments, expandedCursor, 0);
    if segments == [] {
      return expandedCursor;
    }
    var remaining: nat := expandedCursor;
    collapsedCursor := 0;
    for i := 0 to |segments|
      invariant collapsedCursor + Collapse(segments[i..], remaining) == Collapse(segments, expandedCursor)
    {
      var segment := segments[i];
      assert segments[i..][0] == segment && segments[i..][1..] == segments[i + 1..];
      LengthsAgree(segment);
      if !segment.TextSegment? {
        if remaining == 0 {
          return collapsedCursor;
        }
        if remaining <= ExpandedLength(segment) {
          return collapsedCursor + 1;
        }
        collapsedCursor := collapsedCursor + 1;
      } else {
        if remaining <= |segment.text| {
          return collapsedCursor + remaining;
        }
        collapsedCursor := collapsedCursor + |segment.text|;
      }
      remaining := remaining - ExpandedLength(segment);
    }
  }

  // What holds for every prompt

  lemma PromptIsSolid(text: string)
    ensures Solid(PromptSegments<()>(text, []))
    ensures ExpandedTotal(PromptSegments<()>(text, [])) == |text|
    ensures text == [] ==> PromptSegments<()>(text, []) == []
  {
    hide PrintSegment, PromptSegments;
    var segments: Segments := PromptSegments(text, []);
    SplitIsCanonical<()>(text, []);
    SplitIsLossless<()>(text, []);
    assert Solid(segments);
    Bounds(segments, 0, 0);
  }

  function CollapsedTextLength(text: string): nat {
    CollapsedTotal(PromptSegments<()>(text, []))
  }

  function ExpandCursor(text: string, c: nat): nat {
    Expand(PromptSegments<()>(text, []), c)
  }

  function CollapseCursor(text: string, e: nat): nat {
    Collapse(PromptSegments<()>(text, []), e)
  }

  /** For every prompt, the two cursor maps are adjoint, in range, monotone and inverse on
      collapsed cursors. */
  lemma CursorMapsAreAdjoint(text: string, e: nat, c: nat)
    requires e <= |text| && c <= CollapsedTextLength(text)
    ensures CollapseCursor(text, e) <= c <==> e <= ExpandCursor(text, c)
    ensures CollapseCursor(text, e) <= CollapsedTextLength(text) <= |text| && ExpandCursor(text, c) <= |text|
    ensures CollapseCursor(text, ExpandCursor(text, c)) == c
  {
    hide PromptSegments;
    var segments: Segments := PromptSegments(text, []);
    PromptIsSolid(text);
    Galois(segments, e, c);
    Bounds(segments, e, c);
    CollapseExpand(segments, c);
  }

  /** Neither map ever swaps two cursors. */
  lemma CursorMapsAreMonotone(text: string, e: nat, e': nat, c: nat, c': nat)
    requires e <= e' <= |text| && c <= c'
    ensures CollapseCursor(text, e) <= CollapseCursor(text, e') && ExpandCursor(text, c) <= ExpandCursor(text, c')
  {
    hide PromptSegments;
    var segments: Segments := PromptSegments(text, []);
    PromptIsSolid(text);
    Monotone(segments, e, e', c, c');
  }

  /** Collapsing and expanding moves a cursor to the first position at or after it that is not
      strictly inside a token. */
  lemma CursorRoundsUp(text: string, e: nat)
    requires e <= |text|
    ensures var r := ExpandCursor(text, CollapseCursor(text, e));
      && e <= r && !Interior(PromptSegments(text, []), r)
      && forall x | e <= x < r :: Interior(PromptSegments(text, []), x)
  {
    hide PromptSegments;
    PromptIsSolid(text);
    RoundsUp(PromptSegments(text, []), e);
  }

  // Deciding whether a cursor touches a token

  datatype Direction = Left | Right

  /** Segment `i` is a token, and it is what the cursor passes when it moves one step. */
  ghost predicate Touches(segments: Segments, i: nat, cursor: nat, direction: Direction)
    requires i < |segments|
  {
    && !segments[i].TextSegment?
    && CollapsedTotal(segments[..i]) == (if direction == Left then cursor - 1 else cursor)
  }

  lemma {:induction false} TotalsSnoc(segments: Segments, i: nat)
    requires i < |segments|
    ensures CollapsedTotal(segments[..i + 1]) == CollapsedTotal(segments[..i]) + CollapsedLength(segments[i])
    ensures CollapsedTotal(segments[..i]) + CollapsedLength(segments[i]) <= CollapsedTotal(segments)
  {
    if i == 0 {
      assert segments[..1] == [segments[0]];
      assert CollapsedTotal([segments[0]]) == CollapsedLength(segments[0]) + CollapsedTotal([]) by {
        assert [segments[0]][1..] == [];
      }
    } else {
      TotalsSnoc(segments[1..], i - 1);
      assert segments[1..][..i - 1] == segments[..i][1..] && segments[1..][..i] == segments[..i + 1][1..];
    }
  }

  method IsCollapsedCursorAdjacentToInlineToken(text: string, cursorInput: Number, direction: Direction)
    returns (adjacent: bool)
    ensures adjacent <==> exists i | 0 <= i < |PromptSegments<()>(text, [])| ::
      Touches(PromptSegments(text, []), i, ClampTo(CollapsedTextLength(text), cursorInput), direction)
  {
    hide PromptSegments, PrintSegment;
    var segments: Segments := SplitPrompt(text, []);
    if forall i | 0 <= i < |segments| :: segments[i].TextSegment? {
      return false;
    }
    var cursor := ClampTo(CollapsedTotal(segments), cursorInput);
    assert cursor == ClampTo(CollapsedTextLength(text), cursorInput);
    var collapsedOffset := 0;
    adjacent := false;
    for i := 0 to |segments|
      invariant collapsedOffset == CollapsedTotal(segments[..i])
      invariant forall k | 0 <= k < i :: !Touches(segments, k, cursor, direction)
    {
      TotalsSnoc(segments, i);
      if !segments[i].TextSegment? {
        if direction == Left && cursor == collapsedOffset + 1 {
          assert Touches(segments, i, cursor, direction);
          return true;
        }
        if direction == Right && cursor == collapsedOffset {
          assert Touches(segments, i, cursor, direction);
          return true;
        }
      }
      collapsedOffset := collapsedOffset + CollapsedLength(segments[i]);
    }
  }

  /** A token longer than one character touches the cursor on its left exactly when one step to the
      left crosses more than one character of the prompt, and touches the cursor before on its right
      exactly then; such a step crosses just that token. */
  lemma TouchCrossesToken(text: string, cursor: nat)
    requires 0 < cursor <= CollapsedTextLength(text)
    ensures var segments: Segments, step := PromptSegments(text, []), ExpandCursor(text, cursor) - ExpandCursor(text, cursor - 1);
      && (step > 1 <==> exists i :: 0 <= i < |segments| && Touches(segments, i, cursor, Left) && ExpandedLength(segments[i]) > 1)
      && (step > 1 <==>
          exists i :: 0 <= i < |segments| && Touches(segments, i, cursor - 1, Right) && ExpandedLength(segments[i]) > 1)
      && (forall i | 0 <= i < |segments| && Touches(segments, i, cursor, Left) ::
            ExpandCursor(text, cursor - 1) == ExpandedTotal(segments[..i]) && step == ExpandedLength(segments[i]))
  {
    hide PromptSegments, PrintSegment, ExpandedLength, ExpandedTotal, Expand, CollapsedTotal;
    var segments: Segments := PromptSegments(text, []);
    PromptIsSolid(text);
    forall i | 0 <= i < |segments| && Touches(segments, i, cursor, Left)
      ensures Expand(segments, cursor - 1) == ExpandedTotal(segments[..i])
      ensures Expand(segments, cursor) == ExpandedTotal(segments[..i]) + ExpandedLength(segments[i])
      ensures Touches(segments, i, cursor - 1, Right)
    {
      ExpandAt(segments, i);
    }
    if Expand(segments, cursor) - Expand(segments, cursor - 1) > 1 {
      var i := StepTouches(segments, cursor);
      assert Touches(segments, i, cursor, Left);
    }
    forall i | 0 <= i < |segments| && Touches(segments, i, cursor - 1, Right) ensures Touches(segments, i, cursor, Left) {}
  }

  /** A step of more than one character passes a token. */
  lemma {:induction false} StepTouches(segments: Segments, cursor: nat) returns (i: nat)
    requires Solid(segments) && 0 < cursor <= CollapsedTotal(segments)
    requires Expand(segments, cursor) - Expand(segments, cursor - 1) > 1
    ensures i < |segments| && Touches(segments, i, cursor, Left)
  {
    hide PrintSegment;
    var s := segments[0];
    LengthsAgree(s);
    if cursor <= CollapsedLength(s) {
      i := 0;
    } else {
      assert ExpandedLength(s) > 0;
      ExpandZero(segments[1..]);
      var j := StepTouches(segments[1..], cursor - CollapsedLength(s));
      assert segments[..j + 1][1..] == segments[1..][..j];
      i := j + 1;
    }
  }

  /** Where the boundaries of segment `i` lie in both coordinate systems. */
  lemma {:induction false} ExpandAt(segments: Segments, i: nat)
    requires Solid(segments) && i < |segments| && !segments[i].TextSegment?
    ensures Expand(segments, CollapsedTotal(segments[..i])) == ExpandedTotal(segments[..i])
    ensures Expand(segments, CollapsedTotal(segments[..i]) + 1) == ExpandedTotal(segments[..i]) + ExpandedLength(segments[i])
  {
    hide PrintSegment;
    assert segments[..0] == [];
    if i > 0 {
      var rest := segments[1..];
      assert segments[..i][1..] == rest[..i - 1];
      ExpandAt(rest, i - 1);
      LengthsAgree(segments[0]);
      assert ExpandedLength(segments[0]) > 0;
      if CollapsedTotal(rest[..i - 1]) == 0 {
        ExpandZero(rest);
      }
    }
  }

  lemma ExpandZero(segments: Segments)
    ensures Expand(segments, 0) == 0
  {}
}
