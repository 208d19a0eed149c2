/** Deleting in the mention editor: the range is widened so that no mention is cut. */
module MentionDeletion {
  import opened Prelude
  import opened MentionText

  datatype Range = Range(start: int, end: int)

  datatype Direction = Backward | Forward

  function Min(a: int, b: int): int {
    if a < b then a else b
  }

  function Max(a: int, b: int): int {
    if a > b then a else b
  }

  /** The requested range clamped into the text, its end not before its start. */
  function Clamped(text: string, start: int, end: int): Range {
    var safeStart := Max(0, Min(start, |text|));
    Range(safeStart, Max(safeStart, Min(end, |text|)))
  }

  function ReplaceRawRange(text: string, start: int, end: int, replacement: string): string {
    var r := Clamped(text, start, end);
    text[..r.start] + replacement + text[r.end..]
  }

  function MentionsOf(segments: seq<Segment>): seq<Segment> {
    if segments == [] then []
    else (if segments[0].Mention? then [segments[0]] else []) + MentionsOf(segments[1..])
  }

  predicate Touches(m: Segment, r: Range) {
    m.start < r.end && m.end > r.start
  }

  /** The range together with every mention it touches. */
  function Reach(mentions: seq<Segment>, r: Range, touching: Range): Range {
    if mentions == [] then r
    else
      var rest := Reach(mentions[1..], r, touching);
      if Touches(mentions[0], touching) then Range(Min(mentions[0].start, rest.start), Max(mentions[0].end, rest.end))
      else rest
  }

  /** The first mention that a non-empty range touches. */
  function FirstTouched(mentions: seq<Segment>, r: Range): Option<Segment> {
    if mentions == [] then None
    else if Touches(mentions[0], r) then Some(mentions[0])
    else FirstTouched(mentions[1..], r)
  }

  /** The first mention the caret is in, for a forward deletion. */
  function MentionAfter(mentions: seq<Segment>, cursor: int): Option<Segment> {
    if mentions == [] then None
    else if cursor >= mentions[0].start && cursor < mentions[0].end then Some(mentions[0])
    else MentionAfter(mentions[1..], cursor)
  }

  /** The first mention the caret is in or behind, for a backward deletion. */
  function MentionBefore(mentions: seq<Segment>, cursor: int): Option<Segment> {
    if mentions == [] then None
    else if cursor > mentions[0].start && cursor <= mentions[0].end then Some(mentions[0])
    else MentionBefore(mentions[1..], cursor)
  }

  function KnownEndingAt(known: seq<Range>, cursor: int): Option<Range> {
    if known == [] then None
    else if cursor == known[0].end && known[0].start < known[0].end then Some(known[0])
    else KnownEndingAt(known[1..], cursor)
  }

  function KnownRange(text: string, start: int, end: int, direction: Direction, known: seq<Range>): Option<Range> {
    var r := Clamped(text, start, end);
    if r.start == r.end && direction == Backward then KnownEndingAt(known, r.start) else None
  }

  /** The widened range, or None when the editor's own deletion is fine. */
  function Expand(text: string, start: int, end: int, direction: Direction, known: seq<Range>): Option<Range> {
    match KnownRange(text, start, end, direction, known)
    case Some(range) => Some(range)
    case None => ExpandAmong(text, MentionsOf(Segments(text)), Clamped(text, start, end), direction)
  }

  function ExpandAmong(text: string, mentions: seq<Segment>, r: Range, direction: Direction): Option<Range> {
    if r.start != r.end then
      if FirstTouched(mentions, r).None? then None else Some(Reach(mentions, r, r))
    else if direction == Forward then
      match MentionAfter(mentions, r.start)
      case None => None
      case Some(m) =>
        Some(Range(m.start, if m.end < |text| && text[m.end] == ' ' then m.end + 1 else m.end))
    else
      match MentionBefore(mentions, r.start)
      case None => None
      case Some(m) => Some(Range(m.start, m.end))
  }

  // ------------------------------------------------------------ what the editor deletes

  /** What is deleted when the range is not widened: the selection, or the character on the given side of the caret. */
  function Requested(text: string, r: Range, direction: Direction): Range {
    if r.start != r.end then r
    else if direction == Forward then Range(r.start, Min(r.start + 1, |text|))
    else Range(Max(r.start - 1, 0), r.start)
  }

  function Deleted(text: string, start: int, end: int, direction: Direction, known: seq<Range>): Range {
    match Expand(text, start, end, direction, known)
    case Some(r) => r
    case None => Requested(text, Clamped(text, start, end), direction)
  }

  // ------------------------------------------------------------ mentions are ordered

  /** Mentions inside a text of length n, one after the other. */
  predicate Ordered(mentions: seq<Segment>, n: nat) {
    && (forall i :: 0 <= i < |mentions| ==> mentions[i].start < mentions[i].end <= n)
    && (forall i, j :: 0 <= i < j < |mentions| ==> mentions[i].end <= mentions[j].start)
  }

  lemma {:induction false} FilterKeepsOrder(segments: seq<Segment>, n: nat)
    requires Ordered(segments, n)
    ensures Ordered(MentionsOf(segments), n)
    ensures forall s :: s in MentionsOf(segments) <==> s in segments && s.Mention?
  {
    if segments != [] {
      FilterKeepsOrder(segments[1..], n);
      assert segments == [segments[0]] + segments[1..];
      forall m | m in MentionsOf(segments[1..]) ensures segments[0].end <= m.start {
        assert m in segments[1..];
      }
    }
  }

  /** Matches start with "@". */
  predicate AtSigns(text: string, table: Table) {
    |table| == |text| && forall i :: 0 <= i < |table| && table[i].Some? ==> text[i] == '@'
  }

  lemma {:induction false} TiledMentions(text: string, table: Table, segments: seq<Segment>)
    requires Tiles(text, table, segments, 0) && AtSigns(text, table)
    ensures Ordered(segments, |text|)
    ensures forall m :: m in segments && m.Mention? ==> text[m.start] == '@'
  {
    forall i | 0 <= i < |segments|
      ensures segments[i].start < segments[i].end <= |text|
      ensures forall j :: i < j < |segments| ==> segments[i].end <= segments[j].start
      ensures segments[i].Mention? ==> text[segments[i].start] == '@'
    {
      TilesOrdered(text, table, segments, 0, i);
    }
  }

  lemma MatchesAtSigns(text: string)
    ensures AtSigns(text, Matches(text, MatchHere))
  {
    forall i | 0 <= i < |text| && MatchHere(text[i..]).Some? ensures text[i] == '@' {
      assert text[i..][0] == text[i];
    }
  }

  /** The mentions of a text stand one after the other, each starting with "@". */
  lemma MentionsOrdered(text: string)
    ensures Ordered(MentionsOf(Segments(text)), |text|)
    ensures forall m :: m in MentionsOf(Segments(text)) ==> text[m.start] == '@'
  {
    TokenPatternConsumes();
    MatchesFit(text, MatchHere);
    MatchesAtSigns(text);
    ScanTiles(text, Matches(text, MatchHere), 0, 0);
    TiledMentions(text, Matches(text, MatchHere), Segments(text));
    FilterKeepsOrder(Segments(text), |text|);
  }

  // ------------------------------------------------------------ no mention is cut

  /** The mention is inside the range or apart from it. */
  predicate Uncut(m: Segment, r: Range) {
    Touches(m, r) ==> r.start <= m.start && m.end <= r.end
  }

  /** The range is the requested one together with the mentions it touches, and cuts none. */
  predicate IsReach(mentions: seq<Segment>, requested: Range, r: Range) {
    && r.start <= requested.start && requested.end <= r.end
    && (forall m :: m in mentions ==> Uncut(m, r))
    && (forall m :: m in mentions && Touches(m, r) ==> Touches(m, requested))
    && (r.start == requested.start || exists m :: m in mentions && Touches(m, requested) && m.start == r.start)
    && (r.end == requested.end || exists m :: m in mentions && Touches(m, requested) && m.end == r.end)
  }

  lemma {:induction false} ReachBounds(mentions: seq<Segment>, r: Range, touching: Range)
    ensures var e := Reach(mentions, r, touching);
            && e.start <= r.start && r.end <= e.end
            && (forall m :: m in mentions && Touches(m, touching) ==> e.start <= m.start && m.end <= e.end)
            && (e.start == r.start || exists m :: m in mentions && Touches(m, touching) && m.start == e.start)
            && (e.end == r.end || exists m :: m in mentions && Touches(m, touching) && m.end == e.end)
  {
    if mentions != [] {
      ReachBounds(mentions[1..], r, touching);
      assert mentions == [mentions[0]] + mentions[1..];
    }
  }

  /** What a touched mention adds does not reach another mention. */
  lemma ApartStaysApart(mentions: seq<Segment>, n: nat, r: Range, m: Segment, added: Segment)
    requires Ordered(mentions, n) && m in mentions && added in mentions && Touches(added, r) && !Touches(m, r) &&
             r.start < r.end
    ensures m.start >= r.end ==> added.end <= m.start
    ensures m.end <= r.start ==> m.end <= added.start
  {
  }

  lemma {:induction false} ReachIsReach(mentions: seq<Segment>, n: nat, r: Range)
    requires Ordered(mentions, n) && r.start < r.end
    ensures IsReach(mentions, r, Reach(mentions, r, r))
  {
    ReachBounds(mentions, r, r);
    var e := Reach(mentions, r, r);
    forall m | m in mentions && !Touches(m, r) ensures !Touches(m, e) {
      if e.end != r.end {
        var added :| added in mentions && Touches(added, r) && added.end == e.end;
        ApartStaysApart(mentions, n, r, m, added);
      }
      if e.start != r.start {
        var added :| added in mentions && Touches(added, r) && added.start == e.start;
        ApartStaysApart(mentions, n, r, m, added);
      }
    }
  }

  // ------------------------------------------------------------ the three branches agree

  predicate NoneTouched(mentions: seq<Segment>, r: Range) {
    forall m :: m in mentions ==> !Touches(m, r)
  }

  lemma {:induction false} FirstTouchedIsFirst(mentions: seq<Segment>, r: Range)
    ensures match FirstTouched(mentions, r)
            case None => NoneTouched(mentions, r)
            case Some(m) => m in mentions && Touches(m, r) && !NoneTouched(mentions, r)
  {
    if mentions != [] {
      FirstTouchedIsFirst(mentions[1..], r);
      assert mentions == [mentions[0]] + mentions[1..];
    }
  }

  /** At a caret, the mention found is the only one the deleted character belongs to. */
  lemma {:induction false} CaretFinders(mentions: seq<Segment>, cursor: int)
    ensures MentionAfter(mentions, cursor) == FirstTouched(mentions, Range(cursor, cursor + 1))
    ensures MentionBefore(mentions, cursor) == FirstTouched(mentions, Range(cursor - 1, cursor))
  {
    if mentions != [] {
      CaretFinders(mentions[1..], cursor);
    }
  }

  lemma {:induction false} NothingTouched(mentions: seq<Segment>, r: Range, touching: Range)
    requires NoneTouched(mentions, touching)
    ensures Reach(mentions, r, touching) == r
  {
    if mentions != [] {
      assert mentions[0] in mentions;
      NothingTouched(mentions[1..], r, touching);
    }
  }

  /** A single character belongs to one mention at most, so reaching for it gives that mention. */
  lemma {:induction false} ReachOfOne(mentions: seq<Segment>, n: nat, c: int)
    requires Ordered(mentions, n) && FirstTouched(mentions, Range(c, c + 1)).Some?
    ensures var m := FirstTouched(mentions, Range(c, c + 1)).value;
            Reach(mentions, Range(c, c + 1), Range(c, c + 1)) == Range(m.start, m.end)
  {
    var one := Range(c, c + 1);
    if Touches(mentions[0], one) {
      forall m | m in mentions[1..] ensures !Touches(m, one) {
        var i :| 0 <= i < |mentions[1..]| && mentions[1..][i] == m;
        assert mentions[0].end <= mentions[i + 1].start;
      }
      NothingTouched(mentions[1..], one, one);
    } else {
      ReachOfOne(mentions[1..], n, c);
    }
  }

  /** With a space right behind, a forward deletion at a caret takes it too. */
  function WithSpace(text: string, r: Range): Range
    requires 0 <= r.end
  {
    if r.end < |text| && text[r.end] == ' ' then Range(r.start, r.end + 1) else r
  }

  predicate Placed(text: string, r: Range) {
    0 <= r.start <= r.end <= |text|
  }

  lemma {:induction false} ReachInside(text: string, mentions: seq<Segment>, r: Range)
    requires Ordered(mentions, |text|) && Placed(text, r)
    ensures Placed(text, Reach(mentions, r, r))
  {
    ReachBounds(mentions, r, r);
  }

  lemma {:induction false} CharacterReach(mentions: seq<Segment>, n: nat, c: int)
    requires Ordered(mentions, n)
    ensures var one := Range(c, c + 1);
            match FirstTouched(mentions, one)
            case None => NoneTouched(mentions, one)
            case Some(m) => !NoneTouched(mentions, one) && Range(m.start, m.end) == Reach(mentions, one, one)
  {
    FirstTouchedIsFirst(mentions, Range(c, c + 1));
    if FirstTouched(mentions, Range(c, c + 1)).Some? {
      ReachOfOne(mentions, n, c);
    }
  }

  /** The requested range with the mentions it touches, and the space behind if asked; None when it touches none. */
  function Widened(text: string, mentions: seq<Segment>, requested: Range, space: bool): Option<Range>
    requires Ordered(mentions, |text|) && Placed(text, requested)
  {
    ReachInside(text, mentions, requested);
    var reach := Reach(mentions, requested, requested);
    if NoneTouched(mentions, requested) then None else Some(if space then WithSpace(text, reach) else reach)
  }

  /** The widening rule for selections and for both caret directions in one. */
  lemma ExpandIsReach(text: string, mentions: seq<Segment>, r: Range, direction: Direction)
    requires Ordered(mentions, |text|) && Placed(text, r)
    ensures ExpandAmong(text, mentions, r, direction) ==
            Widened(text, mentions, Requested(text, r, direction), r.start == r.end && direction == Forward)
  {
    if r.start != r.end {
      FirstTouchedIsFirst(mentions, r);
    } else if direction == Forward {
      CaretFinders(mentions, r.start);
      CharacterReach(mentions, |text|, r.start);
    } else {
      CaretFinders(mentions, r.start);
      CharacterReach(mentions, |text|, r.start - 1);
    }
  }

  // ------------------------------------------------------------ the main result

  lemma SpaceCutsNothing(text: string, mentions: seq<Segment>, r: Range)
    requires Ordered(mentions, |text|) && (forall m :: m in mentions ==> text[m.start] == '@')
    requires 0 <= r.start <= r.end <= |text| && forall m :: m in mentions ==> Uncut(m, r)
    ensures var w := WithSpace(text, r);
            w.end <= |text| && forall m :: m in mentions ==> Uncut(m, w) && (Touches(m, w) ==> Touches(m, r))
  {
  }

  /** The deletion covers what was asked for, cuts no mention, and removes no mention but those asked for. */
  predicate KeepsWhole(text: string, mentions: seq<Segment>, requested: Range, r: Range) {
    && 0 <= r.start <= requested.start <= requested.end <= r.end <= |text|
    && forall m :: m in mentions ==> Uncut(m, r) && (Touches(m, r) <==> Touches(m, requested))
  }

  lemma {:induction false} ReachKeepsWhole(text: string, mentions: seq<Segment>, r: Range)
    requires Ordered(mentions, |text|) && Placed(text, r) && r.start < r.end
    ensures KeepsWhole(text, mentions, r, Reach(mentions, r, r))
  {
    ReachInside(text, mentions, r);
    ReachIsReach(mentions, |text|, r);
  }

  lemma SpaceKeepsWhole(text: string, mentions: seq<Segment>, requested: Range, r: Range)
    requires Ordered(mentions, |text|) && (forall m :: m in mentions ==> text[m.start] == '@')
    requires KeepsWhole(text, mentions, requested, r)
    ensures KeepsWhole(text, mentions, requested, WithSpace(text, r))
  {
    SpaceCutsNothing(text, mentions, r);
  }

  lemma DeletionKeepsWhole(text: string, mentions: seq<Segment>, r: Range, direction: Direction)
    requires Ordered(mentions, |text|) && Placed(text, r) && forall m :: m in mentions ==> text[m.start] == '@'
    ensures var requested := Requested(text, r, direction);
            KeepsWhole(text, mentions, requested,
                       match ExpandAmong(text, mentions, r, direction) case Some(e) => e case None => requested)
  {
    var requested := Requested(text, r, direction);
    ExpandIsReach(text, mentions, r, direction);
    if !NoneTouched(mentions, requested) {
      ReachKeepsWhole(text, mentions, requested);
      SpaceKeepsWhole(text, mentions, requested, Reach(mentions, requested, requested));
    }
  }

  /** Whatever is selected and wherever the caret is, with no known range at the caret, no mention is cut. */
  lemma DeletionCutsNoMention(text: string, start: int, end: int, direction: Direction, known: seq<Range>)
    requires KnownRange(text, start, end, direction, known).None?
    ensures KeepsWhole(text, MentionsOf(Segments(text)), Requested(text, Clamped(text, start, end), direction),
                       Deleted(text, start, end, direction, known))
  {
    MentionsOrdered(text);
    DeletionKeepsWhole(text, MentionsOf(Segments(text)), Clamped(text, start, end), direction);
  }

  /** A space right behind the mention. */
  predicate SpaceFollows(text: string, m: Segment) {
    m.end < |text| && text[m.end] == ' '
  }

  /**
   Each end of the deletion is the one asked for, or a touched mention's, or, forward
   from a caret, that of its space.
   */
  ghost predicate NoMoreThanNeeded(text: string, mentions: seq<Segment>, requested: Range, r: Range, forward: bool) {
    && (r.start == requested.start || exists m :: m in mentions && Touches(m, requested) && m.start == r.start)
    && (r.end == requested.end ||
        exists m :: m in mentions && Touches(m, requested) &&
                    r.end == m.end + if forward && SpaceFollows(text, m) then 1 else 0)
    && (NoneTouched(mentions, requested) ==> r == requested)
  }

  lemma {:induction false} ReachIsNeeded(text: string, mentions: seq<Segment>, requested: Range)
    requires Ordered(mentions, |text|) && Placed(text, requested)
    ensures NoMoreThanNeeded(text, mentions, requested, Reach(mentions, requested, requested), false)
  {
    ReachBounds(mentions, requested, requested);
    if NoneTouched(mentions, requested) {
      NothingTouched(mentions, requested, requested);
    }
  }

  lemma {:induction false} CaretIsNeeded(text: string, mentions: seq<Segment>, cursor: nat)
    requires Ordered(mentions, |text|) && cursor < |text|
    ensures var one := Range(cursor, cursor + 1);
            NoMoreThanNeeded(text, mentions, one,
                             match Widened(text, mentions, one, true) case Some(e) => e case None => one, true)
  {
    var one := Range(cursor, cursor + 1);
    CharacterReach(mentions, |text|, cursor);
    if !NoneTouched(mentions, one) {
      FirstTouchedIsFirst(mentions, one);
      var m := FirstTouched(mentions, one).value;
      assert m in mentions && Touches(m, one) && Reach(mentions, one, one) == Range(m.start, m.end);
    }
  }

  lemma AmongIsNeeded(text: string, mentions: seq<Segment>, r: Range, direction: Direction)
    requires Ordered(mentions, |text|) && Placed(text, r)
    ensures var requested := Requested(text, r, direction);
            NoMoreThanNeeded(text, mentions, requested,
                             match ExpandAmong(text, mentions, r, direction) case Some(e) => e case None => requested,
                             r.start == r.end && direction == Forward)
  {
    var requested := Requested(text, r, direction);
    ExpandIsReach(text, mentions, r, direction);
    if r.start != r.end || direction == Backward {
      ReachIsNeeded(text, mentions, requested);
      NeededIfWidened(text, mentions, requested);
    } else if r.start < |text| {
      CaretIsNeeded(text, mentions, r.start);
    } else {
      assert NoneTouched(mentions, requested);
    }
  }

  lemma {:induction false} NeededIfWidened(text: string, mentions: seq<Segment>, requested: Range)
    requires Ordered(mentions, |text|) && Placed(text, requested)
    requires NoMoreThanNeeded(text, mentions, requested, Reach(mentions, requested, requested), false)
    ensures NoMoreThanNeeded(text, mentions, requested,
                             match Widened(text, mentions, requested, false) case Some(e) => e case None => requested,
                             false)
  {
  }

  /** A deletion takes no more than that, and exactly what was asked for if that touches no mention. */
  lemma DeletionIsNeeded(text: string, start: int, end: int, direction: Direction, known: seq<Range>)
    requires KnownRange(text, start, end, direction, known).None?
    ensures var r := Clamped(text, start, end);
            NoMoreThanNeeded(text, MentionsOf(Segments(text)), Requested(text, r, direction),
                             Deleted(text, start, end, direction, known), r.start == r.end && direction == Forward)
  {
    MentionsOrdered(text);
    AmongIsNeeded(text, MentionsOf(Segments(text)), Clamped(text, start, end), direction);
  }

  /** A backward deletion at a caret deletes the first known range, not an empty one, that ends there. */
  lemma {:induction false} KnownIsDeleted(text: string, cursor: nat, known: seq<Range>, i: nat)
    requires cursor <= |text| && i < |known| && known[i].end == cursor && known[i].start < cursor
    requires forall j :: 0 <= j < i ==> known[j].end != cursor || known[j].start >= known[j].end
    ensures Deleted(text, cursor, cursor, Backward, known) == known[i]
  {
    ClampedIsNearest(text, cursor, cursor);
    KnownIsFirst(known, cursor, i);
  }

  lemma {:induction false} KnownIsFirst(known: seq<Range>, cursor: int, i: nat)
    requires i < |known| && known[i].end == cursor && known[i].start < cursor
    requires forall j :: 0 <= j < i ==> known[j].end != cursor || known[j].start >= known[j].end
    ensures KnownEndingAt(known, cursor) == Some(known[i])
  {
    if i > 0 {
      KnownIsFirst(known[1..], cursor, i - 1);
    }
  }

  lemma {:induction false} NoKnownRange(known: seq<Range>, cursor: int)
    requires forall j :: 0 <= j < |known| ==> known[j].end != cursor || known[j].start >= known[j].end
    ensures KnownEndingAt(known, cursor) == None
  {
    if known != [] {
      NoKnownRange(known[1..], cursor);
    }
  }

  /** Only there: in all other cases known ranges do not matter. */
  lemma {:induction false} KnownElsewhere(text: string, start: int, end: int, direction: Direction, known: seq<Range>)
    requires var r := Clamped(text, start, end);
             r.start < r.end || direction == Forward ||
             forall j :: 0 <= j < |known| ==> known[j].end != r.start || known[j].start >= known[j].end
    ensures KnownRange(text, start, end, direction, known).None?
  {
    var r := Clamped(text, start, end);
    if r.start == r.end && direction == Backward {
      NoKnownRange(known, r.start);
    }
  }

  /** Clamping moves a start into the text, and an end no further than it must. */
  lemma ClampedIsNearest(text: string, start: int, end: int)
    ensures var r := Clamped(text, start, end);
            && Placed(text, r)
            && (0 <= start <= |text| ==> r.start == start)
            && (start < 0 ==> r.start == 0) && (start > |text| ==> r.start == |text|)
            && (r.start <= end <= |text| ==> r.end == end)
            && (end < r.start ==> r.end == r.start) && (end > |text| ==> r.end == |text|)
  {
  }

  /** And text is replaced exactly there. */
  lemma ReplacedIsRebuilt(before: string, middle: string, after: string, replacement: string)
    ensures ReplaceRawRange(before + middle + after, |before|, |before| + |middle|, replacement) ==
            before + replacement + after
  {
    var text := before + middle + after;
    assert text[..|before|] == before && text[|before| + |middle|..] == after;
  }

  /** Replacing a range leaves what does not touch it in place, or moves it by the difference in length. */
  lemma UntouchedSurvives(text: string, r: Range, replacement: string, m: Segment)
    requires Placed(text, r) && m.start < m.end <= |text| && !Touches(m, r)
    ensures var shift := if m.end <= r.start then 0 else |replacement| - (r.end - r.start);
            var after := ReplaceRawRange(text, r.start, r.end, replacement);
            0 <= m.start + shift && m.end + shift <= |after| == |text| + |replacement| - (r.end - r.start) &&
            after[m.start + shift..m.end + shift] == text[m.start..m.end]
  {
    var shift := if m.end <= r.start then 0 else |replacement| - (r.end - r.start);
    var after := ReplaceRawRange(text, r.start, r.end, replacement);
    forall k | m.start <= k < m.end ensures after[k + shift] == text[k] {
      if m.end > r.start {
        assert after[k + shift] == text[r.end..][k - r.end];
      }
    }
    assert after[m.start + shift..m.end + shift] == text[m.start..m.end];
  }
}
