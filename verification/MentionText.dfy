/**
 Mention tokens in chat input: the printer, the token pattern, the parser that
 splits a text into segments, and the range expander used when deleting.
 Strings are sequences of characters.
 */
module MentionText {
  import opened Prelude

  // ------------------------------------------------------------ the printer

  const TYPES: seq<string> := ["file", "knowledge", "mcp", "skill", "subagent"]

  /** Contains whitespace, a quote or a backslash. */
  predicate NeedsQuotes(value: string) {
    value != "" && (IsSpace(value[0]) || value[0] == '"' || value[0] == '\\' || NeedsQuotes(value[1..]))
  }

  /** Puts a backslash before every occurrence of c. */
  function EscapeAll(value: string, c: char): string {
    if value == "" then ""
    else (if value[0] == c then ['\\', c] else [value[0]]) + EscapeAll(value[1..], c)
  }

  function ValuePart(value: string): string {
    if NeedsQuotes(value) then "\"" + EscapeAll(EscapeAll(value, '\\'), '"') + "\"" else value
  }

  function FormatMentionToken(kind: string, value: string): string {
    "@" + kind + ":" + ValuePart(value)
  }

  // ------------------------------------------------------------ the token pattern

  /** Length of the quoted body at the head of r, up to its closing quote. */
  function BodyLength(r: string): (n: Option<nat>)
    ensures n.Some? ==> n.value < |r|
  {
    if r == "" then None
    else if r[0] == '"' then Some(0)
    else if r[0] == '\\' then
      if |r| < 2 || IsLineEnd(r[1]) then None
      else match BodyLength(r[2..]) case None => None case Some(n) => Some(n + 2)
    else match BodyLength(r[1..]) case None => None case Some(n) => Some(n + 1)
  }

  /** The grammar of a quoted body: escaped pairs and characters other than quote and backslash. */
  predicate IsQuotedBody(b: string) {
    b == "" ||
    (b[0] == '\\' && |b| >= 2 && !IsLineEnd(b[1]) && IsQuotedBody(b[2..])) ||
    (b[0] != '\\' && b[0] != '"' && IsQuotedBody(b[1..]))
  }

  /** The scan finds exactly the one way to read a quoted body, so a backtracking matcher agrees with it. */
  lemma {:induction false} BodyIsUnique(r: string, n: nat)
    ensures BodyLength(r) == Some(n) <==> n < |r| && r[n] == '"' && IsQuotedBody(r[..n])
  {
    if r == "" || r[0] == '"' {
      if 0 < n <= |r| {
        assert r[..n][0] == r[0];
      }
    } else if r[0] == '\\' {
      if |r| >= 2 && n >= 2 {
        BodyIsUnique(r[2..], n - 2);
        if n <= |r| {
          assert r[..n][2..] == r[2..][..n - 2];
        }
      } else if n == 1 && |r| >= 1 {
        assert |r[..n]| == 1;
      }
    } else {
      if n >= 1 {
        BodyIsUnique(r[1..], n - 1);
        if n <= |r| {
          assert r[..n][1..] == r[1..][..n - 1];
        }
      }
    }
  }

  /** Length of the run of non-spaces at the head of r. */
  function RunLength(r: string): (n: nat)
    ensures n <= |r|
  {
    if r == "" || IsSpace(r[0]) then 0 else 1 + RunLength(r[1..])
  }

  /** Drops the backslash of every escaped quote or backslash. */
  function Unquote(value: string): string {
    if value == "" then ""
    else if value[0] == '\\' && |value| >= 2 && (value[1] == '"' || value[1] == '\\') then
      [value[1]] + Unquote(value[2..])
    else [value[0]] + Unquote(value[1..])
  }

  function KindAt(r: string, kinds: seq<string>): (k: Option<string>)
    ensures k.Some? ==> k.value in kinds && k.value + ":" <= r
  {
    if kinds == [] then None
    else if kinds[0] + ":" <= r then Some(kinds[0])
    else KindAt(r, kinds[1..])
  }

  datatype Match = Match(length: nat, kind: string, value: string)

  /** The value part after the colon: quoted if that reads to a closing quote, else a run of non-spaces. */
  function ValueAt(r: string): (m: Option<(nat, string)>)
    ensures m.Some? ==> 0 < m.value.0 <= |r|
  {
    if r != "" && r[0] == '"' && BodyLength(r[1..]).Some? then
      var n := BodyLength(r[1..]).value;
      Some((n + 2, Unquote(r[1..][..n])))
    else if RunLength(r) > 0 then Some((RunLength(r), r[..RunLength(r)]))
    else None
  }

  /** A token of one of the given kinds at the head of r. */
  function TokenHere(r: string, kinds: seq<string>): (m: Option<Match>)
    ensures m.Some? ==> 1 < m.value.length <= |r| && r[0] == '@' && m.value.kind in kinds
  {
    if r == "" || r[0] != '@' then None
    else match KindAt(r[1..], kinds)
      case None => None
      case Some(kind) =>
        match ValueAt(r[|kind| + 2..])
        case None => None
        case Some((n, value)) => Some(Match(|kind| + 2 + n, kind, value))
  }

  /** The token pattern matched at the head of r. */
  function MatchHere(r: string): Option<Match> {
    TokenHere(r, TYPES)
  }

  // ------------------------------------------------------------ the parser

  datatype Segment =
    | Text(text: string, start: nat, end: nat)
    | Mention(raw: string, kind: string, value: string, start: nat, end: nat)

  /** A matcher for the head of a text; the scanning below works for any one that consumes at least two characters. */
  type Pattern = string -> Option<Match>

  ghost predicate Consumes(pattern: Pattern) {
    forall r :: pattern(r).Some? ==> 1 < pattern(r).value.length <= |r|
  }

  /** For every position, the match that starts there. */
  type Table = seq<Option<Match>>

  function Matches(text: string, pattern: Pattern): (table: Table)
    ensures |table| == |text| && forall i :: 0 <= i < |text| ==> table[i] == pattern(text[i..])
  {
    seq(|text|, i requires 0 <= i < |text| => pattern(text[i..]))
  }

  lemma MatchesFit(text: string, pattern: Pattern)
    requires Consumes(pattern)
    ensures Fits(text, Matches(text, pattern))
  {
    forall i | 0 <= i < |text| && pattern(text[i..]).Some? ensures 1 < pattern(text[i..]).value.length <= |text| - i {
      assert |text[i..]| == |text| - i;
    }
  }

  predicate Fits(text: string, table: Table) {
    && |table| == |text|
    && forall i :: 0 <= i < |table| && table[i].Some? ==> 1 < table[i].value.length <= |text| - i
  }

  predicate NoMatch(table: Table, from: nat, to: nat) {
    to <= |table| && forall i :: from <= i < to ==> table[i].None?
  }

  function Flush(text: string, last: nat, at: nat): seq<Segment>
    requires last <= at <= |text|
  {
    if last == at then [] else [Text(text[last..at], last, at)]
  }

  function MentionAt(text: string, at: nat, m: Match): Segment
    requires at + m.length <= |text|
  {
    Mention(text[at..at + m.length], m.kind, m.value, at, at + m.length)
  }

  /** Segments from position at on, with plain text pending since the end of the last match. */
  function Scan(text: string, table: Table, last: nat, at: nat): seq<Segment>
    requires Fits(text, table) && last <= at <= |text|
    decreases |text| - at
  {
    if at == |text| then Flush(text, last, at)
    else match table[at]
      case None => Scan(text, table, last, at + 1)
      case Some(m) =>
        Flush(text, last, at) + ([MentionAt(text, at, m)] + Scan(text, table, at + m.length, at + m.length))
  }

  /** The next match at or after a position, as the global regular expression finds it. */
  method NextMatch(text: string, from: nat, pattern: Pattern) returns (start: nat, m: Option<Match>)
    requires from <= |text|
    ensures from <= start <= |text| && NoMatch(Matches(text, pattern), from, start)
    ensures if m.Some? then start < |text| && Matches(text, pattern)[start] == m else start == |text|
  {
    start := from;
    while start < |text|
      invariant from <= start <= |text| && NoMatch(Matches(text, pattern), from, start)
    {
      m := pattern(text[start..]);
      if m.Some? {
        return;
      }
      start := start + 1;
    }
    m := None;
  }

  lemma {:induction false} ScanSkips(text: string, table: Table, last: nat, from: nat, to: nat)
    requires Fits(text, table) && last <= from <= to <= |text| && NoMatch(table, from, to)
    ensures Scan(text, table, last, from) == Scan(text, table, last, to)
    decreases |text| - from
  {
    if from < to {
      ScanSkips(text, table, last, from + 1, to);
    }
  }

  /** What the main loop keeps: the segments pushed so far, then those of the rest, are those of the whole text. */
  predicate Progress(text: string, table: Table, pushed: seq<Segment>, last: nat)
    requires Fits(text, table) && last <= |text|
  {
    pushed + Scan(text, table, last, last) == Scan(text, table, 0, 0)
  }

  /** Pushing the text up to the next match, if any, and the match itself. */
  lemma PushMatch(text: string, table: Table, pushed: seq<Segment>, last: nat, at: nat, m: Match)
    requires Fits(text, table) && last <= at < |text| && NoMatch(table, last, at) && table[at] == Some(m)
    requires Progress(text, table, pushed, last)
    ensures Progress(text, table, (if at > last then pushed + [Text(text[last..at], last, at)] else pushed)
                                  + [MentionAt(text, at, m)], at + m.length)
  {
    ScanSkips(text, table, last, last, at);
    var rest := Scan(text, table, at + m.length, at + m.length);
    assert pushed + Scan(text, table, last, at) ==
           ((if at > last then pushed + [Text(text[last..at], last, at)] else pushed) + [MentionAt(text, at, m)]) +
           rest;
  }

  /** No further match: the rest is plain text. */
  lemma {:induction false} PushRest(text: string, table: Table, pushed: seq<Segment>, last: nat)
    requires Fits(text, table) && last <= |text| && NoMatch(table, last, |text|) && Progress(text, table, pushed, last)
    ensures Scan(text, table, 0, 0) == if last < |text| then pushed + [Text(text[last..], last, |text|)] else pushed
  {
    ScanSkips(text, table, last, last, |text|);
    assert text[last..|text|] == text[last..] && pushed + [] == pushed;
  }

  method ParseWith(value: string, pattern: Pattern) returns (segments: seq<Segment>)
    requires Consumes(pattern)
    ensures Fits(value, Matches(value, pattern)) && segments == Scan(value, Matches(value, pattern), 0, 0)
  {
    segments := [];
    var lastIndex := 0;
    ghost var table := Matches(value, pattern);
    MatchesFit(value, pattern);
    while true
      invariant lastIndex <= |value| && Progress(value, table, segments, lastIndex)
      decreases |value| - lastIndex
    {
      var start, m := NextMatch(value, lastIndex, pattern);
      if m.None? {
        PushRest(value, table, segments, lastIndex);
        break;
      }
      PushMatch(value, table, segments, lastIndex, start, m.value);
      if start > lastIndex {
        segments := segments + [Text(value[lastIndex..start], lastIndex, start)];
      }
      segments := segments + [MentionAt(value, start, m.value)];
      lastIndex := start + m.value.length;
    }
    if lastIndex < |value| {
      segments := segments + [Text(value[lastIndex..], lastIndex, |value|)];
    }
  }

  lemma TokenPatternConsumes()
    ensures Consumes(MatchHere)
  {
  }

  function Segments(text: string): seq<Segment> {
    TokenPatternConsumes();
    MatchesFit(text, MatchHere);
    Scan(text, Matches(text, MatchHere), 0, 0)
  }

  method ParseMentionText(text: string) returns (segments: seq<Segment>)
    ensures segments == Segments(text)
  {
    TokenPatternConsumes();
    segments := ParseWith(text, MatchHere);
  }

  // ------------------------------------------------------------ what the segments are

  /** A segment says the truth about its text: a mention is a match at its start, plain text contains no match. */
  predicate Truthful(text: string, table: Table, s: Segment) {
    && s.start < s.end <= |text| == |table|
    && match s
       case Text(t, a, b) => t == text[a..b] && NoMatch(table, a, b)
       case Mention(raw, kind, value, a, b) => raw == text[a..b] && table[a] == Some(Match(b - a, kind, value))
  }

  /** Truthful segments that follow each other, without gap or overlap, from a position to the end of the text. */
  predicate Tiles(text: string, table: Table, segments: seq<Segment>, from: nat) {
    if segments == [] then from == |text|
    else Truthful(text, table, segments[0]) && segments[0].start == from
         && Tiles(text, table, segments[1..], segments[0].end)
  }

  lemma {:induction false} TilesCons(text: string, table: Table, first: Segment, rest: seq<Segment>)
    requires Truthful(text, table, first) && Tiles(text, table, rest, first.end)
    ensures Tiles(text, table, [first] + rest, first.start)
  {
    assert ([first] + rest)[1..] == rest;
  }

  lemma {:induction false} TilesJoin(text: string, table: Table, last: nat, at: nat, m: Match, rest: seq<Segment>)
    requires Fits(text, table) && last <= at < |text| && NoMatch(table, last, at) && table[at] == Some(m)
    requires Tiles(text, table, rest, at + m.length)
    ensures Tiles(text, table, Flush(text, last, at) + ([MentionAt(text, at, m)] + rest), last)
  {
    TilesCons(text, table, MentionAt(text, at, m), rest);
    if last < at {
      TilesCons(text, table, Text(text[last..at], last, at), [MentionAt(text, at, m)] + rest);
    } else {
      assert [] + ([MentionAt(text, at, m)] + rest) == [MentionAt(text, at, m)] + rest;
    }
  }

  lemma {:induction false} TilesEnd(text: string, table: Table, last: nat)
    requires last <= |text| == |table| && NoMatch(table, last, |text|)
    ensures Tiles(text, table, Flush(text, last, |text|), last)
  {
    if last < |text| {
      TilesCons(text, table, Text(text[last..|text|], last, |text|), []);
    }
  }

  lemma {:induction false} ScanTiles(text: string, table: Table, last: nat, at: nat)
    requires Fits(text, table) && last <= at <= |text| && NoMatch(table, last, at)
    ensures Tiles(text, table, Scan(text, table, last, at), last)
    decreases |text| - at
  {
    if at == |text| {
      TilesEnd(text, table, last);
    } else if table[at].None? {
      ScanTiles(text, table, last, at + 1);
    } else {
      var m := table[at].value;
      assert Fits(text, table) && at + m.length <= |text|;
      ScanTiles(text, table, at + m.length, at + m.length);
      ScanMatchTiles(text, table, last, at, m);
    }
  }

  lemma ScanMatchTiles(text: string, table: Table, last: nat, at: nat, m: Match)
    requires Fits(text, table) && last <= at < |text| && NoMatch(table, last, at) && table[at] == Some(m)
    requires Tiles(text, table, Scan(text, table, at + m.length, at + m.length), at + m.length)
    ensures Tiles(text, table, Scan(text, table, last, at), last)
  {
    TilesJoin(text, table, last, at, m, Scan(text, table, at + m.length, at + m.length));
  }

  lemma {:induction false} TilesOrdered(text: string, table: Table, segments: seq<Segment>, from: nat, i: nat)
    requires Tiles(text, table, segments, from) && i < |segments|
    ensures from <= segments[i].start && Truthful(text, table, segments[i])
    ensures forall j :: i < j < |segments| ==> segments[i].end <= segments[j].start
    ensures i == 0 ==> segments[0].start == from
    ensures if i + 1 < |segments| then segments[i].end == segments[i + 1].start else segments[i].end == |text|
    decreases |segments|
  {
    if i > 0 {
      TilesOrdered(text, table, segments[1..], segments[0].end, i - 1);
    } else {
      forall j | 0 < j < |segments| ensures segments[0].end <= segments[j].start {
        TilesOrdered(text, table, segments[1..], segments[0].end, j - 1);
      }
      if |segments| > 1 {
        TilesOrdered(text, table, segments[1..], segments[0].end, 0);
      }
    }
  }

  /** No gap, no overlap, nothing at either end, and each segment exactly what the pattern says. */
  predicate ExactAt(text: string, table: Table, segments: seq<Segment>, i: nat)
    requires i < |segments|
  {
    && Truthful(text, table, segments[i])
    && (i == 0 ==> segments[i].start == 0)
    && (if i + 1 < |segments| then segments[i].end == segments[i + 1].start else segments[i].end == |text|)
  }

  ghost predicate ExactTiling(text: string, table: Table, segments: seq<Segment>) {
    (segments == [] <==> text == "") && forall i: nat :: i < |segments| ==> ExactAt(text, table, segments, i)
  }

  lemma {:induction false} ScanExact(text: string, table: Table)
    requires Fits(text, table)
    ensures ExactTiling(text, table, Scan(text, table, 0, 0))
  {
    var segments := Scan(text, table, 0, 0);
    ScanTiles(text, table, 0, 0);
    forall i: nat | i < |segments| ensures ExactAt(text, table, segments, i) {
      TilesOrdered(text, table, segments, 0, i);
    }
  }

  lemma SegmentsTile(text: string)
    ensures ExactTiling(text, Matches(text, MatchHere), Segments(text))
  {
    TokenPatternConsumes();
    MatchesFit(text, MatchHere);
    ScanExact(text, Matches(text, MatchHere));
  }
}
