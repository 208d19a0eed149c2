/** Printing mentions and plain texts and parsing them back gives the same sequence. */
module MentionRoundTrip {
  import opened Prelude
  import opened MentionText

  // ------------------------------------------------------------ escaping

  /** Escaping in one pass; the printer's two passes amount to this. */
  function EscapeOnce(value: string): string {
    if value == "" then ""
    else (if value[0] == '\\' || value[0] == '"' then ['\\', value[0]] else [value[0]]) + EscapeOnce(value[1..])
  }

  lemma {:induction false} EscapeConcat(a: string, b: string, c: char)
    ensures EscapeAll(a + b, c) == EscapeAll(a, c) + EscapeAll(b, c)
  {
    if a == "" {
      assert a + b == b;
    } else {
      assert (a + b)[1..] == a[1..] + b;
      EscapeConcat(a[1..], b, c);
    }
  }

  lemma {:induction false} TwoPassesAreOne(value: string)
    ensures EscapeAll(EscapeAll(value, '\\'), '"') == EscapeOnce(value)
  {
    if value != "" {
      TwoPassesAreOne(value[1..]);
      var head := if value[0] == '\\' then ['\\', '\\'] else [value[0]];
      EscapeConcat(head, EscapeAll(value[1..], '\\'), '"');
      assert EscapeAll(head, '"') == if value[0] == '\\' || value[0] == '"' then ['\\', value[0]] else [value[0]] by {
        assert head[1..] == if value[0] == '\\' then ['\\'] else "";
        assert ['\\'][1..] == "";
      }
    }
  }

  lemma {:induction false} UnquoteUndoesEscape(value: string)
    ensures Unquote(EscapeOnce(value)) == value
  {
    if value != "" {
      UnquoteUndoesEscape(value[1..]);
      var escaped := EscapeOnce(value);
      if value[0] == '\\' || value[0] == '"' {
        assert escaped[2..] == EscapeOnce(value[1..]);
      } else {
        assert escaped[1..] == EscapeOnce(value[1..]);
      }
    }
  }

  lemma {:induction false} BodyOfEscaped(value: string, rest: string)
    ensures BodyLength(EscapeOnce(value) + ("\"" + rest)) == Some(|EscapeOnce(value)|)
  {
    var r := EscapeOnce(value) + ("\"" + rest);
    if value != "" {
      BodyOfEscaped(value[1..], rest);
      var tail := EscapeOnce(value[1..]) + ("\"" + rest);
      if value[0] == '\\' || value[0] == '"' {
        assert r[2..] == tail;
      } else {
        assert r[1..] == tail;
      }
    }
  }

  // ------------------------------------------------------------ one token

  lemma {:induction false} QuotedReads(value: string, rest: string)
    requires NeedsQuotes(value)
    ensures ValueAt(ValuePart(value) + rest) == Some((|ValuePart(value)|, value))
  {
    TwoPassesAreOne(value);
    BodyOfEscaped(value, rest);
    UnquoteUndoesEscape(value);
    var e := EscapeOnce(value);
    QuotedBodyReads(e, rest, value);
    assert ValuePart(value) + rest == "\"" + (e + ("\"" + rest));
  }

  lemma {:induction false} QuotedBodyReads(e: string, rest: string, value: string)
    requires BodyLength(e + ("\"" + rest)) == Some(|e|) && Unquote(e) == value
    ensures ValueAt("\"" + (e + ("\"" + rest))) == Some((|e| + 2, value))
  {
    var tail := e + ("\"" + rest);
    assert ("\"" + tail)[1..] == tail && tail[..|e|] == e;
  }

  lemma {:induction false} RunOfPlain(value: string, rest: string)
    requires !NeedsQuotes(value)
    ensures RunLength(value + rest) == |value| + RunLength(rest)
  {
    if value == "" {
      assert value + rest == rest;
    } else {
      assert (value + rest)[1..] == value[1..] + rest;
      RunOfPlain(value[1..], rest);
    }
  }

  /** An unquoted value reads back exactly when it is not empty and whitespace or the end follows. */
  lemma {:induction false} PlainReads(value: string, rest: string)
    requires !NeedsQuotes(value)
    ensures ValueAt(value + rest) == Some((|value|, value)) <==> value != "" && (rest == "" || IsSpace(rest[0]))
  {
    RunOfPlain(value, rest);
    if value != "" {
      assert (value + rest)[0] == value[0];
      assert (value + rest)[..|value|] == value;
    }
  }

  predicate ColonFree(kinds: seq<string>) {
    forall i :: 0 <= i < |kinds| ==> ':' !in kinds[i]
  }

  lemma {:induction false} KindFound(kind: string, rest: string, kinds: seq<string>)
    requires kind in kinds && ColonFree(kinds)
    ensures KindAt(kind + ":" + rest, kinds) == Some(kind)
  {
    var r := kind + ":" + rest;
    var first := kinds[0];
    assert kind + ":" <= r;
    if first + ":" <= r {
      OnlyOneName(first, kind, r);
    } else {
      KindFound(kind, rest, kinds[1..]);
    }
  }

  lemma OnlyOneName(a: string, b: string, r: string)
    requires a + ":" <= r && b + ":" <= r && ':' !in a && ':' !in b
    ensures a == b
  {
    assert forall i :: 0 <= i < |a + ":"| ==> r[i] == (a + ":")[i];
    assert forall i :: 0 <= i < |b + ":"| ==> r[i] == (b + ":")[i];
    assert (a + ":")[|a|] == ':' && (b + ":")[|b|] == ':';
    assert a == r[..|a|] && b == r[..|b|];
  }

  lemma HeadReads(kind: string, body: string, kinds: seq<string>)
    requires kind in kinds && ColonFree(kinds)
    ensures TokenHere("@" + kind + ":" + body, kinds) ==
            match ValueAt(body) case None => None case Some((n, value)) => Some(Match(|kind| + 2 + n, kind, value))
  {
    var r := "@" + kind + ":" + body;
    assert r[1..] == kind + ":" + body && r[|kind| + 2..] == body;
    KindFound(kind, body, kinds);
  }

  /** What the value part reads as decides what the token reads as. */
  lemma TokenByValue(kind: string, value: string, rest: string, kinds: seq<string>)
    requires ColonFree(kinds) && kind in kinds
    ensures TokenHere(FormatMentionToken(kind, value) + rest, kinds) ==
            Some(Match(|FormatMentionToken(kind, value)|, kind, value)) <==>
            ValueAt(ValuePart(value) + rest) == Some((|ValuePart(value)|, value))
  {
    Regroup("@" + kind + ":", ValuePart(value), rest);
    HeadReads(kind, ValuePart(value) + rest, kinds);
  }

  lemma {:induction false} KindTokenReads(kind: string, value: string, rest: string, kinds: seq<string>)
    requires ColonFree(kinds)
    ensures TokenHere(FormatMentionToken(kind, value) + rest, kinds) ==
            Some(Match(|FormatMentionToken(kind, value)|, kind, value)) <==>
            kind in kinds && (NeedsQuotes(value) || (value != "" && (rest == "" || IsSpace(rest[0]))))
  {
    if kind in kinds {
      TokenByValue(kind, value, rest, kinds);
      if NeedsQuotes(value) {
        QuotedReads(value, rest);
      } else {
        PlainReads(value, rest);
      }
    }
  }

  lemma TypesColonFree()
    ensures ColonFree(TYPES)
  {
    assert TYPES[0] == "file" && TYPES[1] == "knowledge" && TYPES[2] == "mcp" && TYPES[3] == "skill" &&
           TYPES[4] == "subagent";
  }

  /**
   A printed token reads back, alone in front of any rest, exactly when its kind
   is known and its value was quoted or is a non-empty run ended by the rest.
   */
  lemma {:induction false} TokenReadsBack(kind: string, value: string, rest: string)
    ensures MatchHere(FormatMentionToken(kind, value) + rest) ==
            Some(Match(|FormatMentionToken(kind, value)|, kind, value)) <==>
            kind in TYPES && (NeedsQuotes(value) || (value != "" && (rest == "" || IsSpace(rest[0]))))
  {
    TypesColonFree();
    KindTokenReads(kind, value, rest, TYPES);
  }

  // ------------------------------------------------------------ sequences

  datatype Item = Plain(text: string) | Token(kind: string, value: string)

  function PrintItem(item: Item): string {
    match item
    case Plain(text) => text
    case Token(kind, value) => FormatMentionToken(kind, value)
  }

  function PrintAll(items: seq<Item>): (printed: seq<string>)
    ensures |printed| == |items| && forall k :: 0 <= k < |items| ==> printed[k] == PrintItem(items[k])
  {
    seq(|items|, k requires 0 <= k < |items| => PrintItem(items[k]))
  }

  /** The strings from the k-th on, one after the other. */
  function JoinFrom(printed: seq<string>, k: nat): string
    requires k <= |printed|
    decreases |printed| - k
  {
    if k == |printed| then "" else printed[k] + JoinFrom(printed, k + 1)
  }

  function Print(items: seq<Item>): string {
    JoinFrom(PrintAll(items), 0)
  }

  /**
   A text is non-empty, free of "@" and not next to a text; an unquoted token is followed
   by whitespace or the end.
   */
  predicate SeparatedAt(items: seq<Item>, k: nat)
    requires k < |items|
  {
    match items[k]
    case Plain(text) => text != "" && '@' !in text && (k + 1 < |items| ==> items[k + 1].Token?)
    case Token(kind, value) =>
      kind in TYPES && value != "" &&
      (NeedsQuotes(value) || k + 1 == |items| ||
       (items[k + 1].Plain? && items[k + 1].text != "" && IsSpace(items[k + 1].text[0])))
  }

  predicate WellSeparated(items: seq<Item>) {
    forall k: nat :: k < |items| ==> SeparatedAt(items, k)
  }

  /** The segment an item should come back as, given its printed form and position. */
  function Laid(item: Item, raw: string, at: nat): Segment {
    match item
    case Plain(_) => Text(raw, at, at + |raw|)
    case Token(kind, value) => Mention(raw, kind, value, at, at + |raw|)
  }

  function LayoutFrom(items: seq<Item>, printed: seq<string>, k: nat, at: nat): seq<Segment>
    requires k <= |items| == |printed|
    decreases |items| - k
  {
    if k == |items| then []
    else [Laid(items[k], printed[k], at)] + LayoutFrom(items, printed, k + 1, at + |printed[k]|)
  }

  /** The segments of a printed sequence, one per item. */
  function Layout(items: seq<Item>): seq<Segment> {
    LayoutFrom(items, PrintAll(items), 0, 0)
  }

  lemma SplitAt(text: string, at: nat, a: string, b: string)
    requires at <= |text| && text[at..] == a + b
    ensures at + |a| <= |text| && text[at..at + |a|] == a && text[at + |a|..] == b
  {
    assert |text[at..]| == |a| + |b|;
    assert text[at..][..|a|] == a && text[at..][|a|..] == b;
  }

  lemma TextHasNoMatch(text: string, at: nat, end: nat)
    requires at <= end <= |text| && '@' !in text[at..end]
    ensures NoMatch(Matches(text, MatchHere), at, end)
  {
    forall i | at <= i < end ensures MatchHere(text[i..]).None? {
      assert text[i..][0] == text[at..end][i - at];
    }
  }

  /** The table finds this item at a position of the text. */
  predicate FindsItem(text: string, table: Table, at: nat, item: Item, raw: string) {
    var end := at + |raw|;
    && at < end <= |text| == |table| && text[at..end] == raw
    && match item
       case Plain(_) => NoMatch(table, at, end)
       case Token(kind, value) => table[at] == Some(Match(end - at, kind, value))
  }

  lemma {:induction false} TokenMatches(items: seq<Item>, k: nat)
    requires k < |items| && items[k].Token? && WellSeparated(items)
    ensures MatchHere(JoinFrom(PrintAll(items), k)) == Some(Match(|PrintItem(items[k])|, items[k].kind, items[k].value))
  {
    var printed := PrintAll(items);
    var rest := JoinFrom(printed, k + 1);
    assert SeparatedAt(items, k);
    if k + 1 < |items| && items[k + 1].Plain? {
      assert SeparatedAt(items, k + 1);
      assert rest == items[k + 1].text + JoinFrom(printed, k + 2);
      assert rest[0] == items[k + 1].text[0];
    }
    TokenReadsBack(items[k].kind, items[k].value, rest);
  }

  lemma TokenIsFound(text: string, pattern: Pattern, at: nat, kind: string, value: string, raw: string, rest: string)
    requires at <= |text| && text[at..] == raw + rest && raw != "" &&
             pattern(raw + rest) == Some(Match(|raw|, kind, value))
    ensures FindsItem(text, Matches(text, pattern), at, Token(kind, value), raw)
  {
    SplitAt(text, at, raw, rest);
  }

  lemma PlainIsFound(text: string, at: nat, raw: string, rest: string)
    requires at <= |text| && text[at..] == raw + rest && raw != "" && '@' !in raw
    ensures FindsItem(text, Matches(text, MatchHere), at, Plain(raw), raw)
  {
    SplitAt(text, at, raw, rest);
    TextHasNoMatch(text, at, at + |raw|);
  }

  lemma {:induction false} PrintedItemIsFound(text: string, at: nat, items: seq<Item>, printed: seq<string>, k: nat)
    requires k < |items| && at <= |text| && printed == PrintAll(items) && text[at..] == JoinFrom(printed, k)
    requires WellSeparated(items)
    ensures FindsItem(text, Matches(text, MatchHere), at, items[k], printed[k])
  {
    assert SeparatedAt(items, k);
    var rest := JoinFrom(printed, k + 1);
    match items[k] {
      case Plain(raw) =>
        PlainIsFound(text, at, raw, rest);
      case Token(kind, value) =>
        TokenMatches(items, k);
        TokenIsFound(text, MatchHere, at, kind, value, printed[k], rest);
    }
  }

  /** The table finds exactly the items from the k-th on, where their printed form puts them. */
  predicate Finds(text: string, table: Table, at: nat, items: seq<Item>, printed: seq<string>, k: nat)
    requires k <= |items| == |printed|
    decreases |items| - k
  {
    if k == |items| then at == |text|
    else FindsItem(text, table, at, items[k], printed[k])
         && Finds(text, table, at + |printed[k]|, items, printed, k + 1)
  }

  /** Wherever the rest of the text is what the items from the k-th on print, the table finds the k-th. */
  predicate FindsRest(text: string, table: Table, items: seq<Item>, printed: seq<string>, k: nat, at: nat)
    requires k < |items| == |printed|
  {
    at <= |text| && text[at..] == JoinFrom(printed, k) ==> FindsItem(text, table, at, items[k], printed[k])
  }

  lemma {:induction false} PrintIsFound(text: string, table: Table, at: nat, items: seq<Item>, printed: seq<string>,
                                        k: nat)
    requires k <= |items| == |printed| && at <= |text| && text[at..] == JoinFrom(printed, k)
    requires forall k: nat, at: nat :: k < |items| ==> FindsRest(text, table, items, printed, k, at)
    ensures Finds(text, table, at, items, printed, k)
    decreases |items| - k
  {
    if k < |items| {
      assert FindsRest(text, table, items, printed, k, at);
      SplitAt(text, at, printed[k], JoinFrom(printed, k + 1));
      PrintIsFound(text, table, at + |printed[k]|, items, printed, k + 1);
    } else {
      assert |text[at..]| == |text| - at;
    }
  }

  lemma PrintedRestIsFound(text: string, items: seq<Item>, k: nat, at: nat)
    requires k < |items| && WellSeparated(items)
    ensures FindsRest(text, Matches(text, MatchHere), items, PrintAll(items), k, at)
  {
    if at <= |text| && text[at..] == JoinFrom(PrintAll(items), k) {
      PrintedItemIsFound(text, at, items, PrintAll(items), k);
    }
  }

  /** No two plain texts next to each other. */
  predicate Alternates(items: seq<Item>) {
    forall k: nat :: k + 1 < |items| && items[k].Plain? ==> items[k + 1].Token?
  }

  lemma SeparatedAlternate(items: seq<Item>)
    requires WellSeparated(items)
    ensures Alternates(items)
  {
    forall k: nat | k + 1 < |items| && items[k].Plain? ensures items[k + 1].Token? {
      assert SeparatedAt(items, k);
    }
  }

  lemma ScanToken(text: string, table: Table, last: nat, at: nat, item: Item, raw: string, rest: seq<Segment>)
    requires Fits(text, table) && last <= at && FindsItem(text, table, at, item, raw) && item.Token?
    requires var end := at + |raw|; Scan(text, table, end, end) == Flush(text, end, end) + rest
    ensures Scan(text, table, last, at) == Flush(text, last, at) + ([Laid(item, raw, at)] + rest)
  {
    NothingBefore(rest);
  }

  lemma {:induction false} ScanPlain(text: string, table: Table, at: nat, item: Item, raw: string, rest: seq<Segment>)
    requires Fits(text, table) && FindsItem(text, table, at, item, raw) && item.Plain?
    requires var end := at + |raw|; Scan(text, table, at, end) == Flush(text, at, end) + rest
    ensures Scan(text, table, at, at) == Flush(text, at, at) + ([Laid(item, raw, at)] + rest)
  {
    ScanSkips(text, table, at, at, at + |raw|);
    NothingBefore([Laid(item, raw, at)] + rest);
  }

  lemma NothingBefore(s: seq<Segment>)
    ensures [] + s == s
  {
  }

  /** Scanning from where an item was printed, with a text pending only in front of a token. */
  lemma {:induction false} FoundIsScanned(text: string, table: Table, last: nat, at: nat,
                                          items: seq<Item>, printed: seq<string>, k: nat)
    requires k <= |items| == |printed| && Fits(text, table) && last <= at <= |text| && Alternates(items)
    requires Finds(text, table, at, items, printed, k) && (last == at || k == |items| || items[k].Token?)
    ensures Scan(text, table, last, at) == Flush(text, last, at) + LayoutFrom(items, printed, k, at)
    decreases |items| - k
  {
    if k == |items| {
      assert Flush(text, last, at) + [] == Flush(text, last, at);
    } else {
      var end := at + |printed[k]|;
      var rest := LayoutFrom(items, printed, k + 1, end);
      if items[k].Plain? {
        FoundIsScanned(text, table, at, end, items, printed, k + 1);
        ScanPlain(text, table, at, items[k], printed[k], rest);
      } else {
        FoundIsScanned(text, table, end, end, items, printed, k + 1);
        ScanToken(text, table, last, at, items[k], printed[k], rest);
      }
    }
  }

  /** The parser recovers every printed sequence, position by position. */
  lemma RoundTrip(items: seq<Item>)
    requires WellSeparated(items)
    ensures Segments(Print(items)) == Layout(items)
  {
    var text := Print(items);
    TokenPatternConsumes();
    MatchesFit(text, MatchHere);
    assert text[0..] == text;
    forall k: nat, at: nat | k < |items|
      ensures FindsRest(text, Matches(text, MatchHere), items, PrintAll(items), k, at) {
      PrintedRestIsFound(text, items, k, at);
    }
    PrintIsFound(text, Matches(text, MatchHere), 0, items, PrintAll(items), 0);
    SeparatedAlternate(items);
    FoundIsScanned(text, Matches(text, MatchHere), 0, 0, items, PrintAll(items), 0);
    NothingBefore(Layout(items));
  }
}
