/**
 The reader of a run's server-sent events. Text arrives in chunks cut anywhere;
 the events dispatched are those of the whole text. JSON parsing is an arbitrary
 function that may fail.
 */
module SseReader {
  import opened Prelude

  // ------------------------------------------------------------ lines

  /** The pieces between line feeds; the last one is not ended by a line feed. */
  function Split(text: string): (pieces: seq<string>)
    ensures |pieces| >= 1
  {
    if text == "" then [""]
    else
      var rest := Split(text[1..]);
      if text[0] == '\n' then [""] + rest else [[text[0]] + rest[0]] + rest[1..]
  }

  function Last<T>(s: seq<T>): T
    requires s != []
  {
    s[|s| - 1]
  }

  function ButLast<T>(s: seq<T>): seq<T>
    requires s != []
  {
    s[..|s| - 1]
  }

  /** Two lists of pieces, the last of the first run together with the first of the second. */
  function Glue(a: seq<string>, b: seq<string>): seq<string>
    requires a != [] && b != []
  {
    ButLast(a) + ([Last(a) + b[0]] + b[1..])
  }

  lemma {:induction false} SplitConcat(a: string, b: string)
    ensures Split(a + b) == Glue(Split(a), Split(b))
  {
    if a == "" {
      assert a + b == b;
      assert [""] == Split(a) && "" + Split(b)[0] == Split(b)[0];
    } else {
      assert (a + b)[1..] == a[1..] + b;
      SplitConcat(a[1..], b);
      GlueFront(a[0], Split(a[1..]), Split(b));
    }
  }

  lemma GlueFront(c: char, a: seq<string>, b: seq<string>)
    requires a != [] && b != []
    ensures Glue([""] + a, b) == [""] + Glue(a, b)
    ensures Glue([[c] + a[0]] + a[1..], b) == [[c] + Glue(a, b)[0]] + Glue(a, b)[1..]
  {
    if |a| == 1 {
      assert ([c] + a[0]) + b[0] == [c] + (a[0] + b[0]);
    }
  }

  lemma {:induction false} SplitCons(c: char, text: string)
    requires c != '\n'
    ensures Split([c] + text) == [[c] + Split(text)[0]] + Split(text)[1..]
  {
    assert ([c] + text)[1..] == text;
  }

  lemma {:induction false} LastPieceHasNoBreak(text: string)
    ensures Split(Last(Split(text))) == [Last(Split(text))]
  {
    if text != "" {
      LastPieceHasNoBreak(text[1..]);
      var rest := Split(text[1..]);
      if text[0] == '\n' {
        assert Last([""] + rest) == Last(rest);
      } else if |rest| == 1 {
        SplitCons(text[0], rest[0]);
      } else {
        assert Last([[text[0]] + rest[0]] + rest[1..]) == Last(rest);
      }
    }
  }

  /** Only the last piece of the first run matters for what comes behind the others. */
  lemma GlueLast(a: seq<string>, b: seq<string>)
    requires a != [] && b != []
    ensures ButLast(Glue(a, b)) == ButLast(a) + ButLast(Glue([Last(a)], b))
    ensures Last(Glue(a, b)) == Last(Glue([Last(a)], b))
  {
  }

  /** A carried-over unfinished line and a chunk split into exactly the lines that become complete. */
  lemma {:induction false} ChunkSplits(text: string, chunk: string)
    ensures ButLast(Split(text + chunk)) == ButLast(Split(text)) + ButLast(Split(Last(Split(text)) + chunk))
    ensures Last(Split(text + chunk)) == Last(Split(Last(Split(text)) + chunk))
  {
    SplitConcat(text, chunk);
    SplitConcat(Last(Split(text)), chunk);
    LastPieceHasNoBreak(text);
    GlueLast(Split(text), Split(chunk));
  }

  /** A line without one carriage return at its end. */
  function StripReturn(line: string): string {
    if line != "" && Last(line) == '\r' then ButLast(line) else line
  }

  function StripAll(lines: seq<string>): (stripped: seq<string>)
    ensures |stripped| == |lines| && forall i :: 0 <= i < |lines| ==> stripped[i] == StripReturn(lines[i])
  {
    seq(|lines|, i requires 0 <= i < |lines| => StripReturn(lines[i]))
  }

  // ------------------------------------------------------------ what a text means

  /** The lines between blank lines: one block more than there are blank lines. */
  function Blocks(lines: seq<string>): (blocks: seq<seq<string>>)
    ensures blocks != []
  {
    if lines == [] then [[]]
    else
      var before := Blocks(ButLast(lines));
      if Last(lines) == "" then before + [[]] else ButLast(before) + [Last(before) + [Last(lines)]]
  }

  /** The text after a field name in the last line of a block that starts with it. */
  function LastField(block: seq<string>, name: string): Option<string> {
    if block == [] then None
    else if name <= Last(block) then Some(Last(block)[|name|..])
    else LastField(ButLast(block), name)
  }

  function DataLines(block: seq<string>): seq<string> {
    if block == [] then []
    else DataLines(ButLast(block)) + if "data:" <= Last(block) then [TrimStart(Last(block)[5..])] else []
  }

  function KindOf(block: seq<string>): string {
    match LastField(block, "event:")
    case Some(value) => if Trim(value) == "" then "message" else Trim(value)
    case None => "message"
  }

  function IdOf(block: seq<string>): Option<string> {
    match LastField(block, "id:")
    case Some(value) => Some(Trim(value))
    case None => None
  }

  /** The lines with line feeds between them. */
  function JoinLines(lines: seq<string>): string {
    if lines == [] then ""
    else if |lines| == 1 then lines[0]
    else lines[0] + "\n" + JoinLines(lines[1..])
  }

  datatype Event<+T> = Event(kind: string, data: T, id: Option<string>)

  /** The event of a block: none without a data line or with data that does not parse. */
  function BlockEvent<T>(block: seq<string>, parse: string -> Option<T>): seq<Event<T>> {
    if DataLines(block) == [] then []
    else match parse(JoinLines(DataLines(block)))
      case None => []
      case Some(data) => [Event(KindOf(block), data, IdOf(block))]
  }

  function BlockEvents<T>(blocks: seq<seq<string>>, parse: string -> Option<T>): seq<Event<T>> {
    if blocks == [] then [] else BlockEvents(ButLast(blocks), parse) + BlockEvent(Last(blocks), parse)
  }

  /** The complete lines of a text, and the blocks they form. */
  function BlocksOf(text: string): seq<seq<string>> {
    Blocks(StripAll(ButLast(Split(text))))
  }

  /** The events of a text: those of its blocks, the unfinished last block included, an unfinished last line not. */
  function EventsOf<T>(text: string, parse: string -> Option<T>): seq<Event<T>> {
    BlockEvents(BlocksOf(text), parse)
  }

  // ------------------------------------------------------------ the reader

  datatype Pending = Pending(kind: string, id: Option<string>, data: seq<string>)

  /**
   What the reader keeps after some complete lines: the fields of the open block, and the
   events of the closed ones.
   */
  ghost predicate Keeps<T>(lines: seq<string>, pending: Pending, events: seq<Event<T>>, parse: string -> Option<T>) {
    var blocks := Blocks(StripAll(lines));
    && pending == Pending(KindOf(Last(blocks)), IdOf(Last(blocks)), DataLines(Last(blocks)))
    && events == BlockEvents(ButLast(blocks), parse)
  }

  function Chunked(chunks: seq<string>, n: nat): string
    requires n <= |chunks|
  {
    if n == 0 then "" else Chunked(chunks, n - 1) + chunks[n - 1]
  }

  lemma StripSnoc(lines: seq<string>, line: string)
    ensures ButLast(StripAll(lines + [line])) == StripAll(lines) && Last(StripAll(lines + [line])) == StripReturn(line)
  {
  }

  /** A blank line closes the open block. */
  lemma BlankKeeps<T>(lines: seq<string>, raw: string, pending: Pending, events: seq<Event<T>>,
                      parse: string -> Option<T>)
    requires Keeps(lines, pending, events, parse) && StripReturn(raw) == ""
    ensures Keeps(lines + [raw], Pending("message", None, []),
                  events + BlockEvent(Last(Blocks(StripAll(lines))), parse), parse)
  {
    StripSnoc(lines, raw);
    var blocks := Blocks(StripAll(lines));
    assert ButLast(blocks + [[]]) == blocks;
  }

  /** Any other line adds to the open block. */
  lemma LineKeeps<T>(lines: seq<string>, raw: string, pending: Pending, events: seq<Event<T>>,
                     parse: string -> Option<T>)
    requires Keeps(lines, pending, events, parse) && StripReturn(raw) != ""
    ensures var block := Last(Blocks(StripAll(lines))) + [StripReturn(raw)];
            Keeps(lines + [raw], Pending(KindOf(block), IdOf(block), DataLines(block)), events, parse)
  {
    StripSnoc(lines, raw);
    var before := Blocks(StripAll(lines));
    assert ButLast(ButLast(before) + [Last(before) + [StripReturn(raw)]]) == ButLast(before);
  }

  /** What one line adds to the fields of an open block. */
  lemma {:induction false} FieldsOf(block: seq<string>, line: string)
    requires line != ""
    ensures DataLines(block + [line]) == DataLines(block) + if "data:" <= line then [TrimStart(line[5..])] else []
    ensures KindOf(block + [line]) ==
            if "event:" <= line then (if Trim(line[6..]) == "" then "message" else Trim(line[6..])) else KindOf(block)
    ensures IdOf(block + [line]) == if "id:" <= line then Some(Trim(line[3..])) else IdOf(block)
    ensures line[0] == ':' ==> !("data:" <= line) && !("event:" <= line) && !("id:" <= line)
    ensures "event:" <= line ==> !("data:" <= line) && !("id:" <= line)
    ensures "data:" <= line ==> !("id:" <= line)
  {
    assert ButLast(block + [line]) == block;
  }

  method Dispatch<T>(pending: Pending, parse: string -> Option<T>) returns (events: seq<Event<T>>)
    ensures forall block :: pending == Pending(KindOf(block), IdOf(block), DataLines(block)) ==>
            events == BlockEvent(block, parse)
  {
    if |pending.data| == 0 {
      return [];
    }
    match parse(JoinLines(pending.data)) {
      case Some(data) => events := [Event(pending.kind, data, pending.id)];
      case None => events := [];
    }
  }

  /** One pass of the reader's inner loop. */
  method TakeLine<T>(rawLine: string, pending: Pending, parse: string -> Option<T>, ghost lines: seq<string>,
                     ghost events: seq<Event<T>>)
    returns (next: Pending, dispatched: seq<Event<T>>)
    requires Keeps(lines, pending, events, parse)
    ensures Keeps(lines + [rawLine], next, events + dispatched, parse)
  {
    var line := StripReturn(rawLine);
    next, dispatched := pending, [];
    if line == "" {
      BlankKeeps(lines, rawLine, pending, events, parse);
      dispatched := Dispatch(pending, parse);
      next := Pending("message", None, []);
      return;
    }
    LineKeeps(lines, rawLine, pending, events, parse);
    FieldsOf(Last(Blocks(StripAll(lines))), line);
    assert events + [] == events;
    if line[0] == ':' {
      return;
    }
    if "event:" <= line {
      next := pending.(kind := if Trim(line[6..]) == "" then "message" else Trim(line[6..]));
    } else if "data:" <= line {
      next := pending.(data := pending.data + [TrimStart(line[5..])]);
    } else if "id:" <= line {
      next := pending.(id := Some(Trim(line[3..])));
    }
  }

  lemma NextPiece(lines: seq<string>, pieces: seq<string>, i: nat)
    requires i < |pieces|
    ensures lines + pieces[..i] + [pieces[i]] == lines + pieces[..i + 1]
  {
  }

  /** The reader's inner loop over all pieces but the last. */
  method TakeLines<T>(pieces: seq<string>, pending: Pending, parse: string -> Option<T>, ghost lines: seq<string>,
                      ghost events: seq<Event<T>>)
    returns (next: Pending, dispatched: seq<Event<T>>)
    requires pieces != [] && Keeps(lines, pending, events, parse)
    ensures Keeps(lines + ButLast(pieces), next, events + dispatched, parse)
  {
    next, dispatched := pending, [];
    ghost var taken, all := lines, events;
    for i := 0 to |pieces| - 1
      invariant taken == lines + pieces[..i] && all == events + dispatched
      invariant Keeps(taken, next, all, parse)
    {
      var more;
      next, more := TakeLine(pieces[i], next, parse, taken, all);
      NextPiece(lines, pieces, i);
      Regroup(events, dispatched, more);
      taken, all := taken + [pieces[i]], all + more;
      dispatched := dispatched + more;
    }
  }

  /** The reader has taken the complete lines of a text and carries the unfinished one. */
  ghost predicate Reads<T>(text: string, buffer: string, pending: Pending, events: seq<Event<T>>,
                           parse: string -> Option<T>) {
    Last(Split(text)) == buffer && Keeps(ButLast(Split(text)), pending, events, parse)
  }

  /** One chunk more. */
  method TakeChunk<T>(chunk: string, buffer: string, pending: Pending, parse: string -> Option<T>,
                      ghost text: string, ghost events: seq<Event<T>>)
    returns (rest: string, next: Pending, dispatched: seq<Event<T>>)
    requires Reads(text, buffer, pending, events, parse)
    ensures Reads(text + chunk, rest, next, events + dispatched, parse)
  {
    ChunkSplits(text, chunk);
    var pieces := Split(buffer + chunk);
    next, dispatched := TakeLines(pieces, pending, parse, ButLast(Split(text)), events);
    rest := pieces[|pieces| - 1];
  }

  lemma EndOfText<T>(text: string, buffer: string, pending: Pending, events: seq<Event<T>>, parse: string -> Option<T>)
    requires Reads(text, buffer, pending, events, parse)
    ensures EventsOf(text, parse) == events + BlockEvent(Last(BlocksOf(text)), parse)
  {
  }

  lemma StartReads<T>(parse: string -> Option<T>)
    ensures Reads("", "", Pending("message", None, []), [], parse)
  {
    assert StripAll([]) == [];
  }

  /** However the text was cut into chunks, the events are those of the whole text. */
  method ProcessRunSseResponse<T>(chunks: seq<string>, parse: string -> Option<T>) returns (events: seq<Event<T>>)
    ensures events == EventsOf(Chunked(chunks, |chunks|), parse)
  {
    var buffer := "";
    var pending := Pending("message", None, []);
    events := [];
    StartReads(parse);
    for n := 0 to |chunks|
      invariant Reads(Chunked(chunks, n), buffer, pending, events, parse)
    {
      var dispatched;
      buffer, pending, dispatched := TakeChunk(chunks[n], buffer, pending, parse, Chunked(chunks, n), events);
      events := events + dispatched;
    }
    EndOfText(Chunked(chunks, |chunks|), buffer, pending, events, parse);
    var dispatched := Dispatch(pending, parse);
    events := events + dispatched;
  }

  // ------------------------------------------------------------ the blocks are the text

  /** The blocks again as lines, with one blank line between two blocks. */
  function Unblock(blocks: seq<seq<string>>): seq<string>
    requires blocks != []
  {
    if |blocks| == 1 then blocks[0] else Unblock(ButLast(blocks)) + [""] + Last(blocks)
  }

  lemma {:induction false} UnblockBlank(before: seq<seq<string>>)
    requires before != []
    ensures Unblock(before + [[]]) == Unblock(before) + [""]
  {
    assert ButLast(before + [[]]) == before;
  }

  lemma {:induction false} UnblockLine(before: seq<seq<string>>, line: string)
    requires before != []
    ensures Unblock(ButLast(before) + [Last(before) + [line]]) == Unblock(before) + [line]
  {
    assert ButLast(ButLast(before) + [Last(before) + [line]]) == ButLast(before);
  }

  /** Blocks are cut at blank lines, and no line is lost, added or moved. */
  lemma {:induction false} BlocksRejoin(lines: seq<string>)
    ensures Unblock(Blocks(lines)) == lines
  {
    if lines != [] {
      var front, last := ButLast(lines), Last(lines);
      assert lines == front + [last];
      BlocksRejoin(front);
      if last == "" {
        UnblockBlank(Blocks(front));
      } else {
        UnblockLine(Blocks(front), last);
      }
    }
  }

  predicate NoBlanks(blocks: seq<seq<string>>) {
    forall i :: 0 <= i < |blocks| ==> "" !in blocks[i]
  }

  /** Blocks are cut at every blank line. */
  lemma {:induction false} BlocksHaveNoBlanks(lines: seq<string>)
    ensures NoBlanks(Blocks(lines))
  {
    if lines != [] {
      BlocksHaveNoBlanks(ButLast(lines));
      assert "" !in Last(Blocks(ButLast(lines)));
    }
  }

  lemma {:induction false} JoinBreak(pieces: seq<string>)
    requires pieces != []
    ensures JoinLines([""] + pieces) == "\n" + JoinLines(pieces)
  {
    assert ([""] + pieces)[1..] == pieces;
    assert "" + "\n" == "\n";
  }

  lemma {:induction false} JoinCons(c: char, first: string, rest: seq<string>)
    ensures JoinLines([[c] + first] + rest) == [c] + JoinLines([first] + rest)
  {
    assert ([[c] + first] + rest)[1..] == rest && ([first] + rest)[1..] == rest;
    if rest != [] {
      Regroup([c], first, "\n");
      Regroup([c], first + "\n", JoinLines(rest));
    }
  }

  /** Lines are cut at line feeds, and no character is lost, added or moved. */
  lemma {:induction false} SplitRejoins(text: string)
    ensures JoinLines(Split(text)) == text
  {
    if text != "" {
      SplitRejoins(text[1..]);
      var rest := Split(text[1..]);
      if text[0] == '\n' {
        JoinBreak(rest);
      } else {
        JoinCons(text[0], rest[0], rest[1..]);
        assert [rest[0]] + rest[1..] == rest;
      }
    }
  }

  /** Lines are cut at every line feed. */
  lemma {:induction false} SplitLeavesNoBreaks(text: string, i: nat)
    requires i < |Split(text)|
    ensures '\n' !in Split(text)[i]
  {
    if text != "" {
      if text[0] == '\n' && i > 0 {
        SplitLeavesNoBreaks(text[1..], i - 1);
      } else if text[0] != '\n' {
        SplitLeavesNoBreaks(text[1..], i);
      }
    }
  }

  lemma {:induction false} UnbrokenIsOne(tail: string)
    requires '\n' !in tail
    ensures Split(tail) == [tail]
  {
    if tail != "" {
      assert tail == [tail[0]] + tail[1..];
      UnbrokenIsOne(tail[1..]);
      SplitCons(tail[0], tail[1..]);
    }
  }

  lemma {:induction false} SplitBreak(text: string)
    ensures Split("\n" + text) == [""] + Split(text)
  {
    assert ("\n" + text)[1..] == text;
  }

  lemma GlueBreak(first: string, rest: seq<string>)
    ensures Glue([first], [""] + rest) == [first] + rest
  {
    assert ButLast([first]) == [] && first + "" == first && ([""] + rest)[1..] == rest;
  }

  lemma {:induction false} SplitFront(first: string, text: string)
    requires '\n' !in first
    ensures Split(first + ("\n" + text)) == [first] + Split(text)
  {
    UnbrokenIsOne(first);
    SplitBreak(text);
    SplitConcat(first, "\n" + text);
    GlueBreak(first, Split(text));
  }

  predicate NoBreaks(pieces: seq<string>) {
    forall i :: 0 <= i < |pieces| ==> '\n' !in pieces[i]
  }

  lemma {:induction false} SplitUndoesJoin(pieces: seq<string>)
    requires pieces != [] && NoBreaks(pieces)
    ensures Split(JoinLines(pieces)) == pieces
  {
    if |pieces| == 1 {
      UnbrokenIsOne(pieces[0]);
    } else {
      SplitUndoesJoin(pieces[1..]);
      SplitFront(pieces[0], JoinLines(pieces[1..]));
      Regroup(pieces[0], "\n", JoinLines(pieces[1..]));
    }
  }

  /** The lines of a text are the one list of pieces without line feeds that, joined by line feeds, gives the text. */
  lemma {:induction false} SplitIsTheCut(text: string, pieces: seq<string>)
    requires pieces != []
    ensures NoBreaks(pieces) && JoinLines(pieces) == text <==> pieces == Split(text)
  {
    SplitRejoins(text);
    forall i | 0 <= i < |Split(text)| ensures '\n' !in Split(text)[i] {
      SplitLeavesNoBreaks(text, i);
    }
    if NoBreaks(pieces) {
      SplitUndoesJoin(pieces);
    }
  }

  /** The last block with more lines. */
  function WithLines(blocks: seq<seq<string>>, more: seq<string>): seq<seq<string>>
    requires blocks != []
  {
    ButLast(blocks) + [Last(blocks) + more]
  }

  lemma WithLinesSnoc(blocks: seq<seq<string>>, more: seq<string>, line: string)
    requires blocks != []
    ensures WithLines(WithLines(blocks, more), [line]) == WithLines(blocks, more + [line])
  {
    assert ButLast(WithLines(blocks, more)) == ButLast(blocks);
    Regroup(Last(blocks), more, [line]);
  }

  lemma WithNoLines(blocks: seq<seq<string>>)
    requires blocks != []
    ensures WithLines(blocks, []) == blocks
  {
    assert Last(blocks) + [] == Last(blocks);
  }

  lemma WithFirstLines(blocks: seq<seq<string>>, block: seq<string>)
    ensures WithLines(blocks + [[]], block) == blocks + [block]
  {
    assert ButLast(blocks + [[]]) == blocks && [] + block == block;
  }

  lemma {:induction false} BlocksSnoc(lines: seq<string>, line: string)
    ensures Blocks(lines + [line]) == if line == "" then Blocks(lines) + [[]] else WithLines(Blocks(lines), [line])
  {
    assert ButLast(lines + [line]) == lines;
  }

  lemma {:induction false} BlocksAppend(lines: seq<string>, block: seq<string>)
    requires "" !in block
    ensures Blocks(lines + block) == WithLines(Blocks(lines), block)
  {
    if block == [] {
      assert lines + block == lines;
      WithNoLines(Blocks(lines));
    } else {
      var front, last := ButLast(block), Last(block);
      assert block == front + [last];
      BlocksAppend(lines, front);
      BlocksSnoc(lines + front, last);
      Regroup(lines, front, [last]);
      WithLinesSnoc(Blocks(lines), front, last);
    }
  }

  lemma {:induction false} BlocksUndoUnblock(blocks: seq<seq<string>>)
    requires blocks != [] && NoBlanks(blocks)
    ensures Blocks(Unblock(blocks)) == blocks
  {
    var front, last := ButLast(blocks), Last(blocks);
    assert blocks == front + [last];
    if |blocks| == 1 {
      BlocksAppend([], last);
      assert [] + last == last && front == [];
      WithFirstLines([], last);
    } else {
      BlocksUndoUnblock(front);
      BlocksSnoc(Unblock(front), "");
      BlocksAppend(Unblock(front) + [""], last);
      WithFirstLines(front, last);
    }
  }

  /**
   The blocks of some lines are the one list of blocks without blank lines that, with
   blank lines between, gives the lines.
   */
  lemma {:induction false} BlocksAreTheCut(lines: seq<string>, blocks: seq<seq<string>>)
    requires blocks != []
    ensures NoBlanks(blocks) && Unblock(blocks) == lines <==> blocks == Blocks(lines)
  {
    BlocksRejoin(lines);
    BlocksHaveNoBlanks(lines);
    if NoBlanks(blocks) {
      BlocksUndoUnblock(blocks);
    }
  }

  // ------------------------------------------------------------ the end of the stream

  lemma {:induction false} UnbrokenSplit(a: string, tail: string)
    requires Split(a) == [a] && '\n' !in tail
    ensures Split(a + tail) == [a + tail]
  {
    SplitConcat(a, tail);
    UnbrokenIsOne(tail);
  }

  lemma BlankEndsBlock(lines: seq<string>)
    ensures Blocks(StripAll(lines + [""])) == Blocks(StripAll(lines)) + [[]]
  {
    StripSnoc(lines, "");
  }

  /** A line the stream does not finish is never dispatched. */
  lemma UnfinishedLineIgnored<T>(text: string, tail: string, parse: string -> Option<T>)
    requires '\n' !in tail
    ensures EventsOf(text + tail, parse) == EventsOf(text, parse)
  {
    ChunkSplits(text, tail);
    LastPieceHasNoBreak(text);
    UnbrokenSplit(Last(Split(text)), tail);
    assert ButLast([Last(Split(text)) + tail]) == [];
    assert ButLast(Split(text)) + [] == ButLast(Split(text));
  }

  lemma {:induction false} BreakEndsLine(text: string)
    requires Last(Split(text)) == ""
    ensures ButLast(Split(text + "\n")) == ButLast(Split(text)) + [""]
  {
    ChunkSplits(text, "\n");
    assert Split("\n") == ["", ""];
    assert "" + "\n" == "\n" && ButLast(["", ""]) == [""];
  }

  lemma {:induction false} EmptyBlockIsSilent<T>(blocks: seq<seq<string>>, parse: string -> Option<T>)
    ensures BlockEvents(blocks + [[]], parse) == BlockEvents(blocks, parse)
  {
    assert ButLast(blocks + [[]]) == blocks;
  }

  /** Ending after a complete line dispatches the open block, as a blank line would. */
  lemma {:induction false} EndActsAsBlankLine<T>(text: string, parse: string -> Option<T>)
    requires Last(Split(text)) == ""
    ensures EventsOf(text + "\n", parse) == EventsOf(text, parse)
  {
    BreakEndsLine(text);
    BlankEndsBlock(ButLast(Split(text)));
    EmptyBlockIsSilent(BlocksOf(text), parse);
  }
}
