/**
 Messages written as a server-sent event stream are read back as the events they
 stand for: kind, id and payload, with line ends of either kind.
 */
module SseRoundTrip {
  import opened Prelude
  import opened SseReader

  /** A message as a server sends it: comments, an optional kind, an optional id, and the payload. */
  datatype Message = Message(notes: seq<string>, kind: Option<string>, id: Option<string>, data: string)

  function Prefixed(prefix: string, lines: seq<string>): seq<string> {
    if lines == [] then [] else Prefixed(prefix, ButLast(lines)) + [prefix + Last(lines)]
  }

  function Field(prefix: string, value: Option<string>): seq<string> {
    if value.Some? then [prefix + value.value] else []
  }

  /** The lines of a message: the payload takes one data line for each of its own lines. */
  function LinesOf(m: Message, pad: string): seq<string> {
    Prefixed(":", m.notes) + Field("event:" + pad, m.kind) + Field("id:" + pad, m.id) +
    Prefixed("data:" + pad, Split(m.data))
  }

  /** All messages, each followed by a blank line. */
  function AllLines(messages: seq<Message>, pad: string): seq<string> {
    if messages == [] then []
    else AllLines(ButLast(messages), pad) + LinesOf(Last(messages), pad) + [""]
  }

  /** Every line with its line end. */
  function Ended(lines: seq<string>, eol: string): string {
    if lines == [] then "" else lines[0] + eol + Ended(lines[1..], eol)
  }

  function Print(messages: seq<Message>, pad: string, eol: string): string {
    Ended(AllLines(messages, pad), eol)
  }

  // ------------------------------------------------------------ what can be written

  predicate IsEol(eol: string) {
    eol == "\n" || eol == "\r\n"
  }

  /** Fits on one line, and is not shortened at its end. */
  predicate OneLine(text: string) {
    '\n' !in text && (text != "" ==> Last(text) != '\r')
  }

  /**
   Comments fit on a line, kind and id are trimmed and the kind is not empty, payload
   lines do not start with whitespace.
   */
  predicate Writable(m: Message) {
    && (forall i :: 0 <= i < |m.notes| ==> OneLine(m.notes[i]))
    && (m.kind.Some? ==> m.kind.value != "" && IsTrimmed(m.kind.value) && '\n' !in m.kind.value)
    && (m.id.Some? ==> IsTrimmed(m.id.value) && '\n' !in m.id.value)
    && (forall i :: 0 <= i < |Split(m.data)| ==> WritablePiece(Split(m.data)[i]))
  }

  predicate WritablePiece(piece: string) {
    piece != "" ==> !IsSpace(piece[0]) && Last(piece) != '\r'
  }

  predicate IsPad(pad: string) {
    AllSpace(pad) && OneLine(pad)
  }

  /** The event a message stands for, if its payload parses. */
  function Meant<T>(m: Message, parse: string -> Option<T>): seq<Event<T>> {
    match parse(m.data)
    case None => []
    case Some(value) => [Event(if m.kind.Some? then m.kind.value else "message", value, m.id)]
  }

  function AllMeant<T>(messages: seq<Message>, parse: string -> Option<T>): seq<Event<T>> {
    if messages == [] then [] else AllMeant(ButLast(messages), parse) + Meant(Last(messages), parse)
  }

  // ------------------------------------------------------------ fields

  predicate NoneStarts(lines: seq<string>, name: string) {
    forall i :: 0 <= i < |lines| ==> !(name <= lines[i])
  }

  /** Of several lines for one field the last one counts. */
  lemma {:induction false} LastFieldWins(before: seq<string>, name: string, value: string, after: seq<string>)
    requires NoneStarts(after, name)
    ensures LastField(before + [name + value] + after, name) == Some(value)
    decreases |after|
  {
    var block := before + [name + value] + after;
    if after == [] {
      assert Last(block) == name + value;
    } else {
      assert ButLast(block) == before + [name + value] + ButLast(after) && Last(block) == Last(after);
      LastFieldWins(before, name, value, ButLast(after));
    }
  }

  lemma {:induction false} NoField(block: seq<string>, name: string)
    requires NoneStarts(block, name)
    ensures LastField(block, name) == None
  {
    if block != [] {
      NoField(ButLast(block), name);
    }
  }

  lemma {:induction false} NoData(block: seq<string>)
    requires NoneStarts(block, "data:")
    ensures DataLines(block) == []
  {
    if block != [] {
      NoData(ButLast(block));
    }
  }

  /** An empty kind is the default one. */
  lemma BlankKindIsDefault(before: seq<string>, blank: string, after: seq<string>)
    requires AllSpace(blank) && NoneStarts(after, "event:")
    ensures KindOf(before + ["event:" + blank] + after) == "message"
  {
    LastFieldWins(before, "event:", blank, after);
    TrimPadded(blank, "", "");
    assert blank + "" + "" == blank;
  }

  /** A block of comments and other fields only stands for nothing. */
  lemma SilentBlock<T>(block: seq<string>, parse: string -> Option<T>)
    requires NoneStarts(block, "data:")
    ensures BlockEvent(block, parse) == []
  {
    NoData(block);
  }

  lemma {:induction false} DataLineRead(block: seq<string>, pad: string, piece: string)
    requires IsPad(pad) && WritablePiece(piece)
    ensures DataLines(block + ["data:" + pad + piece]) == DataLines(block) + [piece]
  {
    var line := "data:" + pad + piece;
    assert "data:" <= line && line[5..] == pad + piece;
    TrimStartPadded(pad, piece);
    assert ButLast(block + [line]) == block;
  }

  lemma {:induction false} DataRead(before: seq<string>, pad: string, pieces: seq<string>)
    requires IsPad(pad) && forall i :: 0 <= i < |pieces| ==> WritablePiece(pieces[i])
    ensures DataLines(before + Prefixed("data:" + pad, pieces)) == DataLines(before) + pieces
  {
    if pieces == [] {
      assert before + [] == before && DataLines(before) + [] == DataLines(before);
    } else {
      var front, last := ButLast(pieces), Last(pieces);
      var line := "data:" + pad + last;
      assert before + Prefixed("data:" + pad, pieces) == before + Prefixed("data:" + pad, front) + [line];
      DataRead(before, pad, front);
      DataLineRead(before + Prefixed("data:" + pad, front), pad, last);
      assert pieces == front + [last];
      Regroup(DataLines(before), front, [last]);
    }
  }

  lemma {:induction false} PrefixedStart(prefix: string, lines: seq<string>, name: string)
    requires prefix != "" && name != "" && prefix[0] != name[0]
    ensures NoneStarts(Prefixed(prefix, lines), name)
  {
    if lines != [] {
      PrefixedStart(prefix, ButLast(lines), name);
    }
  }

  lemma {:induction false} FieldStart(prefix: string, value: Option<string>, name: string)
    requires prefix != "" && name != "" && prefix[0] != name[0]
    ensures NoneStarts(Field(prefix, value), name)
  {
  }

  lemma NoneStartsConcat(a: seq<string>, b: seq<string>, name: string)
    requires NoneStarts(a, name) && NoneStarts(b, name)
    ensures NoneStarts(a + b, name)
  {
  }

  lemma KindRead(m: Message, pad: string)
    requires Writable(m) && IsPad(pad)
    ensures KindOf(LinesOf(m, pad)) == if m.kind.Some? then m.kind.value else "message"
  {
    var notes, id, data := Prefixed(":", m.notes), Field("id:" + pad, m.id), Prefixed("data:" + pad, Split(m.data));
    PrefixedStart(":", m.notes, "event:");
    FieldStart("id:" + pad, m.id, "event:");
    PrefixedStart("data:" + pad, Split(m.data), "event:");
    NoneStartsConcat(id, data, "event:");
    if m.kind.Some? {
      LastFieldWins(notes, "event:", pad + m.kind.value, id + data);
      assert "event:" + pad + m.kind.value == "event:" + (pad + m.kind.value);
      assert LinesOf(m, pad) == notes + ["event:" + (pad + m.kind.value)] + (id + data);
      TrimPadded(pad, m.kind.value, "");
      assert pad + m.kind.value + "" == pad + m.kind.value;
    } else {
      NoneStartsConcat(notes, id + data, "event:");
      assert LinesOf(m, pad) == notes + (id + data);
      NoField(LinesOf(m, pad), "event:");
    }
  }

  lemma IdRead(m: Message, pad: string)
    requires Writable(m) && IsPad(pad)
    ensures IdOf(LinesOf(m, pad)) == m.id
  {
    var notes, kind, data :=
      Prefixed(":", m.notes), Field("event:" + pad, m.kind), Prefixed("data:" + pad, Split(m.data));
    PrefixedStart(":", m.notes, "id:");
    FieldStart("event:" + pad, m.kind, "id:");
    PrefixedStart("data:" + pad, Split(m.data), "id:");
    NoneStartsConcat(notes, kind, "id:");
    if m.id.Some? {
      LastFieldWins(notes + kind, "id:", pad + m.id.value, data);
      assert "id:" + pad + m.id.value == "id:" + (pad + m.id.value);
      assert LinesOf(m, pad) == notes + kind + ["id:" + (pad + m.id.value)] + data;
      TrimPadded(pad, m.id.value, "");
      assert pad + m.id.value + "" == pad + m.id.value;
    } else {
      NoneStartsConcat(notes + kind, data, "id:");
      assert LinesOf(m, pad) == notes + kind + data;
      NoField(LinesOf(m, pad), "id:");
    }
  }

  lemma PayloadRead(m: Message, pad: string)
    requires Writable(m) && IsPad(pad)
    ensures DataLines(LinesOf(m, pad)) == Split(m.data) && JoinLines(DataLines(LinesOf(m, pad))) == m.data
  {
    var notes, kind, id := Prefixed(":", m.notes), Field("event:" + pad, m.kind), Field("id:" + pad, m.id);
    PrefixedStart(":", m.notes, "data:");
    FieldStart("event:" + pad, m.kind, "data:");
    FieldStart("id:" + pad, m.id, "data:");
    NoneStartsConcat(notes, kind, "data:");
    NoneStartsConcat(notes + kind, id, "data:");
    NoData(notes + kind + id);
    DataRead(notes + kind + id, pad, Split(m.data));
    SplitRejoins(m.data);
  }

  lemma BlockRead<T>(m: Message, pad: string, parse: string -> Option<T>)
    requires Writable(m) && IsPad(pad)
    ensures BlockEvent(LinesOf(m, pad), parse) == Meant(m, parse)
  {
    KindRead(m, pad);
    IdRead(m, pad);
    PayloadRead(m, pad);
  }

  // ------------------------------------------------------------ lines

  /** Can stand as a line of its own: not blank, no line feed, no carriage return at its end. */
  predicate Plain(line: string) {
    line != "" && OneLine(line)
  }

  predicate AllPlain(lines: seq<string>) {
    forall i :: 0 <= i < |lines| ==> Plain(lines[i])
  }

  lemma {:induction false} PrefixedPlain(prefix: string, lines: seq<string>)
    requires Plain(prefix) && forall i :: 0 <= i < |lines| ==> OneLine(lines[i])
    ensures AllPlain(Prefixed(prefix, lines))
  {
    if lines != [] {
      PrefixedPlain(prefix, ButLast(lines));
      assert OneLine(Last(lines));
      assert Last(lines) == "" ==> prefix + Last(lines) == prefix;
    }
  }

  lemma FieldPlain(prefix: string, value: Option<string>)
    requires Plain(prefix) && (value.Some? ==> IsTrimmed(value.value) && '\n' !in value.value)
    ensures AllPlain(Field(prefix, value))
  {
    if value.Some? && value.value == "" {
      assert prefix + "" == prefix;
    }
  }

  lemma LinesArePlain(m: Message, pad: string)
    requires Writable(m) && IsPad(pad)
    ensures AllPlain(LinesOf(m, pad))
  {
    PadIsPlain("event:", pad);
    PadIsPlain("id:", pad);
    PadIsPlain("data:", pad);
    PrefixedPlain(":", m.notes);
    FieldPlain("event:" + pad, m.kind);
    FieldPlain("id:" + pad, m.id);
    forall i | 0 <= i < |Split(m.data)| ensures OneLine(Split(m.data)[i]) {
      SplitLeavesNoBreaks(m.data, i);
      assert WritablePiece(Split(m.data)[i]);
    }
    PrefixedPlain("data:" + pad, Split(m.data));
  }

  lemma PadIsPlain(name: string, pad: string)
    requires Plain(name) && IsPad(pad)
    ensures Plain(name + pad)
  {
    assert pad == "" ==> name + pad == name;
  }

  predicate LineOrBlank(lines: seq<string>) {
    forall i :: 0 <= i < |lines| ==> OneLine(lines[i])
  }

  function Raw(lines: seq<string>, eol: string): seq<string>
    requires IsEol(eol)
  {
    seq(|lines|, i requires 0 <= i < |lines| => if eol == "\n" then lines[i] else lines[i] + "\r")
  }

  lemma {:induction false} EndedSplits(lines: seq<string>, eol: string)
    requires IsEol(eol) && LineOrBlank(lines)
    ensures Split(Ended(lines, eol)) == Raw(lines, eol) + [""]
  {
    if lines != [] {
      EndedSplits(lines[1..], eol);
      var first := Raw(lines, eol)[0];
      var rest := Ended(lines[1..], eol);
      assert Ended(lines, eol) == first + ("\n" + rest);
      assert OneLine(lines[0]) && '\n' !in first;
      SplitFront(first, rest);
      assert Raw(lines, eol) == [first] + Raw(lines[1..], eol);
    }
  }

  lemma RawStrips(lines: seq<string>, eol: string)
    requires IsEol(eol) && LineOrBlank(lines)
    ensures StripAll(Raw(lines, eol)) == lines
  {
    forall i | 0 <= i < |lines| ensures StripReturn(Raw(lines, eol)[i]) == lines[i] {
      assert OneLine(lines[i]);
      assert ButLast(lines[i] + "\r") == lines[i];
    }
  }

  predicate AllWritable(messages: seq<Message>) {
    forall i :: 0 <= i < |messages| ==> Writable(messages[i])
  }

  function MessageBlocks(messages: seq<Message>, pad: string): seq<seq<string>> {
    if messages == [] then [] else MessageBlocks(ButLast(messages), pad) + [LinesOf(Last(messages), pad)]
  }

  lemma {:induction false} BlockAndBlank(lines: seq<string>, before: seq<seq<string>>, block: seq<string>)
    requires Blocks(lines) == before + [[]] && "" !in block
    ensures Blocks(lines + block + [""]) == before + [block] + [[]]
  {
    BlocksAppend(lines, block);
    WithFirstLines(before, block);
    BlocksSnoc(lines + block, "");
  }

  lemma LineOrBlankAppend(lines: seq<string>, block: seq<string>)
    requires LineOrBlank(lines) && AllPlain(block)
    ensures LineOrBlank(lines + block + [""]) && "" !in block
  {
    var more := lines + block + [""];
    forall i | 0 <= i < |more| ensures OneLine(more[i]) {
      assert i < |lines| ==> OneLine(lines[i]);
      assert |lines| <= i < |lines| + |block| ==> Plain(block[i - |lines|]);
    }
  }

  lemma {:induction false} PrintedBlocks(messages: seq<Message>, pad: string)
    requires AllWritable(messages) && IsPad(pad)
    ensures LineOrBlank(AllLines(messages, pad))
    ensures Blocks(AllLines(messages, pad)) == MessageBlocks(messages, pad) + [[]]
  {
    if messages == [] {
      assert [] + [[]] == Blocks([]);
    } else {
      var front, block := ButLast(messages), LinesOf(Last(messages), pad);
      PrintedBlocks(front, pad);
      LinesArePlain(Last(messages), pad);
      LineOrBlankAppend(AllLines(front, pad), block);
      BlockAndBlank(AllLines(front, pad), MessageBlocks(front, pad), block);
    }
  }

  lemma {:induction false} BlocksAreMeant<T>(messages: seq<Message>, pad: string, parse: string -> Option<T>)
    requires AllWritable(messages) && IsPad(pad)
    ensures BlockEvents(MessageBlocks(messages, pad), parse) == AllMeant(messages, parse)
  {
    if messages != [] {
      BlocksAreMeant(ButLast(messages), pad, parse);
      BlockRead(Last(messages), pad, parse);
      assert ButLast(MessageBlocks(messages, pad)) == MessageBlocks(ButLast(messages), pad);
    }
  }

  /** What is written as a stream is read back, message by message, with its kind, its id and its payload. */
  lemma {:induction false} PrintedIsRead<T>(messages: seq<Message>, pad: string, eol: string,
                                            parse: string -> Option<T>)
    requires AllWritable(messages) && IsPad(pad) && IsEol(eol)
    ensures EventsOf(Print(messages, pad, eol), parse) == AllMeant(messages, parse)
  {
    var lines := AllLines(messages, pad);
    PrintedBlocks(messages, pad);
    BlocksAreMeant(messages, pad, parse);
    EndedSplits(lines, eol);
    RawStrips(lines, eol);
    assert ButLast(Raw(lines, eol) + [""]) == Raw(lines, eol);
    EmptyBlockIsSilent(MessageBlocks(messages, pad), parse);
  }
}
