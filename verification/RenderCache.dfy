/**
 The cache of rendered Markdown: least recently used entries go first, under a character
 budget and an entry limit.
 */
module RenderCache {
  import opened Prelude

  datatype Entry = Entry(key: string, html: string) {
    function Size(): nat {
      |key| + |html|
    }
  }

  /** Entries from the least to the most recently used. */
  type Entries = seq<Entry>

  function Total(entries: Entries): nat {
    if entries == [] then 0 else entries[0].Size() + Total(entries[1..])
  }

  function IndexOf(entries: Entries, key: string): (i: nat)
    ensures i <= |entries| && (i < |entries| ==> entries[i].key == key)
    ensures forall j :: 0 <= j < i ==> entries[j].key != key
  {
    if entries == [] || entries[0].key == key then 0 else 1 + IndexOf(entries[1..], key)
  }

  function Without(entries: Entries, key: string): Entries {
    var i := IndexOf(entries, key);
    if i == |entries| then entries else entries[..i] + entries[i + 1..]
  }

  function Lookup(entries: Entries, key: string): Option<string> {
    var i := IndexOf(entries, key);
    if i == |entries| then None else Some(entries[i].html)
  }

  /** A hit moves the entry behind all others. */
  function AfterGet(entries: Entries, key: string): Entries {
    match Lookup(entries, key)
    case None => entries
    case Some(html) => Without(entries, key) + [Entry(key, html)]
  }

  datatype Limits = Limits(maxChars: int, maxEntries: int) {
    /** Nothing has to go to make room. */
    predicate Room(entries: Entries, chars: int) {
      entries == [] || (Total(entries) + chars <= maxChars && |entries| < maxEntries)
    }

    function Evicted(entries: Entries, chars: int): Entries {
      if Room(entries, chars) then entries else Evicted(entries[1..], chars)
    }

    function AfterSet(entries: Entries, key: string, html: string): Entries {
      var others := Without(entries, key);
      var e := Entry(key, html);
      if e.Size() > maxChars then others else Evicted(others, e.Size()) + [e]
    }

    /** Both budgets hold; one entry is always allowed. */
    predicate Within(entries: Entries) {
      entries == [] || (Total(entries) <= maxChars && (|entries| <= maxEntries || |entries| == 1))
    }
  }

  predicate Distinct(entries: Entries) {
    forall i, j :: 0 <= i < j < |entries| ==> entries[i].key != entries[j].key
  }

  // ------------------------------------------------------------ sums

  lemma {:induction false} TotalConcat(a: Entries, b: Entries)
    ensures Total(a + b) == Total(a) + Total(b)
  {
    if a == [] {
      assert a + b == b;
    } else {
      assert (a + b)[1..] == a[1..] + b;
      TotalConcat(a[1..], b);
    }
  }

  lemma {:induction false} TotalSingle(e: Entry)
    ensures Total([e]) == e.Size()
  {
    assert [e][1..] == [];
  }

  lemma {:induction false} TotalWithout(entries: Entries, key: string)
    ensures Total(Without(entries, key)) ==
            Total(entries) - match Lookup(entries, key) case None => 0 case Some(html) => Entry(key, html).Size()
  {
    var i := IndexOf(entries, key);
    if i < |entries| {
      var front, back := entries[..i], entries[i + 1..];
      assert entries == front + ([entries[i]] + back);
      TotalConcat(front, [entries[i]] + back);
      TotalConcat([entries[i]], back);
      TotalSingle(entries[i]);
      TotalConcat(front, back);
    }
  }

  // ------------------------------------------------------------ eviction

  /** What is kept is the longest end of the list that leaves room. */
  lemma {:induction false} EvictsLeast(limits: Limits, entries: Entries, chars: int)
    ensures var kept := limits.Evicted(entries, chars);
            && |kept| <= |entries| && kept == entries[|entries| - |kept|..] && limits.Room(kept, chars)
            && forall n :: 0 <= n < |entries| - |kept| ==> !limits.Room(entries[n..], chars)
  {
    if !limits.Room(entries, chars) {
      EvictsLeast(limits, entries[1..], chars);
      var kept := limits.Evicted(entries, chars);
      assert entries[0..] == entries;
      forall n | 0 < n < |entries| - |kept| ensures !limits.Room(entries[n..], chars) {
        assert entries[1..][n - 1..] == entries[n..];
      }
    }
  }

  lemma {:induction false} KeptIsEnd(limits: Limits, entries: Entries, chars: int)
    ensures var kept := limits.Evicted(entries, chars);
            |kept| <= |entries| && kept == entries[|entries| - |kept|..] && limits.Room(kept, chars)
  {
    EvictsLeast(limits, entries, chars);
  }

  lemma {:induction false} DistinctEnd(entries: Entries, kept: Entries, e: Entry)
    requires Distinct(entries) && |kept| <= |entries| && kept == entries[|entries| - |kept|..]
    requires forall i :: 0 <= i < |entries| ==> entries[i].key != e.key
    ensures Distinct(kept + [e])
  {
    var gone := |entries| - |kept|;
    forall i, j | 0 <= i < j < |kept| ensures kept[i].key != kept[j].key {
      assert entries[gone + i].key != entries[gone + j].key;
    }
    forall i | 0 <= i < |kept| ensures kept[i].key != e.key {
      assert kept[i] == entries[gone + i];
    }
  }

  lemma {:induction false} RoomThenWithin(limits: Limits, entries: Entries, e: Entry)
    requires limits.Room(entries, e.Size()) && e.Size() <= limits.maxChars
    ensures limits.Within(entries + [e])
  {
    TotalConcat(entries, [e]);
    TotalSingle(e);
  }

  // ------------------------------------------------------------ the cache as an object

  class MarkdownRenderCache {
    var entries: Entries
    var totalChars: int
    const limits: Limits

    ghost predicate Valid()
      reads this
    {
      totalChars == Total(entries) && Distinct(entries) && limits.Within(entries)
    }

    constructor (maxChars: int, maxEntries: int)
      ensures Valid() && entries == [] && limits == Limits(maxChars, maxEntries)
    {
      entries, totalChars, limits := [], 0, Limits(maxChars, maxEntries);
    }

    method Get(key: string) returns (html: Option<string>)
      requires Valid()
      modifies this`entries
      ensures Valid() && entries == AfterGet(old(entries), key) && html == Lookup(old(entries), key)
    {
      GetKeepsValid(limits, entries, key);
      var i := IndexOf(entries, key);
      if i == |entries| {
        return None;
      }
      html := Some(entries[i].html);
      entries := Without(entries, key) + [Entry(key, html.value)];
    }

    /** Takes out the least recently used entry. */
    method EvictOne()
      requires entries != [] && totalChars == Total(entries)
      modifies this
      ensures entries == old(entries)[1..] && totalChars == Total(entries)
    {
      totalChars := totalChars - entries[0].Size();
      entries := entries[1..];
    }

    /** Takes out entries until there is room. */
    method EvictFor(chars: int)
      requires totalChars == Total(entries)
      modifies this
      ensures entries == limits.Evicted(old(entries), chars) && totalChars == Total(entries)
    {
      while entries != [] && (totalChars + chars > limits.maxChars || |entries| >= limits.maxEntries)
        invariant totalChars == Total(entries) && limits.Evicted(entries, chars) == limits.Evicted(old(entries), chars)
        decreases |entries|
      {
        EvictOne();
      }
    }

    /** Takes out the entry of a key, if there is one. */
    method Remove(key: string)
      requires totalChars == Total(entries)
      modifies this
      ensures entries == Without(old(entries), key) && totalChars == Total(entries)
    {
      TotalWithout(entries, key);
      var i := IndexOf(entries, key);
      if i < |entries| {
        totalChars := totalChars - entries[i].Size();
        entries := entries[..i] + entries[i + 1..];
      }
    }

    method Append(e: Entry)
      requires totalChars == Total(entries)
      modifies this
      ensures entries == old(entries) + [e] && totalChars == Total(entries)
    {
      TotalConcat(entries, [e]);
      TotalSingle(e);
      entries := entries + [e];
      totalChars := totalChars + e.Size();
    }

    method Set(key: string, html: string)
      requires Valid()
      modifies this
      ensures Valid() && entries == limits.AfterSet(old(entries), key, html)
    {
      SetKeepsValid(limits, entries, key, html);
      Remove(key);
      var chars := |key| + |html|;
      if chars > limits.maxChars {
        return;
      }
      EvictFor(chars);
      Append(Entry(key, html));
    }
  }

  lemma {:induction false} WithoutKeeps(limits: Limits, entries: Entries, key: string)
    requires Distinct(entries) && limits.Within(entries)
    ensures Distinct(Without(entries, key)) && limits.Within(Without(entries, key))
    ensures forall i :: 0 <= i < |Without(entries, key)| ==> Without(entries, key)[i].key != key
  {
    TotalWithout(entries, key);
    WithoutIs(entries, key);
  }

  /** The others, in their order. */
  lemma {:induction false} WithoutIs(entries: Entries, key: string)
    ensures var i := IndexOf(entries, key);
            var others := Without(entries, key);
            && |others| == |entries| - (if i < |entries| then 1 else 0)
            && forall j :: 0 <= j < |others| ==> others[j] == entries[if j < i then j else j + 1]
  {
  }

  lemma {:induction false} GetKeepsValid(limits: Limits, entries: Entries, key: string)
    requires Distinct(entries) && limits.Within(entries)
    ensures Distinct(AfterGet(entries, key)) && limits.Within(AfterGet(entries, key))
    ensures Total(AfterGet(entries, key)) == Total(entries)
  {
    var html := Lookup(entries, key);
    if html.Some? {
      WithoutKeeps(limits, entries, key);
      TotalWithout(entries, key);
      TotalConcat(Without(entries, key), [Entry(key, html.value)]);
      TotalSingle(Entry(key, html.value));
    }
  }

  lemma {:induction false} SetKeepsValid(limits: Limits, entries: Entries, key: string, html: string)
    requires Distinct(entries) && limits.Within(entries)
    ensures Distinct(limits.AfterSet(entries, key, html)) && limits.Within(limits.AfterSet(entries, key, html))
  {
    WithoutKeeps(limits, entries, key);
    var others := Without(entries, key);
    var e := Entry(key, html);
    if e.Size() <= limits.maxChars {
      KeptIsEnd(limits, others, e.Size());
      DistinctEnd(others, limits.Evicted(others, e.Size()), e);
      RoomThenWithin(limits, limits.Evicted(others, e.Size()), e);
    }
  }

  // ------------------------------------------------------------ runs

  datatype Op = Get(key: string) | Set(key: string, html: string)

  function Run(limits: Limits, ops: seq<Op>): Entries {
    if ops == [] then []
    else
      var before := Run(limits, ops[..|ops| - 1]);
      match ops[|ops| - 1]
      case Get(key) => AfterGet(before, key)
      case Set(key, html) => limits.AfterSet(before, key, html)
  }

  function LastSet(ops: seq<Op>, key: string): Option<string> {
    if ops == [] then None
    else if ops[|ops| - 1].Set? && ops[|ops| - 1].key == key then Some(ops[|ops| - 1].html)
    else LastSet(ops[..|ops| - 1], key)
  }

  /** When the key was last asked for or set, counted from one. */
  function LastUse(ops: seq<Op>, key: string): (n: nat)
    ensures n <= |ops|
  {
    if ops == [] then 0 else if ops[|ops| - 1].key == key then |ops| else LastUse(ops[..|ops| - 1], key)
  }

  /** Each entry has what was last set, and entries stand in the order of their last use. */
  predicate Recent(entries: Entries, ops: seq<Op>) {
    && (forall i :: 0 <= i < |entries| ==> LastSet(ops, entries[i].key) == Some(entries[i].html))
    && (forall i, j :: 0 <= i < j < |entries| ==> LastUse(ops, entries[i].key) < LastUse(ops, entries[j].key))
  }

  lemma {:induction false} OthersUnchanged(ops: seq<Op>, op: Op, key: string)
    requires op.key != key
    ensures LastSet(ops + [op], key) == LastSet(ops, key) && LastUse(ops + [op], key) == LastUse(ops, key)
  {
    assert (ops + [op])[..|ops|] == ops;
  }

  lemma {:induction false} OwnChanged(ops: seq<Op>, op: Op)
    ensures LastUse(ops + [op], op.key) == |ops| + 1
    ensures LastSet(ops + [op], op.key) == if op.Set? then Some(op.html) else LastSet(ops, op.key)
  {
    assert (ops + [op])[..|ops|] == ops;
  }

  /** Entries of other keys keep their standing, and a fresh entry of the key goes behind them. */
  lemma {:induction false} StillRecent(entries: Entries, ops: seq<Op>, op: Op, e: Option<Entry>)
    requires Recent(entries, ops) && forall i :: 0 <= i < |entries| ==> entries[i].key != op.key
    requires e.Some? ==> e.value.key == op.key && LastSet(ops + [op], op.key) == Some(e.value.html)
    ensures Recent(if e.Some? then entries + [e.value] else entries, ops + [op])
  {
    OwnChanged(ops, op);
    forall i | 0 <= i < |entries|
      ensures LastSet(ops + [op], entries[i].key) == LastSet(ops, entries[i].key)
      ensures LastUse(ops + [op], entries[i].key) == LastUse(ops, entries[i].key)
    {
      OthersUnchanged(ops, op, entries[i].key);
    }
  }

  lemma {:induction false} WithoutRecent(entries: Entries, ops: seq<Op>, key: string)
    requires Recent(entries, ops)
    ensures Recent(Without(entries, key), ops)
  {
    WithoutIs(entries, key);
    var at, others := IndexOf(entries, key), Without(entries, key);
    forall i, j | 0 <= i < j < |others| ensures LastUse(ops, others[i].key) < LastUse(ops, others[j].key) {
      var i0, j0 := if i < at then i else i + 1, if j < at then j else j + 1;
      assert others[i] == entries[i0] && others[j] == entries[j0];
    }
  }

  lemma {:induction false} GetRecent(limits: Limits, entries: Entries, ops: seq<Op>, key: string)
    requires Recent(entries, ops) && Distinct(entries) && limits.Within(entries)
    ensures Recent(AfterGet(entries, key), ops + [Get(key)])
  {
    OwnChanged(ops, Get(key));
    WithoutKeeps(limits, entries, key);
    WithoutRecent(entries, ops, key);
    match Lookup(entries, key) {
      case None => StillRecent(entries, ops, Get(key), None);
      case Some(html) => StillRecent(Without(entries, key), ops, Get(key), Some(Entry(key, html)));
    }
  }

  lemma {:induction false} SetRecent(limits: Limits, entries: Entries, ops: seq<Op>, key: string, html: string)
    requires Recent(entries, ops) && Distinct(entries) && limits.Within(entries)
    ensures Recent(limits.AfterSet(entries, key, html), ops + [Set(key, html)])
  {
    OwnChanged(ops, Set(key, html));
    WithoutKeeps(limits, entries, key);
    WithoutRecent(entries, ops, key);
    var others := Without(entries, key);
    var e := Entry(key, html);
    if e.Size() > limits.maxChars {
      StillRecent(others, ops, Set(key, html), None);
    } else {
      KeptIsEnd(limits, others, e.Size());
      StillRecent(limits.Evicted(others, e.Size()), ops, Set(key, html), Some(e));
    }
  }

  /** After any run: both budgets hold, each entry has the last value set for it, and entries stand by last use. */
  lemma {:induction false} CacheIsRecencyList(limits: Limits, ops: seq<Op>)
    ensures var entries := Run(limits, ops);
            Distinct(entries) && limits.Within(entries) && Recent(entries, ops)
  {
    if ops != [] {
      var front, op := ops[..|ops| - 1], ops[|ops| - 1];
      var before := Run(limits, front);
      CacheIsRecencyList(limits, front);
      assert ops == front + [op];
      match op {
        case Get(key) =>
          GetKeepsValid(limits, before, key);
          GetRecent(limits, before, front, key);
        case Set(key, html) =>
          SetKeepsValid(limits, before, key, html);
          SetRecent(limits, before, front, key, html);
      }
    }
  }

  lemma {:induction false} LookupLast(entries: Entries, e: Entry)
    requires forall i :: 0 <= i < |entries| ==> entries[i].key != e.key
    ensures Lookup(entries + [e], e.key) == Some(e.html) && Lookup(entries, e.key) == None
  {
    var all := entries + [e];
    var i := IndexOf(all, e.key);
    assert all[|entries|].key == e.key;
    assert forall j :: 0 <= j < |entries| ==> all[j] == entries[j];
  }

  lemma {:induction false} LookupAfterSet(limits: Limits, entries: Entries, key: string, html: string)
    requires Distinct(entries) && limits.Within(entries)
    ensures Lookup(limits.AfterSet(entries, key, html), key) ==
            if Entry(key, html).Size() <= limits.maxChars then Some(html) else None
  {
    WithoutKeeps(limits, entries, key);
    var others := Without(entries, key);
    KeptIsEnd(limits, others, Entry(key, html).Size());
    LookupLast(others, Entry(key, html));
    LookupLast(limits.Evicted(others, Entry(key, html).Size()), Entry(key, html));
  }

  /** A lookup gives nothing or the last value set; and right after setting, it gives that value exactly if it fits. */
  lemma {:induction false} LookupGivesLastSet(limits: Limits, ops: seq<Op>, key: string, html: string)
    ensures var found := Lookup(Run(limits, ops), key); found.Some? ==> found == LastSet(ops, key)
    ensures Lookup(Run(limits, ops + [Set(key, html)]), key) ==
            if |key| + |html| <= limits.maxChars then Some(html) else None
  {
    CacheIsRecencyList(limits, ops);
    LookupAfterSet(limits, Run(limits, ops), key, html);
    assert (ops + [Set(key, html)])[..|ops|] == ops;
  }

  /**
   What a set keeps of the other entries: the longest recent end that fits with the
   new one, so keeping one entry more would break a limit. An entry that is too large
   for the cache takes out only the old one of its key.
   */
  lemma {:induction false} SetKeepsMost(limits: Limits, entries: Entries, key: string, html: string)
    ensures var e, others := Entry(key, html), Without(entries, key);
            var after := limits.AfterSet(entries, key, html);
            if |key| + |html| > limits.maxChars then after == others
            else
              exists gone: nat ::
                && gone <= |others| && after == others[gone..] + [e]
                && forall n: nat :: n < gone ==> !limits.Within(others[n..] + [e])
  {
    var e, others := Entry(key, html), Without(entries, key);
    if e.Size() <= limits.maxChars {
      EvictsLeast(limits, others, e.Size());
      var kept := limits.Evicted(others, e.Size());
      var gone: nat := |others| - |kept|;
      forall n: nat | n < gone ensures !limits.Within(others[n..] + [e]) {
        TotalConcat(others[n..], [e]);
        TotalSingle(e);
      }
      assert limits.AfterSet(entries, key, html) == others[gone..] + [e];
    }
  }

  /** The others of a key are all entries of other keys, in their order; and a get changes only the order. */
  lemma {:induction false} GetKeepsAll(entries: Entries, key: string)
    requires Distinct(entries)
    ensures forall e :: e in Without(entries, key) <==> e in entries && e.key != key
    ensures forall e :: e in AfterGet(entries, key) <==> e in entries
    ensures |AfterGet(entries, key)| == |entries|
    ensures forall e :: e in entries && e.key == key ==>
              Lookup(entries, key) == Some(e.html) && AfterGet(entries, key) == Without(entries, key) + [e]
  {
    var i := IndexOf(entries, key);
    if i < |entries| {
      var front, back := entries[..i], entries[i + 1..];
      assert entries == front + [entries[i]] + back;
      assert Without(entries, key) == front + back;
      assert entries[i] == Entry(key, entries[i].html);
    }
  }
}
