/**
 Refreshing the expanded directories of a file tree: a loop over the expanded
 keys from short paths to long ones, against the recursive description of what
 the tree should become.
 */
module TreeRefresh {
  import opened Prelude

  /** A node without or with a children field; info stands for everything else in it. */
  datatype Node = Bare(key: string, info: string) | Parent(key: string, info: string, children: seq<Node>) {

    function WithChildren(listing: seq<Node>): Node {
      Parent(key, info, listing)
    }
  }

  /** Listing a directory either succeeds or fails. */
  type Loader = string -> Option<seq<Node>>

  predicate TreeContainsKey(nodes: seq<Node>, target: string) {
    exists i :: 0 <= i < |nodes| && NodeContainsKey(nodes[i], target)
  }

  predicate NodeContainsKey(node: Node, target: string)
    decreases node
  {
    node.key == target ||
    (node.Parent? && exists i :: 0 <= i < |node.children| && NodeContainsKey(node.children[i], target))
  }

  function ReplaceIn(node: Node, target: string, listing: seq<Node>): Node
    decreases node
  {
    if node.key == target then node.WithChildren(listing)
    else if node.Bare? then node
    else
      node.WithChildren(seq(|node.children|,
                            i requires 0 <= i < |node.children| => ReplaceIn(node.children[i], target, listing)))
  }

  function ReplaceTreeChildren(nodes: seq<Node>, target: string, listing: seq<Node>): seq<Node> {
    seq(|nodes|, i requires 0 <= i < |nodes| => ReplaceIn(nodes[i], target, listing))
  }

  /** Number of parts between slashes. */
  function Depth(key: string): nat {
    if key == "" then 1 else (if key[0] == '/' then 1 else 0) + Depth(key[1..])
  }

  /** One more than the slashes in the key. */
  lemma {:induction false} DepthCountsSlashes(key: string)
    ensures Depth(key) == 1 + multiset(key)['/']
  {
    if key != "" {
      DepthCountsSlashes(key[1..]);
      assert key == [key[0]] + key[1..];
    }
  }

  // ------------------------------------------------------------ the order of the keys

  /** First occurrences only. */
  function Dedupe(keys: seq<string>): seq<string> {
    if keys == [] then []
    else
      var before := Dedupe(keys[..|keys| - 1]);
      var last := keys[|keys| - 1];
      if last in before then before else before + [last]
  }

  /** Behind the keys that are not deeper. */
  function InsertByDepth(sorted: seq<string>, key: string): seq<string> {
    if sorted == [] then [key]
    else if Depth(sorted[|sorted| - 1]) > Depth(key) then
      InsertByDepth(sorted[..|sorted| - 1], key) + [sorted[|sorted| - 1]]
    else sorted + [key]
  }

  /** The stable sort of the keys by depth. */
  function SortByDepth(keys: seq<string>): seq<string> {
    if keys == [] then [] else InsertByDepth(SortByDepth(keys[..|keys| - 1]), keys[|keys| - 1])
  }

  predicate SortedByDepth(keys: seq<string>) {
    forall i, j :: 0 <= i < j < |keys| ==> Depth(keys[i]) <= Depth(keys[j])
  }

  predicate NoDuplicates(keys: seq<string>) {
    forall i, j :: 0 <= i < j < |keys| ==> keys[i] != keys[j]
  }

  lemma {:induction false} DedupeIsSet(keys: seq<string>)
    ensures NoDuplicates(Dedupe(keys))
    ensures forall key :: key in Dedupe(keys) <==> key in keys
  {
    if keys != [] {
      DedupeIsSet(keys[..|keys| - 1]);
      assert keys == keys[..|keys| - 1] + [keys[|keys| - 1]];
    }
  }

  lemma {:induction false} InsertMembers(sorted: seq<string>, key: string)
    ensures forall k :: k in InsertByDepth(sorted, key) <==> k in sorted || k == key
  {
    if sorted != [] {
      InsertMembers(sorted[..|sorted| - 1], key);
      assert sorted == sorted[..|sorted| - 1] + [sorted[|sorted| - 1]];
    }
  }

  lemma {:induction false} InsertKeeps(sorted: seq<string>, key: string)
    requires SortedByDepth(sorted) && NoDuplicates(sorted) && key !in sorted
    ensures SortedByDepth(InsertByDepth(sorted, key)) && NoDuplicates(InsertByDepth(sorted, key))
  {
    if sorted != [] && Depth(sorted[|sorted| - 1]) > Depth(key) {
      var front, last := sorted[..|sorted| - 1], sorted[|sorted| - 1];
      InsertKeeps(front, key);
      InsertMembers(front, key);
      LastIsDeepest(InsertByDepth(front, key), last, sorted, key);
    }
  }

  lemma {:induction false} LastIsDeepest(inserted: seq<string>, last: string, sorted: seq<string>, key: string)
    requires sorted != [] && last == sorted[|sorted| - 1] && SortedByDepth(sorted) && NoDuplicates(sorted) &&
             key !in sorted
    requires Depth(last) > Depth(key) && SortedByDepth(inserted) && NoDuplicates(inserted)
    requires forall k :: k in inserted <==> k in sorted[..|sorted| - 1] || k == key
    ensures SortedByDepth(inserted + [last]) && NoDuplicates(inserted + [last])
  {
    forall i | 0 <= i < |inserted| ensures Depth(inserted[i]) <= Depth(last) && inserted[i] != last {
      assert inserted[i] in inserted;
    }
  }

  lemma {:induction false} SortIsSort(keys: seq<string>)
    requires NoDuplicates(keys)
    ensures SortedByDepth(SortByDepth(keys)) && NoDuplicates(SortByDepth(keys))
    ensures forall k :: k in SortByDepth(keys) <==> k in keys
  {
    if keys != [] {
      var front, last := keys[..|keys| - 1], keys[|keys| - 1];
      SortIsSort(front);
      InsertMembers(SortByDepth(front), last);
      InsertKeeps(SortByDepth(front), last);
      assert keys == front + [last];
    }
  }

  /** The keys of one depth, as they stand. */
  function OfDepth(keys: seq<string>, d: nat): seq<string> {
    if keys == [] then []
    else OfDepth(keys[..|keys| - 1], d) + if Depth(keys[|keys| - 1]) == d then [keys[|keys| - 1]] else []
  }

  lemma {:induction false} OfDepthLast(front: seq<string>, key: string, d: nat)
    ensures OfDepth(front + [key], d) == OfDepth(front, d) + if Depth(key) == d then [key] else []
  {
    assert (front + [key])[..|front|] == front;
  }

  lemma {:induction false} InsertIsStable(sorted: seq<string>, key: string, d: nat)
    ensures OfDepth(InsertByDepth(sorted, key), d) == OfDepth(sorted, d) + if Depth(key) == d then [key] else []
  {
    if sorted != [] && Depth(sorted[|sorted| - 1]) > Depth(key) {
      var front, last := sorted[..|sorted| - 1], sorted[|sorted| - 1];
      InsertIsStable(front, key, d);
      OfDepthLast(InsertByDepth(front, key), last, d);
      assert OfDepth(front, d) + [] == OfDepth(front, d);
    } else {
      OfDepthLast(sorted, key, d);
    }
  }

  lemma {:induction false} SortIsStable(keys: seq<string>)
    ensures forall d :: OfDepth(SortByDepth(keys), d) == OfDepth(keys, d)
  {
    if keys != [] {
      var front, last := keys[..|keys| - 1], keys[|keys| - 1];
      SortIsStable(front);
      forall d ensures OfDepth(SortByDepth(keys), d) == OfDepth(keys, d) {
        InsertIsStable(SortByDepth(front), last, d);
      }
    }
  }

  // ------------------------------------------------------------ the recursive description

  /** The node after loading it if it is eligible and can be read, else keeping its children, and so on below. */
  function Fresh(node: Node, load: Loader, eligible: set<string>): Node
    decreases |eligible|, node
  {
    if node.key in eligible && load(node.key).Some? then
      var listing := load(node.key).value;
      node.WithChildren(seq(|listing|, i requires 0 <= i < |listing| => Fresh(listing[i], load, eligible - {node.key})))
    else if node.Parent? then
      node.WithChildren(seq(|node.children|,
                            i requires 0 <= i < |node.children| => Fresh(node.children[i], load, eligible)))
    else node
  }

  function FreshAll(nodes: seq<Node>, load: Loader, eligible: set<string>): seq<Node> {
    seq(|nodes|, i requires 0 <= i < |nodes| => Fresh(nodes[i], load, eligible))
  }

  // ------------------------------------------------------------ one replacement

  /** Loading one key into the tree, as one pass of the loop does. */
  function LoadedAt(nodes: seq<Node>, load: Loader, key: string): seq<Node> {
    if TreeContainsKey(nodes, key) && load(key).Some? then ReplaceTreeChildren(nodes, key, load(key).value) else nodes
  }

  lemma {:induction false} ReplaceAbsent(node: Node, target: string, listing: seq<Node>)
    requires !NodeContainsKey(node, target)
    ensures ReplaceIn(node, target, listing) == node
    decreases node
  {
    if node.Parent? {
      forall i | 0 <= i < |node.children| ensures ReplaceIn(node.children[i], target, listing) == node.children[i] {
        ReplaceAbsent(node.children[i], target, listing);
      }
    }
  }

  /** The listing of one eligible key holds another one, and both can be read. */
  predicate ListsOther(load: Loader, eligible: set<string>, key: string, inner: string) {
    && key in eligible && inner in eligible && key != inner
    && load(key).Some? && load(inner).Some? && TreeContainsKey(load(key).value, inner)
  }

  /**
   A listing holds other eligible keys that can be read only strictly deeper than the
   directory it is the listing of.
   */
  ghost predicate ListingsDeeper(load: Loader, eligible: set<string>) {
    forall key, inner :: ListsOther(load, eligible, key, inner) ==> Depth(key) < Depth(inner)
  }

  /** The listings of the other eligible keys do not hold k. */
  predicate NoneContains(load: Loader, eligible: set<string>, k: string) {
    forall key :: key in eligible && key != k && load(key).Some? ==> !TreeContainsKey(load(key).value, k)
  }

  /** A key that can be met neither in the node nor in any listing does not matter. */
  lemma {:induction false} UnmetKey(node: Node, load: Loader, eligible: set<string>, k: string)
    requires NoneContains(load, eligible, k) && !NodeContainsKey(node, k)
    ensures Fresh(node, load, eligible) == Fresh(node, load, eligible - {k})
    decreases |eligible|, node
  {
    if node.key in eligible && load(node.key).Some? {
      var listing := load(node.key).value;
      assert eligible - {k} - {node.key} == eligible - {node.key} - {k};
      forall i | 0 <= i < |listing|
        ensures Fresh(listing[i], load, eligible - {node.key}) == Fresh(listing[i], load, eligible - {node.key} - {k}) {
        UnmetKey(listing[i], load, eligible - {node.key}, k);
      }
    } else if node.Parent? {
      forall i | 0 <= i < |node.children|
        ensures Fresh(node.children[i], load, eligible) == Fresh(node.children[i], load, eligible - {k}) {
        UnmetKey(node.children[i], load, eligible, k);
      }
    }
  }

  /** Nor does a key whose directory cannot be read. */
  lemma {:induction false} UnreadableKey(node: Node, load: Loader, eligible: set<string>, k: string)
    requires load(k).None?
    ensures Fresh(node, load, eligible) == Fresh(node, load, eligible - {k})
    decreases |eligible|, node
  {
    if node.key in eligible && load(node.key).Some? {
      var listing := load(node.key).value;
      assert eligible - {k} - {node.key} == eligible - {node.key} - {k};
      forall i | 0 <= i < |listing|
        ensures Fresh(listing[i], load, eligible - {node.key}) == Fresh(listing[i], load, eligible - {node.key} - {k}) {
        UnreadableKey(listing[i], load, eligible - {node.key}, k);
      }
    } else if node.Parent? {
      forall i | 0 <= i < |node.children|
        ensures Fresh(node.children[i], load, eligible) == Fresh(node.children[i], load, eligible - {k}) {
        UnreadableKey(node.children[i], load, eligible, k);
      }
    }
  }

  /** Replacing at one of the least deep keys first, and refreshing for the others, refreshes for all. */
  lemma {:induction false} ReplaceFirst(node: Node, load: Loader, eligible: set<string>, k: string)
    requires k in eligible && load(k).Some? && NoneContains(load, eligible, k)
    ensures Fresh(ReplaceIn(node, k, load(k).value), load, eligible - {k}) == Fresh(node, load, eligible)
    decreases node
  {
    if node.key == k {
    } else if node.key in eligible && load(node.key).Some? {
      var listing := load(node.key).value;
      assert eligible - {k} - {node.key} == eligible - {node.key} - {k};
      forall i | 0 <= i < |listing|
        ensures Fresh(listing[i], load, eligible - {node.key}) == Fresh(listing[i], load, eligible - {node.key} - {k}) {
        UnmetKey(listing[i], load, eligible - {node.key}, k);
      }
    } else if node.Parent? {
      forall i | 0 <= i < |node.children|
        ensures Fresh(ReplaceIn(node.children[i], k, load(k).value), load, eligible - {k}) ==
                Fresh(node.children[i], load, eligible) {
        ReplaceFirst(node.children[i], load, eligible, k);
      }
    }
  }

  lemma LoadFirst(nodes: seq<Node>, load: Loader, eligible: set<string>, k: string)
    requires k in eligible && (load(k).Some? ==> NoneContains(load, eligible, k))
    ensures FreshAll(LoadedAt(nodes, load, k), load, eligible - {k}) == FreshAll(nodes, load, eligible)
  {
    forall i | 0 <= i < |nodes|
      ensures Fresh(LoadedAt(nodes, load, k)[i], load, eligible - {k}) == Fresh(nodes[i], load, eligible) {
      if load(k).None? {
        UnreadableKey(nodes[i], load, eligible, k);
      } else {
        ReplaceFirst(nodes[i], load, eligible, k);
        if !TreeContainsKey(nodes, k) {
          ReplaceAbsent(nodes[i], k, load(k).value);
        }
      }
    }
  }

  lemma {:induction false} NothingEligible(node: Node, load: Loader)
    ensures Fresh(node, load, {}) == node
    decreases node
  {
    if node.Parent? {
      forall i | 0 <= i < |node.children| ensures Fresh(node.children[i], load, {}) == node.children[i] {
        NothingEligible(node.children[i], load);
      }
    }
  }

  // ------------------------------------------------------------ the loop

  /** Keys from the i-th on that were not loaded before. */
  function Remaining(order: seq<string>, i: nat, loaded: set<string>): set<string>
    requires i <= |order|
  {
    set k | k in order[i..] && k !in loaded
  }

  lemma RemainingStep(order: seq<string>, i: nat, loaded: set<string>)
    requires i < |order| && NoDuplicates(order)
    ensures Remaining(order, i + 1, loaded) == Remaining(order, i, loaded) - {order[i]}
    ensures order[i] !in loaded ==> order[i] in Remaining(order, i, loaded)
  {
    assert order[i..] == [order[i]] + order[i + 1..];
  }

  /** The expanded keys, each once, in the order in which the loop visits them. */
  function ExpansionOrder(expandedKeys: seq<string>): (order: seq<string>)
    ensures SortedByDepth(order) && NoDuplicates(order)
    ensures forall k :: k in order <==> k in expandedKeys
    ensures forall d :: OfDepth(order, d) == OfDepth(Dedupe(expandedKeys), d)
  {
    DedupeIsSet(expandedKeys);
    SortIsSort(Dedupe(expandedKeys));
    SortIsStable(Dedupe(expandedKeys));
    SortByDepth(Dedupe(expandedKeys))
  }

  /** What the loop makes of the tree from the i-th key on. */
  function LoadAll(nodes: seq<Node>, load: Loader, order: seq<string>, i: nat, loaded: set<string>): seq<Node>
    requires i <= |order|
    decreases |order| - i
  {
    if i == |order| then nodes
    else LoadAll(if order[i] in loaded then nodes else LoadedAt(nodes, load, order[i]), load, order, i + 1, loaded)
  }

  /** From the i-th key on, no directory read later lists one read before it. */
  predicate ListsNoEarlier(load: Loader, order: seq<string>, i: nat, loaded: set<string>) {
    forall p, q :: i <= p < q < |order| ==> !ListsEarlier(load, order, p, q, loaded)
  }

  predicate ListsEarlier(load: Loader, order: seq<string>, p: nat, q: nat, loaded: set<string>)
    requires p < |order| && q < |order|
  {
    && order[p] !in loaded && order[q] !in loaded && load(order[p]).Some? && load(order[q]).Some?
    && TreeContainsKey(load(order[q]).value, order[p])
  }

  lemma NextIsInNoListing(load: Loader, order: seq<string>, i: nat, loaded: set<string>)
    requires i < |order| && order[i] !in loaded && load(order[i]).Some? && ListsNoEarlier(load, order, i, loaded)
    ensures NoneContains(load, Remaining(order, i, loaded), order[i])
  {
    forall key | key in Remaining(order, i, loaded) && key != order[i] && load(key).Some?
      ensures !TreeContainsKey(load(key).value, order[i])
    {
      var j :| 0 <= j < |order[i..]| && order[i..][j] == key;
      assert !ListsEarlier(load, order, i, i + j, loaded);
    }
  }

  lemma {:induction false} LoadAllIsFresh(nodes: seq<Node>, load: Loader, order: seq<string>, i: nat,
                                          loaded: set<string>)
    requires i <= |order| && NoDuplicates(order) && ListsNoEarlier(load, order, i, loaded)
    ensures LoadAll(nodes, load, order, i, loaded) == FreshAll(nodes, load, Remaining(order, i, loaded))
    decreases |order| - i
  {
    if i == |order| {
      assert Remaining(order, i, loaded) == {};
      NothingLeft(nodes, load);
    } else {
      RemainingStep(order, i, loaded);
      if order[i] in loaded {
        assert Remaining(order, i, loaded) - {order[i]} == Remaining(order, i, loaded);
        LoadAllIsFresh(nodes, load, order, i + 1, loaded);
      } else {
        if load(order[i]).Some? {
          NextIsInNoListing(load, order, i, loaded);
        }
        LoadFirst(nodes, load, Remaining(order, i, loaded), order[i]);
        LoadAllIsFresh(LoadedAt(nodes, load, order[i]), load, order, i + 1, loaded);
      }
    }
  }

  lemma NothingLeft(nodes: seq<Node>, load: Loader)
    ensures FreshAll(nodes, load, {}) == nodes
  {
    forall i | 0 <= i < |nodes| ensures Fresh(nodes[i], load, {}) == nodes[i] {
      NothingEligible(nodes[i], load);
    }
  }

  /** The refreshed tree is the recursive one whenever no directory lists one that the loop has read before it. */
  method RefreshExpandedTree(nodes: seq<Node>, expandedKeys: seq<string>, load: Loader, alreadyLoadedKeys: seq<string>)
    returns (refreshed: seq<Node>)
    ensures var loaded := set k | k in alreadyLoadedKeys;
            var order := ExpansionOrder(expandedKeys);
            && refreshed == LoadAll(nodes, load, order, 0, loaded)
            && (ListsNoEarlier(load, order, 0, loaded) ==>
                  refreshed == FreshAll(nodes, load, set k | k in expandedKeys && k !in alreadyLoadedKeys))
  {
    refreshed := nodes;
    var loadedKeys := set k | k in alreadyLoadedKeys;
    var directoryKeys := ExpansionOrder(expandedKeys);
    for i := 0 to |directoryKeys|
      invariant LoadAll(refreshed, load, directoryKeys, i, loadedKeys) ==
                LoadAll(nodes, load, directoryKeys, 0, loadedKeys)
    {
      var key := directoryKeys[i];
      if key in loadedKeys {
        continue;
      }
      if !TreeContainsKey(refreshed, key) {
        continue;
      }
      var listing := load(key);
      if listing.Some? {
        refreshed := ReplaceTreeChildren(refreshed, key, listing.value);
      }
    }
    assert Remaining(directoryKeys, 0, loadedKeys) == set k | k in expandedKeys && k !in alreadyLoadedKeys;
    if ListsNoEarlier(load, directoryKeys, 0, loadedKeys) {
      LoadAllIsFresh(nodes, load, directoryKeys, 0, loadedKeys);
    }
  }

  // ------------------------------------------------------------ the condition on the order is exact

  /**
   An entry as a listing of the filesystem has it: a file, or a directory without its
   children yet, of which it has some.
   */
  predicate Unloaded(node: Node, load: Loader) {
    node.Bare? || (node.children == [] && load(node.key) != Some([]))
  }

  predicate ListingsAreUnloaded(load: Loader, eligible: set<string>) {
    forall key :: key in eligible && load(key).Some? ==>
      forall p :: 0 <= p < |load(key).value| ==> Unloaded(load(key).value[p], load)
  }

  /** The tree is the one directory b with the entry still as b lists it at place p. */
  predicate HoldsEntry(nodes: seq<Node>, b: string, p: nat, entry: Node) {
    && |nodes| == 1 && nodes[0].Parent? && nodes[0].key == b
    && p < |nodes[0].children| && nodes[0].children[p] == entry
  }

  lemma LoadOther(nodes: seq<Node>, load: Loader, key: string, b: string, p: nat, entry: Node)
    requires HoldsEntry(nodes, b, p, entry) && Unloaded(entry, load) && key != b && key != entry.key
    ensures HoldsEntry(LoadedAt(nodes, load, key), b, p, entry)
  {
    if load(key).Some? {
      assert ReplaceIn(entry, key, load(key).value) == entry;
    }
  }

  lemma {:induction false} EntryStays(nodes: seq<Node>, load: Loader, order: seq<string>, i: nat, loaded: set<string>,
                                      b: string, p: nat, entry: Node)
    requires i <= |order| && HoldsEntry(nodes, b, p, entry) && Unloaded(entry, load)
    requires forall l :: i <= l < |order| ==> order[l] != b && order[l] != entry.key
    ensures HoldsEntry(LoadAll(nodes, load, order, i, loaded), b, p, entry)
    decreases |order| - i
  {
    if i < |order| {
      LoadOther(nodes, load, order[i], b, p, entry);
      var next := if order[i] in loaded then nodes else LoadedAt(nodes, load, order[i]);
      EntryStays(next, load, order, i + 1, loaded, b, p, entry);
    }
  }

  lemma {:induction false} NotYetMet(b: Node, load: Loader, order: seq<string>, i: nat, j: nat, loaded: set<string>)
    requires b.Bare? && i <= j <= |order| && forall l :: i <= l < j ==> order[l] != b.key
    ensures LoadAll([b], load, order, i, loaded) == LoadAll([b], load, order, j, loaded)
    decreases j - i
  {
    if i < j {
      assert LoadedAt([b], load, order[i]) == [b];
      NotYetMet(b, load, order, i + 1, j, loaded);
    }
  }

  /** The tree that has only the later directory: the loop leaves in it an earlier one as it was listed. */
  lemma {:induction false} EarlierIsMissed(load: Loader, order: seq<string>, loaded: set<string>, i: nat, j: nat,
                                           info: string)
    requires i < j < |order| && NoDuplicates(order) && ListsEarlier(load, order, i, j, loaded)
    requires ListingsAreUnloaded(load, Remaining(order, 0, loaded))
    ensures LoadAll([Bare(order[j], info)], load, order, 0, loaded) !=
            FreshAll([Bare(order[j], info)], load, Remaining(order, 0, loaded))
  {
    var a, b, listing := order[i], order[j], load(order[j]).value;
    assert a in Remaining(order, 0, loaded) && b in Remaining(order, 0, loaded);
    var p :| 0 <= p < |listing| && NodeContainsKey(listing[p], a);
    assert Unloaded(listing[p], load) && listing[p].key == a;
    NotYetMet(Bare(b, info), load, order, 0, j, loaded);
    assert NodeContainsKey([Bare(b, info)][0], b);
    var met := LoadedAt([Bare(b, info)], load, b);
    assert met == [Parent(b, info, listing)];
    EntryStays(met, load, order, j + 1, loaded, b, p, listing[p]);
    EntryIsRefreshed(Bare(b, info), load, Remaining(order, 0, loaded), p);
  }

  lemma EntryIsRefreshed(b: Node, load: Loader, eligible: set<string>, p: nat)
    requires b.key in eligible && load(b.key).Some? && p < |load(b.key).value|
    requires var entry := load(b.key).value[p];
             entry.key in eligible - {b.key} && load(entry.key).Some? && Unloaded(entry, load)
    ensures !HoldsEntry(FreshAll([b], load, eligible), b.key, p, load(b.key).value[p])
  {
    var entry := load(b.key).value[p];
    assert Fresh(b, load, eligible).children[p] == Fresh(entry, load, eligible - {b.key});
  }

  /**
   With listings of files and directories not yet loaded, the loop refreshes every tree
   exactly under that condition.
   */
  lemma {:induction false} OrderDecides(load: Loader, order: seq<string>, loaded: set<string>)
    requires NoDuplicates(order) && ListingsAreUnloaded(load, Remaining(order, 0, loaded))
    ensures ListsNoEarlier(load, order, 0, loaded) <==>
            forall nodes :: LoadAll(nodes, load, order, 0, loaded) == FreshAll(nodes, load, Remaining(order, 0, loaded))
  {
    if ListsNoEarlier(load, order, 0, loaded) {
      forall nodes
        ensures LoadAll(nodes, load, order, 0, loaded) == FreshAll(nodes, load, Remaining(order, 0, loaded)) {
        LoadAllIsFresh(nodes, load, order, 0, loaded);
      }
    } else {
      var i, j :| 0 <= i < j < |order| && ListsEarlier(load, order, i, j, loaded);
      EarlierIsMissed(load, order, loaded, i, j, "");
    }
  }

  // ------------------------------------------------------------ when the order by depth meets it

  /** Listings that hold other eligible keys only deeper meet it, since the order is by depth. */
  lemma DeeperIsLater(load: Loader, order: seq<string>, loaded: set<string>)
    requires SortedByDepth(order) && NoDuplicates(order) && ListingsDeeper(load, Remaining(order, 0, loaded))
    ensures ListsNoEarlier(load, order, 0, loaded)
  {
    forall i, j | 0 <= i < j < |order| ensures !ListsEarlier(load, order, i, j, loaded) {
      assert Depth(order[i]) <= Depth(order[j]);
      assert !ListsOther(load, Remaining(order, 0, loaded), order[j], order[i]);
    }
  }

  lemma {:induction false} DepthOfExtension(outer: string, rest: string)
    ensures Depth(outer + rest) == Depth(outer) + Depth(rest) - 1 && Depth(rest) >= 1
    ensures '/' in rest ==> Depth(rest) >= 2
  {
    if outer != "" {
      assert (outer + rest)[1..] == outer[1..] + rest;
      DepthOfExtension(outer[1..], rest);
    } else {
      assert outer + rest == rest;
      if rest != "" {
        assert "" + rest[1..] == rest[1..];
        DepthOfExtension("", rest[1..]);
      }
    }
  }

  /** In a listing, an eligible key is the directory's key followed by more, with a slash in it. */
  ghost predicate PathListings(load: Loader, eligible: set<string>) {
    forall key, inner :: ListsOther(load, eligible, key, inner) ==> key <= inner && '/' in inner[|key|..]
  }

  /** Keys that are paths of directories, all written with or all without a slash at the end, meet the condition. */
  lemma {:induction false} PathListingsAreDeeper(load: Loader, eligible: set<string>)
    requires PathListings(load, eligible)
    ensures ListingsDeeper(load, eligible)
  {
    forall key, inner | ListsOther(load, eligible, key, inner) ensures Depth(key) < Depth(inner)
    {
      DepthOfExtension(key, inner[|key|..]);
      assert key + inner[|key|..] == inner;
    }
  }

  /**
   The condition must be strict: for any two keys, the inner no deeper than the outer
   (as "/a" in "/"), the loop may pass the inner one by before it appears.
   */
  lemma {:induction false} ShallowKeyIsMissed(nodes: seq<Node>, load: Loader, outer: string, inner: string,
                                              info: string)
    requires nodes == [Bare(outer, info)] && outer != inner && Depth(inner) <= Depth(outer)
    requires load(outer) == Some([Bare(inner, info)]) && load(inner) == Some([])
    ensures SortByDepth([inner, outer]) == [inner, outer]
    ensures LoadedAt(LoadedAt(nodes, load, inner), load, outer) != FreshAll(nodes, load, {outer, inner})
  {
    assert [inner, outer][..1] == [inner] && [inner][..0] == [];
    assert SortByDepth([inner]) == InsertByDepth(SortByDepth([]), inner) == [inner];
    assert InsertByDepth([inner], outer) == [inner] + [outer];
    assert FreshAll(nodes, load, {outer, inner})[0].children[0] ==
           Fresh(Bare(inner, info), load, {outer, inner} - {outer});
    assert LoadedAt(nodes, load, inner) == nodes;
    assert NodeContainsKey(nodes[0], outer);
    assert LoadedAt(nodes, load, outer)[0].children == [Bare(inner, info)];
  }
}
