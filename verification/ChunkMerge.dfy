/** Merging a document's overlapping chunks into one text, with the range each chunk contributes. */
module ChunkMerge {
  import opened Prelude

  datatype Chunk = Chunk(id: string, content: string, order: int)

  /** A merged chunk with the range of the text it added. */
  datatype Piece = Piece(chunk: Chunk, start: nat, end: nat)

  datatype Merged = Merged(content: string, pieces: seq<Piece>)

  const MIN_OVERLAP := 10

  // ------------------------------------------------------------ overlap

  /** The last i characters of one text are the first i of the other. */
  predicate Overlaps(a: string, b: string, i: nat) {
    i <= |a| && i <= |b| && a[|a| - i..] == b[..i]
  }

  /** The longest overlap of more than ten characters, or none. */
  ghost predicate IsLongest(a: string, b: string, n: nat) {
    && (n == 0 || (n > MIN_OVERLAP && Overlaps(a, b, n)))
    && forall i: nat :: i > n && i > MIN_OVERLAP ==> !Overlaps(a, b, i)
  }

  function OverlapUpTo(a: string, b: string, i: nat): nat
    requires i <= |a| && i <= |b|
  {
    if i <= MIN_OVERLAP then 0 else if Overlaps(a, b, i) then i else OverlapUpTo(a, b, i - 1)
  }

  function OverlapLength(a: string, b: string): nat {
    OverlapUpTo(a, b, if |a| < |b| then |a| else |b|)
  }

  lemma {:induction false} OverlapUpToIsLongest(a: string, b: string, i: nat)
    requires i <= |a| && i <= |b|
    requires forall j: nat :: j > i && j > MIN_OVERLAP ==> !Overlaps(a, b, j)
    ensures IsLongest(a, b, OverlapUpTo(a, b, i))
  {
    if i > MIN_OVERLAP && !Overlaps(a, b, i) {
      OverlapUpToIsLongest(a, b, i - 1);
    }
  }

  lemma OverlapIsLongest(a: string, b: string)
    ensures IsLongest(a, b, OverlapLength(a, b))
  {
    OverlapUpToIsLongest(a, b, if |a| < |b| then |a| else |b|);
  }

  method FindOverlap(str1: string, str2: string) returns (overlap: string)
    ensures |overlap| == OverlapLength(str1, str2) && IsLongest(str1, str2, |overlap|) && overlap <= str2
  {
    OverlapIsLongest(str1, str2);
    if str1 == "" || str2 == "" {
      return "";
    }
    overlap := "";
    var i: nat := if |str1| < |str2| then |str1| else |str2|;
    while i > MIN_OVERLAP
      invariant i <= |str1| && i <= |str2| && OverlapLength(str1, str2) == OverlapUpTo(str1, str2, i)
    {
      if str1[|str1| - i..] == str2[..i] {
        overlap := str1[|str1| - i..];
        return;
      }
      i := i - 1;
    }
  }

  // ------------------------------------------------------------ merging

  /** Behind the chunks that do not come later. */
  function InsertByOrder(sorted: seq<Chunk>, chunk: Chunk): seq<Chunk> {
    if sorted == [] then [chunk]
    else if sorted[|sorted| - 1].order > chunk.order then
      InsertByOrder(sorted[..|sorted| - 1], chunk) + [sorted[|sorted| - 1]]
    else sorted + [chunk]
  }

  /** The stable sort by order. */
  function SortByOrder(chunks: seq<Chunk>): seq<Chunk> {
    if chunks == [] then [] else InsertByOrder(SortByOrder(chunks[..|chunks| - 1]), chunks[|chunks| - 1])
  }

  // ------------------------------------------------------------ the sort

  lemma {:induction false} InsertMembers(sorted: seq<Chunk>, chunk: Chunk)
    ensures multiset(InsertByOrder(sorted, chunk)) == multiset(sorted) + multiset{chunk}
  {
    if sorted != [] {
      var front, last := sorted[..|sorted| - 1], sorted[|sorted| - 1];
      assert sorted == front + [last];
      InsertMembers(front, chunk);
    }
  }

  predicate Sorted(chunks: seq<Chunk>) {
    forall i, j :: 0 <= i < j < |chunks| ==> chunks[i].order <= chunks[j].order
  }

  /** The chunk at the end is not ahead of any other. */
  predicate Ends(chunks: seq<Chunk>, last: Chunk) {
    forall i :: 0 <= i < |chunks| ==> chunks[i].order <= last.order
  }

  lemma {:induction false} InsertEnds(sorted: seq<Chunk>, chunk: Chunk, last: Chunk)
    requires Ends(sorted, last) && chunk.order <= last.order
    ensures Ends(InsertByOrder(sorted, chunk), last)
  {
    if sorted != [] {
      InsertEnds(sorted[..|sorted| - 1], chunk, last);
    }
  }

  lemma {:induction false} InsertSorts(sorted: seq<Chunk>, chunk: Chunk)
    requires Sorted(sorted)
    ensures Sorted(InsertByOrder(sorted, chunk))
  {
    if sorted != [] && sorted[|sorted| - 1].order > chunk.order {
      var front, last := sorted[..|sorted| - 1], sorted[|sorted| - 1];
      InsertSorts(front, chunk);
      InsertEnds(front, chunk, last);
    }
  }

  lemma {:induction false} SortSorts(chunks: seq<Chunk>)
    ensures Sorted(SortByOrder(chunks))
  {
    if chunks != [] {
      SortSorts(chunks[..|chunks| - 1]);
      InsertSorts(SortByOrder(chunks[..|chunks| - 1]), chunks[|chunks| - 1]);
    }
  }

  lemma SnocMembers(chunks: seq<Chunk>)
    requires chunks != []
    ensures multiset(chunks) == multiset(chunks[..|chunks| - 1]) + multiset{chunks[|chunks| - 1]}
  {
    assert chunks == chunks[..|chunks| - 1] + [chunks[|chunks| - 1]];
  }

  lemma {:induction false} SortPermutes(chunks: seq<Chunk>)
    ensures multiset(SortByOrder(chunks)) == multiset(chunks)
  {
    if chunks != [] {
      var front, last := chunks[..|chunks| - 1], chunks[|chunks| - 1];
      SortPermutes(front);
      InsertMembers(SortByOrder(front), last);
      SnocMembers(chunks);
    }
  }

  /** The chunks of one order, as they stand. */
  function OfOrder(chunks: seq<Chunk>, order: int): seq<Chunk> {
    if chunks == [] then []
    else
      OfOrder(chunks[..|chunks| - 1], order) +
      if chunks[|chunks| - 1].order == order then [chunks[|chunks| - 1]] else []
  }

  lemma {:induction false} InsertIsStable(sorted: seq<Chunk>, chunk: Chunk, order: int)
    ensures OfOrder(InsertByOrder(sorted, chunk), order) == OfOrder(sorted, order) +
            if chunk.order == order then [chunk] else []
  {
    if sorted == [] {
      assert [chunk][..0] == [];
    } else {
      var front, last := sorted[..|sorted| - 1], sorted[|sorted| - 1];
      if last.order > chunk.order {
        InsertIsStable(front, chunk, order);
        assert (InsertByOrder(front, chunk) + [last])[..|InsertByOrder(front, chunk)|] == InsertByOrder(front, chunk);
      } else {
        assert (sorted + [chunk])[..|sorted|] == sorted;
      }
    }
  }

  lemma {:induction false} SortIsStable(chunks: seq<Chunk>, order: int)
    ensures OfOrder(SortByOrder(chunks), order) == OfOrder(chunks, order)
  {
    if chunks != [] {
      var front, last := chunks[..|chunks| - 1], chunks[|chunks| - 1];
      SortIsStable(front, order);
      InsertIsStable(SortByOrder(front), last, order);
    }
  }

  /** The same chunks, by order, those of one order as they stood. */
  ghost predicate IsStableSort(sorted: seq<Chunk>, chunks: seq<Chunk>) {
    && Sorted(sorted) && multiset(sorted) == multiset(chunks)
    && forall order :: OfOrder(sorted, order) == OfOrder(chunks, order)
  }

  lemma {:induction false} SortIsTheStableSort(chunks: seq<Chunk>)
    ensures IsStableSort(SortByOrder(chunks), chunks)
  {
    SortSorts(chunks);
    SortPermutes(chunks);
    forall order ensures OfOrder(SortByOrder(chunks), order) == OfOrder(chunks, order) {
      SortIsStable(chunks, order);
    }
  }

  // ------------------------------------------------------------ the merge

  function MergeFirst(chunk: Chunk): Merged {
    Merged(chunk.content, [Piece(chunk, 0, |chunk.content|)])
  }

  /** What is new in the chunk goes behind the text, on a line of its own if nothing overlaps. */
  function MergeNext(m: Merged, chunk: Chunk): Merged {
    var overlap := OverlapLength(m.content, chunk.content);
    if overlap >= |chunk.content| then m
    else
      var content := if overlap > 0 then m.content + chunk.content[overlap..] else m.content + "\n" + chunk.content;
      Merged(content, m.pieces + [Piece(chunk, |m.content|, |content|)])
  }

  function MergeSorted(sorted: seq<Chunk>): Merged {
    if sorted == [] then Merged("", [])
    else if |sorted| == 1 then MergeFirst(sorted[0])
    else MergeNext(MergeSorted(sorted[..|sorted| - 1]), sorted[|sorted| - 1])
  }

  method SortChunks(chunks: seq<Chunk>) returns (sorted: seq<Chunk>)
    ensures sorted == SortByOrder(chunks) && IsStableSort(sorted, chunks)
  {
    SortIsTheStableSort(chunks);
    sorted := SortByOrder(chunks);
  }

  method MergeInOrder(sorted: seq<Chunk>) returns (merged: Merged)
    ensures merged == MergeSorted(sorted)
  {
    var pieces: seq<Piece> := [];
    var currentContent := "";
    assert sorted[..|sorted|] == sorted;
    for i := 0 to |sorted|
      invariant Merged(currentContent, pieces) == MergeSorted(sorted[..i])
    {
      var chunk := sorted[i];
      assert sorted[..i + 1][..i] == sorted[..i];
      if i == 0 {
        currentContent := chunk.content;
        pieces := [Piece(chunk, 0, |chunk.content|)];
      } else {
        var overlap := FindOverlap(currentContent, chunk.content);
        var newContent := chunk.content[|overlap|..];
        if |newContent| > 0 {
          var startOffset := |currentContent|;
          if |overlap| > 0 {
            currentContent := currentContent + newContent;
          } else {
            currentContent := currentContent + "\n" + newContent;
          }
          pieces := pieces + [Piece(chunk, startOffset, |currentContent|)];
        }
      }
    }
    merged := Merged(currentContent, pieces);
  }

  /** The chunks are merged in the stable order of their index. */
  method MergeChunks(chunks: seq<Chunk>) returns (merged: Merged)
    ensures IsStableSort(SortByOrder(chunks), chunks) && merged == MergeSorted(SortByOrder(chunks))
  {
    var sorted := SortChunks(chunks);
    if |chunks| == 0 {
      return Merged("", []);
    }
    merged := MergeInOrder(sorted);
  }

  // ------------------------------------------------------------ nothing is lost

  /** The chunk's content ends where its range ends. */
  predicate ShownAt(content: string, p: Piece) {
    p.start <= p.end <= |content| && |p.chunk.content| <= p.end &&
      content[p.end - |p.chunk.content|..p.end] == p.chunk.content
  }

  /** The ranges follow each other from the beginning of the text to its end, and each shows its chunk. */
  predicate Tiled(m: Merged) {
    && m.pieces != [] && m.pieces[0].start == 0 && m.pieces[|m.pieces| - 1].end == |m.content|
    && (forall i :: 0 <= i < |m.pieces| - 1 ==> m.pieces[i].end == m.pieces[i + 1].start)
    && (forall i :: 0 <= i < |m.pieces| ==> ShownAt(m.content, m.pieces[i]))
  }

  predicate OccursAt(text: string, part: string, start: nat) {
    start + |part| <= |text| && text[start..start + |part|] == part
  }

  ghost predicate Occurs(text: string, part: string) {
    exists start: nat :: OccursAt(text, part, start)
  }

  /** An overlap and what follows it are the whole chunk. */
  lemma OverlapJoins(text: string, part: string, overlap: nat)
    requires Overlaps(text, part, overlap)
    ensures (text + part[overlap..])[|text| - overlap..] == part
  {
    assert part == part[..overlap] + part[overlap..];
  }

  lemma NextEndsWithChunk(m: Merged, chunk: Chunk)
    ensures var after := MergeNext(m, chunk).content;
            |chunk.content| <= |after| && after[|after| - |chunk.content|..] == chunk.content && m.content <= after
  {
    var overlap := OverlapLength(m.content, chunk.content);
    OverlapIsLongest(m.content, chunk.content);
    if overlap > 0 {
      OverlapJoins(m.content, chunk.content, overlap);
      if overlap == |chunk.content| {
        assert m.content + chunk.content[overlap..] == m.content;
      }
    } else if chunk.content != "" {
      var after := m.content + "\n" + chunk.content;
      assert after[|m.content| + 1..] == chunk.content && after[..|m.content|] == m.content;
    }
  }

  /**
   The next chunk adds what the longest overlap of more than ten characters leaves of
   it, with a line feed in between if nothing overlaps.
   */
  lemma NextMeans(m: Merged, chunk: Chunk, overlap: nat)
    requires overlap == 0 || (overlap > 10 && Overlaps(m.content, chunk.content, overlap))
    requires forall i: nat :: i > overlap && i > 10 ==> !Overlaps(m.content, chunk.content, i)
    ensures var after := MergeNext(m, chunk);
            if overlap == |chunk.content| then after == m
            else
              && after.content == m.content + (if overlap == 0 then "\n" else "") + chunk.content[overlap..]
              && after.pieces == m.pieces + [Piece(chunk, |m.content|, |after.content|)]
  {
    OverlapIsLongest(m.content, chunk.content);
    assert OverlapLength(m.content, chunk.content) == overlap;
    assert m.content + "" == m.content && chunk.content[0..] == chunk.content;
  }

  /** The contents one under the other. */
  function Lines(chunks: seq<Chunk>): string {
    if chunks == [] then ""
    else if |chunks| == 1 then chunks[0].content
    else Lines(chunks[..|chunks| - 1]) + "\n" + chunks[|chunks| - 1].content
  }

  ghost predicate NothingOverlaps(a: string, b: string) {
    forall i: nat :: i > 10 ==> !Overlaps(a, b, i)
  }

  /** Chunks that are not empty and have nothing in common with what is before them stand on lines of their own. */
  lemma {:induction false} ApartChunksAreLines(sorted: seq<Chunk>)
    requires forall i :: 0 < i < |sorted| ==>
               sorted[i].content != "" && NothingOverlaps(Lines(sorted[..i]), sorted[i].content)
    ensures MergeSorted(sorted).content == Lines(sorted) && |MergeSorted(sorted).pieces| == |sorted|
  {
    if |sorted| > 1 {
      var front, last := sorted[..|sorted| - 1], sorted[|sorted| - 1];
      forall i | 0 < i < |front| ensures NothingOverlaps(Lines(front[..i]), front[i].content) {
        assert front[..i] == sorted[..i];
      }
      ApartChunksAreLines(front);
      NextMeans(MergeSorted(front), last, 0);
      assert Lines(front) + "\n" + last.content[0..] == Lines(sorted);
    }
  }

  lemma ShownStays(content: string, longer: string, p: Piece)
    requires ShownAt(content, p) && content <= longer
    ensures ShownAt(longer, p)
  {
    assert longer[p.end - |p.chunk.content|..p.end] == content[p.end - |p.chunk.content|..p.end];
  }

  lemma NextStaysTiled(m: Merged, chunk: Chunk)
    requires Tiled(m)
    ensures Tiled(MergeNext(m, chunk))
  {
    var next := MergeNext(m, chunk);
    NextEndsWithChunk(m, chunk);
    forall i | 0 <= i < |m.pieces| ensures ShownAt(next.content, m.pieces[i]) {
      ShownStays(m.content, next.content, m.pieces[i]);
    }
  }

  lemma OccursStays(text: string, longer: string, part: string)
    requires Occurs(text, part) && text <= longer
    ensures Occurs(longer, part)
  {
    var start: nat :| OccursAt(text, part, start);
    assert longer[start..start + |part|] == text[start..start + |part|];
    assert OccursAt(longer, part, start);
  }

  lemma OccursAtEnd(text: string, part: string)
    requires |part| <= |text| && text[|text| - |part|..] == part
    ensures Occurs(text, part)
  {
    assert OccursAt(text, part, |text| - |part|);
  }

  ghost predicate ShowsAll(text: string, chunks: seq<Chunk>) {
    forall i :: 0 <= i < |chunks| ==> Occurs(text, chunks[i].content)
  }

  lemma NextShowsAll(m: Merged, chunks: seq<Chunk>, chunk: Chunk)
    requires ShowsAll(m.content, chunks)
    ensures ShowsAll(MergeNext(m, chunk).content, chunks + [chunk])
  {
    var after := MergeNext(m, chunk).content;
    NextEndsWithChunk(m, chunk);
    OccursAtEnd(after, chunk.content);
    forall i | 0 <= i < |chunks| ensures Occurs(after, chunks[i].content) {
      OccursStays(m.content, after, chunks[i].content);
    }
  }

  lemma FirstShows(chunk: Chunk)
    ensures Tiled(MergeFirst(chunk)) && ShowsAll(MergeFirst(chunk).content, [chunk])
  {
    OccursAtEnd(chunk.content, chunk.content);
  }

  lemma {:induction false} MergedShowsAll(sorted: seq<Chunk>)
    requires sorted != []
    ensures Tiled(MergeSorted(sorted)) && ShowsAll(MergeSorted(sorted).content, sorted)
  {
    var front, last := sorted[..|sorted| - 1], sorted[|sorted| - 1];
    assert sorted == front + [last];
    if |sorted| == 1 {
      FirstShows(last);
    } else {
      MergedShowsAll(front);
      NextStaysTiled(MergeSorted(front), last);
      NextShowsAll(MergeSorted(front), front, last);
    }
  }

  /**
   Whatever the order of the chunks: each one's content is in the merged text in one
   piece, and the ranges tile it.
   */
  lemma {:induction false} MergeKeepsEveryChunk(chunks: seq<Chunk>)
    requires chunks != []
    ensures Tiled(MergeSorted(SortByOrder(chunks)))
    ensures forall chunk :: chunk in chunks ==> Occurs(MergeSorted(SortByOrder(chunks)).content, chunk.content)
  {
    SortPermutes(chunks);
    var sorted := SortByOrder(chunks);
    assert chunks[0] in multiset(sorted);
    MergedShowsAll(sorted);
    forall chunk | chunk in chunks ensures Occurs(MergeSorted(sorted).content, chunk.content) {
      assert chunk in multiset(sorted);
      var i :| 0 <= i < |sorted| && sorted[i] == chunk;
    }
  }

  // ------------------------------------------------------------ windows of one text

  /** A part of the text, from a position to another. */
  datatype Window = Window(start: nat, end: nat)

  /** The chunk is the window's part of the text. */
  predicate IsWindow(text: string, chunk: Chunk, w: Window) {
    w.start <= w.end <= |text| && chunk.content == text[w.start..w.end]
  }

  /** Windows that move on through the text, each overlapping the one before by more than ten characters. */
  predicate Advances(w: Window, next: Window) {
    w.start <= next.start && w.end <= next.end && next.start + MIN_OVERLAP < w.end
  }

  lemma TrueOverlap(text: string, b: nat, w: Window)
    requires w.start <= b <= w.end <= |text|
    ensures Overlaps(text[..b], text[w.start..w.end], b - w.start)
  {
    assert text[..b][w.start..] == text[w.start..w.end][..b - w.start];
  }

  /** One window more rebuilds the text up to its end exactly when the longest overlap is the true one. */
  lemma WindowRebuilds(text: string, m: Merged, chunk: Chunk, b: nat, w: Window)
    requires IsWindow(text, chunk, w) && w.start + MIN_OVERLAP < b <= w.end && m.content == text[..b]
    ensures OverlapLength(m.content, chunk.content) >= b - w.start
    ensures MergeNext(m, chunk).content == text[..w.end] <==> OverlapLength(m.content, chunk.content) == b - w.start
  {
    TrueOverlap(text, b, w);
    OverlapIsLongest(m.content, chunk.content);
    var overlap := OverlapLength(m.content, chunk.content);
    if overlap == b - w.start {
      assert chunk.content[overlap..] == text[b..w.end];
      assert text[..w.end] == text[..b] + text[b..w.end];
    } else if overlap < |chunk.content| {
      assert |MergeNext(m, chunk).content| < w.end;
    }
  }

  /**
   The i-th chunk is a window of the text that moves on from the one before, and the
   overlap found is the true one.
   */
  predicate FollowsTruly(text: string, sorted: seq<Chunk>, windows: seq<Window>, i: nat)
    requires 0 < i < |sorted| == |windows|
  {
    && IsWindow(text, sorted[i], windows[i])
    && Advances(windows[i - 1], windows[i])
    && OverlapLength(text[..windows[i - 1].end], sorted[i].content) == windows[i - 1].end - windows[i].start
  }

  lemma {:induction false} WindowsRebuildUpTo(text: string, sorted: seq<Chunk>, windows: seq<Window>, n: nat)
    requires 0 < n <= |sorted| == |windows| && IsWindow(text, sorted[0], windows[0]) && windows[0].start == 0
    requires forall i: nat :: 0 < i < |sorted| ==> FollowsTruly(text, sorted, windows, i)
    ensures windows[n - 1].end <= |text| && MergeSorted(sorted[..n]).content == text[..windows[n - 1].end]
  {
    if n == 1 {
      assert text[0..windows[0].end] == text[..windows[0].end];
    } else {
      WindowsRebuildUpTo(text, sorted, windows, n - 1);
      assert sorted[..n][..n - 1] == sorted[..n - 1];
      assert FollowsTruly(text, sorted, windows, n - 1);
      WindowRebuilds(text, MergeSorted(sorted[..n - 1]), sorted[n - 1], windows[n - 2].end, windows[n - 1]);
    }
  }

  /** Windows of a text in order, from its beginning, give back the text as far as they go. */
  lemma {:induction false} WindowsRebuild(text: string, sorted: seq<Chunk>, windows: seq<Window>)
    requires 0 < |sorted| == |windows| && IsWindow(text, sorted[0], windows[0]) && windows[0].start == 0
    requires forall i: nat :: 0 < i < |sorted| ==> FollowsTruly(text, sorted, windows, i)
    ensures windows[|windows| - 1].end <= |text| && MergeSorted(sorted).content == text[..windows[|windows| - 1].end]
  {
    WindowsRebuildUpTo(text, sorted, windows, |sorted|);
    assert sorted[..|sorted|] == sorted;
  }
}
