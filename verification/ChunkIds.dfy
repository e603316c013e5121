/** When the chunks of one document have different ids. */
module ChunkIds {
  import opened Wrappers
  import opened Ordering
  import opened Text
  import opened Tokens
  import opened Ranges
  import opened Blocks
  import opened Chunks

  // ----- ids say where a chunk lies and what kind it is -----

  function IdAt(c: Config, k: Chunk, kind: string): ChunkId { ChunkId(c.document, c.checksum, k.start, k.end, kind) }

  ghost predicate Identified(c: Config, f: Family) {
    && f.top.level == 0 && f.top.id == IdAt(c, f.top, if f.top.standalone then "leaf-0" else "parent")
    && forall i :: 0 <= i < |f.leaves| ==> f.leaves[i].level == 1 && f.leaves[i].id == IdAt(c, f.leaves[i], "leaf-1")
  }

  lemma ParentIdentified(c: Config, text: string, b: Block, r: Range)
    requires Sound(c) && r.start <= r.end <= |text| && Decodes(c.enc, text[r.start..r.end])
    ensures Identified(c, ParentFamily(c, text, b, r))
  {
    ParentFamilyIs(c, text, b, r);
    LeafRangesInside(c, text, r);
    LeavesIdentified(c, text, b, r, LeafRanges(c, text, r));
    hide Sound, ParentFamily, LeafRanges, LeafChunks, Count, Decodes, Chunks.IdsOf;
  }

  lemma LeavesIdentified(c: Config, text: string, b: Block, r: Range, rs: seq<Range>)
    requires Inside(text, rs)
    ensures
      var leaves := LeafChunks(c, text, b, r, rs);
      forall i :: 0 <= i < |leaves| ==> leaves[i].level == 1 && leaves[i].id == IdAt(c, leaves[i], "leaf-1")
  {
    hide LeafChunks, Count;
    LeafChunksIndex(c, text, b, r, rs);
  }

  lemma BlockIdentified(c: Config, text: string, b: Block, i: nat)
    requires Sound(c) && b.start <= b.end <= |text| && BlockReads(c, text, b) && i < |FamiliesOf(c, text, b)|
    ensures Identified(c, FamiliesOf(c, text, b)[i])
  {
    hide Sound, ParentRanges, ParentFamilies, ParentFamily, ParentsBounded, Identified, Blank, Decodes, Count;
    var blockText := text[b.start..b.end];
    if !Blank(blockText) && c.enc.Size(blockText) > c.leafTokens {
      var rs := Shift(ParentRanges(c, blockText), b.start);
      ParentFamiliesIndex(c, text, b, rs);
      ParentIdentified(c, text, b, rs[i]);
    } else {
      StandaloneIdentified(c, text, b);
    }
  }

  lemma StandaloneIdentified(c: Config, text: string, b: Block)
    requires b.start <= b.end <= |text|
    ensures Identified(c, Family(Standalone(c, text, b), []))
  {
    hide Count;
  }

  lemma {:induction false} AllIdentified(c: Config, text: string, blocks: seq<Block>, i: nat)
    requires Sound(c) && AllRead(c, text, blocks) && i < |AllFamilies(c, text, blocks)|
    ensures Identified(c, AllFamilies(c, text, blocks)[i])
    decreases |blocks|
  {
    hide Sound, FamiliesOf, BlockReads, Identified;
    var init, b := blocks[..|blocks| - 1], blocks[|blocks| - 1];
    var before := AllFamilies(c, text, init);
    if i < |before| {
      AllIdentified(c, text, init, i);
    } else {
      BlockIdentified(c, text, b, i - |before|);
    }
  }

  // ----- leaves and tops of a list of families -----

  function LeafList(fs: seq<Family>): seq<Chunk> {
    if fs == [] then [] else LeafList(fs[..|fs| - 1]) + fs[|fs| - 1].leaves
  }

  function TopList(fs: seq<Family>): seq<Chunk> {
    if fs == [] then [] else TopList(fs[..|fs| - 1]) + [fs[|fs| - 1].top]
  }

  lemma {:induction false} IdsConcat(a: seq<Chunk>, b: seq<Chunk>)
    ensures IdsOf(a + b) == IdsOf(a) + IdsOf(b)
  {
    if b == [] {
      assert a + b == a;
    } else {
      var init, last := b[..|b| - 1], b[|b| - 1];
      IdsConcat(a, init);
      assert (a + b)[..|a + b| - 1] == a + init;
    }
  }

  lemma {:induction false} IdsIndex(chunks: seq<Chunk>)
    ensures |IdsOf(chunks)| == |chunks|
    ensures forall i :: 0 <= i < |chunks| ==> IdsOf(chunks)[i] == chunks[i].id
  {
    if chunks != [] {
      IdsIndex(chunks[..|chunks| - 1]);
    }
  }

  /** Every chunk is a top or a leaf, counted once. */
  lemma {:induction false} MembersBag(fs: seq<Family>)
    ensures multiset(IdsOf(Members(fs))) == multiset(IdsOf(TopList(fs))) + multiset(IdsOf(LeafList(fs)))
  {
    if fs != [] {
      var init, f := fs[..|fs| - 1], fs[|fs| - 1];
      MembersBag(init);
      IdsConcat(Members(init) + [f.top], f.leaves);
      IdsConcat(Members(init), [f.top]);
      IdsConcat(TopList(init), [f.top]);
      IdsConcat(LeafList(init), f.leaves);
      hide IdsOf;
      assert multiset(IdsOf(Members(fs))) ==
             multiset(IdsOf(Members(init))) + multiset(IdsOf([f.top])) + multiset(IdsOf(f.leaves));
    }
  }

  // ----- tops differ -----

  lemma {:induction false} TopListIndex(fs: seq<Family>)
    ensures |TopList(fs)| == |fs|
    ensures forall i :: 0 <= i < |fs| ==> TopList(fs)[i] == fs[i].top
  {
    if fs != [] {
      TopListIndex(fs[..|fs| - 1]);
    }
  }

  /** Families that are told apart by where they lie. */
  ghost predicate Laid(c: Config, fs: seq<Family>) {
    && (forall i :: 0 <= i < |fs| ==> Identified(c, fs[i]) && LeavesLie(fs[i]))
    && (forall i, j :: 0 <= i < j < |fs| ==> fs[i].top.end <= fs[j].top.start)
  }

  /** A top has characters, its leaves lie within it, and neither end of a leaf goes back. */
  ghost predicate LeavesLie(f: Family) {
    && f.top.start < f.top.end
    && (forall i :: 0 <= i < |f.leaves| ==> f.top.start <= f.leaves[i].start && f.leaves[i].end <= f.top.end)
    && (forall i :: 0 <= i < |f.leaves| - 1 ==> Before(f.leaves[i], f.leaves[i + 1]))
    && (forall i :: 0 <= i < |f.leaves| ==> f.leaves[i].start <= f.leaves[i].end)
  }

  predicate Before(a: Chunk, b: Chunk) { a.start <= b.start && a.end <= b.end }

  predicate SameRange(a: Chunk, b: Chunk) { a.start == b.start && a.end == b.end }

  lemma TopsDiffer(c: Config, fs: seq<Family>)
    requires Laid(c, fs)
    ensures Distinct(IdsOf(TopList(fs)))
    ensures forall x :: x in IdsOf(TopList(fs)) ==> x.kind != "leaf-1"
  {
    TopListIndex(fs);
    IdsIndex(TopList(fs));
    forall i, j | 0 <= i < j < |fs|
      ensures fs[i].top.id != fs[j].top.id
    {
      assert Identified(c, fs[i]) && Identified(c, fs[j]) && LeavesLie(fs[i]);
    }
    forall i | 0 <= i < |fs|
      ensures fs[i].top.id.kind != "leaf-1"
    {
      assert Identified(c, fs[i]);
      KindsDiffer();
    }
  }

  lemma KindsDiffer()
    ensures "leaf-0" != "leaf-1" && "parent" != "leaf-1"
  {
    assert "leaf-0"[5] != "leaf-1"[5];
    assert "parent"[0] != "leaf-1"[0];
  }

  // ----- leaves are in order -----

  ghost predicate Advancing(ls: seq<Chunk>) { forall i :: 0 <= i < |ls| - 1 ==> Before(ls[i], ls[i + 1]) }

  /** No leaf has the range of the leaf just before it. */
  ghost predicate NoRepeat(ls: seq<Chunk>) { forall i :: 0 <= i < |ls| - 1 ==> !SameRange(ls[i], ls[i + 1]) }

  lemma {:induction false} AdvancingFar(ls: seq<Chunk>, i: nat, j: nat)
    requires Advancing(ls) && i <= j < |ls|
    ensures Before(ls[i], ls[j])
  {
    if i < j {
      AdvancingFar(ls, i, j - 1);
      assert Before(ls[j - 1], ls[j]);
    }
  }

  /** Where neither end goes back, a range that comes again comes again at once. */
  lemma RepeatedAtOnce(ls: seq<Chunk>, i: nat, j: nat)
    requires Advancing(ls) && i < j < |ls| && SameRange(ls[i], ls[j])
    ensures !NoRepeat(ls)
  {
    AdvancingFar(ls, i, i + 1);
    AdvancingFar(ls, i + 1, j);
    assert SameRange(ls[i], ls[i + 1]);
  }

  lemma {:induction false} LeafListIn(c: Config, fs: seq<Family>, k: nat)
    requires Laid(c, fs) && fs != [] && k < |LeafList(fs)|
    ensures LeafList(fs)[k].start <= LeafList(fs)[k].end <= fs[|fs| - 1].top.end
    ensures LeafList(fs)[k].id == IdAt(c, LeafList(fs)[k], "leaf-1")
  {
    var init, f := fs[..|fs| - 1], fs[|fs| - 1];
    assert Identified(c, f) && LeavesLie(f);
    if k < |LeafList(init)| {
      LaidInit(c, fs);
      LeafListIn(c, init, k);
      assert fs[|fs| - 2].top.end <= f.top.start;
    }
  }

  lemma LaidInit(c: Config, fs: seq<Family>)
    requires Laid(c, fs) && fs != []
    ensures Laid(c, fs[..|fs| - 1])
  {
    hide Identified, LeavesLie;
  }

  lemma {:induction false} LeafListAdvances(c: Config, fs: seq<Family>)
    requires Laid(c, fs)
    ensures Advancing(LeafList(fs))
  {
    if fs != [] {
      var init, f := fs[..|fs| - 1], fs[|fs| - 1];
      LaidInit(c, fs);
      LeafListAdvances(c, init);
      assert LeavesLie(f);
      var early, all := LeafList(init), LeafList(fs);
      forall i | 0 <= i < |all| - 1
        ensures Before(all[i], all[i + 1])
      {
        if i + 1 < |early| {
          assert Before(early[i], early[i + 1]);
        } else if i + 1 == |early| {
          LeafListIn(c, init, i);
          assert fs[|fs| - 2].top.end <= f.top.start;
        } else {
          assert Before(f.leaves[i - |early|], f.leaves[i + 1 - |early|]);
        }
      }
    }
  }

  /** The ids of the leaves differ exactly when no leaf has the range of the one before it. */
  lemma LeavesDiffer(c: Config, fs: seq<Family>)
    requires Laid(c, fs)
    ensures Distinct(IdsOf(LeafList(fs))) <==> NoRepeat(LeafList(fs))
    ensures forall x :: x in IdsOf(LeafList(fs)) ==> x.kind == "leaf-1"
  {
    hide Laid;
    var ls := LeafList(fs);
    IdsIndex(ls);
    LeafListAdvances(c, fs);
    forall k | 0 <= k < |ls|
      ensures ls[k].id == IdAt(c, ls[k], "leaf-1")
    {
      LeafListIn(c, fs, k);
    }
    if NoRepeat(ls) {
      forall i, j | 0 <= i < j < |ls|
        ensures ls[i].id != ls[j].id
      {
        if SameRange(ls[i], ls[j]) {
          RepeatedAtOnce(ls, i, j);
          assert false;
        }
      }
    }
    if Distinct(IdsOf(ls)) {
      forall i | 0 <= i < |ls| - 1
        ensures !SameRange(ls[i], ls[i + 1])
      {
        assert IdsOf(ls)[i] != IdsOf(ls)[i + 1];
      }
    }
  }

  // ----- the theorem -----

  lemma DistinctSplits(all: seq<ChunkId>, tops: seq<ChunkId>, leaves: seq<ChunkId>)
    requires multiset(all) == multiset(tops) + multiset(leaves) && Distinct(tops)
    requires (forall x :: x in tops ==> x.kind != "leaf-1") && (forall x :: x in leaves ==> x.kind == "leaf-1")
    ensures Distinct(all) <==> Distinct(leaves)
  {
    DistinctMultiset(all);
    DistinctMultiset(tops);
    DistinctMultiset(leaves);
    hide Distinct;
    assert forall x :: x in all <==> x in multiset(all);
    assert forall x :: x in tops <==> x in multiset(tops);
    assert forall x :: x in leaves <==> x in multiset(leaves);
    assert forall x :: multiset(all)[x] == multiset(tops)[x] + multiset(leaves)[x];
  }

  lemma FamilyLies(c: Config, text: string, events: Events, f: Family)
    requires Sound(c) && Belongs(c, text, events, f)
    ensures LeavesLie(f)
  {
    hide Sound, Windowed, Bounded, GoodBlock, Blank, IdsOf;
    var b :| GoodBlock(c.profile, text, events, b, |text|) && FamilyOf(c, text, b, f);
    assert forall i :: 0 <= i < |f.leaves| ==> GoodLeaf(c, text, b, f.top, f.leaves[i]);
  }

  lemma FamiliesLaid(c: Config, text: string, fs: seq<Family>)
    requires Sound(c) && Promised(c, text, fs) && forall i :: 0 <= i < |fs| ==> Identified(c, fs[i])
    ensures Laid(c, fs)
  {
    TopsInOrder(text, fs);
    hide Sound, Belongs, Identified, LeavesLie, InSomeChunk, Tiles;
    forall i | 0 <= i < |fs|
      ensures LeavesLie(fs[i])
    {
      FamilyLies(c, text, EventsOf(c.profile, c.rules, text), fs[i]);
    }
  }

  /**
    The chunks of a document have different ids exactly when no leaf covers the same characters as the leaf before it.
   */
  lemma IdsDifferByLeaves(c: Config, text: string, blocks: seq<Block>, chunks: seq<Chunk>)
    requires Sound(c) && Chunked(c, text, blocks, Ok(chunks))
    ensures AllRead(c, text, blocks) && Laid(c, AllFamilies(c, text, blocks))
    ensures Distinct(IdsOf(chunks)) <==> NoRepeat(LeafList(AllFamilies(c, text, blocks)))
  {
    ChunksTheorem(c, text, blocks, chunks);
    hide *;
    var fs := AllFamilies(c, text, blocks);
    forall i | 0 <= i < |fs|
      ensures Identified(c, fs[i])
    {
      AllIdentified(c, text, blocks, i);
    }
    FamiliesLaid(c, text, fs);
    MembersBag(fs);
    TopsDiffer(c, fs);
    LeavesDiffer(c, fs);
    DistinctSplits(IdsOf(chunks), IdsOf(TopList(fs)), IdsOf(LeafList(fs)));
  }

  // ----- where a leaf comes in the list -----

  /** How many leaves the first `n` families have. */
  function LeavesBefore(fs: seq<Family>, n: nat): nat
    requires n <= |fs|
  {
    |LeafList(fs[..n])|
  }

  lemma {:induction false} LeafPosition(fs: seq<Family>, n: nat, i: nat)
    requires n < |fs| && i < |fs[n].leaves|
    ensures LeavesBefore(fs, n) + i < |LeafList(fs)| && LeafList(fs)[LeavesBefore(fs, n) + i] == fs[n].leaves[i]
  {
    var init := fs[..|fs| - 1];
    if n < |init| {
      LeafPosition(init, n, i);
      assert init[..n] == fs[..n];
    } else {
      assert fs[..n] == init;
    }
  }

  lemma {:induction false} LeavesBeforeLater(fs: seq<Family>, n: nat, m: nat)
    requires n < m <= |fs|
    ensures LeavesBefore(fs, n) + |fs[n].leaves| <= LeavesBefore(fs, m)
  {
    assert fs[..m][..m - 1] == fs[..m - 1];
    if n < m - 1 {
      LeavesBeforeLater(fs, n, m - 1);
    }
  }

  lemma {:induction false} LeafFrom(fs: seq<Family>, p: nat) returns (n: nat, i: nat)
    requires p < |LeafList(fs)|
    ensures n < |fs| && i < |fs[n].leaves| && p == LeavesBefore(fs, n) + i
  {
    var init := fs[..|fs| - 1];
    if p < |LeafList(init)| {
      n, i := LeafFrom(init, p);
      assert init[..n] == fs[..n];
    } else {
      n, i := |fs| - 1, p - |LeafList(init)|;
    }
  }

  // ----- repeats within a family and across two -----

  ghost predicate NoRepeatWithin(fs: seq<Family>) { forall n :: 0 <= n < |fs| ==> NoRepeat(fs[n].leaves) }

  /** The last leaf of a family is empty and lies at its end. */
  predicate EmptyAtEnd(f: Family) { f.leaves != [] && f.leaves[|f.leaves| - 1].start == f.top.end }

  /** The first leaf of a family is empty and lies at its start. */
  predicate EmptyAtStart(f: Family) { f.leaves != [] && f.leaves[0].end == f.top.start }

  predicate MeetEmpty(f: Family, g: Family) { f.top.end == g.top.start && EmptyAtEnd(f) && EmptyAtStart(g) }

  ghost predicate NoneMeetEmpty(fs: seq<Family>) {
    forall n, m :: 0 <= n < |fs| && 0 <= m < |fs| ==> !MeetEmpty(fs[n], fs[m])
  }

  lemma MeetingInOrder(c: Config, fs: seq<Family>, n: nat, m: nat)
    requires Laid(c, fs) && n < |fs| && m < |fs| && fs[n].top.end == fs[m].top.start
    ensures n < m
  {
    assert LeavesLie(fs[n]) && LeavesLie(fs[m]);
  }

  lemma MeetingRange(c: Config, fs: seq<Family>, n: nat, m: nat)
    requires Laid(c, fs) && n < |fs| && m < |fs| && MeetEmpty(fs[n], fs[m])
    ensures n < m && fs[n].leaves != [] && fs[m].leaves != []
    ensures SameRange(fs[n].leaves[|fs[n].leaves| - 1], fs[m].leaves[0])
  {
    MeetingInOrder(c, fs, n, m);
    assert LeavesLie(fs[n]) && LeavesLie(fs[m]);
    hide Laid;
  }

  lemma MeetingRepeats(c: Config, fs: seq<Family>, n: nat, m: nat)
    requires Laid(c, fs) && n < |fs| && m < |fs| && MeetEmpty(fs[n], fs[m])
    ensures !NoRepeat(LeafList(fs))
  {
    hide *;
    MeetingRange(c, fs, n, m);
    LeafListAdvances(c, fs);
    var last := |fs[n].leaves| - 1;
    LeafPosition(fs, n, last);
    LeafPosition(fs, m, 0);
    LeavesBeforeLater(fs, n, m);
    RepeatedAtOnce(LeafList(fs), LeavesBefore(fs, n) + last, LeavesBefore(fs, m));
  }

  lemma WithinRepeats(fs: seq<Family>, n: nat, i: nat)
    requires n < |fs| && i + 1 < |fs[n].leaves| && SameRange(fs[n].leaves[i], fs[n].leaves[i + 1])
    ensures !NoRepeat(LeafList(fs))
  {
    LeafPosition(fs, n, i);
    LeafPosition(fs, n, i + 1);
    hide LeafList, LeavesBefore, SameRange;
    var p := LeavesBefore(fs, n) + i;
    assert SameRange(LeafList(fs)[p], LeafList(fs)[p + 1]);
  }

  /** Leaves of two families have one range only where they are empty and the families meet. */
  lemma AcrossMeets(c: Config, fs: seq<Family>, n: nat, i: nat, m: nat, j: nat)
    requires Laid(c, fs) && n < m < |fs| && i < |fs[n].leaves| && j < |fs[m].leaves|
    requires SameRange(fs[n].leaves[i], fs[m].leaves[j])
    ensures MeetEmpty(fs[n], fs[m])
  {
    var f, g := fs[n], fs[m];
    assert LeavesLie(f) && LeavesLie(g);
    hide Laid;
    AdvancingFar(f.leaves, i, |f.leaves| - 1);
    AdvancingFar(g.leaves, 0, j);
  }

  lemma NextRepeats(c: Config, fs: seq<Family>, p: nat)
    requires Laid(c, fs) && p + 1 < |LeafList(fs)| && SameRange(LeafList(fs)[p], LeafList(fs)[p + 1])
    ensures !NoRepeatWithin(fs) || !NoneMeetEmpty(fs)
  {
    var n, i := LeafFrom(fs, p);
    var m, j := LeafFrom(fs, p + 1);
    LeafPosition(fs, n, i);
    LeafPosition(fs, m, j);
    hide Laid, LeafList, LeavesBefore;
    if n == m {
      assert j == i + 1 && !NoRepeat(fs[n].leaves);
    } else if n < m {
      AcrossMeets(c, fs, n, i, m, j);
    } else {
      LeavesBeforeLater(fs, m, n);
      assert false;
    }
  }

  lemma RepeatIsThere(c: Config, fs: seq<Family>)
    requires Laid(c, fs) && !(NoRepeatWithin(fs) && NoneMeetEmpty(fs))
    ensures !NoRepeat(LeafList(fs))
  {
    hide Laid, LeafList, MeetEmpty, SameRange;
    if !NoneMeetEmpty(fs) {
      var n, m :| 0 <= n < |fs| && 0 <= m < |fs| && MeetEmpty(fs[n], fs[m]);
      MeetingRepeats(c, fs, n, m);
    } else {
      var n :| 0 <= n < |fs| && !NoRepeat(fs[n].leaves);
      var i :| 0 <= i < |fs[n].leaves| - 1 && SameRange(fs[n].leaves[i], fs[n].leaves[i + 1]);
      WithinRepeats(fs, n, i);
    }
  }

  lemma RepeatIsSeen(c: Config, fs: seq<Family>)
    requires Laid(c, fs) && !NoRepeat(LeafList(fs))
    ensures !(NoRepeatWithin(fs) && NoneMeetEmpty(fs))
  {
    hide Laid, LeafList, NoRepeatWithin, NoneMeetEmpty, SameRange;
    var ls := LeafList(fs);
    var p :| 0 <= p < |ls| - 1 && SameRange(ls[p], ls[p + 1]);
    NextRepeats(c, fs, p);
  }

  /** A leaf repeats the one before it within its family, or at the point where two families meet. */
  lemma RepeatsExactly(c: Config, fs: seq<Family>)
    requires Laid(c, fs)
    ensures NoRepeat(LeafList(fs)) <==> NoRepeatWithin(fs) && NoneMeetEmpty(fs)
  {
    hide *;
    if !NoRepeat(LeafList(fs)) {
      RepeatIsSeen(c, fs);
    }
    if !(NoRepeatWithin(fs) && NoneMeetEmpty(fs)) {
      RepeatIsThere(c, fs);
    }
  }

  // ----- the parents of a text -----

  /** A range that the chunker makes a parent: a piece of a block too long for one leaf. */
  ghost predicate ParentOf(c: Config, text: string, b: Block, r: Range)
    requires Sound(c)
  {
    && r.start <= r.end <= |text| && b.start <= b.end <= |text|
    && var blockText := text[b.start..b.end];
    && !Blank(blockText) && c.enc.Size(blockText) > c.leafTokens && ParentsBounded(c, blockText)
    && r in Shift(ParentRanges(c, blockText), b.start)
  }

  ghost predicate IsParent(c: Config, text: string, blocks: seq<Block>, r: Range)
    requires Sound(c)
  {
    exists i :: 0 <= i < |blocks| && ParentOf(c, text, blocks[i], r)
  }

  predicate SameCharacters(offsets: seq<nat>, length: nat, v: Span, w: Span) {
    && CharAt(offsets, length, v.first) == CharAt(offsets, length, w.first)
    && CharAt(offsets, length, v.last) == CharAt(offsets, length, w.last)
  }

  /** Each step of the window over a parent's tokens gets past a character, at its first token or at its last. */
  predicate WindowsAdvance(c: Config, text: string, r: Range)
    requires c.overlapTokens < c.leafTokens && r.start <= r.end <= |text|
  {
    var slice := text[r.start..r.end];
    var offsets := c.enc.decodeWithOffsets(c.enc.encode(slice)).1;
    var spans := SpansOf(c.enc, slice, c.leafTokens, c.overlapTokens);
    forall i :: 0 <= i < |spans| - 1 ==> !SameCharacters(offsets, |slice|, spans[i], spans[i + 1])
  }

  /** The last window over a parent's tokens has no character: its first token is said to begin where the text ends. */
  predicate EndsEmpty(c: Config, text: string, r: Range)
    requires c.overlapTokens < c.leafTokens && r.start <= r.end <= |text|
  {
    var slice := text[r.start..r.end];
    var spans := SpansOf(c.enc, slice, c.leafTokens, c.overlapTokens);
    && spans != []
    && CharAt(c.enc.decodeWithOffsets(c.enc.encode(slice)).1, |slice|, spans[|spans| - 1].first) == |slice|
  }

  /** The first window has no character: the token after it is still part of the text's first character. */
  predicate StartsEmpty(c: Config, text: string, r: Range)
    requires c.overlapTokens < c.leafTokens && r.start <= r.end <= |text|
  {
    var slice := text[r.start..r.end];
    var spans := SpansOf(c.enc, slice, c.leafTokens, c.overlapTokens);
    spans != [] && CharAt(c.enc.decodeWithOffsets(c.enc.encode(slice)).1, |slice|, spans[0].last) == 0
  }

  /** A family with leaves and the parent range it was made from. */
  ghost predicate MadeFrom(c: Config, text: string, b: Block, r: Range, f: Family)
    requires Sound(c)
  {
    ParentOf(c, text, b, r) && Decodes(c.enc, text[r.start..r.end]) && f == ParentFamily(c, text, b, r)
  }

  lemma LeavesAreWindows(c: Config, text: string, b: Block, r: Range, f: Family)
    requires Sound(c) && MadeFrom(c, text, b, r, f)
    ensures f.top.start == r.start && f.top.end == r.end
    ensures
      var slice := text[r.start..r.end];
      var offsets := c.enc.decodeWithOffsets(c.enc.encode(slice)).1;
      var spans := SpansOf(c.enc, slice, c.leafTokens, c.overlapTokens);
      && |f.leaves| == |spans|
      && forall i :: 0 <= i < |spans| ==>
                       && f.leaves[i].start == r.start + CharAt(offsets, |slice|, spans[i].first)
                       && f.leaves[i].end == r.start + CharAt(offsets, |slice|, spans[i].last)
  {
    assert c.overlapTokens < c.leafTokens;
    ParentFamilyIs(c, text, b, r);
    LeafChunksIndex(c, text, b, r, LeafRanges(c, text, r));
    LeafRangesIndex(c, text, r);
    hide Sound, ParentOf, Decodes, LeafRanges, LeafChunks, ParentFamily, SpansOf, CharAt, Count, Chunks.IdsOf;
  }

  lemma RepeatOfParent(c: Config, text: string, b: Block, r: Range, f: Family)
    requires Sound(c) && MadeFrom(c, text, b, r, f)
    ensures NoRepeat(f.leaves) <==> WindowsAdvance(c, text, r)
  {
    assert c.overlapTokens < c.leafTokens && r.start <= r.end <= |text|;
    LeavesAreWindows(c, text, b, r, f);
    hide Sound, MadeFrom, SpansOf, CharAt, Encoding.Size;
    var slice := text[r.start..r.end];
    var offsets := c.enc.decodeWithOffsets(c.enc.encode(slice)).1;
    var spans := SpansOf(c.enc, slice, c.leafTokens, c.overlapTokens);
    assert forall i :: 0 <= i < |spans| - 1 ==>
                         (SameRange(f.leaves[i], f.leaves[i + 1]) <==>
                          SameCharacters(offsets, |slice|, spans[i], spans[i + 1]));
    SameRepeats(f.leaves, offsets, |slice|, spans);
  }

  lemma SameRepeats(leaves: seq<Chunk>, offsets: seq<nat>, length: nat, spans: seq<Span>)
    requires |leaves| == |spans|
    requires forall i :: 0 <= i < |spans| - 1 ==>
                           (SameRange(leaves[i], leaves[i + 1]) <==>
                            SameCharacters(offsets, length, spans[i], spans[i + 1]))
    ensures NoRepeat(leaves) <==>
            forall i :: 0 <= i < |spans| - 1 ==> !SameCharacters(offsets, length, spans[i], spans[i + 1])
  {
    hide SameRange, SameCharacters;
  }

  lemma EmptyOfParent(c: Config, text: string, b: Block, r: Range, f: Family)
    requires Sound(c) && MadeFrom(c, text, b, r, f)
    ensures EmptyAtEnd(f) <==> EndsEmpty(c, text, r)
    ensures EmptyAtStart(f) <==> StartsEmpty(c, text, r)
  {
    assert c.overlapTokens < c.leafTokens && r.start <= r.end <= |text|;
    LeavesAreWindows(c, text, b, r, f);
    hide Sound, MadeFrom, SpansOf, CharAt;
  }

  /** What a family's leaves repeat, said of the parent's tokens. */
  lemma FamilyOfParent(c: Config, text: string, b: Block, r: Range, f: Family)
    requires Sound(c) && MadeFrom(c, text, b, r, f)
    ensures c.overlapTokens < c.leafTokens && r.start <= r.end <= |text|
    ensures f.top.start == r.start && f.top.end == r.end
    ensures NoRepeat(f.leaves) <==> WindowsAdvance(c, text, r)
    ensures EmptyAtEnd(f) <==> EndsEmpty(c, text, r)
    ensures EmptyAtStart(f) <==> StartsEmpty(c, text, r)
  {
    assert c.overlapTokens < c.leafTokens && r.start <= r.end <= |text|;
    hide *;
    LeavesAreWindows(c, text, b, r, f);
    RepeatOfParent(c, text, b, r, f);
    EmptyOfParent(c, text, b, r, f);
  }

  // ----- families with leaves are made from parents -----

  /** A family without leaves, or one made from a parent of a block. */
  ghost predicate Accounted(c: Config, text: string, blocks: seq<Block>, f: Family)
    requires Sound(c)
  {
    f.leaves == [] || exists i, r :: 0 <= i < |blocks| && MadeFrom(c, text, blocks[i], r, f)
  }

  lemma BlockFamily(c: Config, text: string, b: Block, n: nat)
    requires Sound(c) && b.start <= b.end <= |text| && BlockReads(c, text, b) && n < |FamiliesOf(c, text, b)|
    ensures FamiliesOf(c, text, b)[n].leaves == [] || exists r :: MadeFrom(c, text, b, r, FamiliesOf(c, text, b)[n])
  {
    hide Sound, ParentRanges, ParentFamilies, ParentFamily, ParentsBounded, Blank, Decodes;
    var blockText := text[b.start..b.end];
    if !Blank(blockText) && c.enc.Size(blockText) > c.leafTokens {
      var rs := Shift(ParentRanges(c, blockText), b.start);
      ParentFamiliesIndex(c, text, b, rs);
      assert MadeFrom(c, text, b, rs[n], FamiliesOf(c, text, b)[n]);
    }
  }

  lemma BlockParent(c: Config, text: string, b: Block, r: Range) returns (n: nat)
    requires Sound(c) && b.start <= b.end <= |text| && BlockReads(c, text, b) && ParentOf(c, text, b, r)
    ensures n < |FamiliesOf(c, text, b)| && MadeFrom(c, text, b, r, FamiliesOf(c, text, b)[n])
  {
    hide Sound, ParentRanges, ParentFamilies, ParentFamily, ParentsBounded, Blank, Decodes;
    var rs := Shift(ParentRanges(c, text[b.start..b.end]), b.start);
    ParentFamiliesIndex(c, text, b, rs);
    n :| 0 <= n < |rs| && rs[n] == r;
  }

  lemma {:induction false} EveryFamily(c: Config, text: string, blocks: seq<Block>, n: nat)
    requires Sound(c) && AllRead(c, text, blocks) && n < |AllFamilies(c, text, blocks)|
    ensures Accounted(c, text, blocks, AllFamilies(c, text, blocks)[n])
    decreases |blocks|
  {
    hide Sound, FamiliesOf, BlockReads, MadeFrom;
    var init, b := blocks[..|blocks| - 1], blocks[|blocks| - 1];
    var before := AllFamilies(c, text, init);
    if n < |before| {
      EveryFamily(c, text, init, n);
      if before[n].leaves != [] {
        var i, r :| 0 <= i < |init| && MadeFrom(c, text, init[i], r, before[n]);
        assert MadeFrom(c, text, blocks[i], r, before[n]);
      }
    } else {
      BlockFamily(c, text, b, n - |before|);
      assert blocks[|blocks| - 1] == b;
    }
  }

  lemma {:induction false} EveryParent(c: Config, text: string, blocks: seq<Block>, i: nat, r: Range) returns (n: nat)
    requires Sound(c) && AllRead(c, text, blocks) && i < |blocks| && ParentOf(c, text, blocks[i], r)
    ensures n < |AllFamilies(c, text, blocks)| && MadeFrom(c, text, blocks[i], r, AllFamilies(c, text, blocks)[n])
    decreases |blocks|
  {
    hide Sound, FamiliesOf, BlockReads, MadeFrom, ParentOf;
    var init := blocks[..|blocks| - 1];
    if i < |init| {
      n := EveryParent(c, text, init, i, r);
    } else {
      var k := BlockParent(c, text, blocks[i], r);
      n := |AllFamilies(c, text, init)| + k;
    }
  }

  // ----- the theorem, on the tokens of the parents -----

  /** Every step of the window gets past a character, in every parent. */
  ghost predicate AllAdvance(c: Config, text: string, blocks: seq<Block>)
    requires Sound(c)
  {
    forall r :: IsParent(c, text, blocks, r) ==> WindowsAdvance(c, text, r)
  }

  /** An empty window at the end of one parent and one at the start of the next, at the same place. */
  ghost predicate ParentsMeetEmpty(c: Config, text: string, blocks: seq<Block>, r: Range, r': Range)
    requires Sound(c)
  {
    && IsParent(c, text, blocks, r) && IsParent(c, text, blocks, r') && r.end == r'.start
    && EndsEmpty(c, text, r) && StartsEmpty(c, text, r')
  }

  ghost predicate SomeMeetEmpty(c: Config, text: string, blocks: seq<Block>)
    requires Sound(c)
  {
    exists r, r' :: ParentsMeetEmpty(c, text, blocks, r, r')
  }

  lemma WithinExactly(c: Config, text: string, blocks: seq<Block>)
    requires Sound(c) && AllRead(c, text, blocks)
    ensures NoRepeatWithin(AllFamilies(c, text, blocks)) <==> AllAdvance(c, text, blocks)
  {
    var fs := AllFamilies(c, text, blocks);
    hide Sound, AllFamilies, AllRead, ParentOf, MadeFrom, WindowsAdvance, NoRepeat;
    if !AllAdvance(c, text, blocks) {
      var r :| IsParent(c, text, blocks, r) && !WindowsAdvance(c, text, r);
      var i :| 0 <= i < |blocks| && ParentOf(c, text, blocks[i], r);
      var n := EveryParent(c, text, blocks, i, r);
      FamilyOfParent(c, text, blocks[i], r, fs[n]);
      assert !NoRepeat(fs[n].leaves);
    }
    if !NoRepeatWithin(fs) {
      var n :| 0 <= n < |fs| && !NoRepeat(fs[n].leaves);
      NoneRepeatNone(fs[n].leaves);
      var i, r := ParentBehind(c, text, blocks, n);
      FamilyOfParent(c, text, blocks[i], r, fs[n]);
    }
  }

  lemma NoneRepeatNone(ls: seq<Chunk>)
    ensures ls == [] ==> NoRepeat(ls)
  {
  }

  lemma MadeFromParent(c: Config, text: string, blocks: seq<Block>, i: nat, r: Range, f: Family)
    requires Sound(c) && i < |blocks| && MadeFrom(c, text, blocks[i], r, f)
    ensures IsParent(c, text, blocks, r)
  {
    hide Sound, ParentOf, ParentFamily, Decodes;
  }

  lemma MeetingParents(c: Config, text: string, blocks: seq<Block>, r: Range, r': Range) returns (n: nat, m: nat)
    requires Sound(c) && AllRead(c, text, blocks) && ParentsMeetEmpty(c, text, blocks, r, r')
    ensures
      var fs := AllFamilies(c, text, blocks);
      n < |fs| && m < |fs| && MeetEmpty(fs[n], fs[m])
  {
    hide Sound, AllFamilies, AllRead, ParentOf, MadeFrom, EndsEmpty, StartsEmpty, EmptyAtEnd, EmptyAtStart;
    var i :| 0 <= i < |blocks| && ParentOf(c, text, blocks[i], r);
    var j :| 0 <= j < |blocks| && ParentOf(c, text, blocks[j], r');
    n := EveryParent(c, text, blocks, i, r);
    m := EveryParent(c, text, blocks, j, r');
    FamilyOfParent(c, text, blocks[i], r, AllFamilies(c, text, blocks)[n]);
    FamilyOfParent(c, text, blocks[j], r', AllFamilies(c, text, blocks)[m]);
  }

  lemma ParentBehind(c: Config, text: string, blocks: seq<Block>, n: nat) returns (i: nat, r: Range)
    requires Sound(c) && AllRead(c, text, blocks) && n < |AllFamilies(c, text, blocks)|
    requires AllFamilies(c, text, blocks)[n].leaves != []
    ensures i < |blocks| && MadeFrom(c, text, blocks[i], r, AllFamilies(c, text, blocks)[n])
    ensures IsParent(c, text, blocks, r)
  {
    hide Sound, AllFamilies, AllRead, MadeFrom, IsParent;
    var fs := AllFamilies(c, text, blocks);
    EveryFamily(c, text, blocks, n);
    i, r :| 0 <= i < |blocks| && MadeFrom(c, text, blocks[i], r, fs[n]);
    MadeFromParent(c, text, blocks, i, r, fs[n]);
  }

  lemma MeetingFamilies(c: Config, text: string, blocks: seq<Block>, n: nat, m: nat)
    requires Sound(c) && AllRead(c, text, blocks)
    requires
      var fs := AllFamilies(c, text, blocks);
      n < |fs| && m < |fs| && MeetEmpty(fs[n], fs[m])
    ensures SomeMeetEmpty(c, text, blocks)
  {
    hide Sound, AllFamilies, AllRead, MadeFrom, IsParent, ParentOf, EndsEmpty, StartsEmpty;
    var fs := AllFamilies(c, text, blocks);
    var i, r := ParentBehind(c, text, blocks, n);
    var j, r' := ParentBehind(c, text, blocks, m);
    hide EmptyAtEnd, EmptyAtStart;
    FamilyOfParent(c, text, blocks[i], r, fs[n]);
    FamilyOfParent(c, text, blocks[j], r', fs[m]);
    MeetHere(c, text, blocks, r, r');
  }

  lemma MeetHere(c: Config, text: string, blocks: seq<Block>, r: Range, r': Range)
    requires Sound(c) && IsParent(c, text, blocks, r) && IsParent(c, text, blocks, r') && r.end == r'.start
    requires EndsEmpty(c, text, r) && StartsEmpty(c, text, r')
    ensures SomeMeetEmpty(c, text, blocks)
  {
    hide Sound, IsParent, EndsEmpty, StartsEmpty;
    assert ParentsMeetEmpty(c, text, blocks, r, r');
  }

  lemma MeetingExactly(c: Config, text: string, blocks: seq<Block>)
    requires Sound(c) && AllRead(c, text, blocks)
    ensures NoneMeetEmpty(AllFamilies(c, text, blocks)) <==> !SomeMeetEmpty(c, text, blocks)
  {
    var fs := AllFamilies(c, text, blocks);
    hide Sound, AllFamilies, AllRead, MeetEmpty, ParentsMeetEmpty;
    if SomeMeetEmpty(c, text, blocks) {
      var r, r' :| ParentsMeetEmpty(c, text, blocks, r, r');
      var n, m := MeetingParents(c, text, blocks, r, r');
      assert MeetEmpty(fs[n], fs[m]);
    }
    if !NoneMeetEmpty(fs) {
      var n, m :| 0 <= n < |fs| && 0 <= m < |fs| && MeetEmpty(fs[n], fs[m]);
      MeetingFamilies(c, text, blocks, n, m);
    }
  }

  /**
    The chunks of a document have different ids exactly when each step of the window gets past a character in every
    parent, and no empty window at the end of one parent meets an empty one at the start of the next. Both are said of
    the tokens of the parents' text, before any leaf is cut.
   */
  lemma IdsDifferExactly(c: Config, text: string, blocks: seq<Block>, chunks: seq<Chunk>)
    requires Sound(c) && Chunked(c, text, blocks, Ok(chunks))
    ensures Distinct(IdsOf(chunks)) <==> AllAdvance(c, text, blocks) && !SomeMeetEmpty(c, text, blocks)
  {
    hide *;
    IdsDifferByLeaves(c, text, blocks, chunks);
    RepeatsExactly(c, AllFamilies(c, text, blocks));
    WithinExactly(c, text, blocks);
    MeetingExactly(c, text, blocks);
  }

  /** Every token of a parent begins before its text ends, as a token that holds any byte does. */
  predicate TokensBegin(c: Config, text: string, r: Range)
    requires r.start <= r.end <= |text|
  {
    var slice := text[r.start..r.end];
    var offsets := c.enc.decodeWithOffsets(c.enc.encode(slice)).1;
    |offsets| == c.enc.Size(slice) && forall k :: 0 <= k < |offsets| ==> offsets[k] < |slice|
  }

  lemma NeverEndsEmpty(c: Config, text: string, r: Range)
    requires Sound(c) && r.start <= r.end <= |text| && TokensBegin(c, text, r)
    ensures !EndsEmpty(c, text, r)
  {
    assert c.overlapTokens < c.leafTokens;
    var slice := text[r.start..r.end];
    hide Sound, Lawful, Windows;
    if c.enc.Size(slice) > 0 {
      WindowsTheorem(c.enc.Size(slice), c.leafTokens, c.overlapTokens, 0);
    } else {
      NoWindows(c.leafTokens, c.overlapTokens);
    }
  }

  lemma NoWindows(limit: nat, overlap: nat)
    requires overlap < limit
    ensures Windows(0, limit, overlap, 0) == []
  {
  }

  /** Where every token begins inside the text, only the steps within a parent matter. */
  lemma IdsDifferByTokens(c: Config, text: string, blocks: seq<Block>, chunks: seq<Chunk>)
    requires Sound(c) && Chunked(c, text, blocks, Ok(chunks))
    requires forall r :: IsParent(c, text, blocks, r) ==> TokensBegin(c, text, r)
    ensures Distinct(IdsOf(chunks)) <==> AllAdvance(c, text, blocks)
  {
    IdsDifferExactly(c, text, blocks, chunks);
    hide Sound, Chunked, AllAdvance, TokensBegin, EndsEmpty, StartsEmpty, ParentOf, Distinct, Chunks.IdsOf;
    forall r | IsParent(c, text, blocks, r)
      ensures !EndsEmpty(c, text, r)
    {
      NeverEndsEmpty(c, text, r);
    }
  }

  // ----- it happens -----

  /** A tokenizer that takes three tokens for a character, as byte-pair encodings do for rare ones. */
  function ThreeTokens(): Encoding {
    Encoding((s: string) => seq(3 * |s|, i => 0),
             (ts: seq<int>) => (seq(|ts| / 3, i => 'x'), seq(|ts|, (i: nat) => i / 3)))
  }

  lemma ThreeTokensLawful()
    ensures Lawful(ThreeTokens())
  {
  }

  lemma ThreeTokensDecode(text: string)
    requires forall i :: 0 <= i < |text| ==> text[i] == 'x'
    ensures Decodes(ThreeTokens(), text) && ThreeTokens().Size(text) == 3 * |text|
  {
    var enc := ThreeTokens();
    assert |enc.encode(text)| / 3 == |text|;
    assert enc.decodeWithOffsets(enc.encode(text)).0 == text;
  }

  lemma ThirdOffset(n: nat, k: nat)
    requires k < n
    ensures ThreeTokens().decodeWithOffsets(seq(n, i => 0)).1 == seq(n, (i: nat) => i / 3)
    ensures CharAt(seq(n, (i: nat) => i / 3), n / 3, k) == k / 3
  {
  }

  /** Windows of 64 tokens that step by one: the first two cover the same characters. */
  lemma SameWindowTwice(text: string)
    requires |text| == 30 && forall i :: 0 <= i < |text| ==> text[i] == 'x'
    ensures Lawful(ThreeTokens()) && Decodes(ThreeTokens(), text)
    ensures
      var rs := WindowRanges(ThreeTokens(), text, 64, 63, 0);
      |rs| > 1 && rs[0] == rs[1]
  {
    ThreeTokensLawful();
    ThreeTokensDecode(text);
    WindowsNext(90, 64, 63, 0);
    WindowsNext(90, 64, 63, 1);
    hide Lawful, Decodes, Windows;
    var enc := ThreeTokens();
    var spans := SpansOf(enc, text, 64, 63);
    assert spans[0] == Span(0, 64) && spans[1] == Span(1, 65);
    assert enc.encode(text) == seq(90, i => 0);
    ThirdOffset(90, 0);
    ThirdOffset(90, 1);
    ThirdOffset(90, 64);
    ThirdOffset(90, 65);
    hide ThreeTokens, Tokens.RangesOf, CharAt;
    RangesOfIndex(enc.decodeWithOffsets(enc.encode(text)).1, |text|, 0, spans);
  }

  /** Small leaves that overlap by all but one token, no hard boundaries, and any patterns to split at. */
  function Narrow(ps: seq<Pattern>): Config {
    Config(
      "", "", Profile(false, false, false), 64, 4096, 63,
      Rules(line => None, line => None), value => None, ps, ThreeTokens())
  }

  lemma NarrowSound(ps: seq<Pattern>)
    requires AllSplit(ps)
    ensures Sound(Narrow(ps))
  {
    ThreeTokensLawful();
  }

  lemma {:induction false} NoLineEvents(ps: seq<Pattern>, lines: seq<string>, position: nat, p: nat)
    ensures EventsOfLines(Narrow(ps).profile, Narrow(ps).rules, lines, position, p) == []
    decreases |lines|
  {
    if lines != [] {
      NoLineEvents(ps, lines[1..], position + |lines[0]|, p);
    }
  }

  lemma NoEvents(ps: seq<Pattern>, text: string)
    ensures EventsOf(Narrow(ps).profile, Narrow(ps).rules, text) == map[]
  {
    forall p: nat
      ensures EventsAt(Narrow(ps).profile, Narrow(ps).rules, text, p) == []
    {
      NoLineEvents(ps, Lines(text), 0, p);
    }
  }

  lemma WholeTiles(text: string)
    requires text != []
    ensures Tiles(text, [Range(0, |text|)], 0, |text|)
  {
    assert [Range(0, |text|)][1..] == [];
    assert text[0..0] == [] && text[|text|..|text|] == [];
  }

  lemma WholeStructured(ps: seq<Pattern>, text: string)
    requires text != [] && !Blank(text)
    ensures
      var events := EventsOf(Narrow(ps).profile, Narrow(ps).rules, text);
      Structured(Narrow(ps).profile, text, events, [Block(0, |text|, None, [], None)], |text|)
  {
    NoEvents(ps, text);
    WholeTiles(text);
    var b := Block(0, |text|, None, [], None);
    assert [b][..0] == [];
    assert Blocks.RangesOf([b]) == [Range(0, |text|)];
    assert text[0..|text|] == text;
    assert ApplyAll(INITIAL, []) == INITIAL;
    ContextSteady(map[], 0, 1);
  }

  /** No pattern splits a text that fits. */
  lemma {:induction false} WholeRefined(enc: Encoding, text: string, ps: seq<Pattern>)
    requires AllSplit(ps) && enc.Size(text) <= 4096
    ensures Refined(enc, 4096, text, ps) == [Range(0, |text|)]
    decreases |ps|
  {
    var rs := [Range(0, |text|)];
    assert text[0..|text|] == text && Slice(text, rs[0]) == text;
    assert Fits(enc, 4096, text, rs[0]);
    hide Encoding.Size, Fits, Splits;
    assert rs[..0] == [];
    if ps != [] {
      WholeRefined(enc, text, ps[..|ps| - 1]);
      assert Refine(enc, 4096, text, rs, ps[|ps| - 1]) == rs;
    }
  }

  lemma WholeFinished(enc: Encoding, text: string)
    requires text != [] && !Blank(text) && enc.Size(text) <= 4096
    ensures AllReadable(enc, 4096, text, [Range(0, |text|)])
    ensures FinishAll(enc, 4096, text, [Range(0, |text|)]) == [Range(0, |text|)]
    ensures NonBlank(text, [Range(0, |text|)]) == [Range(0, |text|)]
  {
    var rs := [Range(0, |text|)];
    assert text[0..|text|] == text && Slice(text, rs[0]) == text;
    assert Fits(enc, 4096, text, rs[0]);
    hide Blank, Encoding.Size, Fits;
    assert rs[..0] == [] && rs[1..] == [];
    assert FinishAll(enc, 4096, text, rs) == rs;
    assert NonBlank(text, rs) == rs;
  }

  /** A text short enough for one parent and too long for one leaf is that parent. */
  lemma WholeIsParent(ps: seq<Pattern>, text: string)
    requires AllSplit(ps)
    requires |text| == 30 && forall i :: 0 <= i < |text| ==> text[i] == 'x'
    ensures Sound(Narrow(ps)) && ParentsBounded(Narrow(ps), text) && ParentRanges(Narrow(ps), text) == [Range(0, 30)]
  {
    NarrowSound(ps);
    var c := Narrow(ps);
    ThreeTokensDecode(text);
    assert c.enc == ThreeTokens() && c.patterns == ps && c.parentTokens == 4096;
    assert text[0] == 'x' && !Blank(text);
    WholeRefined(c.enc, text, ps);
    WholeFinished(c.enc, text);
    hide Sound, Refined, ThreeTokens, Narrow, Decodes, AllReadable, NonBlank, FinishAll, Blank, AllSplit;
  }

  lemma WholeReads(ps: seq<Pattern>, text: string, b: Block)
    requires AllSplit(ps)
    requires |text| == 30 && (forall i :: 0 <= i < |text| ==> text[i] == 'x') && b.start == 0 && b.end == 30
    ensures Sound(Narrow(ps)) && AllRead(Narrow(ps), text, [b]) && ParentOf(Narrow(ps), text, b, Range(0, 30))
  {
    WholeIsParent(ps, text);
    ThreeTokensDecode(text);
    assert text[0..30] == text;
    var c := Narrow(ps);
    assert c.enc == ThreeTokens() && c.leafTokens == 64;
    assert text[0] == 'x';
    hide Sound, ParentRanges, ParentsBounded, ThreeTokens, Decodes;
    assert Shift([Range(0, 30)], 0) == [Range(0, 30)] by {
      assert [Range(0, 30)][1..] == [];
    }
  }

  lemma FirstStepStays(ps: seq<Pattern>, text: string)
    requires |text| == 30 && forall i :: 0 <= i < |text| ==> text[i] == 'x'
    ensures !WindowsAdvance(Narrow(ps), text, Range(0, 30))
  {
    SameWindowTwice(text);
    assert text[0..30] == text;
    var c := Narrow(ps);
    assert c.enc == ThreeTokens() && c.leafTokens == 64 && c.overlapTokens == 63;
    hide Windows, ThreeTokens, Lawful, Decodes, Tokens.RangesOf, CharAt;
    var offsets := c.enc.decodeWithOffsets(c.enc.encode(text)).1;
    var spans := SpansOf(c.enc, text, 64, 63);
    RangesOfIndex(offsets, |text|, 0, spans);
    assert SameCharacters(offsets, |text|, spans[0], spans[1]);
  }

  lemma OneStays(c: Config, text: string, b: Block, r: Range)
    requires Sound(c) && c.overlapTokens < c.leafTokens && ParentOf(c, text, b, r) && r.start <= r.end <= |text|
    requires !WindowsAdvance(c, text, r)
    ensures !AllAdvance(c, text, [b])
  {
    hide Sound, ParentOf, WindowsAdvance;
    assert ParentOf(c, text, [b][0], r);
    assert IsParent(c, text, [b], r);
  }

  lemma WholeChunked(ps: seq<Pattern>, text: string, b: Block)
    requires AllSplit(ps)
    requires |text| == 30 && (forall i :: 0 <= i < |text| ==> text[i] == 'x') && b == Block(0, 30, None, [], None)
    ensures Sound(Narrow(ps)) && AllRead(Narrow(ps), text, [b]) && ParentOf(Narrow(ps), text, b, Range(0, 30))
    ensures Chunked(Narrow(ps), text, [b], Ok(Members(AllFamilies(Narrow(ps), text, [b]))))
  {
    assert text[0] == 'x' && !Blank(text);
    WholeStructured(ps, text);
    WholeReads(ps, text, b);
    hide Sound, Structured, AllRead, ParentOf, Members, AllFamilies, EventsOf, Narrow, Blank;
  }

  /** A run of the chunker that gives two chunks one id. */
  ghost predicate RepeatsAnId(c: Config, text: string, blocks: seq<Block>, chunks: seq<Chunk>)
    requires Sound(c)
  {
    Chunked(c, text, blocks, Ok(chunks)) && !Distinct(IdsOf(chunks))
  }

  lemma StayingRepeats(c: Config, text: string, b: Block, r: Range)
    requires Sound(c) && AllRead(c, text, [b]) && Chunked(c, text, [b], Ok(Members(AllFamilies(c, text, [b]))))
    requires ParentOf(c, text, b, r) && !WindowsAdvance(c, text, r)
    ensures RepeatsAnId(c, text, [b], Members(AllFamilies(c, text, [b])))
  {
    assert c.overlapTokens < c.leafTokens && r.start <= r.end <= |text|;
    hide Sound, AllRead, ParentOf, WindowsAdvance, Chunked, Distinct, Chunks.IdsOf, Members, AllFamilies, AllAdvance;
    OneStays(c, text, b, r);
    IdsDifferExactly(c, text, [b], Members(AllFamilies(c, text, [b])));
  }

  lemma RunRepeats(ps: seq<Pattern>, text: string, b: Block)
    requires AllSplit(ps)
    requires |text| == 30 && (forall i :: 0 <= i < |text| ==> text[i] == 'x') && b == Block(0, 30, None, [], None)
    ensures Sound(Narrow(ps)) && AllRead(Narrow(ps), text, [b])
    ensures RepeatsAnId(Narrow(ps), text, [b], Members(AllFamilies(Narrow(ps), text, [b])))
  {
    hide *;
    WholeChunked(ps, text, b);
    FirstStepStays(ps, text);
    StayingRepeats(Narrow(ps), text, b, Range(0, 30));
  }

  /** It happens, whatever the patterns, to a text of thirty characters that take three tokens each. */
  lemma SameIdTwice(ps: seq<Pattern>, text: string)
    requires AllSplit(ps)
    requires |text| == 30 && forall i :: 0 <= i < |text| ==> text[i] == 'x'
    ensures Sound(Narrow(ps)) && exists blocks, chunks :: RepeatsAnId(Narrow(ps), text, blocks, chunks)
  {
    hide *;
    RunRepeats(ps, text, Block(0, 30, None, [], None));
  }
}
