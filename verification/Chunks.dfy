/** From a text to its chunks: blocks, parents and overlapping leaves. */
module Chunks {
  import opened Wrappers
  import opened Text
  import opened Tokens
  import opened Ranges
  import opened Blocks

  /** What a chunk id is a digest of; the digest itself is taken to be injective. */
  datatype ChunkId = ChunkId(document: string, checksum: string, start: nat, end: nat, kind: string)

  datatype Chunk = Chunk(
    id: ChunkId, text: string, level: nat, parentId: Option<ChunkId>, childrenIds: seq<ChunkId>, tokenCount: nat,
    start: nat, end: nat, startLine: nat, endLine: nat, page: Option<nat>, section: seq<string>,
    article: Option<string>, paragraph: Option<string>, standalone: bool)

  /** Everything the chunker is given besides the text. */
  datatype Config = Config(
    document: string, checksum: string, profile: Profile, leafTokens: nat, parentTokens: nat, overlapTokens: nat,
    rules: Rules, marker: string -> Option<string>, patterns: seq<Pattern>, enc: Encoding)

  /** What the document profile validates, and what is assumed of the tokenizer and of the regular expressions. */
  ghost predicate Sound(c: Config) {
    0 < c.leafTokens < c.parentTokens && c.overlapTokens < c.leafTokens && Lawful(c.enc) && AllSplit(c.patterns)
  }

  function MakeChunk(
    c: Config, text: string, b: Block, r: Range, level: nat, parentId: Option<ChunkId>, childrenIds: seq<ChunkId>,
    standalone: bool, kind: string): Chunk
    requires r.start <= r.end <= |text|
  {
    var value := Slice(text, r);
    var lastChar := if r.end >= r.start + 1 then r.end - 1 else r.start;
    Chunk(
      ChunkId(c.document, c.checksum, r.start, r.end, kind), value, level, parentId, childrenIds, c.enc.Size(value),
      r.start, r.end, Count(text[..r.start], 10 as char) + 1, Count(text[..lastChar], 10 as char) + 1,
      b.page, b.section, b.article, c.marker(value), standalone)
  }

  function Standalone(c: Config, text: string, b: Block): Chunk
    requires b.start <= b.end <= |text|
  {
    MakeChunk(c, text, b, Range(b.start, b.end), 0, None, [], true, "leaf-0")
  }

  function ParentId(c: Config, r: Range): ChunkId { ChunkId(c.document, c.checksum, r.start, r.end, "parent") }

  function LeafChunks(c: Config, text: string, b: Block, parent: Range, leaves: seq<Range>): seq<Chunk>
    requires Inside(text, leaves)
  {
    if leaves == [] then []
    else
      LeafChunks(c, text, b, parent, leaves[..|leaves| - 1])
      + [MakeChunk(c, text, b, leaves[|leaves| - 1], 1, Some(ParentId(c, parent)), [], false, "leaf-1")]
  }

  function IdsOf(chunks: seq<Chunk>): seq<ChunkId> {
    if chunks == [] then [] else IdsOf(chunks[..|chunks| - 1]) + [chunks[|chunks| - 1].id]
  }

  /** A top-level chunk and what is below it: nothing for a standalone chunk, the leaves for a parent. */
  datatype Family = Family(top: Chunk, leaves: seq<Chunk>)

  function Members(fs: seq<Family>): seq<Chunk> {
    if fs == [] then [] else Members(fs[..|fs| - 1]) + [fs[|fs| - 1].top] + fs[|fs| - 1].leaves
  }

  function TopRanges(fs: seq<Family>): seq<Range> {
    if fs == [] then [] else TopRanges(fs[..|fs| - 1]) + [Range(fs[|fs| - 1].top.start, fs[|fs| - 1].top.end)]
  }

  // ----- what a family is -----

  ghost predicate Named(c: Config, text: string, b: Block, k: Chunk) {
    && k.start <= k.end <= |text| && k.text == text[k.start..k.end]
    && b.start <= k.start && k.end <= b.end
    && k.page == b.page && k.section == b.section && k.article == b.article
    && k.tokenCount == c.enc.Size(k.text) && k.paragraph == c.marker(k.text)
    && k.startLine == 1 + Count(text[..k.start], '\n')
    && k.endLine == 1 + Count(text[..if k.start < k.end then k.end - 1 else k.start], '\n')
  }

  /** A family of a block: either the whole block, short enough, or a parent with leaves that cover it end to end. */
  ghost predicate GoodFamily(c: Config, text: string, b: Block, f: Family) {
    && Named(c, text, b, f.top) && f.top.start < f.top.end && !Blank(f.top.text)
    && f.top.level == 0 && f.top.parentId == None && f.top.childrenIds == IdsOf(f.leaves)
    && (f.top.standalone ==>
          f.leaves == [] && f.top.tokenCount <= c.leafTokens && f.top.start == b.start && f.top.end == b.end)
    && (forall i :: 0 <= i < |f.leaves| ==> GoodLeaf(c, text, b, f.top, f.leaves[i]))
    && (f.leaves != [] ==> LeavesCover(f.top, f.leaves))
    && (!f.top.standalone && f.leaves == [] ==> f.top.tokenCount == 0)
  }

  ghost predicate GoodLeaf(c: Config, text: string, b: Block, parent: Chunk, leaf: Chunk) {
    && Named(c, text, b, leaf) && parent.start <= leaf.start && leaf.end <= parent.end
    && leaf.level == 1 && leaf.parentId == Some(parent.id) && leaf.childrenIds == [] && !leaf.standalone
  }

  /** From the parent's first character to its last, each leaf starting no later than the one before it ends. */
  ghost predicate LeavesCover(parent: Chunk, leaves: seq<Chunk>) {
    && |leaves| > 0 && leaves[0].start == parent.start && leaves[|leaves| - 1].end == parent.end
    && forall i :: 0 <= i < |leaves| - 1 ==>
                     leaves[i].start <= leaves[i + 1].start <= leaves[i].end <= leaves[i + 1].end
  }

  /** The leaves are exactly the windows of the parent's own tokens. */
  ghost predicate Windowed(c: Config, text: string, f: Family)
    requires c.overlapTokens < c.leafTokens
  {
    && f.top.start <= f.top.end <= |text|
    && var slice := text[f.top.start..f.top.end];
    var spans := SpansOf(c.enc, slice, c.leafTokens, c.overlapTokens);
    && |f.leaves| == |spans|
    && forall i :: 0 <= i < |f.leaves| ==>
                     Range(f.leaves[i].start, f.leaves[i].end) ==
                     RangeOf(c.enc.decodeWithOffsets(c.enc.encode(slice)).1, |slice|, f.top.start, spans[i])
  }

  // ----- a block's families -----

  function ParentChunk(c: Config, text: string, b: Block, r: Range, leaves: seq<Chunk>): Chunk
    requires r.start <= r.end <= |text|
  {
    MakeChunk(c, text, b, r, 0, None, IdsOf(leaves), false, "parent")
  }

  /** The leaf ranges of a parent: the windows of its text, moved to where it starts. */
  function LeafRanges(c: Config, text: string, r: Range): seq<Range>
    requires c.overlapTokens < c.leafTokens && r.start <= r.end <= |text|
  {
    Shift(WindowRanges(c.enc, text[r.start..r.end], c.leafTokens, c.overlapTokens, 0), r.start)
  }

  /** A parent with its leaves. Its text must survive decoding. */
  ghost function ParentFamily(c: Config, text: string, b: Block, r: Range): Family
    requires Sound(c) && r.start <= r.end <= |text| && Decodes(c.enc, text[r.start..r.end])
  {
    LeafRangesInside(c, text, r);
    var leaves := LeafChunks(c, text, b, r, LeafRanges(c, text, r));
    Family(ParentChunk(c, text, b, r, leaves), leaves)
  }

  ghost predicate ParentsRead(c: Config, text: string, rs: seq<Range>) {
    Inside(text, rs) && forall i :: 0 <= i < |rs| ==> Decodes(c.enc, text[rs[i].start..rs[i].end])
  }

  ghost function ParentFamilies(c: Config, text: string, b: Block, rs: seq<Range>): seq<Family>
    requires Sound(c) && ParentsRead(c, text, rs)
    decreases |rs|
  {
    if rs == [] then []
    else ParentFamilies(c, text, b, rs[..|rs| - 1]) + [ParentFamily(c, text, b, rs[|rs| - 1])]
  }

  /** The ranges of the parents within a block's own text; whitespace-only ones are gone. */
  ghost function ParentRanges(c: Config, blockText: string): (rs: seq<Range>)
    requires Sound(c) && ParentsBounded(c, blockText)
    ensures Inside(blockText, rs)
  {
    var parts := FinishAll(c.enc, c.parentTokens, blockText, Refined(c.enc, c.parentTokens, blockText, c.patterns));
    BoundedRangesTheorem(c.enc, c.parentTokens, blockText, c.patterns);
    NonBlank(blockText, parts)
  }

  ghost predicate ParentsBounded(c: Config, blockText: string)
    requires Sound(c)
  {
    AllReadable(c.enc, c.parentTokens, blockText, Refined(c.enc, c.parentTokens, blockText, c.patterns))
  }

  /** When a block can be cut: the tokenizer gives back every text that has to be cut into windows. */
  ghost predicate BlockReads(c: Config, text: string, b: Block)
    requires Sound(c) && b.start <= b.end <= |text|
  {
    var blockText := text[b.start..b.end];
    Blank(blockText) || c.enc.Size(blockText) <= c.leafTokens
    || (ParentsBounded(c, blockText) && ParentsRead(c, text, Shift(ParentRanges(c, blockText), b.start)))
  }

  ghost function FamiliesOf(c: Config, text: string, b: Block): seq<Family>
    requires Sound(c) && b.start <= b.end <= |text| && BlockReads(c, text, b)
  {
    var blockText := text[b.start..b.end];
    if Blank(blockText) then []
    else if c.enc.Size(blockText) <= c.leafTokens then [Family(Standalone(c, text, b), [])]
    else ParentFamilies(c, text, b, Shift(ParentRanges(c, blockText), b.start))
  }

  ghost predicate AllRead(c: Config, text: string, blocks: seq<Block>)
    requires Sound(c)
  {
    forall i :: 0 <= i < |blocks| ==> blocks[i].start <= blocks[i].end <= |text| && BlockReads(c, text, blocks[i])
  }

  ghost function AllFamilies(c: Config, text: string, blocks: seq<Block>): seq<Family>
    requires Sound(c) && AllRead(c, text, blocks)
    decreases |blocks|
  {
    if blocks == [] then []
    else AllFamilies(c, text, blocks[..|blocks| - 1]) + FamiliesOf(c, text, blocks[|blocks| - 1])
  }

  // ----- one parent -----

  lemma ParentFamilyIs(c: Config, text: string, b: Block, r: Range)
    requires Sound(c) && r.start <= r.end <= |text| && Decodes(c.enc, text[r.start..r.end])
    ensures Inside(text, LeafRanges(c, text, r))
    ensures
      var leaves := LeafChunks(c, text, b, r, LeafRanges(c, text, r));
      ParentFamily(c, text, b, r) == Family(ParentChunk(c, text, b, r, leaves), leaves)
  {
    LeafRangesInside(c, text, r);
    hide Sound, Decodes, LeafRanges, LeafChunks, ParentChunk;
  }

  lemma {:induction false} LeafChunksIndex(c: Config, text: string, b: Block, parent: Range, leaves: seq<Range>)
    requires Inside(text, leaves)
    ensures |LeafChunks(c, text, b, parent, leaves)| == |leaves|
    ensures forall i :: 0 <= i < |leaves| ==>
                          LeafChunks(c, text, b, parent, leaves)[i] ==
                          MakeChunk(c, text, b, leaves[i], 1, Some(ParentId(c, parent)), [], false, "leaf-1")
  {
    hide MakeChunk;
    if leaves != [] {
      LeafChunksIndex(c, text, b, parent, leaves[..|leaves| - 1]);
    }
  }

  lemma LeafRangesIndex(c: Config, text: string, r: Range)
    requires c.overlapTokens < c.leafTokens && r.start <= r.end <= |text|
    ensures
      var slice := text[r.start..r.end];
      var spans := SpansOf(c.enc, slice, c.leafTokens, c.overlapTokens);
      var ranges := LeafRanges(c, text, r);
      && |ranges| == |spans|
      && forall i :: 0 <= i < |ranges| ==>
                       ranges[i] == RangeOf(c.enc.decodeWithOffsets(c.enc.encode(slice)).1, |slice|, r.start, spans[i])
  {
    hide Windows;
    var slice := text[r.start..r.end];
    var spans := SpansOf(c.enc, slice, c.leafTokens, c.overlapTokens);
    RangesOfIndex(c.enc.decodeWithOffsets(c.enc.encode(slice)).1, |slice|, 0, spans);
    ShiftIndex(WindowRanges(c.enc, slice, c.leafTokens, c.overlapTokens, 0), r.start);
  }

  /** The leaf ranges cover the parent end to end, or there are none because the parent has no tokens. */
  lemma LeafRangesChain(c: Config, text: string, r: Range)
    requires Sound(c) && r.start <= r.end <= |text| && Decodes(c.enc, text[r.start..r.end])
    ensures
      var ranges := LeafRanges(c, text, r);
      if c.enc.Size(text[r.start..r.end]) == 0 then ranges == [] else Chained(ranges, r.start, r.end)
  {
    var slice := text[r.start..r.end];
    var own := WindowRanges(c.enc, slice, c.leafTokens, c.overlapTokens, 0);
    ShiftIndex(own, r.start);
    if c.enc.Size(slice) > 0 {
      WindowRangesChain(c.enc, slice, c.leafTokens, c.overlapTokens, 0);
    }
  }

  lemma LeafRangesInside(c: Config, text: string, r: Range)
    requires Sound(c) && r.start <= r.end <= |text| && Decodes(c.enc, text[r.start..r.end])
    ensures Inside(text, LeafRanges(c, text, r))
  {
    hide Lawful, Decodes, LeafRanges;
    LeafRangesChain(c, text, r);
  }

  /** Where a family sits in its block, and how large a parent is. */
  ghost predicate FamilyOf(c: Config, text: string, b: Block, f: Family)
    requires Sound(c)
  {
    && GoodFamily(c, text, b, f)
    && (!f.top.standalone ==>
          && Windowed(c, text, f)
          && b.end <= |text|
          && var blockText := text[b.start..b.end];
          Bounded(
            c.enc, c.parentTokens, blockText, Refined(c.enc, c.parentTokens, blockText, c.patterns),
            Range(f.top.start - b.start, f.top.end - b.start)))
  }

  lemma StandaloneGood(c: Config, text: string, b: Block)
    requires Sound(c) && b.start < b.end <= |text| && !Blank(text[b.start..b.end])
    requires c.enc.Size(text[b.start..b.end]) <= c.leafTokens
    ensures FamilyOf(c, text, b, Family(Standalone(c, text, b), []))
  {
    hide Sound, Blank;
  }

  lemma LeafGood(c: Config, text: string, b: Block, r: Range, parent: Chunk, leaf: Range)
    requires b.start <= r.start <= leaf.start <= leaf.end <= r.end <= b.end <= |text|
    requires parent.start == r.start && parent.end == r.end && parent.id == ParentId(c, r)
    ensures GoodLeaf(c, text, b, parent, MakeChunk(c, text, b, leaf, 1, Some(ParentId(c, r)), [], false, "leaf-1"))
  {
    hide Count;
  }

  lemma LeavesGood(c: Config, text: string, b: Block, r: Range, rs: seq<Range>)
    requires b.start <= r.start < r.end <= b.end <= |text|
    requires Inside(text, rs) && Chained(rs, r.start, r.end)
    ensures
      var leaves := LeafChunks(c, text, b, r, rs);
      var parent := ParentChunk(c, text, b, r, leaves);
      LeavesCover(parent, leaves) && forall i :: 0 <= i < |leaves| ==> GoodLeaf(c, text, b, parent, leaves[i])
  {
    hide Count, LeafChunks, GoodLeaf, IdsOf;
    LeafChunksIndex(c, text, b, r, rs);
    var leaves := LeafChunks(c, text, b, r, rs);
    var parent := ParentChunk(c, text, b, r, leaves);
    forall i | 0 <= i < |leaves|
      ensures leaves[i].start == rs[i].start && leaves[i].end == rs[i].end && GoodLeaf(c, text, b, parent, leaves[i])
    {
      LeafGood(c, text, b, r, parent, rs[i]);
    }
  }

  lemma ParentGood(c: Config, text: string, b: Block, r: Range)
    requires Sound(c) && b.start <= r.start < r.end <= b.end <= |text|
    requires !Blank(text[r.start..r.end]) && Decodes(c.enc, text[r.start..r.end])
    ensures var f := ParentFamily(c, text, b, r); GoodFamily(c, text, b, f) && Windowed(c, text, f)
    ensures ParentFamily(c, text, b, r).top.start == r.start && ParentFamily(c, text, b, r).top.end == r.end
    ensures !ParentFamily(c, text, b, r).top.standalone
  {
    ParentWindowed(c, text, b, r);
    assert c.overlapTokens < c.leafTokens;
    hide Sound, Lawful, Blank, SpansOf, Decodes, LeafRanges, Count, LeavesCover, GoodLeaf, Chained, Inside, Windowed;
    hide ParentFamily;
    LeafRangesChain(c, text, r);
    ParentFamilyIs(c, text, b, r);
    var rs := LeafRanges(c, text, r);
    LeafChunksIndex(c, text, b, r, rs);
    if c.enc.Size(text[r.start..r.end]) > 0 {
      LeavesGood(c, text, b, r, rs);
    }
  }

  lemma ParentWindowed(c: Config, text: string, b: Block, r: Range)
    requires Sound(c) && r.start <= r.end <= |text| && Decodes(c.enc, text[r.start..r.end])
    ensures c.overlapTokens < c.leafTokens && Windowed(c, text, ParentFamily(c, text, b, r))
  {
    LeafRangesIndex(c, text, r);
    ParentFamilyIs(c, text, b, r);
    LeafChunksIndex(c, text, b, r, LeafRanges(c, text, r));
    hide Sound, Decodes, SpansOf, LeafRanges, LeafChunks, ParentFamily, Count, IdsOf;
  }

  // ----- one block -----

  lemma {:induction false} ParentFamiliesIndex(c: Config, text: string, b: Block, rs: seq<Range>)
    requires Sound(c) && ParentsRead(c, text, rs)
    ensures |ParentFamilies(c, text, b, rs)| == |rs|
    ensures forall i :: 0 <= i < |rs| ==> ParentFamilies(c, text, b, rs)[i] == ParentFamily(c, text, b, rs[i])
    decreases |rs|
  {
    hide Sound, ParentFamily;
    if rs != [] {
      ParentFamiliesIndex(c, text, b, rs[..|rs| - 1]);
    }
  }

  lemma {:induction false} TopRangesIndex(fs: seq<Family>)
    ensures |TopRanges(fs)| == |fs|
    ensures forall i :: 0 <= i < |fs| ==> TopRanges(fs)[i] == Range(fs[i].top.start, fs[i].top.end)
  {
    if fs != [] {
      TopRangesIndex(fs[..|fs| - 1]);
    }
  }

  /** One range of a block, moved to where it lies in the text, makes a family of that block. */
  lemma ParentOfBlock(c: Config, text: string, b: Block, r: Range)
    requires Sound(c) && b.start < b.end <= |text| && r.start < r.end <= b.end - b.start
    requires
      var blockText := text[b.start..b.end];
      !Blank(Slice(blockText, r))
      && Bounded(c.enc, c.parentTokens, blockText, Refined(c.enc, c.parentTokens, blockText, c.patterns), r)
    requires Decodes(c.enc, text[b.start + r.start..b.start + r.end])
    ensures
      var f := ParentFamily(c, text, b, Range(b.start + r.start, b.start + r.end));
      FamilyOf(c, text, b, f) && f.top.start == b.start + r.start && f.top.end == b.start + r.end
  {
    hide Sound, Decodes, Bounded, Refined, ParentFamily, Blank, GoodFamily, Windowed;
    SliceOfSlice(text, b.start, b.end, r.start, r.end);
    ParentGood(c, text, b, Range(b.start + r.start, b.start + r.end));
  }

  lemma ParentRangesGood(c: Config, blockText: string)
    requires Sound(c) && ParentsBounded(c, blockText)
    ensures
      var rs := ParentRanges(c, blockText);
      && Tiles(blockText, rs, 0, |blockText|)
      && forall i :: 0 <= i < |rs| ==>
                       && rs[i].start < rs[i].end <= |blockText| && !Blank(Slice(blockText, rs[i]))
                       && Bounded(c.enc, c.parentTokens, blockText,
                                  Refined(c.enc, c.parentTokens, blockText, c.patterns), rs[i])
  {
    BoundedRangesTheorem(c.enc, c.parentTokens, blockText, c.patterns);
  }

  lemma MovedParents(c: Config, text: string, b: Block, rs: seq<Range>, i: nat)
    requires Sound(c) && b.start < b.end <= |text| && Inside(text, Shift(rs, b.start))
    requires ParentsRead(c, text, Shift(rs, b.start))
    requires i < |rs| && rs[i].start < rs[i].end <= b.end - b.start
    requires
      var blockText := text[b.start..b.end];
      !Blank(Slice(blockText, rs[i]))
      && Bounded(c.enc, c.parentTokens, blockText, Refined(c.enc, c.parentTokens, blockText, c.patterns), rs[i])
    ensures
      var moved := Shift(rs, b.start);
      var fs := ParentFamilies(c, text, b, moved);
      && |fs| == |moved| == |rs| && FamilyOf(c, text, b, fs[i])
      && Range(fs[i].top.start, fs[i].top.end) == moved[i]
  {
    hide Sound, Decodes, Bounded, Refined, ParentFamily, Blank, FamilyOf, Shift, ParentFamilies;
    ShiftIndex(rs, b.start);
    ParentFamiliesIndex(c, text, b, Shift(rs, b.start));
    ParentOfBlock(c, text, b, rs[i]);
  }

  /** The parents of a block: good families, of bounded size, that tile the block. */
  lemma ParentsOfBlock(c: Config, text: string, b: Block)
    requires Sound(c) && b.start < b.end <= |text|
    requires ParentsBounded(c, text[b.start..b.end])
    requires ParentsRead(c, text, Shift(ParentRanges(c, text[b.start..b.end]), b.start))
    ensures
      var fs := ParentFamilies(c, text, b, Shift(ParentRanges(c, text[b.start..b.end]), b.start));
      && Tiles(text, TopRanges(fs), b.start, b.end)
      && forall i :: 0 <= i < |fs| ==> FamilyOf(c, text, b, fs[i])
  {
    hide *;
    var blockText := text[b.start..b.end];
    var rs := ParentRanges(c, blockText);
    ParentRangesGood(c, blockText);
    var moved := Shift(rs, b.start);
    ParentsInside(c, text, moved);
    var fs := ParentFamilies(c, text, b, moved);
    ParentFamiliesIndex(c, text, b, moved);
    ShiftIndex(rs, b.start);
    forall i | 0 <= i < |fs|
      ensures FamilyOf(c, text, b, fs[i]) && Range(fs[i].top.start, fs[i].top.end) == moved[i]
    {
      MovedParents(c, text, b, rs, i);
    }
    TopRangesIndex(fs);
    assert TopRanges(fs) == moved;
    ShiftTiles(text, b.start, b.end, rs, 0, |blockText|);
  }

  lemma ParentsInside(c: Config, text: string, rs: seq<Range>)
    requires ParentsRead(c, text, rs)
    ensures Inside(text, rs)
  {
  }

  lemma FamiliesOfBlock(c: Config, text: string, b: Block)
    requires Sound(c) && b.start < b.end <= |text| && BlockReads(c, text, b) && !Blank(text[b.start..b.end])
    ensures
      var fs := FamiliesOf(c, text, b);
      && Tiles(text, TopRanges(fs), b.start, b.end)
      && forall i :: 0 <= i < |fs| ==> FamilyOf(c, text, b, fs[i])
  {
    hide Sound, FamilyOf, ParentRanges, ParentFamilies, ParentsBounded, ParentsRead;
    var fs := FamiliesOf(c, text, b);
    if c.enc.Size(text[b.start..b.end]) <= c.leafTokens {
      StandaloneGood(c, text, b);
      TopRangesIndex(fs);
      assert TopRanges(fs) == [Range(b.start, b.end)] && TopRanges(fs)[1..] == [];
      assert text[b.start..b.start] == [] && text[b.end..b.end] == [];
    } else {
      ParentsOfBlock(c, text, b);
    }
  }

  // ----- all blocks -----

  /** Each family belongs to a block, and lies in its context. */
  ghost predicate Belongs(c: Config, text: string, events: Events, f: Family)
    requires Sound(c)
  {
    exists b :: GoodBlock(c.profile, text, events, b, |text|) && FamilyOf(c, text, b, f)
  }

  lemma {:induction false} TilesInit(text: string, rs: seq<Range>, a: nat, b: nat)
    requires b <= |text| && rs != [] && Tiles(text, rs, a, b)
    ensures
      var last := rs[|rs| - 1];
      last.start <= last.end <= b && Tiles(text, rs[..|rs| - 1], a, last.start) && Blank(text[last.end..b])
  {
    if |rs| == 1 {
      assert rs[1..] == [];
    } else {
      var tail := rs[1..];
      TilesInit(text, tail, rs[0].end, b);
      assert tail[|tail| - 1] == rs[|rs| - 1];
      assert rs[..|rs| - 1][1..] == tail[..|tail| - 1];
      TilesOrdered(text, tail[..|tail| - 1], rs[0].end, tail[|tail| - 1].start);
      TilesBounds(text, tail[..|tail| - 1], rs[0].end, tail[|tail| - 1].start);
    }
  }

  lemma {:induction false} TilesBounds(text: string, rs: seq<Range>, a: nat, b: nat)
    requires b <= |text| && Tiles(text, rs, a, b)
    ensures a <= b
  {
    if rs != [] {
      TilesBounds(text, rs[1..], rs[0].end, b);
    }
  }

  lemma {:induction false} TopRangesConcat(x: seq<Family>, y: seq<Family>)
    ensures TopRanges(x + y) == TopRanges(x) + TopRanges(y)
  {
    TopRangesIndex(x + y);
    TopRangesIndex(x);
    TopRangesIndex(y);
  }

  /** The families of all blocks tile what the blocks tile. */
  lemma {:induction false} FamiliesTheorem(c: Config, text: string, events: Events, blocks: seq<Block>, upTo: nat)
    requires Sound(c) && AllRead(c, text, blocks) && upTo <= |text|
    requires Tiles(text, Blocks.RangesOf(blocks), 0, upTo)
    requires forall i :: 0 <= i < |blocks| ==> GoodBlock(c.profile, text, events, blocks[i], |text|)
    ensures Tiles(text, TopRanges(AllFamilies(c, text, blocks)), 0, upTo)
    ensures forall i :: 0 <= i < |AllFamilies(c, text, blocks)| ==>
                          Belongs(c, text, events, AllFamilies(c, text, blocks)[i])
    decreases |blocks|
  {
    hide Sound, InContext, FamilyOf, FamiliesOf, BlockReads, Blank, TopRanges, Tiles;
    var fs := AllFamilies(c, text, blocks);
    if blocks == [] {
      TopRangesIndex(fs);
      assert TopRanges(fs) == Blocks.RangesOf(blocks);
    } else {
      var init, b := blocks[..|blocks| - 1], blocks[|blocks| - 1];
      var ranges := Blocks.RangesOf(blocks);
      TilesInit(text, ranges, 0, upTo);
      assert ranges[..|ranges| - 1] == Blocks.RangesOf(init);
      assert GoodBlock(c.profile, text, events, b, |text|);
      FamiliesTheorem(c, text, events, init, b.start);
      FamiliesOfBlock(c, text, b);
      var before, own := AllFamilies(c, text, init), FamiliesOf(c, text, b);
      TopRangesConcat(before, own);
      TilesConcat(text, TopRanges(before), TopRanges(own), 0, b.start, b.end);
      TrailingBlank(text, TopRanges(fs), b.end, upTo);
      assert forall i :: 0 <= i < |own| ==> Belongs(c, text, events, own[i]);
    }
  }

  lemma TrailingBlank(text: string, rs: seq<Range>, m: nat, b: nat)
    requires m <= b <= |text| && Tiles(text, rs, 0, m) && Blank(text[m..b])
    ensures Tiles(text, rs, 0, b)
  {
    TilesConcat(text, rs, [], 0, m, b);
    assert rs + [] == rs;
  }

  // ----- what a chunk list promises -----

  /** A chunk that retrieval can return: it has nothing below it. */
  predicate Childless(k: Chunk) { k.childrenIds == [] }

  lemma {:induction false} MemberOfFamily(fs: seq<Family>, i: nat, k: Chunk)
    requires i < |fs| && (k == fs[i].top || k in fs[i].leaves)
    ensures k in Members(fs)
  {
    if i < |fs| - 1 {
      MemberOfFamily(fs[..|fs| - 1], i, k);
    }
  }

  lemma {:induction false} FamilyOfMember(fs: seq<Family>, k: Chunk) returns (i: nat)
    requires k in Members(fs)
    ensures i < |fs| && (k == fs[i].top || k in fs[i].leaves)
  {
    var init := fs[..|fs| - 1];
    if k in Members(init) {
      i := FamilyOfMember(init, k);
    } else {
      i := |fs| - 1;
    }
  }

  lemma {:induction false} IdsOfLength(chunks: seq<Chunk>)
    ensures |IdsOf(chunks)| == |chunks|
  {
    if chunks != [] {
      IdsOfLength(chunks[..|chunks| - 1]);
    }
  }

  /** Leaves that cover a parent leave no character of it out. */
  lemma {:induction false} LeafAt(parent: Chunk, leaves: seq<Chunk>, n: nat, i: nat) returns (j: nat)
    requires LeavesCover(parent, leaves) && n < |leaves| && parent.start <= i < leaves[n].end
    ensures j < |leaves| && leaves[j].start <= i < leaves[j].end
  {
    if leaves[n].start <= i {
      j := n;
    } else {
      j := LeafAt(parent, leaves, n - 1, i);
    }
  }

  /** Nothing is lost: every character that is not whitespace lies in a childless chunk. */
  lemma NothingLost(c: Config, text: string, events: Events, fs: seq<Family>, i: nat)
    requires Sound(c) && Tiles(text, TopRanges(fs), 0, |text|)
    requires forall n :: 0 <= n < |fs| ==> Belongs(c, text, events, fs[n])
    requires i < |text| && !IsSpace(text[i])
    ensures InSomeChunk(fs, i)
  {
    hide Sound, Tiles, Members, Belongs, InSomeChunk, TopRanges;
    TilesCover(text, TopRanges(fs), 0, |text|, i);
    TopRangesIndex(fs);
    var n :| 0 <= n < |fs| && TopRanges(fs)[n].start <= i < TopRanges(fs)[n].end;
    FamilyCovers(c, text, events, fs, n, i);
  }

  /** Every character of a family lies in a childless chunk of it. */
  lemma FamilyCovers(c: Config, text: string, events: Events, fs: seq<Family>, n: nat, i: nat)
    requires Sound(c) && n < |fs| && Belongs(c, text, events, fs[n])
    requires fs[n].top.start <= i < fs[n].top.end
    ensures InSomeChunk(fs, i)
  {
    hide Sound, Lawful, Windowed, Bounded, Refined, GoodLeaf, Named, Members, GoodBlock, LeavesCover, Blank;
    var f := fs[n];
    var b :| GoodBlock(c.profile, text, events, b, |text|) && FamilyOf(c, text, b, f);
    IdsOfLength(f.leaves);
    if f.leaves == [] {
      MemberOfFamily(fs, n, f.top);
    } else {
      LeavesEnd(f.top, f.leaves);
      var j := LeafAt(f.top, f.leaves, |f.leaves| - 1, i);
      assert GoodLeaf(c, text, b, f.top, f.leaves[j]);
      LeafChildless(c, text, b, f.top, f.leaves[j]);
      MemberOfFamily(fs, n, f.leaves[j]);
    }
  }

  lemma LeavesEnd(parent: Chunk, leaves: seq<Chunk>)
    requires LeavesCover(parent, leaves)
    ensures |leaves| > 0 && leaves[|leaves| - 1].end == parent.end
  {
  }

  lemma LeafChildless(c: Config, text: string, b: Block, parent: Chunk, leaf: Chunk)
    requires GoodLeaf(c, text, b, parent, leaf)
    ensures Childless(leaf)
  {
  }

  /** Every chunk is the slice it names, lies in one context, and has no hard boundary strictly inside it. */
  lemma ChunksStayInContext(c: Config, text: string, events: Events, fs: seq<Family>, k: Chunk)
    requires Sound(c) && k in Members(fs)
    requires forall n :: 0 <= n < |fs| ==> Belongs(c, text, events, fs[n])
    ensures k.start <= k.end <= |text| && k.text == text[k.start..k.end] && k.tokenCount == c.enc.Size(k.text)
    ensures forall p :: k.start < p < k.end ==> p !in events
    ensures exists b :: GoodBlock(c.profile, text, events, b, |text|) && Named(c, text, b, k)
  {
    hide Sound, Lawful, Windowed, Bounded, Refined, Members, Blank, LeavesCover, ContextBelow;
    var n := FamilyOfMember(fs, k);
    var f := fs[n];
    var b :| GoodBlock(c.profile, text, events, b, |text|) && FamilyOf(c, text, b, f);
    if k != f.top {
      var j :| 0 <= j < |f.leaves| && f.leaves[j] == k;
      assert GoodLeaf(c, text, b, f.top, f.leaves[j]);
    }
    assert Named(c, text, b, k);
  }

  /** Standalone chunks and parents follow one another in the order of the text without sharing a character. */
  lemma TopsInOrder(text: string, fs: seq<Family>)
    requires Tiles(text, TopRanges(fs), 0, |text|)
    ensures forall i, j :: 0 <= i < j < |fs| ==> fs[i].top.end <= fs[j].top.start
  {
    hide *;
    var rs := TopRanges(fs);
    TilesOrdered(text, rs, 0, |text|);
    TopRangesIndex(fs);
    assert forall i, j :: 0 <= i < j < |fs| ==> rs[i].end <= rs[j].start;
  }

  // ----- the chunker -----

  function FamilyMembers(f: Family): seq<Chunk> { [f.top] + f.leaves }

  lemma MembersNext(fs: seq<Family>, f: Family)
    ensures Members(fs + [f]) == Members(fs) + FamilyMembers(f)
  {
    assert (fs + [f])[..|fs|] == fs;
  }

  lemma {:induction false} MembersConcat(x: seq<Family>, y: seq<Family>)
    ensures Members(x + y) == Members(x) + Members(y)
  {
    if y == [] {
      assert x + y == x;
    } else {
      hide Members;
      var init, f := y[..|y| - 1], y[|y| - 1];
      MembersConcat(x, init);
      MembersNext(x + init, f);
      MembersNext(init, f);
      assert y == init + [f];
      assert x + y == (x + init) + [f];
    }
  }

  lemma LeavesNext(c: Config, text: string, b: Block, parent: Range, leaves: seq<Range>, i: nat)
    requires i < |leaves| && Inside(text, leaves)
    ensures Inside(text, leaves[..i + 1]) && Inside(text, leaves[..i])
    ensures LeafChunks(c, text, b, parent, leaves[..i + 1]) ==
            LeafChunks(c, text, b, parent, leaves[..i])
            + [MakeChunk(c, text, b, leaves[i], 1, Some(ParentId(c, parent)), [], false, "leaf-1")]
  {
    hide MakeChunk;
    assert leaves[..i + 1][..i] == leaves[..i];
  }

  /** One parent and its leaves, or the tokenizer failure its text raises. */
  method BuildParent(c: Config, text: string, b: Block, r: Range) returns (result: Result<seq<Chunk>, Failure>)
    requires Sound(c) && r.start <= r.end <= |text|
    ensures result.Ok? <==> Decodes(c.enc, text[r.start..r.end])
    ensures result.Ok? ==> result.value == FamilyMembers(ParentFamily(c, text, b, r))
  {
    assert c.overlapTokens < c.leafTokens;
    var parentText := text[r.start..r.end];
    hide Sound, Decodes, WindowRanges;
    var windows := TokenWindows(parentText, c.leafTokens, c.overlapTokens, c.enc, 0);
    if windows.Err? {
      return Err(windows.error);
    }
    ParentFamilyIs(c, text, b, r);
    ShiftIndex(windows.value, r.start);
    ghost var ranges := LeafRanges(c, text, r);
    var leaves: seq<Chunk> := [];
    hide LeafRanges, ParentFamily, MakeChunk, Shift, IdsOf;
    for i := 0 to |windows.value|
      invariant Inside(text, ranges[..i]) && leaves == LeafChunks(c, text, b, r, ranges[..i])
    {
      LeavesNext(c, text, b, r, ranges, i);
      var leaf := Range(r.start + windows.value[i].start, r.start + windows.value[i].end);
      assert leaf == ranges[i];
      leaves := leaves + [MakeChunk(c, text, b, leaf, 1, Some(ParentId(c, r)), [], false, "leaf-1")];
    }
    assert ranges[..|ranges|] == ranges;
    result := Ok([ParentChunk(c, text, b, r, leaves)] + leaves);
  }

  lemma ParentsNext(c: Config, text: string, b: Block, rs: seq<Range>, i: nat)
    requires Sound(c) && i < |rs| && Inside(text, rs) && ParentsRead(c, text, rs[..i])
    ensures Decodes(c.enc, text[rs[i].start..rs[i].end]) <==> ParentsRead(c, text, rs[..i + 1])
    ensures Decodes(c.enc, text[rs[i].start..rs[i].end]) ==>
              ParentFamilies(c, text, b, rs[..i + 1]) ==
              ParentFamilies(c, text, b, rs[..i]) + [ParentFamily(c, text, b, rs[i])]
  {
    hide Sound, Decodes, ParentFamily;
    assert rs[..i + 1][..i] == rs[..i];
    assert rs[..i + 1][i] == rs[i];
  }

  method BuildParents(c: Config, text: string, b: Block, rs: seq<Range>) returns (result: Result<seq<Chunk>, Failure>)
    requires Sound(c) && Inside(text, rs)
    ensures result.Ok? <==> ParentsRead(c, text, rs)
    ensures result.Ok? ==> result.value == Members(ParentFamilies(c, text, b, rs))
  {
    var chunks: seq<Chunk> := [];
    hide Sound, Decodes, ParentFamily, FamilyMembers, Members, ParentFamilies;
    NoParents(c, text, b);
    for i := 0 to |rs|
      invariant ParentsRead(c, text, rs[..i]) && chunks == Members(ParentFamilies(c, text, b, rs[..i]))
    {
      ParentsNext(c, text, b, rs, i);
      var family := BuildParent(c, text, b, rs[i]);
      if family.Err? {
        return Err(family.error);
      }
      MembersNext(ParentFamilies(c, text, b, rs[..i]), ParentFamily(c, text, b, rs[i]));
      chunks := chunks + family.value;
    }
    assert rs[..|rs|] == rs;
    result := Ok(chunks);
  }

  lemma NoParents(c: Config, text: string, b: Block)
    requires Sound(c)
    ensures ParentsRead(c, text, []) && Members(ParentFamilies(c, text, b, [])) == []
  {
  }

  lemma ShortBlock(c: Config, text: string, b: Block)
    requires Sound(c) && b.start <= b.end <= |text|
    ensures Blank(text[b.start..b.end]) ==> BlockReads(c, text, b) && Members(FamiliesOf(c, text, b)) == []
    ensures !Blank(text[b.start..b.end]) && c.enc.Size(text[b.start..b.end]) <= c.leafTokens ==>
              BlockReads(c, text, b) && Members(FamiliesOf(c, text, b)) == [Standalone(c, text, b)]
  {
    hide Sound, Blank, Standalone, ParentRanges, ParentFamilies;
    MembersNext([], Family(Standalone(c, text, b), []));
    assert [] + [Family(Standalone(c, text, b), [])] == [Family(Standalone(c, text, b), [])];
  }

  lemma LongBlock(c: Config, text: string, b: Block)
    requires Sound(c) && b.start <= b.end <= |text|
    requires !Blank(text[b.start..b.end]) && c.enc.Size(text[b.start..b.end]) > c.leafTokens
    ensures BlockReads(c, text, b) ==> ParentsBounded(c, text[b.start..b.end])
    ensures ParentsBounded(c, text[b.start..b.end]) ==>
              var rs := Shift(ParentRanges(c, text[b.start..b.end]), b.start);
              && Inside(text, rs)
              && (BlockReads(c, text, b) <==> ParentsRead(c, text, rs))
              && (BlockReads(c, text, b) ==> FamiliesOf(c, text, b) == ParentFamilies(c, text, b, rs))
  {
    hide Sound, Blank, ParentRanges, ParentFamilies, ParentsRead, ParentsBounded;
    if ParentsBounded(c, text[b.start..b.end]) {
      ShiftIndex(ParentRanges(c, text[b.start..b.end]), b.start);
    }
  }

  lemma RangesAreParents(c: Config, blockText: string, rs: seq<Range>)
    requires Sound(c) && ParentsBounded(c, blockText)
    requires
      var parts := FinishAll(c.enc, c.parentTokens, blockText, Refined(c.enc, c.parentTokens, blockText, c.patterns));
      Inside(blockText, parts) && rs == NonBlank(blockText, parts)
    ensures rs == ParentRanges(c, blockText)
  {
  }

  method BuildBlock(c: Config, text: string, b: Block) returns (result: Result<seq<Chunk>, Failure>)
    requires Sound(c) && b.start <= b.end <= |text|
    ensures result.Ok? <==> BlockReads(c, text, b)
    ensures result.Ok? ==> result.value == Members(FamiliesOf(c, text, b))
  {
    var blockText := text[b.start..b.end];
    ShortBlock(c, text, b);
    hide BlockReads, FamiliesOf, Refined, AllReadable, Decodes, Blank, ParentRanges, FinishAll, NonBlank, Members,
         Standalone;
    if Blank(blockText) {
      return Ok([]);
    }
    if c.enc.Size(blockText) <= c.leafTokens {
      return Ok([Standalone(c, text, b)]);
    }
    LongBlock(c, text, b);
    var ranges := BoundedRanges(blockText, c.parentTokens, c.patterns, c.enc);
    if ranges.Err? {
      return Err(ranges.error);
    }
    RangesAreParents(c, blockText, ranges.value);
    result := BuildParents(c, text, b, Shift(ranges.value, b.start));
  }

  lemma BlocksNext(c: Config, text: string, blocks: seq<Block>, i: nat)
    requires Sound(c) && i < |blocks| && AllRead(c, text, blocks[..i]) && blocks[i].start <= blocks[i].end <= |text|
    ensures BlockReads(c, text, blocks[i]) <==> AllRead(c, text, blocks[..i + 1])
    ensures BlockReads(c, text, blocks[i]) ==>
              AllFamilies(c, text, blocks[..i + 1]) ==
              AllFamilies(c, text, blocks[..i]) + FamiliesOf(c, text, blocks[i])
  {
    hide Sound, BlockReads, FamiliesOf;
    assert blocks[..i + 1][..i] == blocks[..i];
    assert blocks[..i + 1][i] == blocks[i];
  }

  lemma NoBlocks(c: Config, text: string)
    requires Sound(c)
    ensures AllRead(c, text, []) && Members(AllFamilies(c, text, [])) == []
  {
  }

  /**
    The chunks of a text are the members of the families of its blocks; there are none where the tokenizer loses text.
   */
  ghost predicate Chunked(c: Config, text: string, blocks: seq<Block>, result: Result<seq<Chunk>, Failure>)
    requires Sound(c)
  {
    && Structured(c.profile, text, EventsOf(c.profile, c.rules, text), blocks, |text|)
    && (result.Ok? <==> AllRead(c, text, blocks))
    && (result.Ok? ==> result.value == Members(AllFamilies(c, text, blocks)))
  }

  method BuildChunks(c: Config, text: string) returns (result: Result<seq<Chunk>, Failure>)
    requires Sound(c)
    ensures exists blocks :: Chunked(c, text, blocks, result)
  {
    var found := StructuralBlocks(text, c.profile, c.rules);
    ghost var events := EventsOf(c.profile, c.rules, text);
    var chunks: seq<Chunk> := [];
    hide Sound, BlockReads, FamiliesOf, AllFamilies, EventsOf, Members, InContext, Tiles, AllRead;
    NoBlocks(c, text);
    for i := 0 to |found|
      invariant AllRead(c, text, found[..i]) && chunks == Members(AllFamilies(c, text, found[..i]))
    {
      assert GoodBlock(c.profile, text, events, found[i], |text|);
      BlocksNext(c, text, found, i);
      var own := BuildBlock(c, text, found[i]);
      if own.Err? {
        NotAllRead(c, text, found, i);
        assert Chunked(c, text, found, Err(own.error));
        return Err(own.error);
      }
      MembersConcat(AllFamilies(c, text, found[..i]), FamiliesOf(c, text, found[i]));
      chunks := chunks + own.value;
    }
    assert found[..|found|] == found;
    assert Chunked(c, text, found, Ok(chunks));
    result := Ok(chunks);
  }

  lemma NotAllRead(c: Config, text: string, blocks: seq<Block>, i: nat)
    requires Sound(c) && i < |blocks| && blocks[i].start <= blocks[i].end <= |text| && !BlockReads(c, text, blocks[i])
    ensures !AllRead(c, text, blocks)
  {
  }

  /**
    What a list of chunks promises: tops tile the text in order, nothing but whitespace is lost, and each keeps to its
    context.
   */
  ghost predicate Promised(c: Config, text: string, fs: seq<Family>)
    requires Sound(c)
  {
    && Tiles(text, TopRanges(fs), 0, |text|)
    && (forall i :: 0 <= i < |fs| ==> Belongs(c, text, EventsOf(c.profile, c.rules, text), fs[i]))
    && (forall i :: 0 <= i < |text| && !IsSpace(text[i]) ==> InSomeChunk(fs, i))
  }

  ghost predicate InSomeChunk(fs: seq<Family>, i: nat) {
    exists k :: k in Members(fs) && Childless(k) && k.start <= i < k.end
  }

  /** End to end: whatever the chunker returns is a list of families that keeps every promise. */
  lemma ChunksTheorem(c: Config, text: string, blocks: seq<Block>, chunks: seq<Chunk>)
    requires Sound(c) && Chunked(c, text, blocks, Ok(chunks))
    ensures AllRead(c, text, blocks)
    ensures var fs := AllFamilies(c, text, blocks); chunks == Members(fs) && Promised(c, text, fs)
  {
    var events := EventsOf(c.profile, c.rules, text);
    FamiliesTheorem(c, text, events, blocks, |text|);
    hide *;
    var fs := AllFamilies(c, text, blocks);
    forall i | 0 <= i < |text| && !IsSpace(text[i])
      ensures InSomeChunk(fs, i)
    {
      NothingLost(c, text, events, fs, i);
    }
    Promises(c, text, fs);
  }

  lemma Promises(c: Config, text: string, fs: seq<Family>)
    requires Sound(c) && Tiles(text, TopRanges(fs), 0, |text|)
    requires forall i :: 0 <= i < |fs| ==> Belongs(c, text, EventsOf(c.profile, c.rules, text), fs[i])
    requires forall i :: 0 <= i < |text| && !IsSpace(text[i]) ==> InSomeChunk(fs, i)
    ensures Promised(c, text, fs)
  {
    hide Sound, Tiles, TopRanges, Belongs, EventsOf, InSomeChunk, IsSpace;
  }
}
