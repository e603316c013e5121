/** The chunks of a document, family by family: which stand alone, which are parents, and where their leaves lie. */
module FamilyText {
  import opened Wrappers
  import opened Text
  import opened Sublists
  import opened Tokens
  import opened Ranges
  import opened Blocks
  import opened Chunks
  import R = RangeText

  /** A block short enough to be one chunk. */
  ghost predicate StandsAlone(b: Block, f: Family) {
    && f.leaves == [] && f.top.start == b.start && f.top.end == b.end
    && f.top.standalone && f.top.level == 0 && f.top.parentId == None && f.top.childrenIds == []
  }

  ghost predicate IsLeaf(parent: Chunk, leaf: Chunk, w: Range) {
    && leaf.start == w.start && leaf.end == w.end
    && !leaf.standalone && leaf.level == 1 && leaf.parentId == Some(parent.id) && leaf.childrenIds == []
  }

  /** The leaves are the windows over the parent's tokens, in order, and the parent names them. */
  ghost predicate HasLeaves(c: Config, text: string, f: Family, ws: seq<Range>) {
    && R.Windowed(c.enc, text, Range(f.top.start, f.top.end), c.leafTokens, c.overlapTokens, ws)
    && |f.leaves| == |ws| == |f.top.childrenIds|
    && forall i :: 0 <= i < |ws| ==> IsLeaf(f.top, f.leaves[i], ws[i]) && f.top.childrenIds[i] == f.leaves[i].id
  }

  ghost predicate IsParent(c: Config, text: string, f: Family, r: Range) {
    && f.top.start == r.start && f.top.end == r.end
    && !f.top.standalone && f.top.level == 0 && f.top.parentId == None
    && !R.Lost(c.enc, text, r)
    && exists ws :: HasLeaves(c, text, f, ws)
  }

  /** A piece of a block, where it lies in the text. */
  ghost function Moved(b: Block, r: Range): Range { Range(b.start + r.start, b.start + r.end) }

  ghost predicate AreParents(c: Config, text: string, b: Block, pieces: seq<Range>, fs: seq<Family>) {
    |fs| == |pieces| && forall i :: 0 <= i < |fs| ==> IsParent(c, text, fs[i], Moved(b, pieces[i]))
  }

  /** What a block gives: itself if its tokens fit a leaf, or else a parent for each piece of it. */
  ghost predicate BlockGives(c: Config, text: string, b: Block, fs: seq<Family>) {
    && b.start <= b.end <= |text|
    && var own := text[b.start..b.end];
    if |c.enc.encode(own)| <= c.leafTokens then |fs| == 1 && StandsAlone(b, fs[0])
    else exists pieces ::
        R.PiecesTell(c.enc, c.parentTokens, own, c.patterns, pieces) && AreParents(c, text, b, pieces, fs)
  }

  /** Each top-level chunk is followed by its leaves. */
  ghost function Laid(fs: seq<Family>): seq<Chunk> {
    Concat(seq(|fs|, i requires 0 <= i < |fs| => [fs[i].top] + fs[i].leaves))
  }

  ghost predicate AllGive(c: Config, text: string, blocks: seq<Block>, families: seq<seq<Family>>) {
    |families| == |blocks| && forall i :: 0 <= i < |blocks| ==> BlockGives(c, text, blocks[i], families[i])
  }

  ghost predicate BlocksGive(
    c: Config, text: string, blocks: seq<Block>, families: seq<seq<Family>>, chunks: seq<Chunk>)
  {
    AllGive(c, text, blocks, families) && chunks == Laid(Concat(families))
  }

  // ----- one parent -----

  lemma LeafRangesAre(c: Config, text: string, r: Range)
    requires c.overlapTokens < c.leafTokens && r.start <= r.end <= |text|
    ensures LeafRanges(c, text, r) ==
            WindowRanges(c.enc, text[r.start..r.end], c.leafTokens, c.overlapTokens, r.start)
  {
    var slice := text[r.start..r.end];
    LeafRangesIndex(c, text, r);
    RangesOfIndex(
      c.enc.decodeWithOffsets(c.enc.encode(slice)).1, |slice|, r.start,
      SpansOf(c.enc, slice, c.leafTokens, c.overlapTokens));
    hide SpansOf, LeafRanges, Tokens.RangesOf;
  }

  lemma {:induction false} IdsOfIndex(chunks: seq<Chunk>)
    ensures |IdsOf(chunks)| == |chunks| && forall i :: 0 <= i < |chunks| ==> IdsOf(chunks)[i] == chunks[i].id
  {
    if chunks != [] {
      IdsOfIndex(chunks[..|chunks| - 1]);
    }
  }

  lemma ParentTells(c: Config, text: string, b: Block, r: Range)
    requires Sound(c) && r.start <= r.end <= |text| && Decodes(c.enc, text[r.start..r.end])
    ensures IsParent(c, text, ParentFamily(c, text, b, r), r)
  {
    assert Lawful(c.enc) && c.overlapTokens < c.leafTokens;
    assert !R.Lost(c.enc, text, r);
    ParentFamilyIs(c, text, b, r);
    var ws := LeafRanges(c, text, r);
    var leaves := LeafChunks(c, text, b, r, ws);
    LeafChunksIndex(c, text, b, r, ws);
    IdsOfIndex(leaves);
    hide Sound, Decodes, R.Lost, ParentFamily, LeafChunks, IdsOf, LeafRanges, Count, R.Windowed;
    LeafRangesAre(c, text, r);
    R.WindowsTell(c.enc, text, r, c.leafTokens, c.overlapTokens);
    var f := ParentFamily(c, text, b, r);
    assert HasLeaves(c, text, f, ws);
  }

  // ----- one block -----

  lemma ParentsTell(c: Config, text: string, b: Block, pieces: seq<Range>)
    requires Sound(c) && ParentsRead(c, text, Shift(pieces, b.start))
    ensures AreParents(c, text, b, pieces, ParentFamilies(c, text, b, Shift(pieces, b.start)))
  {
    var rs := Shift(pieces, b.start);
    ShiftIndex(pieces, b.start);
    ParentFamiliesIndex(c, text, b, rs);
    hide Sound, Decodes, Shift, ParentFamilies, ParentFamily, IsParent;
    var fs := ParentFamilies(c, text, b, rs);
    forall i | 0 <= i < |fs|
      ensures IsParent(c, text, fs[i], Moved(b, pieces[i]))
    {
      ParentTells(c, text, b, rs[i]);
    }
  }

  lemma BlockTells(c: Config, text: string, b: Block)
    requires Sound(c) && b.start <= b.end <= |text| && BlockReads(c, text, b) && !Blank(text[b.start..b.end])
    ensures BlockGives(c, text, b, FamiliesOf(c, text, b))
  {
    var own := text[b.start..b.end];
    if c.enc.Size(own) <= c.leafTokens {
      hide Sound, Blank, ParentRanges, ParentFamilies, ParentsBounded, ParentsRead;
    } else {
      PiecesAre(c, own);
      hide Sound, Blank, ParentFamilies, ParentsRead, ParentRanges, ParentsBounded, R.PiecesTell, AreParents;
      ParentsTell(c, text, b, ParentRanges(c, own));
    }
  }

  lemma PiecesAre(c: Config, own: string)
    requires Sound(c)
    ensures ParentsBounded(c, own) ==>
              R.PiecesTell(c.enc, c.parentTokens, own, c.patterns, ParentRanges(c, own))
  {
    if ParentsBounded(c, own) {
      R.BoundedRangesTell(c.enc, c.parentTokens, own, c.patterns);
      hide R.PiecesTell, AllReadable, Refined;
    }
  }

  // ----- all blocks -----

  lemma {:induction false} MembersLaid(fs: seq<Family>)
    ensures Members(fs) == Laid(fs)
  {
    if fs != [] {
      var init, f := fs[..|fs| - 1], fs[|fs| - 1];
      MembersLaid(init);
      var parts := seq(|init|, i requires 0 <= i < |init| => [init[i].top] + init[i].leaves);
      var part := [f.top] + f.leaves;
      ConcatNext(parts, part);
      assert seq(|fs|, i requires 0 <= i < |fs| => [fs[i].top] + fs[i].leaves) == parts + [part];
      assert Members(init) + [f.top] + f.leaves == Members(init) + part;
    }
  }

  /** The blocks as they are found. */
  ghost predicate Filled(text: string, blocks: seq<Block>) {
    forall i :: 0 <= i < |blocks| ==>
                  blocks[i].start <= blocks[i].end <= |text| && !Blank(text[blocks[i].start..blocks[i].end])
  }

  lemma AllGiveNext(
    c: Config, text: string, blocks: seq<Block>, families: seq<seq<Family>>, b: Block, fs: seq<Family>)
    requires AllGive(c, text, blocks, families) && BlockGives(c, text, b, fs)
    ensures AllGive(c, text, blocks + [b], families + [fs])
  {
    hide BlockGives;
  }

  lemma {:induction false} FamiliesTell(c: Config, text: string, blocks: seq<Block>)
    returns (families: seq<seq<Family>>)
    requires Sound(c) && AllRead(c, text, blocks) && Filled(text, blocks)
    ensures AllGive(c, text, blocks, families) && AllFamilies(c, text, blocks) == Concat(families)
  {
    hide Sound, Blank, BlockReads, FamiliesOf, BlockGives;
    if blocks == [] {
      families := [];
    } else {
      var init, b := blocks[..|blocks| - 1], blocks[|blocks| - 1];
      assert blocks == init + [b];
      assert AllRead(c, text, init) && Filled(text, init) && BlockReads(c, text, b);
      var fs := FamiliesOf(c, text, b);
      assert AllFamilies(c, text, blocks) == AllFamilies(c, text, init) + fs;
      BlockTells(c, text, b);
      hide AllRead, Filled, AllFamilies, AllGive;
      var before := FamiliesTell(c, text, init);
      ConcatNext(before, fs);
      AllGiveNext(c, text, init, before, b, fs);
      families := before + [fs];
    }
  }

  /** Some text that has to be cut into windows is lost: a range of a block that stays too long, or a parent. */
  ghost predicate BlockLost(c: Config, text: string, b: Block) {
    && b.start <= b.end <= |text|
    && var own := text[b.start..b.end];
    && |c.enc.encode(own)| > c.leafTokens
    && ((exists stages, r ::
           && R.Cascade(c.enc, c.parentTokens, own, c.patterns, stages) && r in stages[|c.patterns|]
           && !R.Short(c.enc, c.parentTokens, own, r) && R.Lost(c.enc, own, r))
        || (exists pieces, r ::
              && R.PiecesTell(c.enc, c.parentTokens, own, c.patterns, pieces) && r in pieces
              && R.Lost(c.enc, text, Moved(b, r))))
  }

  lemma BlockUnread(c: Config, text: string, b: Block)
    requires Sound(c) && b.start <= b.end <= |text| && !BlockReads(c, text, b)
    ensures BlockLost(c, text, b)
  {
    var own := text[b.start..b.end];
    hide R.Cascade, R.Lost, R.Short, R.PiecesTell, ParentRanges, ParentsRead, Blank;
    if !ParentsBounded(c, own) {
      var stages, r := R.UnreadableTells(c.enc, c.parentTokens, own, c.patterns);
    } else {
      hide ParentsBounded, Sound;
      PiecesAre(c, own);
      var r := LostParent(c, text, b, ParentRanges(c, own));
    }
  }

  lemma LostParent(c: Config, text: string, b: Block, pieces: seq<Range>) returns (r: Range)
    requires b.start <= b.end <= |text| && Inside(text[b.start..b.end], pieces)
    requires !ParentsRead(c, text, Shift(pieces, b.start))
    ensures r in pieces && R.Lost(c.enc, text, Moved(b, r))
  {
    var rs := Shift(pieces, b.start);
    ShiftIndex(pieces, b.start);
    hide Shift;
    assert Inside(text, rs);
    var i :| 0 <= i < |rs| && !Decodes(c.enc, text[rs[i].start..rs[i].end]);
    r := pieces[i];
    assert Moved(b, r) == rs[i];
  }

  /**
    All chunks of a document, in order, in terms of its blocks, the split patterns and the tokenizer; or a failure, for
    a text the tokenizer does not give back.
   */
  lemma DocumentTells(c: Config, text: string, blocks: seq<Block>, result: Result<seq<Chunk>, Failure>)
    requires Sound(c) && Chunked(c, text, blocks, result)
    ensures result.Ok? ==> exists families :: BlocksGive(c, text, blocks, families, result.value)
    ensures result.Err? ==> exists b :: b in blocks && BlockLost(c, text, b)
  {
    var events := EventsOf(c.profile, c.rules, text);
    assert forall i :: 0 <= i < |blocks| ==> GoodBlock(c.profile, text, events, blocks[i], |text|);
    hide Sound, EventsOf, Structured, BlockLost, BlockGives, BlockReads, Blank, Members, Laid;
    assert forall i :: 0 <= i < |blocks| ==>
                         blocks[i].start <= blocks[i].end <= |text| && !Blank(text[blocks[i].start..blocks[i].end]);
    hide GoodBlock;
    if result.Ok? {
      var families := FamiliesTell(c, text, blocks);
      MembersLaid(AllFamilies(c, text, blocks));
      assert BlocksGive(c, text, blocks, families, result.value);
    } else {
      var i :| 0 <= i < |blocks| && !BlockReads(c, text, blocks[i]);
      BlockUnread(c, text, blocks[i]);
    }
  }
}
