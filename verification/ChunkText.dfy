/** What every chunk says, told on the text, the line rules and the tokenizer. */
module ChunkText {
  import opened Wrappers
  import opened Text
  import opened LineText
  import opened Tokens
  import opened Ranges
  import opened Blocks
  import opened BlockText
  import opened Chunks
  import opened ChunkIds

  /** The number of the line on which a position lies, counted in line feeds. */
  ghost function LineOf(text: string, p: nat): nat
    requires p <= |text|
  {
    1 + |set i | 0 <= i < p && text[i] as int == 10|
  }

  /** The slice of the text, its tokens, its lines and its marker. */
  ghost predicate SliceTells(c: Config, text: string, k: Chunk) {
    && k.start <= k.end <= |text| && k.text == text[k.start..k.end]
    && k.tokenCount == |c.enc.encode(k.text)| && k.paragraph == c.marker(k.text)
    && k.startLine == LineOf(text, k.start)
    && k.endLine == LineOf(text, if k.start < k.end then k.end - 1 else k.start)
  }

  /** The context is that of a block around the chunk. */
  ghost predicate LiesIn(c: Config, text: string, b: Block, k: Chunk) {
    && BlockTells(c.profile, c.rules, text, b) && b.start <= k.start && k.end <= b.end
    && k.page == b.page && k.section == b.section && k.article == b.article
  }

  /** What the id is made of: where the chunk lies and what kind it is. */
  ghost predicate IdTells(c: Config, k: Chunk) {
    && k.level <= 1
    && k.id.document == c.document && k.id.checksum == c.checksum && k.id.start == k.start && k.id.end == k.end
    && k.id.kind == (if k.level == 1 then "leaf-1" else if k.standalone then "leaf-0" else "parent")
  }

  /** A chunk: its slice, its id, its context, and no hard boundary strictly inside it. */
  ghost predicate ChunkTells(c: Config, text: string, k: Chunk) {
    && SliceTells(c, text, k) && IdTells(c, k)
    && (exists b :: LiesIn(c, text, b, k))
    && (forall p :: k.start < p < k.end ==> !Hard(c.profile, c.rules, text, p))
  }

  lemma LinesCounted(text: string, p: nat)
    requires p <= |text|
    ensures LineOf(text, p) == 1 + Count(text[..p], '\n')
  {
    CountExactly(text[..p], '\n');
    assert (set i | 0 <= i < |text[..p]| && text[..p][i] == '\n') == set i | 0 <= i < p && text[i] as int == 10;
  }

  lemma NamedTells(c: Config, text: string, b: Block, k: Chunk)
    requires GoodBlock(c.profile, text, EventsOf(c.profile, c.rules, text), b, |text|) && Named(c, text, b, k)
    ensures SliceTells(c, text, k) && LiesIn(c, text, b, k)
  {
    BlockTold(c.profile, c.rules, text, b);
    hide GoodBlock, BlockTells, EventsOf, Count, LineOf;
    LinesCounted(text, k.start);
    LinesCounted(text, if k.start < k.end then k.end - 1 else k.start);
  }

  lemma IdsTell(c: Config, fs: seq<Family>, k: Chunk)
    requires k in Members(fs) && forall i :: 0 <= i < |fs| ==> Identified(c, fs[i])
    ensures IdTells(c, k)
  {
    hide Members;
    var i := FamilyOfMember(fs, k);
    assert Identified(c, fs[i]);
  }

  /** Every chunk of a document, told without events, counters or contexts. */
  lemma ChunksTell(c: Config, text: string, blocks: seq<Block>, chunks: seq<Chunk>)
    requires Sound(c) && Chunked(c, text, blocks, Ok(chunks))
    ensures forall k :: k in chunks ==> ChunkTells(c, text, k)
  {
    ChunksTheorem(c, text, blocks, chunks);
    IdsDifferByLeaves(c, text, blocks, chunks);
    var fs := AllFamilies(c, text, blocks);
    assert forall i :: 0 <= i < |fs| ==> Identified(c, fs[i]) by {
      hide Identified, LeavesLie, Chunked, Sound;
    }
    assert forall i :: 0 <= i < |fs| ==> Belongs(c, text, EventsOf(c.profile, c.rules, text), fs[i]) by {
      hide Belongs, Chunked, Sound;
    }
    hide *;
    forall k | k in chunks
      ensures ChunkTells(c, text, k)
    {
      MemberTells(c, text, fs, k);
    }
  }

  lemma MemberTells(c: Config, text: string, fs: seq<Family>, k: Chunk)
    requires Sound(c) && k in Members(fs)
    requires forall i :: 0 <= i < |fs| ==> Identified(c, fs[i])
    requires forall i :: 0 <= i < |fs| ==> Belongs(c, text, EventsOf(c.profile, c.rules, text), fs[i])
    ensures ChunkTells(c, text, k)
  {
    hide *;
    IdsTell(c, fs, k);
    ChunksStayInContext(c, text, EventsOf(c.profile, c.rules, text), fs, k);
    var b :| GoodBlock(c.profile, text, EventsOf(c.profile, c.rules, text), b, |text|) && Named(c, text, b, k);
    NamedTells(c, text, b, k);
    NothingHardInside(c, text, k);
    ChunkFrom(c, text, b, k);
  }

  lemma NothingHardInside(c: Config, text: string, k: Chunk)
    requires forall p :: k.start < p < k.end ==> p !in EventsOf(c.profile, c.rules, text)
    ensures forall p :: k.start < p < k.end ==> !Hard(c.profile, c.rules, text, p)
  {
    hide EventsOf, Hard;
    forall p | k.start < p < k.end
      ensures !Hard(c.profile, c.rules, text, p)
    {
      EventExactly(c.profile, c.rules, text, p);
    }
  }

  lemma ChunkFrom(c: Config, text: string, b: Block, k: Chunk)
    requires SliceTells(c, text, k) && IdTells(c, k) && LiesIn(c, text, b, k)
    requires forall p :: k.start < p < k.end ==> !Hard(c.profile, c.rules, text, p)
    ensures ChunkTells(c, text, k)
  {
    hide SliceTells, IdTells, LiesIn, Hard;
  }
}
