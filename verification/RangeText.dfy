/** The bounded ranges of a text, pattern by pattern and window by window. */
module RangeText {
  import opened Text
  import opened LineText
  import opened Sublists
  import opened Tokens
  import opened Ranges

  // ----- one pattern after the other -----

  ghost predicate Short(enc: Encoding, limit: nat, text: string, r: Range) {
    r.start <= r.end <= |text| && |enc.encode(text[r.start..r.end])| <= limit
  }

  /** What a pattern makes of a range: the range itself if it is short enough. */
  ghost predicate Cuts(enc: Encoding, limit: nat, text: string, r: Range, pattern: Pattern, part: seq<Range>) {
    && r.start <= r.end <= |text|
    && if Short(enc, limit, text, r) then part == [r] else CutUp(enc, limit, text, r, pattern, part)
  }

  ghost predicate CutsAll(
    enc: Encoding, limit: nat, text: string, rs: seq<Range>, pattern: Pattern, parts: seq<seq<Range>>)
  {
    |parts| == |rs| && forall j :: 0 <= j < |rs| ==> Cuts(enc, limit, text, rs[j], pattern, parts[j])
  }

  /** Every range is cut where it is, and nothing else happens. */
  ghost predicate Stage(
    enc: Encoding, limit: nat, text: string, pattern: Pattern, before: seq<Range>, after: seq<Range>)
  {
    exists parts :: CutsAll(enc, limit, text, before, pattern, parts) && after == Concat(parts)
  }

  /** The whole text, then what each pattern makes of what the one before it left. */
  ghost predicate Cascade(
    enc: Encoding, limit: nat, text: string, patterns: seq<Pattern>, stages: seq<seq<Range>>)
  {
    && |stages| == |patterns| + 1 && stages[0] == [Range(0, |text|)]
    && forall i :: 0 <= i < |patterns| ==> Stage(enc, limit, text, patterns[i], stages[i], stages[i + 1])
  }

  lemma {:induction false} RefineParts(
    enc: Encoding, limit: nat, text: string, rs: seq<Range>, pattern: Pattern) returns (parts: seq<seq<Range>>)
    requires Inside(text, rs) && Splits(pattern)
    ensures CutsAll(enc, limit, text, rs, pattern, parts) && Refine(enc, limit, text, rs, pattern) == Concat(parts)
  {
    if rs == [] {
      parts := [];
    } else {
      var init, r := rs[..|rs| - 1], rs[|rs| - 1];
      assert Inside(text, init) && r.start <= r.end <= |text|;
      assert rs == init + [r];
      var part := RefineOne(enc, limit, text, r, pattern);
      assert Refine(enc, limit, text, rs, pattern) == Refine(enc, limit, text, init, pattern) + part;
      hide CutUp, RefineOne, Refine, Inside, CutsAll, Cuts, Splits;
      var before := RefineParts(enc, limit, text, init, pattern);
      CutsOne(enc, limit, text, r, pattern);
      ConcatNext(before, part);
      CutsAllNext(enc, limit, text, init, pattern, before, r, part);
      parts := before + [part];
    }
  }

  lemma CutsOne(enc: Encoding, limit: nat, text: string, r: Range, pattern: Pattern)
    requires r.start <= r.end <= |text| && Splits(pattern)
    ensures Cuts(enc, limit, text, r, pattern, RefineOne(enc, limit, text, r, pattern))
  {
    RefineOneTheorem(enc, limit, text, r, pattern);
    hide CutUp, RefineOne, Splits;
  }

  lemma CutsAllNext(
    enc: Encoding, limit: nat, text: string, rs: seq<Range>, pattern: Pattern, parts: seq<seq<Range>>, r: Range,
    part: seq<Range>)
    requires CutsAll(enc, limit, text, rs, pattern, parts) && Cuts(enc, limit, text, r, pattern, part)
    ensures CutsAll(enc, limit, text, rs + [r], pattern, parts + [part])
  {
    hide Cuts;
  }

  lemma {:induction false} RefinedCascade(enc: Encoding, limit: nat, text: string, patterns: seq<Pattern>)
    returns (stages: seq<seq<Range>>)
    requires AllSplit(patterns)
    ensures Cascade(enc, limit, text, patterns, stages)
    ensures stages[|patterns|] == Refined(enc, limit, text, patterns)
  {
    if patterns == [] {
      stages := [[Range(0, |text|)]];
    } else {
      var init, pattern := patterns[..|patterns| - 1], patterns[|patterns| - 1];
      assert AllSplit(init) && Splits(pattern);
      assert patterns == init + [pattern] == patterns[..|init| + 1];
      hide Refined, Refine, CutsAll, Cascade, AllSplit, Splits;
      var before := RefinedCascade(enc, limit, text, init);
      RefinedNext(enc, limit, text, patterns, |init|);
      var rs := Refined(enc, limit, text, init);
      var parts := RefineParts(enc, limit, text, rs, pattern);
      var after := Refine(enc, limit, text, rs, pattern);
      assert Stage(enc, limit, text, pattern, rs, after);
      CascadeNext(enc, limit, text, init, pattern, before, after);
      stages := before + [after];
    }
  }

  lemma CascadeNext(
    enc: Encoding, limit: nat, text: string, patterns: seq<Pattern>, pattern: Pattern, stages: seq<seq<Range>>,
    after: seq<Range>)
    requires Cascade(enc, limit, text, patterns, stages)
    requires Stage(enc, limit, text, pattern, stages[|patterns|], after)
    ensures Cascade(enc, limit, text, patterns + [pattern], stages + [after])
  {
    hide Stage;
  }

  // ----- windows -----

  /** A window `i` begins `i` steps of tokens on, as long as the one before does not reach the end. */
  ghost predicate HasWindow(n: nat, limit: nat, step: nat, i: nat) {
    n > 0 && (i == 0 || (i - 1) * step + limit < n)
  }

  /** The windows over the tokens of a range, in characters of the text around it. */
  ghost predicate Windowed(enc: Encoding, text: string, r: Range, limit: nat, overlap: nat, part: seq<Range>) {
    && r.start <= r.end <= |text| && overlap < limit
    && var slice, step := text[r.start..r.end], limit - overlap;
    var n, offsets := |enc.encode(slice)|, enc.decodeWithOffsets(enc.encode(slice)).1;
    && |offsets| == n
    && (forall i: nat :: i < |part| <==> HasWindow(n, limit, step, i))
    && forall i: nat :: i < |part| ==> WindowIs(offsets, |slice|, r.start, i * step, limit, part[i])
  }

  /** From the character of one token to that of the token `limit` further, or to the end. */
  ghost predicate WindowIs(offsets: seq<nat>, length: nat, base: nat, first: int, limit: nat, w: Range) {
    && 0 <= first < |offsets| && w.start == base + offsets[first]
    && w.end == base + if first + limit < |offsets| then offsets[first + limit] else length
  }

  lemma {:induction false} WindowCount(n: nat, limit: nat, overlap: nat, start: nat, i: nat)
    requires overlap < limit
    ensures i < |Windows(n, limit, overlap, start)| <==>
            start < n && (i == 0 || start + (i - 1) * (limit - overlap) + limit < n)
    decreases i
  {
    var step := limit - overlap;
    if i == 1 {
      WindowCount(n, limit, overlap, start + step, 0);
      assert (i - 1) * step == 0;
    } else if i > 1 {
      WindowCount(n, limit, overlap, start + step, i - 1);
      StepBack(i, step);
      StepNotLess(i, step);
    }
  }

  lemma StepBack(i: nat, step: nat)
    requires i > 1
    ensures (i - 1) * step == step + (i - 2) * step
  {
  }

  lemma StepNotLess(i: nat, step: nat)
    requires i > 1
    ensures (i - 1) * step >= step
  {
  }

  lemma WindowsCounted(enc: Encoding, text: string, limit: nat, overlap: nat, base: nat, i: nat)
    requires overlap < limit
    ensures i < |WindowRanges(enc, text, limit, overlap, base)| <==>
            HasWindow(|enc.encode(text)|, limit, limit - overlap, i)
  {
    var offsets := enc.decodeWithOffsets(enc.encode(text)).1;
    RangesOfIndex(offsets, |text|, base, SpansOf(enc, text, limit, overlap));
    WindowCount(|enc.encode(text)|, limit, overlap, 0, i);
    hide Windows, RangesOf;
  }

  lemma WindowPlaced(enc: Encoding, text: string, limit: nat, overlap: nat, base: nat, i: nat)
    requires Lawful(enc) && overlap < limit && i < |WindowRanges(enc, text, limit, overlap, base)|
    ensures
      var offsets := enc.decodeWithOffsets(enc.encode(text)).1;
      && |offsets| == |enc.encode(text)|
      && WindowIs(offsets, |text|, base, i * (limit - overlap), limit, WindowRanges(enc, text, limit, overlap, base)[i])
  {
    WindowRangesExactly(enc, text, limit, overlap, base, i);
    hide Lawful, WindowRanges;
  }

  lemma WindowsTell(enc: Encoding, text: string, r: Range, limit: nat, overlap: nat)
    requires Lawful(enc) && r.start <= r.end <= |text| && overlap < limit
    ensures Windowed(enc, text, r, limit, overlap, WindowRanges(enc, text[r.start..r.end], limit, overlap, r.start))
  {
    var slice, step := text[r.start..r.end], limit - overlap;
    var n, part := |enc.encode(slice)|, WindowRanges(enc, slice, limit, overlap, r.start);
    OffsetsMatch(enc, enc.encode(slice));
    hide Lawful, WindowRanges, HasWindow, WindowIs;
    forall i: nat
      ensures i < |part| <==> HasWindow(n, limit, step, i)
    {
      WindowsCounted(enc, slice, limit, overlap, r.start, i);
    }
    var offsets := enc.decodeWithOffsets(enc.encode(slice)).1;
    forall i: nat | i < |part|
      ensures WindowIs(offsets, |slice|, r.start, i * step, limit, part[i])
    {
      WindowPlaced(enc, slice, limit, overlap, r.start, i);
    }
  }

  // ----- what is left at the end -----

  /** The tokens of a range do not decode to its text. */
  ghost predicate Lost(enc: Encoding, text: string, r: Range) {
    && r.start <= r.end <= |text|
    && var own := text[r.start..r.end];
    enc.encode(own) != [] && enc.decodeWithOffsets(enc.encode(own)).0 != own
  }

  ghost predicate Finishes(enc: Encoding, limit: nat, text: string, r: Range, part: seq<Range>) {
    if Short(enc, limit, text, r) then part == [r]
    else !Lost(enc, text, r) && Windowed(enc, text, r, limit, 0, part)
  }

  ghost predicate FinishesAll(enc: Encoding, limit: nat, text: string, rs: seq<Range>, parts: seq<seq<Range>>) {
    |parts| == |rs| && forall j :: 0 <= j < |rs| ==> Finishes(enc, limit, text, rs[j], parts[j])
  }

  lemma {:induction false} FinishParts(enc: Encoding, limit: nat, text: string, rs: seq<Range>)
    returns (parts: seq<seq<Range>>)
    requires Lawful(enc) && limit > 0 && Inside(text, rs) && AllReadable(enc, limit, text, rs)
    ensures FinishesAll(enc, limit, text, rs, parts) && FinishAll(enc, limit, text, rs) == Concat(parts)
  {
    if rs == [] {
      parts := [];
    } else {
      var init, r := rs[..|rs| - 1], rs[|rs| - 1];
      assert Readable(enc, limit, text, r) && forall i :: 0 <= i < |init| ==> Readable(enc, limit, text, rs[i]);
      assert Inside(text, init) && AllReadable(enc, limit, text, init);
      assert rs == init + [r];
      var part := Finish(enc, limit, text, r);
      assert FinishAll(enc, limit, text, rs) == FinishAll(enc, limit, text, init) + part;
      hide Finish, FinishAll, Finishes, FinishesAll, Inside, AllReadable, Readable, Lawful;
      var before := FinishParts(enc, limit, text, init);
      FinishesOne(enc, limit, text, r);
      ConcatNext(before, part);
      FinishesAllNext(enc, limit, text, init, before, r, part);
      parts := before + [part];
    }
  }

  lemma FinishesOne(enc: Encoding, limit: nat, text: string, r: Range)
    requires Lawful(enc) && limit > 0 && r.start <= r.end <= |text| && Readable(enc, limit, text, r)
    ensures Finishes(enc, limit, text, r, Finish(enc, limit, text, r))
  {
    WindowsTell(enc, text, r, limit, 0);
    hide Windowed, WindowRanges, Lawful;
  }

  lemma FinishesAllNext(
    enc: Encoding, limit: nat, text: string, rs: seq<Range>, parts: seq<seq<Range>>, r: Range, part: seq<Range>)
    requires FinishesAll(enc, limit, text, rs, parts) && Finishes(enc, limit, text, r, part)
    ensures FinishesAll(enc, limit, text, rs + [r], parts + [part])
  {
    hide Finishes;
  }

  /** A range that is not all white space. */
  ghost function Visible(text: string): Range -> bool {
    (r: Range) => exists i :: r.start <= i < r.end && i < |text| && !White(text[i])
  }

  lemma {:induction false} NonBlankNext(text: string, rs: seq<Range>, r: Range)
    requires Inside(text, rs + [r]) && Inside(text, rs) && r.start <= r.end <= |text|
    ensures NonBlank(text, rs + [r]) == NonBlank(text, rs) + if Blank(Slice(text, r)) then [] else [r]
  {
    hide Blank;
    if rs == [] {
      assert rs + [r] == [r] && [r][1..] == [];
    } else {
      assert (rs + [r])[0] == rs[0];
      assert (rs + [r])[1..] == rs[1..] + [r];
      NonBlankNext(text, rs[1..], r);
    }
  }

  lemma {:induction false} NonBlankExactly(text: string, rs: seq<Range>)
    requires Inside(text, rs)
    ensures Filtered(rs, Visible(text), NonBlank(text, rs))
  {
    if rs == [] {
      FilteredNone(Visible(text));
    } else {
      var init, r := rs[..|rs| - 1], rs[|rs| - 1];
      assert rs == init + [r];
      NonBlankExactly(text, init);
      NonBlankNext(text, init, r);
      FilteredNext(init, Visible(text), NonBlank(text, init), r);
      BlankExactly(text, r.start, r.end);
      hide Filtered, NonBlank, Blank;
      assert Visible(text)(r) <==> !Blank(Slice(text, r));
    }
  }

  /** The pieces of a text that has to be cut. */
  ghost predicate PiecesTell(enc: Encoding, limit: nat, text: string, patterns: seq<Pattern>, pieces: seq<Range>) {
    exists stages, parts ::
      && Cascade(enc, limit, text, patterns, stages)
      && FinishesAll(enc, limit, text, stages[|patterns|], parts)
      && Filtered(Concat(parts), Visible(text), pieces)
  }

  /** What `BoundedRanges` returns, in terms of the patterns and the tokenizer. */
  lemma BoundedRangesTell(enc: Encoding, limit: nat, text: string, patterns: seq<Pattern>)
    requires Lawful(enc) && limit > 0 && AllSplit(patterns)
    requires AllReadable(enc, limit, text, Refined(enc, limit, text, patterns))
    ensures
      var parts := FinishAll(enc, limit, text, Refined(enc, limit, text, patterns));
      Inside(text, parts) && PiecesTell(enc, limit, text, patterns, NonBlank(text, parts))
  {
    var stages := RefinedCascade(enc, limit, text, patterns);
    var rs := Refined(enc, limit, text, patterns);
    hide AllSplit, Refined, AllReadable, Lawful;
    FinishAllPartition(enc, limit, text, rs, 0, |text|);
    PartitionInside(text, FinishAll(enc, limit, text, rs));
    var parts := FinishParts(enc, limit, text, rs);
    NonBlankExactly(text, Concat(parts));
    hide Cascade, FinishesAll, Filtered, FinishAll, NonBlank;
  }

  /** Where it does not return, some range that is too long to stay and left by all the patterns is lost. */
  lemma UnreadableTells(enc: Encoding, limit: nat, text: string, patterns: seq<Pattern>)
    returns (stages: seq<seq<Range>>, r: Range)
    requires AllSplit(patterns) && !AllReadable(enc, limit, text, Refined(enc, limit, text, patterns))
    ensures Cascade(enc, limit, text, patterns, stages) && r in stages[|patterns|]
    ensures !Short(enc, limit, text, r) && Lost(enc, text, r)
  {
    stages := RefinedCascade(enc, limit, text, patterns);
    hide Cascade, Refined, AllSplit;
    var rs := stages[|patterns|];
    var i :| 0 <= i < |rs| && !Readable(enc, limit, text, rs[i]);
    r := rs[i];
  }
}
