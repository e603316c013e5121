/** Cutting a block into ranges that fit a token limit. */
module Ranges {
  import opened Wrappers
  import opened Text
  import opened Tokens

  /** A split pattern: where its matches end within a slice. */
  type Pattern = string -> seq<nat>

  /** Matches are not empty and do not overlap, so their ends strictly increase within the slice. */
  ghost predicate Splits(p: Pattern) {
    forall s :: CutsFit(p(s), |s|)
  }

  ghost predicate CutsFit(cs: seq<nat>, n: nat) {
    && (forall i :: 0 <= i < |cs| ==> 0 < cs[i] <= n)
    && (forall i, j :: 0 <= i < j < |cs| ==> cs[i] < cs[j])
  }

  ghost predicate Inside(text: string, rs: seq<Range>) {
    forall i :: 0 <= i < |rs| ==> rs[i].start <= rs[i].end <= |text|
  }

  predicate Fits(enc: Encoding, limit: nat, text: string, r: Range)
    requires r.start <= r.end <= |text|
  {
    enc.Size(Slice(text, r)) <= limit
  }

  // ----- splitting -----

  /** Consecutive points, empty pieces dropped. */
  function Pieces(left: nat, points: seq<nat>): seq<Range>
    decreases |points|
  {
    if points == [] then []
    else (if points[0] > left then [Range(left, points[0])] else []) + Pieces(points[0], points[1..])
  }

  function Move(cs: seq<nat>, start: nat): seq<nat> {
    if cs == [] then [] else [start + cs[0]] + Move(cs[1..], start)
  }

  function SplitPreserving(text: string, r: Range, pattern: Pattern): seq<Range>
    requires r.start <= r.end <= |text|
  {
    Pieces(r.start, Move(pattern(Slice(text, r)), r.start) + [r.end])
  }

  lemma {:induction false} PiecesPartition(left: nat, cs: seq<nat>, start: nat, end: nat)
    requires start <= left <= end
    requires forall i :: 0 <= i < |cs| ==> left <= start + cs[i] <= end
    requires forall i, j :: 0 <= i < j < |cs| ==> cs[i] < cs[j]
    ensures Partition(Pieces(left, Move(cs, start) + [end]), left, end)
    decreases |cs|
  {
    var points := Move(cs, start) + [end];
    if cs == [] {
      assert points == [end];
      assert Pieces(end, points[1..]) == [];
      assert Pieces(left, points) == if end > left then [Range(left, end)] else [];
      if end > left {
        assert [Range(left, end)][1..] == [];
      }
    } else {
      var next := start + cs[0];
      assert points[0] == next && points[1..] == Move(cs[1..], start) + [end];
      PiecesPartition(next, cs[1..], start, end);
      var rest := Pieces(next, points[1..]);
      if next > left {
        assert ([Range(left, next)] + rest)[1..] == rest;
      } else {
        assert Pieces(left, points) == rest;
      }
    }
  }

  lemma SplitPartition(text: string, r: Range, pattern: Pattern)
    requires r.start <= r.end <= |text| && Splits(pattern)
    ensures Partition(SplitPreserving(text, r, pattern), r.start, r.end)
  {
    assert CutsFit(pattern(Slice(text, r)), r.end - r.start);
    PiecesPartition(r.start, pattern(Slice(text, r)), r.start, r.end);
  }

  // ----- packing -----

  /** What the packing loop still produces from an open range and the pieces ahead. */
  function Pack(enc: Encoding, limit: nat, text: string, current: Option<Range>, pieces: seq<Range>): seq<Range>
    decreases |pieces|
  {
    if pieces == [] then if current.Some? then [current.value] else []
    else if current.None? then Pack(enc, limit, text, Some(pieces[0]), pieces[1..])
    else if TooBig(enc, limit, text, current.value.start, pieces[0].end) then
      [current.value] + Pack(enc, limit, text, Some(pieces[0]), pieces[1..])
    else Pack(enc, limit, text, Some(Range(current.value.start, pieces[0].end)), pieces[1..])
  }

  predicate TooBig(enc: Encoding, limit: nat, text: string, start: nat, end: nat) {
    start <= end <= |text| && enc.Size(text[start..end]) > limit
  }

  method PackRanges(text: string, pieces: seq<Range>, limit: nat, enc: Encoding) returns (packed: seq<Range>)
    ensures packed == Pack(enc, limit, text, None, pieces)
  {
    packed := [];
    var current: Option<Range> := None;
    assert pieces[0..] == pieces;
    for i := 0 to |pieces|
      invariant packed + Pack(enc, limit, text, current, pieces[i..]) == Pack(enc, limit, text, None, pieces)
    {
      var piece := pieces[i];
      assert pieces[i..][0] == piece && pieces[i..][1..] == pieces[i + 1..];
      if current.Some? && TooBig(enc, limit, text, current.value.start, piece.end) {
        ghost var rest := Pack(enc, limit, text, Some(piece), pieces[i + 1..]);
        assert packed + ([current.value] + rest) == (packed + [current.value]) + rest;
        packed := packed + [current.value];
        current := Some(piece);
      } else {
        current := Some(if current.None? then piece else Range(current.value.start, piece.end));
      }
    }
    assert pieces[|pieces|..] == [];
    if current.Some? {
      packed := packed + [current.value];
    }
  }

  lemma {:induction false} PackPartition(
    enc: Encoding, limit: nat, text: string, current: Option<Range>, pieces: seq<Range>, m: nat, b: nat)
    requires Partition(pieces, m, b) && b <= |text|
    requires current.Some? ==> current.value.start <= current.value.end == m
    ensures Partition(Pack(enc, limit, text, current, pieces), if current.Some? then current.value.start else m, b)
    decreases |pieces|
  {
    PartitionBounds(pieces, m, b);
    if pieces == [] {
      if current.Some? {
        assert [current.value][1..] == [];
      }
    } else if current.None? {
      PackPartition(enc, limit, text, Some(pieces[0]), pieces[1..], pieces[0].end, b);
    } else if TooBig(enc, limit, text, current.value.start, pieces[0].end) {
      PackPartition(enc, limit, text, Some(pieces[0]), pieces[1..], pieces[0].end, b);
      var rest := Pack(enc, limit, text, Some(pieces[0]), pieces[1..]);
      assert ([current.value] + rest)[1..] == rest;
    } else {
      PackPartition(enc, limit, text, Some(Range(current.value.start, pieces[0].end)), pieces[1..], pieces[0].end, b);
    }
  }

  /** A packed range that does not fit is a single piece the pattern could not cut. */
  lemma {:induction false} PackFits(
    enc: Encoding, limit: nat, text: string, current: Option<Range>, pieces: seq<Range>, m: nat, b: nat, r: Range)
    requires Partition(pieces, m, b) && b <= |text|
    requires current.Some? ==> current.value.start <= current.value.end == m
    requires r in Pack(enc, limit, text, current, pieces)
    ensures r.start <= r.end <= |text|
    ensures Fits(enc, limit, text, r) || r in pieces || current == Some(r)
    decreases |pieces|
  {
    PartitionBounds(pieces, m, b);
    if pieces != [] {
      var t := pieces[1..];
      assert pieces == [pieces[0]] + t;
      if current.None? {
        PackFits(enc, limit, text, Some(pieces[0]), t, pieces[0].end, b, r);
      } else if TooBig(enc, limit, text, current.value.start, pieces[0].end) {
        if r != current.value {
          PackFits(enc, limit, text, Some(pieces[0]), t, pieces[0].end, b, r);
        }
      } else {
        PackFits(enc, limit, text, Some(Range(current.value.start, pieces[0].end)), t, pieces[0].end, b, r);
      }
    }
  }

  /** Packing is greedy: a range was closed only because the piece that opens its neighbour did not fit with it. */
  lemma {:induction false} PackGreedy(
    enc: Encoding, limit: nat, text: string, current: Option<Range>, pieces: seq<Range>, m: nat, b: nat, i: nat)
    requires Partition(pieces, m, b) && b <= |text|
    requires current.Some? ==> current.value.start <= current.value.end == m
    requires i + 1 < |Pack(enc, limit, text, current, pieces)|
    ensures
      var packed := Pack(enc, limit, text, current, pieces);
      exists p :: p in pieces && p.start == packed[i + 1].start && TooBig(enc, limit, text, packed[i].start, p.end)
    decreases |pieces|
  {
    PartitionBounds(pieces, m, b);
    if pieces != [] {
      var t := pieces[1..];
      assert pieces == [pieces[0]] + t;
      if current.None? {
        PackGreedy(enc, limit, text, Some(pieces[0]), t, pieces[0].end, b, i);
      } else if TooBig(enc, limit, text, current.value.start, pieces[0].end) {
        var rest := Pack(enc, limit, text, Some(pieces[0]), t);
        assert Pack(enc, limit, text, current, pieces) == [current.value] + rest;
        if i == 0 {
          PackStart(enc, limit, text, pieces[0], t);
          assert pieces[0] in pieces;
        } else {
          PackGreedy(enc, limit, text, Some(pieces[0]), t, pieces[0].end, b, i - 1);
        }
      } else {
        PackGreedy(enc, limit, text, Some(Range(current.value.start, pieces[0].end)), t, pieces[0].end, b, i);
      }
    }
  }

  lemma {:induction false} PackStart(enc: Encoding, limit: nat, text: string, current: Range, pieces: seq<Range>)
    ensures
      var packed := Pack(enc, limit, text, Some(current), pieces);
      |packed| > 0 && packed[0].start == current.start
    decreases |pieces|
  {
    if pieces != [] && !TooBig(enc, limit, text, current.start, pieces[0].end) {
      PackStart(enc, limit, text, Range(current.start, pieces[0].end), pieces[1..]);
    }
  }

  // ----- one pattern -----

  function RefineOne(enc: Encoding, limit: nat, text: string, r: Range, pattern: Pattern): seq<Range>
    requires r.start <= r.end <= |text|
  {
    if Fits(enc, limit, text, r) then [r] else Pack(enc, limit, text, None, SplitPreserving(text, r, pattern))
  }

  function Refine(enc: Encoding, limit: nat, text: string, rs: seq<Range>, pattern: Pattern): seq<Range>
    requires Inside(text, rs)
  {
    if rs == [] then []
    else Refine(enc, limit, text, rs[..|rs| - 1], pattern) + RefineOne(enc, limit, text, rs[|rs| - 1], pattern)
  }

  lemma RefineOnePartition(enc: Encoding, limit: nat, text: string, r: Range, pattern: Pattern)
    requires r.start <= r.end <= |text| && Splits(pattern)
    ensures Partition(RefineOne(enc, limit, text, r, pattern), r.start, r.end)
  {
    if Fits(enc, limit, text, r) {
      assert [r][1..] == [];
    } else {
      SplitPartition(text, r, pattern);
      PackPartition(enc, limit, text, None, SplitPreserving(text, r, pattern), r.start, r.end);
    }
  }

  // ----- what one pattern does to a range, on its cut points -----

  /** An end of the range, or where a match of the pattern ends within it. */
  ghost predicate IsCut(text: string, r: Range, pattern: Pattern, x: nat)
    requires r.start <= r.end <= |text|
  {
    x == r.start || x == r.end || exists i :: CutAt(text, r, pattern, i, x)
  }

  ghost predicate CutAt(text: string, r: Range, pattern: Pattern, i: nat, x: nat)
    requires r.start <= r.end <= |text|
  {
    i < |pattern(text[r.start..r.end])| && x == r.start + pattern(text[r.start..r.end])[i]
  }

  lemma {:induction false} MoveIndex(cs: seq<nat>, start: nat)
    ensures |Move(cs, start)| == |cs| && forall i :: 0 <= i < |cs| ==> Move(cs, start)[i] == start + cs[i]
  {
    if cs != [] {
      MoveIndex(cs[1..], start);
    }
  }

  /** The pieces lie between neighbouring points. */
  lemma {:induction false} PiecesExactly(left: nat, points: seq<nat>, p: Range)
    requires forall i :: 0 <= i < |points| ==> left <= points[i]
    requires forall i, j :: 0 <= i < j < |points| ==> points[i] <= points[j]
    ensures p in Pieces(left, points) <==>
            && p.start < p.end && p.end in points && (p.start == left || p.start in points)
            && forall x :: x in points ==> x <= p.start || p.end <= x
    decreases |points|
  {
    if points != [] {
      var head, rest := points[0], points[1..];
      assert points == [head] + rest;
      assert forall x :: x in points <==> x == head || x in rest;
      assert forall i :: 0 <= i < |rest| ==> rest[i] == points[i + 1];
      PiecesExactly(head, rest, p);
      assert forall x :: x in rest ==> head <= x by {
        forall x | x in rest
          ensures head <= x
        {
          var i :| 0 <= i < |rest| && rest[i] == x;
          assert points[0] <= points[i + 1];
        }
      }
      var first := if head > left then [Range(left, head)] else [];
      assert Pieces(left, points) == first + Pieces(head, rest);
      assert head in points && (p.end in points ==> head <= p.end);
      if p in first {
        assert p == Range(left, head);
      }
      if p.start == left && p.end == head && left < head {
        assert p == Range(left, head) && p == first[0];
        assert p in first;
      }
    }
  }

  /** The pieces a pattern cuts a range into: from each cut point to the next. */
  lemma SplitExactly(text: string, r: Range, pattern: Pattern, p: Range)
    requires r.start <= r.end <= |text| && Splits(pattern)
    ensures p in SplitPreserving(text, r, pattern) <==>
            && p.start < p.end && IsCut(text, r, pattern, p.start) && IsCut(text, r, pattern, p.end)
            && forall x: nat :: IsCut(text, r, pattern, x) ==> x <= p.start || p.end <= x
  {
    var cs := pattern(Slice(text, r));
    assert CutsFit(cs, r.end - r.start);
    var points := Move(cs, r.start) + [r.end];
    MoveIndex(cs, r.start);
    hide Splits, Pieces;
    PiecesExactly(r.start, points, p);
    forall x: nat
      ensures IsCut(text, r, pattern, x) <==> x == r.start || x in points
    {
      if x in points {
        var i :| 0 <= i < |points| && points[i] == x;
        if i < |cs| {
          assert CutAt(text, r, pattern, i, x);
        }
      }
      if i: nat :| CutAt(text, r, pattern, i, x) {
        assert points[i] == x;
      }
    }
    assert r.end in points;
  }

  lemma TooBigExactly(enc: Encoding, limit: nat, text: string, a: nat, b: nat)
    requires a <= b <= |text|
    ensures TooBig(enc, limit, text, a, b) <==> |enc.encode(text[a..b])| > limit
    ensures Fits(enc, limit, text, Range(a, b)) <==> |enc.encode(text[a..b])| <= limit
  {
  }

  /** `b` is the first cut point after `a`. */
  ghost predicate NextCut(text: string, r: Range, pattern: Pattern, a: nat, b: nat)
    requires r.start <= r.end <= |text|
  {
    a < b <= r.end && IsCut(text, r, pattern, b) && forall x: nat :: IsCut(text, r, pattern, x) ==> x <= a || b <= x
  }

  /** From `a` past `c` to the next cut point there are too many tokens. */
  ghost predicate TooLongTo(enc: Encoding, limit: nat, text: string, r: Range, pattern: Pattern, a: nat, c: nat, b: nat)
    requires r.start <= r.end <= |text|
  {
    NextCut(text, r, pattern, c, b) && a <= b && |enc.encode(text[a..b])| > limit
  }

  ghost predicate NextTooLong(enc: Encoding, limit: nat, text: string, r: Range, pattern: Pattern, a: nat, c: nat)
    requires r.start <= r.end <= |text|
  {
    exists b: nat :: TooLongTo(enc, limit, text, r, pattern, a, c, b)
  }

  /**
    An oversized range after one pattern: consecutive ranges between cut points; each is short or has no cut point
    inside, and each but the last is too long together with what comes up to the next cut point.
   */
  ghost predicate CutUp(enc: Encoding, limit: nat, text: string, r: Range, pattern: Pattern, rs: seq<Range>)
    requires r.start <= r.end <= |text|
  {
    && Partition(rs, r.start, r.end)
    && (forall i :: 0 <= i < |rs| ==>
          && r.start <= rs[i].start <= rs[i].end <= r.end
          && IsCut(text, r, pattern, rs[i].start) && IsCut(text, r, pattern, rs[i].end)
          && (|enc.encode(text[rs[i].start..rs[i].end])| <= limit
              || NextCut(text, r, pattern, rs[i].start, rs[i].end)))
    && (forall i :: 0 <= i < |rs| - 1 ==>
          NextTooLong(enc, limit, text, r, pattern, rs[i].start, rs[i + 1].start))
  }

  lemma {:induction false} PackEnds(
    enc: Encoding, limit: nat, text: string, current: Option<Range>, pieces: seq<Range>, r: Range)
    requires r in Pack(enc, limit, text, current, pieces)
    ensures (current.Some? && r.start == current.value.start) || exists p :: p in pieces && r.start == p.start
    ensures current == Some(r) || exists p :: p in pieces && r.end == p.end
    decreases |pieces|
  {
    if pieces != [] {
      var t := pieces[1..];
      assert pieces == [pieces[0]] + t;
      assert pieces[0] in pieces;
      if current.None? {
        PackEnds(enc, limit, text, Some(pieces[0]), t, r);
      } else if TooBig(enc, limit, text, current.value.start, pieces[0].end) {
        if r != current.value {
          PackEnds(enc, limit, text, Some(pieces[0]), t, r);
        }
      } else {
        PackEnds(enc, limit, text, Some(Range(current.value.start, pieces[0].end)), t, r);
      }
    }
  }

  lemma {:induction false} PartitionInsideOf(rs: seq<Range>, a: nat, b: nat)
    requires Partition(rs, a, b)
    ensures a <= b && forall i :: 0 <= i < |rs| ==> a <= rs[i].start <= rs[i].end <= b
  {
    if rs != [] {
      PartitionInsideOf(rs[1..], rs[0].end, b);
      assert forall i :: 1 <= i < |rs| ==> rs[i] == rs[1..][i - 1];
    }
  }

  /** What one pattern makes of one range. */
  lemma RefineOneTheorem(enc: Encoding, limit: nat, text: string, r: Range, pattern: Pattern)
    requires r.start <= r.end <= |text| && Splits(pattern)
    ensures
      var rs := RefineOne(enc, limit, text, r, pattern);
      if |enc.encode(text[r.start..r.end])| <= limit then rs == [r] else CutUp(enc, limit, text, r, pattern, rs)
  {
    TooBigExactly(enc, limit, text, r.start, r.end);
    if !Fits(enc, limit, text, r) {
      PackedCutUp(enc, limit, text, r, pattern);
    }
  }

  lemma PackedCutUp(enc: Encoding, limit: nat, text: string, r: Range, pattern: Pattern)
    requires r.start <= r.end <= |text| && Splits(pattern)
    ensures CutUp(enc, limit, text, r, pattern, Pack(enc, limit, text, None, SplitPreserving(text, r, pattern)))
  {
    hide Splits, SplitPreserving, Pack, Partition, IsCut, NextCut, NextTooLong;
    var pieces := SplitPreserving(text, r, pattern);
    var rs := Pack(enc, limit, text, None, pieces);
    SplitPartition(text, r, pattern);
    PackPartition(enc, limit, text, None, pieces, r.start, r.end);
    PartitionInsideOf(rs, r.start, r.end);
    forall i | 0 <= i < |rs|
      ensures IsCut(text, r, pattern, rs[i].start) && IsCut(text, r, pattern, rs[i].end)
      ensures |enc.encode(text[rs[i].start..rs[i].end])| <= limit
              || NextCut(text, r, pattern, rs[i].start, rs[i].end)
    {
      CutUpAt(enc, limit, text, r, pattern, rs[i]);
    }
    forall i | 0 <= i < |rs| - 1
      ensures NextTooLong(enc, limit, text, r, pattern, rs[i].start, rs[i + 1].start)
    {
      CutUpNext(enc, limit, text, r, pattern, rs, i);
    }
  }

  lemma CutUpNext(
    enc: Encoding, limit: nat, text: string, r: Range, pattern: Pattern, rs: seq<Range>, i: nat)
    requires r.start <= r.end <= |text| && Splits(pattern) && i + 1 < |rs|
    requires rs == Pack(enc, limit, text, None, SplitPreserving(text, r, pattern))
    ensures NextTooLong(enc, limit, text, r, pattern, rs[i].start, rs[i + 1].start)
  {
    hide Splits, SplitPreserving, Pack, Partition, IsCut;
    var pieces := SplitPreserving(text, r, pattern);
    SplitPartition(text, r, pattern);
    PartitionInsideOf(pieces, r.start, r.end);
    PackGreedy(enc, limit, text, None, pieces, r.start, r.end, i);
    var p :| p in pieces && p.start == rs[i + 1].start && TooBig(enc, limit, text, rs[i].start, p.end);
    SplitExactly(text, r, pattern, p);
    assert TooLongTo(enc, limit, text, r, pattern, rs[i].start, rs[i + 1].start, p.end);
  }

  lemma CutUpAt(enc: Encoding, limit: nat, text: string, r: Range, pattern: Pattern, x: Range)
    requires r.start <= r.end <= |text| && Splits(pattern)
    requires x in Pack(enc, limit, text, None, SplitPreserving(text, r, pattern))
    requires r.start <= x.start <= x.end <= r.end
    ensures IsCut(text, r, pattern, x.start) && IsCut(text, r, pattern, x.end)
    ensures |enc.encode(text[x.start..x.end])| <= limit || NextCut(text, r, pattern, x.start, x.end)
  {
    var pieces := SplitPreserving(text, r, pattern);
    SplitPartition(text, r, pattern);
    hide Splits, SplitPreserving, Pack, Partition, IsCut;
    PackEnds(enc, limit, text, None, pieces, x);
    PackFits(enc, limit, text, None, pieces, r.start, r.end, x);
    var p :| p in pieces && x.start == p.start;
    var p' :| p' in pieces && x.end == p'.end;
    SplitExactly(text, r, pattern, p);
    SplitExactly(text, r, pattern, p');
    SplitExactly(text, r, pattern, x);
  }

  lemma {:induction false} PartitionInit(rs: seq<Range>, a: nat, b: nat)
    requires Partition(rs, a, b) && rs != []
    ensures Partition(rs[..|rs| - 1], a, rs[|rs| - 1].start) && rs[|rs| - 1].start <= rs[|rs| - 1].end == b
  {
    PartitionBounds(rs, a, b);
    if |rs| == 1 {
      assert rs[1..] == [];
    } else {
      var t := rs[1..];
      PartitionInit(t, rs[0].end, b);
      assert t[|t| - 1] == rs[|rs| - 1];
      assert rs[..|rs| - 1][1..] == t[..|t| - 1];
      PartitionBounds(t[..|t| - 1], rs[0].end, rs[|rs| - 1].start);
    }
  }

  lemma {:induction false} RefinePartition(
    enc: Encoding, limit: nat, text: string, rs: seq<Range>, pattern: Pattern, a: nat, b: nat)
    requires Partition(rs, a, b) && b <= |text| && Splits(pattern)
    ensures Inside(text, rs)
    ensures Partition(Refine(enc, limit, text, rs, pattern), a, b)
  {
    PartitionBounds(rs, a, b);
    if rs != [] {
      var last := rs[|rs| - 1];
      PartitionInit(rs, a, b);
      RefinePartition(enc, limit, text, rs[..|rs| - 1], pattern, a, last.start);
      RefineOnePartition(enc, limit, text, last, pattern);
      PartitionConcat(
        Refine(enc, limit, text, rs[..|rs| - 1], pattern), RefineOne(enc, limit, text, last, pattern),
        a, last.start, b);
    }
  }

  method ApplyPattern(text: string, ranges: seq<Range>, pattern: Pattern, limit: nat, enc: Encoding)
    returns (next: seq<Range>)
    requires Inside(text, ranges)
    ensures next == Refine(enc, limit, text, ranges, pattern)
  {
    next := [];
    for i := 0 to |ranges|
      invariant next == Refine(enc, limit, text, ranges[..i], pattern)
    {
      var r := ranges[i];
      assert ranges[..i + 1][..i] == ranges[..i];
      if Fits(enc, limit, text, r) {
        next := next + [r];
      } else {
        var packed := PackRanges(text, SplitPreserving(text, r, pattern), limit, enc);
        next := next + packed;
      }
    }
    assert ranges[..|ranges|] == ranges;
  }

  // ----- all patterns, then windows -----

  ghost predicate AllSplit(patterns: seq<Pattern>) {
    forall i :: 0 <= i < |patterns| ==> Splits(patterns[i])
  }

  /** The ranges left by a list of patterns: through all of them, a partition of the text. */
  ghost function Refined(enc: Encoding, limit: nat, text: string, patterns: seq<Pattern>): (rs: seq<Range>)
    requires AllSplit(patterns)
    ensures Inside(text, rs) && Partition(rs, 0, |text|)
  {
    if patterns == [] then
      assert [Range(0, |text|)][1..] == [];
      [Range(0, |text|)]
    else
      var rs := Refined(enc, limit, text, patterns[..|patterns| - 1]);
      var pattern := patterns[|patterns| - 1];
      RefinePartition(enc, limit, text, rs, pattern, 0, |text|);
      PartitionBounds(Refine(enc, limit, text, rs, pattern), 0, |text|);
      Refine(enc, limit, text, rs, pattern)
  }

  /** What a range becomes at the end: itself if it fits, the windows of its tokens if not. */
  function Finish(enc: Encoding, limit: nat, text: string, r: Range): seq<Range>
    requires limit > 0 && r.start <= r.end <= |text|
  {
    if Fits(enc, limit, text, r) then [r] else WindowRanges(enc, Slice(text, r), limit, 0, r.start)
  }

  function FinishAll(enc: Encoding, limit: nat, text: string, rs: seq<Range>): seq<Range>
    requires limit > 0 && Inside(text, rs)
  {
    if rs == [] then [] else FinishAll(enc, limit, text, rs[..|rs| - 1]) + Finish(enc, limit, text, rs[|rs| - 1])
  }

  predicate Readable(enc: Encoding, limit: nat, text: string, r: Range)
    requires r.start <= r.end <= |text|
  {
    Fits(enc, limit, text, r) || Decodes(enc, Slice(text, r))
  }

  predicate AllReadable(enc: Encoding, limit: nat, text: string, rs: seq<Range>)
    requires Inside(text, rs)
  {
    forall i :: 0 <= i < |rs| ==> Readable(enc, limit, text, rs[i])
  }

  lemma FinishPartition(enc: Encoding, limit: nat, text: string, r: Range)
    requires Lawful(enc) && limit > 0 && r.start <= r.end <= |text| && Readable(enc, limit, text, r)
    ensures Partition(Finish(enc, limit, text, r), r.start, r.end)
  {
    if Fits(enc, limit, text, r) {
      assert [r][1..] == [];
    } else {
      WindowRangesPartition(enc, Slice(text, r), limit, r.start);
    }
  }

  lemma {:induction false} FinishAllPartition(enc: Encoding, limit: nat, text: string, rs: seq<Range>, a: nat, b: nat)
    requires Lawful(enc) && limit > 0 && Partition(rs, a, b) && b <= |text|
    requires Inside(text, rs) && AllReadable(enc, limit, text, rs)
    ensures Partition(FinishAll(enc, limit, text, rs), a, b)
  {
    PartitionBounds(rs, a, b);
    if rs != [] {
      var last := rs[|rs| - 1];
      PartitionInit(rs, a, b);
      FinishAllPartition(enc, limit, text, rs[..|rs| - 1], a, last.start);
      FinishPartition(enc, limit, text, last);
      PartitionConcat(FinishAll(enc, limit, text, rs[..|rs| - 1]), Finish(enc, limit, text, last), a, last.start, b);
    }
  }

  /** `r` is one window, of at most `limit` tokens, of an oversized range. */
  ghost predicate WindowOf(enc: Encoding, limit: nat, text: string, big: Range, k: nat, r: Range)
    requires limit > 0 && big.start <= big.end <= |text|
  {
    && !Fits(enc, limit, text, big)
    && var spans := SpansOf(enc, Slice(text, big), limit, 0);
    && k < |spans| && spans[k].first < spans[k].last <= spans[k].first + limit
    && r == RangeOf(enc.decodeWithOffsets(enc.encode(Slice(text, big))).1, big.end - big.start, big.start, spans[k])
  }

  /** A range of a bounded size: its own encoding is short, or it is a short window of an oversized range. */
  ghost predicate Bounded(enc: Encoding, limit: nat, text: string, rs: seq<Range>, r: Range)
    requires limit > 0 && Inside(text, rs) && r.start <= r.end <= |text|
  {
    Fits(enc, limit, text, r) || exists j, k :: 0 <= j < |rs| && WindowOf(enc, limit, text, rs[j], k, r)
  }

  lemma FinishBounded(enc: Encoding, limit: nat, text: string, rs: seq<Range>, j: nat, r: Range)
    requires limit > 0 && Inside(text, rs) && j < |rs|
    requires r in Finish(enc, limit, text, rs[j]) && r.start <= r.end <= |text|
    ensures Bounded(enc, limit, text, rs, r)
  {
    hide Windows, RangesOf;
    var big := rs[j];
    if !Fits(enc, limit, text, big) {
      var slice := Slice(text, big);
      RangesOfIndex(enc.decodeWithOffsets(enc.encode(slice)).1, |slice|, big.start, SpansOf(enc, slice, limit, 0));
      WindowsTheorem(enc.Size(slice), limit, 0, 0);
      var ws := WindowRanges(enc, slice, limit, 0, big.start);
      var k :| 0 <= k < |ws| && ws[k] == r;
      assert WindowOf(enc, limit, text, rs[j], k, r);
    }
  }

  lemma {:induction false} FinishAllFrom(enc: Encoding, limit: nat, text: string, rs: seq<Range>, r: Range)
    returns (j: nat)
    requires limit > 0 && Inside(text, rs)
    requires r in FinishAll(enc, limit, text, rs)
    ensures j < |rs| && r in Finish(enc, limit, text, rs[j])
  {
    hide Finish;
    var init := rs[..|rs| - 1];
    if r in FinishAll(enc, limit, text, init) {
      j := FinishAllFrom(enc, limit, text, init, r);
      assert init[j] == rs[j];
    } else {
      j := |rs| - 1;
    }
  }

  lemma FinishNone(enc: Encoding, limit: nat, text: string)
    requires limit > 0
    ensures FinishAll(enc, limit, text, []) == []
  {
  }

  lemma FinishNext(enc: Encoding, limit: nat, text: string, ranges: seq<Range>, i: nat)
    requires limit > 0 && Inside(text, ranges) && i < |ranges|
    ensures FinishAll(enc, limit, text, ranges[..i + 1]) ==
            FinishAll(enc, limit, text, ranges[..i]) + Finish(enc, limit, text, ranges[i])
  {
    hide Finish;
    assert ranges[..i + 1][..i] == ranges[..i];
  }

  method FinishRanges(text: string, ranges: seq<Range>, limit: nat, enc: Encoding)
    returns (r: Result<seq<Range>, Failure>)
    requires limit > 0 && Inside(text, ranges)
    ensures r.Ok? <==> AllReadable(enc, limit, text, ranges)
    ensures r.Ok? ==> r.value == FinishAll(enc, limit, text, ranges)
  {
    var output: seq<Range> := [];
    FinishNone(enc, limit, text);
    assert AllReadable(enc, limit, text, ranges[..0]);
    hide Decodes, FinishAll, WindowRanges, Fits, AllReadable, Lawful;
    for i := 0 to |ranges|
      invariant Inside(text, ranges[..i]) && AllReadable(enc, limit, text, ranges[..i])
      invariant output == FinishAll(enc, limit, text, ranges[..i])
    {
      var range := ranges[i];
      FinishNext(enc, limit, text, ranges, i);
      ReadableNext(enc, limit, text, ranges, i);
      if Fits(enc, limit, text, range) {
        output := output + [range];
      } else {
        var windows := TokenWindows(Slice(text, range), limit, 0, enc, range.start);
        if windows.Err? {
          return Err(windows.error);
        }
        output := output + windows.value;
      }
    }
    assert ranges[..|ranges|] == ranges;
    r := Ok(output);
  }

  lemma ReadableNext(enc: Encoding, limit: nat, text: string, ranges: seq<Range>, i: nat)
    requires Inside(text, ranges) && i < |ranges| && AllReadable(enc, limit, text, ranges[..i])
    ensures Inside(text, ranges[..i + 1])
    ensures Readable(enc, limit, text, ranges[i]) <==> AllReadable(enc, limit, text, ranges[..i + 1])
    ensures !Readable(enc, limit, text, ranges[i]) ==> !AllReadable(enc, limit, text, ranges)
  {
    hide Readable;
    assert ranges[..i + 1][i] == ranges[i];
    assert forall j :: 0 <= j < i ==> ranges[..i + 1][j] == ranges[..i][j];
  }

  /** The ranges of a block, or the tokenizer failure of an oversized range. */
  method BoundedRanges(text: string, limit: nat, patterns: seq<Pattern>, enc: Encoding)
    returns (r: Result<seq<Range>, Failure>)
    requires Lawful(enc) && limit > 0 && AllSplit(patterns)
    ensures r.Ok? <==> AllReadable(enc, limit, text, Refined(enc, limit, text, patterns))
    ensures r.Ok? ==>
              var parts := FinishAll(enc, limit, text, Refined(enc, limit, text, patterns));
              Partition(parts, 0, |text|) && Inside(text, parts) && r.value == NonBlank(text, parts)
  {
    var ranges := [Range(0, |text|)];
    RefinedStart(enc, limit, text, patterns);
    hide *;
    for i := 0 to |patterns|
      invariant AllSplit(patterns[..i]) && AllSplit(patterns)
      invariant ranges == Refined(enc, limit, text, patterns[..i])
    {
      RefinedNext(enc, limit, text, patterns, i);
      ranges := ApplyPattern(text, ranges, patterns[i], limit, enc);
    }
    assert patterns[..|patterns|] == patterns;
    var finished := FinishRanges(text, ranges, limit, enc);
    if finished.Err? {
      return Err(finished.error);
    }
    FinishAllPartition(enc, limit, text, ranges, 0, |text|);
    PartitionInside(text, finished.value);
    r := Ok(NonBlank(text, finished.value));
  }

  lemma PartitionInside(text: string, rs: seq<Range>)
    requires Partition(rs, 0, |text|)
    ensures Inside(text, rs)
    ensures forall i :: 0 <= i < |rs| ==> rs[i].start <= rs[i].end <= |text|
  {
    PartitionBounds(rs, 0, |text|);
  }

  lemma RefinedStart(enc: Encoding, limit: nat, text: string, patterns: seq<Pattern>)
    requires AllSplit(patterns)
    ensures AllSplit(patterns[..0]) && Refined(enc, limit, text, patterns[..0]) == [Range(0, |text|)]
  {
  }

  lemma RefinedNext(enc: Encoding, limit: nat, text: string, patterns: seq<Pattern>, i: nat)
    requires i < |patterns| && AllSplit(patterns) && AllSplit(patterns[..i])
    ensures AllSplit(patterns[..i + 1])
    ensures Refined(enc, limit, text, patterns[..i + 1]) ==
            Refine(enc, limit, text, Refined(enc, limit, text, patterns[..i]), patterns[i])
  {
    assert patterns[..i + 1][..i] == patterns[..i];
  }

  /** What the ranges are: tiles of the block, none blank, each of bounded size. */
  lemma BoundedRangesTheorem(enc: Encoding, limit: nat, text: string, patterns: seq<Pattern>)
    requires Lawful(enc) && limit > 0 && AllSplit(patterns)
    requires AllReadable(enc, limit, text, Refined(enc, limit, text, patterns))
    ensures
      var rs := Refined(enc, limit, text, patterns);
      var parts := FinishAll(enc, limit, text, rs);
      && Inside(text, parts)
      && var output := NonBlank(text, parts);
      && Tiles(text, output, 0, |text|)
      && forall i :: 0 <= i < |output| ==>
                       && output[i].start < output[i].end <= |text|
                       && !Blank(Slice(text, output[i]))
                       && Bounded(enc, limit, text, rs, output[i])
  {
    hide Refined, Lawful, Readable, Bounded, FinishAll;
    var rs := Refined(enc, limit, text, patterns);
    FinishAllPartition(enc, limit, text, rs, 0, |text|);
    var parts := FinishAll(enc, limit, text, rs);
    PartitionInside(text, parts);
    NonBlankTiles(text, parts, 0, |text|);
    var output := NonBlank(text, parts);
    forall i | 0 <= i < |output|
      ensures output[i].start < output[i].end <= |text| && !Blank(Slice(text, output[i]))
      ensures Bounded(enc, limit, text, rs, output[i])
    {
      NonBlankMember(text, parts, output[i]);
      var j := FinishAllFrom(enc, limit, text, rs, output[i]);
      FinishBounded(enc, limit, text, rs, j, output[i]);
    }
  }
}
