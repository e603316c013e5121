/** Overlapping windows over the tokens of a text. */
module Tokens {
  import opened Wrappers
  import opened Text

  /** The tokenizer: token ids, and for token ids the decoded text with the character offset of each. */
  datatype Encoding = Encoding(encode: string -> seq<int>, decodeWithOffsets: seq<int> -> (string, seq<nat>)) {
    function Size(text: string): nat { |encode(text)| }
  }

  /** Offsets start at zero, never decrease and stay within the decoded text. */
  ghost predicate Lawful(enc: Encoding) {
    forall ts :: OffsetsFit(enc.decodeWithOffsets(ts).1, |ts|, |enc.decodeWithOffsets(ts).0|)
  }

  ghost predicate OffsetsFit(offsets: seq<nat>, n: nat, length: nat) {
    && |offsets| == n
    && (n > 0 ==> offsets[0] == 0)
    && (forall i, j :: 0 <= i <= j < n ==> offsets[i] <= offsets[j])
    && (forall i :: 0 <= i < n ==> offsets[i] <= length)
  }

  datatype Failure = OffsetsLost

  // ----- windows of tokens -----

  /** Tokens `first` up to but not including `last`. */
  datatype Span = Span(first: nat, last: nat)

  function Windows(n: nat, limit: nat, overlap: nat, start: nat): seq<Span>
    requires overlap < limit
    decreases n - start
  {
    if start >= n then []
    else if start + limit >= n then [Span(start, n)]
    else [Span(start, start + limit)] + Windows(n, limit, overlap, start + (limit - overlap))
  }

  /** ceil(a / b) */
  function CeilDiv(a: nat, b: nat): nat
    requires b > 0
  {
    (a + b - 1) / b
  }

  lemma CeilDivStep(a: nat, b: nat)
    requires b > 0 && a > 0
    ensures CeilDiv(a, b) == 1 + CeilDiv(if a >= b then a - b else 0, b)
  {
    if a >= b {
      DivStep(a + b - 1, b);
    } else {
      DivStep(a + b - 1, b);
      DivSmall(a - 1, b);
      DivSmall(b - 1, b);
    }
  }

  lemma DivStep(a: nat, b: nat)
    requires b > 0 && a >= b
    ensures a / b == 1 + (a - b) / b
  {
    var q, r := (a - b) / b, (a - b) % b;
    assert a == (q + 1) * b + r;
    DivUnique(a, b, q + 1, r);
  }

  lemma DivSmall(a: nat, b: nat)
    requires a < b
    ensures a / b == 0
  {
    DivUnique(a, b, 0, a);
  }

  lemma DivUnique(a: nat, b: nat, q: nat, r: nat)
    requires b > 0 && a == q * b + r && r < b
    ensures a / b == q
  {
    var q', r' := a / b, a % b;
    assert a == q' * b + r';
    assert (q' - q) * b == r - r' && (q - q') * b == r' - r by {
      assert q' * b - q * b == (q' - q) * b;
      assert q * b - q' * b == (q - q') * b;
    }
    if q < q' {
      AtLeastOnce(q' - q, b);
    } else if q' < q {
      AtLeastOnce(q - q', b);
    }
  }

  lemma AtLeastOnce(k: nat, b: nat)
    requires k >= 1
    ensures k * b >= b
  {
  }

  /** Everything there is to say about the windows from `start` on. */
  ghost predicate WindowsGood(n: nat, limit: nat, overlap: nat, start: nat, ws: seq<Span>)
    requires overlap < limit
  {
    && |ws| == 1 + CeilDiv(if n - start > limit then n - start - limit else 0, limit - overlap)
    && ws[0].first == start && ws[|ws| - 1].last == n
    && (forall i :: 0 <= i < |ws| ==> ws[i].first < ws[i].last <= n && ws[i].last - ws[i].first <= limit)
    && (forall i :: 0 <= i < |ws| - 1 ==> ws[i].last - ws[i].first == limit && ws[i + 1].first == ws[i].last - overlap)
  }

  /** The number of windows, their sizes, what neighbours share, and that they reach from `start` to the last token. */
  lemma {:induction false} WindowsTheorem(n: nat, limit: nat, overlap: nat, start: nat)
    requires overlap < limit && start < n
    ensures WindowsGood(n, limit, overlap, start, Windows(n, limit, overlap, start))
    decreases n - start
  {
    var step := limit - overlap;
    if start + limit < n {
      var next := Windows(n, limit, overlap, start + step);
      WindowsTheorem(n, limit, overlap, start + step);
      CeilDivStep(n - start - limit, step);
      var ws := Windows(n, limit, overlap, start);
      assert ws == [Span(start, start + limit)] + next;
      assert forall i :: 1 <= i < |ws| ==> ws[i] == next[i - 1];
    } else {
      DivSmall(step - 1, step);
    }
  }

  // ----- their character ranges -----

  function CharAt(offsets: seq<nat>, length: nat, token: nat): nat {
    if token < |offsets| then offsets[token] else length
  }

  function RangeOf(offsets: seq<nat>, length: nat, base: nat, w: Span): Range {
    Range(base + CharAt(offsets, length, w.first), base + CharAt(offsets, length, w.last))
  }

  function RangesOf(offsets: seq<nat>, length: nat, base: nat, ws: seq<Span>): seq<Range> {
    if ws == [] then []
    else RangesOf(offsets, length, base, ws[..|ws| - 1]) + [RangeOf(offsets, length, base, ws[|ws| - 1])]
  }

  lemma {:induction false} RangesOfIndex(offsets: seq<nat>, length: nat, base: nat, ws: seq<Span>)
    ensures |RangesOf(offsets, length, base, ws)| == |ws|
    ensures forall i :: 0 <= i < |ws| ==>
                          RangesOf(offsets, length, base, ws)[i] == RangeOf(offsets, length, base, ws[i])
  {
    if ws != [] {
      RangesOfIndex(offsets, length, base, ws[..|ws| - 1]);
    }
  }

  /** The windows a text is cut into, as spans of its tokens. */
  function SpansOf(enc: Encoding, text: string, limit: nat, overlap: nat): seq<Span>
    requires overlap < limit
  {
    Windows(enc.Size(text), limit, overlap, 0)
  }

  predicate Decodes(enc: Encoding, text: string) {
    enc.encode(text) == [] || enc.decodeWithOffsets(enc.encode(text)).0 == text
  }

  function WindowRanges(enc: Encoding, text: string, limit: nat, overlap: nat, base: nat): seq<Range>
    requires overlap < limit
  {
    RangesOf(enc.decodeWithOffsets(enc.encode(text)).1, |text|, base, SpansOf(enc, text, limit, overlap))
  }

  lemma WindowsNext(n: nat, limit: nat, overlap: nat, start: nat)
    requires overlap < limit && start < n
    ensures
      var last := if start + limit < n then start + limit else n;
      Windows(n, limit, overlap, start) ==
      [Span(start, last)] + if last == n then [] else Windows(n, limit, overlap, start + (limit - overlap))
  {
  }

  /** The windowing loop. It raises when decoding does not give the text back. */
  method TokenWindows(text: string, limit: nat, overlap: nat, enc: Encoding, base: nat)
    returns (r: Result<seq<Range>, Failure>)
    requires overlap < limit
    ensures r.Ok? <==> Decodes(enc, text)
    ensures r.Ok? <==> enc.encode(text) == [] || enc.decodeWithOffsets(enc.encode(text)).0 == text
    ensures r.Ok? ==> r.value == WindowRanges(enc, text, limit, overlap, base)
  {
    var tokens := enc.encode(text);
    if tokens == [] {
      return Ok([]);
    }
    var decoded := enc.decodeWithOffsets(tokens);
    if decoded.0 != text {
      return Err(OffsetsLost);
    }
    var ranges := CutWindows(decoded.1, |text|, |tokens|, limit, overlap, base);
    r := Ok(ranges);
  }

  method CutWindows(offsets: seq<nat>, length: nat, n: nat, limit: nat, overlap: nat, base: nat)
    returns (result: seq<Range>)
    requires overlap < limit
    ensures result == RangesOf(offsets, length, base, Windows(n, limit, overlap, 0))
  {
    result := [];
    ghost var k := 0;
    var step := limit - overlap;
    var tokenStart := 0;
    CutStarts(offsets, length, n, limit, overlap, base);
    hide *;
    while tokenStart < n
      invariant CutTo(offsets, length, n, limit, overlap, base, tokenStart, k, result)
      decreases n - tokenStart
    {
      var tokenEnd := if tokenStart + limit < n then tokenStart + limit else n;
      var charStart := CharAt(offsets, length, tokenStart);
      var charEnd := CharAt(offsets, length, tokenEnd);
      CutNext(offsets, length, n, limit, overlap, base, tokenStart, k, result);
      result := result + [Range(base + charStart, base + charEnd)];
      k := k + 1;
      if tokenEnd == n {
        return;
      }
      tokenStart := tokenStart + step;
    }
    CutEnds(offsets, length, n, limit, overlap, base, tokenStart, k, result);
  }

  /** The first `k` windows have been cut, and the rest are those from `tokenStart` on. */
  ghost predicate CutTo(
    offsets: seq<nat>, length: nat, n: nat, limit: nat, overlap: nat, base: nat, tokenStart: nat, k: nat,
    result: seq<Range>)
    requires overlap < limit
  {
    var all := Windows(n, limit, overlap, 0);
    && k <= |all| && result == RangesOf(offsets, length, base, all[..k])
    && all[k..] == Windows(n, limit, overlap, tokenStart)
  }

  lemma CutStarts(offsets: seq<nat>, length: nat, n: nat, limit: nat, overlap: nat, base: nat)
    requires overlap < limit
    ensures CutTo(offsets, length, n, limit, overlap, base, 0, 0, [])
  {
    hide Windows;
    var all := Windows(n, limit, overlap, 0);
    assert all[..0] == [] && all[0..] == all;
    RangesOfNone(offsets, length, base);
  }

  lemma CutNext(
    offsets: seq<nat>, length: nat, n: nat, limit: nat, overlap: nat, base: nat, tokenStart: nat, k: nat,
    result: seq<Range>)
    requires overlap < limit && tokenStart < n
    requires CutTo(offsets, length, n, limit, overlap, base, tokenStart, k, result)
    ensures
      var tokenEnd := if tokenStart + limit < n then tokenStart + limit else n;
      var last := Range(base + CharAt(offsets, length, tokenStart), base + CharAt(offsets, length, tokenEnd));
      var more := result + [last];
      if tokenEnd == n then more == RangesOf(offsets, length, base, Windows(n, limit, overlap, 0))
      else CutTo(offsets, length, n, limit, overlap, base, tokenStart + (limit - overlap), k + 1, more)
  {
    hide Windows, RangesOf, CharAt;
    var all := Windows(n, limit, overlap, 0);
    var tokenEnd := if tokenStart + limit < n then tokenStart + limit else n;
    var rest := if tokenEnd == n then [] else Windows(n, limit, overlap, tokenStart + (limit - overlap));
    WindowsNext(n, limit, overlap, tokenStart);
    Advance(all, k, Span(tokenStart, tokenEnd), rest);
    RangesOfNext(offsets, length, base, all[..k], Span(tokenStart, tokenEnd));
    if tokenEnd == n {
      assert all[..k + 1] == all;
    }
  }

  lemma CutEnds(
    offsets: seq<nat>, length: nat, n: nat, limit: nat, overlap: nat, base: nat, tokenStart: nat, k: nat,
    result: seq<Range>)
    requires overlap < limit && tokenStart >= n
    requires CutTo(offsets, length, n, limit, overlap, base, tokenStart, k, result)
    ensures result == RangesOf(offsets, length, base, Windows(n, limit, overlap, 0))
  {
    var all := Windows(n, limit, overlap, 0);
    assert all[k..] == [];
    assert all[..k] == all;
  }

  lemma Advance<T>(all: seq<T>, k: nat, w: T, rest: seq<T>)
    requires k <= |all| && all[k..] == [w] + rest
    ensures k < |all| && all[..k + 1] == all[..k] + [w] && all[k + 1..] == rest
    ensures rest == [] ==> k + 1 == |all|
  {
    assert all[k] == all[k..][0];
    assert all[k + 1..] == all[k..][1..];
  }

  lemma RangesOfNone(offsets: seq<nat>, length: nat, base: nat)
    ensures RangesOf(offsets, length, base, []) == []
  {
  }

  lemma RangesOfNext(offsets: seq<nat>, length: nat, base: nat, ws: seq<Span>, w: Span)
    ensures RangesOf(offsets, length, base, ws + [w]) ==
            RangesOf(offsets, length, base, ws)
            + [Range(base + CharAt(offsets, length, w.first), base + CharAt(offsets, length, w.last))]
  {
    assert (ws + [w])[..|ws|] == ws;
  }

  // ----- what the windows are for -----

  /** Character ranges that start at `a`, end at `b`, advance, and leave no gap between neighbours. */
  ghost predicate Chained(rs: seq<Range>, a: nat, b: nat) {
    && |rs| > 0 && rs[0].start == a && rs[|rs| - 1].end == b
    && (forall i :: 0 <= i < |rs| ==> a <= rs[i].start <= rs[i].end <= b)
    && (forall i :: 0 <= i < |rs| - 1 ==> rs[i].start <= rs[i + 1].start <= rs[i].end <= rs[i + 1].end)
  }

  lemma CharAtMonotone(offsets: seq<nat>, n: nat, length: nat, i: nat, j: nat)
    requires OffsetsFit(offsets, n, length) && i <= j
    ensures CharAt(offsets, length, i) <= CharAt(offsets, length, j) <= length
  {
  }

  /** The windows of a text cover it end to end. */
  lemma WindowRangesChain(enc: Encoding, text: string, limit: nat, overlap: nat, base: nat)
    requires Lawful(enc) && overlap < limit && enc.encode(text) != [] && Decodes(enc, text)
    ensures Chained(WindowRanges(enc, text, limit, overlap, base), base, base + |text|)
  {
    var n := enc.Size(text);
    var offsets := enc.decodeWithOffsets(enc.encode(text)).1;
    assert OffsetsFit(offsets, n, |text|);
    var ws := SpansOf(enc, text, limit, overlap);
    WindowsTheorem(n, limit, overlap, 0);
    RangesOfIndex(offsets, |text|, base, ws);
    var rs := WindowRanges(enc, text, limit, overlap, base);
    hide OffsetsFit, Windows, Lawful;
    forall i | 0 <= i < |rs|
      ensures base <= rs[i].start <= rs[i].end <= base + |text|
    {
      CharAtMonotone(offsets, n, |text|, ws[i].first, ws[i].last);
    }
    forall i | 0 <= i < |rs| - 1
      ensures rs[i].start <= rs[i + 1].start <= rs[i].end <= rs[i + 1].end
    {
      CharAtMonotone(offsets, n, |text|, ws[i].first, ws[i + 1].first);
      CharAtMonotone(offsets, n, |text|, ws[i + 1].first, ws[i].last);
      CharAtMonotone(offsets, n, |text|, ws[i].last, ws[i + 1].last);
    }
    FirstOffset(offsets, n, |text|);
  }

  lemma FirstOffset(offsets: seq<nat>, n: nat, length: nat)
    requires OffsetsFit(offsets, n, length) && n > 0
    ensures CharAt(offsets, length, 0) == 0 && CharAt(offsets, length, n) == length
  {
  }

  /** The window number `i`: it starts `i` steps on and has `limit` tokens, or what is left. */
  lemma {:induction false} WindowAt(n: nat, limit: nat, overlap: nat, start: nat, i: nat)
    requires overlap < limit && i < |Windows(n, limit, overlap, start)|
    ensures
      var w, first := Windows(n, limit, overlap, start)[i], start + i * (limit - overlap);
      w.first == first < n && w.last == (if first + limit < n then first + limit else n)
    decreases i
  {
    if i > 0 {
      var step := limit - overlap;
      WindowAt(n, limit, overlap, start + step, i - 1);
      assert start + step + (i - 1) * step == start + i * step by {
        assert (i - 1) * step + step == i * step;
      }
    }
  }

  /** The character range of each window, told by the tokenizer's offsets alone. */
  lemma WindowRangesExactly(enc: Encoding, text: string, limit: nat, overlap: nat, base: nat, i: nat)
    requires Lawful(enc) && overlap < limit && i < |WindowRanges(enc, text, limit, overlap, base)|
    ensures
      var n, first := |enc.encode(text)|, i * (limit - overlap);
      var offsets := enc.decodeWithOffsets(enc.encode(text)).1;
      && |offsets| == n && 0 <= first < n
      && WindowRanges(enc, text, limit, overlap, base)[i] ==
         Range(base + offsets[first], base + if first + limit < n then offsets[first + limit] else |text|)
  {
    var offsets := enc.decodeWithOffsets(enc.encode(text)).1;
    assert OffsetsFit(offsets, enc.Size(text), |enc.decodeWithOffsets(enc.encode(text)).0|);
    hide Lawful, OffsetsFit, Windows;
    assert |offsets| == |enc.encode(text)| by {
      OffsetsMatch(enc, enc.encode(text));
    }
    var spans := SpansOf(enc, text, limit, overlap);
    RangesOfIndex(offsets, |text|, base, spans);
    WindowAt(enc.Size(text), limit, overlap, 0, i);
  }

  lemma OffsetsMatch(enc: Encoding, ts: seq<int>)
    requires Lawful(enc)
    ensures |enc.decodeWithOffsets(ts).1| == |ts|
  {
    assert OffsetsFit(enc.decodeWithOffsets(ts).1, |ts|, |enc.decodeWithOffsets(ts).0|);
  }

  /** With no overlap the windows partition the text. */
  lemma WindowRangesPartition(enc: Encoding, text: string, limit: nat, base: nat)
    requires Lawful(enc) && limit > 0 && enc.encode(text) != [] && Decodes(enc, text)
    ensures Partition(WindowRanges(enc, text, limit, 0, base), base, base + |text|)
  {
    var rs := WindowRanges(enc, text, limit, 0, base);
    WindowRangesChain(enc, text, limit, 0, base);
    WindowsTheorem(enc.Size(text), limit, 0, 0);
    RangesOfIndex(enc.decodeWithOffsets(enc.encode(text)).1, |text|, base, SpansOf(enc, text, limit, 0));
    hide Windows, Lawful, WindowsGood;
    assert WindowsGood(enc.Size(text), limit, 0, 0, SpansOf(enc, text, limit, 0));
    NeighboursMeet(enc.decodeWithOffsets(enc.encode(text)).1, |text|, base, enc.Size(text), limit,
                   SpansOf(enc, text, limit, 0));
    AdjacentPartition(rs, base, base + |text|);
  }

  lemma NeighboursMeet(offsets: seq<nat>, length: nat, base: nat, n: nat, limit: nat, ws: seq<Span>)
    requires limit > 0 && WindowsGood(n, limit, 0, 0, ws)
    ensures
      var rs := RangesOf(offsets, length, base, ws);
      |rs| == |ws| && forall i :: 0 <= i < |rs| - 1 ==> rs[i].end == rs[i + 1].start
  {
    RangesOfIndex(offsets, length, base, ws);
  }

  lemma {:induction false} AdjacentPartition(rs: seq<Range>, a: nat, b: nat)
    requires |rs| > 0 && rs[0].start == a && rs[|rs| - 1].end == b
    requires forall i :: 0 <= i < |rs| ==> a <= rs[i].start <= rs[i].end <= b
    requires forall i :: 0 <= i < |rs| - 1 ==> rs[i].end == rs[i + 1].start
    ensures Partition(rs, a, b)
  {
    if |rs| > 1 {
      var t := rs[1..];
      assert forall i :: 0 <= i < |t| ==> t[i] == rs[i + 1];
      assert forall i :: 0 <= i < |t| ==> rs[0].end <= t[i].start by {
        ForwardStarts(rs);
      }
      AdjacentPartition(t, rs[0].end, b);
    } else {
      assert rs[1..] == [];
    }
  }

  lemma {:induction false} ForwardStarts(rs: seq<Range>)
    requires |rs| > 0
    requires forall i :: 0 <= i < |rs| ==> rs[i].start <= rs[i].end
    requires forall i :: 0 <= i < |rs| - 1 ==> rs[i].end == rs[i + 1].start
    ensures forall i :: 1 <= i < |rs| ==> rs[0].end <= rs[i].start
  {
    if |rs| > 1 {
      var last := |rs| - 1;
      ForwardStarts(rs[..last]);
      assert rs[last - 1].end == rs[last].start;
      assert last > 1 ==> rs[..last][last - 1] == rs[last - 1];
    }
  }
}
