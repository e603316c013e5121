/** The opaque identifiers character by character: what an encoding consists of, and what any string decodes to. */
module IdText {
  import opened Wrappers
  import opened Base64
  import opened GraphIds

  // ----- encoding -----

  /** The character stands for these six bits; the last two of the alphabet have two spellings. */
  ghost predicate Stands(c: char, v: nat) {
    || (v < 26 && c as int == 'A' as int + v)
    || (26 <= v < 52 && c as int == 'a' as int + (v - 26))
    || (52 <= v < 62 && c as int == '0' as int + (v - 52))
    || (v == 62 && c in {'-', '+'}) || (v == 63 && c in {'_', '/'})
  }

  ghost function ByteAt(bs: seq<byte>, i: nat): nat { if i < |bs| then bs[i] else 0 }

  /** The six bits with number `k` of a byte sequence, with zeros after its end. */
  ghost function Bits(bs: seq<byte>, k: nat): nat {
    var m := k / 4 * 3;
    if k % 4 == 0 then ByteAt(bs, m) / 4
    else if k % 4 == 1 then (ByteAt(bs, m) * 256 + ByteAt(bs, m + 1)) / 16 % 64
    else if k % 4 == 2 then (ByteAt(bs, m + 1) * 256 + ByteAt(bs, m + 2)) / 64 % 64
    else ByteAt(bs, m + 2) % 64
  }

  /** As many characters as the bits need, six bits to each, URL-safe and without padding. */
  ghost predicate Spells(bs: seq<byte>, s: string) {
    && 8 * |bs| <= 6 * |s| < 8 * |bs| + 6
    && forall k :: 0 <= k < |s| ==> Stands(s[k], Bits(bs, k)) && s[k] !in {'+', '/', '='}
  }

  lemma Joined(b0: byte, b1: byte)
    ensures (b0 as nat * 256 + b1) / 16 % 64 == b0 % 4 * 16 + b1 / 16
    ensures (b0 as nat * 256 + b1) / 64 % 64 == b0 % 16 * 4 + b1 / 64
  {
    SplitOff(b0, b1);
    SplitOffMore(b0, b1);
  }

  lemma SplitOff(b0: byte, b1: byte)
    ensures (b0 as nat * 256 + b1) / 16 % 64 == b0 % 4 * 16 + b1 / 16
  {
    var q, r := b0 / 4, b0 % 4;
    var x := b0 as nat * 16 + b1 / 16;
    assert b0 as nat * 256 + b1 == 16 * x + b1 % 16;
    assert x == 64 * q + (r * 16 + b1 / 16);
  }

  lemma SplitOffMore(b0: byte, b1: byte)
    ensures (b0 as nat * 256 + b1) / 64 % 64 == b0 % 16 * 4 + b1 / 64
  {
    var q, r := b0 / 16, b0 % 16;
    var x := b0 as nat * 4 + b1 / 64;
    assert b0 as nat * 256 + b1 == 64 * x + b1 % 64;
    assert x == 64 * q + (r * 4 + b1 / 64);
  }

  lemma DigitStands(v: sextet)
    ensures Stands(Digit(v), v) && Digit(v) !in {'+', '/', '='}
  {
  }

  lemma {:induction false} DigitsSpell(bs: seq<byte>)
    ensures Spells(bs, Digits(bs))
  {
    if |bs| >= 3 {
      DigitsSpell(bs[3..]);
      DigitsGroup(bs);
      hide Digits, Group, Spells;
      GroupThen(bs, Digits(bs[3..]));
    } else {
      FewSpell(bs);
    }
  }

  lemma GroupThen(bs: seq<byte>, more: string)
    requires |bs| >= 3 && Spells(bs[3..], more)
    ensures Spells(bs, Group(bs[0], bs[1], bs[2]) + more)
  {
    hide Bits, Group, Stands;
    GroupSpells(bs);
    var group := Group(bs[0], bs[1], bs[2]);
    var s := group + more;
    forall k | 0 <= k < |s|
      ensures Stands(s[k], Bits(bs, k)) && s[k] !in {'+', '/', '='}
    {
      if k < 4 {
        assert s[k] == group[k];
      } else {
        BitsShift(bs, k);
        assert s[k] == more[k - 4];
      }
    }
  }

  lemma BitsShift(bs: seq<byte>, k: nat)
    requires |bs| >= 3 && k >= 4
    ensures Bits(bs, k) == Bits(bs[3..], k - 4)
  {
    var m := k / 4 * 3;
    assert (k - 4) / 4 * 3 == m - 3 && (k - 4) % 4 == k % 4;
  }

  lemma GroupSpells(bs: seq<byte>)
    requires |bs| >= 3
    ensures |Group(bs[0], bs[1], bs[2])| == 4
    ensures
      forall k :: 0 <= k < 4 ==>
                    var c := Group(bs[0], bs[1], bs[2])[k];
                    Stands(c, Bits(bs, k)) && c !in {'+', '/', '='}
  {
    GroupBits(bs);
    hide Bits, Digit, Stands;
    var vs: seq<sextet> :=
      [bs[0] / 4, bs[0] % 4 * 16 + bs[1] / 16, bs[1] % 16 * 4 + bs[2] / 64, bs[2] % 64];
    GroupDigits(bs[0], bs[1], bs[2], vs);
    hide Group;
    forall k | 0 <= k < 4
      ensures Stands(Digit(vs[k]), vs[k]) && Digit(vs[k]) !in {'+', '/', '='}
    {
      DigitStands(vs[k]);
    }
    assert forall k :: 0 <= k < 4 ==> vs[k] == Bits(bs, k);
  }

  lemma GroupDigits(b0: byte, b1: byte, b2: byte, vs: seq<sextet>)
    requires vs == [b0 / 4, b0 % 4 * 16 + b1 / 16, b1 % 16 * 4 + b2 / 64, b2 % 64]
    ensures |Group(b0, b1, b2)| == 4 && forall k :: 0 <= k < 4 ==> Group(b0, b1, b2)[k] == Digit(vs[k])
  {
    hide Digit;
  }

  lemma GroupBits(bs: seq<byte>)
    requires |bs| >= 3
    ensures Bits(bs, 0) == bs[0] / 4 && Bits(bs, 1) == bs[0] % 4 * 16 + bs[1] / 16
    ensures Bits(bs, 2) == bs[1] % 16 * 4 + bs[2] / 64 && Bits(bs, 3) == bs[2] % 64
  {
    Joined(bs[0], bs[1]);
    Joined(bs[1], bs[2]);
  }

  lemma FewSpell(bs: seq<byte>)
    requires |bs| < 3
    ensures Spells(bs, Digits(bs))
  {
    hide Digits, Bits;
    if bs == [] {
      FewDigits(bs, []);
      SpelledBy(bs, Digits(bs), []);
    } else if |bs| == 1 {
      var vs: seq<sextet> := [bs[0] / 4, bs[0] % 4 * 16];
      FewDigits(bs, vs);
      SpelledBy(bs, Digits(bs), vs);
    } else {
      var vs: seq<sextet> := [bs[0] / 4, bs[0] % 4 * 16 + bs[1] / 16, bs[1] % 16 * 4];
      FewDigits(bs, vs);
      SpelledBy(bs, Digits(bs), vs);
    }
  }

  lemma FewDigits(bs: seq<byte>, vs: seq<sextet>)
    requires |bs| < 3
    requires bs == [] ==> vs == []
    requires |bs| == 1 ==> vs == [bs[0] / 4, bs[0] % 4 * 16]
    requires |bs| == 2 ==> vs == [bs[0] / 4, bs[0] % 4 * 16 + bs[1] / 16, bs[1] % 16 * 4]
    ensures |Digits(bs)| == |vs| && forall k :: 0 <= k < |vs| ==> Digits(bs)[k] == Digit(vs[k]) && vs[k] == Bits(bs, k)
  {
    FewBits(bs);
    hide Bits, Digit;
  }

  lemma SpelledBy(bs: seq<byte>, s: string, vs: seq<sextet>)
    requires 8 * |bs| <= 6 * |vs| < 8 * |bs| + 6 && |s| == |vs|
    requires forall k :: 0 <= k < |vs| ==> s[k] == Digit(vs[k]) && vs[k] == Bits(bs, k)
    ensures Spells(bs, s)
  {
    forall k | 0 <= k < |vs|
      ensures Stands(Digit(vs[k]), vs[k]) && Digit(vs[k]) !in {'+', '/', '='}
    {
      DigitStands(vs[k]);
    }
    hide Digit, Stands, Bits;
  }

  lemma FewBits(bs: seq<byte>)
    requires |bs| < 3
    ensures |bs| > 0 ==> Bits(bs, 0) == bs[0] / 4
    ensures |bs| == 1 ==> Bits(bs, 1) == bs[0] % 4 * 16
    ensures |bs| == 2 ==> Bits(bs, 1) == bs[0] % 4 * 16 + bs[1] / 16 && Bits(bs, 2) == bs[1] % 16 * 4
  {
    if |bs| == 1 {
      Joined(bs[0], 0);
    } else if |bs| == 2 {
      Joined(bs[0], bs[1]);
      Joined(bs[1], 0);
    }
  }

  lemma EncodeExactly(bs: seq<byte>)
    ensures Spells(bs, Encode(bs))
  {
    EncodeIsDigits(bs);
    DigitsSpell(bs);
  }

  // ----- decoding -----

  lemma ValueExactly(c: char)
    ensures forall v: nat :: Stands(c, v) <==> v < 64 && Value(c) == Some(v)
  {
  }

  /** The values of the characters that stand for any; the others are passed over. */
  ghost function Sextets(s: string): seq<nat> {
    if s == [] then []
    else
      var (before, c) := (Sextets(s[..|s| - 1]), s[|s| - 1]);
      if v: nat :| Stands(c, v) then before + [v] else before
  }

  /** The padding after the last of those characters. */
  ghost function PadsAtEnd(s: string): nat {
    if s == [] then 0
    else
      var (before, c) := (PadsAtEnd(s[..|s| - 1]), s[|s| - 1]);
      if exists v: nat :: Stands(c, v) then 0 else if c == '=' then before + 1 else before
  }

  /** The last group has two or three characters and the padding to make it four. */
  ghost predicate Complete(s: string) {
    var q := |Sextets(s)| % 4;
    q >= 2 && q + PadsAtEnd(s) >= 4
  }

  ghost function ByteOf(ds: seq<nat>, k: nat): nat
    requires k < |ds| * 3 / 4
  {
    var i := k / 3 * 4;
    if k % 3 == 0 then ds[i] * 4 + ds[i + 1] / 16
    else if k % 3 == 1 then ds[i + 1] % 16 * 16 + ds[i + 2] / 4
    else ds[i + 2] % 4 * 64 + ds[i + 3]
  }

  /** The whole bytes of six bits a piece. */
  ghost predicate Holds(ds: seq<nat>, out: seq<byte>) {
    |out| == |ds| * 3 / 4 && forall k: nat :: k < |out| ==> out[k] == ByteOf(ds, k)
  }

  /** `s` with the padding to the next multiple of four. */
  ghost predicate PaddedOut(s: string, t: string) {
    && |t| % 4 == 0 && |s| <= |t| < |s| + 4 && t[..|s|] == s
    && forall k :: |s| <= k < |t| ==> t[k] == '='
  }

  ghost predicate NoneComplete(t: string, n: nat)
    requires n <= |t|
  {
    forall i :: 0 <= i < n ==> !Complete(t[..i])
  }

  /** What is read ends where a group is first completed by padding, or else at the end. */
  ghost predicate ReadsTo(t: string, n: nat) {
    && n <= |t| && NoneComplete(t, n) && (Complete(t[..n]) || n == |t|)
  }

  // ----- the decoder's state -----

  ghost predicate Carries(ds: seq<nat>, d: Decoder) {
    && Holds(ds, d.out) && d.quad == |ds| % 4
    && (d.quad == 0 ==> d.carry == 0)
    && (d.quad == 1 ==> d.carry == ds[|ds| - 1])
    && (d.quad == 2 ==> d.carry == ds[|ds| - 1] % 16)
    && (d.quad == 3 ==> d.carry == ds[|ds| - 1] % 4)
  }

  ghost predicate Tracks(s: string, d: Decoder) {
    && d.Valid() && !d.stopped && NoneComplete(s, |s|) && !Complete(s)
    && Carries(Sextets(s), d)
    && d.pads == if d.quad >= 2 then PadsAtEnd(s) else 0
  }

  ghost predicate Stopped(s: string, d: Decoder) {
    d.stopped && exists n: nat :: n <= |s| && ReadsTo(s, n) && Complete(s[..n]) && Holds(Sextets(s[..n]), d.out)
  }

  lemma {:induction false} FeedAllNext(d: Decoder, s: string, c: char)
    requires d.Valid()
    ensures FeedAll(d, s + [c]) == Feed(FeedAll(d, s), c)
    decreases |s|
  {
    if s == [] {
      assert s + [c] == [c] && [c][1..] == [];
    } else {
      assert (s + [c])[1..] == s[1..] + [c];
      FeedAllNext(Feed(d, s[0]), s[1..], c);
    }
  }

  lemma SextetsNext(s: string, c: char)
    ensures Sextets(s + [c]) == (if Value(c).Some? then Sextets(s) + [Value(c).value as nat] else Sextets(s))
    ensures PadsAtEnd(s + [c]) ==
            if Value(c).Some? then 0 else if c == '=' then PadsAtEnd(s) + 1 else PadsAtEnd(s)
  {
    ValueExactly(c);
    assert (s + [c])[..|s|] == s;
    assert Value(c).Some? ==> Stands(c, Value(c).value);
    hide Stands, Value;
  }

  lemma CarriesNext(ds: seq<nat>, d: Decoder, c: char)
    requires d.Valid() && Carries(ds, d) && !d.stopped && Value(c).Some?
    ensures Carries(ds + [Value(c).value as nat], Feed(d, c))
    ensures Feed(d, c).pads == 0 && !Feed(d, c).stopped
  {
    var v := Value(c).value;
    FeedValue(d, c, v);
    hide *;
    CarriesStep(ds, d, v, Feed(d, c));
  }

  lemma FeedValue(d: Decoder, c: char, v: sextet)
    requires d.Valid() && !d.stopped && Value(c) == Some(v)
    ensures Feed(d, c) == Stepped(d, v)
  {
    assert c != '=';
    hide Value;
  }

  /** The decoder after six more bits. */
  ghost function Stepped(d: Decoder, v: sextet): (e: Decoder)
    requires d.Valid()
    ensures e.pads == 0 && !e.stopped
  {
    if d.quad == 0 then Decoder(1, v, d.out, 0, false)
    else if d.quad == 1 then Decoder(2, v % 16, d.out + [d.carry * 4 + v / 16], 0, false)
    else if d.quad == 2 then Decoder(3, v % 4, d.out + [d.carry * 16 + v / 4], 0, false)
    else Decoder(0, 0, d.out + [d.carry * 64 + v], 0, false)
  }

  lemma CarriesStep(ds: seq<nat>, d: Decoder, v: sextet, e: Decoder)
    requires d.Valid() && Carries(ds, d) && e == Stepped(d, v)
    ensures Carries(ds + [v], e)
  {
    HoldsNext(ds, v, d.out);
    hide Holds;
    assert (ds + [v])[|ds|] == v;
    if d.quad == 0 {
      assert e.out == d.out;
    } else if d.quad == 1 {
      assert e.out == d.out + [d.carry * 4 + v / 16];
    } else if d.quad == 2 {
      assert e.out == d.out + [d.carry * 16 + v / 4];
    } else {
      assert e.out == d.out + [d.carry * 64 + v];
    }
  }

  lemma HoldsNext(ds: seq<nat>, v: sextet, out: seq<byte>)
    requires Holds(ds, out)
    ensures |ds| % 4 == 0 ==> Holds(ds + [v], out)
    ensures forall b: byte ::
              || (|ds| % 4 == 1 && b == ds[|ds| - 1] * 4 + v / 16)
              || (|ds| % 4 == 2 && b == ds[|ds| - 1] % 16 * 16 + v / 4)
              || (|ds| % 4 == 3 && b == ds[|ds| - 1] % 4 * 64 + v)
              ==> Holds(ds + [v], out + [b])
  {
    hide ByteOf;
    forall k: nat | k < |out|
      ensures ByteOf(ds + [v], k) == ByteOf(ds, k)
    {
      ByteStays(ds, v, k);
    }
    NewByte(ds, v);
  }

  lemma ByteStays(ds: seq<nat>, v: nat, k: nat)
    requires k < |ds| * 3 / 4
    ensures ByteOf(ds + [v], k) == ByteOf(ds, k)
  {
  }

  /** The bits left over and the next six give a byte, unless a group begins. */
  lemma NewByte(ds: seq<nat>, v: nat)
    ensures
      var (n, more) := (|ds| * 3 / 4, ds + [v]);
      && |more| * 3 / 4 == (if |ds| % 4 == 0 then n else n + 1)
      && (|ds| % 4 == 1 ==> ByteOf(more, n) == ds[|ds| - 1] * 4 + v / 16)
      && (|ds| % 4 == 2 ==> ByteOf(more, n) == ds[|ds| - 1] % 16 * 16 + v / 4)
      && (|ds| % 4 == 3 ==> ByteOf(more, n) == ds[|ds| - 1] % 4 * 64 + v)
  {
    var m, n := |ds| / 4, |ds| * 3 / 4;
    if |ds| % 4 == 1 {
      assert n == 3 * m && n / 3 == m && n % 3 == 0;
    } else if |ds| % 4 == 2 {
      assert n == 3 * m + 1 && n / 3 == m && n % 3 == 1;
    } else if |ds| % 4 == 3 {
      assert n == 3 * m + 2 && n / 3 == m && n % 3 == 2;
    }
  }

  lemma NoneCompleteNext(s: string, c: char)
    requires NoneComplete(s, |s|) && !Complete(s)
    ensures NoneComplete(s + [c], |s| + 1)
  {
    hide Complete;
    var t := s + [c];
    forall i | 0 <= i < |s| + 1
      ensures !Complete(t[..i])
    {
      assert t[..i] == s[..i];
      assert s[..|s|] == s;
    }
  }

  lemma TracksNext(s: string, d: Decoder, c: char)
    requires Tracks(s, d)
    ensures Tracks(s + [c], Feed(d, c)) || Stopped(s + [c], Feed(d, c))
  {
    var t, e := s + [c], Feed(d, c);
    NoneCompleteNext(s, c);
    SextetsNext(s, c);
    assert t[..|t|] == t;
    hide NoneComplete, Sextets, PadsAtEnd;
    if Value(c).Some? {
      CarriesNext(Sextets(s), d, c);
      hide Carries, Feed;
    } else {
      hide Holds, Value;
      if e.stopped {
        assert ReadsTo(t, |t|);
      }
    }
  }

  lemma StoppedNext(s: string, d: Decoder, c: char)
    requires Stopped(s, d)
    ensures Stopped(s + [c], d)
  {
    var n: nat :| n <= |s| && ReadsTo(s, n) && Complete(s[..n]) && Holds(Sextets(s[..n]), d.out);
    hide Complete, Holds;
    var t := s + [c];
    assert forall i :: 0 <= i <= n ==> t[..i] == s[..i];
    assert ReadsTo(t, n);
  }

  lemma {:induction false} DecoderTracks(s: string)
    ensures Tracks(s, FeedAll(START, s)) || Stopped(s, FeedAll(START, s))
  {
    if s != [] {
      var init, c := s[..|s| - 1], s[|s| - 1];
      assert s == init + [c];
      DecoderTracks(init);
      FeedAllNext(START, init, c);
      var d := FeedAll(START, init);
      hide Tracks, Stopped, FeedAll;
      if Tracks(init, d) {
        TracksNext(init, d, c);
      } else {
        StoppedNext(init, d, c);
        assert Feed(d, c) == d by {
          assert d.stopped by {
            StoppedIs(init, d);
          }
        }
      }
    }
  }

  lemma StoppedIs(s: string, d: Decoder)
    requires Stopped(s, d)
    ensures d.stopped
  {
  }

  /** What a string decodes to, whatever it is. */
  ghost predicate DecodesTo(s: string, t: string, n: nat, r: Option<seq<byte>>)
    requires n <= |t|
  {
    if (exists i :: 0 <= i < |s| && s[i] >= 128 as char) || (!Complete(t[..n]) && |Sextets(t[..n])| % 4 != 0) then
      r == None
    else r.Some? && Holds(Sextets(t[..n]), r.value)
  }

  lemma PadsOut(s: string) returns (t: string)
    ensures PaddedOut(s, t) && t == s + Pads(Missing(|s|))
  {
    var pads := Pads(Missing(|s|));
    t := s + pads;
    forall k | |s| <= k < |t|
      ensures t[k] == '='
    {
      assert t[k] == pads[k - |s|] && pads[k - |s|] in pads;
    }
    assert (|s| + (4 - |s| % 4) % 4) % 4 == 0;
  }

  lemma Wide(s: string)
    ensures Ascii(s) <==> !exists i :: 0 <= i < |s| && s[i] >= 128 as char
  {
    if i :| 0 <= i < |s| && s[i] >= 128 as char {
      assert s[i] in s;
    }
  }

  /** The lenient decoder on any string: what it skips, where it stops, which bytes it gives, and when it raises. */
  lemma DecodeExactly(s: string) returns (t: string, n: nat)
    ensures PaddedOut(s, t) && ReadsTo(t, n) && DecodesTo(s, t, n, Decode(s))
  {
    t := PadsOut(s);
    DecoderTracks(t);
    Wide(s);
    var d := FeedAll(START, t);
    hide FeedAll, Holds, Complete, NoneComplete, Ascii, PaddedOut;
    assert t[..|t|] == t;
    if Tracks(t, d) {
      n := |t|;
    } else {
      n :| n <= |t| && ReadsTo(t, n) && Complete(t[..n]) && Holds(Sextets(t[..n]), d.out);
    }
  }

  // ----- identifiers -----

  /** `before` ends and `after` begins where the marker is found last. */
  ghost predicate LastCut(s: string, marker: string, before: string, after: string) {
    && s == before + marker + after
    && forall b, a :: s == b + marker + a ==> |b| <= |before|
  }

  ghost predicate Marked(s: string, marker: string) { exists before, after :: LastCut(s, marker, before, after) }

  lemma AtCut(s: string, marker: string, i: nat)
    requires At(s, marker, i)
    ensures s == s[..i] + marker + s[i + |marker|..]
  {
  }

  lemma CutAt(before: string, marker: string, after: string)
    ensures At(before + marker + after, marker, |before|)
  {
  }

  lemma {:induction false} LastAtExactly(s: string, marker: string, i: nat)
    ensures LastAt(s, marker, i).Some? ==>
              LastAt(s, marker, i).value <= i && At(s, marker, LastAt(s, marker, i).value)
    ensures forall j: nat :: j <= i && At(s, marker, j) ==>
                               LastAt(s, marker, i).Some? && j <= LastAt(s, marker, i).value
  {
    if !At(s, marker, i) && i > 0 {
      LastAtExactly(s, marker, i - 1);
    }
  }

  lemma AfterLastExactly(s: string, marker: string)
    ensures AfterLast(s, marker).Some? <==> Marked(s, marker)
    ensures forall before, after :: LastCut(s, marker, before, after) ==> AfterLast(s, marker) == Some(after)
  {
    LastAtExactly(s, marker, |s|);
    forall b, a | s == b + marker + a
      ensures At(s, marker, |b|) && |b| <= |s| && s[|b| + |marker|..] == a && s[..|b|] == b
    {
      CutAt(b, marker, a);
    }
    hide LastAt;
    if AfterLast(s, marker).Some? {
      var i := LastAt(s, marker, |s|).value;
      AtCut(s, marker, i);
      assert LastCut(s, marker, s[..i], s[i + |marker|..]);
    }
  }

  ghost predicate Text(u: Utf8, encoded: string, text: string) {
    exists bs :: Decode(encoded) == Some(bs) && u.decode(bs) == Some(text)
  }

  /** An object's id is made of the project's and its own name, and any id is read after its last marker. */
  lemma ObjectIdExactly(u: Utf8, project: string, name: string, id: string)
    ensures exists encoded :: ObjectId(u, project, name) == "plsql://" + project + "/o/" + encoded
                              && Spells(u.encode(name), encoded)
    ensures NameOfObjectId(u, id) == Some(name) <==>
            exists before, encoded :: LastCut(id, "/o/", before, encoded) && Text(u, encoded, name)
  {
    EncodeExactly(u.encode(name));
    hide Spells, Encode;
    assert ObjectId(u, project, name) == "plsql://" + project + "/o/" + B64E(u, name);
    AfterLastExactly(id, "/o/");
    hide AfterLast, Decode, LastCut;
  }

  // ----- edge ids -----

  ghost function Triple(relationship: string, source: string, target: string): string {
    relationship + [31 as char] + source + [31 as char] + target
  }

  lemma {:induction false} SplitThree(s: string) returns (r: string, x: string, y: string)
    requires |Split(s)| == 3
    ensures Split(s) == [r, x, y] && s == Triple(r, x, y) && Plain(r, x, y)
  {
    var rest;
    r, rest := SplitHead(s);
    var last;
    x, last := SplitHead(rest);
    y := last;
    SplitLast(last);
    assert s == r + [SEPARATOR] + (x + [SEPARATOR] + y) == Triple(r, x, y);
  }

  lemma {:induction false} SplitHead(s: string) returns (first: string, rest: string)
    requires |Split(s)| >= 2
    ensures s == first + [SEPARATOR] + rest && SEPARATOR !in first && Split(s) == [first] + Split(rest)
  {
    if s[0] == SEPARATOR {
      first, rest := [], s[1..];
    } else {
      first, rest := SplitHead(s[1..]);
      first := [s[0]] + first;
    }
  }

  lemma SplitLast(s: string)
    requires |Split(s)| == 1
    ensures Split(s) == [s] && SEPARATOR !in s
  {
    SplitCount(s);
    SeparatorsNone(s);
    SplitFirst(s, []);
  }

  lemma SplitTriple(r: string, x: string, y: string)
    requires Plain(r, x, y)
    ensures Split(Triple(r, x, y)) == [r, x, y]
  {
    SplitFirst(r, x + [SEPARATOR] + y);
    SplitFirst(x, y);
    SplitFirst(y, []);
    assert Triple(r, x, y) == r + [SEPARATOR] + (x + [SEPARATOR] + y);
    hide Split;
  }

  /** Any id is an edge's exactly when what follows its last marker decodes to three parts free of U+001F. */
  lemma EdgePartsExactly(u: Utf8, id: string, r: string, x: string, y: string)
    ensures EdgeParts(u, id) == Some((r, x, y)) <==>
            Plain(r, x, y)
            && exists before, encoded :: LastCut(id, "/e/", before, encoded) && Text(u, encoded, Triple(r, x, y))
  {
    AfterLastExactly(id, "/e/");
    hide AfterLast, Decode, LastCut;
    if EdgeParts(u, id).Some? {
      var payload := B64D(u, AfterLast(id, "/e/").value).value;
      var r', x', y' := SplitThree(payload);
    }
    if Plain(r, x, y) {
      SplitTriple(r, x, y);
    }
    hide Split, Triple;
  }

  lemma EdgeIdExactly(u: Utf8, project: string, r: string, x: string, y: string)
    ensures exists encoded :: EdgeId(u, project, r, x, y) == "edge://" + project + "/e/" + encoded
                              && Spells(u.encode(Triple(r, x, y)), encoded)
  {
    assert Payload(r, x, y) == Triple(r, x, y);
    EncodeExactly(u.encode(Triple(r, x, y)));
    hide Spells, Encode, Triple;
    assert EdgeId(u, project, r, x, y) == "edge://" + project + "/e/" + B64E(u, Triple(r, x, y));
  }
}
