/**
  Unpadded URL-safe base64 (RFC 4648 section 5, padding restored as section 3.2 allows), with the lenient decoder Python
  uses.
 */
module Base64 {
  import opened Wrappers

  type byte = i: int | 0 <= i < 256
  type sextet = i: int | 0 <= i < 64

  function Digit(v: sextet): (c: char)
    ensures Value(c) == Some(v)
    ensures c != '=' && c != '/' && c < 128 as char
  {
    if v < 26 then 'A' + v as char
    else if v < 52 then 'a' + (v - 26) as char
    else if v < 62 then '0' + (v - 52) as char
    else if v == 62 then '-'
    else '_'
  }

  /** The decoder first maps `-` and `_` to `+` and `/`, so it accepts both spellings. */
  function Value(c: char): Option<sextet> {
    if 'A' <= c <= 'Z' then Some((c - 'A') as int)
    else if 'a' <= c <= 'z' then Some((c - 'a') as int + 26)
    else if '0' <= c <= '9' then Some((c - '0') as int + 52)
    else if c == '-' || c == '+' then Some(62)
    else if c == '_' || c == '/' then Some(63)
    else None
  }

  // ----- encoding -----

  /** The digits of a byte sequence: four for each three bytes, two or three for what is left. */
  function Digits(bs: seq<byte>): string {
    if bs == [] then []
    else if |bs| == 1 then [Digit(bs[0] / 4), Digit(bs[0] % 4 * 16)]
    else if |bs| == 2 then [Digit(bs[0] / 4), Digit(bs[0] % 4 * 16 + bs[1] / 16), Digit(bs[1] % 16 * 4)]
    else
      [Digit(bs[0] / 4), Digit(bs[0] % 4 * 16 + bs[1] / 16), Digit(bs[1] % 16 * 4 + bs[2] / 64), Digit(bs[2] % 64)]
      + Digits(bs[3..])
  }

  function Pads(n: nat): (s: string)
    ensures |s| == n && forall c :: c in s ==> c == '='
  {
    if n == 0 then [] else ['='] + Pads(n - 1)
  }

  /** The padding that completes a group of four. */
  function Missing(n: nat): nat { (4 - n % 4) % 4 }

  /** The URL-safe encoding, padding included. */
  function Padded(bs: seq<byte>): string { Digits(bs) + Pads(Missing(|Digits(bs)|)) }

  /** The text without its trailing padding. */
  function StripPads(s: string): string {
    if s != [] && s[|s| - 1] == '=' then StripPads(s[..|s| - 1]) else s
  }

  function Encode(bs: seq<byte>): string { StripPads(Padded(bs)) }

  // ----- decoding -----

  /** The lenient decoder of the library: position in the group of four, carried bits, output, padding seen, stopped. */
  datatype Decoder = Decoder(quad: nat, carry: nat, out: seq<byte>, pads: nat, stopped: bool) {
    ghost predicate Valid() {
      quad < 4 && (quad == 1 ==> carry < 64) && (quad == 2 ==> carry < 16) && (quad == 3 ==> carry < 4)
    }
  }

  const START := Decoder(0, 0, [], 0, false)

  function Feed(d: Decoder, c: char): (d': Decoder)
    requires d.Valid()
    ensures d'.Valid()
  {
    if d.stopped then d
    else if c == '=' then
      if d.quad < 2 then d
      else if d.quad + d.pads + 1 >= 4 then d.(stopped := true)
      else d.(pads := d.pads + 1)
    else match Value(c)
      case None => d
      case Some(v) =>
        if d.quad == 0 then Decoder(1, v, d.out, 0, false)
        else if d.quad == 1 then Decoder(2, v % 16, d.out + [d.carry * 4 + v / 16], 0, false)
        else if d.quad == 2 then Decoder(3, v % 4, d.out + [d.carry * 16 + v / 4], 0, false)
        else Decoder(0, 0, d.out + [d.carry * 64 + v], 0, false)
  }

  function FeedAll(d: Decoder, s: string): (d': Decoder)
    requires d.Valid()
    ensures d'.Valid()
    decreases |s|
  {
    if s == [] then d else FeedAll(Feed(d, s[0]), s[1..])
  }

  function Ascii(s: string): bool { forall c :: c in s ==> c < 128 as char }

  /** Decoding with the padding put back; `None` where the library raises. */
  function Decode(s: string): Option<seq<byte>> {
    if !Ascii(s) then None
    else
      var d := FeedAll(START, s + Pads(Missing(|s|)));
      if d.stopped || d.quad == 0 then Some(d.out) else None
  }

  // ----- round trip -----

  lemma {:induction false} DigitsPlain(bs: seq<byte>)
    ensures forall c :: c in Digits(bs) ==> c != '=' && c != '/' && c < 128 as char
  {
    if |bs| >= 3 {
      DigitsPlain(bs[3..]);
    }
  }

  lemma {:induction false} StripPadsExact(s: string, n: nat)
    requires forall c :: c in s ==> c != '='
    ensures StripPads(s + Pads(n)) == s
  {
    if n == 0 {
      assert s + Pads(0) == s;
      assert s != [] ==> s[|s| - 1] in s;
    } else {
      var padded := s + Pads(n);
      assert padded[|padded| - 1] == '=' by {
        assert Pads(n)[n - 1] in Pads(n);
        assert padded[|padded| - 1] == Pads(n)[n - 1];
      }
      PadsInit(n);
      assert padded[..|padded| - 1] == s + Pads(n - 1);
      StripPadsExact(s, n - 1);
    }
  }

  lemma {:induction false} PadsInit(n: nat)
    requires n > 0
    ensures Pads(n)[..n - 1] == Pads(n - 1)
  {
    forall i | 0 <= i < n - 1
      ensures Pads(n)[i] == Pads(n - 1)[i]
    {
      assert Pads(n)[i] in Pads(n) && Pads(n - 1)[i] in Pads(n - 1);
    }
  }

  lemma EncodeIsDigits(bs: seq<byte>)
    ensures Encode(bs) == Digits(bs)
  {
    DigitsPlain(bs);
    StripPadsExact(Digits(bs), Missing(|Digits(bs)|));
  }

  /** At a group boundary after `out`, decoding `s` with its padding appends exactly `bs`. */
  ghost predicate Appends(s: string, out: seq<byte>, bs: seq<byte>) {
    var d := FeedAll(Decoder(0, 0, out, 0, false), s + Pads(Missing(|s|)));
    (d.stopped || d.quad == 0) && d.out == out + bs
  }

  lemma {:induction false} FeedDigits(bs: seq<byte>, out: seq<byte>)
    ensures Appends(Digits(bs), out, bs)
  {
    hide Appends, Digits;
    if bs == [] {
      FeedNone(out);
    } else if |bs| == 1 {
      FeedOne(bs[0], out);
      assert bs == [bs[0]];
    } else if |bs| == 2 {
      FeedPair(bs[0], bs[1], out);
      assert bs == [bs[0], bs[1]];
    } else {
      FeedDigits(bs[3..], out + [bs[0], bs[1], bs[2]]);
      FeedGroup(bs[0], bs[1], bs[2], bs[3..], Digits(bs[3..]), out);
      assert bs == [bs[0], bs[1], bs[2]] + bs[3..];
      DigitsGroup(bs);
    }
  }

  lemma FeedNone(out: seq<byte>)
    ensures Appends(Digits([]), out, [])
  {
    assert [] + Pads(Missing(0)) == [];
    assert out + [] == out;
  }

  lemma FeedTwo(d: Decoder, a: char, b: char, rest: string)
    requires d.Valid()
    ensures FeedAll(d, [a, b] + rest) == FeedAll(Feed(Feed(d, a), b), rest)
  {
    assert ([a, b] + rest)[1..] == [b] + rest;
    assert ([b] + rest)[1..] == rest;
  }

  lemma FeedOne(b: byte, out: seq<byte>)
    ensures Appends(Digits([b]), out, [b])
  {
    var x, y := Digit(b / 4), Digit(b % 4 * 16);
    var d := Feed(Feed(Decoder(0, 0, out, 0, false), x), y);
    assert d == Decoder(2, 0, out + [b], 0, false);
    assert Digits([b]) == [x, y];
    hide Digits, Digit;
    FeedTwo(Decoder(0, 0, out, 0, false), x, y, Pads(2));
    assert Pads(2) == ['=', '='] + [];
    FeedTwo(d, '=', '=', []);
  }

  lemma FeedPair(b0: byte, b1: byte, out: seq<byte>)
    ensures Appends(Digits([b0, b1]), out, [b0, b1])
  {
    var x, y, z := Digit(b0 / 4), Digit(b0 % 4 * 16 + b1 / 16), Digit(b1 % 16 * 4);
    assert Digits([b0, b1]) == [x, y, z];
    PairOut(b0, b1, out);
    FeedThree(Decoder(0, 0, out, 0, false), x, y, z);
  }

  lemma FeedDigit(quad: nat, carry: nat, out: seq<byte>, v: sextet)
    requires Decoder(quad, carry, out, 0, false).Valid()
    ensures Feed(Decoder(quad, carry, out, 0, false), Digit(v)) ==
            if quad == 0 then Decoder(1, v, out, 0, false)
            else if quad == 1 then Decoder(2, v % 16, out + [carry * 4 + v / 16], 0, false)
            else if quad == 2 then Decoder(3, v % 4, out + [carry * 16 + v / 4], 0, false)
            else Decoder(0, 0, out + [carry * 64 + v], 0, false)
  {
    hide Digit;
  }

  lemma PairOut(b0: byte, b1: byte, out: seq<byte>)
    ensures
      var d1 := Feed(Decoder(0, 0, out, 0, false), Digit(b0 / 4));
      var d2 := Feed(d1, Digit(b0 % 4 * 16 + b1 / 16));
      Feed(d2, Digit(b1 % 16 * 4)) == Decoder(3, 0, out + [b0, b1], 0, false)
  {
    hide Feed, Digit;
    assert b0 / 4 * 4 + (b0 % 4 * 16 + b1 / 16) / 16 == b0 && (b0 % 4 * 16 + b1 / 16) % 16 == b1 / 16;
    FeedDigit(0, 0, out, b0 / 4);
    FeedDigit(1, b0 / 4, out, b0 % 4 * 16 + b1 / 16);
    FeedDigit(2, b1 / 16, out + [b0], b1 % 16 * 4);
    assert out + [b0] + [b1] == out + [b0, b1];
  }

  lemma FeedEnd(d: Decoder)
    requires d.Valid()
    ensures FeedAll(d, []) == d
  {
  }

  lemma PadThree(x: char, y: char, z: char)
    ensures [x, y, z] + Pads(Missing(3)) == [x, y] + ([z, '='] + [])
  {
    assert Pads(1) == ['='];
  }

  lemma FeedThree(d: Decoder, x: char, y: char, z: char)
    requires d.Valid()
    ensures FeedAll(d, [x, y, z] + Pads(Missing(3))) == Feed(Feed(Feed(Feed(d, x), y), z), '=')
  {
    hide Feed, FeedAll, Pads, Missing;
    PadThree(x, y, z);
    FeedEnd(Feed(Feed(Feed(Feed(d, x), y), z), '='));
    FeedTwo(d, x, y, [z, '='] + []);
    FeedTwo(Feed(Feed(d, x), y), z, '=', []);
  }

  function Group(b0: byte, b1: byte, b2: byte): string {
    [Digit(b0 / 4), Digit(b0 % 4 * 16 + b1 / 16), Digit(b1 % 16 * 4 + b2 / 64), Digit(b2 % 64)]
  }

  lemma DigitsGroup(bs: seq<byte>)
    requires |bs| >= 3
    ensures Digits(bs) == Group(bs[0], bs[1], bs[2]) + Digits(bs[3..])
  {
  }

  lemma FeedGroup(b0: byte, b1: byte, b2: byte, tail: seq<byte>, rest: string, out: seq<byte>)
    requires Appends(rest, out + [b0, b1, b2], tail)
    ensures Appends(Group(b0, b1, b2) + rest, out, [b0, b1, b2] + tail)
  {
    hide FeedAll, Feed, Pads, Missing, Digit, Appends;
    GroupOut(b0, b1, b2, out);
    assert out + [b0, b1, b2] + tail == out + ([b0, b1, b2] + tail);
    FeedFour(
      out, Digit(b0 / 4), Digit(b0 % 4 * 16 + b1 / 16), Digit(b1 % 16 * 4 + b2 / 64), Digit(b2 % 64), rest,
      out + [b0, b1, b2], tail, [b0, b1, b2] + tail);
  }

  lemma FeedFour(
    out: seq<byte>, a: char, b: char, c: char, e: char, rest: string, out': seq<byte>, tail: seq<byte>, bs: seq<byte>)
    requires Feed(Feed(Feed(Feed(Decoder(0, 0, out, 0, false), a), b), c), e) == Decoder(0, 0, out', 0, false)
    requires Appends(rest, out', tail) && out' + tail == out + bs
    ensures Appends([a, b, c, e] + rest, out, bs)
  {
    hide FeedAll, Feed, Pads;
    var d := Decoder(0, 0, out, 0, false);
    var s, more := [a, b, c, e] + rest, rest + Pads(Missing(|rest|));
    assert s + Pads(Missing(|s|)) == [a, b] + ([c, e] + more);
    FeedTwo(d, a, b, [c, e] + more);
    FeedTwo(Feed(Feed(d, a), b), c, e, more);
  }

  lemma GroupOut(b0: byte, b1: byte, b2: byte, out: seq<byte>)
    ensures
      var d1 := Feed(Decoder(0, 0, out, 0, false), Digit(b0 / 4));
      var d2 := Feed(d1, Digit(b0 % 4 * 16 + b1 / 16));
      var d3 := Feed(d2, Digit(b1 % 16 * 4 + b2 / 64));
      Feed(d3, Digit(b2 % 64)) == Decoder(0, 0, out + [b0, b1, b2], 0, false)
  {
    hide Feed, Digit;
    assert b0 / 4 * 4 + (b0 % 4 * 16 + b1 / 16) / 16 == b0 && (b0 % 4 * 16 + b1 / 16) % 16 == b1 / 16;
    FeedDigit(0, 0, out, b0 / 4);
    FeedDigit(1, b0 / 4, out, b0 % 4 * 16 + b1 / 16);
    FeedDigit(2, b1 / 16, out + [b0], b1 % 16 * 4 + b2 / 64);
    FeedDigit(3, b2 / 64, out + [b0] + [b1], b2 % 64);
    assert out + [b0] + [b1] + [b2] == out + [b0, b1, b2];
  }

  lemma RoundTrip(bs: seq<byte>)
    ensures Decode(Encode(bs)) == Some(bs)
    ensures '/' !in Encode(bs)
  {
    EncodeIsDigits(bs);
    DigitsPlain(bs);
    FeedDigits(bs, []);
    assert [] + bs == bs;
    assert Ascii(Encode(bs));
  }
}
