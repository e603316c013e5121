/** Whitespace, lines, and lists of ranges over a text. */
module Text {
  // ----- whitespace -----

  /** What `str.strip` removes. */
  predicate IsSpace(c: char) {
    var n := c as int;
    9 <= n <= 13 || 28 <= n <= 32 || n == 133 || n == 160 || n == 5760 || 8192 <= n <= 8202
    || n == 8232 || n == 8233 || n == 8239 || n == 8287 || n == 12288
  }

  /** Nothing but whitespace. */
  predicate Blank(s: string) { forall i :: 0 <= i < |s| ==> IsSpace(s[i]) }

  const FORM_FEED: char := 12 as char

  function Count(s: string, c: char): nat {
    if s == [] then 0 else (if s[0] == c then 1 else 0) + Count(s[1..], c)
  }

  lemma {:induction false} CountConcat(a: string, b: string, c: char)
    ensures Count(a + b, c) == Count(a, c) + Count(b, c)
  {
    if a == [] {
      assert a + b == b;
    } else {
      assert (a + b)[1..] == a[1..] + b;
      CountConcat(a[1..], b, c);
    }
  }

  // ----- lines -----

  /** The line boundaries of `str.splitlines`. */
  predicate IsBreak(c: char) {
    var n := c as int;
    10 <= n <= 13 || 28 <= n <= 30 || n == 133 || n == 8232 || n == 8233
  }

  /** The length of the first line, its ending included; a carriage return takes a following line feed with it. */
  function FirstLine(text: string): (n: nat)
    ensures n <= |text| && (text != [] ==> n > 0)
  {
    if text == [] then 0
    else if IsBreak(text[0]) then (if text[0] == 13 as char && |text| > 1 && text[1] == 10 as char then 2 else 1)
    else 1 + FirstLine(text[1..])
  }

  /** The lines, each with its ending. */
  function Lines(text: string): seq<string>
    decreases |text|
  {
    if text == [] then [] else [text[..FirstLine(text)]] + Lines(text[FirstLine(text)..])
  }

  function Join(lines: seq<string>): string {
    if lines == [] then [] else lines[0] + Join(lines[1..])
  }

  lemma {:induction false} LinesJoin(text: string)
    ensures Join(Lines(text)) == text
    ensures forall i :: 0 <= i < |Lines(text)| ==> Lines(text)[i] != []
    decreases |text|
  {
    if text != [] {
      var n := FirstLine(text);
      LinesJoin(text[n..]);
      assert text == text[..n] + text[n..];
    }
  }

  // ----- ranges -----

  datatype Range = Range(start: nat, end: nat)

  /** The ranges follow one another from `a` to `b` without gap or overlap. */
  ghost predicate Partition(rs: seq<Range>, a: nat, b: nat) {
    if rs == [] then a == b
    else rs[0].start == a <= rs[0].end <= b && Partition(rs[1..], rs[0].end, b)
  }

  /** The ranges are in order and disjoint within `a..b`, and nothing but whitespace lies between them. */
  ghost predicate Tiles(text: string, rs: seq<Range>, a: nat, b: nat)
    requires b <= |text|
  {
    if rs == [] then a <= b && Blank(text[a..b])
    else a <= rs[0].start <= rs[0].end <= b && Blank(text[a..rs[0].start]) && Tiles(text, rs[1..], rs[0].end, b)
  }

  function Slice(text: string, r: Range): string
    requires r.start <= r.end <= |text|
  {
    text[r.start..r.end]
  }

  lemma {:induction false} PartitionConcat(x: seq<Range>, y: seq<Range>, a: nat, m: nat, b: nat)
    requires Partition(x, a, m) && Partition(y, m, b)
    ensures Partition(x + y, a, b) && a <= m <= b
  {
    if x == [] {
      assert x + y == y;
      PartitionBounds(y, m, b);
    } else {
      PartitionConcat(x[1..], y, x[0].end, m, b);
      assert (x + y)[1..] == x[1..] + y;
    }
  }

  lemma {:induction false} PartitionBounds(rs: seq<Range>, a: nat, b: nat)
    requires Partition(rs, a, b)
    ensures a <= b
    ensures forall i :: 0 <= i < |rs| ==> a <= rs[i].start <= rs[i].end <= b
  {
    if rs != [] {
      PartitionBounds(rs[1..], rs[0].end, b);
      assert forall i :: 1 <= i < |rs| ==> rs[i] == rs[1..][i - 1];
    }
  }

  lemma BlankConcat(text: string, a: nat, m: nat, b: nat)
    requires a <= m <= b <= |text| && Blank(text[a..m]) && Blank(text[m..b])
    ensures Blank(text[a..b])
  {
    forall i | 0 <= i < b - a
      ensures IsSpace(text[a..b][i])
    {
      if a + i < m {
        assert text[a..b][i] == text[a..m][i];
      } else {
        assert text[a..b][i] == text[m..b][a + i - m];
      }
    }
  }

  lemma TilesWiden(text: string, rs: seq<Range>, a: nat, m: nat, b: nat)
    requires a <= m <= b <= |text| && Blank(text[a..m]) && Tiles(text, rs, m, b)
    ensures Tiles(text, rs, a, b)
  {
    if rs == [] {
      BlankConcat(text, a, m, b);
    } else {
      BlankConcat(text, a, m, rs[0].start);
    }
  }

  lemma {:induction false} TilesConcat(text: string, x: seq<Range>, y: seq<Range>, a: nat, m: nat, b: nat)
    requires m <= b <= |text| && Tiles(text, x, a, m) && Tiles(text, y, m, b)
    ensures Tiles(text, x + y, a, b)
  {
    if x == [] {
      assert x + y == y;
      TilesWiden(text, y, a, m, b);
    } else {
      TilesConcat(text, x[1..], y, x[0].end, m, b);
      assert (x + y)[1..] == x[1..] + y;
    }
  }

  lemma NotBlankAt(text: string, a: nat, b: nat, i: nat)
    requires a <= i < b <= |text| && !IsSpace(text[i])
    ensures !Blank(text[a..b])
  {
    assert text[a..b][i - a] == text[i];
  }

  /** Every character that is not whitespace lies in a tile. */
  lemma {:induction false} TilesCover(text: string, rs: seq<Range>, a: nat, b: nat, i: nat)
    requires b <= |text| && Tiles(text, rs, a, b) && a <= i < b && !IsSpace(text[i])
    ensures exists k :: 0 <= k < |rs| && rs[k].start <= i < rs[k].end
  {
    if rs == [] {
      NotBlankAt(text, a, b, i);
    } else if i < rs[0].start {
      NotBlankAt(text, a, rs[0].start, i);
    } else if i >= rs[0].end {
      TilesCover(text, rs[1..], rs[0].end, b, i);
      var k :| 0 <= k < |rs[1..]| && rs[1..][k].start <= i < rs[1..][k].end;
      assert rs[k + 1] == rs[1..][k];
    }
  }

  /** Tiles are in order and disjoint. */
  lemma {:induction false} TilesOrdered(text: string, rs: seq<Range>, a: nat, b: nat)
    requires b <= |text| && Tiles(text, rs, a, b)
    ensures forall i :: 0 <= i < |rs| ==> a <= rs[i].start <= rs[i].end <= b
    ensures forall i, j :: 0 <= i < j < |rs| ==> rs[i].end <= rs[j].start
  {
    if rs != [] {
      var t := rs[1..];
      TilesOrdered(text, t, rs[0].end, b);
      assert forall i :: 1 <= i < |rs| ==> rs[i] == t[i - 1];
    }
  }

  /** The ranges that hold more than whitespace. */
  function NonBlank(text: string, rs: seq<Range>): seq<Range>
    requires forall i :: 0 <= i < |rs| ==> rs[i].start <= rs[i].end <= |text|
  {
    if rs == [] then []
    else (if Blank(Slice(text, rs[0])) then [] else [rs[0]]) + NonBlank(text, rs[1..])
  }

  lemma {:induction false} NonBlankMember(text: string, rs: seq<Range>, r: Range)
    requires forall i :: 0 <= i < |rs| ==> rs[i].start <= rs[i].end <= |text|
    ensures r in NonBlank(text, rs) <==> r in rs && !Blank(Slice(text, r))
  {
    if rs != [] {
      NonBlankMember(text, rs[1..], r);
      assert rs == [rs[0]] + rs[1..];
    }
  }

  /** Dropping whitespace-only parts of a partition loses only whitespace. */
  lemma {:induction false} NonBlankTiles(text: string, rs: seq<Range>, a: nat, b: nat)
    requires b <= |text| && Partition(rs, a, b)
    ensures forall i :: 0 <= i < |rs| ==> rs[i].start <= rs[i].end <= |text|
    ensures Tiles(text, NonBlank(text, rs), a, b)
  {
    PartitionBounds(rs, a, b);
    if rs != [] {
      NonBlankTiles(text, rs[1..], rs[0].end, b);
      if Blank(Slice(text, rs[0])) {
        TilesWiden(text, NonBlank(text, rs[1..]), a, rs[0].end, b);
        assert NonBlank(text, rs) == NonBlank(text, rs[1..]);
      } else {
        assert NonBlank(text, rs) == [rs[0]] + NonBlank(text, rs[1..]);
        assert NonBlank(text, rs)[1..] == NonBlank(text, rs[1..]);
        assert text[a..a] == [];
      }
    }
  }

  lemma SliceOfSlice(text: string, from: nat, to: nat, a: nat, b: nat)
    requires from <= to <= |text| && a <= b <= to - from
    ensures text[from..to][a..b] == text[from + a..from + b]
  {
    forall i | 0 <= i < b - a
      ensures text[from..to][a..b][i] == text[from + a..from + b][i]
    {
      assert text[from..to][a + i] == text[from + a + i];
    }
  }

  function Shift(rs: seq<Range>, base: nat): seq<Range> {
    if rs == [] then [] else [Range(base + rs[0].start, base + rs[0].end)] + Shift(rs[1..], base)
  }

  /** Tiles of a slice are tiles of the text, moved. */
  lemma {:induction false} ShiftTiles(text: string, from: nat, to: nat, rs: seq<Range>, a: nat, b: nat)
    requires from <= to <= |text| && b <= to - from && Tiles(text[from..to], rs, a, b)
    ensures Tiles(text, Shift(rs, from), from + a, from + b)
  {
    if rs == [] {
      SliceOfSlice(text, from, to, a, b);
    } else {
      SliceOfSlice(text, from, to, a, rs[0].start);
      ShiftTiles(text, from, to, rs[1..], rs[0].end, b);
      assert Shift(rs, from)[1..] == Shift(rs[1..], from);
    }
  }

  lemma {:induction false} ShiftIndex(rs: seq<Range>, base: nat)
    ensures |Shift(rs, base)| == |rs|
    ensures forall i :: 0 <= i < |rs| ==> Shift(rs, base)[i] == Range(base + rs[i].start, base + rs[i].end)
  {
    if rs != [] {
      ShiftIndex(rs[1..], base);
    }
  }
}
