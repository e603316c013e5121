/** Lines, whitespace and line ends of a text, told on its characters. */
module LineText {
  import opened Text

  // ----- characters -----

  /** The code points at which `str.splitlines` ends a line. */
  ghost predicate EndsLine(c: char) { c as int in {10, 11, 12, 13, 28, 29, 30, 133, 8232, 8233} }

  /** The code points that `str.strip` removes. */
  ghost predicate White(c: char) {
    c as int in {
      9, 10, 11, 12, 13, 28, 29, 30, 31, 32, 133, 160, 5760, 8192, 8193, 8194, 8195, 8196, 8197, 8198, 8199, 8200, 8201,
      8202, 8232, 8233, 8239, 8287, 12288}
  }

  lemma CharactersExactly(c: char)
    ensures IsBreak(c) <==> EndsLine(c)
    ensures IsSpace(c) <==> White(c)
  {
  }

  lemma BlankExactly(text: string, a: nat, b: nat)
    requires a <= b <= |text|
    ensures Blank(text[a..b]) <==> forall i :: a <= i < b ==> White(text[i])
  {
    hide IsSpace, White;
    forall i | a <= i < b
      ensures IsSpace(text[i]) <==> White(text[i])
    {
      CharactersExactly(text[i]);
    }
    assert forall i :: a <= i < b ==> text[a..b][i - a] == text[i];
  }

  /** How often a character occurs. */
  lemma {:induction false} CountExactly(s: string, c: char)
    ensures Count(s, c) == |set i | 0 <= i < |s| && s[i] == c|
  {
    var all := set i | 0 <= i < |s| && s[i] == c;
    if s != [] {
      var init, last := s[..|s| - 1], s[|s| - 1];
      CountExactly(init, c);
      CountConcat(init, [last], c);
      assert s == init + [last];
      assert Count([last], c) == if last == c then 1 else 0;
      hide Count;
      AtLast(init, last, c);
    } else {
      assert all == {};
    }
  }

  lemma AtLast(s: string, last: char, c: char)
    ensures |set i | 0 <= i < |s + [last]| && (s + [last])[i] == c| ==
            |set i | 0 <= i < |s| && s[i] == c| + if last == c then 1 else 0
  {
    var before := set i | 0 <= i < |s| && s[i] == c;
    var t := s + [last];
    assert (set i | 0 <= i < |t| && t[i] == c) == before + (if last == c then {|s|} else {});
  }

  // ----- lines -----

  /** A line ends here: at the end of the text, or after a line boundary, never between a carriage return and its feed.
   */
  ghost predicate LineEnd(text: string, p: nat) {
    && 0 < p <= |text|
    && (p == |text| || (EndsLine(text[p - 1]) && !(text[p - 1] as int == 13 && text[p] as int == 10)))
  }

  /** The line from `p` to `e`, its ending included. */
  ghost predicate LineAt(text: string, p: nat, e: nat) {
    p < e && (p == 0 || LineEnd(text, p)) && LineEnd(text, e) && forall q :: p < q < e ==> !LineEnd(text, q)
  }

  lemma {:induction false} FirstLineExactly(text: string)
    requires text != []
    ensures LineAt(text, 0, FirstLine(text))
  {
    hide EndsLine, IsBreak;
    CharactersExactly(text[0]);
    if !IsBreak(text[0]) && |text| > 1 {
      var tail := text[1..];
      FirstLineExactly(tail);
      forall q: nat | 0 < q <= |tail|
        ensures LineEnd(tail, q) <==> LineEnd(text, q + 1)
      {
        LaterLineEnd(text, 1, q);
      }
      forall q | 0 < q < FirstLine(text)
        ensures !LineEnd(text, q)
      {
        if q > 1 {
          assert !LineEnd(tail, q - 1);
        }
      }
    } else if IsBreak(text[0]) && FirstLine(text) == 2 {
      assert !LineEnd(text, 1);
      if |text| > 2 {
        CharactersExactly(text[1]);
        FeedEnds(text[1]);
      }
    }
  }

  lemma FeedEnds(c: char)
    ensures c as int == 10 ==> EndsLine(c)
  {
  }

  /** Line ends of a rest of the text are line ends of the text. */
  lemma LaterLineEnd(text: string, n: nat, q: nat)
    requires n <= |text| && 0 < q <= |text| - n
    ensures LineEnd(text[n..], q) <==> LineEnd(text, n + q)
  {
    var tail := text[n..];
    assert tail[q - 1] == text[n + q - 1];
    if q < |tail| {
      assert tail[q] == text[n + q];
    }
  }

  /** Where line `i` starts. */
  function StartOf(lines: seq<string>, i: nat): nat
    requires i <= |lines|
  {
    |Join(lines[..i])|
  }

  lemma StartOfNext(lines: seq<string>, i: nat)
    requires i < |lines|
    ensures StartOf(lines, i + 1) == StartOf(lines, i) + |lines[i]|
    ensures i > 0 ==> StartOf(lines, i) == |lines[0]| + StartOf(lines[1..], i - 1)
    ensures StartOf(lines, 0) == 0
  {
    JoinNext(lines[..i], lines[i]);
    assert lines[..i + 1] == lines[..i] + [lines[i]];
    if i > 0 {
      assert lines[..i][1..] == lines[1..][..i - 1];
    }
  }

  lemma {:induction false} JoinNext(lines: seq<string>, line: string)
    ensures |Join(lines + [line])| == |Join(lines)| + |line|
  {
    if lines == [] {
      assert [] + [line] == [line];
      assert [line][1..] == [];
    } else {
      JoinNext(lines[1..], line);
      assert (lines + [line])[1..] == lines[1..] + [line];
    }
  }

  /** Line `i` of the text is the line that starts there. */
  ghost predicate IsLine(text: string, i: nat)
    requires i < |Lines(text)|
  {
    var p, e := StartOf(Lines(text), i), StartOf(Lines(text), i) + |Lines(text)[i]|;
    LineAt(text, p, e) && Lines(text)[i] == text[p..e]
  }

  lemma {:induction false} LinesExactly(text: string, i: nat)
    requires i < |Lines(text)|
    ensures IsLine(text, i)
    decreases i
  {
    hide FirstLine, LineEnd;
    FirstLineExactly(text);
    LaterLines(text);
    var n := FirstLine(text);
    StartOfNext(Lines(text), i);
    if i > 0 {
      LinesExactly(text[n..], i - 1);
      var rest := Lines(text[n..]);
      assert rest[i - 1] == Lines(text)[i];
      var p, e := StartOf(rest, i - 1), StartOf(rest, i - 1) + |rest[i - 1]|;
      LineEndInside(text[n..], e);
      LaterLineAt(text, n, p, e);
      assert text[n..][p..e] == text[n + p..n + e];
    }
  }

  lemma LaterLines(text: string)
    requires text != []
    ensures
      var n := FirstLine(text);
      && Lines(text) == [text[..n]] + Lines(text[n..]) && Lines(text)[1..] == Lines(text[n..])
      && Lines(text)[0] == text[..n]
  {
  }

  lemma LaterLineAt(text: string, n: nat, p: nat, e: nat)
    requires n < |text| && LineAt(text, 0, n) && LineAt(text[n..], p, e)
    ensures LineAt(text, n + p, n + e)
  {
    LaterLineEnd(text, n, e);
    if p > 0 {
      LaterLineEnd(text, n, p);
    }
    forall q | n + p < q < n + e
      ensures !LineEnd(text, q)
    {
      LaterLineEnd(text, n, q - n);
    }
  }

  /** Every line of the text is one of its lines. */
  lemma {:induction false} EveryLine(text: string, p: nat, e: nat) returns (i: nat)
    requires LineAt(text, p, e)
    ensures i < |Lines(text)| && StartOf(Lines(text), i) == p && |Lines(text)[i]| == e - p
    decreases |text|
  {
    hide FirstLine, LineEnd;
    LineEndInside(text, e);
    FirstLineExactly(text);
    LaterLines(text);
    var n := FirstLine(text);
    if p == 0 {
      i := 0;
      assert !(n < e) && !(e < n);
      StartOfNext(Lines(text), 0);
    } else {
      LineEndInside(text, p);
      assert !(p < n);
      EarlierLineAt(text, n, p, e);
      var j := EveryLine(text[n..], p - n, e - n);
      i := j + 1;
      StartOfNext(Lines(text), i);
    }
  }

  lemma LineEndInside(text: string, e: nat)
    requires LineEnd(text, e)
    ensures text != [] && 0 < e <= |text|
  {
  }

  lemma EarlierLineAt(text: string, n: nat, p: nat, e: nat)
    requires n <= p < e <= |text| && LineAt(text, p, e) && 0 < n
    ensures LineAt(text[n..], p - n, e - n)
  {
    LaterLineEnd(text, n, e - n);
    if p > n {
      LaterLineEnd(text, n, p - n);
    }
    forall q | p - n < q < e - n
      ensures !LineEnd(text[n..], q)
    {
      LaterLineEnd(text, n, q);
    }
  }

  /** Two lines that start at one place are one line. */
  lemma LineAtUnique(text: string, p: nat, e: nat, e': nat)
    requires LineAt(text, p, e) && LineAt(text, p, e')
    ensures e == e'
  {
    hide LineEnd;
  }
}
