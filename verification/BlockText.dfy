/** What blocks and chunks say, told on the text and the line rules: no events, stacks of contexts or counters. */
module BlockText {
  import opened Wrappers
  import opened Text
  import opened LineText
  import opened Blocks

  // ----- what a line says -----

  /** A line without the line feeds, form feeds and carriage returns at its end. */
  ghost predicate Trimmed(line: string, value: string) {
    && value <= line && (forall k :: |value| <= k < |line| ==> line[k] as int in {10, 12, 13})
    && (value != [] ==> value[|value| - 1] as int !in {10, 12, 13})
  }

  lemma {:induction false} StripTrims(line: string)
    ensures Trimmed(line, StripEnd(line))
  {
    if line != [] {
      StripTrims(line[..|line| - 1]);
    }
  }

  lemma TrimmedUnique(line: string, v: string, v': string)
    requires Trimmed(line, v) && Trimmed(line, v')
    ensures v == v'
  {
    assert v != [] ==> line[|v| - 1] == v[|v| - 1];
    assert v' != [] ==> line[|v'| - 1] == v'[|v'| - 1];
    assert v == line[..|v|] && v' == line[..|v'|];
  }

  ghost predicate LineReads(text: string, p: nat, e: nat, value: string) {
    LineAt(text, p, e) && e <= |text| && Trimmed(text[p..e], value)
  }

  /** A line that starts at `p` is a heading. */
  ghost predicate HeadingLine(rules: Rules, text: string, p: nat, depth: nat, title: string) {
    exists e, value :: LineReads(text, p, e, value) && rules.heading(value) == Some((depth, title))
  }

  /** A line that starts at `p` names an article. */
  ghost predicate ArticleLine(rules: Rules, text: string, p: nat, name: string) {
    exists e, value :: LineReads(text, p, e, value) && rules.article(value) == Some(name)
  }

  ghost predicate AfterFormFeed(text: string, p: nat) { 0 < p <= |text| && text[p - 1] as int == 12 }

  /** Where the profile has a hard boundary. */
  ghost predicate Hard(profile: Profile, rules: Rules, text: string, p: nat) {
    || (profile.pages && AfterFormFeed(text, p))
    || (profile.headings && exists depth, title :: HeadingLine(rules, text, p, depth, title))
    || (profile.articles && exists name :: ArticleLine(rules, text, p, name))
  }

  // ----- events -----

  lemma {:induction false} EventsOfLine(
    profile: Profile, rules: Rules, lines: seq<string>, position: nat, i: nat)
    requires i < |lines| && forall j :: 0 <= j < |lines| ==> lines[j] != []
    ensures EventsOfLines(profile, rules, lines, position, position + StartOf(lines, i)) ==
            LineEvents(profile, rules, lines[i])
    decreases i
  {
    hide LineEvents;
    var rest := lines[1..];
    assert forall j :: 0 <= j < |rest| ==> rest[j] == lines[j + 1];
    StartOfNext(lines, i);
    if i == 0 {
      NoEventsBefore(profile, rules, rest, position + |lines[0]|, position);
    } else {
      EventsOfLine(profile, rules, rest, position + |lines[0]|, i - 1);
    }
  }

  lemma {:induction false} NoLineThere(profile: Profile, rules: Rules, lines: seq<string>, position: nat, p: nat)
    requires forall i :: 0 <= i < |lines| ==> position + StartOf(lines, i) != p
    ensures EventsOfLines(profile, rules, lines, position, p) == []
    decreases |lines|
  {
    hide LineEvents, StartOf;
    if lines != [] {
      var rest := lines[1..];
      StartOfNext(lines, 0);
      forall i | 0 <= i < |rest|
        ensures position + |lines[0]| + StartOf(rest, i) != p
      {
        StartOfNext(lines, i + 1);
      }
      NoLineThere(profile, rules, rest, position + |lines[0]|, p);
    }
  }

  /** The events at `p` are those of the line that starts there. */
  lemma LineEventsAt(profile: Profile, rules: Rules, text: string, p: nat, e: nat)
    requires LineAt(text, p, e) && e <= |text|
    ensures EventsOfLines(profile, rules, Lines(text), 0, p) == LineEvents(profile, rules, text[p..e])
  {
    hide LineAt, LineEvents, StartOf;
    var i := EveryLine(text, p, e);
    LinesJoin(text);
    LinesExactly(text, i);
    EventsOfLine(profile, rules, Lines(text), 0, i);
  }

  lemma NoEventsWithoutLine(profile: Profile, rules: Rules, text: string, p: nat)
    requires forall e :: !LineAt(text, p, e)
    ensures EventsOfLines(profile, rules, Lines(text), 0, p) == []
  {
    hide LineAt, LineEvents, StartOf;
    forall i | 0 <= i < |Lines(text)|
      ensures 0 + StartOf(Lines(text), i) != p
    {
      LinesExactly(text, i);
    }
    NoLineThere(profile, rules, Lines(text), 0, p);
  }

  lemma LineAtEnds(text: string, p: nat, e: nat)
    requires LineAt(text, p, e)
    ensures p < e <= |text|
  {
  }

  ghost predicate LineSays(profile: Profile, rules: Rules, text: string, p: nat, es: seq<Event>) {
    && PageBreak !in es
    && (forall d, t :: Heading(d, t) in es <==> profile.headings && HeadingLine(rules, text, p, d, t))
    && (forall a :: Article(a) in es <==> profile.articles && ArticleLine(rules, text, p, a))
  }

  lemma LineSaysEvents(profile: Profile, rules: Rules, text: string, p: nat)
    ensures LineSays(profile, rules, text, p, EventsOfLines(profile, rules, Lines(text), 0, p))
  {
    hide LineAt, EventsOfLines, StripEnd, Trimmed;
    if e: nat :| LineAt(text, p, e) {
      LineAtEnds(text, p, e);
      LineEventsAt(profile, rules, text, p, e);
      StripTrims(text[p..e]);
      var value := StripEnd(text[p..e]);
      forall e', value' | LineReads(text, p, e', value')
        ensures value' == value
      {
        LineAtUnique(text, p, e, e');
        TrimmedUnique(text[p..e], value, value');
      }
      assert LineReads(text, p, e, value);
    } else {
      NoEventsWithoutLine(profile, rules, text, p);
    }
  }

  /** What happens at a position, in order: a page break, a heading, an article, each at most once. */
  ghost predicate Happens(profile: Profile, rules: Rules, text: string, p: nat, es: seq<Event>) {
    && (PageBreak in es <==> profile.pages && AfterFormFeed(text, p))
    && (forall d, t :: Heading(d, t) in es <==> profile.headings && HeadingLine(rules, text, p, d, t))
    && (forall a :: Article(a) in es <==> profile.articles && ArticleLine(rules, text, p, a))
    && (forall i, j :: 0 <= i < j < |es| ==>
          (es[i].PageBreak? && !es[j].PageBreak?) || (es[i].Heading? && es[j].Article?))
  }

  /** The events of a position, told by the text. */
  lemma EventsExactly(profile: Profile, rules: Rules, text: string, p: nat)
    ensures Happens(profile, rules, text, p, EventsAt(profile, rules, text, p))
  {
    hide *;
    LinesJoin(text);
    LineSaysEvents(profile, rules, text, p);
    EventsOfLinesShape(profile, rules, Lines(text), 0, p);
    EventsFrom(profile, rules, text, p);
  }

  lemma EventsFrom(profile: Profile, rules: Rules, text: string, p: nat)
    requires
      var ls := EventsOfLines(profile, rules, Lines(text), 0, p);
      && LineSays(profile, rules, text, p, ls)
      && |ls| <= 2 && (forall i :: 0 <= i < |ls| ==> !ls[i].PageBreak?)
      && (|ls| == 2 ==> ls[0].Heading? && ls[1].Article?)
    ensures Happens(profile, rules, text, p, EventsAt(profile, rules, text, p))
  {
    hide EventsOfLines, HeadingLine, ArticleLine, Lines;
    var ps, ls := PageEvents(profile, text, p), EventsOfLines(profile, rules, Lines(text), 0, p);
    assert |ps| <= 1 && (forall i :: 0 <= i < |ps| ==> ps[i] == PageBreak);
    assert ps != [] <==> profile.pages && AfterFormFeed(text, p);
    hide PageEvents, AfterFormFeed;
    PageFirst(ps, ls);
  }

  /** A page break comes before what the line says. */
  lemma PageFirst(ps: seq<Event>, ls: seq<Event>)
    requires |ps| <= 1 && forall i :: 0 <= i < |ps| ==> ps[i] == PageBreak
    requires |ls| <= 2 && (forall i :: 0 <= i < |ls| ==> !ls[i].PageBreak?)
    requires |ls| == 2 ==> ls[0].Heading? && ls[1].Article?
    ensures PageBreak in ps + ls <==> ps != []
    ensures forall x: Event :: !x.PageBreak? ==> (x in ps + ls <==> x in ls)
    ensures
      var es := ps + ls;
      forall i, j :: 0 <= i < j < |es| ==>
                       (es[i].PageBreak? && !es[j].PageBreak?) || (es[i].Heading? && es[j].Article?)
  {
    assert forall i, j :: 0 <= i < j < |ls| ==> ls[i].Heading? && ls[j].Article?;
    if ps == [] {
      assert ps + ls == ls;
    } else {
      var es := ps + ls;
      assert es == [PageBreak] + ls;
      assert es[0] == PageBreak && forall i :: 0 < i < |es| ==> es[i] == ls[i - 1];
      assert forall x :: x in es <==> x == PageBreak || x in ls;
    }
  }

  lemma EventExactly(profile: Profile, rules: Rules, text: string, p: nat)
    ensures p in EventsOf(profile, rules, text) <==> Hard(profile, rules, text, p)
    ensures Get(EventsOf(profile, rules, text), p) == EventsAt(profile, rules, text, p)
  {
    EventsExactly(profile, rules, text, p);
    EventsOfAreFiled(profile, rules, text);
    hide EventsAt, HeadingLine, ArticleLine, AfterFormFeed;
    var es := EventsAt(profile, rules, text, p);
    assert Get(EventsOf(profile, rules, text), p) == es;
    assert p in EventsOf(profile, rules, text) <==> es != [];
    if es != [] {
      match es[0] {
        case PageBreak => assert PageBreak in es;
        case Heading(d, t) => assert Heading(d, t) in es;
        case Article(a) => assert Article(a) in es;
      }
    }
  }

  // ----- the context in force -----

  /** No page break where pages are hard, and no article line. */
  ghost predicate Quiet(profile: Profile, rules: Rules, text: string, p: nat) {
    !(profile.pages && AfterFormFeed(text, p)) && forall b :: !ArticleLine(rules, text, p, b)
  }

  /** An article line with neither another nor, where pages are hard, a page break after it. */
  ghost predicate ArticleInForce(profile: Profile, rules: Rules, text: string, n: nat, q: nat, a: string) {
    && profile.articles && q <= n && ArticleLine(rules, text, q, a)
    && forall p :: q < p <= n ==> Quiet(profile, rules, text, p)
  }

  ghost predicate ArticleTells(profile: Profile, rules: Rules, text: string, n: nat, article: Option<string>) {
    match article
    case Some(a) => exists q :: ArticleInForce(profile, rules, text, n, q, a)
    case None => forall q, a :: !ArticleInForce(profile, rules, text, n, q, a)
  }

  /** The heading lines up to `n`, where headings are hard, and where each starts. */
  ghost predicate HeadingLines(
    profile: Profile, rules: Rules, text: string, n: nat, at: seq<nat>, hs: seq<(nat, string)>)
  {
    && |at| == |hs| && (forall j, k :: 0 <= j < k < |at| ==> at[j] < at[k])
    && (forall k :: 0 <= k < |hs| ==>
          profile.headings && at[k] < n && HeadingLine(rules, text, at[k], hs[k].0, hs[k].1))
    && (forall p: nat, d: nat, t ::
          profile.headings && p < n && HeadingLine(rules, text, p, d, t) ==> p in at)
  }

  ghost predicate StackedAt(
    profile: Profile, rules: Rules, text: string, n: nat, section: seq<string>, at: seq<nat>, hs: seq<(nat, string)>)
  {
    HeadingLines(profile, rules, text, n + 1, at, hs) && section == Stack(hs)
  }

  /** What is in force at `n`: the page by the form feeds passed, the stack of the headings, the latest article. */
  ghost predicate InForce(
    profile: Profile, rules: Rules, text: string, n: nat, page: Option<nat>, section: seq<string>,
    article: Option<string>)
    requires n <= |text|
  {
    && page == (if profile.pages then Some(1 + |set i | 0 <= i < n && text[i] as int == 12|) else None)
    && (exists at, hs :: StackedAt(profile, rules, text, n, section, at, hs))
    && ArticleTells(profile, rules, text, n, article)
  }

  lemma {:induction false} HeadingsOfFew(es: seq<Event>)
    requires forall i, j :: 0 <= i < j < |es| ==> !(es[i].Heading? && es[j].Heading?)
    ensures |HeadingsOf(es)| <= 1
    ensures forall d: nat, t :: (d, t) in HeadingsOf(es) <==> Heading(d, t) in es
    ensures (forall i :: 0 <= i < |es| ==> !es[i].Heading?) ==> HeadingsOf(es) == []
  {
    if es != [] {
      var init := es[..|es| - 1];
      HeadingsOfFew(init);
      assert es == init + [es[|es| - 1]];
    }
  }

  lemma OwnHeadings(profile: Profile, rules: Rules, text: string, p: nat)
    ensures
      var own := HeadingsOf(Get(EventsOf(profile, rules, text), p));
      && |own| <= 1
      && forall d: nat, t :: (d, t) in own <==> profile.headings && HeadingLine(rules, text, p, d, t)
  {
    EventsExactly(profile, rules, text, p);
    EventExactly(profile, rules, text, p);
    hide EventsOf, EventsAt, HeadingLine, ArticleLine, AfterFormFeed, HeadingsOf, Get;
    HeadingsOfFew(Get(EventsOf(profile, rules, text), p));
  }

  lemma {:induction false} HeadingsBelowTell(profile: Profile, rules: Rules, text: string, n: nat)
    returns (at: seq<nat>)
    ensures HeadingLines(profile, rules, text, n, at, HeadingsBelow(EventsOf(profile, rules, text), n))
  {
    hide HeadingLines, EventsOf, HeadingLine, HeadingsOf, Get;
    if n == 0 {
      at := [];
      NoHeadings(profile, rules, text);
    } else {
      var events := EventsOf(profile, rules, text);
      var before := HeadingsBelowTell(profile, rules, text, n - 1);
      OwnHeadings(profile, rules, text, n - 1);
      var own := HeadingsOf(Get(events, n - 1));
      at := if own == [] then before else before + [n - 1];
      HeadingsNext(profile, rules, text, n, before, HeadingsBelow(events, n - 1), own);
    }
  }

  lemma NoHeadings(profile: Profile, rules: Rules, text: string)
    ensures HeadingLines(profile, rules, text, 0, [], [])
  {
  }

  lemma HeadingsNext(
    profile: Profile, rules: Rules, text: string, n: nat, at: seq<nat>, hs: seq<(nat, string)>, own: seq<(nat, string)>)
    requires n > 0 && HeadingLines(profile, rules, text, n - 1, at, hs) && |own| <= 1
    requires forall d: nat, t :: (d, t) in own <==> profile.headings && HeadingLine(rules, text, n - 1, d, t)
    ensures HeadingLines(profile, rules, text, n, if own == [] then at else at + [n - 1], hs + own)
  {
    hide HeadingLine;
    var all := if own == [] then at else at + [n - 1];
    assert forall p :: p in all <==> p in at || (own != [] && p == n - 1);
    if own == [] {
      assert hs + own == hs;
      var m := n - 1;
      forall d: nat, t
        ensures !(profile.headings && HeadingLine(rules, text, m, d, t))
      {
        assert (d, t) !in own;
      }
    } else {
      assert (own[0].0, own[0].1) == own[0] && own[0] in own;
      assert profile.headings && HeadingLine(rules, text, n - 1, own[0].0, own[0].1);
    }
  }

  lemma ArticleTold(profile: Profile, rules: Rules, text: string, n: nat, article: Option<string>)
    requires ArticleHolds(profile, rules, text, n + 1, article)
    ensures ArticleTells(profile, rules, text, n, article)
  {
    hide LatestArticle, ArticleInForce;
    var m := n + 1;
    forall q: nat, a
      ensures LatestArticle(profile, rules, text, m, q, a) <==> ArticleInForce(profile, rules, text, n, q, a)
    {
      LatestExactly(profile, rules, text, n, q, a);
    }
  }

  lemma QuietExactly(profile: Profile, rules: Rules, text: string, p: nat)
    requires profile.articles
    ensures Quiet(profile, rules, text, p) <==>
            PageEvents(profile, text, p) == [] && forall b :: Article(b) !in EventsAt(profile, rules, text, p)
  {
    EventsExactly(profile, rules, text, p);
    hide EventsAt, ArticleLine, HeadingLine;
  }

  lemma LatestExactly(profile: Profile, rules: Rules, text: string, n: nat, q: nat, a: string)
    ensures LatestArticle(profile, rules, text, n + 1, q, a) <==> ArticleInForce(profile, rules, text, n, q, a)
  {
    hide EventsAt, ArticleLine, HeadingLine, PageEvents, AfterFormFeed, Quiet;
    EventsExactly(profile, rules, text, q);
    if profile.articles {
      forall p: nat
        ensures Quiet(profile, rules, text, p) <==>
                PageEvents(profile, text, p) == [] && forall b :: Article(b) !in EventsAt(profile, rules, text, p)
      {
        QuietExactly(profile, rules, text, p);
      }
    }
  }

  lemma ContextTold(profile: Profile, rules: Rules, text: string, n: nat)
    requires n <= |text|
    ensures
      var c := ContextBelow(EventsOf(profile, rules, text), n + 1);
      InForce(profile, rules, text, n, if profile.pages then Some(c.page) else None, c.headings, c.article)
  {
    hide *;
    var c := ContextBelow(EventsOf(profile, rules, text), n + 1);
    ContextSays(profile, rules, text, n);
    ArticleTold(profile, rules, text, n, c.article);
    FeedsCounted(text, n);
    var at := HeadingsBelowTell(profile, rules, text, n + 1);
    ContextFrom(profile, rules, text, n, c, at, HeadingsBelow(EventsOf(profile, rules, text), n + 1));
  }

  lemma FeedsCounted(text: string, n: nat)
    requires n <= |text|
    ensures Count(text[..n], FORM_FEED) == |set i | 0 <= i < n && text[i] as int == 12|
  {
    CountExactly(text[..n], FORM_FEED);
    assert (set i | 0 <= i < |text[..n]| && text[..n][i] == FORM_FEED) == set i | 0 <= i < n && text[i] as int == 12;
  }

  lemma ContextFrom(
    profile: Profile, rules: Rules, text: string, n: nat, c: Context, at: seq<nat>, hs: seq<(nat, string)>)
    requires n <= |text| && (profile.pages ==> c.page == 1 + |set i | 0 <= i < n && text[i] as int == 12|)
    requires HeadingLines(profile, rules, text, n + 1, at, hs) && c.headings == Stack(hs)
    requires ArticleTells(profile, rules, text, n, c.article)
    ensures InForce(profile, rules, text, n, if profile.pages then Some(c.page) else None, c.headings, c.article)
  {
    hide HeadingLines, ArticleTells, Stack;
    assert StackedAt(profile, rules, text, n, c.headings, at, hs);
  }

  // ----- blocks -----

  /** A block: more than whitespace between two hard boundaries or ends of the text, with none inside. */
  ghost predicate BlockTells(profile: Profile, rules: Rules, text: string, b: Block) {
    && b.start < b.end <= |text|
    && (exists i :: b.start <= i < b.end && !White(text[i]))
    && (b.start == 0 || Hard(profile, rules, text, b.start))
    && (b.end == |text| || Hard(profile, rules, text, b.end))
    && (forall p :: b.start < p < b.end ==> !Hard(profile, rules, text, p))
    && InForce(profile, rules, text, b.start, b.page, b.section, b.article)
  }

  lemma BlockTold(profile: Profile, rules: Rules, text: string, b: Block)
    requires GoodBlock(profile, text, EventsOf(profile, rules, text), b, |text|)
    ensures BlockTells(profile, rules, text, b)
  {
    ContextTold(profile, rules, text, b.start);
    BlankExactly(text, b.start, b.end);
    hide Hard, InForce, EventsOf, ContextBelow, White, Blank;
    forall p: nat
      ensures p in EventsOf(profile, rules, text) <==> Hard(profile, rules, text, p)
    {
      EventExactly(profile, rules, text, p);
    }
  }

  /** Blocks in the order of the text that leave nothing but whitespace out. */
  ghost predicate Covers(text: string, rs: seq<Range>) {
    && (forall i :: 0 <= i < |rs| ==> rs[i].start <= rs[i].end <= |text|)
    && (forall i, j :: 0 <= i < j < |rs| ==> rs[i].end <= rs[j].start)
    && (forall i :: 0 <= i < |text| && !White(text[i]) ==> exists k :: 0 <= k < |rs| && rs[k].start <= i < rs[k].end)
  }

  lemma TilesCovers(text: string, rs: seq<Range>)
    requires Tiles(text, rs, 0, |text|)
    ensures Covers(text, rs)
  {
    hide Tiles, IsSpace, White;
    TilesOrdered(text, rs, 0, |text|);
    forall i | 0 <= i < |text| && !White(text[i])
      ensures exists k :: 0 <= k < |rs| && rs[k].start <= i < rs[k].end
    {
      CharactersExactly(text[i]);
      TilesCover(text, rs, 0, |text|, i);
    }
  }

  /** The blocks, told on the text. */
  lemma BlocksTheorem(profile: Profile, rules: Rules, text: string, blocks: seq<Block>)
    requires Structured(profile, text, EventsOf(profile, rules, text), blocks, |text|)
    ensures Covers(text, RangesOf(blocks)) && |RangesOf(blocks)| == |blocks|
    ensures forall i :: 0 <= i < |blocks| ==>
                          && RangesOf(blocks)[i] == Range(blocks[i].start, blocks[i].end)
                          && BlockTells(profile, rules, text, blocks[i])
  {
    hide GoodBlock, BlockTells, Tiles, Covers;
    TilesCovers(text, RangesOf(blocks));
    BlockRangesIndex(blocks);
    forall i | 0 <= i < |blocks|
      ensures BlockTells(profile, rules, text, blocks[i])
    {
      BlockTold(profile, rules, text, blocks[i]);
    }
  }

  lemma {:induction false} BlockRangesIndex(blocks: seq<Block>)
    ensures |RangesOf(blocks)| == |blocks|
    ensures forall i :: 0 <= i < |blocks| ==> RangesOf(blocks)[i] == Range(blocks[i].start, blocks[i].end)
  {
    if blocks != [] {
      BlockRangesIndex(blocks[..|blocks| - 1]);
    }
  }
}
