/** Structural blocks: the text cut at page breaks, headings and articles, with the context of each piece. */
module Blocks {
  import opened Wrappers
  import opened Text

  /** Which boundaries a profile treats as hard. */
  datatype Profile = Profile(pages: bool, headings: bool, articles: bool)

  /** The line patterns: a heading's depth and title, an article's number. */
  datatype Rules = Rules(heading: string -> Option<(nat, string)>, article: string -> Option<string>)

  /** Heading depths are the one to six `#` of the pattern. */
  ghost predicate Deep(rules: Rules) {
    forall line :: rules.heading(line).Some? ==> 1 <= rules.heading(line).value.0 <= 6
  }

  datatype Event = PageBreak | Heading(depth: nat, title: string) | Article(name: string)

  type Events = map<nat, seq<Event>>

  datatype Block = Block(start: nat, end: nat, page: Option<nat>, section: seq<string>, article: Option<string>)

  // ----- events -----

  /** A line without the line feeds, carriage returns and form feeds it ends with. */
  function StripEnd(line: string): string {
    if line != [] && (line[|line| - 1] as int == 10 || line[|line| - 1] as int == 13 || line[|line| - 1] == FORM_FEED)
    then StripEnd(line[..|line| - 1])
    else line
  }

  function LineEvents(profile: Profile, rules: Rules, line: string): seq<Event> {
    var value := StripEnd(line);
    (match rules.heading(value)
     case Some(h) => if profile.headings then [Heading(h.0, h.1)] else []
     case None => [])
    + (match rules.article(value)
       case Some(a) => if profile.articles then [Article(a)] else []
       case None => [])
  }

  function PageEvents(profile: Profile, text: string, p: nat): seq<Event> {
    if profile.pages && 0 < p <= |text| && text[p - 1] == FORM_FEED then [PageBreak] else []
  }

  /** The events of the lines from `position` on. */
  function EventsOfLines(profile: Profile, rules: Rules, lines: seq<string>, position: nat, p: nat): seq<Event> {
    if lines == [] then []
    else
      (if p == position then LineEvents(profile, rules, lines[0]) else [])
      + EventsOfLines(profile, rules, lines[1..], position + |lines[0]|, p)
  }

  /** What happens at a position: first the page break before it, then what the line that starts there says. */
  function EventsAt(profile: Profile, rules: Rules, text: string, p: nat): seq<Event> {
    PageEvents(profile, text, p) + EventsOfLines(profile, rules, Lines(text), 0, p)
  }

  function Get(events: Events, p: nat): seq<Event> { if p in events then events[p] else [] }

  function Put(events: Events, p: nat, es: seq<Event>): Events {
    if es == [] then events else events[p := Get(events, p) + es]
  }

  /** No empty list is ever stored: a key of the map is a position where something happens. */
  ghost predicate Dense(events: Events) { forall p :: p in events ==> events[p] != [] }

  ghost predicate PagesFiled(profile: Profile, text: string, n: nat, events: Events) {
    && Dense(events)
    && forall p: nat :: Get(events, p) == if p <= n then PageEvents(profile, text, p) else []
  }

  ghost predicate AllFiled(profile: Profile, rules: Rules, text: string, events: Events) {
    Dense(events) && forall p :: Get(events, p) == EventsAt(profile, rules, text, p)
  }

  /** The events of a text, position by position. */
  ghost function EventsOf(profile: Profile, rules: Rules, text: string): Events {
    map p: nat | p <= |text| && EventsAt(profile, rules, text, p) != [] :: EventsAt(profile, rules, text, p)
  }

  method CollectEvents(text: string, profile: Profile, rules: Rules) returns (events: Events)
    ensures AllFiled(profile, rules, text, events)
  {
    hide Lines, EventsOfLines, FiledFrom, PagesFiled, PageEvents, AllFiled;
    events := map[];
    NoPagesFiled(profile, text);
    if profile.pages {
      for i := 0 to |text|
        invariant PagesFiled(profile, text, i, events)
      {
        PageFiled(profile, text, i, events);
        if text[i] == FORM_FEED {
          events := Put(events, i + 1, [PageBreak]);
        }
      }
    }
    ghost var pages := events;
    var lines := Lines(text);
    var position: nat := 0;
    LinesJoin(text);
    FilingStarts(profile, rules, text, pages);
    for i := 0 to |lines|
      invariant Dense(events)
      invariant FiledFrom(profile, rules, lines, i, position, events, pages)
    {
      LinesFiled(profile, rules, lines, i, position, events, pages);
      events := Put(events, position, LineEvents(profile, rules, lines[i]));
      position := position + |lines[i]|;
    }
    FilingEnds(profile, rules, text, position, events, pages);
  }

  lemma NoPagesFiled(profile: Profile, text: string)
    ensures PagesFiled(profile, text, 0, map[])
    ensures !profile.pages ==> PagesFiled(profile, text, |text|, map[])
  {
  }

  lemma PageFiled(profile: Profile, text: string, i: nat, events: Events)
    requires i < |text| && profile.pages && PagesFiled(profile, text, i, events)
    ensures PagesFiled(profile, text, i + 1, if text[i] == FORM_FEED then Put(events, i + 1, [PageBreak]) else events)
  {
    assert Get(events, i + 1) == [];
  }

  lemma FilingStarts(profile: Profile, rules: Rules, text: string, pages: Events)
    requires PagesFiled(profile, text, |text|, pages)
    ensures Dense(pages) && FiledFrom(profile, rules, Lines(text), 0, 0, pages, pages)
  {
    assert Lines(text)[0..] == Lines(text);
  }

  lemma FilingEnds(profile: Profile, rules: Rules, text: string, position: nat, events: Events, pages: Events)
    requires PagesFiled(profile, text, |text|, pages) && Dense(events)
    requires FiledFrom(profile, rules, Lines(text), |Lines(text)|, position, events, pages)
    ensures AllFiled(profile, rules, text, events)
  {
    var lines := Lines(text);
    assert lines[|lines|..] == [];
    forall p: nat
      ensures Get(events, p) == EventsAt(profile, rules, text, p)
    {
      assert Get(events, p) + EventsOfLines(profile, rules, lines[|lines|..], position, p) ==
             Get(pages, p) + EventsOfLines(profile, rules, lines, 0, p);
      assert Get(events, p) + [] == Get(events, p);
      assert Get(pages, p) == PageEvents(profile, text, p);
    }
  }

  lemma {:induction false} NoEventsBefore(profile: Profile, rules: Rules, lines: seq<string>, position: nat, p: nat)
    requires p < position
    ensures EventsOfLines(profile, rules, lines, position, p) == []
    decreases |lines|
  {
    if lines != [] {
      NoEventsBefore(profile, rules, lines[1..], position + |lines[0]|, p);
    }
  }

  /** What is filed so far and what the lines from `i` on still add make up the page breaks and all lines. */
  ghost predicate FiledFrom(
    profile: Profile, rules: Rules, lines: seq<string>, i: nat, position: nat, events: Events, pages: Events)
    requires i <= |lines|
  {
    forall p: nat :: Get(events, p) + EventsOfLines(profile, rules, lines[i..], position, p) ==
                     Get(pages, p) + EventsOfLines(profile, rules, lines, 0, p)
  }

  lemma LinesFiled(
    profile: Profile, rules: Rules, lines: seq<string>, i: nat, position: nat, events: Events, pages: Events)
    requires i < |lines| && FiledFrom(profile, rules, lines, i, position, events, pages)
    ensures
      var more := Put(events, position, LineEvents(profile, rules, lines[i]));
      FiledFrom(profile, rules, lines, i + 1, position + |lines[i]|, more, pages)
  {
    hide LineEvents, EventsOfLines;
    var events' := Put(events, position, LineEvents(profile, rules, lines[i]));
    forall p: nat
      ensures Get(events', p) + EventsOfLines(profile, rules, lines[i + 1..], position + |lines[i]|, p) ==
              Get(pages, p) + EventsOfLines(profile, rules, lines, 0, p)
    {
      LineFiled(profile, rules, lines, i, position, events, p);
    }
  }

  lemma LineFiled(profile: Profile, rules: Rules, lines: seq<string>, i: nat, position: nat, events: Events, p: nat)
    requires i < |lines|
    ensures Get(Put(events, position, LineEvents(profile, rules, lines[i])), p)
            + EventsOfLines(profile, rules, lines[i + 1..], position + |lines[i]|, p) ==
            Get(events, p) + EventsOfLines(profile, rules, lines[i..], position, p)
  {
    hide LineEvents;
    var rest := lines[i + 1..];
    assert lines[i..][0] == lines[i] && lines[i..][1..] == rest;
    var after := EventsOfLines(profile, rules, rest, position + |lines[i]|, p);
    var own := if p == position then LineEvents(profile, rules, lines[i]) else [];
    assert EventsOfLines(profile, rules, lines[i..], position, p) == own + after;
    assert Get(Put(events, position, LineEvents(profile, rules, lines[i])), p) == Get(events, p) + own;
    assert Get(events, p) + (own + after) == (Get(events, p) + own) + after;
  }

  // ----- context -----

  datatype Context = Context(page: nat, headings: seq<string>, article: Option<string>)

  const INITIAL := Context(1, [], None)

  function Apply(c: Context, e: Event): Context {
    match e
    case PageBreak => c.(page := c.page + 1, article := None)
    case Heading(depth, title) =>
      c.(headings := (if 0 < depth && depth - 1 <= |c.headings| then c.headings[..depth - 1] else c.headings) + [title])
    case Article(name) => c.(article := Some(name))
  }

  function ApplyAll(c: Context, es: seq<Event>): Context {
    if es == [] then c else Apply(ApplyAll(c, es[..|es| - 1]), es[|es| - 1])
  }

  /** The context after every event at a position below `n`, read position by position. */
  function ContextBelow(events: Events, n: nat): Context {
    if n == 0 then INITIAL else ApplyAll(ContextBelow(events, n - 1), Get(events, n - 1))
  }

  /** Nothing changes where nothing happens. */
  lemma {:induction false} ContextSteady(events: Events, m: nat, n: nat)
    requires m <= n && forall p :: m <= p < n ==> p !in events
    ensures ContextBelow(events, n) == ContextBelow(events, m)
  {
    if m < n {
      ContextSteady(events, m, n - 1);
    }
  }

  // ----- the blocks -----

  function RangesOf(blocks: seq<Block>): seq<Range> {
    if blocks == [] then []
    else RangesOf(blocks[..|blocks| - 1]) + [Range(blocks[|blocks| - 1].start, blocks[|blocks| - 1].end)]
  }

  /** A block's page, section and article are those in force where it starts, and nothing happens inside it. */
  ghost predicate InContext(profile: Profile, events: Events, b: Block) {
    && (var c := ContextBelow(events, b.start + 1);
        b.page == (if profile.pages then Some(c.page) else None) && b.section == c.headings && b.article == c.article)
    && (forall p :: b.start < p < b.end ==> p !in events)
  }

  /** The blocks tile the text up to a point; none is blank; each is in its context. */
  ghost predicate Structured(profile: Profile, text: string, events: Events, blocks: seq<Block>, upTo: nat)
    requires upTo <= |text|
  {
    && Tiles(text, RangesOf(blocks), 0, upTo)
    && forall i :: 0 <= i < |blocks| ==> GoodBlock(profile, text, events, blocks[i], upTo)
  }

  ghost predicate GoodBlock(profile: Profile, text: string, events: Events, b: Block, upTo: nat)
    requires upTo <= |text|
  {
    && b.start < b.end <= upTo && !Blank(text[b.start..b.end]) && InContext(profile, events, b)
    && Cut(text, events, b.start) && Cut(text, events, b.end)
  }

  /** Blocks begin and end only where something happens, or at the ends of the text. */
  ghost predicate Cut(text: string, events: Events, p: nat) { p == 0 || p in events || p == |text| }

  /** The positions where something happens, in order. */
  ghost predicate Sorted(positions: seq<nat>, events: Events) {
    && Ascending(positions)
    && (forall p :: p in positions <==> p in events)
  }

  function InsertPosition(p: nat, s: seq<nat>): seq<nat> {
    if s == [] || p < s[0] then [p] + s else [s[0]] + InsertPosition(p, s[1..])
  }

  ghost predicate Ascending(s: seq<nat>) { forall i, j :: 0 <= i < j < |s| ==> s[i] < s[j] }

  lemma {:induction false} InsertSorted(p: nat, s: seq<nat>)
    requires p !in s && Ascending(s)
    ensures Ascending(InsertPosition(p, s))
    ensures forall x :: x in InsertPosition(p, s) <==> x == p || x in s
  {
    if s != [] && p >= s[0] {
      var tail := s[1..];
      assert s == [s[0]] + tail;
      assert forall i :: 0 <= i < |tail| ==> tail[i] == s[i + 1];
      InsertSorted(p, tail);
      var u := InsertPosition(p, tail);
      assert s[0] != p;
      AscendingCons(s[0], u);
    } else if s != [] {
      AscendingCons(p, s);
    }
  }

  lemma AscendingCons(x: nat, s: seq<nat>)
    requires Ascending(s) && forall y :: y in s ==> x < y
    ensures Ascending([x] + s)
  {
    var t := [x] + s;
    forall i, j | 0 <= i < j < |t|
      ensures t[i] < t[j]
    {
      assert t[j] == s[j - 1] && s[j - 1] in s;
      if i > 0 {
        assert t[i] == s[i - 1];
      }
    }
  }

  method SortedPositions(events: Events) returns (positions: seq<nat>)
    ensures Sorted(positions, events)
  {
    positions := [];
    var rest := events.Keys;
    while rest != {}
      invariant rest <= events.Keys
      invariant Ascending(positions)
      invariant forall p :: p in positions <==> p in events && p !in rest
      decreases |rest|
    {
      var p :| p in rest;
      InsertSorted(p, positions);
      rest := rest - {p};
      positions := InsertPosition(p, positions);
    }
  }

  lemma {:induction false} LinesWithin(profile: Profile, rules: Rules, lines: seq<string>, position: nat, p: nat)
    requires forall i :: 0 <= i < |lines| ==> lines[i] != []
    requires EventsOfLines(profile, rules, lines, position, p) != []
    ensures p < position + |Join(lines)|
    decreases |lines|
  {
    var rest := lines[1..];
    assert forall i :: 0 <= i < |rest| ==> rest[i] == lines[i + 1];
    if p != position {
      LinesWithin(profile, rules, rest, position + |lines[0]|, p);
    }
  }

  lemma EventsWithin(profile: Profile, rules: Rules, text: string, events: Events)
    requires AllFiled(profile, rules, text, events)
    ensures forall p :: p in events ==> p <= |text|
  {
    forall p | p in events
      ensures p <= |text|
    {
      assert Get(events, p) != [];
      LinesJoin(text);
      if PageEvents(profile, text, p) == [] {
        assert EventsAt(profile, rules, text, p) == EventsOfLines(profile, rules, Lines(text), 0, p);
        LinesWithin(profile, rules, Lines(text), 0, p);
      }
    }
  }

  /** The piece up to `end` becomes a block unless it is empty or blank. */
  function Flush(profile: Profile, text: string, blocks: seq<Block>, start: nat, end: nat, c: Context): seq<Block>
    requires end <= |text|
  {
    if end > start && !Blank(text[start..end]) then
      blocks + [Block(start, end, if profile.pages then Some(c.page) else None, c.headings, c.article)]
    else blocks
  }

  lemma FlushStructured(
    profile: Profile, text: string, events: Events, blocks: seq<Block>, start: nat, end: nat, c: Context)
    requires start <= end <= |text| && Structured(profile, text, events, blocks, start)
    requires forall p :: start < p < end ==> p !in events
    requires start < end ==> c == ContextBelow(events, start + 1)
    requires Cut(text, events, start) && Cut(text, events, end)
    ensures Structured(profile, text, events, Flush(profile, text, blocks, start, end, c), end)
  {
    hide Cut, Blank, InContext, ContextBelow, Tiles, RangesOf, GoodBlock;
    BlockInContext(profile, events, start, end, c);
    forall b | GoodBlock(profile, text, events, b, start)
      ensures GoodBlock(profile, text, events, b, end)
    {
      GoodBlockWiden(profile, text, events, b, start, end);
    }
    if end > start && !Blank(text[start..end]) {
      var b := Block(start, end, if profile.pages then Some(c.page) else None, c.headings, c.article);
      TileNext(text, RangesOf(blocks), start, end);
      RangesOfNext(blocks, b);
      NewBlockGood(profile, text, events, b, start, end);
    } else {
      TileSkip(text, RangesOf(blocks), start, end);
    }
  }

  lemma GoodBlockWiden(profile: Profile, text: string, events: Events, b: Block, start: nat, end: nat)
    requires start <= end <= |text| && GoodBlock(profile, text, events, b, start)
    ensures GoodBlock(profile, text, events, b, end)
  {
  }

  lemma NewBlockGood(profile: Profile, text: string, events: Events, b: Block, start: nat, end: nat)
    requires start < end <= |text| && b.start == start && b.end == end && !Blank(text[start..end])
    requires InContext(profile, events, b)
    requires Cut(text, events, start) && Cut(text, events, end)
    ensures GoodBlock(profile, text, events, b, end)
  {
  }

  lemma RangesOfNext(blocks: seq<Block>, b: Block)
    ensures RangesOf(blocks + [b]) == RangesOf(blocks) + [Range(b.start, b.end)]
  {
    assert (blocks + [b])[..|blocks|] == blocks;
  }

  lemma BlockInContext(profile: Profile, events: Events, start: nat, end: nat, c: Context)
    requires forall p :: start < p < end ==> p !in events
    requires start < end ==> c == ContextBelow(events, start + 1)
    ensures
      var page := if profile.pages then Some(c.page) else None;
      start < end ==> InContext(profile, events, Block(start, end, page, c.headings, c.article))
  {
  }

  lemma TileNext(text: string, rs: seq<Range>, start: nat, end: nat)
    requires start <= end <= |text| && Tiles(text, rs, 0, start)
    ensures Tiles(text, rs + [Range(start, end)], 0, end)
  {
    var tile := [Range(start, end)];
    assert text[start..start] == [] && text[end..end] == [] && tile[1..] == [];
    assert Tiles(text, tile, start, end);
    TilesConcat(text, rs, tile, 0, start, end);
  }

  lemma TileSkip(text: string, rs: seq<Range>, start: nat, end: nat)
    requires start <= end <= |text| && Tiles(text, rs, 0, start) && (start < end ==> Blank(text[start..end]))
    ensures Tiles(text, rs, 0, end)
  {
    assert Blank(text[start..end]);
    TilesConcat(text, rs, [], 0, start, end);
    assert rs + [] == rs;
  }

  function Next(text: string, positions: seq<nat>, i: nat): nat {
    if i < |positions| then positions[i] else |text| + 1
  }

  /** Before the event position `i`: what lies between the last position and the next is still one open piece. */
  ghost predicate Scanning(
    profile: Profile, text: string, events: Events, positions: seq<nat>, i: nat, start: nat, c: Context,
    blocks: seq<Block>)
  {
    && i <= |positions| && start <= |text| && start <= Next(text, positions, i)
    && (forall p :: start < p < Next(text, positions, i) ==> p !in events)
    && (i > 0 ==> start == positions[i - 1]) && Cut(text, events, start)
    && c == ContextBelow(events, Next(text, positions, i))
    && Structured(profile, text, events, blocks, start)
  }

  lemma ScanStarts(profile: Profile, text: string, events: Events, positions: seq<nat>)
    requires Sorted(positions, events) && forall p :: p in events ==> p <= |text|
    ensures Scanning(profile, text, events, positions, 0, 0, INITIAL, [])
  {
    var next := Next(text, positions, 0);
    forall p | p in events
      ensures next <= p
    {
      var k :| 0 <= k < |positions| && positions[k] == p;
    }
    ContextSteady(events, 0, next);
    assert text[0..0] == [];
  }

  lemma FlushScanned(
    profile: Profile, text: string, events: Events, positions: seq<nat>, i: nat, start: nat, c: Context,
    blocks: seq<Block>, end: nat)
    requires Scanning(profile, text, events, positions, i, start, c, blocks)
    requires start <= end <= |text| && end <= Next(text, positions, i) && Cut(text, events, end)
    ensures Structured(profile, text, events, Flush(profile, text, blocks, start, end, c), end)
  {
    if start < end {
      ContextSteady(events, start + 1, Next(text, positions, i));
    }
    FlushStructured(profile, text, events, blocks, start, end, c);
  }

  lemma ScanNext(
    profile: Profile, text: string, events: Events, positions: seq<nat>, i: nat, start: nat, c: Context,
    blocks: seq<Block>)
    requires Sorted(positions, events) && forall p :: p in events ==> p <= |text|
    requires i < |positions| && Scanning(profile, text, events, positions, i, start, c, blocks)
    ensures start <= positions[i] <= |text|
    ensures
      Scanning(profile, text, events, positions, i + 1, positions[i], ApplyAll(c, Get(events, positions[i])),
               Flush(profile, text, blocks, start, positions[i], c))
  {
    hide Structured, ContextBelow, Flush, ApplyAll;
    var position := positions[i];
    assert position in positions;
    FlushScanned(profile, text, events, positions, i, start, c, blocks, position);
    ContextNext(text, events, positions, i, c);
  }

  lemma ContextNext(text: string, events: Events, positions: seq<nat>, i: nat, c: Context)
    requires Sorted(positions, events) && forall p :: p in events ==> p <= |text|
    requires i < |positions| && c == ContextBelow(events, positions[i])
    ensures positions[i] <= Next(text, positions, i + 1)
    ensures forall p :: positions[i] < p < Next(text, positions, i + 1) ==> p !in events
    ensures ApplyAll(c, Get(events, positions[i])) == ContextBelow(events, Next(text, positions, i + 1))
  {
    var position, next := positions[i], Next(text, positions, i + 1);
    assert position in positions;
    forall p | p in events
      ensures p <= position || next <= p
    {
      var k :| 0 <= k < |positions| && positions[k] == p;
    }
    ContextSteady(events, position + 1, next);
  }

  method Happen(before: Context, happened: seq<Event>) returns (context: Context)
    ensures context == ApplyAll(before, happened)
  {
    context := before;
    ApplyNone(before, happened);
    for j := 0 to |happened|
      invariant context == ApplyAll(before, happened[..j])
    {
      ApplyNext(before, happened, j);
      context := Apply(context, happened[j]);
    }
    assert happened[..|happened|] == happened;
  }

  lemma FiledIsEventsOf(profile: Profile, rules: Rules, text: string, events: Events)
    requires AllFiled(profile, rules, text, events)
    ensures events == EventsOf(profile, rules, text)
  {
    EventsWithin(profile, rules, text, events);
    hide EventsAt;
    forall p: nat
      ensures p in events <==> p <= |text| && EventsAt(profile, rules, text, p) != []
    {
      assert Get(events, p) == EventsAt(profile, rules, text, p);
    }
    assert forall p :: p in events ==> Get(events, p) == events[p];
  }

  lemma EventsOfAreFiled(profile: Profile, rules: Rules, text: string)
    ensures AllFiled(profile, rules, text, EventsOf(profile, rules, text))
  {
    hide EventsAt;
    forall p: nat
      ensures Get(EventsOf(profile, rules, text), p) == EventsAt(profile, rules, text, p)
    {
      if p > |text| {
        NothingBeyond(profile, rules, text, p);
      }
    }
  }

  lemma NothingBeyond(profile: Profile, rules: Rules, text: string, p: nat)
    requires p > |text|
    ensures EventsAt(profile, rules, text, p) == []
  {
    LinesJoin(text);
    if EventsOfLines(profile, rules, Lines(text), 0, p) != [] {
      LinesWithin(profile, rules, Lines(text), 0, p);
    }
  }

  method StructuralBlocks(text: string, profile: Profile, rules: Rules) returns (blocks: seq<Block>)
    ensures Structured(profile, text, EventsOf(profile, rules, text), blocks, |text|)
  {
    var events := CollectEvents(text, profile, rules);
    var positions := SortedPositions(events);
    EventsWithin(profile, rules, text, events);
    FiledIsEventsOf(profile, rules, text, events);
    blocks := [];
    var context := INITIAL;
    var start := 0;
    ScanStarts(profile, text, events, positions);
    hide *;
    for i := 0 to |positions|
      invariant Scanning(profile, text, events, positions, i, start, context, blocks)
    {
      var position := positions[i];
      ScanNext(profile, text, events, positions, i, start, context, blocks);
      blocks := Flush(profile, text, blocks, start, position, context);
      start := position;
      context := Happen(context, Get(events, position));
    }
    ScanEnds(profile, text, events, positions, start, context, blocks);
    blocks := Flush(profile, text, blocks, start, |text|, context);
  }

  // ----- there is only one such list -----

  lemma {:induction false} RangesOfTail(blocks: seq<Block>)
    requires blocks != []
    ensures RangesOf(blocks) == [Range(blocks[0].start, blocks[0].end)] + RangesOf(blocks[1..])
  {
    if |blocks| > 1 {
      var init, last := blocks[..|blocks| - 1], blocks[|blocks| - 1];
      RangesOfTail(init);
      assert init[1..] == blocks[1..][..|blocks| - 2];
      assert blocks[1..][|blocks| - 2] == last;
    }
  }

  lemma TilesHead(text: string, x: seq<Block>, a: nat)
    requires x != [] && Tiles(text, RangesOf(x), a, |text|)
    ensures a <= x[0].start <= x[0].end <= |text| && Blank(text[a..x[0].start])
    ensures Tiles(text, RangesOf(x[1..]), x[0].end, |text|)
  {
    RangesOfTail(x);
    assert RangesOf(x)[1..] == RangesOf(x[1..]);
  }

  /** Where one list has a block the other cannot have only whitespace. */
  lemma NotBlankThere(profile: Profile, text: string, events: Events, b: Block, a: nat, end: nat)
    requires GoodBlock(profile, text, events, b, |text|) && a <= b.start && b.end <= end <= |text|
    ensures !Blank(text[a..end])
  {
    var i :| 0 <= i < b.end - b.start && !IsSpace(text[b.start..b.end][i]);
    NotBlankAt(text, a, end, b.start + i);
  }

  lemma FirstBlocksAgree(profile: Profile, text: string, events: Events, x: Block, y: Block, a: nat)
    requires GoodBlock(profile, text, events, x, |text|) && GoodBlock(profile, text, events, y, |text|)
    requires a <= x.start && a <= y.start && Blank(text[a..x.start]) && Blank(text[a..y.start])
    ensures x == y
  {
    if x.end <= y.start {
      NotBlankThere(profile, text, events, x, a, y.start);
    }
    if y.end <= x.start {
      NotBlankThere(profile, text, events, y, a, x.start);
    }
    hide Blank, ContextBelow;
    assert x.start == y.start && x.end == y.end;
  }

  /** The blocks are determined by the text, the profile and the patterns. */
  lemma {:induction false} BlocksUnique(
    profile: Profile, text: string, events: Events, x: seq<Block>, y: seq<Block>, a: nat)
    requires Tiles(text, RangesOf(x), a, |text|) && Tiles(text, RangesOf(y), a, |text|)
    requires forall i :: 0 <= i < |x| ==> GoodBlock(profile, text, events, x[i], |text|)
    requires forall i :: 0 <= i < |y| ==> GoodBlock(profile, text, events, y[i], |text|)
    ensures x == y
    decreases |x|
  {
    hide Blank, GoodBlock;
    if x != [] && y != [] {
      TilesHead(text, x, a);
      TilesHead(text, y, a);
      FirstBlocksAgree(profile, text, events, x[0], y[0], a);
      BlocksUnique(profile, text, events, x[1..], y[1..], x[0].end);
      assert x == [x[0]] + x[1..] && y == [y[0]] + y[1..];
    } else if x != [] {
      TilesHead(text, x, a);
      NotBlankThere(profile, text, events, x[0], a, |text|);
    } else if y != [] {
      TilesHead(text, y, a);
      NotBlankThere(profile, text, events, y[0], a, |text|);
    }
  }

  lemma ApplyNone(c: Context, es: seq<Event>)
    ensures ApplyAll(c, es[..0]) == c
  {
  }

  lemma ApplyNext(c: Context, es: seq<Event>, j: nat)
    requires j < |es|
    ensures ApplyAll(c, es[..j + 1]) == Apply(ApplyAll(c, es[..j]), es[j])
  {
    assert es[..j + 1][..j] == es[..j];
  }

  lemma ScanEnds(
    profile: Profile, text: string, events: Events, positions: seq<nat>, start: nat, c: Context, blocks: seq<Block>)
    requires Scanning(profile, text, events, positions, |positions|, start, c, blocks)
    ensures Structured(profile, text, events, Flush(profile, text, blocks, start, |text|, c), |text|)
  {
    FlushScanned(profile, text, events, positions, |positions|, start, c, blocks, |text|);
  }

  // ----- what the context says -----

  lemma {:induction false} EventsOfLinesShape(profile: Profile, rules: Rules, lines: seq<string>, position: nat, p: nat)
    requires forall i :: 0 <= i < |lines| ==> lines[i] != []
    ensures
      var es := EventsOfLines(profile, rules, lines, position, p);
      |es| <= 2 && (forall i :: 0 <= i < |es| ==> !es[i].PageBreak?) && (|es| == 2 ==> es[0].Heading? && es[1].Article?)
    decreases |lines|
  {
    if lines != [] {
      var rest := lines[1..];
      assert forall i :: 0 <= i < |rest| ==> rest[i] == lines[i + 1];
      EventsOfLinesShape(profile, rules, rest, position + |lines[0]|, p);
      if p == position {
        NoEventsBefore(profile, rules, rest, position + |lines[0]|, p);
      }
    }
  }

  /** At one position a page break comes first, a heading next, an article last. */
  lemma ApplyPosition(profile: Profile, rules: Rules, text: string, p: nat, c: Context)
    ensures
      var es := EventsAt(profile, rules, text, p);
      var c' := ApplyAll(c, es);
      var broken := PageEvents(profile, text, p) != [];
      && c'.page == c.page + (if broken then 1 else 0)
      && (forall a :: Article(a) in es ==> c'.article == Some(a))
      && ((forall a :: Article(a) !in es) ==> c'.article == if broken then None else c.article)
  {
    LinesJoin(text);
    var ps, ls := PageEvents(profile, text, p), EventsOfLines(profile, rules, Lines(text), 0, p);
    EventsOfLinesShape(profile, rules, Lines(text), 0, p);
    ApplyConcat(c, ps, ls);
    assert forall e :: e in ps + ls <==> e in ps || e in ls;
    hide Lines, EventsOfLines;
    ApplyPages(profile, text, p, c);
    ApplyLines(ApplyAll(c, ps), ls);
  }

  lemma ApplyPages(profile: Profile, text: string, p: nat, c: Context)
    ensures
      var ps := PageEvents(profile, text, p);
      && (forall a :: Article(a) !in ps)
      && ApplyAll(c, ps) == if ps == [] then c else c.(page := c.page + 1, article := None)
  {
    var ps := PageEvents(profile, text, p);
    if ps != [] {
      assert ps == [PageBreak] && ps[..0] == [];
    }
  }

  lemma ApplyOne(c: Context, e: Event)
    ensures ApplyAll(c, [e]) == Apply(c, e)
  {
    assert [e][..0] == [];
  }

  lemma ApplyLines(c: Context, ls: seq<Event>)
    requires |ls| <= 2 && (forall i :: 0 <= i < |ls| ==> !ls[i].PageBreak?)
    requires |ls| == 2 ==> ls[0].Heading? && ls[1].Article?
    ensures ApplyAll(c, ls).page == c.page
    ensures forall a :: Article(a) in ls ==> ApplyAll(c, ls).article == Some(a)
    ensures (forall a :: Article(a) !in ls) ==> ApplyAll(c, ls).article == c.article
  {
    if |ls| == 1 {
      assert ls == [ls[0]] && ls[0] in ls;
      ApplyOne(c, ls[0]);
      if ls[0].Article? {
        assert Article(ls[0].name) in ls;
      }
    } else if |ls| == 2 {
      assert ls == [ls[0]] + [ls[1]];
      ApplyOne(c, ls[0]);
      ApplyConcat(c, [ls[0]], [ls[1]]);
      ApplyOne(Apply(c, ls[0]), ls[1]);
      assert Article(ls[1].name) in ls;
    }
  }

  lemma {:induction false} ApplyConcat(c: Context, a: seq<Event>, b: seq<Event>)
    ensures ApplyAll(c, a + b) == ApplyAll(ApplyAll(c, a), b)
  {
    if b == [] {
      assert a + b == a;
    } else {
      var init := b[..|b| - 1];
      assert (a + b)[..|a + b| - 1] == a + init;
      ApplyConcat(c, a, init);
    }
  }

  /** The page in force is one more than the form feeds passed. */
  lemma {:induction false} PageCountsFormFeeds(profile: Profile, rules: Rules, text: string, events: Events, n: nat)
    requires forall p :: Get(events, p) == EventsAt(profile, rules, text, p)
    requires profile.pages && 1 <= n <= |text| + 1
    ensures ContextBelow(events, n).page == 1 + Count(text[..n - 1], FORM_FEED)
  {
    ApplyPosition(profile, rules, text, n - 1, ContextBelow(events, n - 1));
    hide EventsAt, ApplyAll;
    if n > 1 {
      PageCountsFormFeeds(profile, rules, text, events, n - 1);
      CountNext(text, n - 2);
    } else {
      assert text[..0] == [];
    }
  }

  lemma CountNext(text: string, i: nat)
    requires i < |text|
    ensures Count(text[..i + 1], FORM_FEED) == Count(text[..i], FORM_FEED) + (if text[i] == FORM_FEED then 1 else 0)
  {
    assert text[..i + 1] == text[..i] + [text[i]];
    CountConcat(text[..i], [text[i]], FORM_FEED);
  }

  /** An article line at `q` with no article line and no page break after it, below `n`. */
  ghost predicate LatestArticle(profile: Profile, rules: Rules, text: string, n: nat, q: nat, a: string) {
    && q < n && Article(a) in EventsAt(profile, rules, text, q)
    && forall p :: q < p < n ==>
                     PageEvents(profile, text, p) == [] && forall b :: Article(b) !in EventsAt(profile, rules, text, p)
  }

  ghost predicate ArticleHolds(profile: Profile, rules: Rules, text: string, n: nat, article: Option<string>) {
    match article
    case Some(a) => exists q :: LatestArticle(profile, rules, text, n, q, a)
    case None => forall q, a :: !LatestArticle(profile, rules, text, n, q, a)
  }

  /** The article in force is the last one since the last page break, if there is one. */
  lemma {:induction false} ArticleIsLatest(profile: Profile, rules: Rules, text: string, events: Events, n: nat)
    requires forall p :: Get(events, p) == EventsAt(profile, rules, text, p)
    ensures ArticleHolds(profile, rules, text, n, ContextBelow(events, n).article)
  {
    if n > 0 {
      hide ArticleHolds, EventsAt, PageEvents, ApplyAll;
      ArticleIsLatest(profile, rules, text, events, n - 1);
      var before := ContextBelow(events, n - 1);
      assert ContextBelow(events, n) == ApplyAll(before, EventsAt(profile, rules, text, n - 1));
      ApplyPosition(profile, rules, text, n - 1, before);
      ArticleStep(profile, rules, text, n - 1, before.article, ContextBelow(events, n).article);
    }
  }

  lemma ArticleStep(profile: Profile, rules: Rules, text: string, n: nat, before: Option<string>, after: Option<string>)
    requires ArticleHolds(profile, rules, text, n, before)
    requires forall a :: Article(a) in EventsAt(profile, rules, text, n) ==> after == Some(a)
    requires (forall a :: Article(a) !in EventsAt(profile, rules, text, n)) ==>
               after == if PageEvents(profile, text, n) != [] then None else before
    ensures ArticleHolds(profile, rules, text, n + 1, after)
  {
    hide EventsAt, PageEvents;
    var m := n + 1;
    if a :| Article(a) in EventsAt(profile, rules, text, n) {
      assert LatestArticle(profile, rules, text, n + 1, n, a);
    } else if PageEvents(profile, text, n) != [] {
      forall q, a
        ensures !LatestArticle(profile, rules, text, m, q, a)
      {
      }
    } else if before.Some? {
      var q :| LatestArticle(profile, rules, text, n, q, before.value);
      assert LatestArticle(profile, rules, text, n + 1, q, before.value);
    } else {
      forall q, a
        ensures !LatestArticle(profile, rules, text, m, q, a)
      {
        assert !LatestArticle(profile, rules, text, n, q, a);
      }
    }
  }

  /** The headings below a position, in reading order. */
  function HeadingsBelow(events: Events, n: nat): seq<(nat, string)> {
    if n == 0 then [] else HeadingsBelow(events, n - 1) + HeadingsOf(Get(events, n - 1))
  }

  function HeadingsOf(es: seq<Event>): seq<(nat, string)> {
    if es == [] then []
    else
      HeadingsOf(es[..|es| - 1])
      + (match es[|es| - 1] case Heading(depth, title) => [(depth, title)] case PageBreak => [] case Article(_) => [])
  }

  /** The heading stack: a heading keeps the entries above its depth and puts itself after them. */
  function Stack(hs: seq<(nat, string)>): seq<string> {
    if hs == [] then []
    else
      var above, h := Stack(hs[..|hs| - 1]), hs[|hs| - 1];
      (if 0 < h.0 && h.0 - 1 <= |above| then above[..h.0 - 1] else above) + [h.1]
  }

  lemma {:induction false} StackNext(hs: seq<(nat, string)>, es: seq<Event>, c: Context)
    requires c.headings == Stack(hs)
    ensures ApplyAll(c, es).headings == Stack(hs + HeadingsOf(es))
  {
    if es == [] {
      assert hs + [] == hs;
    } else {
      hide Stack, HeadingsOf, ApplyAll;
      var init, e := es[..|es| - 1], es[|es| - 1];
      StackNext(hs, init, c);
      assert es == init + [e];
      HeadingsOfNext(init, e);
      ApplyAllNext(c, init, e);
      if e.Heading? {
        assert hs + HeadingsOf(es) == (hs + HeadingsOf(init)) + [(e.depth, e.title)];
        StackPush(hs + HeadingsOf(init), (e.depth, e.title));
      } else {
        assert hs + HeadingsOf(es) == hs + HeadingsOf(init);
      }
    }
  }

  lemma HeadingsOfNext(es: seq<Event>, e: Event)
    ensures HeadingsOf(es + [e]) == HeadingsOf(es) + if e.Heading? then [(e.depth, e.title)] else []
  {
    assert (es + [e])[..|es|] == es;
  }

  lemma ApplyAllNext(c: Context, es: seq<Event>, e: Event)
    ensures ApplyAll(c, es + [e]) == Apply(ApplyAll(c, es), e)
  {
    assert (es + [e])[..|es|] == es;
  }

  lemma StackPush(hs: seq<(nat, string)>, h: (nat, string))
    ensures
      var above := Stack(hs);
      Stack(hs + [h]) == (if 0 < h.0 && h.0 - 1 <= |above| then above[..h.0 - 1] else above) + [h.1]
  {
    assert (hs + [h])[..|hs|] == hs;
  }

  /** The section path in force is the stack of the headings passed. */
  lemma {:induction false} SectionIsStack(events: Events, n: nat)
    ensures ContextBelow(events, n).headings == Stack(HeadingsBelow(events, n))
  {
    if n > 0 {
      SectionIsStack(events, n - 1);
      StackNext(HeadingsBelow(events, n - 1), Get(events, n - 1), ContextBelow(events, n - 1));
    }
  }

  /** A section path ends with the latest heading and is no longer than that heading is deep. */
  lemma StackShape(hs: seq<(nat, string)>)
    requires hs != [] && forall i :: 0 <= i < |hs| ==> hs[i].0 >= 1
    ensures var s := Stack(hs); 0 < |s| <= hs[|hs| - 1].0 && s[|s| - 1] == hs[|hs| - 1].1
  {
  }

  lemma BlockCarries(profile: Profile, text: string, events: Events, blocks: seq<Block>, i: nat)
    requires Structured(profile, text, events, blocks, |text|) && i < |blocks|
    ensures
      var b, c := blocks[i], ContextBelow(events, blocks[i].start + 1);
      && b.start < b.end <= |text|
      && b.page == (if profile.pages then Some(c.page) else None) && b.section == c.headings && b.article == c.article
  {
    hide Tiles, Blank, ContextBelow;
    assert GoodBlock(profile, text, events, blocks[i], |text|);
  }

  lemma ContextSays(profile: Profile, rules: Rules, text: string, start: nat)
    requires start <= |text|
    ensures
      var events := EventsOf(profile, rules, text);
      var c := ContextBelow(events, start + 1);
      && (profile.pages ==> c.page == 1 + Count(text[..start], FORM_FEED))
      && c.headings == Stack(HeadingsBelow(events, start + 1))
      && ArticleHolds(profile, rules, text, start + 1, c.article)
  {
    var events := EventsOf(profile, rules, text);
    EventsOfAreFiled(profile, rules, text);
    hide EventsOf, EventsAt, ContextBelow, ArticleHolds, Count, HeadingsBelow, Stack;
    SectionIsStack(events, start + 1);
    ArticleIsLatest(profile, rules, text, events, start + 1);
    if profile.pages {
      PageCountsFormFeeds(profile, rules, text, events, start + 1);
    }
  }

  /**
    What a block carries: its page counts the form feeds before it, its section is the heading stack, its article the
    latest one.
   */
  lemma BlockContext(profile: Profile, rules: Rules, text: string, blocks: seq<Block>, i: nat)
    requires Structured(profile, text, EventsOf(profile, rules, text), blocks, |text|) && i < |blocks|
    ensures
      var b := blocks[i];
      && b.start < b.end <= |text|
      && b.page == (if profile.pages then Some(1 + Count(text[..b.start], FORM_FEED)) else None)
      && b.section == Stack(HeadingsBelow(EventsOf(profile, rules, text), b.start + 1))
      && ArticleHolds(profile, rules, text, b.start + 1, b.article)
  {
    hide *;
    BlockCarries(profile, text, EventsOf(profile, rules, text), blocks, i);
    ContextSays(profile, rules, text, blocks[i].start);
  }

  // ----- how long a section path is -----

  ghost predicate DepthsFit(hs: seq<(nat, string)>) { forall i :: 0 <= i < |hs| ==> 1 <= hs[i].0 <= 6 }

  ghost predicate EventsFit(es: seq<Event>) { forall i :: 0 <= i < |es| && es[i].Heading? ==> 1 <= es[i].depth <= 6 }

  lemma {:induction false} LinesFit(profile: Profile, rules: Rules, lines: seq<string>, position: nat, p: nat)
    requires Deep(rules)
    ensures EventsFit(EventsOfLines(profile, rules, lines, position, p))
    decreases |lines|
  {
    if lines != [] {
      LinesFit(profile, rules, lines[1..], position + |lines[0]|, p);
      hide StripEnd;
    }
  }

  lemma {:induction false} HeadingsOfFit(es: seq<Event>)
    requires EventsFit(es)
    ensures DepthsFit(HeadingsOf(es))
  {
    if es != [] {
      HeadingsOfFit(es[..|es| - 1]);
    }
  }

  lemma EventsFitAt(profile: Profile, rules: Rules, text: string, p: nat)
    requires Deep(rules)
    ensures EventsFit(Get(EventsOf(profile, rules, text), p))
  {
    EventsOfAreFiled(profile, rules, text);
    assert Get(EventsOf(profile, rules, text), p) == EventsAt(profile, rules, text, p);
    LinesFit(profile, rules, Lines(text), 0, p);
    hide EventsOf, EventsOfLines, Deep;
  }

  lemma {:induction false} HeadingsBelowFit(events: Events, n: nat)
    requires forall p: nat :: EventsFit(Get(events, p))
    ensures DepthsFit(HeadingsBelow(events, n))
  {
    hide EventsFit, Get;
    if n > 0 {
      HeadingsBelowFit(events, n - 1);
      HeadingsOfFit(Get(events, n - 1));
    }
  }

  /**
    A block's section path is empty before the first heading, then ends with the latest one and is no longer than it is
    deep.
   */
  lemma SectionShape(profile: Profile, rules: Rules, text: string, blocks: seq<Block>, i: nat)
    requires Deep(rules) && Structured(profile, text, EventsOf(profile, rules, text), blocks, |text|) && i < |blocks|
    ensures
      var hs, section := HeadingsBelow(EventsOf(profile, rules, text), blocks[i].start + 1), blocks[i].section;
      if hs == [] then section == []
      else 0 < |section| <= hs[|hs| - 1].0 <= 6 && section[|section| - 1] == hs[|hs| - 1].1
  {
    hide *;
    var events := EventsOf(profile, rules, text);
    BlockContext(profile, rules, text, blocks, i);
    forall p: nat
      ensures EventsFit(Get(events, p))
    {
      EventsFitAt(profile, rules, text, p);
    }
    HeadingsBelowFit(events, blocks[i].start + 1);
    StackFits(HeadingsBelow(events, blocks[i].start + 1));
  }

  lemma StackFits(hs: seq<(nat, string)>)
    requires DepthsFit(hs)
    ensures
      if hs == [] then Stack(hs) == []
      else 0 < |Stack(hs)| <= hs[|hs| - 1].0 <= 6 && Stack(hs)[|Stack(hs)| - 1] == hs[|hs| - 1].1
  {
    if hs != [] {
      StackShape(hs);
    }
  }
}
