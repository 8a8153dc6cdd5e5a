/** The timeline renderer: a list of dated entries becomes a two-column card
    grid in MyST markdown, one card per entry, alternating left and right. */
module Timeline {
  import opened Lines
  import Decimal

  /** One dated event. */
  datatype TimelineEntry = TimelineEntry(year: int, title: string, description: string)

  /** The entries in the order of the input file. */
  datatype Timeline = Timeline(entries: seq<TimelineEntry>)

  /** Titles and descriptions are single lines. */
  predicate SingleLine(entry: TimelineEntry) {
    NoNewline(entry.title) && NoNewline(entry.description)
  }

  predicate SingleLineEntries(entries: seq<TimelineEntry>) {
    forall i :: 0 <= i < |entries| ==> SingleLine(entries[i])
  }

  /** The indentation of the card template inside the renderer's source. */
  const TemplateIndent: string := "            "

  /** The fixed lines and line openings of a card block. */
  const CardOpen: string := "````{grid-item-card}"
  const CardClass: string := ":class-item: entry "
  const CardSeparator: string := "^^^"
  const ItemOpen: string := "````{grid-item}"
  const ItemClass: string := ":class: "
  const BlockClose: string := "````"

  /** The HTML comment line of a card: 73 dashes between the comment marks. */
  const CardComment: string := "<!-- " + Repeat('-', 73) + " -->"

  function Repeat(c: char, n: nat): (s: string)
    ensures |s| == n && forall i :: 0 <= i < n ==> s[i] == c
  {
    if n == 0 then "" else [c] + Repeat(c, n - 1)
  }

  /** The comment line is 82 characters: the comment opening and a space, 73
      dashes, a space and the comment closing. */
  lemma CardCommentShape()
    ensures |CardComment| == 82
    ensures CardComment[..5] == "<!-- " && CardComment[78..] == " -->"
    ensures forall i :: 5 <= i < 78 ==> CardComment[i] == '-'
  {
    var dashes := Repeat('-', 73);
    assert CardComment[..5] == "<!-- ";
    assert CardComment[78..] == " -->";
    assert forall i :: 5 <= i < 78 ==> CardComment[i] == dashes[i - 5];
  }

  /** The lines opening the grid container. */
  const Header: seq<string> := ["`````{grid} 2", ":class-container: timeline", "", ""]

  /** The lines closing the grid container. */
  const Footer: seq<string> := ["", "", "`````"]

  function Side(left: bool): string {
    if left then "left" else "right"
  }

  // ---------------------------------------------------------------------
  // One card: timeline_entry_to_md
  // ---------------------------------------------------------------------

  /** The bold year followed by the title. */
  function Heading(entry: TimelineEntry): string {
    "**" + Decimal.IntToString(entry.year) + "** " + entry.title
  }

  /** The card itself, on side `side`, followed by two empty lines. */
  function CardBody(entry: TimelineEntry, side: bool): seq<string> {
    [ CardOpen,
      CardClass + Side(side),
      CardComment,
      "",
      Heading(entry),
      CardSeparator,
      "",
      entry.description,
      "",
      BlockClose,
      "",
      "" ]
  }

  /** An empty grid item that fills side `side` of a grid row. */
  function EmptyItem(side: bool): seq<string> {
    [ItemOpen, ItemClass + Side(side), BlockClose]
  }

  /** The lines of the card template with the template's indentation taken off:
      the card on side `arrangeLeft`, then an empty grid item on the other side
      and one on the card's own side. */
  function EntryContents(entry: TimelineEntry, arrangeLeft: bool): seq<string> {
    CardBody(entry, arrangeLeft) + EmptyItem(!arrangeLeft) + EmptyItem(arrangeLeft)
  }

  /** The card template as the renderer's source holds it, before dedent. */
  function EntryTemplate(entry: TimelineEntry, arrangeLeft: bool): seq<string> {
    IndentLines(TemplateIndent, EntryContents(entry, arrangeLeft))
  }

  /** `timeline_entry_to_md`: the dedented card template. */
  function EntryToMd(entry: TimelineEntry, arrangeLeft: bool): string {
    Dedent(Join(EntryTemplate(entry, arrangeLeft)))
  }

  /** The lines of one card block as dedent leaves them. */
  function EntryLines(entry: TimelineEntry, arrangeLeft: bool): seq<string> {
    NormalizeLines(EntryContents(entry, arrangeLeft))
  }

  /** Number of lines in one card block. */
  const CardHeight: nat := 18

  /** What a line of a card block starts with, when it is not empty. */
  predicate Opening(line: string, c: char) {
    |line| > 0 && line[0] == c
  }

  lemma FixedLines(left: bool)
    ensures Opening(CardOpen, '`') && Opening(ItemOpen, '`') && Opening(BlockClose, '`')
    ensures Opening(CardClass + Side(left), ':') && Opening(ItemClass + Side(left), ':')
    ensures Opening(CardSeparator, '^') && Opening(CardComment, '<')
  {
  }

  lemma FixedLinesNoNewline(left: bool)
    ensures NoNewline(CardOpen) && NoNewline(ItemOpen) && NoNewline(BlockClose)
    ensures NoNewline(CardSeparator) && NoNewline(CardComment)
    ensures NoNewline(CardClass + Side(left)) && NoNewline(ItemClass + Side(left))
  {
    assert forall k :: 0 <= k < |CardOpen| ==> CardOpen[k] != '\n';
    assert forall k :: 0 <= k < |ItemOpen| ==> ItemOpen[k] != '\n';
    assert forall k :: 0 <= k < |CardClass| ==> CardClass[k] != '\n';
    assert forall k :: 0 <= k < |ItemClass| ==> ItemClass[k] != '\n';
    assert forall k :: 0 <= k < |Side(left)| ==> Side(left)[k] != '\n';
    assert forall k :: 0 <= k < |BlockClose| ==> BlockClose[k] != '\n';
    assert forall k :: 0 <= k < |CardSeparator| ==> CardSeparator[k] != '\n';
    assert forall k :: 0 <= k < |"<!-- "| ==> "<!-- "[k] != '\n';
    assert forall k :: 0 <= k < |" -->"| ==> " -->"[k] != '\n';
  }

  lemma HeadingNoNewline(entry: TimelineEntry)
    requires NoNewline(entry.title)
    ensures NoNewline(Heading(entry)) && Opening(Heading(entry), '*')
  {
    var year := Decimal.IntToString(entry.year);
    assert NoNewline(year) by {
      forall k | 0 <= k < |year| ensures year[k] != '\n' {
        Decimal.IntToStringChars(entry.year, k);
      }
    }
    assert NoNewline("**") && NoNewline("** ");
  }

  lemma CardBodyNoNewline(entry: TimelineEntry, side: bool)
    requires SingleLine(entry)
    ensures AllNoNewline(CardBody(entry, side))
  {
    HeadingNoNewline(entry);
    FixedLinesNoNewline(side);
    var body := CardBody(entry, side);
    assert NoNewline("");
    forall i | 0 <= i < |body| ensures NoNewline(body[i]) {
      if i == 2 {
        assert body[i] == CardComment;
      }
    }
  }

  lemma EntryContentsNoNewline(entry: TimelineEntry, arrangeLeft: bool)
    requires SingleLine(entry)
    ensures AllNoNewline(EntryContents(entry, arrangeLeft))
  {
    CardBodyNoNewline(entry, arrangeLeft);
    FixedLinesNoNewline(arrangeLeft);
    FixedLinesNoNewline(!arrangeLeft);
    AllNoNewlineAppend(CardBody(entry, arrangeLeft), EmptyItem(!arrangeLeft));
    AllNoNewlineAppend(CardBody(entry, arrangeLeft) + EmptyItem(!arrangeLeft), EmptyItem(arrangeLeft));
  }

  /** The card block as dedent leaves it: the card, whose description is
      emptied when it is only blanks, and the two empty grid items unchanged. */
  lemma EntryLinesParts(entry: TimelineEntry, arrangeLeft: bool)
    ensures EntryLines(entry, arrangeLeft)
         == CardBody(entry.(description := Normalize(entry.description)), arrangeLeft)
          + EmptyItem(!arrangeLeft) + EmptyItem(arrangeLeft)
  {
    NormalizeLinesAppend(CardBody(entry, arrangeLeft), EmptyItem(!arrangeLeft));
    NormalizeLinesAppend(CardBody(entry, arrangeLeft) + EmptyItem(!arrangeLeft), EmptyItem(arrangeLeft));
    CardBodyNormal(entry, arrangeLeft);
    EmptyItemNormal(arrangeLeft);
    EmptyItemNormal(!arrangeLeft);
  }

  lemma CardBodyNormal(entry: TimelineEntry, side: bool)
    ensures NormalizeLines(CardBody(entry, side))
         == CardBody(entry.(description := Normalize(entry.description)), side)
  {
    var body := CardBody(entry, side);
    FixedLines(side);
    HeadingOpening(entry);
    forall k | 0 <= k < |body| && k != 7 ensures Normalize(body[k]) == body[k] {
      NormalizeKeeps(body[k]);
    }
  }

  lemma EmptyItemNormal(side: bool)
    ensures NormalizeLines(EmptyItem(side)) == EmptyItem(side)
  {
    FixedLines(side);
    var item := EmptyItem(side);
    NormalizeKeeps(item[0]);
    NormalizeKeeps(item[1]);
    NormalizeKeeps(item[2]);
  }

  lemma HeadingOpening(entry: TimelineEntry)
    ensures Opening(Heading(entry), '*')
  {
  }

  /** A card block holds no line feed of its own when title and description hold none. */
  lemma EntryLinesNoNewline(entry: TimelineEntry, arrangeLeft: bool)
    requires SingleLine(entry)
    ensures AllNoNewline(EntryLines(entry, arrangeLeft))
  {
    var contents := EntryContents(entry, arrangeLeft);
    var lines := EntryLines(entry, arrangeLeft);
    EntryContentsNoNewline(entry, arrangeLeft);
    forall k | 0 <= k < |lines| ensures NoNewline(lines[k]) {
      assert lines[k] == "" || lines[k] == contents[k];
    }
  }

  /** `timeline_entry_to_md` is the template without its indentation, line for
      line, with no line feed at the end. */
  lemma EntryToMdLines(entry: TimelineEntry, arrangeLeft: bool)
    requires SingleLine(entry)
    ensures EntryToMd(entry, arrangeLeft) == Join(EntryLines(entry, arrangeLeft))
    ensures Split(EntryToMd(entry, arrangeLeft)) == EntryLines(entry, arrangeLeft)
  {
    var contents := EntryContents(entry, arrangeLeft);
    EntryContentsNoNewline(entry, arrangeLeft);
    FixedLines(arrangeLeft);
    DedentIndented(TemplateIndent, contents);
    EntryLinesNoNewline(entry, arrangeLeft);
    SplitJoin(EntryLines(entry, arrangeLeft));
  }

  // ---------------------------------------------------------------------
  // The whole timeline: timeline_to_md
  // ---------------------------------------------------------------------

  /** `reversed(entries)`: the same entries, last first. */
  function Reversed(entries: seq<TimelineEntry>): (r: seq<TimelineEntry>)
    ensures |r| == |entries|
    ensures forall i :: 0 <= i < |entries| ==> r[i] == entries[|entries| - 1 - i]
  {
    if |entries| == 0 then [] else [entries[|entries| - 1]] + Reversed(entries[..|entries| - 1])
  }

  /** The order in which the renderer visits the entries. */
  function Visited(entries: seq<TimelineEntry>, reverseOrder: bool): (order: seq<TimelineEntry>)
    ensures |order| == |entries|
    ensures forall i :: 0 <= i < |entries| ==>
              order[i] == if reverseOrder then entries[|entries| - 1 - i] else entries[i]
  {
    if reverseOrder then Reversed(entries) else entries
  }

  /** One block per entry, rendered by `render` on a side that starts at
      `arrangeLeft` and flips from entry to entry. The timeline renders its
      cards with `EntryToMd`; the ordering and alternation proofs do not
      depend on the card template, so they are stated for any renderer. */
  function Cards(render: (TimelineEntry, bool) -> string, entries: seq<TimelineEntry>,
                 arrangeLeft: bool): (cards: seq<string>)
    ensures |cards| == |entries|
    ensures forall i :: 0 <= i < |entries| ==>
              cards[i] == render(entries[i], arrangeLeft == (i % 2 == 0))
  {
    if |entries| == 0 then []
    else
      var rest := Cards(render, entries[1..], !arrangeLeft);
      var cards := [render(entries[0], arrangeLeft)] + rest;
      assert forall i :: 1 <= i < |entries| ==> cards[i] == rest[i - 1] && entries[1..][i - 1] == entries[i];
      assert forall i: nat :: (i + 1) % 2 == 0 <==> i % 2 != 0;
      cards
  }

  /** Rendering one more entry appends its block, on the side its position gives. */
  lemma CardsAppend(render: (TimelineEntry, bool) -> string, entries: seq<TimelineEntry>,
                    entry: TimelineEntry, arrangeLeft: bool)
    ensures Cards(render, entries + [entry], arrangeLeft) ==
            Cards(render, entries, arrangeLeft) + [render(entry, arrangeLeft == (|entries| % 2 == 0))]
  {
    var longer := entries + [entry];
    assert forall i :: 0 <= i < |entries| ==> longer[i] == entries[i];
  }

  /** The blocks joined into the output: the header lines, the cards starting on
      the left, the footer lines. */
  function TimelineBlocks(timeline: Timeline, reverseOrder: bool): (blocks: seq<string>)
    ensures |blocks| == |Header| + |timeline.entries| + |Footer|
    ensures blocks[..|Header|] == Header
    ensures blocks[|Header| + |timeline.entries|..] == Footer
    ensures blocks[|Header|..|Header| + |timeline.entries|] ==
            Cards(EntryToMd, Visited(timeline.entries, reverseOrder), true)
  {
    var cards := Cards(EntryToMd, Visited(timeline.entries, reverseOrder), true);
    var blocks := Header + cards + Footer;
    assert blocks[..|Header|] == Header;
    assert blocks[|Header|..|Header| + |cards|] == cards;
    assert blocks[|Header| + |cards|..] == Footer;
    blocks
  }

  /** The rendered markdown of `timeline_to_md`. */
  function TimelineMarkdown(timeline: Timeline, reverseOrder: bool): string {
    Join(TimelineBlocks(timeline, reverseOrder))
  }

  /** `timeline_to_md`, as the source runs it: the header lines, then one card per
      entry visited forwards or backwards with a flag that starts on the left and
      flips after every card, then the footer lines, joined with line feeds. */
  method TimelineToMd(timeline: Timeline, reverseOrder: bool) returns (md: string)
    ensures md == TimelineMarkdown(timeline, reverseOrder)
  {
    var result := Header;
    var arrangeLeft := true;
    var order := if reverseOrder then Reversed(timeline.entries) else timeline.entries;
    for i := 0 to |order|
      invariant arrangeLeft == (i % 2 == 0)
      invariant result == Header + Cards(EntryToMd, order[..i], true)
    {
      RenderNext(EntryToMd, order, i, result);
      result := result + [EntryToMd(order[i], arrangeLeft)];
      NextParity(i);
      arrangeLeft := !arrangeLeft;
    }
    RenderAll(EntryToMd, timeline.entries, reverseOrder, order);
    result := result + Footer;
    md := Join(result);
  }

  /** One turn of the rendering loop: appending the block of entry `i`, on the
      side its position gives, extends the blocks of the first `i` entries. */
  lemma RenderNext(render: (TimelineEntry, bool) -> string, order: seq<TimelineEntry>,
                   i: nat, result: seq<string>)
    requires i < |order|
    requires result == Header + Cards(render, order[..i], true)
    ensures result + [render(order[i], i % 2 == 0)] == Header + Cards(render, order[..i + 1], true)
  {
    CardsAppend(render, order[..i], order[i], true);
    assert order[..i + 1] == order[..i] + [order[i]];
  }

  lemma NextParity(i: nat)
    ensures ((i + 1) % 2 == 0) == (i % 2 != 0)
  {
  }

  /** After the loop every entry has its block, in visiting order. */
  lemma RenderAll(render: (TimelineEntry, bool) -> string, entries: seq<TimelineEntry>,
                  reverseOrder: bool, order: seq<TimelineEntry>)
    requires order == if reverseOrder then Reversed(entries) else entries
    ensures Cards(render, order[..|order|], true) == Cards(render, Visited(entries, reverseOrder), true)
  {
    assert order[..|order|] == order;
  }

  /** Card `i` of the output renders entry `i` (entry `n - 1 - i` when reversed),
      on the left exactly when `i` is even, whichever the direction. */
  lemma TimelineCardAt(timeline: Timeline, reverseOrder: bool, i: nat)
    requires i < |timeline.entries|
    ensures var n := |timeline.entries|;
            TimelineBlocks(timeline, reverseOrder)[|Header| + i] ==
            EntryToMd(if reverseOrder then timeline.entries[n - 1 - i] else timeline.entries[i],
                      i % 2 == 0)
  {
    var blocks := TimelineBlocks(timeline, reverseOrder);
    var cards := Cards(EntryToMd, Visited(timeline.entries, reverseOrder), true);
    assert blocks[|Header| + i] == cards[i] by {
      assert blocks[|Header|..|Header| + |timeline.entries|][i] == blocks[|Header| + i];
    }
  }

  // ---------------------------------------------------------------------
  // The output line by line
  // ---------------------------------------------------------------------

  /** The lines of the blocks `Cards(render, ...)` gives, when every block is
      the joined `lines` of its entry. */
  function CardLines(lines: (TimelineEntry, bool) -> seq<string>, entries: seq<TimelineEntry>,
                     arrangeLeft: bool): seq<string>
  {
    if |entries| == 0 then []
    else lines(entries[0], arrangeLeft) + CardLines(lines, entries[1..], !arrangeLeft)
  }

  /** The lines of the cards split around card `i`. */
  lemma {:induction false} CardLinesSplit(lines: (TimelineEntry, bool) -> seq<string>,
                                          entries: seq<TimelineEntry>, arrangeLeft: bool, i: nat)
    requires i < |entries|
    ensures CardLines(lines, entries, arrangeLeft) ==
            CardLines(lines, entries[..i], arrangeLeft)
            + lines(entries[i], arrangeLeft == (i % 2 == 0))
            + CardLines(lines, entries[i + 1..], arrangeLeft == (i % 2 != 0))
  {
    if i > 0 {
      CardLinesSplit(lines, entries[1..], !arrangeLeft, i - 1);
      assert entries[1..][..i - 1] == entries[..i][1..];
      assert entries[1..][i - 1] == entries[i];
      assert entries[1..][i..] == entries[i + 1..];
      assert (!arrangeLeft == ((i - 1) % 2 == 0)) == (arrangeLeft == (i % 2 == 0));
    }
  }

  /** Blocks of equal height: card `i` starts after `height * i` lines. */
  lemma {:induction false} CardLinesLength(lines: (TimelineEntry, bool) -> seq<string>,
                                           entries: seq<TimelineEntry>, arrangeLeft: bool, height: nat)
    requires forall k, left :: 0 <= k < |entries| ==> |lines(entries[k], left)| == height
    ensures |CardLines(lines, entries, arrangeLeft)| == height * |entries|
  {
    if |entries| > 0 {
      CardLinesLength(lines, entries[1..], !arrangeLeft, height);
    }
  }

  /** Joining the blocks equals joining their lines. */
  lemma {:induction false} CardsJoin(render: (TimelineEntry, bool) -> string,
                                     lines: (TimelineEntry, bool) -> seq<string>,
                                     entries: seq<TimelineEntry>, arrangeLeft: bool)
    requires |entries| > 0
    requires forall k, left :: 0 <= k < |entries| ==>
               |lines(entries[k], left)| > 0 && render(entries[k], left) == Join(lines(entries[k], left))
    ensures Join(Cards(render, entries, arrangeLeft)) == Join(CardLines(lines, entries, arrangeLeft))
    decreases entries
  {
    var block := lines(entries[0], arrangeLeft);
    var card := render(entries[0], arrangeLeft);
    assert render(entries[0], arrangeLeft) == Join(block);
    if |entries| > 1 {
      var cards := Cards(render, entries[1..], !arrangeLeft);
      var restLines := CardLines(lines, entries[1..], !arrangeLeft);
      assert Cards(render, entries, arrangeLeft) == [card] + cards;
      CardsJoin(render, lines, entries[1..], !arrangeLeft);
      assert |restLines| >= |lines(entries[1..][0], !arrangeLeft)| > 0;
      JoinAppend([card], cards);
      JoinAppend(block, restLines);
      assert CardLines(lines, entries, arrangeLeft) == block + restLines;
      assert Join([card]) == card;
    } else {
      assert Cards(render, entries, arrangeLeft) == [card];
      assert CardLines(lines, entries, arrangeLeft) == block + [] == block;
      assert Join([card]) == card;
    }
  }

  lemma {:induction false} CardLinesNoNewline(entries: seq<TimelineEntry>, arrangeLeft: bool)
    requires SingleLineEntries(entries)
    ensures AllNoNewline(CardLines(EntryLines, entries, arrangeLeft))
  {
    if |entries| > 0 {
      EntryLinesNoNewline(entries[0], arrangeLeft);
      CardLinesNoNewline(entries[1..], !arrangeLeft);
      var first := EntryLines(entries[0], arrangeLeft);
      var rest := CardLines(EntryLines, entries[1..], !arrangeLeft);
      var all := CardLines(EntryLines, entries, arrangeLeft);
      assert all == first + rest;
      forall k | 0 <= k < |all| ensures NoNewline(all[k]) {
        if k >= |first| {
          assert all[k] == rest[k - |first|];
        }
      }
    }
  }

  lemma CardsAsLines(entries: seq<TimelineEntry>)
    requires SingleLineEntries(entries)
    ensures forall k, left :: 0 <= k < |entries| ==>
              |EntryLines(entries[k], left)| == CardHeight &&
              EntryToMd(entries[k], left) == Join(EntryLines(entries[k], left))
  {
    forall k, left | 0 <= k < |entries|
      ensures |EntryLines(entries[k], left)| == CardHeight
      ensures EntryToMd(entries[k], left) == Join(EntryLines(entries[k], left))
    {
      EntryToMdLines(entries[k], left);
    }
  }

  /** Every line of the output, in order. */
  function TimelineLines(timeline: Timeline, reverseOrder: bool): seq<string> {
    Header + CardLines(EntryLines, Visited(timeline.entries, reverseOrder), true) + Footer
  }

  /** The output, read line by line, is the header lines, the eighteen lines of
      every card in visiting order, and the footer lines. */
  lemma TimelineMarkdownLines(timeline: Timeline, reverseOrder: bool)
    requires SingleLineEntries(timeline.entries)
    ensures TimelineMarkdown(timeline, reverseOrder) == Join(TimelineLines(timeline, reverseOrder))
    ensures Split(TimelineMarkdown(timeline, reverseOrder)) == TimelineLines(timeline, reverseOrder)
    ensures |TimelineLines(timeline, reverseOrder)| == |Header| + CardHeight * |timeline.entries| + |Footer|
  {
    TimelineJoinsLines(timeline, reverseOrder);
    TimelineLinesNoNewline(timeline, reverseOrder);
    SplitJoin(TimelineLines(timeline, reverseOrder));
  }

  lemma TimelineJoinsLines(timeline: Timeline, reverseOrder: bool)
    requires SingleLineEntries(timeline.entries)
    ensures TimelineMarkdown(timeline, reverseOrder) == Join(TimelineLines(timeline, reverseOrder))
  {
    var order := Visited(timeline.entries, reverseOrder);
    if |order| > 0 {
      CardsAsLines(order);
      CardsJoin(EntryToMd, EntryLines, order, true);
      JoinBetween(Header, Cards(EntryToMd, order, true), CardLines(EntryLines, order, true), Footer);
    } else {
      assert Cards(EntryToMd, order, true) == [] == CardLines(EntryLines, order, true);
    }
  }

  lemma TimelineLinesNoNewline(timeline: Timeline, reverseOrder: bool)
    requires SingleLineEntries(timeline.entries)
    ensures AllNoNewline(TimelineLines(timeline, reverseOrder))
    ensures |TimelineLines(timeline, reverseOrder)| == |Header| + CardHeight * |timeline.entries| + |Footer|
  {
    var order := Visited(timeline.entries, reverseOrder);
    CardsAsLines(order);
    CardLinesLength(EntryLines, order, true, CardHeight);
    CardLinesNoNewline(order, true);
    assert AllNoNewline(Header) && AllNoNewline(Footer);
    AllNoNewlineAppend(Header, CardLines(EntryLines, order, true));
    AllNoNewlineAppend(Header + CardLines(EntryLines, order, true), Footer);
  }

  lemma AllCardsHigh(entries: seq<TimelineEntry>)
    ensures forall k, left :: 0 <= k < |entries| ==> |EntryLines(entries[k], left)| == CardHeight
  {
  }

  /** With blocks of equal height, block `i` sits `height * i` lines in. */
  lemma CardLinesAt(lines: (TimelineEntry, bool) -> seq<string>, entries: seq<TimelineEntry>,
                    arrangeLeft: bool, height: nat, i: nat)
    requires i < |entries|
    requires forall k, left :: 0 <= k < |entries| ==> |lines(entries[k], left)| == height
    ensures height * i + height <= |CardLines(lines, entries, arrangeLeft)|
    ensures CardLines(lines, entries, arrangeLeft)[height * i..height * i + height] ==
            lines(entries[i], arrangeLeft == (i % 2 == 0))
  {
    CardLinesSplit(lines, entries, arrangeLeft, i);
    CardLinesLength(lines, entries[..i], arrangeLeft, height);
    var before := CardLines(lines, entries[..i], arrangeLeft);
    var block := lines(entries[i], arrangeLeft == (i % 2 == 0));
    var after := CardLines(lines, entries[i + 1..], arrangeLeft == (i % 2 != 0));
    assert (before + block + after)[|before|..|before| + |block|] == block;
  }

  /** Card `i` occupies the eighteen lines after the header and the `i` cards
      before it; it renders entry `i` (entry `n - 1 - i` when reversed) with its
      card on the left exactly when `i` is even. */
  lemma TimelineCardLines(timeline: Timeline, reverseOrder: bool, i: nat)
    requires i < |timeline.entries|
    ensures var n := |timeline.entries|;
            var start := |Header| + CardHeight * i;
            var lines := TimelineLines(timeline, reverseOrder);
            start + CardHeight <= |lines| &&
            lines[start..start + CardHeight] ==
            EntryLines(if reverseOrder then timeline.entries[n - 1 - i] else timeline.entries[i],
                       i % 2 == 0)
  {
    AllCardsHigh(timeline.entries);
    VisitedLinesAt(EntryLines, timeline.entries, reverseOrder, CardHeight, i);
  }

  /** `FramedCardLinesAt` for the entries in visiting order. */
  lemma VisitedLinesAt(lines: (TimelineEntry, bool) -> seq<string>, entries: seq<TimelineEntry>,
                       reverseOrder: bool, height: nat, i: nat)
    requires i < |entries|
    requires forall k, left :: 0 <= k < |entries| ==> |lines(entries[k], left)| == height
    ensures var n := |entries|;
            var all := Header + CardLines(lines, Visited(entries, reverseOrder), true) + Footer;
            var start := |Header| + height * i;
            start + height <= |all| &&
            all[start..start + height] ==
            lines(if reverseOrder then entries[n - 1 - i] else entries[i], i % 2 == 0)
  {
    var n := |entries|;
    var order := Visited(entries, reverseOrder);
    VisitedHigh(lines, entries, reverseOrder, height);
    FramedCardLinesAt(lines, Header, Footer, order, height, i);
    assert order[i] == if reverseOrder then entries[n - 1 - i] else entries[i];
  }

  lemma VisitedHigh(lines: (TimelineEntry, bool) -> seq<string>, entries: seq<TimelineEntry>,
                    reverseOrder: bool, height: nat)
    requires forall k, left :: 0 <= k < |entries| ==> |lines(entries[k], left)| == height
    ensures var order := Visited(entries, reverseOrder);
            forall k, left :: 0 <= k < |order| ==> |lines(order[k], left)| == height
  {
    var n := |entries|;
    var order := Visited(entries, reverseOrder);
    forall k, left | 0 <= k < |order| ensures |lines(order[k], left)| == height {
      if reverseOrder {
        assert order[k] == entries[n - 1 - k];
      }
    }
  }

  /** `CardLinesAt` inside the lines around the cards. */
  lemma FramedCardLinesAt(lines: (TimelineEntry, bool) -> seq<string>, header: seq<string>,
                          footer: seq<string>, entries: seq<TimelineEntry>, height: nat, i: nat)
    requires i < |entries|
    requires forall k, left :: 0 <= k < |entries| ==> |lines(entries[k], left)| == height
    ensures var all := header + CardLines(lines, entries, true) + footer;
            var start := |header| + height * i;
            start + height <= |all| &&
            all[start..start + height] == lines(entries[i], i % 2 == 0)
  {
    CardLinesAt(lines, entries, true, height, i);
    MiddleSlice(header, CardLines(lines, entries, true), footer, height * i, height * i + height);
  }

  /** A slice of the middle part of three, counted past the first. */
  lemma MiddleSlice<T>(first: seq<T>, middle: seq<T>, last: seq<T>, lo: nat, hi: nat)
    requires lo <= hi <= |middle|
    ensures (first + middle + last)[|first| + lo..|first| + hi] == middle[lo..hi]
  {
    var all := first + middle + last;
    forall k | 0 <= k < hi - lo ensures all[|first| + lo..|first| + hi][k] == middle[lo..hi][k] {
      assert all[|first| + lo + k] == middle[lo + k];
    }
  }

  /** Inside card `i`: the card, whose class names side left exactly when `i`
      is even and whose description is emptied when it is only blanks, then an
      empty grid item on the opposite side and one on the card's own side. */
  lemma TimelineCardContent(timeline: Timeline, reverseOrder: bool, i: nat)
    requires i < |timeline.entries|
    ensures var n := |timeline.entries|;
            var entry := if reverseOrder then timeline.entries[n - 1 - i] else timeline.entries[i];
            var left := i % 2 == 0;
            var start := |Header| + CardHeight * i;
            var lines := TimelineLines(timeline, reverseOrder);
            start + CardHeight <= |lines| &&
            lines[start..start + CardHeight] ==
            CardBody(entry.(description := Normalize(entry.description)), left)
            + EmptyItem(!left) + EmptyItem(left)
  {
    var n := |timeline.entries|;
    var entry := if reverseOrder then timeline.entries[n - 1 - i] else timeline.entries[i];
    TimelineCardLines(timeline, reverseOrder, i);
    EntryLinesParts(entry, i % 2 == 0);
  }

  // ---------------------------------------------------------------------
  // Fixed outputs
  // ---------------------------------------------------------------------

  lemma HeaderText()
    ensures Join(Header) == "`````{grid} 2" + "\n" + ":class-container: timeline" + "\n" + "\n"
  {
    JoinFour(Header[0], Header[1], Header[2], Header[3]);
    assert Header == [Header[0], Header[1], Header[2], Header[3]];
  }

  lemma FooterText()
    ensures Join(Footer) == "\n" + "\n" + "`````"
  {
  }

  /** An empty timeline renders the grid's opening lines straight followed by
      its closing lines. */
  lemma EmptyTimeline(reverseOrder: bool)
    ensures TimelineMarkdown(Timeline([]), reverseOrder)
         == "`````{grid} 2" + "\n" + ":class-container: timeline" + "\n" + "\n" + "\n" + "\n" + "\n" + "`````"
  {
    assert TimelineBlocks(Timeline([]), reverseOrder) == Header + Footer;
    JoinAppend(Header, Footer);
    HeaderText();
    FooterText();
  }

  /** The two-entry timeline of the renderer's test. */
  function SampleTimeline(): Timeline {
    Timeline([ TimelineEntry(2021, "First entry.", "First description."),
               TimelineEntry(2022, "Second entry.", "Second description.") ])
  }

  /** The card lines the test expects for a heading and a description on a side:
      the card, then the two empty grid items. */
  function ExpectedCard(heading: string, description: string, left: bool): seq<string> {
    ExpectedBody(heading, description, left) + ExpectedItem(!left) + ExpectedItem(left)
  }

  function ExpectedBody(heading: string, description: string, left: bool): seq<string> {
    [ "````{grid-item-card}",
      if left then ":class-item: entry left" else ":class-item: entry right",
      "<!-- " + "-------------------------------------" + "------------------------------------" + " -->",
      "",
      heading,
      "^^^",
      "",
      description,
      "",
      "````",
      "",
      "" ]
  }

  function ExpectedItem(left: bool): seq<string> {
    ["````{grid-item}", if left then ":class: left" else ":class: right", "````"]
  }

  lemma YearText()
    ensures Decimal.IntToString(2021) == "2021" && Decimal.IntToString(2022) == "2022"
  {
    assert Decimal.NatToString(20) == "20";
    assert Decimal.NatToString(202) == "202";
  }

  lemma ExpectedItemIs(left: bool)
    ensures ExpectedItem(left) == EmptyItem(left)
  {
    if left {
      assert ItemClass + Side(true) == ":class: left";
    } else {
      assert ItemClass + Side(false) == ":class: right";
    }
  }

  /** The comment line of the test, written out in two runs of dashes. */
  lemma ExpectedComment()
    ensures "<!-- " + "-------------------------------------" + "------------------------------------" + " -->"
         == CardComment
  {
    LeftDashes();
    RightDashes();
    RepeatAppend('-', 37, 36);
  }

  lemma LeftDashes()
    ensures "-------------------------------------" == Repeat('-', 37)
  {
    var s := "-------------------------------------";
    assert forall i | 0 <= i < 37 :: s[i] == '-';
  }

  lemma RightDashes()
    ensures "------------------------------------" == Repeat('-', 36)
  {
    var s := "------------------------------------";
    assert forall i | 0 <= i < 36 :: s[i] == '-';
  }

  /** Two runs of a character make one run of their total length. */
  lemma {:induction false} RepeatAppend(c: char, a: nat, b: nat)
    ensures Repeat(c, a) + Repeat(c, b) == Repeat(c, a + b)
  {
    if a == 0 {
      assert Repeat(c, a) + Repeat(c, b) == Repeat(c, b);
    } else {
      RepeatAppend(c, a - 1, b);
      assert Repeat(c, a) + Repeat(c, b) == [c] + (Repeat(c, a - 1) + Repeat(c, b));
    }
  }

  lemma ExpectedBodyIs(entry: TimelineEntry, left: bool)
    ensures ExpectedBody(Heading(entry), entry.description, left) == CardBody(entry, left)
  {
    ExpectedComment();
    if left {
      assert CardClass + Side(true) == ":class-item: entry left";
    } else {
      assert CardClass + Side(false) == ":class-item: entry right";
    }
  }

  /** A card whose description is kept by dedent has the lines the test spells out. */
  lemma ExpectedCardLines(entry: TimelineEntry, left: bool)
    requires Normalize(entry.description) == entry.description
    ensures EntryLines(entry, left) == ExpectedCard(Heading(entry), entry.description, left)
  {
    EntryLinesParts(entry, left);
    ExpectedBodyIs(entry, left);
    ExpectedItemIs(left);
    ExpectedItemIs(!left);
  }

  lemma SampleHeadings()
    ensures Heading(SampleTimeline().entries[0]) == "**2021** First entry."
    ensures Heading(SampleTimeline().entries[1]) == "**2022** Second entry."
  {
    YearText();
  }

  lemma SampleFirstCard()
    ensures EntryLines(SampleTimeline().entries[0], true)
         == ExpectedCard("**2021** First entry.", "First description.", true)
  {
    var entry := SampleTimeline().entries[0];
    SampleHeadings();
    NormalizeKeeps(entry.description);
    ExpectedCardLines(entry, true);
  }

  lemma SampleSecondCard()
    ensures EntryLines(SampleTimeline().entries[1], false)
         == ExpectedCard("**2022** Second entry.", "Second description.", false)
  {
    var entry := SampleTimeline().entries[1];
    SampleHeadings();
    NormalizeKeeps(entry.description);
    ExpectedCardLines(entry, false);
  }

  /** Two entries give two blocks, the first on side `arrangeLeft`. */
  lemma CardLinesPair(lines: (TimelineEntry, bool) -> seq<string>, first: TimelineEntry,
                      second: TimelineEntry, arrangeLeft: bool)
    ensures CardLines(lines, [first, second], arrangeLeft)
         == lines(first, arrangeLeft) + lines(second, !arrangeLeft)
  {
    assert [first, second][1..] == [second];
    assert [second][1..] == [];
    assert CardLines(lines, [second], !arrangeLeft) == lines(second, !arrangeLeft) + [];
  }

  /** The expected output of the renderer's test, line by line. */
  function SampleLines(): seq<string> {
    ["`````{grid} 2", ":class-container: timeline", "", ""]
    + ExpectedCard("**2021** First entry.", "First description.", true)
    + ExpectedCard("**2022** Second entry.", "Second description.", false)
    + ["", "", "`````"]
  }

  lemma SampleTimelineLines()
    ensures TimelineLines(SampleTimeline(), false) == SampleLines()
  {
    var entries := SampleTimeline().entries;
    SampleFirstCard();
    SampleSecondCard();
    assert entries == [entries[0], entries[1]];
    CardLinesPair(EntryLines, entries[0], entries[1], true);
  }

  lemma SampleSingleLine()
    ensures SingleLineEntries(SampleTimeline().entries)
  {
    var entries := SampleTimeline().entries;
    assert NoNewline(entries[0].title) && NoNewline(entries[0].description);
    assert NoNewline(entries[1].title) && NoNewline(entries[1].description);
  }

  /** The renderer's test: the sample timeline in file order renders the grid
      opening, the 2021 card on the left, the 2022 card on the right, and the
      grid closing, line for line. */
  lemma SampleTimelineText()
    ensures TimelineMarkdown(SampleTimeline(), false) == Join(SampleLines())
  {
    SampleSingleLine();
    SampleTimelineLines();
    TimelineJoinsLines(SampleTimeline(), false);
  }
}
