# jarvis text builders, modelled in Dafny

This project models the three deterministic text builders of the `jarvis` package behind the
cuinixam.github.io site:

- **The timeline renderer** (`TimelineWriter`). It turns a list of dated entries `(year, title,
  description)` into a two-column MyST card grid. The output is:
  - a fixed grid header;
  - one card block per entry, visited in file order or reversed, with the card alternating
    between left and right;
  - a fixed footer;
  - all joined with line feeds.

  Each card block is a template that `textwrap.dedent` strips of its source indentation.
  `timeline_to_md` becomes the method `Timeline.TimelineToMd`. It has a `for` loop and a flag
  that flips after every card, and it is proved equal to the specification function
  `Timeline.TimelineMarkdown`. The properties of the renderer are proved about that function.
- **The blog scaffolding** (`BlogWritter`), modelled as a record and pure functions:
  - the normalised settings of the constructor;
  - the file name and path of a post. A path is the list of its parts, as `PurePath.parts`
    gives it, and `/` follows POSIX `pathlib`: the joined string is split at `/`, empty and `.`
    pieces are dropped, and a string starting with `/` replaces the path with its root;
  - the front-matter template of a new post.
- **The polynomial label** `get_function_latex` of the linear-functions notebook. It writes
  `a3x^3 + a2x^2 + a1x + a0` without its zero terms, with `" + "` or `" "` between terms, and
  `0` when nothing is left. It becomes the loop-free method `PolynomialLabel.GetFunctionLatex`,
  which keeps the notebook's four guarded blocks and is proved equal to the specification
  function `PolynomialLabel.FunctionLatex`. A parser, `ReadLabel`, reads a label back,
  and the round trip `ReadLabel(FunctionLatex(a3, a2, a1, a0)) == Some(Terms(a3, a2, a1, a0))`
  is proved.

Python library behaviour the code relies on is modelled in two modules of its own:

- `Lines` models `"\n".join`, `str.split("\n")` and `textwrap.dedent`. For `dedent`, lines made
  only of spaces and tabs become empty, and the longest indentation common to the other lines
  is removed.
- `Decimal` models `str(int)`, `strftime`'s zero-padded numeric fields, and reading decimal
  text back.

Modules: `Optional` (an option type), `Lines`, `Decimal`, `Timeline`, `Blog`, `PolynomialLabel`.

## Model

| member | source | states |
|---|---|---|
| Timeline.TimelineToMd | src/jarvis/timeline.py:56-65 | The loop builds exactly the header lines, the first `i` cards in visiting order with the flag equal to "`i` is even", and finally the footer, joined with line feeds. The result equals `TimelineMarkdown`. |
| Timeline.RenderNext | src/jarvis/timeline.py:61-63 | One loop turn: appending entry `i`'s block, rendered on the left exactly when `i` is even, gives the header plus the first `i + 1` cards. |
| Timeline.RenderAll | src/jarvis/timeline.py:61 | After the loop, the cards rendered are those of every entry in visiting order (`reversed(entries)` or `entries`). |
| Timeline.CardsAppend | src/jarvis/timeline.py:61-63 | Rendering one more entry appends one block, on the side its position gives. |
| Timeline.Cards | src/jarvis/timeline.py:59-63 | There is one block per entry. Block `i` renders entry `i`, on the starting side when `i` is even and on the other side when it is odd. |
| Timeline.Reversed | src/jarvis/timeline.py:61 | `reversed(entries)` has the same length, and its element `i` is entry `n - 1 - i`. |
| Timeline.Visited | src/jarvis/timeline.py:61 | Position `i` visits entry `n - 1 - i` when reversed and entry `i` otherwise. The entries are not changed. |
| Timeline.TimelineBlocks | src/jarvis/timeline.py:58-64 | The joined pieces are the 4 header lines, exactly one card per entry in visiting order starting on the left, and the 3 footer lines. |
| Timeline.TimelineCardAt | src/jarvis/timeline.py:59-63 | Card `i` of the output renders entry `i` (entry `n - 1 - i` when reversed), on the left exactly when `i` is even, in both directions. |
| Timeline.TimelineMarkdownLines | src/jarvis/timeline.py:58-65 | For single-line entries, splitting the output at line feeds gives the header lines, 18 lines per card and the footer lines. The line count is `4 + 18n + 3`. |
| Timeline.TimelineJoinsLines | src/jarvis/timeline.py:65 | Joining the blocks equals joining all their lines: each card's inner line feeds and the separators between blocks are the same line feeds. |
| Timeline.TimelineLinesNoNewline | src/jarvis/timeline.py:58-65 | No output line holds a line feed, and the line count is `4 + 18n + 3`. |
| Timeline.TimelineCardLines | src/jarvis/timeline.py:61-62 | Lines `4 + 18i` to `4 + 18i + 17` of the output are the lines of entry `i` (or `n - 1 - i`), on the left exactly when `i` is even. |
| Timeline.TimelineCardContent | src/jarvis/timeline.py:69-87 | Inside card `i`: the card, whose class line names the left side exactly when `i` is even; then an empty grid item on the opposite side; then one on the card's own side. A description made only of blanks becomes an empty line. |
| Timeline.EmptyTimeline | src/jarvis/timeline.py:58-65 | With no entries, the output is the header text followed directly by the footer text. |
| Timeline.HeaderText | src/jarvis/timeline.py:58 | The header lines join to ``"`````{grid} 2\n:class-container: timeline\n\n"``. |
| Timeline.FooterText | src/jarvis/timeline.py:64 | The footer lines join to ``"\n\n`````"``. |
| Timeline.EntryToMdLines | src/jarvis/timeline.py:67-87 | For a single-line entry, `timeline_entry_to_md` is the template's 18 lines without their 12-space indentation. Splitting the text gives those lines back, and it has no trailing line feed. |
| Timeline.EntryLinesParts | src/jarvis/timeline.py:69-87 | After dedent, a card block is the card body (with a blank-only description emptied), then the opposite-side grid item, then the same-side grid item. |
| Timeline.CardBodyNormal | src/jarvis/timeline.py:70-81 | Dedent's blank-line rule changes no line of the card except, possibly, the description. |
| Timeline.EmptyItemNormal | src/jarvis/timeline.py:82-87 | Dedent leaves the empty grid items unchanged. |
| Timeline.CardCommentShape | src/jarvis/timeline.py:72 | The comment line is 82 characters: `<!-- `, 73 dashes, ` -->`. |
| Timeline.HeadingNoNewline | src/jarvis/timeline.py:74 | The heading `**{year}** {title}` starts with `*` and holds no line feed when the title holds none. |
| Timeline.EntryLinesNoNewline | src/jarvis/timeline.py:69-87 | A card block of a single-line entry holds no line feed inside any line. |
| Timeline.ExpectedCardLines | src/jarvis/timeline.py:69-87 | A card whose description dedent keeps has exactly the 18 lines the renderer's test writes out for a card. |
| Timeline.ExpectedComment | tests/test_timeline.py:32 | The comment line the test writes out, 73 dashes between `<!-- ` and ` -->`, is the renderer's comment line. |
| Timeline.RepeatAppend | src/jarvis/timeline.py:72 | Two runs of a character make one run of their total length. |
| Timeline.SampleHeadings | tests/test_timeline.py:34 | The headings of the sample entries are `**2021** First entry.` and `**2022** Second entry.`. |
| Timeline.SampleFirstCard | tests/test_timeline.py:30-47 | The 2021 card is on the left, with the test's lines. |
| Timeline.SampleSecondCard | tests/test_timeline.py:48-65 | The 2022 card is on the right, with the test's lines. |
| Timeline.SampleSingleLine | tests/test_timeline.py:7-12 | The sample entries are single-line. |
| Timeline.SampleTimelineLines | tests/test_timeline.py:25-68 | The sample timeline, forwards, gives line for line the expected grid of the test. |
| Timeline.SampleTimelineText | tests/test_timeline.py:23-68 | The sample timeline rendered forwards is exactly the test's golden text. |
| Lines.JoinSplit | src/jarvis/timeline.py:65 | Joining the pieces of `split("\n")` gives the text back. |
| Lines.SplitJoin | src/jarvis/timeline.py:65 | Splitting the join of lines without line feeds gives the lines back. |
| Lines.JoinAppend | src/jarvis/timeline.py:64-65 | Joining two non-empty lists puts one line feed between their joins. |
| Lines.DedentIndented | src/jarvis/timeline.py:69 | `textwrap.dedent` of a template indented by one blank prefix, whose first line holds text, is the lines without the prefix, with blank-only lines emptied. |
| Decimal.NatToString | src/jarvis/timeline.py:74 | The decimal text of a natural number is digits only, has no leading zero, and is one digit exactly for numbers below 10. |
| Decimal.DigitsValueOfNat | src/jarvis/timeline.py:74 | The decimal text of `n` reads back as `n`. |
| Decimal.IntToStringShape | src/jarvis/notebooks/linear_functions.py:21 | `str(i)` is never empty. It starts with `-` exactly for negative `i` and is digits otherwise, with no leading zero. It is `"0"` only for zero. |
| Decimal.ReadIntOf | src/jarvis/notebooks/linear_functions.py:21 | `str(i)` followed by text that does not start with a digit reads back as `i` and that text. |
| Decimal.ZeroPad | src/jarvis/blog.py:38 | The padded field is digits, at least the requested width, and reads back as the number. |
| Decimal.ZeroPadLength | src/jarvis/blog.py:38 | A number below `10^width` is padded to exactly `width` digits. |
| Blog.NewBlogWriter | src/jarvis/blog.py:7-11 | Output directory and title are stored. The category is the given one when non-empty and `uncategorized` when missing or empty, so it is never empty. Tags are the given list when present and empty when missing. |
| Blog.LowerChar | src/jarvis/blog.py:15 | An ASCII capital becomes its lowercase letter and every other character is kept. The result is never a capital. |
| Blog.Lower | src/jarvis/blog.py:15 | `lower()` maps every character by `LowerChar` and keeps the length. |
| Blog.ReplaceSpaces | src/jarvis/blog.py:15 | `replace(' ', '_')` turns every space into an underscore, keeps the other characters, and leaves no space. |
| Blog.BlogFilenameShape | src/jarvis/blog.py:15 | The file name is the title lowercased, with spaces made underscores, followed by `.md`. It is three characters longer than the title and holds no space. |
| Blog.BlogFilenameIgnoresCase | src/jarvis/blog.py:15 | Titles equal up to letter case have the same file name. |
| Blog.BlogFilenameOfLower | src/jarvis/blog.py:15 | Lowercasing a title first does not change its file name. |
| Blog.FilenameTitleOf | src/jarvis/blog.py:15 | A lowercase title without underscores is recovered from its file name. |
| Blog.BlogFileShape | src/jarvis/blog.py:17-20 | The post path always ends in a `.md` name. A title starting with `/` makes the file name absolute, so the path is its root and its names and leaves the output directory. Any other title gives the output directory, then the year directory (digits reading back as the year, four of them for years 1 to 9999), then the names of the file name; a title without `/` gives the file name itself as the last part. |
| Blog.SegmentsAppend | src/jarvis/blog.py:20 | Appending text without `/` to a path string extends its last slash-separated piece and adds no piece. |
| Blog.SegmentsSingle | src/jarvis/blog.py:20 | Text without `/` is a single piece. |
| Blog.NamedSegmentsSingle | src/jarvis/blog.py:20 | A piece that is neither empty nor `.` is kept as a name. |
| Blog.NamePartsSingle | src/jarvis/blog.py:20 | A string without `/` that is neither empty nor `.` adds exactly itself as one path part. |
| Blog.NamePartsLast | src/jarvis/blog.py:20 | A string ending in `.md` adds at least one part, the last of which ends in `.md`. |
| Blog.YearPart | src/jarvis/blog.py:20 | The year text is one relative path part made of digits that read back as the year, four of them for years 1 to 9999. |
| Blog.FilenameSlash | src/jarvis/blog.py:15-20 | The file name ends in `.md`, starts with `/` exactly when the title does, and is one path part when the title holds no `/`. |
| Blog.DateTextFields | src/jarvis/blog.py:38 | `%Y-%m-%d` of a calendar date is 10 characters, with dashes at 4 and 7 and digit fields reading back as year, month and day. |
| Blog.DateTextNoNewline | src/jarvis/blog.py:38 | The date text holds no line feed. |
| Blog.SplitJoinTags | src/jarvis/blog.py:36 | When no tag holds a comma, `", ".join(tags)` split at `", "` gives the tags back. |
| Blog.JoinTagsNoNewline | src/jarvis/blog.py:36 | The tags line holds no line feed when no tag does. |
| Blog.PostContentsNoNewline | src/jarvis/blog.py:34-47 | With single-line settings, no template line holds a line feed. |
| Blog.PostContentsNormal | src/jarvis/blog.py:34-47 | Dedent's blank-line rule leaves every line of the post template unchanged. |
| Blog.NewBlogContentLines | src/jarvis/blog.py:32-47 | `new_blog_content` is the template without its indentation. Split into lines it is the front matter (`---`, the tags line, category, date, title, `---`), then a blank line, `# {title}`, a blank line, `## Introduction`, a blank line, the placeholder sentence and the empty line after the final line feed. It ends with a line feed. |
| PolynomialLabel.GetFunctionLatex | src/jarvis/notebooks/linear_functions.py:17-39 | The four guarded blocks and the final check return exactly `FunctionLatex(a3, a2, a1, a0)`. |
| PolynomialLabel.AddTerm | src/jarvis/notebooks/linear_functions.py:22-36 | One block: the label of the terms so far extended by one term. That term is written alone when the label is empty, otherwise after `" + "` for a positive coefficient or `" "` for a negative one. |
| PolynomialLabel.JoinedAppend | src/jarvis/notebooks/linear_functions.py:23-26 | One more term adds its text, without separator when it is the first and after its separator otherwise. |
| PolynomialLabel.RestAppend | src/jarvis/notebooks/linear_functions.py:26 | A later term adds its separator and its text at the end. |
| PolynomialLabel.JoinedEmpty | src/jarvis/notebooks/linear_functions.py:37 | The label so far is empty exactly when no term has been written. |
| PolynomialLabel.TermsShape | src/jarvis/notebooks/linear_functions.py:20-36 | The written terms are the nonzero coefficients, in strictly descending power (3, 2, 1, 0). Each power's coefficient is the given one, and zero coefficients are absent. |
| PolynomialLabel.TermsWellFormed | src/jarvis/notebooks/linear_functions.py:20-36 | Written terms have nonzero coefficients, powers at most 3, in strictly descending order. |
| PolynomialLabel.TermsCoefficient | src/jarvis/notebooks/linear_functions.py:20-36 | The coefficient the terms give to each power is the argument for that power (zero above 3). |
| PolynomialLabel.RestLength | src/jarvis/notebooks/linear_functions.py:26 | Each later term takes at least two characters. |
| PolynomialLabel.FunctionLatexZero | src/jarvis/notebooks/linear_functions.py:37-39 | The label is never empty, and it is `0` exactly when all four coefficients are zero. |
| PolynomialLabel.ReadTermOf | src/jarvis/notebooks/linear_functions.py:21 | A term's text (`str(c)` and `x^3`/`x^2`/`x`/nothing) followed by nothing or a blank reads back as that term. |
| PolynomialLabel.SkipPiece | src/jarvis/notebooks/linear_functions.py:26 | The separator of a later term is recognised whole. The minus sign of a negative term is not taken as part of `" + "`. |
| PolynomialLabel.ReadRestOf | src/jarvis/notebooks/linear_functions.py:26-36 | The later terms with their separators read back as those terms. |
| PolynomialLabel.JoinedNotZero | src/jarvis/notebooks/linear_functions.py:37-38 | A label with a nonzero term is never the text `0`. |
| PolynomialLabel.ReadLabelOf | src/jarvis/notebooks/linear_functions.py:20-36 | Any non-empty run of nonzero terms in descending power reads back from its label. |
| PolynomialLabel.ReadFunctionLatex | src/jarvis/notebooks/linear_functions.py:17-39 | Reading the label back gives exactly the nonzero terms, with their coefficients and powers. |
| PolynomialLabel.FunctionLatexInjective | src/jarvis/notebooks/linear_functions.py:17-39 | Different coefficient tuples give different labels. |

## Left out

- JSON loading and saving of a timeline (`Timeline.from_json_file`, `to_json_string`,
  `to_json_file`, src/jarvis/timeline.py:30-44) are left out. They go through the `json` module
  and mashumaro, whose behaviour is not part of this model. The failure path, which wraps a
  traceback, is left out as well.
- File output is left out: `TimelineWriter.write` (src/jarvis/timeline.py:52-54) and
  `BlogWritter.write` (src/jarvis/blog.py:22-30) with `mkdir` and `write_text`.
- `datetime.now()` (src/jarvis/blog.py:20, 38) is a parameter. `BlogFile` takes the year and
  `NewBlogContent` takes a `Date`.
- Blog.BlogFile: paths follow POSIX `pathlib` rules only. Windows drives, backslashes and
  their joining rules are not modelled. The output directory is taken as its list of parts,
  already normalised.
- Blog.BlogFile: `%Y` is modelled as four zero-padded digits. The padding of years below 1000
  depends on the C library, and the clock never yields such years.
- Blog.Lower: `str.lower` is modelled for ASCII letters only. Other characters are kept, so
  Unicode case mappings (including those that change length) are not captured.
- PolynomialLabel.GetFunctionLatex: the coefficients are Python integers, written with `str`.
  The notebook's sliders can pass floats, and float formatting (`1.0`, `1e-05`) is not
  modelled.
- The renderer's entry list is a value in the model. That the list is not modified while it is
  walked holds by construction, and aliasing is not modelled.
- Timeline.EntryToMdLines, Timeline.TimelineMarkdownLines, Timeline.TimelineCardLines: the
  line-by-line view requires titles and descriptions without line feeds. The rendering itself
  (`EntryToMd`, `TimelineMarkdown`) is defined for any text through the dedent model, but
  nothing is proved about multi-line entries.
- Blog.NewBlogContentLines: the line-by-line view likewise requires a title, category and tags
  without line feeds.
- `textwrap.dedent` is modelled with the blank-line and common-margin rules of Python up to
  3.13. Whitespace other than spaces and tabs counts as text, as there.
- The rest of the notebooks (plots, widgets, random points and the float arithmetic of
  src/jarvis/notebooks/linear_functions.py, and all of statistical_analysis.py and
  comparing_objects.py) is not part of this model. It is floating-point numerics and UI over
  libraries.
- src/jarvis/main.py, my_app.py, _run.py and docs/conf.py are not part of this model. They are
  command-line wiring and site configuration with no text-building logic.
