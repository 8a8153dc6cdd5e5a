/** Blog post scaffolding: the writer's normalised settings, the file name and
    path derived from a title, and the front-matter template of a new post. */
module Blog {
  import opened Lines
  import opened Optional
  import Decimal

  /** A POSIX path as `PurePath.parts` lists it: a root (`/` or `//`) first when
      the path is absolute, then its names. */
  type Path = seq<string>

  /** The writer's settings once the constructor has normalised them. */
  datatype BlogWriter = BlogWriter(outputDir: Path, title: string, category: string, tags: seq<string>)

  const DefaultCategory: string := "uncategorized"

  /** The constructor: a missing or empty category becomes `uncategorized`, and
      missing or empty tags become the empty list (Python's `x or default`). */
  function NewBlogWriter(outputDir: Path, title: string, category: Option<string>,
                         tags: Option<seq<string>>): (w: BlogWriter)
    ensures w.outputDir == outputDir && w.title == title
    ensures w.category != ""
    ensures category.Some? && category.value != "" ==> w.category == category.value
    ensures category.None? || category.value == "" ==> w.category == DefaultCategory
    ensures tags.Some? ==> w.tags == tags.value
    ensures tags.None? ==> w.tags == []
  {
    var category := if category.Some? && category.value != "" then category.value else DefaultCategory;
    var tags := if tags.Some? && tags.value != [] then tags.value else [];
    BlogWriter(outputDir, title, category, tags)
  }

  // ---------------------------------------------------------------------
  // File name and path
  // ---------------------------------------------------------------------

  predicate IsUpper(c: char) {
    'A' <= c <= 'Z'
  }

  /** `str.lower` on one character, for the ASCII letters. */
  function LowerChar(c: char): (r: char)
    ensures !IsUpper(r)
    ensures IsUpper(c) ==> r as int == c as int + 32
    ensures !IsUpper(c) ==> r == c
  {
    if IsUpper(c) then (c as int + 32) as char else c
  }

  /** `str.lower`, for ASCII text. */
  function Lower(s: string): (r: string)
    ensures |r| == |s| && forall i :: 0 <= i < |s| ==> r[i] == LowerChar(s[i])
  {
    seq(|s|, i requires 0 <= i < |s| => LowerChar(s[i]))
  }

  /** `str.replace(' ', '_')`. */
  function ReplaceSpaces(s: string): (r: string)
    ensures |r| == |s| && ' ' !in r
    ensures forall i :: 0 <= i < |s| ==> r[i] == if s[i] == ' ' then '_' else s[i]
  {
    seq(|s|, i requires 0 <= i < |s| => if s[i] == ' ' then '_' else s[i])
  }

  /** `blog_filename`: the title lowercased, spaces turned into underscores,
      and `.md` appended. */
  function BlogFilename(title: string): string {
    ReplaceSpaces(Lower(title)) + ".md"
  }

  /** The file name has one character per title character, lowercased or an
      underscore for a space, then the `.md` extension; it holds no space. */
  lemma BlogFilenameShape(title: string)
    ensures var name := BlogFilename(title);
            |name| == |title| + 3 &&
            name[|title|..] == ".md" &&
            ' ' !in name &&
            forall i :: 0 <= i < |title| ==>
              name[i] == if title[i] == ' ' then '_' else LowerChar(title[i])
  {
    var name := BlogFilename(title);
    assert ' ' !in ".md" by {
      assert ".md"[0] == '.' && ".md"[1] == 'm' && ".md"[2] == 'd';
    }
    assert name[|title|..] == ".md";
  }

  /** Titles that differ only in the case of their letters share a file. */
  lemma BlogFilenameIgnoresCase(a: string, b: string)
    requires Lower(a) == Lower(b)
    ensures BlogFilename(a) == BlogFilename(b)
  {
  }

  /** Naming a lowercased title gives the same file as naming the title. */
  lemma BlogFilenameOfLower(title: string)
    ensures BlogFilename(Lower(title)) == BlogFilename(title)
  {
    assert Lower(Lower(title)) == Lower(title);
  }

  /** The title a file name stands for: the name without `.md`, underscores
      read as spaces. */
  function FilenameTitle(name: string): (title: string)
    requires |name| >= 3
    ensures |title| == |name| - 3
  {
    seq(|name| - 3, i requires 0 <= i < |name| - 3 => if name[i] == '_' then ' ' else name[i])
  }

  /** A title in lowercase without underscores is recovered from its file name. */
  lemma FilenameTitleOf(title: string)
    requires Lower(title) == title && '_' !in title
    ensures FilenameTitle(BlogFilename(title)) == title
  {
    var name := BlogFilename(title);
    BlogFilenameShape(title);
    forall i | 0 <= i < |title| ensures FilenameTitle(name)[i] == title[i] {
      assert LowerChar(title[i]) == Lower(title)[i];
    }
  }

  /** `str.split('/')`: the pieces between slashes, always at least one. */
  function Segments(s: string): (pieces: seq<string>)
    ensures |pieces| > 0
  {
    if |s| == 0 then [""]
    else
      var init := Segments(s[..|s| - 1]);
      var c := s[|s| - 1];
      if c == '/' then init + [""]
      else init[..|init| - 1] + [init[|init| - 1] + [c]]
  }

  /** The pieces pathlib keeps as names: empty pieces and `.` are dropped. */
  function NamedSegments(pieces: seq<string>): seq<string> {
    if |pieces| == 0 then []
    else
      var last := pieces[|pieces| - 1];
      NamedSegments(pieces[..|pieces| - 1]) + if last == "" || last == "." then [] else [last]
  }

  /** The names a path string contributes. */
  function NameParts(name: string): seq<string> {
    NamedSegments(Segments(name))
  }

  /** The root of an absolute POSIX path: `//` kept for exactly two leading
      slashes, `/` for one or for three and more. */
  function Root(name: string): string {
    if StartsWith(name, "//") && !StartsWith(name, "///") then "//" else "/"
  }

  /** `base / name` on POSIX paths: an absolute name replaces the base, and the
      names of `name` are appended otherwise. */
  function JoinPath(base: Path, name: string): Path {
    if |name| > 0 && name[0] == '/' then [Root(name)] + NameParts(name)
    else base + NameParts(name)
  }

  predicate EndsWith(s: string, suffix: string) {
    |suffix| <= |s| && s[|s| - |suffix|..] == suffix
  }

  /** A character other than a slash extends the last piece of a split. */
  lemma SegmentsSnoc(s: string, c: char)
    requires c != '/'
    ensures var pieces := Segments(s);
            Segments(s + [c]) == pieces[..|pieces| - 1] + [pieces[|pieces| - 1] + [c]]
  {
    assert (s + [c])[..|s|] == s;
  }

  /** Text without a slash extends the last piece of a split. */
  lemma {:induction false} SegmentsAppend(t: string, u: string)
    requires '/' !in u
    ensures var pieces := Segments(t);
            Segments(t + u) == pieces[..|pieces| - 1] + [pieces[|pieces| - 1] + u]
    decreases |u|
  {
    var pieces := Segments(t);
    var k := |pieces|;
    if |u| == 0 {
      assert t + u == t;
      assert pieces[k - 1] + u == pieces[k - 1];
      assert pieces == pieces[..k - 1] + [pieces[k - 1]];
    } else {
      var front := u[..|u| - 1];
      var c := u[|u| - 1];
      assert c in u;
      assert u == front + [c];
      assert t + u == (t + front) + [c];
      SegmentsAppend(t, front);
      SegmentsSnoc(t + front, c);
      ExtendLast(pieces, front, c);
    }
  }

  /** Extending the last piece twice extends it by both. */
  lemma ExtendLast(pieces: seq<string>, front: string, c: char)
    requires |pieces| > 0
    ensures var k := |pieces|;
            var init := pieces[..k - 1] + [pieces[k - 1] + front];
            init[..|init| - 1] + [init[|init| - 1] + [c]] == pieces[..k - 1] + [pieces[k - 1] + (front + [c])]
  {
    var k := |pieces|;
    var init := pieces[..k - 1] + [pieces[k - 1] + front];
    assert |init| == k;
    assert init[..k - 1] == pieces[..k - 1];
    assert init[k - 1] + [c] == pieces[k - 1] + (front + [c]);
  }

  /** Text without a slash is a single piece. */
  lemma SegmentsSingle(name: string)
    requires '/' !in name
    ensures Segments(name) == [name]
  {
    var empty: string := [];
    assert Segments(empty) == [empty];
    SegmentsAppend(empty, name);
    assert empty + name == name;
  }

  /** A piece that is neither empty nor `.` is kept. */
  lemma NamedSegmentsSingle(piece: string)
    requires piece != "" && piece != "."
    ensures NamedSegments([piece]) == [piece]
  {
    assert [piece][..0] == [];
  }

  /** A name without slash that is neither empty nor `.` is one part. */
  lemma NamePartsSingle(name: string)
    requires '/' !in name && name != "" && name != "."
    ensures NameParts(name) == [name]
  {
    SegmentsSingle(name);
    NamedSegmentsSingle(name);
  }

  /** A name ending in `.md` ends in a part that ends in `.md`. */
  lemma NamePartsLast(name: string)
    requires EndsWith(name, ".md")
    ensures var parts := NameParts(name);
            |parts| > 0 && EndsWith(parts[|parts| - 1], ".md")
  {
    var t := name[..|name| - 3];
    assert name == t + ".md";
    assert '/' !in ".md" by {
      assert ".md"[0] == '.' && ".md"[1] == 'm' && ".md"[2] == 'd';
    }
    SegmentsAppend(t, ".md");
    var pieces := Segments(t);
    var last := pieces[|pieces| - 1] + ".md";
    var all := pieces[..|pieces| - 1] + [last];
    assert all[..|all| - 1] == pieces[..|pieces| - 1];
    assert last[|last| - 3..] == ".md";
    assert last != "" && last != ".";
  }

  /** `blog_file`: the output directory, then the year of the post, then the
      file name, each joined with pathlib's `/`. */
  function BlogFile(w: BlogWriter, year: nat): Path {
    JoinPath(JoinPath(w.outputDir, Decimal.ZeroPad(year, 4)), BlogFilename(w.title))
  }

  /** The post file always ends in `.md`. A title starting with `/` gives an
      absolute path that leaves the output directory. Any other title puts the
      post under the output directory and the year directory, whose name reads
      back as the year (four digits for the years of a calendar date); a slash
      inside it adds directories, and a title without slash gives the file name
      itself, two levels down. */
  lemma BlogFileShape(w: BlogWriter, year: nat)
    ensures var path := BlogFile(w, year);
            var name := BlogFilename(w.title);
            var yearText := Decimal.ZeroPad(year, 4);
            |path| > 0 && EndsWith(path[|path| - 1], ".md") &&
            (|w.title| > 0 && w.title[0] == '/' ==> path == [Root(name)] + NameParts(name)) &&
            (!(|w.title| > 0 && w.title[0] == '/') ==>
               path == w.outputDir + [yearText] + NameParts(name) &&
               Decimal.AllDigits(yearText) && Decimal.DigitsValue(yearText) == year &&
               (0 < year < 10000 ==> |yearText| == 4)) &&
            ('/' !in w.title ==> path == w.outputDir + [yearText, name])
  {
    var name := BlogFilename(w.title);
    var yearText := Decimal.ZeroPad(year, 4);
    YearPart(year);
    FilenameSlash(w.title);
    NamePartsLast(name);
    JoinUnder(w.outputDir, yearText, name);
    assert w.outputDir + [yearText] + [name] == w.outputDir + [yearText, name];
  }

  /** Joining a directory name and then a file name to a base. */
  lemma JoinUnder(base: Path, dir: string, name: string)
    requires |dir| > 0 && dir[0] != '/' && NameParts(dir) == [dir]
    ensures var path := JoinPath(JoinPath(base, dir), name);
            (|name| > 0 && name[0] == '/' ==> path == [Root(name)] + NameParts(name)) &&
            (!(|name| > 0 && name[0] == '/') ==> path == base + [dir] + NameParts(name))
  {
  }

  /** The year directory is one part that reads back as the year. */
  lemma YearPart(year: nat)
    ensures var yearText := Decimal.ZeroPad(year, 4);
            |yearText| > 0 && yearText[0] != '/' && NameParts(yearText) == [yearText] &&
            Decimal.AllDigits(yearText) && Decimal.DigitsValue(yearText) == year &&
            (0 < year < 10000 ==> |yearText| == 4)
  {
    var yearText := Decimal.ZeroPad(year, 4);
    assert '/' !in yearText && yearText != "" && yearText != "." by {
      assert forall k :: 0 <= k < |yearText| ==> Decimal.IsDigit(yearText[k]);
      assert |yearText| >= 4;
    }
    NamePartsSingle(yearText);
    if 0 < year < 10000 {
      assert Decimal.Pow10(4) == 10000;
      Decimal.ZeroPadLength(year, 4);
    }
  }

  /** The file name ends in `.md`, starts with a slash exactly when the title
      does, and is one part when the title has no slash. */
  lemma FilenameSlash(title: string)
    ensures var name := BlogFilename(title);
            EndsWith(name, ".md") &&
            (|name| > 0 && name[0] == '/' <==> |title| > 0 && title[0] == '/') &&
            ('/' !in title ==> NameParts(name) == [name])
  {
    var name := BlogFilename(title);
    BlogFilenameShape(title);
    if '/' !in title {
      assert '/' !in name by {
        forall i | 0 <= i < |name| ensures name[i] != '/' {
          if i >= |title| {
            assert name[i] == ".md"[i - |title|];
          }
        }
      }
      NamePartsSingle(name);
    }
  }

  // ---------------------------------------------------------------------
  // The date of a post
  // ---------------------------------------------------------------------

  /** A calendar date, as `datetime` holds it. */
  datatype Date = Date(year: nat, month: nat, day: nat)

  predicate ValidDate(d: Date) {
    1 <= d.year <= 9999 && 1 <= d.month <= 12 && 1 <= d.day <= 31
  }

  /** `strftime("%Y-%m-%d")`: the fields zero-padded to four, two and two digits. */
  function DateText(d: Date): string {
    Decimal.ZeroPad(d.year, 4) + "-" + Decimal.ZeroPad(d.month, 2) + "-" + Decimal.ZeroPad(d.day, 2)
  }

  /** The date text of a calendar date is ten characters with dashes at 4 and 7,
      and its three digit fields read back as the year, the month and the day. */
  lemma DateTextFields(d: Date)
    requires ValidDate(d)
    ensures var s := DateText(d);
            |s| == 10 && s[4] == '-' && s[7] == '-' &&
            Decimal.AllDigits(s[..4]) && Decimal.DigitsValue(s[..4]) == d.year &&
            Decimal.AllDigits(s[5..7]) && Decimal.DigitsValue(s[5..7]) == d.month &&
            Decimal.AllDigits(s[8..]) && Decimal.DigitsValue(s[8..]) == d.day
  {
    assert Decimal.Pow10(2) == 100;
    assert Decimal.Pow10(4) == 10000;
    Decimal.ZeroPadLength(d.year, 4);
    Decimal.ZeroPadLength(d.month, 2);
    Decimal.ZeroPadLength(d.day, 2);
    DashedFields(Decimal.ZeroPad(d.year, 4), Decimal.ZeroPad(d.month, 2), Decimal.ZeroPad(d.day, 2));
  }

  /** Three fields of four, two and two characters joined by dashes. */
  lemma DashedFields(y: string, m: string, dd: string)
    requires |y| == 4 && |m| == 2 && |dd| == 2
    ensures var s := y + "-" + m + "-" + dd;
            |s| == 10 && s[4] == '-' && s[7] == '-' && s[..4] == y && s[5..7] == m && s[8..] == dd
  {
    var s := y + "-" + m + "-" + dd;
    assert s[..4] == y;
    assert s[5..7] == m;
    assert s[8..] == dd;
  }

  lemma DateTextNoNewline(d: Date)
    ensures NoNewline(DateText(d))
  {
    var y := Decimal.ZeroPad(d.year, 4);
    var m := Decimal.ZeroPad(d.month, 2);
    var dd := Decimal.ZeroPad(d.day, 2);
    assert NoNewline(y) by {
      assert forall k :: 0 <= k < |y| ==> Decimal.IsDigit(y[k]);
    }
    assert NoNewline(m) by {
      assert forall k :: 0 <= k < |m| ==> Decimal.IsDigit(m[k]);
    }
    assert NoNewline(dd) by {
      assert forall k :: 0 <= k < |dd| ==> Decimal.IsDigit(dd[k]);
    }
    assert NoNewline("-");
  }

  // ---------------------------------------------------------------------
  // The tags line
  // ---------------------------------------------------------------------

  /** `", ".join(tags)`. */
  function JoinTags(tags: seq<string>): string {
    if |tags| == 0 then ""
    else if |tags| == 1 then tags[0]
    else tags[0] + ", " + JoinTags(tags[1..])
  }

  /** `str.split(", ")`: the text cut at every comma-space, left to right. */
  function SplitTags(s: string): (parts: seq<string>)
    ensures |parts| > 0
    decreases |s|
  {
    if |s| == 0 then [""]
    else if |s| >= 2 && s[0] == ',' && s[1] == ' ' then [""] + SplitTags(s[2..])
    else
      var rest := SplitTags(s[1..]);
      [[s[0]] + rest[0]] + rest[1..]
  }

  lemma {:induction false} SplitTagsSingle(tag: string)
    requires ',' !in tag
    ensures SplitTags(tag) == [tag]
  {
    if |tag| > 0 {
      SplitTagsSingle(tag[1..]);
      assert [tag[0]] + tag[1..] == tag;
    }
  }

  lemma {:induction false} SplitTagsAfter(tag: string, rest: string)
    requires ',' !in tag
    ensures SplitTags(tag + ", " + rest) == [tag] + SplitTags(rest)
  {
    var s := tag + ", " + rest;
    if |tag| == 0 {
      assert s == ", " + rest;
      assert s[2..] == rest;
    } else {
      assert s[1..] == tag[1..] + ", " + rest;
      SplitTagsAfter(tag[1..], rest);
      assert [s[0]] + tag[1..] == tag;
    }
  }

  /** The tags are read back from the tags line when none holds a comma. */
  lemma {:induction false} SplitJoinTags(tags: seq<string>)
    requires |tags| > 0
    requires forall i :: 0 <= i < |tags| ==> ',' !in tags[i]
    ensures SplitTags(JoinTags(tags)) == tags
  {
    if |tags| == 1 {
      SplitTagsSingle(tags[0]);
    } else {
      SplitTagsAfter(tags[0], JoinTags(tags[1..]));
      SplitJoinTags(tags[1..]);
      assert tags == [tags[0]] + tags[1..];
    }
  }

  lemma {:induction false} JoinTagsNoNewline(tags: seq<string>)
    requires AllNoNewline(tags)
    ensures NoNewline(JoinTags(tags))
  {
    if |tags| > 1 {
      JoinTagsNoNewline(tags[1..]);
      assert NoNewline(", ");
    }
  }

  // ---------------------------------------------------------------------
  // The content of a new post
  // ---------------------------------------------------------------------

  /** The indentation of the post template inside the writer's source. */
  const TemplateIndent: string := "            "

  /** The front matter: tags, category, date and title between two `---` lines. */
  function FrontMatter(w: BlogWriter, date: Date): seq<string> {
    [ "---",
      "tags: " + JoinTags(w.tags),
      "category: " + w.category,
      "date: " + DateText(date),
      "title: " + w.title,
      "---" ]
  }

  /** The body: a blank line, the title as a heading, an introduction section
      with its placeholder sentence, and the empty line after the final line feed. */
  function PostBody(w: BlogWriter): seq<string> {
    [ "",
      "# " + w.title,
      "",
      "## Introduction",
      "",
      "Start writing your blog post here.",
      "" ]
  }

  /** The lines of the post template with the template's indentation taken off. */
  function PostContents(w: BlogWriter, date: Date): seq<string> {
    FrontMatter(w, date) + PostBody(w)
  }

  /** `new_blog_content`: the dedented post template. */
  function NewBlogContent(w: BlogWriter, date: Date): string {
    Dedent(Join(IndentLines(TemplateIndent, PostContents(w, date))))
  }

  /** Settings that keep every template line a single line. */
  predicate SingleLineSettings(w: BlogWriter) {
    NoNewline(w.title) && NoNewline(w.category) && AllNoNewline(w.tags)
  }

  lemma PostContentsNoNewline(w: BlogWriter, date: Date)
    requires SingleLineSettings(w)
    ensures AllNoNewline(PostContents(w, date))
  {
    JoinTagsNoNewline(w.tags);
    DateTextNoNewline(date);
    var front := FrontMatter(w, date);
    var body := PostBody(w);
    assert AllNoNewline(front) by {
      assert NoNewline("---") && NoNewline("tags: ") && NoNewline("category: ");
      assert NoNewline("date: ") && NoNewline("title: ");
    }
    assert AllNoNewline(body) by {
      assert NoNewline("# ") && NoNewline("## Introduction");
      var last := "Start writing your blog post here.";
      assert forall k :: 0 <= k < |last| ==> last[k] != '\n';
    }
    AllNoNewlineAppend(front, body);
  }

  /** No line of the template is only blanks, other than the empty ones. */
  lemma PostContentsNormal(w: BlogWriter, date: Date)
    ensures NormalizeLines(PostContents(w, date)) == PostContents(w, date)
  {
    var front := FrontMatter(w, date);
    var body := PostBody(w);
    NormalizeLinesAppend(front, body);
    forall k | 0 <= k < |front| ensures Normalize(front[k]) == front[k] {
      NormalizeKeeps(front[k]);
    }
    forall k | 0 <= k < |body| ensures Normalize(body[k]) == body[k] {
      NormalizeKeeps(body[k]);
    }
  }

  /** `new_blog_content` is the template without its indentation, line for
      line: the front matter, then the body; the text ends with a line feed. */
  lemma NewBlogContentLines(w: BlogWriter, date: Date)
    requires SingleLineSettings(w)
    ensures NewBlogContent(w, date) == Join(PostContents(w, date))
    ensures Split(NewBlogContent(w, date)) == FrontMatter(w, date) + PostBody(w)
    ensures NewBlogContent(w, date)[|NewBlogContent(w, date)| - 1] == '\n'
  {
    var contents := PostContents(w, date);
    PostContentsNoNewline(w, date);
    PostContentsNormal(w, date);
    DedentIndented(TemplateIndent, contents);
    SplitJoin(contents);
    JoinAppend(contents[..|contents| - 1], [""]);
    assert contents == contents[..|contents| - 1] + [""];
  }
}
