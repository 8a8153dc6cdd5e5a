/** Text handled as a sequence of lines, the way the renderers build it:
    Python's `"\n".join(lines)`, `text.split("\n")` and `textwrap.dedent`. */
module Lines {

  /** No line feed anywhere in `s`: `s` is a single line. */
  predicate NoNewline(s: string) {
    '\n' !in s
  }

  predicate AllNoNewline(lines: seq<string>) {
    forall i :: 0 <= i < |lines| ==> NoNewline(lines[i])
  }

  lemma AllNoNewlineAppend(a: seq<string>, b: seq<string>)
    requires AllNoNewline(a) && AllNoNewline(b)
    ensures AllNoNewline(a + b)
  {
  }

  predicate StartsWith(s: string, prefix: string) {
    |prefix| <= |s| && s[..|prefix|] == prefix
  }

  /** `"\n".join(lines)`: the lines separated by single line feeds, none at the end. */
  function Join(lines: seq<string>): string {
    if |lines| == 0 then ""
    else if |lines| == 1 then lines[0]
    else lines[0] + "\n" + Join(lines[1..])
  }

  lemma JoinFour(a: string, b: string, c: string, d: string)
    ensures Join([a, b, c, d]) == a + "\n" + b + "\n" + c + "\n" + d
  {
    assert [c, d][1..] == [d];
    assert Join([c, d]) == c + "\n" + d;
    assert [b, c, d][1..] == [c, d];
    assert Join([b, c, d]) == b + "\n" + (c + "\n" + d);
    assert [a, b, c, d][1..] == [b, c, d];
  }

  /** `text.split("\n")`: the pieces between line feeds, always at least one. */
  function Split(text: string): (pieces: seq<string>)
    ensures |pieces| > 0
    ensures AllNoNewline(pieces)
  {
    if |text| == 0 then [""]
    else
      var rest := Split(text[1..]);
      if text[0] == '\n' then [""] + rest
      else [[text[0]] + rest[0]] + rest[1..]
  }

  /** Joining the pieces of a split gives back the text. */
  lemma {:induction false} JoinSplit(text: string)
    ensures Join(Split(text)) == text
  {
    if |text| > 0 {
      var rest := Split(text[1..]);
      JoinSplit(text[1..]);
      if text[0] == '\n' {
        assert Split(text) == [""] + rest;
        assert Join([""] + rest) == "" + "\n" + Join(rest) by {
          assert ([""] + rest)[1..] == rest;
        }
        assert text == "\n" + text[1..];
      } else {
        var first := [text[0]] + rest[0];
        assert Split(text) == [first] + rest[1..];
        if |rest| == 1 {
          assert Join([first] + rest[1..]) == first;
        } else {
          assert ([first] + rest[1..])[1..] == rest[1..];
          assert Join(rest) == rest[0] + "\n" + Join(rest[1..]);
        }
        assert text == [text[0]] + text[1..];
      }
    }
  }

  /** A text without line feed splits into itself alone. */
  lemma {:induction false} SplitSingle(line: string)
    requires NoNewline(line)
    ensures Split(line) == [line]
  {
    if |line| > 0 {
      SplitSingle(line[1..]);
      assert [line[0]] + line[1..] == line;
    }
  }

  /** Splitting at the first line feed. */
  lemma {:induction false} SplitAfter(line: string, rest: string)
    requires NoNewline(line)
    ensures Split(line + "\n" + rest) == [line] + Split(rest)
  {
    var text := line + "\n" + rest;
    if |line| == 0 {
      assert text == "\n" + rest;
      assert text[1..] == rest;
    } else {
      assert text[1..] == line[1..] + "\n" + rest;
      SplitAfter(line[1..], rest);
      assert [text[0]] + line[1..] == line;
    }
  }

  /** Splitting joined lines gives back the lines, when none holds a line feed. */
  lemma {:induction false} SplitJoin(lines: seq<string>)
    requires |lines| > 0
    requires AllNoNewline(lines)
    ensures Split(Join(lines)) == lines
  {
    if |lines| == 1 {
      SplitSingle(lines[0]);
    } else {
      SplitAfter(lines[0], Join(lines[1..]));
      SplitJoin(lines[1..]);
      assert lines == [lines[0]] + lines[1..];
    }
  }

  /** Joining two non-empty groups puts exactly one line feed between them. */
  lemma {:induction false} JoinAppend(a: seq<string>, b: seq<string>)
    requires |a| > 0 && |b| > 0
    ensures Join(a + b) == Join(a) + "\n" + Join(b)
  {
    if |a| == 1 {
      assert (a + b)[1..] == b;
    } else {
      assert (a + b)[1..] == a[1..] + b;
      JoinAppend(a[1..], b);
    }
  }

  /** Joined lines between two non-empty groups can be exchanged for other
      lines that join to the same text. */
  lemma JoinBetween(before: seq<string>, middle: seq<string>, other: seq<string>, after: seq<string>)
    requires |before| > 0 && |middle| > 0 && |other| > 0 && |after| > 0
    requires Join(middle) == Join(other)
    ensures Join(before + middle + after) == Join(before + other + after)
  {
    JoinAppend(before, middle);
    JoinAppend(before + middle, after);
    JoinAppend(before, other);
    JoinAppend(before + other, after);
  }

  // ---------------------------------------------------------------------
  // textwrap.dedent
  // ---------------------------------------------------------------------

  /** The characters `textwrap.dedent` treats as indentation. */
  predicate IsBlank(c: char) {
    c == ' ' || c == '\t'
  }

  predicate AllBlank(s: string) {
    forall i :: 0 <= i < |s| ==> IsBlank(s[i])
  }

  /** A line made only of spaces and tabs becomes empty. */
  function Normalize(line: string): (r: string)
    ensures r == "" || !AllBlank(r)
  {
    if AllBlank(line) then "" else line
  }

  /** The run of spaces and tabs that opens `s`. */
  function LeadingBlanks(s: string): (r: string)
    ensures StartsWith(s, r) && AllBlank(r)
    ensures |r| < |s| ==> !IsBlank(s[|r|])
  {
    if |s| > 0 && IsBlank(s[0]) then [s[0]] + LeadingBlanks(s[1..]) else ""
  }

  /** The indentation of every line that holds something besides blanks, in order. */
  function Indents(lines: seq<string>): seq<string> {
    if |lines| == 0 then []
    else (if AllBlank(lines[0]) then [] else [LeadingBlanks(lines[0])]) + Indents(lines[1..])
  }

  /** The longest common prefix of two strings. */
  function CommonPrefix(a: string, b: string): (r: string)
    ensures StartsWith(a, r) && StartsWith(b, r)
    ensures |r| < |a| && |r| < |b| ==> a[|r|] != b[|r|]
  {
    if |a| == 0 || |b| == 0 || a[0] != b[0] then ""
    else [a[0]] + CommonPrefix(a[1..], b[1..])
  }

  /** One step of dedent's margin search, with its three cases. */
  function MarginStep(margin: string, indent: string): string {
    if StartsWith(indent, margin) then margin
    else if StartsWith(margin, indent) then indent
    else CommonPrefix(margin, indent)
  }

  function FoldMargin(margin: string, indents: seq<string>): string {
    if |indents| == 0 then margin
    else FoldMargin(MarginStep(margin, indents[0]), indents[1..])
  }

  /** The margin dedent removes: none when there is no indented line. */
  function Margin(indents: seq<string>): string {
    if |indents| == 0 then "" else FoldMargin(indents[0], indents[1..])
  }

  function StripMargin(line: string, margin: string): string {
    if margin != "" && StartsWith(line, margin) then line[|margin|..] else line
  }

  /** `textwrap.dedent(text)`: blank-only lines are emptied, then the margin
      common to all other lines is removed from the start of every line. */
  function Dedent(text: string): string {
    var lines := NormalizeLines(Split(text));
    Join(StripLines(lines, Margin(Indents(lines))))
  }

  function NormalizeLines(lines: seq<string>): seq<string> {
    seq(|lines|, i requires 0 <= i < |lines| => Normalize(lines[i]))
  }

  lemma NormalizeLinesAppend(a: seq<string>, b: seq<string>)
    ensures NormalizeLines(a + b) == NormalizeLines(a) + NormalizeLines(b)
  {
  }

  /** A line that is empty or opens with a non-blank is left as it is. */
  lemma NormalizeKeeps(line: string)
    requires |line| > 0 ==> !IsBlank(line[0])
    ensures Normalize(line) == line
  {
  }

  function StripLines(lines: seq<string>, margin: string): seq<string> {
    seq(|lines|, i requires 0 <= i < |lines| => StripMargin(lines[i], margin))
  }

  /** A template as it sits in source code: every line opens with `indent`.
      (A blank line of the template is modelled as the indentation alone;
      dedent empties it either way.) */
  function IndentLines(indent: string, contents: seq<string>): seq<string> {
    seq(|contents|, i requires 0 <= i < |contents| => indent + contents[i])
  }

  /** A template whose lines are empty or open with the blank `indent`. */
  predicate IndentedBy(lines: seq<string>, indent: string) {
    forall i :: 0 <= i < |lines| ==> AllBlank(lines[i]) || StartsWith(lines[i], indent)
  }

  lemma {:induction false} LeadingBlanksAfter(indent: string, s: string)
    requires AllBlank(indent)
    ensures LeadingBlanks(indent + s) == indent + LeadingBlanks(s)
  {
    if |indent| > 0 {
      assert (indent + s)[0] == indent[0] && IsBlank(indent[0]);
      assert (indent + s)[1..] == indent[1..] + s;
      LeadingBlanksAfter(indent[1..], s);
      assert LeadingBlanks(indent + s) == [indent[0]] + (indent[1..] + LeadingBlanks(s));
      assert [indent[0]] + indent[1..] == indent;
    } else {
      assert indent + s == s;
    }
  }

  lemma {:induction false} CommonPrefixKeeps(a: string, b: string, p: string)
    requires StartsWith(a, p) && StartsWith(b, p)
    ensures StartsWith(CommonPrefix(a, b), p)
  {
    if |p| > 0 {
      assert a[0] == p[0] && b[0] == p[0];
      assert a[1..][..|p| - 1] == p[1..] && b[1..][..|p| - 1] == p[1..];
      CommonPrefixKeeps(a[1..], b[1..], p[1..]);
    }
  }

  /** Every indent starts with `p`, and `p` itself is one of them: the margin is `p`. */
  lemma {:induction false} FoldMarginIs(margin: string, indents: seq<string>, p: string)
    requires StartsWith(margin, p)
    requires forall j :: 0 <= j < |indents| ==> StartsWith(indents[j], p)
    requires margin == p || p in indents
    ensures FoldMargin(margin, indents) == p
  {
    if |indents| > 0 {
      var next := MarginStep(margin, indents[0]);
      if !StartsWith(indents[0], margin) && !StartsWith(margin, indents[0]) {
        CommonPrefixKeeps(margin, indents[0], p);
      }
      assert StartsWith(next, p);
      if indents[0] == p {
        assert next == p;
      } else if margin != p {
        assert p in indents[1..] by {
          var j :| 0 <= j < |indents| && indents[j] == p;
          assert indents[1..][j - 1] == p;
        }
      }
      FoldMarginIs(next, indents[1..], p);
    }
  }

  lemma {:induction false} IndentsStartWith(lines: seq<string>, p: string)
    requires IndentedBy(lines, p) && AllBlank(p)
    ensures forall j :: 0 <= j < |Indents(lines)| ==> StartsWith(Indents(lines)[j], p)
  {
    if |lines| > 0 {
      IndentsStartWith(lines[1..], p);
      if !AllBlank(lines[0]) {
        var line := lines[0];
        LeadingBlanksAfter(p, line[|p|..]);
        assert line == p + line[|p|..];
      }
    }
  }

  lemma AllBlankAfter(indent: string, s: string)
    requires AllBlank(indent)
    ensures AllBlank(indent + s) <==> AllBlank(s)
  {
    if !AllBlank(s) {
      var k :| 0 <= k < |s| && !IsBlank(s[k]);
      assert (indent + s)[|indent| + k] == s[k];
    } else {
      forall k | 0 <= k < |indent + s| ensures IsBlank((indent + s)[k]) {
        if k >= |indent| {
          assert (indent + s)[k] == s[k - |indent|];
        }
      }
    }
  }

  /** dedent of one template line, given that the margin is the template's indentation. */
  lemma StripIndented(indent: string, content: string)
    requires |indent| > 0 && AllBlank(indent)
    ensures StripMargin(Normalize(indent + content), indent) == Normalize(content)
  {
    AllBlankAfter(indent, content);
    assert (indent + content)[..|indent|] == indent;
    assert (indent + content)[|indent|..] == content;
  }

  /** The margin of an indented template whose first line is flush with the indentation. */
  lemma IndentedMargin(indent: string, contents: seq<string>)
    requires |indent| > 0 && AllBlank(indent)
    requires |contents| > 0 && |contents[0]| > 0 && !IsBlank(contents[0][0])
    ensures Margin(Indents(NormalizeLines(IndentLines(indent, contents)))) == indent
  {
    var normal := NormalizeLines(IndentLines(indent, contents));
    assert IndentedBy(normal, indent) by {
      forall i | 0 <= i < |normal| ensures AllBlank(normal[i]) || StartsWith(normal[i], indent) {
        assert normal[i] == Normalize(indent + contents[i]);
        assert (indent + contents[i])[..|indent|] == indent;
      }
    }
    IndentsStartWith(normal, indent);
    var first := contents[0];
    AllBlankAfter(indent, first);
    assert !AllBlank(first);
    assert normal[0] == indent + first;
    LeadingBlanksAfter(indent, first);
    assert LeadingBlanks(first) == "";
    var indents := Indents(normal);
    assert indents[0] == indent;
    FoldMarginIs(indents[0], indents[1..], indent);
  }

  /** dedent of a template indented by `indent` whose first line is flush with
      it: every line loses exactly `indent`, and blank-only lines become empty. */
  lemma DedentIndented(indent: string, contents: seq<string>)
    requires |indent| > 0 && AllBlank(indent)
    requires |contents| > 0 && |contents[0]| > 0 && !IsBlank(contents[0][0])
    requires AllNoNewline(contents)
    ensures Dedent(Join(IndentLines(indent, contents))) == Join(NormalizeLines(contents))
  {
    var template := IndentLines(indent, contents);
    assert forall k :: 0 <= k < |indent| ==> indent[k] != '\n';
    SplitJoin(template);
    IndentedMargin(indent, contents);
    var normal := NormalizeLines(template);
    forall i | 0 <= i < |contents|
      ensures StripLines(normal, indent)[i] == NormalizeLines(contents)[i]
    {
      StripIndented(indent, contents[i]);
    }
    assert StripLines(normal, indent) == NormalizeLines(contents);
  }
}
