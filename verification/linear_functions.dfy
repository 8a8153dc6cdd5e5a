/** The LaTeX label of a cubic polynomial `a3 x^3 + a2 x^2 + a1 x + a0`, as the
    linear-functions notebook shows it: zero terms left out, the highest power
    first, and `0` when every coefficient is zero. */
module PolynomialLabel {
  import opened Optional
  import Decimal
  import opened Lines

  /** One shown term: a nonzero coefficient and the power of `x` it multiplies. */
  datatype Term = Term(coefficient: int, power: nat)

  /** What follows the coefficient: `x^3`, `x^2`, `x`, or nothing for the constant. */
  function Suffix(power: nat): string {
    if power == 3 then "x^3" else if power == 2 then "x^2" else if power == 1 then "x" else ""
  }

  /** A term as its own text: `str(coefficient)` and the suffix. */
  function TermText(t: Term): string {
    Decimal.IntToString(t.coefficient) + Suffix(t.power)
  }

  /** A later term: `" + "` before a positive coefficient, `" "` before a
      negative one, whose minus sign its text already carries. */
  function Piece(t: Term): string {
    Separator(t.coefficient) + TermText(t)
  }

  function Separator(coefficient: int): string {
    if coefficient > 0 then " + " else " "
  }

  function Keep(t: Term): seq<Term> {
    if t.coefficient != 0 then [t] else []
  }

  /** The coefficient the terms give to `x^power` (zero when no term has it). */
  function CoefficientOf(terms: seq<Term>, power: nat): int {
    if |terms| == 0 then 0
    else if terms[0].power == power then terms[0].coefficient
    else CoefficientOf(terms[1..], power)
  }

  /** The coefficient of `x^power` in `a3 x^3 + a2 x^2 + a1 x + a0`. */
  function Coefficient(a3: int, a2: int, a1: int, a0: int, power: nat): int {
    if power == 3 then a3 else if power == 2 then a2 else if power == 1 then a1
    else if power == 0 then a0 else 0
  }

  predicate WellFormed(terms: seq<Term>) {
    (forall i :: 0 <= i < |terms| ==> terms[i].coefficient != 0 && terms[i].power <= 3) &&
    (forall i, j :: 0 <= i < j < |terms| ==> terms[i].power > terms[j].power)
  }

  /** The terms shown, highest power first, leaving out zero coefficients. */
  function Terms(a3: int, a2: int, a1: int, a0: int): seq<Term> {
    Keep(Term(a3, 3)) + Keep(Term(a2, 2)) + Keep(Term(a1, 1)) + Keep(Term(a0, 0))
  }

  /** The shown terms are every nonzero coefficient, in descending power, each
      exactly once with its own coefficient. */
  lemma TermsShape(a3: int, a2: int, a1: int, a0: int)
    ensures WellFormed(Terms(a3, a2, a1, a0))
    ensures forall p: nat :: CoefficientOf(Terms(a3, a2, a1, a0), p) == Coefficient(a3, a2, a1, a0, p)
  {
    TermsWellFormed(a3, a2, a1, a0);
    forall p: nat ensures CoefficientOf(Terms(a3, a2, a1, a0), p) == Coefficient(a3, a2, a1, a0, p) {
      TermsCoefficient(a3, a2, a1, a0, p);
    }
  }

  lemma TermsWellFormed(a3: int, a2: int, a1: int, a0: int)
    ensures WellFormed(Terms(a3, a2, a1, a0))
  {
    var high := Keep(Term(a3, 3)) + Keep(Term(a2, 2));
    var low := Keep(Term(a1, 1)) + Keep(Term(a0, 0));
    assert Terms(a3, a2, a1, a0) == high + low;
    assert WellFormed(high) && WellFormed(low);
    assert forall t | t in high :: t.power >= 2;
    assert forall t | t in low :: t.power <= 1;
  }

  lemma TermsCoefficient(a3: int, a2: int, a1: int, a0: int, p: nat)
    ensures CoefficientOf(Terms(a3, a2, a1, a0), p) == Coefficient(a3, a2, a1, a0, p)
  {
    var low := Keep(Term(a1, 1)) + Keep(Term(a0, 0));
    assert Terms(a3, a2, a1, a0) == Keep(Term(a3, 3)) + (Keep(Term(a2, 2)) + low);
    CoefficientOfKeep(Term(a3, 3), Keep(Term(a2, 2)) + low, p);
    CoefficientOfKeep(Term(a2, 2), low, p);
    CoefficientOfKeep(Term(a1, 1), Keep(Term(a0, 0)), p);
    CoefficientOfKeep(Term(a0, 0), [], p);
    assert Keep(Term(a0, 0)) + [] == Keep(Term(a0, 0));
  }

  lemma CoefficientOfKeep(t: Term, rest: seq<Term>, p: nat)
    ensures CoefficientOf(Keep(t) + rest, p)
         == if t.coefficient != 0 && t.power == p then t.coefficient else CoefficientOf(rest, p)
  {
    if t.coefficient != 0 {
      assert (Keep(t) + rest)[1..] == rest;
    } else {
      assert Keep(t) + rest == rest;
    }
  }

  /** The later terms, each with its separator. */
  function Rest(terms: seq<Term>): string {
    if |terms| == 0 then "" else Piece(terms[0]) + Rest(terms[1..])
  }

  /** The shown terms written out: the first without a separator. */
  function Joined(terms: seq<Term>): string {
    if |terms| == 0 then "" else TermText(terms[0]) + Rest(terms[1..])
  }

  /** The label `get_function_latex` returns. */
  function FunctionLatex(a3: int, a2: int, a1: int, a0: int): string {
    var joined := Joined(Terms(a3, a2, a1, a0));
    if joined == "" then "0" else joined
  }

  /** Writing one more term adds its text, after a separator unless it is the first. */
  lemma JoinedAppend(terms: seq<Term>, t: Term)
    ensures Joined(terms + [t]) == if terms == [] then TermText(t) else Joined(terms) + Piece(t)
  {
    if terms != [] {
      RestAppend(terms[1..], t);
      assert (terms + [t])[1..] == terms[1..] + [t];
    } else {
      assert terms + [t] == [t];
      assert [t][1..] == [];
    }
  }

  lemma {:induction false} RestAppend(terms: seq<Term>, t: Term)
    ensures Rest(terms + [t]) == Rest(terms) + Piece(t)
  {
    if |terms| == 0 {
      assert terms + [t] == [t];
      assert [t][1..] == [];
    } else {
      assert (terms + [t])[1..] == terms[1..] + [t];
      RestAppend(terms[1..], t);
    }
  }

  lemma JoinedEmpty(terms: seq<Term>)
    ensures Joined(terms) == "" <==> terms == []
  {
    if terms != [] {
      assert |TermText(terms[0])| > 0;
    }
  }

  /** `get_function_latex`, as the notebook runs it: four guarded blocks that
      each write or extend the label, and `0` when nothing was written. */
  method GetFunctionLatex(a3: int, a2: int, a1: int, a0: int) returns (r: string)
    ensures r == FunctionLatex(a3, a2, a1, a0)
  {
    var result := "";
    if a3 != 0 {
      result := Decimal.IntToString(a3) + "x^3";
      assert result == Joined([Term(a3, 3)]);
    }
    ghost var terms := Keep(Term(a3, 3));
    if a2 != 0 {
      result := AddTerm(result, terms, Term(a2, 2));
    } else {
      assert terms + Keep(Term(a2, 2)) == terms;
    }
    terms := terms + Keep(Term(a2, 2));
    if a1 != 0 {
      result := AddTerm(result, terms, Term(a1, 1));
    } else {
      assert terms + Keep(Term(a1, 1)) == terms;
    }
    terms := terms + Keep(Term(a1, 1));
    if a0 != 0 {
      result := AddTerm(result, terms, Term(a0, 0));
    } else {
      assert terms + Keep(Term(a0, 0)) == terms;
    }
    terms := terms + Keep(Term(a0, 0));
    assert terms == Terms(a3, a2, a1, a0);
    if result == "" {
      return "0";
    }
    return result;
  }

  /** The block of `get_function_latex` for `x^2`, `x` or the constant: the term
      alone when nothing is written yet, otherwise the label so far, the
      separator its sign calls for, and the term. */
  method AddTerm(result: string, ghost terms: seq<Term>, t: Term) returns (r: string)
    requires result == Joined(terms)
    ensures r == Joined(terms + [t])
  {
    JoinedAppend(terms, t);
    JoinedEmpty(terms);
    var text := Decimal.IntToString(t.coefficient) + Suffix(t.power);
    if result == "" {
      r := text;
    } else {
      r := result + if t.coefficient > 0 then " + " + text else " " + text;
      assert r == result + Piece(t);
    }
  }

  // ---------------------------------------------------------------------
  // Properties of the label
  // ---------------------------------------------------------------------

  lemma {:induction false} RestLength(terms: seq<Term>)
    ensures |Rest(terms)| >= 2 * |terms|
  {
    if |terms| > 0 {
      Decimal.IntToStringShape(terms[0].coefficient);
      RestLength(terms[1..]);
    }
  }

  /** The label is never empty, and it is `0` exactly when every coefficient is zero. */
  lemma FunctionLatexZero(a3: int, a2: int, a1: int, a0: int)
    ensures |FunctionLatex(a3, a2, a1, a0)| > 0
    ensures FunctionLatex(a3, a2, a1, a0) == "0" <==> a3 == 0 && a2 == 0 && a1 == 0 && a0 == 0
  {
    var terms := Terms(a3, a2, a1, a0);
    TermsShape(a3, a2, a1, a0);
    JoinedEmpty(terms);
    if terms != [] {
      var t := terms[0];
      RestLength(terms[1..]);
      Decimal.IntToStringShape(t.coefficient);
      assert Joined(terms) != "0";
    } else {
      assert CoefficientOf(terms, 3) == 0 && CoefficientOf(terms, 2) == 0;
      assert CoefficientOf(terms, 1) == 0 && CoefficientOf(terms, 0) == 0;
    }
  }

  // ---------------------------------------------------------------------
  // Reading a label back
  // ---------------------------------------------------------------------

  /** The suffix at the start of `s` and the power it names. */
  function ReadSuffix(s: string): (r: (nat, string))
    ensures |r.1| <= |s|
  {
    if StartsWith(s, "x^3") then (3, s[3..])
    else if StartsWith(s, "x^2") then (2, s[3..])
    else if StartsWith(s, "x") then (1, s[1..])
    else (0, s)
  }

  /** One term at the start of `s`, and the text after it. */
  function ReadTerm(s: string): (r: Option<(Term, string)>)
    ensures r.Some? ==> |r.value.1| < |s|
  {
    match Decimal.ReadInt(s)
    case None => None
    case Some((c, rest)) =>
      var (power, after) := ReadSuffix(rest);
      Some((Term(c, power), after))
  }

  /** The text after the separator at the start of `s`: `" + "` or `" "`. */
  function SkipSeparator(s: string): (r: Option<string>)
    ensures r.Some? ==> |r.value| < |s|
  {
    if StartsWith(s, " + ") then Some(s[3..])
    else if StartsWith(s, " ") then Some(s[1..])
    else None
  }

  /** The later terms, each after its separator, up to the end of `s`. */
  function ReadRest(s: string): Option<seq<Term>>
    decreases |s|
  {
    if |s| == 0 then Some([])
    else
      match SkipSeparator(s)
      case None => None
      case Some(body) =>
        match ReadTerm(body)
        case None => None
        case Some((t, after)) =>
          match ReadRest(after)
          case None => None
          case Some(ts) => Some([t] + ts)
  }

  /** The terms a label shows; `0` shows none. */
  function ReadLabel(s: string): Option<seq<Term>> {
    if s == "0" then Some([])
    else
      match ReadTerm(s)
      case None => None
      case Some((t, after)) =>
        match ReadRest(after)
        case None => None
        case Some(ts) => Some([t] + ts)
  }

  /** Text that can follow a term: nothing, or a separator. */
  predicate FollowsTerm(s: string) {
    |s| == 0 || s[0] == ' '
  }

  lemma ReadTermOf(t: Term, after: string)
    requires t.coefficient != 0 && t.power <= 3
    requires FollowsTerm(after)
    ensures ReadTerm(TermText(t) + after) == Some((t, after))
  {
    var suffix := Suffix(t.power);
    Decimal.IntToStringShape(t.coefficient);
    assert TermText(t) + after == Decimal.IntToString(t.coefficient) + (suffix + after);
    assert suffix + after != [] ==> !Decimal.IsDigit((suffix + after)[0]);
    Decimal.ReadIntOf(t.coefficient, suffix + after);
    var rest := suffix + after;
    if t.power == 3 {
      assert rest[..3] == "x^3" && rest[3..] == after;
    } else if t.power == 2 {
      assert rest[..3] == "x^2" && rest[3..] == after;
    } else if t.power == 1 {
      assert !StartsWith(rest, "x^3") by { assert |rest| < 2 || rest[1] == ' '; }
      assert !StartsWith(rest, "x^2") by { assert |rest| < 2 || rest[1] == ' '; }
      assert rest[..1] == "x" && rest[1..] == after;
    } else {
      assert rest == after;
    }
  }

  /** A separator is skipped whole, provided a single blank is not followed by `+`. */
  lemma SkipSeparatorOf(separator: string, body: string)
    requires separator == " + " || (separator == " " && |body| > 0 && body[0] != '+')
    ensures SkipSeparator(separator + body) == Some(body)
  {
    var s := separator + body;
    assert s[|separator|..] == body;
    if separator == " " {
      assert s[1] == body[0];
    }
  }

  /** The separator of a later term is skipped whole: a negative term's minus
      sign is not mistaken for part of `" + "`. */
  lemma SkipPiece(t: Term, after: string)
    ensures SkipSeparator(Piece(t) + after) == Some(TermText(t) + after)
  {
    var body := TermText(t) + after;
    Decimal.IntToStringShape(t.coefficient);
    assert body[0] == Decimal.IntToString(t.coefficient)[0];
    assert Piece(t) + after == Separator(t.coefficient) + body;
    SkipSeparatorOf(Separator(t.coefficient), body);
  }

  lemma {:induction false} ReadRestOf(terms: seq<Term>)
    requires WellFormed(terms)
    ensures ReadRest(Rest(terms)) == Some(terms)
    ensures FollowsTerm(Rest(terms))
  {
    if |terms| > 0 {
      var t := terms[0];
      var rest := terms[1..];
      assert WellFormed(rest);
      ReadRestOf(rest);
      SkipPiece(t, Rest(rest));
      ReadTermOf(t, Rest(rest));
      assert [t] + rest == terms;
    }
  }

  /** A written-out term is never the bare `0` of an empty label. */
  lemma JoinedNotZero(terms: seq<Term>)
    requires terms != [] && terms[0].coefficient != 0
    ensures Joined(terms) != "0"
  {
    var text := Decimal.IntToString(terms[0].coefficient);
    Decimal.IntToStringShape(terms[0].coefficient);
    assert Joined(terms) == text + (Suffix(terms[0].power) + Rest(terms[1..]));
    if |Joined(terms)| == 1 {
      assert Joined(terms)[0] == text[0];
    }
  }

  /** Any nonempty well-formed run of terms, written out, reads back as itself. */
  lemma ReadLabelOf(terms: seq<Term>)
    requires WellFormed(terms) && terms != []
    ensures ReadLabel(Joined(terms)) == Some(terms)
  {
    var rest := terms[1..];
    assert WellFormed(rest);
    ReadRestOf(rest);
    ReadTermOf(terms[0], Rest(rest));
    JoinedNotZero(terms);
    assert [terms[0]] + rest == terms;
  }

  /** Reading the label back gives the shown terms, with their coefficients. */
  lemma ReadFunctionLatex(a3: int, a2: int, a1: int, a0: int)
    ensures ReadLabel(FunctionLatex(a3, a2, a1, a0)) == Some(Terms(a3, a2, a1, a0))
  {
    var terms := Terms(a3, a2, a1, a0);
    TermsShape(a3, a2, a1, a0);
    JoinedEmpty(terms);
    if terms != [] {
      ReadLabelOf(terms);
    }
  }

  /** Different coefficients give different labels. */
  lemma FunctionLatexInjective(a3: int, a2: int, a1: int, a0: int,
                               b3: int, b2: int, b1: int, b0: int)
    requires FunctionLatex(a3, a2, a1, a0) == FunctionLatex(b3, b2, b1, b0)
    ensures a3 == b3 && a2 == b2 && a1 == b1 && a0 == b0
  {
    ReadFunctionLatex(a3, a2, a1, a0);
    ReadFunctionLatex(b3, b2, b1, b0);
    TermsShape(a3, a2, a1, a0);
    TermsShape(b3, b2, b1, b0);
    var terms := Terms(a3, a2, a1, a0);
    assert terms == Terms(b3, b2, b1, b0);
    assert CoefficientOf(terms, 3) == a3 == b3;
    assert CoefficientOf(terms, 2) == a2 == b2;
    assert CoefficientOf(terms, 1) == a1 == b1;
    assert CoefficientOf(terms, 0) == a0 == b0;
  }
}
