/** The grade scale: the six grade symbols and their grade-point values (`Grade`, `GradePoint`). */
module Grades {
  import opened Wrappers

  /** Grade symbols, lowest first. */
  datatype Grade = E | D | C | B | A | AA

  /** Grade-point value of a grade. E and D are the two zero-point (failing) grades. */
  function Point(g: Grade): (p: nat)
    ensures p <= 4
    ensures p == 0 <==> (g == E || g == D)
    ensures g == AA <==> p == 4
  {
    match g
    case E => 0
    case D => 0
    case C => 1
    case B => 2
    case A => 3
    case AA => 4
  }

  /** The text of a grade symbol as it appears in a transcript. */
  function Symbol(g: Grade): string
  {
    match g
    case E => "E"
    case D => "D"
    case C => "C"
    case B => "B"
    case A => "A"
    case AA => "AA"
  }

  /** Reads a grade symbol; any other text is not a grade. */
  function GradeOf(s: string): (r: Option<Grade>)
    ensures r.Some? ==> Symbol(r.value) == s
    ensures r.None? ==> forall g: Grade :: Symbol(g) != s
  {
    if s == "E" then Some(E)
    else if s == "D" then Some(D)
    else if s == "C" then Some(C)
    else if s == "B" then Some(B)
    else if s == "A" then Some(A)
    else if s == "AA" then Some(AA)
    else None
  }

  /** Reading the symbol of a grade gives that grade back. */
  lemma GradeSymbolRoundTrip(g: Grade)
    ensures GradeOf(Symbol(g)) == Some(g)
  {
  }
}
