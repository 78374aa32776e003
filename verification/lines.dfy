/** Line classification: each line of the transcript is a category header, a subcategory header,
    a course line, or noise, tried in that order. */
module Lines {
  import opened Wrappers
  import opened Grades
  import opened Text
  import opened Numbers

  /** The characters `\s` matches in a JavaScript regular expression. */
  predicate IsJsSpace(c: char)
  {
    || c == '\t' || c == '\n' || c == '\U{000B}' || c == '\U{000C}' || c == '\r' || c == ' '
    || c == '\U{00A0}' || c == '\U{1680}' || ('\U{2000}' <= c <= '\U{200A}')
    || c == '\U{2028}' || c == '\U{2029}' || c == '\U{202F}' || c == '\U{205F}'
    || c == '\U{3000}' || c == '\U{FEFF}'
  }

  /** A single run of non-whitespace characters: `\S+` anchored at both ends. */
  predicate IsWord(s: string)
  {
    |s| > 0 && forall i :: 0 <= i < |s| ==> !IsJsSpace(s[i])
  }

  /** The literal token of a course line meaning "elective". */
  const Elective: string := "\U{9078}\U{629E}"

  /** The groups a course line yields: the credits and term are still text. */
  datatype CourseFields = CourseFields(
    name: string, teacher: string, credits: string, grade: Grade, term: string, semester: string)

  /** `^(\S+)$`: the whole line is one run of non-whitespace characters. */
  function CategoryName(line: string): (r: Option<string>)
    ensures r.Some? <==> IsWord(line)
    ensures r.Some? ==> r.value == line
  {
    if IsWord(line) then Some(line) else None
  }

  /** `^ {5}(\S+)$`: exactly five spaces, then one run of non-whitespace characters. */
  function SubcategoryName(line: string): (r: Option<string>)
    ensures r.Some? ==> IsWord(r.value) && line == Repeat(' ', 5) + r.value
    ensures forall n :: IsWord(n) && line == Repeat(' ', 5) + n ==> r == Some(n)
  {
    if |line| > 5 && line[..5] == Repeat(' ', 5) && IsWord(line[5..]) then
      assert line == line[..5] + line[5..];
      Some(line[5..])
    else
      None
  }

  /** A course line: thirteen spaces, then seven tab-separated fields (runs of tabs count as one
      separator) — name, teacher, the elective token, credits, grade, four-digit term, semester.
      The name starts right after the spaces, so a tab there makes the line noise. */
  function MatchCourse(line: string): (r: Option<CourseFields>)
    ensures r.Some? ==> |line| > 13 && line[..13] == Repeat(' ', 13) && line[13] != '\t'
    ensures r.Some? ==> r.value.name != [] && r.value.teacher != [] && r.value.semester != []
    ensures r.Some? ==> IsCreditToken(r.value.credits)
    ensures r.Some? ==> |r.value.term| == 4 && AllDigits(r.value.term)
  {
    if |line| <= 13 || line[..13] != Repeat(' ', 13) || line[13] == '\t' then None
    else
      var fields := DropEmpty(SplitOn(line[13..], '\t'));
      if && |fields| == 7
         && fields[2] == Elective
         && IsCreditToken(fields[3])
         && GradeOf(fields[4]).Some?
         && |fields[5]| == 4 && AllDigits(fields[5])
      then
        assert fields[0] in fields && fields[1] in fields && fields[6] in fields;
        Some(CourseFields(fields[0], fields[1], fields[3], GradeOf(fields[4]).value, fields[5], fields[6]))
      else None
  }

  datatype LineKind =
    | CategoryHeader(name: string)
    | SubcategoryHeader(name: string)
    | CourseLine(fields: CourseFields)
    | Noise

  /** Tries the three recognisers in order; the first that matches decides. */
  function Classify(line: string): (k: LineKind)
    ensures k.CategoryHeader? <==> IsWord(line)
    ensures k.CategoryHeader? ==> k.name == line
    ensures k.SubcategoryHeader? ==> IsWord(k.name) && line == Repeat(' ', 5) + k.name
    ensures k.CourseLine? ==> MatchCourse(line) == Some(k.fields)
    ensures !IsWord(line) && SubcategoryName(line).Some? ==>
              k == SubcategoryHeader(SubcategoryName(line).value)
    ensures !IsWord(line) && SubcategoryName(line).None? && MatchCourse(line).Some? ==>
              k == CourseLine(MatchCourse(line).value)
    ensures k.Noise? <==>
              CategoryName(line).None? && SubcategoryName(line).None? && MatchCourse(line).None?
  {
    match CategoryName(line)
    case Some(n) => CategoryHeader(n)
    case None =>
      match SubcategoryName(line)
      case Some(n) => SubcategoryHeader(n)
      case None =>
        match MatchCourse(line)
        case Some(f) => CourseLine(f)
        case None => Noise
  }

  /** The three line shapes never overlap, so the order in which they are tried decides nothing. */
  lemma RecognisersExclusive(line: string)
    ensures !(CategoryName(line).Some? && SubcategoryName(line).Some?)
    ensures !(CategoryName(line).Some? && MatchCourse(line).Some?)
    ensures !(SubcategoryName(line).Some? && MatchCourse(line).Some?)
  {
    if SubcategoryName(line).Some? {
      var n := SubcategoryName(line).value;
      assert line[0] == ' ' && line[5] == n[0] && !IsJsSpace(n[0]);
    }
    if MatchCourse(line).Some? {
      assert line[0] == ' ' && line[5] == ' ';
    }
  }

  /** Thirteen spaces followed by a tab leave the name group nothing to start on, so a line that
      would otherwise be a course line is noise. */
  lemma LeadingTabIsNoise()
    ensures Classify(Repeat(' ', 13) + "\tN\tT\t" + Elective + "\t2\tA\t2023\tS") == Noise
  {
    var line := Repeat(' ', 13) + "\tN\tT\t" + Elective + "\t2\tA\t2023\tS";
    assert line[0] == ' ' && line[5] == ' ' && line[13] == '\t';
    assert line[..13] == Repeat(' ', 13);
  }

  /** Header lines read back the name they were written with. */
  lemma HeaderRoundTrip(n: string)
    requires IsWord(n)
    ensures Classify(n) == CategoryHeader(n)
    ensures Classify(Repeat(' ', 5) + n) == SubcategoryHeader(n)
  {
    assert (Repeat(' ', 5) + n)[0] == ' ';
  }

  /** The text of a course line with the given fields, tab-separated. */
  function FormatCourse(f: CourseFields): string
  {
    Repeat(' ', 13) + Join([f.name, f.teacher, Elective, f.credits, Symbol(f.grade), f.term, f.semester], '\t')
  }

  /** Fields that can be written out as one course line and read back. */
  predicate Writable(f: CourseFields)
  {
    && f.name != [] && f.teacher != [] && f.semester != []
    && '\t' !in f.name && '\t' !in f.teacher && '\t' !in f.semester
    && IsCreditToken(f.credits) && '\t' !in f.credits
    && |f.term| == 4 && AllDigits(f.term)
  }

  /** Reading a written course line gives its fields back. */
  lemma CourseRoundTrip(f: CourseFields)
    requires Writable(f)
    ensures Classify(FormatCourse(f)) == CourseLine(f)
  {
    var parts := [f.name, f.teacher, Elective, f.credits, Symbol(f.grade), f.term, f.semester];
    var line := FormatCourse(f);
    assert forall i :: 0 <= i < 7 ==> parts[i] != [];
    assert '\t' !in Elective;
    assert '\t' !in Symbol(f.grade);
    assert '\t' !in f.term by {
      assert forall i :: 0 <= i < 4 ==> IsDigit(f.term[i]);
    }
    assert forall i :: 0 <= i < 7 ==> '\t' !in parts[i];
    SplitOfJoin(parts, '\t');
    DropEmptyKeepsNonEmpty(parts);
    assert line[..13] == Repeat(' ', 13);
    assert line[13..] == Join(parts, '\t');
    GradeSymbolRoundTrip(f.grade);
    assert MatchCourse(line) == Some(f);
    assert line[0] == ' ';
    assert line[5] == ' ';
    assert SubcategoryName(line).None?;
  }
}
