/** The entry point `calcGPA` without its rendering: fold the text, split it into lines, build the
    hierarchy, and total the categories into the figures shown on the page. */
module Calc {
  import opened Wrappers
  import opened Text
  import opened Normalizer
  import opened Grades
  import opened Lines
  import opened Aggregation
  import opened Hierarchy
  import opened Numbers
  import opened ParseProperties

  /** The figures a call produces: the categories, the global grade points, registered and passed
      credits, and the global GPA. */
  datatype Report = Report(
    categories: seq<Category>, gradePoints: real, registered: real, passed: real, gpa: real)

  /** The lines of a transcript, after full-width folding of the whole text. */
  function TranscriptLines(raw: string): (lines: seq<string>)
    ensures |lines| >= 1
    ensures forall i :: 0 <= i < |lines| ==> '\n' !in lines[i]
    ensures Join(lines, '\n') == Normalize(raw)
  {
    SplitOn(Normalize(raw), '\n')
  }

  /** The transcript's total grade points: the per-category totals summed. */
  function GlobalGradePoints(cats: seq<Category>): (t: real)
    ensures t >= 0.0
    ensures t == 0.0 <==> forall k :: 0 <= k < |cats| ==> TotalGradePoint(cats[k].results) == 0.0
  {
    if cats == [] then 0.0
    else
      var rest := GlobalGradePoints(cats[1..]);
      assert rest == 0.0 <==> forall k :: 1 <= k < |cats| ==> TotalGradePoint(cats[k].results) == 0.0 by {
        assert forall k :: 1 <= k < |cats| ==> cats[k] == cats[1..][k - 1];
      }
      TotalGradePoint(cats[0].results) + rest
  }

  /** The transcript's registered credits: the per-category figures summed. */
  function GlobalRegistered(cats: seq<Category>): (t: real)
    ensures t >= 0.0
    ensures t == 0.0 <==> forall k :: 0 <= k < |cats| ==> RegisteredCredits(cats[k].results) == 0.0
  {
    if cats == [] then 0.0
    else
      var rest := GlobalRegistered(cats[1..]);
      assert rest == 0.0 <==> forall k :: 1 <= k < |cats| ==> RegisteredCredits(cats[k].results) == 0.0 by {
        assert forall k :: 1 <= k < |cats| ==> cats[k] == cats[1..][k - 1];
      }
      RegisteredCredits(cats[0].results) + rest
  }

  /** The transcript's passed credits: the per-category figures summed. */
  function GlobalPassed(cats: seq<Category>): (t: real)
    ensures t >= 0.0
    ensures t == 0.0 <==> forall k :: 0 <= k < |cats| ==> CountPassedCredits(cats[k].results) == 0.0
  {
    if cats == [] then 0.0
    else
      var rest := GlobalPassed(cats[1..]);
      assert rest == 0.0 <==> forall k :: 1 <= k < |cats| ==> CountPassedCredits(cats[k].results) == 0.0 by {
        assert forall k :: 1 <= k < |cats| ==> cats[k] == cats[1..][k - 1];
      }
      CountPassedCredits(cats[0].results) + rest
  }

  /** Summing the per-category figures gives the figures of all category results taken together. */
  lemma {:induction false} GlobalTotalsOfAllResults(cats: seq<Category>)
    ensures GlobalGradePoints(cats) == TotalGradePoint(AllCategoryResults(cats))
    ensures GlobalRegistered(cats) == RegisteredCredits(AllCategoryResults(cats))
    ensures GlobalPassed(cats) == CountPassedCredits(AllCategoryResults(cats))
  {
    if cats == [] {
      assert ResultLists(cats) == [];
    } else {
      GlobalTotalsOfAllResults(cats[1..]);
      assert ResultLists(cats)[1..] == ResultLists(cats[1..]);
      assert AllCategoryResults(cats) == cats[0].results + AllCategoryResults(cats[1..]);
      AggregatesAdditive(cats[0].results, AllCategoryResults(cats[1..]));
    }
  }

  /** The global GPA: zero when nothing is registered, else the grade points per registered credit
      rounded to two decimals. */
  function GlobalGpa(cats: seq<Category>): (g: real)
    ensures WholeHundredths(g)
    ensures GlobalRegistered(cats) == 0.0 ==> g == 0.0
    ensures GlobalRegistered(cats) > 0.0 ==>
      g - 0.005 <= GlobalGradePoints(cats) / GlobalRegistered(cats) < g + 0.005
    ensures 0.0 <= g <= 4.0
  {
    var all := AllCategoryResults(cats);
    GlobalTotalsOfAllResults(cats);
    GradePointBounds(all);
    PassedWithinRegistered(all);
    var registered := GlobalRegistered(cats);
    assert WholeHundredths(0.0);
    if registered == 0.0 then 0.0 else RoundedRatio(GlobalGradePoints(cats), registered)
  }

  /** The report of a finished parse. */
  function Summarize(st: ParseState): (rep: Report)
    ensures rep.categories == st.categories
    ensures rep.registered == RegisteredCredits(AllCategoryResults(st.categories))
    ensures rep.passed == CountPassedCredits(AllCategoryResults(st.categories))
    ensures rep.gradePoints == TotalGradePoint(AllCategoryResults(st.categories))
    ensures 0.0 <= rep.passed <= rep.registered
    ensures rep.passed <= rep.gradePoints <= 4.0 * rep.registered
    ensures rep.registered == 0.0 ==> rep.gpa == 0.0
    ensures rep.registered > 0.0 ==> rep.gpa - 0.005 <= rep.gradePoints / rep.registered < rep.gpa + 0.005
    ensures WholeHundredths(rep.gpa)
    ensures 0.0 <= rep.gpa <= 4.0
  {
    var cats := st.categories;
    GlobalTotalsOfAllResults(cats);
    GradePointBounds(AllCategoryResults(cats));
    PassedWithinRegistered(AllCategoryResults(cats));
    Report(cats, GlobalGradePoints(cats), GlobalRegistered(cats), GlobalPassed(cats), GlobalGpa(cats))
  }

  /** `calcGPA` on one transcript. Each call starts from the empty state. */
  function CalcGpa(raw: string): (rep: Report)
    ensures Distinct(CategoryNames(rep.categories))
    ensures forall k :: 0 <= k < |rep.categories| ==> Distinct(SubNames(rep.categories[k].subcategories))
    ensures 0.0 <= rep.passed <= rep.registered
    ensures rep.registered == 0.0 ==> rep.gpa == 0.0
    ensures rep.registered > 0.0 ==> rep.gpa - 0.005 <= rep.gradePoints / rep.registered < rep.gpa + 0.005
    ensures WholeHundredths(rep.gpa)
    ensures 0.0 <= rep.gpa <= 4.0
  {
    Summarize(Parse(TranscriptLines(raw)))
  }

  /** The global figures are the same whether the results are taken from the categories or from the
      subcategories. */
  lemma CalcGpaSubcategoriesAgree(raw: string)
    ensures var rep := CalcGpa(raw);
      && rep.registered == RegisteredCredits(AllSubResults(rep.categories))
      && rep.passed == CountPassedCredits(AllSubResults(rep.categories))
      && rep.gradePoints == TotalGradePoint(AllSubResults(rep.categories))
  {
    var lines := TranscriptLines(raw);
    ParseBalanced(lines);
    var cats := Parse(lines).categories;
    AggregatesIgnoreOrder(AllCategoryResults(cats), AllSubResults(cats));
  }

  /** A transcript and its full-width-folded form give the same report. */
  lemma CalcGpaIgnoresFullWidth(raw: string)
    ensures CalcGpa(Normalize(raw)) == CalcGpa(raw)
  {
    NormalizeIdempotent(raw);
  }

  /** Folding the whole text before splitting it reads the same lines as folding each line. */
  lemma TranscriptLinesFoldEachLine(raw: string)
    ensures TranscriptLines(raw) == NormalizeEach(SplitOn(raw, '\n'))
  {
    NormalizeCommutesWithSplit(raw);
  }

  /** The categories of a report are named by the category headers of that transcript alone, once
      each, in first-seen order; nothing from an earlier call survives. */
  lemma CalcGpaCategoriesFromOwnText(raw: string)
    ensures CategoryNames(CalcGpa(raw).categories) == Dedup(CategoryHeaders(TranscriptLines(raw)))
    ensures forall c :: c in CalcGpa(raw).categories ==> c.name in CategoryHeaders(TranscriptLines(raw))
  {
    ParseCategoryOrder(TranscriptLines(raw));
    ParseNamesOnlyOwnHeaders(TranscriptLines(raw));
  }

  /** The course line of the worked example below. */
  const LinearAlgebra: CourseFields := CourseFields("Linear Algebra I", "Smith", "2", A, "2023", "Spring")

  const ExampleResult: Result := Result("Linear Algebra I", "Smith", 2.0, A, 2023, "Spring")

  const ExampleLines: seq<string> := ["Math", Repeat(' ', 5) + "Algebra", FormatCourse(LinearAlgebra)]

  lemma ExampleWritable()
    ensures Writable(LinearAlgebra)
  {
    assert DigitRun("2") == 1;
    assert AllDigits("2023");
    assert '\t' !in "Linear Algebra I";
  }

  lemma ExampleNumbers()
    ensures CreditNumber("2") == Some(2.0)
    ensures TermNumber("2023") == 2023
  {
    assert DigitsValue("2") == 2;
    assert DigitsValue("20") == 20 by { assert "20"[..1] == "2"; }
    assert DigitsValue("202") == 202 by { assert "202"[..2] == "20"; }
    assert DigitsValue("2023") == 2023 by { assert "2023"[..3] == "202"; }
  }

  lemma ExampleCourseAccepted()
    ensures Classify(FormatCourse(LinearAlgebra)) == CourseLine(LinearAlgebra)
    ensures ToResult(LinearAlgebra) == Some(ExampleResult)
  {
    ExampleWritable();
    CourseRoundTrip(LinearAlgebra);
    ExampleNumbers();
  }

  const ExampleAfterHeaders: ParseState :=
    ParseState([Category("Math", [SubCategory("Algebra", [])], [])], Some(0), Some(SubRef(0, 0)))

  const ExampleAfterMath: ParseState := ParseState([Category("Math", [], [])], Some(0), None)

  lemma ExampleEnterMath()
    ensures Step(Init, "Math") == ExampleAfterMath
  {
    HeaderRoundTrip("Math");
    assert Step(Init, "Math") == EnterCategory(Init, "Math");
    assert CategoryNames([]) == [];
    assert IndexOfName([], "Math") == 0;
  }

  lemma ExampleAlgebraIsSubcategory()
    ensures Step(ExampleAfterMath, Repeat(' ', 5) + "Algebra") == EnterSubCategory(ExampleAfterMath, "Algebra")
  {
    HeaderRoundTrip("Algebra");
  }

  lemma ExampleEnterAlgebra()
    ensures Step(ExampleAfterMath, Repeat(' ', 5) + "Algebra") == ExampleAfterHeaders
  {
    ExampleAlgebraIsSubcategory();
    assert SubNames([]) == [];
    assert IndexOfName([], "Algebra") == 0;
    assert SubNames([SubCategory("Algebra", [])]) == ["Algebra"];
  }

  lemma ExampleParseMath()
    ensures Parse(["Math"]) == ExampleAfterMath
  {
    ParseSnoc([], "Math");
    assert [] + ["Math"] == ["Math"];
    ExampleEnterMath();
  }

  lemma ExampleParseHeaders()
    ensures Parse(["Math", Repeat(' ', 5) + "Algebra"]) == ExampleAfterHeaders
  {
    ParseSnoc(["Math"], Repeat(' ', 5) + "Algebra");
    assert ["Math"] + [Repeat(' ', 5) + "Algebra"] == ["Math", Repeat(' ', 5) + "Algebra"];
    ExampleParseMath();
    ExampleEnterAlgebra();
  }

  lemma ExampleAttach()
    ensures AttachResult(ExampleAfterHeaders, ExampleResult).categories
         == [Category("Math", [SubCategory("Algebra", [ExampleResult])], [ExampleResult])]
  {
    var r := AttachResult(ExampleAfterHeaders, ExampleResult);
    assert |r.categories| == 1;
    var c := r.categories[0];
    assert CategoryNames(r.categories)[0] == "Math";
    assert c.results == [] + [ExampleResult];
    assert SubNames(c.subcategories) == ["Algebra"];
    assert |c.subcategories| == 1;
    assert c.subcategories[0].results == [] + [ExampleResult];
    assert c.subcategories[0] == SubCategory("Algebra", [ExampleResult]);
    assert c.subcategories == [SubCategory("Algebra", [ExampleResult])];
  }

  lemma ExampleCourseStep(line: string)
    requires Classify(line) == CourseLine(LinearAlgebra)
    ensures Step(ExampleAfterHeaders, line).categories
         == [Category("Math", [SubCategory("Algebra", [ExampleResult])], [ExampleResult])]
  {
    assert Step(ExampleAfterHeaders, line) == AddCourse(ExampleAfterHeaders, LinearAlgebra);
    ExampleCourseAdded();
  }

  lemma ExampleCourseAdded()
    ensures AddCourse(ExampleAfterHeaders, LinearAlgebra).categories
         == [Category("Math", [SubCategory("Algebra", [ExampleResult])], [ExampleResult])]
  {
    ExampleCourseAccepted();
    ExampleAttach();
    assert AddCourse(ExampleAfterHeaders, LinearAlgebra) == AttachResult(ExampleAfterHeaders, ExampleResult);
  }

  lemma ExampleParse()
    ensures Parse(ExampleLines).categories
         == [Category("Math", [SubCategory("Algebra", [ExampleResult])], [ExampleResult])]
  {
    var headers := ["Math", Repeat(' ', 5) + "Algebra"];
    ParseSnoc(headers, FormatCourse(LinearAlgebra));
    assert headers + [FormatCourse(LinearAlgebra)] == ExampleLines;
    ExampleParseHeaders();
    ExampleCourseAccepted();
    ExampleCourseStep(FormatCourse(LinearAlgebra));
  }

  lemma ExampleAggregates()
    ensures RegisteredCredits([ExampleResult]) == 2.0
    ensures CountPassedCredits([ExampleResult]) == 2.0
    ensures TotalGradePoint([ExampleResult]) == 6.0
    ensures CountGrade([ExampleResult], A) == 2.0
  {
    SingleResult(ExampleResult);
  }

  lemma ExampleRounding()
    ensures RoundedRatio(6.0, 2.0) == 3.0
  {
    assert 100.0 * 6.0 / 2.0 == 300.0;
    assert Round(300.0) == 300;
  }

  /** One category, one subcategory and one course graded A for 2 credits: the result is held by
      both nodes, 2 credits count for grade A and as passed, and the GPA is 3. */
  lemma SingleCourseExample()
    ensures var rep := Summarize(Parse(ExampleLines));
      && |rep.categories| == 1 && rep.categories[0].name == "Math"
      && |rep.categories[0].subcategories| == 1 && rep.categories[0].subcategories[0].name == "Algebra"
      && rep.categories[0].results == [ExampleResult]
      && rep.categories[0].subcategories[0].results == [ExampleResult]
      && CountGrade(rep.categories[0].results, A) == 2.0
      && rep.registered == 2.0 && rep.passed == 2.0 && rep.gpa == 3.0
  {
    ExampleParse();
    var cats := Parse(ExampleLines).categories;
    assert ResultLists(cats) == [[ExampleResult]];
    assert [[ExampleResult]][1..] == [];
    assert Flatten([[ExampleResult]]) == [ExampleResult] + Flatten<Result>([]);
    assert AllCategoryResults(cats) == [ExampleResult];
    ExampleAggregates();
    GlobalTotalsOfAllResults(cats);
    ExampleRounding();
  }
}
