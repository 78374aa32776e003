/** Properties of a whole parse: category names come out distinct and in first-seen order, every
    accepted result is counted once under the categories and once under the subcategories, and
    rejected lines leave the state alone. */
module ParseProperties {
  import opened Wrappers
  import opened Numbers
  import opened Lines
  import opened Aggregation
  import opened Hierarchy

  /** Parsing one more line is one more step. */
  lemma ParseSnoc(lines: seq<string>, line: string)
    ensures Parse(lines + [line]) == Step(Parse(lines), line)
  {
    assert (lines + [line])[..|lines|] == lines;
  }

  /** The names of the category headers of a document, in order, repeats included. */
  function CategoryHeaders(lines: seq<string>): seq<string>
  {
    if lines == [] then []
    else
      var last := Classify(lines[|lines| - 1]);
      CategoryHeaders(lines[..|lines| - 1]) + (if last.CategoryHeader? then [last.name] else [])
  }

  /** The first occurrence of each name, in order. */
  function Dedup(s: seq<string>): (d: seq<string>)
    ensures Distinct(d)
    ensures forall x :: x in d <==> x in s
  {
    if s == [] then []
    else
      var front := s[..|s| - 1];
      var last := s[|s| - 1];
      assert s == front + [last];
      var p := Dedup(front);
      if last in p then p else p + [last]
  }

  /** The categories of a parse are named by the category headers of the document, each name once,
      in the order in which the names first appear. */
  lemma {:induction false} ParseCategoryOrder(lines: seq<string>)
    ensures CategoryNames(Parse(lines).categories) == Dedup(CategoryHeaders(lines))
  {
    if lines != [] {
      var front := lines[..|lines| - 1];
      var last := lines[|lines| - 1];
      ParseCategoryOrder(front);
      var st := Parse(front);
      assert Parse(lines) == Step(st, last);
      var k := Classify(last);
      if k.CategoryHeader? {
        var h := CategoryHeaders(front) + [k.name];
        assert CategoryHeaders(lines) == h;
        assert h[..|h| - 1] == CategoryHeaders(front);
        assert Step(st, last) == EnterCategory(st, k.name);
      } else {
        assert CategoryHeaders(lines) == CategoryHeaders(front) + [];
        assert CategoryHeaders(lines) == CategoryHeaders(front);
        assert CategoryNames(Step(st, last).categories) == CategoryNames(st.categories);
      }
    }
  }

  /** A parse creates no category that its own document does not name, whatever was parsed before. */
  lemma ParseNamesOnlyOwnHeaders(lines: seq<string>)
    ensures forall c :: c in Parse(lines).categories ==> c.name in CategoryHeaders(lines)
  {
    ParseCategoryOrder(lines);
    var cats := Parse(lines).categories;
    forall c | c in cats
      ensures c.name in CategoryHeaders(lines)
    {
      var i :| 0 <= i < |cats| && cats[i] == c;
      assert CategoryNames(cats)[i] == c.name;
    }
  }

  function Flatten<T>(xss: seq<seq<T>>): seq<T>
  {
    if xss == [] then [] else xss[0] + Flatten(xss[1..])
  }

  lemma {:induction false} FlattenAppend<T>(xss: seq<seq<T>>, ys: seq<T>)
    ensures Flatten(xss + [ys]) == Flatten(xss) + ys
  {
    if xss == [] {
      assert [ys][1..] == [];
    } else {
      FlattenAppend(xss[1..], ys);
      assert (xss + [ys])[1..] == xss[1..] + [ys];
    }
  }

  lemma MultisetCancel<T>(a: multiset<T>, b: multiset<T>, x: multiset<T>)
    requires a + x == b + x
    ensures a == b
  {
    assert forall e :: a[e] == (a + x)[e] - x[e] && b[e] == (b + x)[e] - x[e];
  }

  /** Replacing one list changes the flattened contents by exactly that list's contents. */
  lemma {:induction false} FlattenUpdate<T>(xss: seq<seq<T>>, i: nat, ys: seq<T>)
    requires i < |xss|
    ensures multiset(Flatten(xss[i := ys])) + multiset(xss[i]) == multiset(Flatten(xss)) + multiset(ys)
  {
    if i == 0 {
      assert xss[i := ys][1..] == xss[1..];
    } else {
      var tail := xss[1..];
      FlattenUpdate(tail, i - 1, ys);
      assert xss[i := ys][1..] == tail[i - 1 := ys];
      assert xss[i := ys][0] == xss[0];
      assert tail[i - 1] == xss[i];
      calc {
        multiset(Flatten(xss[i := ys])) + multiset(xss[i]);
        multiset(xss[0]) + multiset(Flatten(tail[i - 1 := ys])) + multiset(tail[i - 1]);
        multiset(xss[0]) + (multiset(Flatten(tail[i - 1 := ys])) + multiset(tail[i - 1]));
        multiset(xss[0]) + (multiset(Flatten(tail)) + multiset(ys));
        multiset(xss[0]) + multiset(Flatten(tail)) + multiset(ys);
        multiset(Flatten(xss)) + multiset(ys);
      }
    }
  }

  /** Appending one element to list `i` adds exactly that element to the flattened contents. */
  lemma FlattenGrow<T>(xss: seq<seq<T>>, i: nat, x: T)
    requires i < |xss|
    ensures multiset(Flatten(xss[i := xss[i] + [x]])) == multiset(Flatten(xss)) + multiset{x}
  {
    FlattenUpdate(xss, i, xss[i] + [x]);
    MultisetCancel(multiset(Flatten(xss[i := xss[i] + [x]])), multiset(Flatten(xss)) + multiset{x},
                   multiset(xss[i]));
  }

  function ResultLists(cats: seq<Category>): (l: seq<seq<Result>>)
    ensures |l| == |cats|
    ensures forall k :: 0 <= k < |cats| ==> l[k] == cats[k].results
  {
    seq(|cats|, k requires 0 <= k < |cats| => cats[k].results)
  }

  function SubResultLists(subs: seq<SubCategory>): (l: seq<seq<Result>>)
    ensures |l| == |subs|
    ensures forall j :: 0 <= j < |subs| ==> l[j] == subs[j].results
  {
    seq(|subs|, j requires 0 <= j < |subs| => subs[j].results)
  }

  /** Every result attached to a subcategory of this category. */
  function SubResults(c: Category): seq<Result>
  {
    Flatten(SubResultLists(c.subcategories))
  }

  function SubResultsPerCategory(cats: seq<Category>): (l: seq<seq<Result>>)
    ensures |l| == |cats|
    ensures forall k :: 0 <= k < |cats| ==> l[k] == SubResults(cats[k])
  {
    seq(|cats|, k requires 0 <= k < |cats| => SubResults(cats[k]))
  }

  /** Every result held by some category. */
  function AllCategoryResults(cats: seq<Category>): seq<Result>
  {
    Flatten(ResultLists(cats))
  }

  /** Every result held by some subcategory. */
  function AllSubResults(cats: seq<Category>): seq<Result>
  {
    Flatten(SubResultsPerCategory(cats))
  }

  predicate Balanced(st: ParseState)
  {
    multiset(AllCategoryResults(st.categories)) == multiset(AllSubResults(st.categories))
  }

  lemma EnterCategoryBalanced(st: ParseState, n: string)
    requires Valid(st) && Balanced(st)
    ensures Balanced(EnterCategory(st, n))
  {
    var cats := st.categories;
    var r := EnterCategory(st, n).categories;
    if |r| != |cats| {
      assert r == cats + [Category(n, [], [])];
      assert ResultLists(r) == ResultLists(cats) + [[]];
      FlattenAppend(ResultLists(cats), []);
      assert SubResultLists([]) == [];
      assert SubResultsPerCategory(r) == SubResultsPerCategory(cats) + [[]];
      FlattenAppend(SubResultsPerCategory(cats), []);
    } else {
      assert r == cats;
    }
  }

  lemma EnterSubCategoryBalanced(st: ParseState, n: string)
    requires Valid(st) && Balanced(st)
    ensures Balanced(EnterSubCategory(st, n))
  {
    var cats := st.categories;
    var r := EnterSubCategory(st, n).categories;
    assert ResultLists(r) == ResultLists(cats);
    if st.currentCategory.Some? {
      var c := st.currentCategory.value;
      var before := cats[c].subcategories;
      var after := r[c].subcategories;
      if |after| != |before| {
        assert after == before + [SubCategory(n, [])];
        assert SubResultLists(after) == SubResultLists(before) + [[]];
        FlattenAppend(SubResultLists(before), []);
        assert SubResults(r[c]) == SubResults(cats[c]) + [];
      } else {
        assert after == before;
      }
      assert SubResults(r[c]) == SubResults(cats[c]);
      assert forall k :: 0 <= k < |cats| ==> SubResultsPerCategory(r)[k] == SubResultsPerCategory(cats)[k];
      assert SubResultsPerCategory(r) == SubResultsPerCategory(cats);
    }
  }

  lemma AttachResultCategorySide(st: ParseState, res: Result)
    requires Valid(st) && st.currentCategory.Some? && st.currentSubCategory.Some?
    ensures multiset(AllCategoryResults(AttachResult(st, res).categories))
         == multiset(AllCategoryResults(st.categories)) + multiset{res}
  {
    var cats := st.categories;
    var r := AttachResult(st, res).categories;
    var c := st.currentCategory.value;
    assert ResultLists(r) == ResultLists(cats)[c := ResultLists(cats)[c] + [res]];
    FlattenGrow(ResultLists(cats), c, res);
  }

  lemma AttachResultOwnSubResults(st: ParseState, res: Result)
    requires Valid(st) && st.currentCategory.Some? && st.currentSubCategory.Some?
    ensures var k := st.currentSubCategory.value.category;
      multiset(SubResults(AttachResult(st, res).categories[k]))
      == multiset(SubResults(st.categories[k])) + multiset{res}
  {
    var s := st.currentSubCategory.value;
    var before := st.categories[s.category].subcategories;
    var after := AttachResult(st, res).categories[s.category].subcategories;
    var lists := SubResultLists(before);
    assert SubResultLists(after) == lists[s.index := lists[s.index] + [res]];
    FlattenGrow(lists, s.index, res);
  }

  lemma AttachResultSubSide(st: ParseState, res: Result)
    requires Valid(st) && st.currentCategory.Some? && st.currentSubCategory.Some?
    ensures multiset(AllSubResults(AttachResult(st, res).categories))
         == multiset(AllSubResults(st.categories)) + multiset{res}
  {
    var cats := st.categories;
    var r := AttachResult(st, res).categories;
    var k := st.currentSubCategory.value.category;
    var lists := SubResultsPerCategory(cats);
    AttachResultOwnSubResults(st, res);
    forall i | 0 <= i < |cats| && i != k
      ensures SubResults(r[i]) == SubResults(cats[i])
    {
      assert SubResultLists(r[i].subcategories) == SubResultLists(cats[i].subcategories);
    }
    var grown := lists[k := SubResults(r[k])];
    assert SubResultsPerCategory(r) == grown;
    FlattenUpdate(lists, k, SubResults(r[k]));
    MultisetCancel(multiset(Flatten(grown)), multiset(Flatten(lists)) + multiset{res}, multiset(lists[k]));
  }

  lemma AttachResultBalanced(st: ParseState, res: Result)
    requires Valid(st) && Balanced(st) && st.currentCategory.Some? && st.currentSubCategory.Some?
    ensures Balanced(AttachResult(st, res))
    ensures multiset(AllCategoryResults(AttachResult(st, res).categories))
         == multiset(AllCategoryResults(st.categories)) + multiset{res}
  {
    AttachResultCategorySide(st, res);
    AttachResultSubSide(st, res);
  }

  lemma StepBalanced(st: ParseState, line: string)
    requires Valid(st) && Balanced(st)
    ensures Balanced(Step(st, line))
  {
    match Classify(line)
    case CategoryHeader(n) =>
      assert Step(st, line) == EnterCategory(st, n);
      EnterCategoryBalanced(st, n);
    case SubcategoryHeader(n) =>
      assert Step(st, line) == EnterSubCategory(st, n);
      EnterSubCategoryBalanced(st, n);
    case CourseLine(f) =>
      assert Step(st, line) == AddCourse(st, f);
      var res := ToResult(f);
      if res.Some? && st.currentCategory.Some? && st.currentSubCategory.Some? {
        assert AddCourse(st, f) == AttachResult(st, res.value);
        AttachResultBalanced(st, res.value);
      } else {
        assert AddCourse(st, f) == st;
      }
    case Noise =>
  }

  /** Each accepted result is held by exactly one category and exactly one subcategory, so the
      categories and the subcategories hold the same results, as many times each. */
  lemma {:induction false} ParseBalanced(lines: seq<string>)
    ensures multiset(AllCategoryResults(Parse(lines).categories))
         == multiset(AllSubResults(Parse(lines).categories))
    ensures |AllCategoryResults(Parse(lines).categories)| == |AllSubResults(Parse(lines).categories)|
  {
    if lines == [] {
      assert ResultLists([]) == [] && SubResultsPerCategory([]) == [];
    } else {
      ParseBalanced(lines[..|lines| - 1]);
      StepBalanced(Parse(lines[..|lines| - 1]), lines[|lines| - 1]);
    }
    var st := Parse(lines);
    assert |multiset(AllCategoryResults(st.categories))| == |multiset(AllSubResults(st.categories))|;
  }

  /** A course line that fails the filter, or arrives while either cursor is unset, changes
      nothing: a zero credit, a NaN credit and the term 0000 all drop the line. */
  lemma DroppedCourseLine(st: ParseState, line: string)
    requires Valid(st)
    requires Classify(line).CourseLine?
    requires var f := Classify(line).fields;
      || CreditNumber(f.credits) == Some(0.0)
      || CreditNumber(f.credits).None?
      || f.term == "0000"
      || st.currentCategory.None?
      || st.currentSubCategory.None?
    ensures Step(st, line) == st
  {
  }

  /** An accepted course line adds its result to the current category and to the current
      subcategory, and the total number of results under the categories grows by one. */
  lemma AcceptedCourseLine(st: ParseState, line: string)
    requires Valid(st) && Balanced(st)
    requires Classify(line).CourseLine?
    requires ToResult(Classify(line).fields).Some?
    requires st.currentCategory.Some? && st.currentSubCategory.Some?
    ensures var res := ToResult(Classify(line).fields).value;
      && Step(st, line) == AttachResult(st, res)
      && multiset(AllCategoryResults(Step(st, line).categories))
         == multiset(AllCategoryResults(st.categories)) + multiset{res}
  {
    AttachResultBalanced(st, ToResult(Classify(line).fields).value);
  }

  /** Before any category header, a subcategory header creates nothing. */
  lemma SubcategoryBeforeCategory(st: ParseState, line: string)
    requires Valid(st) && st.currentCategory.None?
    requires Classify(line).SubcategoryHeader?
    ensures Step(st, line).categories == st.categories
    ensures Step(st, line).currentSubCategory.None?
  {
  }

  /** A category header keeps the current subcategory, even one of another category: a course line
      right after a new category's header goes to the new category and to the previous category's
      subcategory. */
  lemma CategoryHeaderKeepsSubcategory(st: ParseState, n: string, line: string)
    requires Valid(st) && st.currentSubCategory.Some?
    requires IsWord(n)
    requires Classify(line).CourseLine? && ToResult(Classify(line).fields).Some?
    ensures var mid := Step(st, n);
      && mid.currentSubCategory == st.currentSubCategory
      && Step(mid, line).currentSubCategory == st.currentSubCategory
      && mid.categories[mid.currentCategory.value].name == n
      && Step(mid, line) == AttachResult(mid, ToResult(Classify(line).fields).value)
  {
    HeaderRoundTrip(n);
  }
}
