/** The hierarchy builder: the loop of `calcGPA` as a left fold over the transcript's lines. The
    state is a list of categories plus two cursors, the current category and the current
    subcategory; it starts empty on every parse. */
module Hierarchy {
  import opened Wrappers
  import opened Numbers
  import opened Lines
  import opened Aggregation

  datatype SubCategory = SubCategory(name: string, results: seq<Result>)

  datatype Category = Category(name: string, subcategories: seq<SubCategory>, results: seq<Result>)

  /** The current subcategory: its category's position and its position within that category. It
      may belong to a category other than the current one, because a category header leaves it
      as it is. */
  datatype SubRef = SubRef(category: nat, index: nat)

  datatype ParseState = ParseState(
    categories: seq<Category>, currentCategory: Option<nat>, currentSubCategory: Option<SubRef>)

  /** Every parse starts here: no categories, both cursors unset. */
  const Init: ParseState := ParseState([], None, None)

  predicate Distinct(names: seq<string>)
  {
    forall i, j :: 0 <= i < j < |names| ==> names[i] != names[j]
  }

  function CategoryNames(cats: seq<Category>): (names: seq<string>)
    ensures |names| == |cats|
    ensures forall i :: 0 <= i < |cats| ==> names[i] == cats[i].name
  {
    seq(|cats|, i requires 0 <= i < |cats| => cats[i].name)
  }

  function SubNames(subs: seq<SubCategory>): (names: seq<string>)
    ensures |names| == |subs|
    ensures forall i :: 0 <= i < |subs| ==> names[i] == subs[i].name
  {
    seq(|subs|, i requires 0 <= i < |subs| => subs[i].name)
  }

  predicate ValidRef(cats: seq<Category>, s: SubRef)
  {
    s.category < |cats| && s.index < |cats[s.category].subcategories|
  }

  /** What every reachable state satisfies: category names are distinct, subcategory names are
      distinct within their category, the cursors point at existing nodes, and there is no current
      subcategory without a current category. */
  predicate Valid(st: ParseState)
  {
    && Distinct(CategoryNames(st.categories))
    && (forall k :: 0 <= k < |st.categories| ==> Distinct(SubNames(st.categories[k].subcategories)))
    && (st.currentCategory.Some? ==> st.currentCategory.value < |st.categories|)
    && (st.currentSubCategory.Some? ==> ValidRef(st.categories, st.currentSubCategory.value))
    && (st.currentCategory.None? ==> st.currentSubCategory.None?)
  }

  /** `find` by name: the position of the first entry named `n`, or the length when there is none. */
  function IndexOfName(names: seq<string>, n: string): (i: nat)
    ensures i <= |names|
    ensures i < |names| ==> names[i] == n
    ensures forall j :: 0 <= j < i ==> names[j] != n
  {
    if names == [] then 0
    else if names[0] == n then 0
    else 1 + IndexOfName(names[1..], n)
  }

  lemma DistinctAppend(names: seq<string>, n: string)
    requires Distinct(names) && n !in names
    ensures Distinct(names + [n])
  {
  }

  /** A category header: find the category by name or append a new one, and make it current. The
      current subcategory is left as it is. */
  function EnterCategory(st: ParseState, n: string): (r: ParseState)
    requires Valid(st)
    ensures Valid(r)
    ensures r.currentCategory.Some? && r.categories[r.currentCategory.value].name == n
    ensures r.currentSubCategory == st.currentSubCategory
    ensures CategoryNames(r.categories)
         == if n in CategoryNames(st.categories) then CategoryNames(st.categories)
            else CategoryNames(st.categories) + [n]
    ensures |st.categories| <= |r.categories| && r.categories[..|st.categories|] == st.categories
    ensures forall k :: |st.categories| <= k < |r.categories| ==> r.categories[k] == Category(n, [], [])
  {
    var names := CategoryNames(st.categories);
    var i := IndexOfName(names, n);
    if i < |names| then
      ParseState(st.categories, Some(i), st.currentSubCategory)
    else
      var cats := st.categories + [Category(n, [], [])];
      assert CategoryNames(cats) == names + [n];
      DistinctAppend(names, n);
      ParseState(cats, Some(i), st.currentSubCategory)
  }

  /** A subcategory header: within the current category, find the subcategory by name or append a
      new one, and make it current. Without a current category nothing is created and the current
      subcategory becomes unset. */
  function EnterSubCategory(st: ParseState, n: string): (r: ParseState)
    requires Valid(st)
    ensures Valid(r)
    ensures r.currentCategory == st.currentCategory
    ensures |r.categories| == |st.categories|
    ensures CategoryNames(r.categories) == CategoryNames(st.categories)
    ensures forall k :: 0 <= k < |st.categories| ==> r.categories[k].results == st.categories[k].results
    ensures st.currentCategory.None? ==> r.categories == st.categories && r.currentSubCategory.None?
    ensures st.currentCategory.Some? ==>
      var c := st.currentCategory.value;
      var before := st.categories[c].subcategories;
      && (forall k :: 0 <= k < |st.categories| && k != c ==> r.categories[k] == st.categories[k])
      && SubNames(r.categories[c].subcategories)
         == (if n in SubNames(before) then SubNames(before) else SubNames(before) + [n])
      && |before| <= |r.categories[c].subcategories|
      && r.categories[c].subcategories[..|before|] == before
      && (forall j :: |before| <= j < |r.categories[c].subcategories| ==>
            r.categories[c].subcategories[j] == SubCategory(n, []))
      && r.currentSubCategory.Some? && r.currentSubCategory.value.category == c
      && r.categories[c].subcategories[r.currentSubCategory.value.index].name == n
  {
    match st.currentCategory
    case None => st.(currentSubCategory := None)
    case Some(c) =>
      var cat := st.categories[c];
      var names := SubNames(cat.subcategories);
      var j := IndexOfName(names, n);
      if j < |names| then
        ParseState(st.categories, Some(c), Some(SubRef(c, j)))
      else
        var subs := cat.subcategories + [SubCategory(n, [])];
        assert SubNames(subs) == names + [n];
        DistinctAppend(names, n);
        var cats := st.categories[c := cat.(subcategories := subs)];
        assert CategoryNames(cats) == CategoryNames(st.categories);
        ParseState(cats, Some(c), Some(SubRef(c, j)))
  }

  /** An accepted course result goes to the current category and to the current subcategory, and
      nowhere else. */
  function AttachResult(st: ParseState, res: Result): (r: ParseState)
    requires Valid(st) && st.currentCategory.Some? && st.currentSubCategory.Some?
    ensures Valid(r)
    ensures r.currentCategory == st.currentCategory && r.currentSubCategory == st.currentSubCategory
    ensures |r.categories| == |st.categories|
    ensures CategoryNames(r.categories) == CategoryNames(st.categories)
    ensures forall k :: 0 <= k < |st.categories| ==>
      SubNames(r.categories[k].subcategories) == SubNames(st.categories[k].subcategories)
    ensures forall k :: 0 <= k < |st.categories| ==>
      r.categories[k].results
      == if k == st.currentCategory.value then st.categories[k].results + [res]
         else st.categories[k].results
    ensures forall k, j :: 0 <= k < |st.categories| && 0 <= j < |st.categories[k].subcategories| ==>
      r.categories[k].subcategories[j].results
      == if SubRef(k, j) == st.currentSubCategory.value then st.categories[k].subcategories[j].results + [res]
         else st.categories[k].subcategories[j].results
  {
    var c := st.currentCategory.value;
    var s := st.currentSubCategory.value;
    var cats1 := st.categories[c := st.categories[c].(results := st.categories[c].results + [res])];
    var cat := cats1[s.category];
    var sub := cat.subcategories[s.index];
    var subs := cat.subcategories[s.index := sub.(results := sub.results + [res])];
    var cats2 := cats1[s.category := cat.(subcategories := subs)];
    assert SubNames(subs) == SubNames(cat.subcategories);
    assert CategoryNames(cats2) == CategoryNames(st.categories);
    st.(categories := cats2)
  }

  /** The acceptance filter of a course line, apart from the cursors: name, teacher and semester
      must be non-empty, the credits a number other than zero (a NaN credit is refused too), and
      the term other than 0000. The grade group can only capture one of the six symbols, so it is
      never empty. */
  function ToResult(f: CourseFields): (r: Option<Result>)
    requires IsCreditToken(f.credits) && |f.term| == 4 && AllDigits(f.term)
    ensures r.Some? <==>
      && f.name != [] && f.teacher != [] && f.semester != []
      && CreditNumber(f.credits).Some? && CreditNumber(f.credits).value != 0.0
      && f.term != "0000"
    ensures r.Some? ==> r.value.credit == CreditNumber(f.credits).value && r.value.grade == f.grade
    ensures r.Some? ==> r.value.name == f.name && r.value.teacher == f.teacher && r.value.semester == f.semester
    ensures r.Some? ==> 0 < r.value.term < 10000
  {
    var credit := CreditNumber(f.credits);
    var term := TermNumber(f.term);
    if f.name == [] || credit.None? || credit.value == 0.0 || f.teacher == [] || term == 0
       || f.semester == []
    then None
    else Some(Result(f.name, f.teacher, credit.value, f.grade, term, f.semester))
  }

  /** A course line: kept only when its fields pass the filter and both cursors are set. */
  function AddCourse(st: ParseState, f: CourseFields): (r: ParseState)
    requires Valid(st)
    requires IsCreditToken(f.credits) && |f.term| == 4 && AllDigits(f.term)
    ensures Valid(r)
    ensures CategoryNames(r.categories) == CategoryNames(st.categories)
    ensures r.currentCategory == st.currentCategory && r.currentSubCategory == st.currentSubCategory
    ensures r != st ==> ToResult(f).Some? && st.currentCategory.Some? && st.currentSubCategory.Some?
    ensures ToResult(f).Some? && st.currentSubCategory.Some? ==>
              r.categories[st.currentCategory.value].results
                == st.categories[st.currentCategory.value].results + [ToResult(f).value]
  {
    match ToResult(f)
    case Some(res) =>
      if st.currentCategory.Some? && st.currentSubCategory.Some? then AttachResult(st, res) else st
    case None => st
  }

  /** One line of the transcript. Only a category header can change the list of category names,
      noise changes nothing, and a current category once set stays set. */
  function Step(st: ParseState, line: string): (r: ParseState)
    requires Valid(st)
    ensures Valid(r)
    ensures Classify(line).Noise? ==> r == st
    ensures !Classify(line).CategoryHeader? ==> CategoryNames(r.categories) == CategoryNames(st.categories)
    ensures st.currentCategory.Some? ==> r.currentCategory.Some?
  {
    match Classify(line)
    case CategoryHeader(n) => EnterCategory(st, n)
    case SubcategoryHeader(n) => EnterSubCategory(st, n)
    case CourseLine(f) => AddCourse(st, f)
    case Noise => st
  }

  /** The whole loop: the lines folded into the initial state, in document order. */
  function Parse(lines: seq<string>): (st: ParseState)
    ensures Valid(st)
  {
    if lines == [] then Init else Step(Parse(lines[..|lines| - 1]), lines[|lines| - 1])
  }
}
