/** The course catalogue page: the search/category filter, the category list
    built from the fetched courses, the cards it renders and the Clear Filters
    button. The search term, the selected category and the course list are the
    page's React state, taken here as plain inputs. */
module CoursesPage {
  import opened JsValues
  import opened JsString
  import opened JsArray
  import opened CourseCard

  /** The search box and the category select. */
  datatype Filters = Filters(searchTerm: JsText, selectedCategory: JsText)

  /** Case-insensitive substring test used for each text field. */
  predicate TextMatches(field: JsText, term: JsText) {
    Includes(ToLowerCase(field), ToLowerCase(term))
  }

  /** The value of the All Categories item. */
  const AllCategories: JsText := BmpText("all")

  /** "all" (the All Categories item) and "" (nothing chosen) accept every course. */
  predicate CategoryMatches(c: Course, selectedCategory: JsText) {
    selectedCategory == AllCategories || selectedCategory == [] || c.category == Some(selectedCategory)
  }

  /** A missing subtitle or description is searched as the empty string. */
  function TextOrEmpty(s: Option<JsText>): JsText {
    if s.Some? then s.value else []
  }

  predicate Keep(c: Course, f: Filters) {
    && (|| TextMatches(c.courseTitle, f.searchTerm)
        || TextMatches(TextOrEmpty(c.subTitle), f.searchTerm)
        || TextMatches(TextOrEmpty(c.description), f.searchTerm))
    && CategoryMatches(c, f.selectedCategory)
  }

  /** `filterCourses`, with missing text fields read as "": the courses that match,
      in their original order, each kept course with all its occurrences. */
  function FilterCourses(courses: seq<Course>, f: Filters): (r: seq<Course>)
    ensures IsSubsequence(r, courses)
    ensures forall c :: multiset(r)[c] == if Keep(c, f) then multiset(courses)[c] else 0
  {
    if courses == [] then []
    else
      var rest := FilterCourses(courses[1..], f);
      assert courses == [courses[0]] + courses[1..];
      if Keep(courses[0], f) then [courses[0]] + rest
      else
        assert courses[0] !in rest by {
          assert multiset(rest)[courses[0]] == 0;
        }
        assert rest != [] ==> rest[0] != courses[0] by {
          if rest != [] { assert rest[0] in rest; }
        }
        rest
  }

  /** A course is shown exactly when it is in the list and matches the search
      term (in its title, subtitle or description) and the category. */
  lemma FilterKeepsExactlyMatches(courses: seq<Course>, f: Filters, c: Course)
    ensures c in FilterCourses(courses, f) <==> c in courses && Keep(c, f)
  {
  }

  /** With a concrete category chosen, every shown course has that category. */
  lemma FilterHonoursSelectedCategory(courses: seq<Course>, f: Filters)
    requires f.selectedCategory != [] && f.selectedCategory != AllCategories
    ensures forall c :: c in FilterCourses(courses, f) ==> c.category == Some(f.selectedCategory)
  {
  }

  /** With an empty search term and no concrete category, every course is shown. */
  lemma {:induction false} FilterKeepsAllWhenUnconstrained(courses: seq<Course>, f: Filters)
    requires f.searchTerm == [] && (f.selectedCategory == [] || f.selectedCategory == AllCategories)
    ensures FilterCourses(courses, f) == courses
  {
    if courses != [] {
      IncludesEmpty(ToLowerCase(courses[0].courseTitle));
      assert ToLowerCase(f.searchTerm) == [];
      assert Keep(courses[0], f);
      FilterKeepsAllWhenUnconstrained(courses[1..], f);
      assert courses == [courses[0]] + courses[1..];
    }
  }

  /** `filterCourses` as written: each course's subtitle and description are
      lower-cased with no guard for a missing value, so one course lacking either
      makes the whole call throw a `TypeError`. */
  function FilterCoursesAsWritten(courses: seq<Course>, f: Filters): (r: Completion<seq<Course>>)
    ensures r.Normal? ==> forall i :: 0 <= i < |courses| ==> HasTextFields(courses[i])
  {
    if courses == [] then Normal([])
    else
      var c := courses[0];
      if c.subTitle.None? || c.description.None? then ThrowTypeError
      else
        match FilterCoursesAsWritten(courses[1..], f)
        case ThrowTypeError => ThrowTypeError
        case Normal(rest) => Normal((if Keep(c, f) then [c] else []) + rest)
  }

  predicate HasTextFields(c: Course) {
    c.subTitle.Some? && c.description.Some?
  }

  /** The code as written throws exactly when some course lacks a subtitle or a
      description; otherwise it agrees with FilterCourses. */
  lemma {:induction false} AsWrittenThrowsIffTextFieldMissing(courses: seq<Course>, f: Filters)
    ensures FilterCoursesAsWritten(courses, f).ThrowTypeError? <==>
              exists i :: 0 <= i < |courses| && !HasTextFields(courses[i])
    ensures FilterCoursesAsWritten(courses, f).Normal? ==>
              FilterCoursesAsWritten(courses, f).value == FilterCourses(courses, f)
  {
    if courses != [] {
      AsWrittenThrowsIffTextFieldMissing(courses[1..], f);
      if exists i :: 1 <= i < |courses| && !HasTextFields(courses[i]) {
        var i :| 1 <= i < |courses| && !HasTextFields(courses[i]);
        assert !HasTextFields(courses[1..][i - 1]);
      }
      if exists i :: 0 <= i < |courses[1..]| && !HasTextFields(courses[1..][i]) {
        var i :| 0 <= i < |courses[1..]| && !HasTextFields(courses[1..][i]);
        assert !HasTextFields(courses[i + 1]);
      }
    }
  }

  /** A course with neither subtitle nor description: the card shows the fallback
      text, but filtering the page's list throws, even with empty filters. */
  lemma MissingTextFieldThrows()
    ensures var c := Course(BmpText("c1"), BmpText("Intro"), None, None, None, Some(BmpText("Web")), None, None);
      && FormatCourseForCard(c).description == NoDescription
      && FilterCoursesAsWritten([c], Filters([], [])) == ThrowTypeError
      && FilterCourses([c], Filters([], [])) == [c]
  {
  }

  /** The Clear Filters button: empties the search box and the category select. */
  function ClearFilters(f: Filters): (g: Filters)
    ensures g.searchTerm == [] && g.selectedCategory == []
  {
    Filters([], [])
  }

  /** The button appears in the "No courses found" panel (no course passes the
      filter; the page is neither loading nor showing an error, which this model
      leaves out), and only while either input is non-empty. */
  predicate ClearFiltersShown(courses: seq<Course>, f: Filters) {
    |FilterCourses(courses, f)| == 0 && (f.searchTerm != [] || f.selectedCategory != [])
  }

  /** After Clear Filters every fetched course is shown and the button disappears;
      the "No courses found" panel goes too unless no course was fetched. */
  lemma ClearFiltersShowsAll(courses: seq<Course>, f: Filters)
    ensures FilterCourses(courses, ClearFilters(f)) == courses
    ensures courses != [] ==> |FilterCourses(courses, ClearFilters(f))| > 0
    ensures !ClearFiltersShown(courses, ClearFilters(f))
  {
  }

  /** The cards in the grid: one per shown course, in filter order. */
  function VisibleCards(courses: seq<Course>, f: Filters): (cards: seq<Card>)
    ensures |cards| == |FilterCourses(courses, f)|
    ensures forall i :: 0 <= i < |cards| ==>
              cards[i] == FormatCourseForCard(FilterCourses(courses, f)[i]) &&
              Keep(FilterCourses(courses, f)[i], f)
  {
    var shown := FilterCourses(courses, f);
    assert forall i :: 0 <= i < |shown| ==> shown[i] in shown;
    forall i | 0 <= i < |shown| ensures Keep(shown[i], f) {
      FilterKeepsExactlyMatches(courses, f, shown[i]);
    }
    CardsOf(shown)
  }

  /** `courses.map(course => course.category)` */
  function CategoriesOf(courses: seq<Course>): (cats: seq<Option<JsText>>)
    ensures |cats| == |courses|
    ensures forall i :: 0 <= i < |courses| ==> cats[i] == courses[i].category
  {
    seq(|courses|, i requires 0 <= i < |courses| => courses[i].category)
  }

  /** `.filter(Boolean)` on the category values: drops missing and empty ones. */
  function NonEmptyNames(xs: seq<Option<JsText>>): (r: seq<JsText>)
    ensures forall s :: s in r <==> s != [] && Some(s) in xs
    ensures NoDuplicates(xs) ==> NoDuplicates(r)
  {
    if xs == [] then []
    else
      var init, last := xs[..|xs| - 1], xs[|xs| - 1];
      assert xs == init + [last];
      var r := NonEmptyNames(init);
      if TruthyString(last) then
        assert NoDuplicates(xs) ==> last !in init;
        r + [last.value]
      else r
  }

  /** `.filter(Boolean)` keeps the relative order of the values it keeps. */
  lemma {:induction false} NonEmptyNamesKeepOrder(xs: seq<Option<JsText>>)
    requires NoDuplicates(xs)
    ensures forall i, j :: 0 <= i < j < |NonEmptyNames(xs)| ==>
              FirstIndex(xs, Some(NonEmptyNames(xs)[i])) < FirstIndex(xs, Some(NonEmptyNames(xs)[j]))
  {
    if xs != [] {
      var init, last := xs[..|xs| - 1], xs[|xs| - 1];
      assert xs == init + [last];
      var r := NonEmptyNames(init);
      NonEmptyNamesKeepOrder(init);
      forall s | s in r
        ensures FirstIndex(xs, Some(s)) == FirstIndex(init, Some(s)) < |init|
      {
        FirstIndexInPrefix(init, [last], Some(s));
      }
      if TruthyString(last) {
        assert last !in init;
        assert FirstIndex(xs, last) == |init| by {
          assert xs[..|init|] == init;
        }
        var r' := r + [last.value];
        forall i, j | 0 <= i < j < |r'|
          ensures FirstIndex(xs, Some(r'[i])) < FirstIndex(xs, Some(r'[j]))
        {
          assert r'[i] == r[i] && r[i] in r;
          if j < |r| {
            assert r'[j] == r[j];
          }
        }
      }
    }
  }

  /** The category dropdown: `[...new Set(courses.map(c => c.category))].filter(Boolean)`. */
  function UniqueCategories(courses: seq<Course>): (r: seq<JsText>)
    ensures NoDuplicates(r)
    ensures forall s :: s in r <==> s != [] && Some(s) in CategoriesOf(courses)
  {
    NonEmptyNames(Distinct(CategoriesOf(courses)))
  }

  /** Each category is listed at the position of its first course: a category
      whose first course comes earlier is listed earlier. */
  lemma UniqueCategoriesInFirstOccurrenceOrder(courses: seq<Course>)
    ensures forall i, j :: 0 <= i < j < |UniqueCategories(courses)| ==>
              FirstIndex(CategoriesOf(courses), Some(UniqueCategories(courses)[i])) <
              FirstIndex(CategoriesOf(courses), Some(UniqueCategories(courses)[j]))
  {
    var cats := CategoriesOf(courses);
    var d := Distinct(cats);
    var r := UniqueCategories(courses);
    DistinctInFirstOccurrenceOrder(cats);
    NonEmptyNamesKeepOrder(d);
    forall i, j | 0 <= i < j < |r|
      ensures FirstIndex(cats, Some(r[i])) < FirstIndex(cats, Some(r[j]))
    {
      var a, b := FirstIndex(d, Some(r[i])), FirstIndex(d, Some(r[j]));
      assert a < b;
      assert d[a] == Some(r[i]) && d[b] == Some(r[j]);
    }
  }
}
