/**
 * The course list of Frontend/src/components/courses/CourseLibrary.tsx: the
 * search, semester and year filters, and the options of the year select.
 */
module CourseLibrary {
  import Text
  import Lists
  import opened CourseForm

  /** A course as the page stores it: the submitted data and its id. */
  datatype Course = Course(id: string, data: CourseData)

  /** `course.year.toString()`: a number in decimal, a string as it is. */
  function YearString(y: YearValue): string {
    match y
    case YearNum(n) => Text.IntToString(n)
    case YearText(t) => t
  }

  /** The search matches the title or the instructor, both lower-cased. */
  predicate MatchesSearch(c: Course, term: string) {
    Text.MatchesTerm(c.data.title, term) || Text.MatchesTerm(c.data.instructor, term)
  }

  /** An empty semester filter accepts every course; otherwise the semester must be equal. */
  predicate MatchesSemester(c: Course, semester: string) {
    semester == "" || c.data.semester == semester
  }

  /** An empty year filter accepts every course; otherwise the year's text must be equal. */
  predicate MatchesYear(c: Course, year: string) {
    year == "" || YearString(c.data.year) == year
  }

  predicate Shown(term: string, semester: string, year: string, c: Course) {
    MatchesSearch(c, term) && MatchesSemester(c, semester) && MatchesYear(c, year)
  }

  /** `filteredCourses`: the courses passing all three filters, in their original order. */
  function FilteredCourses(cs: seq<Course>, term: string, semester: string, year: string): (r: seq<Course>)
    ensures |r| <= |cs|
    ensures forall k :: 0 <= k < |r| ==>
              r[k] in cs && MatchesSearch(r[k], term) && MatchesSemester(r[k], semester) && MatchesYear(r[k], year)
    ensures forall k :: 0 <= k < |cs| && Shown(term, semester, year, cs[k]) ==> cs[k] in r
  {
    Lists.Filter(cs, c => Shown(term, semester, year, c))
  }

  /** The shown list keeps the input's order: filtering a concatenation concatenates the filtered
      halves, and a single course is shown alone or not at all. */
  lemma FilteredCoursesInOrder(a: seq<Course>, b: seq<Course>, c: Course, term: string, semester: string, year: string)
    ensures FilteredCourses(a + b, term, semester, year)
            == FilteredCourses(a, term, semester, year) + FilteredCourses(b, term, semester, year)
    ensures FilteredCourses([c], term, semester, year) == if Shown(term, semester, year, c) then [c] else []
  {
    Lists.FilterAppend(a, b, c => Shown(term, semester, year, c));
  }

  /** With no search and both selects on "All", every course is listed, in order. */
  lemma NoFilterShowsAll(cs: seq<Course>)
    ensures FilteredCourses(cs, "", "", "") == cs
  {
    forall k | 0 <= k < |cs|
      ensures Shown("", "", "", cs[k])
    {
      Text.EmptyTermMatches(cs[k].data.title);
    }
    Lists.FilterKeepsAll(cs, c => Shown("", "", "", c));
  }

  /** Choosing the decimal text of a year selects exactly the courses with that numeric year or
      that very text. */
  lemma YearFilterByNumber(c: Course, n: int)
    ensures MatchesYear(c, Text.IntToString(n)) <==>
            c.data.year == YearNum(n) || c.data.year == YearText(Text.IntToString(n))
  {
    if c.data.year.YearNum? {
      Text.IntToStringInjective(c.data.year.n, n);
    }
  }

  // ---------------------------------------------------------------------------
  // The year options: `Array.from(new Set(courses.map(c => c.year))).sort()`
  // ---------------------------------------------------------------------------

  /** The years of the courses, one per course, in order. */
  function Years(cs: seq<Course>): (r: seq<YearValue>)
    ensures |r| == |cs| && forall k :: 0 <= k < |cs| ==> r[k] == cs[k].data.year
  {
    seq(|cs|, k requires 0 <= k < |cs| => cs[k].data.year)
  }

  /** A `Set` built from a list: each value once, at its first occurrence. A number and a string
      are different values even when they print the same. */
  function Dedup(ys: seq<YearValue>): (r: seq<YearValue>)
    ensures forall y :: y in r <==> y in ys
    ensures Lists.Distinct(r)
    decreases |ys|
  {
    if |ys| == 0 then []
    else
      var init := ys[..|ys| - 1];
      var last := ys[|ys| - 1];
      assert ys == init + [last];
      var d := Dedup(init);
      if last in init then d else d + [last]
  }

  /** Sorted by the default `sort` order: comparison of the values' string forms. */
  ghost predicate SortedByText(ys: seq<YearValue>) {
    forall i, j :: 0 <= i < j < |ys| ==> Text.LexLe(YearString(ys[i]), YearString(ys[j]))
  }

  /** Places `y` after every leading value whose text is not greater than its own. */
  function Insert(y: YearValue, ys: seq<YearValue>): seq<YearValue>
    decreases |ys|
  {
    if |ys| == 0 then [y]
    else if Text.LexLe(YearString(ys[0]), YearString(y)) then [ys[0]] + Insert(y, ys[1..])
    else [y] + ys
  }

  /** Inserting adds exactly `y`: the same values plus one. */
  lemma {:induction false} InsertContents(y: YearValue, ys: seq<YearValue>)
    ensures multiset(Insert(y, ys)) == multiset(ys) + multiset{y}
    decreases |ys|
  {
    if |ys| > 0 && Text.LexLe(YearString(ys[0]), YearString(y)) {
      InsertContents(y, ys[1..]);
      assert ys == [ys[0]] + ys[1..];
    }
  }

  /** A value whose text is not greater than any in a sorted list can go in front of it. */
  lemma ConsSorted(x: YearValue, ys: seq<YearValue>)
    requires SortedByText(ys)
    requires forall j :: 0 <= j < |ys| ==> Text.LexLe(YearString(x), YearString(ys[j]))
    ensures SortedByText([x] + ys)
  {
    var r := [x] + ys;
    forall i, j | 0 <= i < j < |r|
      ensures Text.LexLe(YearString(r[i]), YearString(r[j]))
    {
      var b := j - 1;
      assert r[j] == ys[b];
      if i == 0 {
        assert r[i] == x;
      } else {
        var a := i - 1;
        assert r[i] == ys[a];
        assert Text.LexLe(YearString(ys[a]), YearString(ys[b]));
      }
    }
  }

  /** A lower bound of `y` and of every value of `ys` bounds every value of the insertion. */
  lemma {:induction false} InsertBound(x: YearValue, y: YearValue, ys: seq<YearValue>)
    requires Text.LexLe(YearString(x), YearString(y))
    requires forall j :: 0 <= j < |ys| ==> Text.LexLe(YearString(x), YearString(ys[j]))
    ensures forall j :: 0 <= j < |Insert(y, ys)| ==> Text.LexLe(YearString(x), YearString(Insert(y, ys)[j]))
    decreases |ys|
  {
    if |ys| > 0 && Text.LexLe(YearString(ys[0]), YearString(y)) {
      InsertBound(x, y, ys[1..]);
      var r := Insert(y, ys);
      assert r == [ys[0]] + Insert(y, ys[1..]);
      forall j | 0 <= j < |r|
        ensures Text.LexLe(YearString(x), YearString(r[j]))
      {
        if j > 0 {
          assert r[j] == Insert(y, ys[1..])[j - 1];
        }
      }
    } else if |ys| > 0 {
      var r := Insert(y, ys);
      forall j | 0 <= j < |r|
        ensures Text.LexLe(YearString(x), YearString(r[j]))
      {
        if j > 0 {
          assert r[j] == ys[j - 1];
        }
      }
    }
  }

  /** Inserting into a sorted list keeps it sorted. */
  lemma {:induction false} InsertSorted(y: YearValue, ys: seq<YearValue>)
    requires SortedByText(ys)
    ensures SortedByText(Insert(y, ys))
    decreases |ys|
  {
    if |ys| == 0 {
    } else if Text.LexLe(YearString(ys[0]), YearString(y)) {
      var tail := ys[1..];
      assert SortedByText(tail) by {
        forall i, j | 0 <= i < j < |tail|
          ensures Text.LexLe(YearString(tail[i]), YearString(tail[j]))
        {
          assert tail[i] == ys[i + 1] && tail[j] == ys[j + 1];
        }
      }
      InsertSorted(y, tail);
      forall j | 0 <= j < |tail|
        ensures Text.LexLe(YearString(ys[0]), YearString(tail[j]))
      {
        assert tail[j] == ys[j + 1];
      }
      InsertBound(ys[0], y, tail);
      ConsSorted(ys[0], Insert(y, tail));
    } else {
      Text.LexLeTotal(YearString(ys[0]), YearString(y));
      forall j | 0 <= j < |ys|
        ensures Text.LexLe(YearString(y), YearString(ys[j]))
      {
        if j > 0 {
          Text.LexLeTransitive(YearString(y), YearString(ys[0]), YearString(ys[j]));
        }
      }
      ConsSorted(y, ys);
    }
  }

  /** The default `sort`, as an insertion sort: each value goes after the equal-text values
      already placed, so values with equal text keep their order. */
  function Sort(ys: seq<YearValue>): seq<YearValue>
    decreases |ys|
  {
    if |ys| == 0 then [] else Insert(ys[|ys| - 1], Sort(ys[..|ys| - 1]))
  }

  lemma {:induction false} SortProperties(ys: seq<YearValue>)
    ensures SortedByText(Sort(ys))
    ensures multiset(Sort(ys)) == multiset(ys)
    decreases |ys|
  {
    if |ys| > 0 {
      var init := ys[..|ys| - 1];
      SortProperties(init);
      InsertSorted(ys[|ys| - 1], Sort(init));
      InsertContents(ys[|ys| - 1], Sort(init));
      assert ys == init + [ys[|ys| - 1]];
    }
  }

  /** The options of the year select. */
  function YearOptions(cs: seq<Course>): seq<YearValue> {
    Sort(Dedup(Years(cs)))
  }

  /** A sequence whose multiset has each value at most once has no repeated value. */
  lemma DistinctFromMultiset(a: seq<YearValue>, b: seq<YearValue>)
    requires Lists.Distinct(a) && multiset(a) == multiset(b)
    ensures Lists.Distinct(b)
  {
    forall i, j | 0 <= i < j < |b|
      ensures b[i] != b[j]
    {
      if b[i] == b[j] {
        var x := b[i];
        assert b == b[..i] + [b[i]] + b[i + 1..j] + [b[j]] + b[j + 1..];
        assert multiset(b)[x] >= 2;
        MultiplicityInDistinct(a, x);
      }
    }
  }

  lemma {:induction false} MultiplicityInDistinct(a: seq<YearValue>, x: YearValue)
    requires Lists.Distinct(a)
    ensures multiset(a)[x] <= 1
    decreases |a|
  {
    if |a| > 0 {
      assert a == [a[0]] + a[1..];
      MultiplicityInDistinct(a[1..], x);
      if a[0] == x {
        assert x !in a[1..];
      }
    }
  }

  /** The year select offers each year of the courses exactly once, and nothing else, in string
      order. */
  lemma YearOptionsSpec(cs: seq<Course>)
    ensures forall y :: y in YearOptions(cs) <==> exists k :: 0 <= k < |cs| && cs[k].data.year == y
    ensures Lists.Distinct(YearOptions(cs))
    ensures SortedByText(YearOptions(cs))
  {
    var d := Dedup(Years(cs));
    SortProperties(d);
    DistinctFromMultiset(d, Sort(d));
    forall y
      ensures y in YearOptions(cs) <==> exists k :: 0 <= k < |cs| && cs[k].data.year == y
    {
      assert y in YearOptions(cs) <==> y in multiset(d);
      if y in Years(cs) {
        var k :| 0 <= k < |cs| && Years(cs)[k] == y;
      }
    }
  }

  /** Two different values are both kept by the `Set`, in their order. */
  lemma DedupPair(x: YearValue, y: YearValue)
    requires x != y
    ensures Dedup([x, y]) == [x, y]
  {
    assert [x][..0] == [];
    assert Dedup([x]) == [x];
    assert [x, y][..1] == [x];
    assert y !in [x];
  }

  /** Two values with the same text stay in their order under the sort. */
  lemma SortPairSameText(x: YearValue, y: YearValue)
    requires YearString(x) == YearString(y)
    ensures Sort([x, y]) == [x, y]
  {
    assert [x][..0] == [];
    assert Sort([x]) == [x];
    assert [x, y][..1] == [x];
    Text.LexLeTotal(YearString(x), YearString(y));
    assert [x][1..] == [];
    assert Insert(y, [x]) == [x] + Insert(y, []);
  }

  /** A number and its decimal text are two different `Set` members, so a list holding a course with
      year 2024 and one with year "2024" offers "2024" twice. */
  lemma SameTextTwice(a: Course, b: Course)
    requires a.data.year == YearNum(2024) && b.data.year == YearText("2024")
    ensures |YearOptions([a, b])| == 2
    ensures forall k :: 0 <= k < 2 ==> YearString(YearOptions([a, b])[k]) == "2024"
  {
    assert YearString(YearNum(2024)) == "2024" by {
      assert Text.NatToString(2024) == "2024";
    }
    assert Years([a, b]) == [YearNum(2024), YearText("2024")];
    DedupPair(YearNum(2024), YearText("2024"));
    SortPairSameText(YearNum(2024), YearText("2024"));
  }
}
