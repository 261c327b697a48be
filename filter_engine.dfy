/**
 * The hook's filter engine: `applyFilters`, a chain of `Array.filter` calls,
 * one per non-empty criterion, and the merge and reset of the criteria.
 * Case folding is `Text.Lower` (ASCII and Latin-1 capitals).
 */
module FilterEngine {
  import opened Wrappers
  import opened Text
  import opened Sequences
  import opened Movies

  /** The criteria; '' leaves a field unconstrained. `genre` is the source's
      `filters.type` (`type` is a keyword here). */
  datatype Filters = Filters(title: string, genre: string, location: string, year: string)

  /** The initial criteria, and what `clearFilters` restores. */
  const NoFilters: Filters := Filters("", "", "", "")

  /** The title test: lowercased `Title` includes the lowercased query. */
  predicate TitleMatches(query: string, m: Movie) {
    Includes(Lower(m.Title), Lower(query))
  }

  /** The type test: lowercased `Type` equals the lowercased query. */
  predicate TypeMatches(query: string, m: Movie) {
    Lower(m.Type) == Lower(query)
  }

  /** The location test: lowercased `Ubication` includes the lowercased query. */
  predicate LocationMatches(query: string, m: Movie) {
    Includes(Lower(m.Ubication), Lower(query))
  }

  /** The year test: `Year` includes the query, case and all. */
  predicate YearMatches(query: string, m: Movie) {
    Includes(m.Year, query)
  }

  function TitleTest(query: string): Movie -> bool { m => TitleMatches(query, m) }
  function TypeTest(query: string): Movie -> bool { m => TypeMatches(query, m) }
  function LocationTest(query: string): Movie -> bool { m => LocationMatches(query, m) }
  function YearTest(query: string): Movie -> bool { m => YearMatches(query, m) }

  /** `if (criterion) { filtered = filtered.filter(test); }` */
  function Narrow(filtered: seq<Movie>, criterion: string, test: Movie -> bool): seq<Movie> {
    if criterion != "" then Filter(filtered, test) else filtered
  }

  /** `applyFilters`: start from all movies and narrow by each non-empty criterion in turn. */
  function ApplyFilters(movies: seq<Movie>, f: Filters): seq<Movie> {
    var byTitle := Narrow(movies, f.title, TitleTest(f.title));
    var byType := Narrow(byTitle, f.genre, TypeTest(f.genre));
    var byLocation := Narrow(byType, f.location, LocationTest(f.location));
    Narrow(byLocation, f.year, YearTest(f.year))
  }

  /** A movie passes every non-empty criterion. */
  predicate Matches(m: Movie, f: Filters) {
    && (f.title != "" ==> TitleMatches(f.title, m))
    && (f.genre != "" ==> TypeMatches(f.genre, m))
    && (f.location != "" ==> LocationMatches(f.location, m))
    && (f.year != "" ==> YearMatches(f.year, m))
  }

  function MatchTest(f: Filters): Movie -> bool { m => Matches(m, f) }

  /** What keeping a movie means, written with explicit occurrences rather
      than with `Includes`. */
  ghost predicate Satisfies(m: Movie, f: Filters) {
    && (f.title != "" ==> exists i :: OccursAt(Lower(m.Title), Lower(f.title), i))
    && (f.genre != "" ==> Lower(m.Type) == Lower(f.genre))
    && (f.location != "" ==> exists i :: OccursAt(Lower(m.Ubication), Lower(f.location), i))
    && (f.year != "" ==> exists i :: OccursAt(m.Year, f.year, i))
  }

  lemma MatchesIffSatisfies(m: Movie, f: Filters)
    ensures Matches(m, f) <==> Satisfies(m, f)
  {
    IncludesIff(Lower(m.Title), Lower(f.title));
    IncludesIff(Lower(m.Ubication), Lower(f.location));
    IncludesIff(m.Year, f.year);
  }

  /** Narrowing the movies that meet `g` by the title criterion `v`, when `g`
      has none, gives the movies that meet `g` with `v` added; likewise below
      for the other three fields. */
  lemma {:induction false} NarrowByTitle(movies: seq<Movie>, g: Filters, v: string)
    requires g.title == ""
    ensures Narrow(Filter(movies, MatchTest(g)), v, TitleTest(v)) == Filter(movies, MatchTest(g.(title := v)))
  {
    if v != "" {
      FilterThenFilter(movies, MatchTest(g), TitleTest(v), MatchTest(g.(title := v)));
    } else {
      assert g.(title := v) == g;
    }
  }

  lemma {:induction false} NarrowByType(movies: seq<Movie>, g: Filters, v: string)
    requires g.genre == ""
    ensures Narrow(Filter(movies, MatchTest(g)), v, TypeTest(v)) == Filter(movies, MatchTest(g.(genre := v)))
  {
    if v != "" {
      FilterThenFilter(movies, MatchTest(g), TypeTest(v), MatchTest(g.(genre := v)));
    } else {
      assert g.(genre := v) == g;
    }
  }

  lemma {:induction false} NarrowByLocation(movies: seq<Movie>, g: Filters, v: string)
    requires g.location == ""
    ensures Narrow(Filter(movies, MatchTest(g)), v, LocationTest(v)) == Filter(movies, MatchTest(g.(location := v)))
  {
    if v != "" {
      FilterThenFilter(movies, MatchTest(g), LocationTest(v), MatchTest(g.(location := v)));
    } else {
      assert g.(location := v) == g;
    }
  }

  lemma {:induction false} NarrowByYear(movies: seq<Movie>, g: Filters, v: string)
    requires g.year == ""
    ensures Narrow(Filter(movies, MatchTest(g)), v, YearTest(v)) == Filter(movies, MatchTest(g.(year := v)))
  {
    if v != "" {
      FilterThenFilter(movies, MatchTest(g), YearTest(v), MatchTest(g.(year := v)));
    } else {
      assert g.(year := v) == g;
    }
  }

  /** The chain of stages is one filter by the conjunction of all criteria. */
  lemma {:induction false} ApplyFiltersIsOneFilter(movies: seq<Movie>, f: Filters)
    ensures ApplyFilters(movies, f) == Filter(movies, MatchTest(f))
  {
    FilterKeepsAll(movies, MatchTest(NoFilters));
    var f1 := NoFilters.(title := f.title);
    var f2 := f1.(genre := f.genre);
    var f3 := f2.(location := f.location);
    NarrowByTitle(movies, NoFilters, f.title);
    NarrowByType(movies, f1, f.genre);
    NarrowByLocation(movies, f2, f.location);
    NarrowByYear(movies, f3, f.year);
    assert f3.(year := f.year) == f;
  }

  /** The filtered view is the order-preserving subsequence of `movies` made
      of exactly the movies that meet every non-empty criterion: nothing
      repeated, nothing reordered, nothing that matches left out. */
  lemma FilteredViewSelects(movies: seq<Movie>, f: Filters) returns (idx: seq<nat>)
    ensures SelectsExactly(movies, ApplyFilters(movies, f), idx, MatchTest(f))
    ensures forall i :: 0 <= i < |movies| ==> (i in idx <==> Satisfies(movies[i], f))
  {
    ApplyFiltersIsOneFilter(movies, f);
    idx := FilterSelects(movies, MatchTest(f));
    forall i | 0 <= i < |movies| ensures i in idx <==> Satisfies(movies[i], f) {
      MatchesIffSatisfies(movies[i], f);
    }
  }

  /** A movie is in the view iff it is in the collection and meets every non-empty criterion. */
  lemma FilteredMembership(movies: seq<Movie>, f: Filters)
    ensures forall m :: m in ApplyFilters(movies, f) ==> m in movies && Satisfies(m, f)
    ensures forall m :: m in movies && Satisfies(m, f) ==> m in ApplyFilters(movies, f)
  {
    ApplyFiltersIsOneFilter(movies, f);
    forall m | m in movies ensures Matches(m, f) <==> Satisfies(m, f) {
      MatchesIffSatisfies(m, f);
    }
  }

  /** With every criterion empty the view is the whole collection, in order. */
  lemma NoFiltersIsIdentity(movies: seq<Movie>)
    ensures ApplyFilters(movies, NoFilters) == movies
  {
  }

  /** The criteria `f` with only one of its fields kept. */
  function OnlyTitle(f: Filters): Filters { NoFilters.(title := f.title) }
  function OnlyType(f: Filters): Filters { NoFilters.(genre := f.genre) }
  function OnlyLocation(f: Filters): Filters { NoFilters.(location := f.location) }
  function OnlyYear(f: Filters): Filters { NoFilters.(year := f.year) }

  /** AND composition: the view for several criteria is the intersection of
      the views for each criterion alone. */
  lemma ConjunctionOfSingleCriteria(movies: seq<Movie>, f: Filters, m: Movie)
    ensures m in ApplyFilters(movies, f) <==>
              && m in ApplyFilters(movies, OnlyTitle(f))
              && m in ApplyFilters(movies, OnlyType(f))
              && m in ApplyFilters(movies, OnlyLocation(f))
              && m in ApplyFilters(movies, OnlyYear(f))
  {
    ApplyFiltersIsOneFilter(movies, f);
    ApplyFiltersIsOneFilter(movies, OnlyTitle(f));
    ApplyFiltersIsOneFilter(movies, OnlyType(f));
    ApplyFiltersIsOneFilter(movies, OnlyLocation(f));
    ApplyFiltersIsOneFilter(movies, OnlyYear(f));
  }

  /** Case does not matter for the title, type and location criteria: two
      criteria that lowercase alike, with the same year, give the same view. */
  lemma CaseInsensitive(movies: seq<Movie>, f: Filters, g: Filters)
    requires Lower(f.title) == Lower(g.title)
    requires Lower(f.genre) == Lower(g.genre)
    requires Lower(f.location) == Lower(g.location)
    requires f.year == g.year
    ensures ApplyFilters(movies, f) == ApplyFilters(movies, g)
  {
    assert |f.title| == |g.title| && |f.genre| == |g.genre| && |f.location| == |g.location|;
    ApplyFiltersIsOneFilter(movies, f);
    ApplyFiltersIsOneFilter(movies, g);
    FilterAgrees(movies, MatchTest(f), MatchTest(g));
  }

  function Comedy(): Movie { Movie("c1", "Comedy Night", "2020", "Comedy", "", true, "", "Downtown") }

  /** The type criterion is exact while the title criterion is a substring
      search: "Com" rejects the type "Comedy" but keeps the title "Comedy Night". */
  lemma TypeIsExactTitleIsSubstring()
    ensures !Matches(Comedy(), NoFilters.(genre := "Com"))
    ensures Matches(Comedy(), NoFilters.(title := "Com"))
  {
    var t := Lower(Comedy().Title);
    assert t[..3] == "com";
    assert Lower("Com") == "com";
    assert |Lower(Comedy().Type)| != |Lower("Com")|;
  }

  function Dune(): Movie { Movie("a", "Dune", "2021", "Sci-Fi", "", true, "", "CenterMall") }
  function Her(): Movie { Movie("b", "Her", "2013", "Drama", "", true, "", "Downtown") }

  /** The title criterion ignores case: "dune" finds "Dune". */
  lemma TitleIgnoresCase()
    ensures ApplyFilters([Dune()], NoFilters.(title := "dune")) == [Dune()]
  {
    assert Lower("Dune") == "dune";
    assert Lower("dune") == "dune";
    IncludesSelf("dune");
  }

  /** The type criterion "Sci-Fi" keeps the first of two movies and drops the second. */
  lemma TypeScenario()
    ensures ApplyFilters([Dune(), Her()], NoFilters.(genre := "Sci-Fi")) == [Dune()]
  {
    assert |Lower("Drama")| != |Lower("Sci-Fi")|;
    var s := [Dune(), Her()];
    assert s[1..] == [Her()];
    assert s[1..][1..] == [];
  }

  // ---------------------------------------------------------------------
  // updateFilters / clearFilters

  /** The argument of `updateFilters`: the fields present in the object spread over the old criteria. */
  datatype FilterPatch = FilterPatch(
    title: Option<string>, genre: Option<string>, location: Option<string>, year: Option<string>)

  /** `{ ...prev, ...newFilters }`. */
  function Merge(prev: Filters, patch: FilterPatch): Filters {
    Filters(patch.title.GetOr(prev.title), patch.genre.GetOr(prev.genre),
            patch.location.GetOr(prev.location), patch.year.GetOr(prev.year))
  }

  /** The patch that sets every field: what the search bar sends (its whole local copy). */
  function FullPatch(f: Filters): FilterPatch {
    FilterPatch(Some(f.title), Some(f.genre), Some(f.location), Some(f.year))
  }

  /** The four criterion fields, to speak of "a field" generically. */
  datatype Criterion = TitleField | TypeField | LocationField | YearField

  function Get(f: Filters, c: Criterion): string {
    match c
    case TitleField => f.title
    case TypeField => f.genre
    case LocationField => f.location
    case YearField => f.year
  }

  function Supplied(p: FilterPatch, c: Criterion): Option<string> {
    match c
    case TitleField => p.title
    case TypeField => p.genre
    case LocationField => p.location
    case YearField => p.year
  }

  /** `updateFilters` overwrites exactly the supplied fields and leaves the others as they were. */
  lemma MergeOverwritesExactlySupplied(prev: Filters, patch: FilterPatch, c: Criterion)
    ensures Supplied(patch, c).Some? ==> Get(Merge(prev, patch), c) == Supplied(patch, c).value
    ensures Supplied(patch, c).None? ==> Get(Merge(prev, patch), c) == Get(prev, c)
  {
  }

  /** A patch with every field replaces the criteria outright. */
  lemma MergeFullPatch(prev: Filters, f: Filters)
    ensures Merge(prev, FullPatch(f)) == f
  {
  }

  /** An empty patch changes nothing. */
  lemma MergeEmptyPatch(prev: Filters)
    ensures Merge(prev, FilterPatch(None, None, None, None)) == prev
  {
  }
}
