/**
 * The movie catalog of main.py and its filter `fetch_movie_info`: one pass
 * over the catalog that keeps, in catalog order, every movie satisfying at
 * least one of the predicates whose keyword argument was given.
 */
module Catalog {
  import opened Wrappers
  import opened Sequences
  import opened Text

  /**
   * One catalog entry. Keys read with `.get` (`top_rated`, `comedy`,
   * `year_best`) default to false / None when the entry leaves them out.
   */
  datatype Movie = Movie(
    title: string,
    posterUrl: string,
    description: string,
    rating: string,
    genre: seq<string>,
    tags: seq<string>,
    releaseYear: int,
    source: string,
    trending: bool,
    newRelease: bool,
    topRated: bool,
    comedy: bool,
    yearBest: Option<int>,
    trailerLink: string)

  /** The keyword arguments of `fetch_movie_info`. */
  datatype Filter = Filter(
    movieName: Option<string>,
    genre: Option<string>,
    trending: bool,
    newRelease: bool,
    topRated: bool,
    yearBest: Option<int>,
    comedy: bool)

  /** Every argument at its default: None or False. */
  const NoFilter := Filter(None, None, false, false, false, None, false)

  /** Python truthiness of an optional string: present and non-empty. */
  predicate Given(s: Option<string>) {
    s.Some? && s.value != []
  }

  /** Some keyword argument is truthy: a non-empty string, True, or a non-zero year. */
  predicate AnyGiven(f: Filter) {
    Given(f.movieName) || Given(f.genre) || f.trending || f.newRelease || f.topRated ||
    (f.yearBest.Some? && f.yearBest.value != 0) || f.comedy
  }

  /**
   * The condition of the `if` in the loop of `fetch_movie_info`. Each
   * disjunct is guarded by its argument, so with every argument falsy no
   * entry matches.
   */
  predicate Matches(m: Movie, f: Filter)
    ensures Matches(m, f) ==> AnyGiven(f)
    ensures f == NoFilter ==> !Matches(m, f)
  {
    || (Given(f.movieName) && IsSubstring(Lower(f.movieName.value), Lower(m.title)))
    || (Given(f.genre) && f.genre.value in m.genre)
    || (f.trending && m.trending)
    || (f.newRelease && m.newRelease)
    || (f.topRated && m.topRated)
    || (f.yearBest.Some? && f.yearBest.value != 0 && m.yearBest == f.yearBest)
    || (f.comedy && m.comedy)
  }

  /** The list `fetch_movie_info` returns, defined on the catalog read so far. */
  function Filtered(catalog: seq<Movie>, f: Filter): (r: seq<Movie>)
    ensures |r| <= |catalog|
    ensures forall k :: 0 <= k < |r| ==> r[k] in catalog && Matches(r[k], f)
  {
    if catalog == [] then []
    else
      var last := catalog[|catalog| - 1];
      Filtered(catalog[..|catalog| - 1], f) + (if Matches(last, f) then [last] else [])
  }

  /** `fetch_movie_info`: append each matching movie to `results`, in order. */
  method FetchMovieInfo(catalog: seq<Movie>, f: Filter) returns (results: seq<Movie>)
    ensures results == Filtered(catalog, f)
  {
    results := [];
    for i := 0 to |catalog|
      invariant results == Filtered(catalog[..i], f)
    {
      assert catalog[..i + 1][..i] == catalog[..i];
      if Matches(catalog[i], f) {
        results := results + [catalog[i]];
      }
    }
    assert catalog[..|catalog|] == catalog;
  }

  /** The positions of the matching entries, in increasing order. */
  function MatchingPositions(catalog: seq<Movie>, f: Filter): (ps: seq<nat>)
    ensures forall k :: 0 <= k < |ps| ==> ps[k] < |catalog| && Matches(catalog[ps[k]], f)
    ensures forall k, l :: 0 <= k < l < |ps| ==> ps[k] < ps[l]
    ensures forall i :: 0 <= i < |catalog| && Matches(catalog[i], f) ==> i in ps
  {
    if catalog == [] then []
    else
      var n := |catalog| - 1;
      MatchingPositions(catalog[..n], f) + (if Matches(catalog[n], f) then [n] else [])
  }

  /**
   * The result is the catalog restricted to the matching positions: an
   * order-preserving subsequence in which no entry is repeated or moved.
   */
  lemma {:induction false} FilteredIsSelection(catalog: seq<Movie>, f: Filter)
    ensures |Filtered(catalog, f)| == |MatchingPositions(catalog, f)|
    ensures forall k :: 0 <= k < |Filtered(catalog, f)| ==>
      Filtered(catalog, f)[k] == catalog[MatchingPositions(catalog, f)[k]]
  {
    if catalog != [] {
      var n := |catalog| - 1;
      var front := catalog[..n];
      FilteredIsSelection(front, f);
      var rs, ps := Filtered(front, f), MatchingPositions(front, f);
      var tail := if Matches(catalog[n], f) then [catalog[n]] else [];
      assert Filtered(catalog, f) == rs + tail;
      assert MatchingPositions(catalog, f) == ps + (if Matches(catalog[n], f) then [n] else []);
      forall k | 0 <= k < |rs|
        ensures Filtered(catalog, f)[k] == catalog[MatchingPositions(catalog, f)[k]]
      {
        assert front[ps[k]] == catalog[ps[k]];
      }
    }
  }

  /** An entry is in the result exactly when it is in the catalog and matches. */
  lemma {:induction false} FilteredMembers(catalog: seq<Movie>, f: Filter, m: Movie)
    ensures m in Filtered(catalog, f) <==> m in catalog && Matches(m, f)
  {
    if catalog != [] {
      var n := |catalog| - 1;
      FilteredMembers(catalog[..n], f, m);
      assert catalog == catalog[..n] + [catalog[n]];
    }
  }

  /**
   * With only `movie_name` given, an entry is kept exactly when the lowered
   * name occurs in the lowered title; an empty name keeps nothing.
   */
  lemma NameOnly(catalog: seq<Movie>, name: string, m: Movie)
    ensures m in Filtered(catalog, NoFilter.(movieName := Some(name))) <==>
      m in catalog && name != [] && IsSubstring(Lower(name), Lower(m.title))
  {
    FilteredMembers(catalog, NoFilter.(movieName := Some(name)), m);
  }

  /** With only a boolean flag given, an entry is kept exactly when its own flag is set. */
  lemma FlagOnly(catalog: seq<Movie>, m: Movie)
    ensures m in Filtered(catalog, NoFilter.(trending := true)) <==> m in catalog && m.trending
    ensures m in Filtered(catalog, NoFilter.(newRelease := true)) <==> m in catalog && m.newRelease
    ensures m in Filtered(catalog, NoFilter.(topRated := true)) <==> m in catalog && m.topRated
    ensures m in Filtered(catalog, NoFilter.(comedy := true)) <==> m in catalog && m.comedy
  {
    FilteredMembers(catalog, NoFilter.(trending := true), m);
    FilteredMembers(catalog, NoFilter.(newRelease := true), m);
    FilteredMembers(catalog, NoFilter.(topRated := true), m);
    FilteredMembers(catalog, NoFilter.(comedy := true), m);
  }

  /**
   * With only `genre` given, an entry is kept exactly when the label is one
   * of its genres, compared case-sensitively; an empty label keeps nothing.
   */
  lemma GenreOnly(catalog: seq<Movie>, g: string, m: Movie)
    ensures m in Filtered(catalog, NoFilter.(genre := Some(g))) <==>
      m in catalog && g != [] && g in m.genre
  {
    FilteredMembers(catalog, NoFilter.(genre := Some(g)), m);
  }

  /** With only `year_best` given, entries with that year are kept, and none for year 0. */
  lemma YearOnly(catalog: seq<Movie>, year: int, m: Movie)
    ensures m in Filtered(catalog, NoFilter.(yearBest := Some(year))) <==>
      m in catalog && year != 0 && m.yearBest == Some(year)
  {
    FilteredMembers(catalog, NoFilter.(yearBest := Some(year)), m);
  }

  /**
   * `next((m for m in MOVIE_DATABASE if m["title"] == title), None)`: the
   * first entry carrying exactly that title.
   */
  function FindByTitle(catalog: seq<Movie>, title: string): (r: Option<Movie>)
    ensures r.None? <==> forall m :: m in catalog ==> m.title != title
    ensures r.Some? ==> r.value in catalog && r.value.title == title
    ensures r.Some? ==>
      exists i :: 0 <= i < |catalog| && catalog[i] == r.value &&
        forall j :: 0 <= j < i ==> catalog[j].title != title
  {
    FirstSuch(catalog, (m: Movie) => m.title == title)
  }
}
