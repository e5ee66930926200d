/**
 * The inline-query handler of main.py: the query text is stripped and
 * lower-cased, classified by a fixed priority (the keywords `new`,
 * `trending`, `top rated`, `comedy`; then the prefix `best of`; then the
 * prefix `genre:`; otherwise a title search), turned into one keyword
 * argument of `fetch_movie_info`, and the matches become result cards.
 */
module InlineSearch {
  import opened Wrappers
  import opened Sequences
  import opened Text
  import opened Replies
  import opened Catalog

  /** `query.strip().lower()`. */
  function Normalize(raw: string): (q: string)
    ensures IsLower(q) && |q| <= |raw|
    ensures q == [] || (!IsSpace(q[0]) && !IsSpace(q[|q| - 1]))
  {
    Lower(Strip(raw))
  }

  const BestOfPrefix := "best of"
  const GenrePrefix := "genre:"

  predicate IsKeyword(q: string) {
    q == "new" || q == "trending" || q == "top rated" || q == "comedy"
  }

  /** The branch of the `if`/`elif` chain a query takes. */
  datatype Query =
    | Blank
    | NewReleases
    | Trending
    | TopRated
    | Comedy
    | BestOf(yearToken: string)
    | Genre(value: string)
    | Title(name: string)

  predicate IsKeywordQuery(r: Query) {
    r.NewReleases? || r.Trending? || r.TopRated? || r.Comedy?
  }

  /** No keyword starts with a prefix, and no query starts with both prefixes. */
  lemma TestsDisjoint(q: string)
    ensures IsKeyword(q) ==> !StartsWith(q, BestOfPrefix) && !StartsWith(q, GenrePrefix)
    ensures StartsWith(q, BestOfPrefix) ==> !StartsWith(q, GenrePrefix)
  {
    if StartsWith(q, BestOfPrefix) {
      assert q[0] == 'b';
    }
    if StartsWith(q, GenrePrefix) {
      assert q[0] == 'g';
    }
  }

  /** `query.split(":", 1)[1].strip()` for a query starting with `genre:`. */
  function GenreValue(q: string): (g: string)
    requires StartsWith(q, GenrePrefix)
    ensures g == Strip(q[|GenrePrefix|..])
    ensures IsLower(q) ==> IsLower(g)
  {
    assert q[5] == ':' && ':' !in q[..5] by {
      assert q[..5] == "genre";
    }
    FirstIndexAt(q, ':', 5);
    var tail := q[FirstIndex(q, ':').value + 1..];
    assert IsLower(q) ==> IsLower(tail);
    Strip(tail)
  }

  /**
   * The `if`/`elif` chain of `inline_query` on the normalized query. The
   * ensures clauses state the priority: each branch is taken exactly when
   * no earlier test succeeded.
   */
  function Dispatch(q: string): (r: Query)
    ensures r.Blank? <==> q == []
    ensures IsKeywordQuery(r) <==> IsKeyword(q)
    ensures r.BestOf? <==> !IsKeyword(q) && StartsWith(q, BestOfPrefix)
    ensures r.Genre? <==> !IsKeyword(q) && !StartsWith(q, BestOfPrefix) && StartsWith(q, GenrePrefix)
    ensures r.Title? <==>
      q != [] && !IsKeyword(q) && !StartsWith(q, BestOfPrefix) && !StartsWith(q, GenrePrefix)
    ensures r.BestOf? ==> r.yearToken == LastPiece(q, ' ')
    ensures r.Genre? ==> r.value == Strip(q[|GenrePrefix|..]) && (IsLower(q) ==> IsLower(r.value))
    ensures r.Title? ==> r.name == q
  {
    TestsDisjoint(q);
    if q == [] then Blank
    else if q == "new" then NewReleases
    else if q == "trending" then Trending
    else if q == "top rated" then TopRated
    else if q == "comedy" then Comedy
    else if StartsWith(q, BestOfPrefix) then BestOf(LastPiece(q, ' '))
    else if StartsWith(q, GenrePrefix) then Genre(GenreValue(q))
    else Title(q)
  }

  /** What the handler does next: return, raise, or call `fetch_movie_info`. */
  datatype Plan = Ignore | Raise(token: string) | Fetch(filter: Filter)

  /** How many keyword arguments of `fetch_movie_info` differ from their defaults. */
  function ArgumentsSet(f: Filter): nat {
    (if f.movieName.Some? then 1 else 0) + (if f.genre.Some? then 1 else 0) +
    (if f.trending then 1 else 0) + (if f.newRelease then 1 else 0) + (if f.topRated then 1 else 0) +
    (if f.yearBest.Some? then 1 else 0) + (if f.comedy then 1 else 0)
  }

  /**
   * The keyword argument each branch passes to `fetch_movie_info`: a blank
   * query returns, a `best of` query whose year does not parse raises, and
   * every other branch passes exactly one argument.
   */
  function PlanOf(r: Query): (p: Plan)
    ensures p.Ignore? <==> r.Blank?
    ensures p.Raise? <==> r.BestOf? && ParseInt(r.yearToken).None?
    ensures p.Raise? ==> p.token == r.yearToken
    ensures p.Fetch? ==> ArgumentsSet(p.filter) == 1
  {
    match r
    case Blank => Ignore
    case NewReleases => Fetch(NoFilter.(newRelease := true))
    case Trending => Fetch(NoFilter.(trending := true))
    case TopRated => Fetch(NoFilter.(topRated := true))
    case Comedy => Fetch(NoFilter.(comedy := true))
    case BestOf(token) =>
      // `int(query.split(" ")[-1])`
      (match ParseInt(token)
       case None => Raise(token)
       case Some(year) => Fetch(NoFilter.(yearBest := Some(year))))
    case Genre(g) => Fetch(NoFilter.(genre := Some(g)))
    case Title(name) => Fetch(NoFilter.(movieName := Some(name)))
  }

  /** The movies an inline query selects, or why it selects none. */
  datatype SearchOutcome = NoAnswer | YearNotInteger(token: string) | Found(movies: seq<Movie>)

  /** The outcome of a classified query over the catalog. */
  function Select(catalog: seq<Movie>, r: Query): (o: SearchOutcome)
    ensures o.NoAnswer? <==> r.Blank?
    ensures o.YearNotInteger? <==> r.BestOf? && ParseInt(r.yearToken).None?
    ensures o.YearNotInteger? ==> o.token == r.yearToken
    ensures o.Found? ==> |o.movies| <= |catalog|
    ensures o.Found? ==> forall k :: 0 <= k < |o.movies| ==> o.movies[k] in catalog
  {
    match PlanOf(r)
    case Ignore => NoAnswer
    case Raise(token) => YearNotInteger(token)
    case Fetch(f) => Found(Filtered(catalog, f))
  }

  /** The outcome of an inline query with text `raw`. */
  function Search(catalog: seq<Movie>, raw: string): (o: SearchOutcome)
    ensures o.NoAnswer? <==> Normalize(raw) == []
    ensures o.Found? ==> forall k :: 0 <= k < |o.movies| ==> o.movies[k] in catalog
  {
    Select(catalog, Dispatch(Normalize(raw)))
  }

  const TrendingTag := "🔥 #Trending"
  const PopularTag := "✨ #Popular"

  /** The tag shown beside a title: trending, or popular otherwise. */
  function TrendTag(trending: bool): (tag: string)
    ensures tag == TrendingTag <==> trending
    ensures tag == PopularTag <==> !trending
  {
    if trending then TrendingTag else PopularTag
  }

  /**
   * The result card built for one movie in the loop of `inline_query`: its share
   * payload decodes back to the movie's title when that holds no bar.
   */
  function CardOf(m: Movie): (c: Card)
    ensures PayloadSep !in m.title ==> Decode(c.shareData) == Some(m.title)
    ensures c.photoUrl == m.posterUrl && c.trailerUrl == m.trailerLink
  {
    DecodeEncode(m.title);
    Card(m.title + " " + TrendTag(m.trending), m.posterUrl, Encode(m.title), m.trailerLink)
  }

  /** One card per movie, in order, each sharing its own movie's title. */
  function CardsOf(movies: seq<Movie>): (cards: seq<Card>)
    ensures |cards| == |movies|
    ensures forall k :: 0 <= k < |movies| && PayloadSep !in movies[k].title ==>
      Decode(cards[k].shareData) == Some(movies[k].title)
  {
    seq(|movies|, k requires 0 <= k < |movies| => CardOf(movies[k]))
  }

  /** What the handler hands to `inline_query.answer`, if it answers. */
  function Respond(catalog: seq<Movie>, raw: string): (a: Answer)
    ensures a.NotAnswered? <==> Normalize(raw) == []
    ensures a.Raised? <==> Dispatch(Normalize(raw)).BestOf? && ParseInt(LastPiece(Normalize(raw), ' ')).None?
    ensures a.Answered? ==> |a.cards| <= |catalog|
  {
    match Search(catalog, raw)
    case NoAnswer => NotAnswered
    case YearNotInteger(token) => Raised(token)
    case Found(movies) =>
      Answered(CardsOf(movies))
  }

  /** The loop of `inline_query`: one card per movie, in order. */
  method BuildCards(movies: seq<Movie>) returns (cards: seq<Card>)
    ensures cards == CardsOf(movies)
  {
    cards := [];
    for i := 0 to |movies|
      invariant |cards| == i
      invariant forall k :: 0 <= k < i ==> cards[k] == CardOf(movies[k])
    {
      cards := cards + [CardOf(movies[i])];
    }
  }

  /** `inline_query`. */
  method InlineQuery(catalog: seq<Movie>, raw: string) returns (a: Answer)
    ensures a == Respond(catalog, raw)
  {
    match PlanOf(Dispatch(Normalize(raw)))
    case Ignore =>
      a := NotAnswered;
    case Raise(token) =>
      a := Raised(token);
    case Fetch(f) =>
      var movies := FetchMovieInfo(catalog, f);
      var cards := BuildCards(movies);
      a := Answered(cards);
  }

  /** Each card carries the share payload of its movie, decoding back to the title when it has no `'|'`. */
  lemma CardsShareTitles(movies: seq<Movie>, k: nat)
    requires k < |movies|
    ensures |CardsOf(movies)| == |movies|
    ensures CardsOf(movies)[k].shareData == Encode(movies[k].title)
    ensures PayloadSep !in movies[k].title ==> Decode(CardsOf(movies)[k].shareData) == Some(movies[k].title)
    ensures CardsOf(movies)[k].title == movies[k].title + " " + (if movies[k].trending then TrendingTag else PopularTag)
  {
    DecodeEncode(movies[k].title);
  }

  /** The four keywords select exactly the entries carrying the corresponding flag. */
  lemma KeywordQueries(catalog: seq<Movie>, q: string, m: Movie)
    requires IsKeyword(q)
    ensures Select(catalog, Dispatch(q)).Found?
    ensures q == "new" ==> (m in Select(catalog, Dispatch(q)).movies <==> m in catalog && m.newRelease)
    ensures q == "trending" ==> (m in Select(catalog, Dispatch(q)).movies <==> m in catalog && m.trending)
    ensures q == "top rated" ==> (m in Select(catalog, Dispatch(q)).movies <==> m in catalog && m.topRated)
    ensures q == "comedy" ==> (m in Select(catalog, Dispatch(q)).movies <==> m in catalog && m.comedy)
  {
    FlagOnly(catalog, m);
  }

  /**
   * A `best of` query takes the text after its last space as the year: when
   * that is not a decimal number the handler raises, otherwise it selects
   * the entries whose best-of year equals it, and none at all for year 0.
   */
  lemma BestOfQuery(catalog: seq<Movie>, q: string, m: Movie)
    requires StartsWith(q, BestOfPrefix)
    ensures ParseInt(LastPiece(q, ' ')).None? ==> Select(catalog, Dispatch(q)) == YearNotInteger(LastPiece(q, ' '))
    ensures ParseInt(LastPiece(q, ' ')).Some? ==>
      var year := ParseInt(LastPiece(q, ' ')).value;
      Select(catalog, Dispatch(q)).Found? &&
      (m in Select(catalog, Dispatch(q)).movies <==> m in catalog && year != 0 && m.yearBest == Some(year))
  {
    TestsDisjoint(q);
    match ParseInt(LastPiece(q, ' '))
    case None =>
    case Some(year) => YearOnly(catalog, year, m);
  }

  /** The last space-separated token of `best of` is `of`, which is not a number. */
  lemma BareBestOfToken()
    ensures LastPiece(BestOfPrefix, ' ') == "of"
    ensures ParseInt("of").None?
  {
    assert BestOfPrefix == "best" + [' '] + "of";
    LastPieceAfterSep("best", ' ', "of");
    assert !IsDigit("of"[0]);
  }

  lemma BareBestOfDispatch(q: string)
    requires q == BestOfPrefix
    ensures Dispatch(q) == BestOf("of")
  {
    BareBestOfToken();
    assert StartsWith(q, BestOfPrefix);
    TestsDisjoint(q);
  }

  /** The bare query `best of` raises: its last token is `of`. */
  lemma BareBestOfRaises(catalog: seq<Movie>, raw: string)
    requires Normalize(raw) == BestOfPrefix
    ensures Search(catalog, raw) == YearNotInteger("of")
    ensures Respond(catalog, raw) == Raised("of")
  {
    BareBestOfDispatch(Normalize(raw));
    BareBestOfToken();
  }

  /** The query `best of <year>` is already normalized. */
  lemma BestOfYearNormalized(year: nat)
    ensures Normalize(BestOfPrefix + " " + Decimal(year)) == BestOfPrefix + " " + Decimal(year)
  {
    var digits := Decimal(year);
    var raw := BestOfPrefix + " " + digits;
    assert IsLower(raw) by {
      forall k | 0 <= k < |raw| ensures !IsUpper(raw[k]) {
        if k >= |BestOfPrefix| + 1 {
          assert raw[k] == digits[k - |BestOfPrefix| - 1];
        }
      }
    }
    assert !IsSpace(raw[|raw| - 1]) by {
      assert raw[|raw| - 1] == digits[|digits| - 1];
    }
  }

  /** The last token of `best of <year>` is the year. */
  lemma BestOfYearToken(year: nat)
    ensures StartsWith(BestOfPrefix + " " + Decimal(year), BestOfPrefix)
    ensures LastPiece(BestOfPrefix + " " + Decimal(year), ' ') == Decimal(year)
  {
    var digits := Decimal(year);
    var raw := BestOfPrefix + " " + digits;
    assert raw == BestOfPrefix + [' '] + digits;
    assert raw[..|BestOfPrefix|] == BestOfPrefix;
    assert ' ' !in digits by {
      forall k | 0 <= k < |digits| ensures digits[k] != ' ' {
        assert IsDigit(digits[k]);
      }
    }
    LastPieceAfterSep(BestOfPrefix, ' ', digits);
  }

  /** `best of <year>` selects exactly the entries whose best-of year is that year. */
  lemma BestOfYear(catalog: seq<Movie>, year: nat, m: Movie)
    ensures Search(catalog, BestOfPrefix + " " + Decimal(year)).Found?
    ensures m in Search(catalog, BestOfPrefix + " " + Decimal(year)).movies <==>
      m in catalog && year != 0 && m.yearBest == Some(year)
  {
    BestOfYearNormalized(year);
    BestOfYearToken(year);
    ParseDecimal(year);
    BestOfQuery(catalog, BestOfPrefix + " " + Decimal(year), m);
  }

  /**
   * A `genre:` query compares the stripped, lower-cased text after the
   * colon with each genre label, case-sensitively; an empty value keeps
   * nothing.
   */
  lemma GenreQuery(catalog: seq<Movie>, raw: string, m: Movie)
    requires StartsWith(Normalize(raw), GenrePrefix)
    ensures Search(catalog, raw).Found?
    ensures
      var g := Strip(Normalize(raw)[|GenrePrefix|..]);
      IsLower(g) &&
      (m in Search(catalog, raw).movies <==> m in catalog && g != [] && g in m.genre)
  {
    var q := Normalize(raw);
    TestsDisjoint(q);
    GenreOnly(catalog, Strip(q[|GenrePrefix|..]), m);
  }

  /** Because the query is lower-cased, a `genre:` query never selects an entry whose every label has a capital. */
  lemma GenreMissesCapitalisedLabels(catalog: seq<Movie>, raw: string, m: Movie)
    requires StartsWith(Normalize(raw), GenrePrefix)
    requires forall k :: 0 <= k < |m.genre| ==> !IsLower(m.genre[k])
    ensures Search(catalog, raw).Found?
    ensures m !in Search(catalog, raw).movies
  {
    GenreQuery(catalog, raw, m);
  }

  /**
   * Any other non-blank query is a title search: an entry is selected
   * exactly when the normalized query occurs in its lower-cased title.
   */
  lemma TitleQuery(catalog: seq<Movie>, q: string, m: Movie)
    requires Dispatch(q).Title? && IsLower(q)
    ensures Select(catalog, Dispatch(q)).Found?
    ensures m in Select(catalog, Dispatch(q)).movies <==> m in catalog && IsSubstring(q, Lower(m.title))
  {
    NameOnly(catalog, q, m);
  }

  /** Text with no whitespace at either end normalizes to its lower-casing. */
  lemma TrimmedNormalizes(s: string)
    requires s != [] && !IsSpace(s[0]) && !IsSpace(s[|s| - 1])
    ensures Normalize(s) == Lower(s)
  {
    assert Strip(s) == s;
  }

  /** The lower-cased piece `t[i..j]` occurs in the lower-cased `t`. */
  lemma LoweredSliceOccurs(t: string, i: nat, j: nat)
    requires i <= j <= |t|
    ensures IsSubstring(Lower(t[i..j]), Lower(t))
  {
    LowerSlice(t, i, j);
    assert OccursAt(Lower(t[i..j]), Lower(t), i);
  }

  /**
   * Typing a piece of a catalog title, in any mix of cases (without
   * surrounding whitespace, and not a keyword or prefix query once
   * lower-cased), finds that entry.
   */
  lemma TitleSliceFindsEntry(catalog: seq<Movie>, m: Movie, i: nat, j: nat, raw: string)
    requires m in catalog && i < j <= |m.title|
    requires !IsSpace(m.title[i]) && !IsSpace(m.title[j - 1])
    requires Lower(raw) == Lower(m.title[i..j])
    requires !IsKeyword(Lower(raw))
    requires !StartsWith(Lower(raw), BestOfPrefix) && !StartsWith(Lower(raw), GenrePrefix)
    ensures Search(catalog, raw).Found?
    ensures m in Search(catalog, raw).movies
  {
    assert !IsSpace(raw[0]) && !IsSpace(raw[|raw| - 1]);
    TrimmedNormalizes(raw);
    LoweredSliceOccurs(m.title, i, j);
    TitleQuery(catalog, Lower(raw), m);
  }

  /** An entry with no flags and no best-of year, titled `title`. */
  function PlainMovie(title: string, genre: seq<string>): Movie {
    Movie(title, "", "", "", genre, [], 0, "", false, false, false, false, None, "")
  }

  /**
   * Keywords win over title search: typing `New`, a piece of the title
   * `New Moon`, returns nothing when that entry is not a new release.
   */
  lemma KeywordShadowsTitle()
    ensures Search([PlainMovie("New Moon", [])], "New") == Found([])
  {
    var raw := "New";
    assert !IsSpace(raw[0]) && !IsSpace(raw[2]);
    assert Strip(raw) == raw;
    assert Lower(raw) == "new" by {
      assert LowerChar('N') == 'n';
    }
    var c := [PlainMovie("New Moon", [])];
    var r := Search(c, raw).movies;
    if r != [] {
      KeywordQueries(c, "new", r[0]);
    }
  }

  /** `genre:Action` normalizes to a `genre:` query. */
  lemma GenreActionText()
    ensures StartsWith(Normalize("genre:Action"), GenrePrefix)
  {
    var raw := "genre:Action";
    assert !IsSpace(raw[0]) && !IsSpace(raw[|raw| - 1]);
    assert Strip(raw) == raw;
    var q := Normalize(raw);
    assert q[..6] == Lower(raw[..6]) == GenrePrefix;
  }

  /** Over a catalog whose genre labels all carry a capital, every `genre:` query finds nothing. */
  lemma GenreQueryOverCapitalisedCatalog(catalog: seq<Movie>, raw: string)
    requires StartsWith(Normalize(raw), GenrePrefix)
    requires forall i, k :: 0 <= i < |catalog| && 0 <= k < |catalog[i].genre| ==> !IsLower(catalog[i].genre[k])
    ensures Search(catalog, raw) == Found([])
  {
    GenreQuery(catalog, raw, PlainMovie("", []));
    var r := Search(catalog, raw).movies;
    if r != [] {
      GenreQuery(catalog, raw, r[0]);
    }
  }

  /** `genre:Action` finds nothing under the label `Action`: the query is lower-cased first. */
  lemma CapitalisedGenreNotFound()
    ensures Search([PlainMovie("Kalki", ["Action"])], "genre:Action") == Found([])
  {
    GenreActionText();
    assert !IsLower("Action") by { assert IsUpper("Action"[0]); }
    GenreQueryOverCapitalisedCatalog([PlainMovie("Kalki", ["Action"])], "genre:Action");
  }
}
