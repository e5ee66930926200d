/**
 * bot.py: the same inline search and share button, served from a stub that
 * invents two records from whatever name it is given.
 */
module StubBot {
  import opened Wrappers
  import opened Sequences
  import opened Text
  import opened Replies

  /** One invented record. */
  datatype Record = Record(
    title: string,
    posterUrl: string,
    description: string,
    rating: string,
    genre: seq<string>,
    tags: seq<string>,
    releaseYear: int,
    trending: bool,
    trailerLink: string)

  const TrailerSearch := "https://www.youtube.com/results?search_query="

  lemma YearsInDecimal()
    ensures Decimal(2024) == "2024" && Decimal(2019) == "2019"
  {
  }

  /**
   * `fetch_movie_info(name)`: a 2024 record, trending, then a 2019 record,
   * not trending; each title is the name followed by its year, and each
   * trailer link searches for the name, the year and "trailer".
   */
  function FetchMovieInfo(name: string): (r: seq<Record>)
    ensures |r| == 2
    ensures r[0].releaseYear == 2024 && r[1].releaseYear == 2019
    ensures r[0].trending && !r[1].trending
    ensures r[0].title == name + " " + Decimal(r[0].releaseYear)
    ensures r[1].title == name + " " + Decimal(r[1].releaseYear)
    ensures r[0].trailerLink == TrailerSearch + name + "+" + Decimal(r[0].releaseYear) + "+trailer"
    ensures r[1].trailerLink == TrailerSearch + name + "+" + Decimal(r[1].releaseYear) + "+trailer"
  {
    YearsInDecimal();
    [
      Record(
        name + " 2024",
        "https://example.com/kalki_2024.jpg",
        name + " 2024 একটি জনপ্রিয় সিনেমা।",
        "⭐ 8.3",
        ["Action", "Adventure"],
        ["#Action", "#Drama", "#Epic", "#Adventure"],
        2024,
        true,
        TrailerSearch + name + "+2024+trailer"),
      Record(
        name + " 2019",
        "https://example.com/kalki_2019.jpg",
        name + " 2019 একটি জনপ্রিয় সিনেমা।",
        "⭐ 7.8",
        ["Drama"],
        ["#Drama", "#Classic", "#Historical"],
        2019,
        false,
        TrailerSearch + name + "+2019+trailer")
    ]
  }

  /** No record the stub invents for `name` is titled `name`: every title is longer. */
  lemma NoRecordTitledByName(name: string)
    ensures forall k :: 0 <= k < |FetchMovieInfo(name)| ==> |FetchMovieInfo(name)[k].title| > |name|
    ensures forall k :: 0 <= k < |FetchMovieInfo(name)| ==> FetchMovieInfo(name)[k].title != name
  {
    var r := FetchMovieInfo(name);
    assert |r[0].title| == |name| + 5 && |r[1].title| == |name| + 5;
  }

  const TrendingTag := "🔥 Trending"
  const PopularTag := "✨ Popular"

  /** The tag shown beside a title: trending, or popular otherwise. */
  function TrendTag(trending: bool): (tag: string)
    ensures tag == TrendingTag <==> trending
    ensures tag == PopularTag <==> !trending
  {
    if trending then TrendingTag else PopularTag
  }

  /**
   * The result card built for one record in the loop of `inline_query`: it
   * shares the record's own title and shows the record's poster and trailer.
   */
  function CardOf(r: Record): (c: Card)
    ensures c.shareData == Encode(r.title)
    ensures c.photoUrl == r.posterUrl && c.trailerUrl == r.trailerLink
  {
    Card(r.title + " " + TrendTag(r.trending), r.posterUrl, Encode(r.title), r.trailerLink)
  }

  /**
   * `inline_query`: the raw query, neither stripped nor lower-cased; an
   * empty one is not answered, any other gets the stub's two records.
   */
  function InlineQuery(query: string): (a: Answer)
    ensures a.NotAnswered? <==> query == []
    ensures !a.Raised?
    ensures a.Answered? ==>
      |a.cards| == 2 &&
      a.cards[0].title == query + " 2024 " + TrendingTag &&
      a.cards[1].title == query + " 2019 " + PopularTag
  {
    if query == [] then NotAnswered
    else
      var records := FetchMovieInfo(query);
      YearsInDecimal();
      assert records[0].title == query + " 2024" && records[1].title == query + " 2019";
      var first, second := CardOf(records[0]), CardOf(records[1]);
      assert first.title == query + " 2024" + " " + TrendingTag;
      assert second.title == query + " 2019" + " " + PopularTag;
      Answered([first, second])
  }

  /** The share payload of each card decodes back to its record's title when the query has no `'|'`. */
  lemma CardPayloadDecodes(query: string, k: nat)
    requires InlineQuery(query).Answered? && k < |InlineQuery(query).cards|
    requires PayloadSep !in query
    ensures Decode(InlineQuery(query).cards[k].shareData) == Some(FetchMovieInfo(query)[k].title)
  {
    InlineCards(query);
    NoBarInTitles(query);
    DecodeEncode(FetchMovieInfo(query)[k].title);
  }

  /** A non-empty query is answered with the cards of the two invented records. */
  lemma InlineCards(query: string)
    requires query != []
    ensures InlineQuery(query) == Answered([CardOf(FetchMovieInfo(query)[0]), CardOf(FetchMovieInfo(query)[1])])
  {
  }

  /** The invented titles hold a bar only when the name does. */
  lemma NoBarInTitles(name: string)
    requires PayloadSep !in name
    ensures forall k :: 0 <= k < |FetchMovieInfo(name)| ==> PayloadSep !in FetchMovieInfo(name)[k].title
  {
    var r := FetchMovieInfo(name);
    YearsInDecimal();
    assert r[0].title == name + [' '] + "2024";
    assert r[1].title == name + [' '] + "2019";
  }

  /**
   * `post_to_channel`: the decoded title is looked up among the records the
   * stub invents for that very title, so the lookup never succeeds and
   * nothing is ever sent to the channel.
   */
  function PostToChannel(data: string): (o: PostOutcome<Record>)
    ensures o.CallbackRaised? <==> PayloadSep !in data
    ensures !o.Posted? && ChannelSends(o) == 0
  {
    match Decode(data)
    case None => CallbackRaised
    case Some(title) =>
      NoRecordTitledByName(title);
      match FirstSuch(FetchMovieInfo(title), (r: Record) => r.title == title)
      case None => NotFound
      case Some(r) => Posted(r)
  }

  /** Pressing "Share to Channel" on any card the bot offers ends in "not found". */
  lemma ShareNeverPosts(query: string, k: nat)
    requires InlineQuery(query).Answered? && k < |InlineQuery(query).cards|
    ensures PostToChannel(InlineQuery(query).cards[k].shareData) == NotFound
    ensures UserReply(PostToChannel(InlineQuery(query).cards[k].shareData)) == Some(NotFoundReply)
  {
    var data := InlineQuery(query).cards[k].shareData;
    DecodeAccepted(data);
  }
}
