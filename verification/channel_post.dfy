/**
 * The "Share to Channel" handler of main.py: decode the title from the
 * callback data, take the first catalog entry with exactly that title, and
 * either post its card to the channel or answer "not found".
 */
module ChannelPost {
  import opened Wrappers
  import opened Sequences
  import opened Text
  import opened Replies
  import opened Catalog
  import opened InlineSearch

  /** `post_to_channel` over the catalog, for the button payload `data`. */
  function PostToChannel(catalog: seq<Movie>, data: string): (o: PostOutcome<Movie>)
    ensures o.CallbackRaised? <==> PayloadSep !in data
    ensures o.NotFound? ==> Decode(data).Some? && forall m :: m in catalog ==> m.title != Decode(data).value
    ensures o.Posted? ==> o.movie in catalog && Decode(data) == Some(o.movie.title)
    ensures o.Posted? ==>
      exists i :: 0 <= i < |catalog| && catalog[i] == o.movie &&
        forall j :: 0 <= j < i ==> catalog[j].title != o.movie.title
  {
    match Decode(data)
    case None => CallbackRaised
    case Some(title) =>
      match FindByTitle(catalog, title)
      case None => NotFound
      case Some(m) => Posted(m)
  }

  /**
   * Sharing a title without `'|'` that the catalog holds sends one card, of
   * an entry with that title, and acknowledges; one it does not hold sends
   * nothing and answers "not found".
   */
  lemma ShareByTitle(catalog: seq<Movie>, title: string)
    requires PayloadSep !in title
    ensures var o := PostToChannel(catalog, Encode(title));
      (exists m :: m in catalog && m.title == title) ==>
        o.Posted? && o.movie.title == title && ChannelSends(o) == 1 && UserReply(o) == Some(PostedReply)
    ensures var o := PostToChannel(catalog, Encode(title));
      (forall m :: m in catalog ==> m.title != title) ==>
        o == NotFound && ChannelSends(o) == 0 && UserReply(o) == Some(NotFoundReply)
  {
    DecodeEncode(title);
  }

  /**
   * A title holding `'|'` never reaches the channel through its own button:
   * the handler looks up only the part before the first `'|'`.
   */
  lemma SharePipeTitle(catalog: seq<Movie>, title: string)
    requires PayloadSep in title
    ensures var o := PostToChannel(catalog, Encode(title));
      o.Posted? ==> o.movie.title != title && o.movie.title == title[..FirstIndex(title, PayloadSep).value]
  {
    DecodeEncode(title);
  }

  /**
   * Every card of an answered inline query whose title has no `'|'` shares
   * successfully: the handler posts the first catalog entry with that title.
   */
  lemma ShareFromInlineResult(catalog: seq<Movie>, raw: string, k: nat)
    requires Search(catalog, raw).Found? && k < |Search(catalog, raw).movies|
    requires PayloadSep !in Search(catalog, raw).movies[k].title
    ensures Respond(catalog, raw).Answered? && k < |Respond(catalog, raw).cards|
    ensures var o := PostToChannel(catalog, Respond(catalog, raw).cards[k].shareData);
      o.Posted? && o.movie.title == Search(catalog, raw).movies[k].title
  {
    var movies := Search(catalog, raw).movies;
    var f := PlanOf(Dispatch(Normalize(raw))).filter;
    assert movies == Filtered(catalog, f);
    FilteredMembers(catalog, f, movies[k]);
    CardsShareTitles(movies, k);
    ShareByTitle(catalog, movies[k].title);
  }
}
