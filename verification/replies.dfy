/**
 * What the bot hands back to Telegram, reduced to values: the "Share to
 * Channel" callback payload, the inline result cards, whether an inline
 * query is answered, and what a button press sends to the channel.
 */
module Replies {
  import opened Wrappers
  import opened Sequences
  import opened Text

  const PostAction := "post"
  const PayloadSep := '|'

  /** The callback data of the "Share to Channel" button: `f"post|{title}"`. */
  function Encode(title: string): (data: string)
    ensures StartsWith(data, PostAction + [PayloadSep])
  {
    PostAction + [PayloadSep] + title
  }

  /**
   * `data.split('|')[1]`: the text between the first and the second `'|'`
   * (or the end). None stands for the IndexError raised when `data` holds
   * no `'|'` at all.
   */
  function Decode(data: string): (r: Option<string>)
    ensures r.None? <==> PayloadSep !in data
    ensures r.Some? ==> PayloadSep !in r.value
  {
    var parts := Split(data, PayloadSep);
    if |parts| < 2 then None else Some(parts[1])
  }

  /**
   * Decoding the button payload of `title` gives `title` back exactly when
   * it holds no `'|'`, and otherwise only the part before its first `'|'`.
   */
  lemma DecodeEncode(title: string)
    ensures Decode(Encode(title)).Some?
    ensures PayloadSep !in title ==> Decode(Encode(title)) == Some(title)
    ensures PayloadSep in title ==> Decode(Encode(title)) == Some(title[..FirstIndex(title, PayloadSep).value])
    ensures Decode(Encode(title)) == Some(title) <==> PayloadSep !in title
  {
    var data := Encode(title);
    assert data[4] == PayloadSep && data[..4] == PostAction;
    FirstIndexAt(data, PayloadSep, 4);
    assert data[5..] == title;
    var tail := Split(title, PayloadSep);
    assert Split(data, PayloadSep) == [PostAction] + tail;
    match FirstIndex(title, PayloadSep)
    case None =>
    case Some(i) =>
      assert title[..i] == tail[0];
  }

  /** A payload accepted by the handler's `^post\|` pattern always decodes. */
  lemma DecodeAccepted(data: string)
    requires StartsWith(data, PostAction + [PayloadSep])
    ensures Decode(data).Some?
  {
    assert data[4] == PayloadSep;
  }

  /**
   * One inline result (an `InlineQueryResultPhoto`): its display title (the
   * movie title, a space and the trending tag), the poster, the callback
   * data of its share button and the trailer link of its second button.
   */
  datatype Card = Card(title: string, photoUrl: string, shareData: string, trailerUrl: string)

  /** The outcome of an inline query: no answer, an exception, or the cards. */
  datatype Answer = NotAnswered | Raised(token: string) | Answered(cards: seq<Card>)

  /**
   * The outcome of pressing "Share to Channel": an IndexError while decoding,
   * a "not found" reply, or a photo sent to the channel and an acknowledgement.
   */
  datatype PostOutcome<M> = CallbackRaised | NotFound | Posted(movie: M)

  const NotFoundReply := "⚠️ Movie information not found."
  const PostedReply := "✅ Successfully posted to channel!"

  /** The number of messages the outcome sends to the channel. */
  function ChannelSends<M>(o: PostOutcome<M>): (n: nat)
    ensures n <= 1 && (n == 1 <==> o.Posted?)
  {
    if o.Posted? then 1 else 0
  }

  /** The reply the pressing user sees, if any (`query.answer(...)`). */
  function UserReply<M>(o: PostOutcome<M>): (r: Option<string>)
    ensures r.None? <==> o.CallbackRaised?
  {
    match o
    case CallbackRaised => None
    case NotFound => Some(NotFoundReply)
    case Posted(_) => Some(PostedReply)
  }
}
