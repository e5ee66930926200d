# Movie search and share bot — Dafny model

A model of the movie search and lookup logic of a Telegram inline-query bot.
The repository holds two versions of the bot:

- `main.py`, the catalog version. An inline query is stripped and
  lower-cased, then classified by a fixed priority: the keywords `new`,
  `trending`, `top rated` and `comedy`; then the prefix `best of <year>`;
  then the prefix `genre:<label>`; anything else is a title search. The
  query becomes one keyword argument of `fetch_movie_info`, a linear
  filter over the movie catalog. Each match becomes a result card with a
  "Share to Channel" button whose callback data is `post|<title>`.
  Pressing the button decodes the title with `split('|')[1]`, looks up
  the first catalog entry with exactly that title, and either posts it
  to the channel or answers "not found".
- `bot.py`, the stub version. `fetch_movie_info(name)` invents two records
  titled `name 2024` and `name 2019`. The inline query is answered with
  those two cards. The share handler looks the decoded title up among the
  records invented for that same title, so it never finds one.

Modules:

- `Wrappers` holds `Option`.
- `Sequences` holds the first index of an element and the first element
  satisfying a predicate (Python's `next(gen, None)`).
- `Text` holds Python string operations over ASCII: `strip`, `lower`,
  `in` on strings, `split` on one character with `Join` as its inverse,
  and `int`/`str` on decimal digits.
- `Replies` holds the callback payload encoding and decoding, the result
  cards, and the outcomes of a query and of a button press.
- `Catalog` holds the `main.py` movie record, the filter and the
  first-match lookup.
- `InlineSearch` holds the `main.py` inline-query handler.
- `ChannelPost` holds the `main.py` share handler.
- `StubBot` holds `bot.py`.

The catalog is a parameter everywhere, because the shipped
`MOVIE_DATABASE` is empty (main.py:21-23). Telegram calls are reduced to
the values they would carry:

- `Answer`: whether the inline query is answered, raises, or which cards
  it answers with.
- `PostOutcome`: whether a button press raises, answers "not found", or
  posts a movie.
- `ChannelSends` and `UserReply`: the channel messages a press sends and
  the reply its user sees.

A few behaviours of the code are stated as lemmas because they are easy
to miss when reading it:

- Keywords win over title search. `New` finds nothing in a catalog whose
  only entry, `New Moon`, is not a new release (`KeywordShadowsTitle`).
- A `genre:` query is lower-cased before it is compared case-sensitively
  with the labels: `genre:Action` becomes `genre:action`, so it never
  selects an entry labelled `Action` (`CapitalisedGenreNotFound`).
- A `best of` query takes the text after its last space as the year. The
  bare query `best of` therefore raises on the token `of`.
- A title containing a bar (`|`) cannot be shared through its own button. The
  handler looks up only the part before the first bar.
- There are no `source:` or `tag:` query prefixes: such a query is a
  title search like any other.

## Model

| member | source | states |
|---|---|---|
| Sequences.FirstIndex | main.py:119 | None exactly when the element is absent; otherwise the position of its first occurrence |
| Sequences.FirstSuch | main.py:122 | `next(gen, None)`: None exactly when no element satisfies the predicate; otherwise an element satisfying it, with none satisfying it at an earlier position |
| Text.Lower | main.py:62 | ASCII lower-casing keeps length and whitespace, leaves no capital, and is the identity on lower-case text |
| Text.Strip | main.py:62 | the result is a slice of the input; everything removed is whitespace; the result neither starts nor ends with whitespace; a string with no whitespace at either end is unchanged |
| Text.Split | main.py:119 | there is at least one piece; no piece contains the separator; joining the pieces with the separator gives the input back |
| Text.SplitOfJoin | main.py:119 | splitting the join of separator-free pieces gives back exactly those pieces, so `Split` and `Join` are inverse |
| Text.LastPiece | main.py:76 | `split(" ")[-1]` holds no separator |
| Text.LastPieceAfterSep | main.py:76 | the last piece of `p + sep + t` is `t` when `t` holds no separator |
| Text.ParseInt | main.py:76 | `int()` succeeds exactly on a non-empty run of decimal digits after an optional sign, and the sign decides the sign of the value |
| Text.ParseDigit | main.py:76 | a single digit parses to its own value |
| Text.ParseAppendDigit | main.py:76 | appending a digit multiplies the value by ten and adds the digit, so together with `ParseDigit` the value of every digit string is fixed |
| Text.ParseLeadingZero | main.py:76 | a leading zero does not change the value (`02024` parses to 2024) |
| Text.ParsePlus | main.py:76 | a `+` sign does not change the value |
| Text.ParseMinus | main.py:76 | a `-` sign negates the value |
| Text.Decimal | main.py:76 | a reference rendering of a natural number as decimal digits, without leading zeros; the source never calls it, and it serves to state the round trip with `int()` and to build `best of <year>` queries |
| Text.ParseDecimal | main.py:76 | parsing the decimal rendering of `n` gives `n` back |
| Replies.Encode | main.py:109 | the share payload starts with `post` and a bar, the prefix the callback handler is registered for |
| Replies.Decode | main.py:119 | the IndexError happens exactly when the payload holds no bar; the decoded title never contains a bar |
| Replies.DecodeEncode | main.py:109-119 | decoding the payload of a title always succeeds; it gives the title back exactly when the title has no bar, and otherwise the part before its first bar |
| Replies.DecodeAccepted | main.py:152 | a payload matching the handler's pattern `^post` followed by a bar always decodes |
| Replies.ChannelSends | main.py:146 | a press sends at most one channel message, and exactly one when it posts a movie |
| Replies.UserReply | main.py:123-125 | the pressing user gets a reply unless the decoding raised |
| Catalog.Matches | main.py:48-56 | the condition of the `if`: with every keyword argument falsy (empty, False, None or year 0) no entry matches |
| Catalog.Filtered | main.py:46-58 | the list `fetch_movie_info` returns is never longer than the catalog, and every entry in it comes from the catalog and matches |
| Catalog.FetchMovieInfo | main.py:45-58 | the loop appends, in catalog order, exactly the entries satisfying the OR of the given predicates |
| Catalog.MatchingPositions | main.py:47-57 | the positions of the matching entries are in range, strictly increasing, and include every matching position |
| Catalog.FilteredIsSelection | main.py:46-58 | the result is the catalog at the matching positions, in order, so it is a subsequence with nothing repeated or moved |
| Catalog.FilteredMembers | main.py:48-57 | an entry is in the result exactly when it is in the catalog and satisfies the filter |
| Catalog.NameOnly | main.py:49 | with only `movie_name` given, an entry is kept exactly when the lowered name occurs in its lowered title; an empty name keeps nothing |
| Catalog.FlagOnly | main.py:51-55 | with only one boolean flag given, an entry is kept exactly when its own flag is set |
| Catalog.GenreOnly | main.py:50 | with only `genre` given, an entry is kept exactly when the label is one of its genres, case-sensitively; an empty label keeps nothing |
| Catalog.YearOnly | main.py:54 | with only `year_best` given, entries with that best-of year are kept, and none when the year is 0 |
| Catalog.FindByTitle | main.py:122 | None exactly when no entry has the title; otherwise the first entry carrying exactly that title |
| InlineSearch.Normalize | main.py:62 | the normalized query is lower-case, no longer than the input, and has no whitespace at either end |
| InlineSearch.TestsDisjoint | main.py:67-80 | no keyword starts with `best of` or `genre:`, and no query starts with both |
| InlineSearch.GenreValue | main.py:79 | the genre value is the stripped text after the first colon, which follows `genre`, and it stays lower-case |
| InlineSearch.Dispatch | main.py:63-82 | each branch is taken exactly when every earlier test failed and its own succeeds: blank, the keywords, `best of`, `genre:`, then title; a `best of` query carries its last space-separated token, a `genre:` query its stripped value, a title query the whole query |
| InlineSearch.PlanOf | main.py:63-82 | a blank query returns; a `best of` query raises exactly when its token does not parse, naming that token; every other branch calls `fetch_movie_info` with exactly one keyword argument |
| InlineSearch.Select | main.py:63-82 | no answer exactly for a blank query; an error exactly for an unparsable `best of` token; otherwise the selected movies come from the catalog and are no more than the catalog holds |
| InlineSearch.Search | main.py:62-82 | no answer exactly when the stripped, lower-cased query is empty; every selected movie comes from the catalog |
| InlineSearch.CardOf | main.py:86-111 | a card's share payload decodes back to its movie's title when that holds no bar, and it shows the movie's poster and trailer link |
| InlineSearch.CardsOf | main.py:84-113 | one card per movie, in order, each decoding back to its own movie's title when that holds no bar |
| InlineSearch.TrendTag | main.py:87 | the tag is "🔥 #Trending" exactly for trending entries and "✨ #Popular" otherwise |
| InlineSearch.Respond | main.py:62-114 | no answer exactly when the normalized query is empty; an error exactly for a `best of` query whose last token is not a number; otherwise never more cards than catalog entries |
| InlineSearch.BuildCards | main.py:84-113 | the loop builds one card per selected movie, in order |
| InlineSearch.InlineQuery | main.py:61-114 | the handler's outcome is the one `Respond` specifies |
| InlineSearch.CardsShareTitles | main.py:94-109 | each card shows the title and trend tag of its movie, and its payload decodes back to the title when that has no bar |
| InlineSearch.KeywordQueries | main.py:67-74 | `new`, `trending`, `top rated` and `comedy` each select exactly the entries carrying the corresponding flag |
| InlineSearch.BestOfQuery | main.py:75-77 | a `best of` query raises when its last token is not a number, and otherwise selects exactly the entries whose best-of year is that number, and none for year 0 |
| InlineSearch.BareBestOfToken | main.py:76 | the last token of `best of` is `of`, which is not a number |
| InlineSearch.BareBestOfDispatch | main.py:75 | the bare query `best of` takes the `best of` branch with token `of` |
| InlineSearch.BareBestOfRaises | main.py:75-77 | the bare query `best of` raises instead of answering |
| InlineSearch.BestOfYearNormalized | main.py:62 | `best of <year>` is unchanged by stripping and lower-casing |
| InlineSearch.BestOfYearToken | main.py:75-76 | the last token of `best of <year>` is the year |
| InlineSearch.BestOfYear | main.py:75-77 | `best of <year>` selects exactly the entries whose best-of year is that year |
| InlineSearch.GenreQuery | main.py:78-80 | a `genre:` query selects exactly the entries listing the lower-case stripped value as a genre; an empty value selects nothing |
| InlineSearch.GenreMissesCapitalisedLabels | main.py:50 | a `genre:` query never selects an entry whose every genre label contains a capital |
| InlineSearch.TitleQuery | main.py:81-82 | a title query selects exactly the entries whose lowered title contains the query |
| InlineSearch.TrimmedNormalizes | main.py:62 | a query with no whitespace at either end is only lower-cased |
| InlineSearch.LoweredSliceOccurs | main.py:49 | a lower-cased piece of a title occurs in the lower-cased title |
| InlineSearch.TitleSliceFindsEntry | main.py:49 | a query that lower-cases to the lower-cased piece of a title, so a piece typed in any mix of cases, without whitespace at its ends, finds that entry unless it is a keyword or starts with a prefix once lower-cased |
| InlineSearch.KeywordShadowsTitle | main.py:67-68 | typing `New` does not find `New Moon`: the keyword takes priority over title search |
| InlineSearch.GenreActionText | main.py:62 | `genre:Action` normalizes to a query starting with `genre:` |
| InlineSearch.GenreQueryOverCapitalisedCatalog | main.py:78-80 | over a catalog whose genre labels all contain a capital, every `genre:` query selects nothing |
| InlineSearch.CapitalisedGenreNotFound | main.py:78-80 | `genre:Action` selects nothing even from an entry labelled `Action` |
| ChannelPost.PostToChannel | main.py:117-147 | the handler raises exactly when the payload has no bar; "not found" means no entry has the decoded title; a posted movie is the first catalog entry with the decoded title |
| ChannelPost.ShareByTitle | main.py:122-147 | sharing a title without a bar the catalog holds sends one channel message and acknowledges; one it does not hold sends nothing and answers "not found" |
| ChannelPost.SharePipeTitle | main.py:109-122 | a title containing a bar is never the one posted through its own button; at most the part before its first bar is |
| ChannelPost.ShareFromInlineResult | main.py:84-147 | every card of an answered inline query whose title has no bar shares successfully, posting an entry with that title |
| StubBot.FetchMovieInfo | bot.py:21-46 | exactly two records: 2024 and trending, then 2019 and not trending; each titled the name and its year, each with a trailer link searching for the name, the year and `trailer` |
| StubBot.NoRecordTitledByName | bot.py:25 | every invented title is longer than the name, so none equals it |
| StubBot.NoBarInTitles | bot.py:25-36 | an invented title holds a bar only when the name does |
| StubBot.TrendTag | bot.py:59 | the tag is "🔥 Trending" exactly for trending records and "✨ Popular" otherwise |
| StubBot.CardOf | bot.py:58-80 | a card shares its record's own title, and shows the record's poster and trailer link |
| StubBot.InlineCards | bot.py:55-83 | a non-empty query is answered with the cards of the two invented records, in order |
| StubBot.InlineQuery | bot.py:49-83 | the raw query is used unchanged; an empty query gets no answer; any other gets exactly two cards, `<query> 2024` trending and `<query> 2019` popular; the handler never raises |
| StubBot.CardPayloadDecodes | bot.py:78-88 | each card's payload decodes back to its record's title when the query has no bar |
| StubBot.PostToChannel | bot.py:86-114 | the handler raises exactly when the payload has no bar, never posts, and never sends to the channel |
| StubBot.ShareNeverPosts | bot.py:78-94 | pressing "Share to Channel" on any card the stub offers always ends in "not found" |

## Left out

- Telegram API calls (`reply_text`, `inline_query.answer`, `send_photo`,
  `query.answer`, `InlineQueryResultPhoto`, keyboards) are foreign network
  calls. Only their outcome is modelled, as the `Answer` and
  `PostOutcome` values.
- `start_command` and `help_command` only send fixed text, so they are not
  modelled.
- Flask routes, server start-up and the threads that run them beside the
  polling loop are HTTP plumbing and concurrency with no logic of their
  own.
- `load_dotenv`, `os.getenv` and the `uuid4` result ids are environment
  and randomness.
- The Markdown captions and the post message text are rendered by
  Telegram and have no contract, so a card keeps only its title, photo,
  share payload and trailer link.
- `Text.Lower` and `Text.Strip` cover ASCII only. Python's Unicode case
  mapping and Unicode whitespace are not modelled.
- Text.ParseInt: accepts only ASCII decimal digits after an optional sign.
  Python's `int()` also accepts underscores between digits, surrounding
  whitespace other than a space (a `best of` token can hold a tab), and
  non-ASCII digits. These are rare in a typed year and are not modelled.
- The `bot.py` result-building loop builds only library objects, so the
  stub's `InlineQuery` is a function over the two records rather than a
  loop.
- The `main.py` catalog entries are typed records. A dictionary missing a
  key read with `[]` (a `KeyError`) is not modelled; keys read with `.get`
  default to false or None.
