/**
 * The feed client: turns one downloaded and decoded RSS/Atom document into
 * the reader's own `ParsedFeed` record.
 *
 * The network request and the RSS/Atom decoder are not modelled; their
 * outcome is the input `Download`: either the stage that failed, or the
 * decoded document as the decoder's record of entries.
 */
module Client {
  import opened Types

  /** A decoded text element (the decoder's `Text`; only its content is used). */
  datatype Text = Text(content: string)

  /** A link of an entry. */
  datatype Link = Link(href: string)

  /** The content element of an entry: an inline body and/or a source link. */
  datatype Content = Content(body: Option<string>, src: Option<Link>)

  /** An author of an entry. */
  datatype Person = Person(name: string)

  /** One decoded entry; timestamps are seconds since the epoch. */
  datatype Entry = Entry(
    title: Option<Text>,
    links: seq<Link>,
    summary: Option<Text>,
    content: Option<Content>,
    authors: seq<Person>,
    published: Option<int>,
    updated: Option<int>)

  /** A decoded feed document. */
  datatype RawFeed = RawFeed(title: Option<Text>, entries: seq<Entry>)

  /** The step of a fetch that went wrong. */
  datatype Stage = Request | BodyRead | Parse

  /** What the network and the decoder produced for one URL. */
  datatype Download = Failed(stage: Stage) | Decoded(feed: RawFeed)

  /** A failed fetch, recording the URL fetched and the failing step. */
  datatype FetchError = FetchError(url: string, stage: Stage)

  /** The reader's normalized item. */
  datatype ParsedFeedItem = ParsedFeedItem(
    title: Option<string>,
    link: Option<string>,
    description: Option<string>,
    authors: seq<string>,
    published: Option<int>)

  /** The reader's normalized feed: its title and its items in document order. */
  datatype ParsedFeed = ParsedFeed(title: Option<string>, items: seq<ParsedFeedItem>)

  // ---------------------------------------------------------------------------
  // Whitespace trimming (Rust's `str::trim`)
  // ---------------------------------------------------------------------------

  /** Rust's `char::is_whitespace`: the Unicode White_Space property. */
  predicate IsWhitespace(c: char)
  {
    ('\t' <= c <= '\r') || c == ' ' || c == '\U{0085}' || c == '\U{00A0}' || c == '\U{1680}'
    || ('\U{2000}' <= c <= '\U{200A}') || c == '\U{2028}' || c == '\U{2029}' || c == '\U{202F}'
    || c == '\U{205F}' || c == '\U{3000}'
  }

  /** The number of whitespace characters at the start of `s`. */
  function LeadingWhitespace(s: string): (k: nat)
    ensures k <= |s|
    ensures forall i :: 0 <= i < k ==> IsWhitespace(s[i])
    ensures k < |s| ==> !IsWhitespace(s[k])
  {
    if s != [] && IsWhitespace(s[0]) then 1 + LeadingWhitespace(s[1..]) else 0
  }

  /** The number of whitespace characters at the end of `s`. */
  function TrailingWhitespace(s: string): (k: nat)
    ensures k <= |s|
    ensures forall i :: |s| - k <= i < |s| ==> IsWhitespace(s[i])
    ensures k < |s| ==> !IsWhitespace(s[|s| - k - 1])
  {
    if s != [] && IsWhitespace(s[|s| - 1]) then 1 + TrailingWhitespace(s[..|s| - 1]) else 0
  }

  /**
   * `s` without its leading and trailing whitespace: a contiguous slice of
   * `s` that neither starts nor ends with whitespace, and everything cut
   * away is whitespace.
   */
  function Trim(s: string): (r: string)
    ensures r == [] || (!IsWhitespace(r[0]) && !IsWhitespace(r[|r| - 1]))
    ensures exists a, b :: 0 <= a <= b <= |s| && r == s[a..b]
                           && (forall i :: 0 <= i < a ==> IsWhitespace(s[i]))
                           && (forall i :: b <= i < |s| ==> IsWhitespace(s[i]))
  {
    var a := LeadingWhitespace(s);
    var b := |s| - TrailingWhitespace(s[a..]);
    TrailingOfSuffix(s, a);
    if a < |s| then
      NonEmptyAfterLeading(s, a);
      s[a..b]
    else
      s[a..b]
  }

  /** The trailing whitespace of a suffix of `s`, read in `s`. */
  lemma TrailingOfSuffix(s: string, a: nat)
    requires a <= |s|
    ensures var t := TrailingWhitespace(s[a..]);
            && t <= |s| - a
            && (forall i :: |s| - t <= i < |s| ==> IsWhitespace(s[i]))
            && (t < |s| - a ==> !IsWhitespace(s[|s| - t - 1]))
  {
    var rest := s[a..];
    var t := TrailingWhitespace(rest);
    forall i | |s| - t <= i < |s|
      ensures IsWhitespace(s[i])
    {
      assert s[i] == rest[i - a];
    }
    if t < |rest| {
      assert s[|s| - t - 1] == rest[|rest| - t - 1];
    }
  }

  /** After the leading whitespace, a non-whitespace character stops the trailing run. */
  lemma NonEmptyAfterLeading(s: string, a: nat)
    requires a < |s| && !IsWhitespace(s[a])
    ensures TrailingWhitespace(s[a..]) < |s| - a
  {
    var rest := s[a..];
    assert rest[0] == s[a];
  }

  /** Trimming an already trimmed string changes nothing. */
  lemma TrimIdempotent(s: string)
    ensures Trim(Trim(s)) == Trim(s)
  {
    var t := Trim(s);
    assert LeadingWhitespace(t) == 0;
    assert TrailingWhitespace(t) == 0;
    assert t[0..|t|] == t;
  }

  // ---------------------------------------------------------------------------
  // Normalization of one entry
  // ---------------------------------------------------------------------------

  /**
   * Reference definition of a fallback chain: the first candidate that is
   * present, or none when all are absent.
   */
  function FirstPresent<T>(candidates: seq<Option<T>>): (r: Option<T>)
    ensures r.None? <==> forall i :: 0 <= i < |candidates| ==> candidates[i].None?
    ensures r.Some? ==> exists i :: 0 <= i < |candidates| && candidates[i] == r
                                    && forall j :: 0 <= j < i ==> candidates[j].None?
  {
    if candidates == [] then None
    else if candidates[0].Some? then candidates[0]
    else
      var r := FirstPresent(candidates[1..]);
      assert r.Some? ==> exists i :: 1 <= i < |candidates| && candidates[i] == r
                                     && forall j :: 0 <= j < i ==> candidates[j].None?
      by {
        if r.Some? {
          var i :| 0 <= i < |candidates[1..]| && candidates[1..][i] == r
                   && forall j :: 0 <= j < i ==> candidates[1..][j].None?;
          assert forall j :: 0 <= j < i + 1 ==> candidates[j].None? by {
            forall j | 0 <= j < i + 1 ensures candidates[j].None? {
              if j > 0 { assert candidates[j] == candidates[1..][j - 1]; }
            }
          }
        }
      }
      r
  }

  /** The content of an optional text element. */
  function TextContent(t: Option<Text>): Option<string>
  {
    match t
    case Some(text) => Some(text.content)
    case None => None
  }

  /** The inline body of the content element, else the href of its source link. */
  function ContentText(c: Option<Content>): Option<string>
  {
    match c
    case None => None
    case Some(content) =>
      match content.body
      case Some(body) => Some(body)
      case None =>
        match content.src
        case Some(link) => Some(link.href)
        case None => None
  }

  /** The summary, else the content (body, else source href), as the client's `or_else` chain. */
  function Description(e: Entry): Option<string>
  {
    match e.summary
    case Some(s) => Some(s.content)
    case None => ContentText(e.content)
  }

  /** The candidates of the description fallback chain, in priority order. */
  function DescriptionCandidates(e: Entry): seq<Option<string>>
  {
    [ TextContent(e.summary),
      if e.content.Some? then e.content.value.body else None,
      if e.content.Some? && e.content.value.src.Some? then Some(e.content.value.src.value.href) else None ]
  }

  /** A three-step fallback chain picks the first present candidate. */
  lemma FirstPresentOfThree<T>(a: Option<T>, b: Option<T>, c: Option<T>)
    ensures FirstPresent([a, b, c]) == if a.Some? then a else if b.Some? then b else c
  {
    assert [a, b, c][1..] == [b, c];
    FirstPresentOfTwo(b, c);
  }

  /** A two-step fallback chain picks the first present candidate. */
  lemma FirstPresentOfTwo<T>(a: Option<T>, b: Option<T>)
    ensures FirstPresent([a, b]) == if a.Some? then a else b
  {
    assert [a, b][1..] == [b];
    assert [b][1..] == [];
  }

  /**
   * Maps one decoded entry to the reader's item: the first link's href, the
   * description fallback chain, the author names trimmed one by one (none
   * dropped, none reordered), and the published time else the updated time.
   */
  function NormalizeEntry(e: Entry): (item: ParsedFeedItem)
    ensures item.title == TextContent(e.title)
    ensures item.link.Some? <==> |e.links| > 0
    ensures item.link.Some? ==> item.link.value == e.links[0].href
    ensures item.description == FirstPresent(DescriptionCandidates(e))
    ensures |item.authors| == |e.authors|
    ensures forall i :: 0 <= i < |e.authors| ==> item.authors[i] == Trim(e.authors[i].name)
    ensures item.published == FirstPresent([e.published, e.updated])
  {
    FirstPresentOfThree(TextContent(e.summary),
                        if e.content.Some? then e.content.value.body else None,
                        if e.content.Some? && e.content.value.src.Some? then Some(e.content.value.src.value.href) else None);
    FirstPresentOfTwo(e.published, e.updated);
    ParsedFeedItem(
      TextContent(e.title),
      if |e.links| > 0 then Some(e.links[0].href) else None,
      Description(e),
      seq(|e.authors|, i requires 0 <= i < |e.authors| => Trim(e.authors[i].name)),
      match e.published
      case Some(p) => Some(p)
      case None => e.updated)
  }

  /** Normalizing is stable on author names: a normalized name is already trimmed. */
  lemma NormalizedAuthorsAreTrimmed(e: Entry)
    ensures forall i :: 0 <= i < |NormalizeEntry(e).authors| ==>
              Trim(NormalizeEntry(e).authors[i]) == NormalizeEntry(e).authors[i]
  {
    var item := NormalizeEntry(e);
    forall i | 0 <= i < |item.authors|
      ensures Trim(item.authors[i]) == item.authors[i]
    {
      TrimIdempotent(e.authors[i].name);
    }
  }

  /**
   * `fetch_feed`: a failure at any step is an error recording the URL and
   * the step, with no partial result (the message itself names the URL for
   * the request and parse steps only); a decoded document yields the feed
   * title and one normalized item per entry, in document order.
   */
  function FetchFeed(url: string, download: Download): (r: Result<ParsedFeed, FetchError>)
    ensures r.Err? <==> download.Failed?
    ensures r.Err? ==> r.error == FetchError(url, download.stage)
    ensures r.Ok? ==> r.value.title == TextContent(download.feed.title)
    ensures r.Ok? ==> |r.value.items| == |download.feed.entries|
    ensures r.Ok? ==> forall i :: 0 <= i < |r.value.items| ==>
                        r.value.items[i] == NormalizeEntry(download.feed.entries[i])
  {
    match download
    case Failed(stage) => Err(FetchError(url, stage))
    case Decoded(feed) =>
      Ok(ParsedFeed(
           TextContent(feed.title),
           seq(|feed.entries|, i requires 0 <= i < |feed.entries| => NormalizeEntry(feed.entries[i]))))
  }
}
