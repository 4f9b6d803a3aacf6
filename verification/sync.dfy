/**
 * The `sync` command: takes one snapshot of the feed list, fetches each
 * feed, and inserts every fetched item through the store's dedup-aware
 * insert, counting the rows actually added. A feed whose fetch fails is
 * reported and skipped; an item whose insert fails is skipped; neither
 * stops the run.
 *
 * Fetching is the abstract `fetcher`: what the network and decoder yield
 * for a URL, the same for the same URL within and across runs.
 */
module Sync {
  import opened Types
  import opened FeedStore
  import Client

  /** The outcome the command reports for one feed. */
  datatype FeedOutcome = Synced(newItems: nat) | FetchFailed(error: Client.FetchError)

  /** The rows a feed gained (zero when its fetch failed). */
  function NewItems(o: FeedOutcome): nat
  {
    if o.Synced? then o.newItems else 0
  }

  /** The sum of the per-feed counts. */
  function TotalNew(outcomes: seq<FeedOutcome>): nat
  {
    if outcomes == [] then 0
    else TotalNew(outcomes[..|outcomes| - 1]) + NewItems(outcomes[|outcomes| - 1])
  }

  /** The number of rows of feed `feedId` among `items`. */
  function CountOf(items: seq<FeedItem>, feedId: nat): nat
  {
    if items == [] then 0
    else CountOf(items[..|items| - 1], feedId) + (if items[|items| - 1].feedId == feedId then 1 else 0)
  }

  /** Appending rows that all belong to `owner` raises only `owner`'s count, by their number. */
  lemma {:induction false} CountOfAppend(s: seq<FeedItem>, t: seq<FeedItem>, feedId: nat, owner: nat)
    requires forall x :: x in t ==> x.feedId == owner
    ensures CountOf(s + t, feedId) == CountOf(s, feedId) + (if feedId == owner then |t| else 0)
  {
    if t == [] {
      assert s + t == s;
    } else {
      var t' := t[..|t| - 1];
      assert forall x :: x in t' ==> x in t;
      assert (s + t)[..|s + t| - 1] == s + t';
      assert (s + t)[|s + t| - 1] == t[|t| - 1];
      assert t[|t| - 1] in t;
      CountOfAppend(s, t', feedId, owner);
    }
  }

  /** The rows appended since `a` split at an intermediate prefix `b`. */
  lemma SuffixSplit(a: seq<FeedItem>, b: seq<FeedItem>, c: seq<FeedItem>)
    requires a <= b <= c
    ensures c[|a|..] == b[|a|..] + c[|b|..]
  {
  }

  /** The fetch of one feed: download its URL and normalize. */
  function Fetch(fetcher: string -> Client.Download, feed: Feed): Result<Client.ParsedFeed, Client.FetchError>
  {
    Client.FetchFeed(feed.url, fetcher(feed.url))
  }

  /** Every linked item of `parsed` is stored for feed `feedId`. */
  ghost predicate ContentStored(items: seq<FeedItem>, feedId: nat, parsed: seq<Client.ParsedFeedItem>)
  {
    forall k :: 0 <= k < |parsed| && parsed[k].link.Some? ==> HasLink(items, feedId, parsed[k].link.value)
  }

  /** Every item of `parsed` has a link. */
  predicate AllLinked(parsed: seq<Client.ParsedFeedItem>)
  {
    forall k :: 0 <= k < |parsed| ==> parsed[k].link.Some?
  }

  /** For every feed among the first `n` whose fetch succeeds, its fetched content is stored. */
  ghost predicate FetchedContentStored(items: seq<FeedItem>, feeds: seq<Feed>,
                                       fetcher: string -> Client.Download, n: nat)
    requires n <= |feeds|
  {
    forall j :: 0 <= j < n && Fetch(fetcher, feeds[j]).Ok? ==>
      ContentStored(items, feeds[j].id, Fetch(fetcher, feeds[j]).value.items)
  }

  /** Every successfully fetched item of every feed has a link. */
  ghost predicate FetchedAllLinked(feeds: seq<Feed>, fetcher: string -> Client.Download)
  {
    forall j :: 0 <= j < |feeds| && Fetch(fetcher, feeds[j]).Ok? ==>
      AllLinked(Fetch(fetcher, feeds[j]).value.items)
  }

  /** A stored link stays stored when rows are only appended. */
  lemma HasLinkGrows(a: seq<FeedItem>, b: seq<FeedItem>, feedId: nat, link: string)
    requires a <= b
    requires HasLink(a, feedId, link)
    ensures HasLink(b, feedId, link)
  {
    var x :| x in a && x.feedId == feedId && x.link == Some(link);
    var i :| 0 <= i < |a| && a[i] == x;
    assert b[i] == x;
  }

  /** Stored content stays stored when rows are only appended. */
  lemma ContentStoredGrows(a: seq<FeedItem>, b: seq<FeedItem>, feedId: nat, parsed: seq<Client.ParsedFeedItem>)
    requires a <= b
    requires ContentStored(a, feedId, parsed)
    ensures ContentStored(b, feedId, parsed)
  {
    forall k | 0 <= k < |parsed| && parsed[k].link.Some?
      ensures HasLink(b, feedId, parsed[k].link.value)
    {
      HasLinkGrows(a, b, feedId, parsed[k].link.value);
    }
  }

  // ---------------------------------------------------------------------------
  // The rows INSERT OR IGNORE adds for a feed's items
  // ---------------------------------------------------------------------------

  /** Whether some item of `parsed` has the link `link`. */
  predicate LinkIn(parsed: seq<Client.ParsedFeedItem>, link: string)
  {
    exists j :: 0 <= j < |parsed| && parsed[j].link == Some(link)
  }

  /**
   * Whether inserting `x` for feed `feedId` adds a row once the rows
   * `stored` and the items `earlier` were inserted: it has no link, or its
   * link is neither stored for the feed nor carried by an earlier item.
   */
  predicate Fresh(stored: seq<FeedItem>, feedId: nat, earlier: seq<Client.ParsedFeedItem>,
                  x: Client.ParsedFeedItem)
  {
    x.link.None? || (!HasLink(stored, feedId, x.link.value) && !LinkIn(earlier, x.link.value))
  }

  /** The items of `parsed` that add a row when inserted in order after `stored`. */
  function Inserted(stored: seq<FeedItem>, feedId: nat, parsed: seq<Client.ParsedFeedItem>)
    : (r: seq<Client.ParsedFeedItem>)
    ensures |r| <= |parsed|
  {
    if parsed == [] then []
    else
      var earlier, x := parsed[..|parsed| - 1], parsed[|parsed| - 1];
      Inserted(stored, feedId, earlier) + (if Fresh(stored, feedId, earlier, x) then [x] else [])
  }

  /** The row stored for item `x` under id `id`: unread, created at `now`. */
  function RowOf(id: nat, feedId: nat, x: Client.ParsedFeedItem, now: int): FeedItem
  {
    FeedItem(id, feedId, x.title, x.link, x.description, Some(x.authors), x.published, false, now)
  }

  /** The rows stored for `xs`, in order, with consecutive ids from `firstId`. */
  function Rows(firstId: nat, feedId: nat, xs: seq<Client.ParsedFeedItem>, now: int): (r: seq<FeedItem>)
    ensures |r| == |xs|
  {
    if xs == [] then []
    else Rows(firstId, feedId, xs[..|xs| - 1], now) + [RowOf(firstId + |xs| - 1, feedId, xs[|xs| - 1], now)]
  }

  /** Row `i` of the rows for `xs` is the row of `xs[i]`, with id `firstId + i`. */
  lemma {:induction false} RowsAt(firstId: nat, feedId: nat, xs: seq<Client.ParsedFeedItem>, now: int)
    ensures forall i :: 0 <= i < |xs| ==> Rows(firstId, feedId, xs, now)[i] == RowOf(firstId + i, feedId, xs[i], now)
  {
    if xs != [] {
      var init := xs[..|xs| - 1];
      RowsAt(firstId, feedId, init, now);
      forall i | 0 <= i < |xs|
        ensures Rows(firstId, feedId, xs, now)[i] == RowOf(firstId + i, feedId, xs[i], now)
      {
        if i < |init| { assert xs[i] == init[i]; }
      }
    }
  }

  /** The rows for `xs` carry, for their feed, exactly the links of `xs`. */
  lemma RowsLinks(firstId: nat, feedId: nat, xs: seq<Client.ParsedFeedItem>, now: int, link: string)
    ensures HasLink(Rows(firstId, feedId, xs, now), feedId, link) <==> LinkIn(xs, link)
  {
    var r := Rows(firstId, feedId, xs, now);
    RowsAt(firstId, feedId, xs, now);
    if LinkIn(xs, link) {
      var j :| 0 <= j < |xs| && xs[j].link == Some(link);
      assert r[j] in r;
    }
    if HasLink(r, feedId, link) {
      var x :| x in r && x.feedId == feedId && x.link == Some(link);
      var j :| 0 <= j < |r| && r[j] == x;
      assert xs[j].link == Some(link);
    }
  }

  /**
   * A link is stored or carried by an inserted item exactly when it is
   * stored or carried by some item: the items left out repeat a link.
   */
  lemma {:induction false} InsertedLinks(stored: seq<FeedItem>, feedId: nat,
                                          parsed: seq<Client.ParsedFeedItem>, link: string)
    ensures HasLink(stored, feedId, link) || LinkIn(Inserted(stored, feedId, parsed), link)
            <==> HasLink(stored, feedId, link) || LinkIn(parsed, link)
  {
    if parsed != [] {
      var earlier, x := parsed[..|parsed| - 1], parsed[|parsed| - 1];
      var before := Inserted(stored, feedId, earlier);
      var ins := Inserted(stored, feedId, parsed);
      InsertedLinks(stored, feedId, earlier, link);
      assert LinkIn(parsed, link) <==> LinkIn(earlier, link) || x.link == Some(link) by {
        if LinkIn(parsed, link) {
          var j :| 0 <= j < |parsed| && parsed[j].link == Some(link);
          if j < |earlier| { assert earlier[j] == parsed[j]; }
        }
        if LinkIn(earlier, link) {
          var j :| 0 <= j < |earlier| && earlier[j].link == Some(link);
          assert parsed[j] == earlier[j];
        }
      }
      assert LinkIn(ins, link) <==> LinkIn(before, link) || (Fresh(stored, feedId, earlier, x) && x.link == Some(link)) by {
        if LinkIn(ins, link) {
          var j :| 0 <= j < |ins| && ins[j].link == Some(link);
          if j < |before| { assert before[j] == ins[j]; }
        }
        if LinkIn(before, link) {
          var j :| 0 <= j < |before| && before[j].link == Some(link);
          assert ins[j] == before[j];
        }
        if Fresh(stored, feedId, earlier, x) && x.link == Some(link) {
          assert ins[|ins| - 1] == x;
        }
      }
    }
  }

  /** With no link stored and no link repeated, every item adds a row. */
  lemma {:induction false} InsertedAllWhenNew(stored: seq<FeedItem>, feedId: nat, parsed: seq<Client.ParsedFeedItem>)
    requires forall k :: 0 <= k < |parsed| && parsed[k].link.Some? ==> !HasLink(stored, feedId, parsed[k].link.value)
    requires forall j, k :: 0 <= j < k < |parsed| && parsed[k].link.Some? ==> parsed[j].link != parsed[k].link
    ensures Inserted(stored, feedId, parsed) == parsed
  {
    if parsed != [] {
      var earlier, x := parsed[..|parsed| - 1], parsed[|parsed| - 1];
      InsertedAllWhenNew(stored, feedId, earlier);
      if x.link.Some? {
        forall j | 0 <= j < |earlier|
          ensures earlier[j].link != x.link
        {
          assert earlier[j] == parsed[j];
        }
      }
      assert earlier + [x] == parsed;
    }
  }

  /** When every item has a link that is already stored, no item adds a row. */
  lemma {:induction false} InsertedNoneWhenStored(stored: seq<FeedItem>, feedId: nat, parsed: seq<Client.ParsedFeedItem>)
    requires AllLinked(parsed) && ContentStored(stored, feedId, parsed)
    ensures Inserted(stored, feedId, parsed) == []
  {
    if parsed != [] {
      var earlier := parsed[..|parsed| - 1];
      assert AllLinked(earlier) && ContentStored(stored, feedId, earlier) by {
        forall k | 0 <= k < |earlier| ensures earlier[k] == parsed[k] { }
      }
      InsertedNoneWhenStored(stored, feedId, earlier);
    }
  }

  /**
   * With the rows of the fresh items among the first `k` stored after
   * `start`, item `k` is fresh exactly when it has no link or the store
   * lacks its link.
   */
  lemma FreshIffUnstored(start: seq<FeedItem>, firstId: nat, feedId: nat,
                         parsed: seq<Client.ParsedFeedItem>, k: nat, now: int)
    requires k < |parsed|
    ensures Fresh(start, feedId, parsed[..k], parsed[k])
            <==> (|| parsed[k].link.None?
                  || !HasLink(start + Rows(firstId, feedId, Inserted(start, feedId, parsed[..k]), now),
                              feedId, parsed[k].link.value))
  {
    var x := parsed[k];
    var ins := Inserted(start, feedId, parsed[..k]);
    var rows := Rows(firstId, feedId, ins, now);
    if x.link.Some? {
      RowsLinks(firstId, feedId, ins, now, x.link.value);
      InsertedLinks(start, feedId, parsed[..k], x.link.value);
      assert HasLink(start + rows, feedId, x.link.value)
             <==> HasLink(start, feedId, x.link.value) || HasLink(rows, feedId, x.link.value);
    }
  }

  /** The fresh items among the first `k + 1`: those among the first `k`, and item `k` if fresh. */
  lemma InsertedStep(start: seq<FeedItem>, feedId: nat, parsed: seq<Client.ParsedFeedItem>, k: nat)
    requires k < |parsed|
    ensures Inserted(start, feedId, parsed[..k + 1])
            == Inserted(start, feedId, parsed[..k])
               + (if Fresh(start, feedId, parsed[..k], parsed[k]) then [parsed[k]] else [])
  {
    assert parsed[..k + 1][..k] == parsed[..k];
  }

  /** The rows of one more item: the rows so far and its row. */
  lemma RowsStep(firstId: nat, feedId: nat, xs: seq<Client.ParsedFeedItem>, x: Client.ParsedFeedItem, now: int)
    ensures Rows(firstId, feedId, xs + [x], now) == Rows(firstId, feedId, xs, now) + [RowOf(firstId + |xs|, feedId, x, now)]
  {
    var xs' := xs + [x];
    assert xs'[..|xs'| - 1] == xs && xs'[|xs'| - 1] == x;
  }

  /**
   * The insert of one fetched item, its author names bound as the author
   * list. It adds the item's row, with the next id, exactly when the feed is
   * stored and the item has no link or the feed does not have its link yet;
   * otherwise nothing changes. An insert error (the feed is gone, so the
   * foreign key fails) is logged by the command and the item skipped.
   */
  method InsertItem(db: Db, feedId: nat, item: Client.ParsedFeedItem, now: int) returns (added: bool)
    requires db.Valid()
    modifies db
    ensures db.Valid()
    ensures db.feeds == old(db.feeds) && db.lastFeedId == old(db.lastFeedId)
    ensures !HasFeed(db.feeds, feedId) ==> !added
    ensures HasFeed(db.feeds, feedId) ==>
              (added <==> item.link.None? || !HasLink(old(db.items), feedId, item.link.value))
    ensures added ==> db.items == old(db.items) + [RowOf(old(db.lastItemId) + 1, feedId, item, now)]
                      && db.lastItemId == old(db.lastItemId) + 1
    ensures !added ==> db.items == old(db.items) && db.lastItemId == old(db.lastItemId)
  {
    var inserted := db.AddFeedItem(feedId, item.title, item.link, item.description,
                                   Some(item.authors), item.published, now);
    // an insert error is logged and the remaining items are still processed
    added := inserted == Ok(true);
  }

  /**
   * `items` is `oldItems` with the rows of the items of `parsed` that
   * INSERT OR IGNORE adds appended in order, their ids continuing after
   * `lastItemId`.
   */
  ghost predicate FreshRowsAppended(items: seq<FeedItem>, oldItems: seq<FeedItem>, lastItemId: nat, feedId: nat,
                                    parsed: seq<Client.ParsedFeedItem>, now: int)
  {
    items == oldItems + Rows(lastItemId + 1, feedId, Inserted(oldItems, feedId, parsed), now)
  }

  /**
   * The items of `parsed` whose insert adds a row, given the stored feeds:
   * those that INSERT OR IGNORE adds when the feed is stored, and none when
   * it is not, since then every insert fails on the foreign key.
   */
  ghost function Added(feeds: seq<Feed>, stored: seq<FeedItem>, feedId: nat,
                       parsed: seq<Client.ParsedFeedItem>): (r: seq<Client.ParsedFeedItem>)
    ensures HasFeed(feeds, feedId) ==> r == Inserted(stored, feedId, parsed)
    ensures !HasFeed(feeds, feedId) ==> r == []
  {
    if HasFeed(feeds, feedId) then Inserted(stored, feedId, parsed) else []
  }

  /**
   * One iteration of the per-item loop: inserting the k-th parsed item
   * extends the appended rows from those of the added items among the first
   * k to those among the first k + 1.
   */
  method InsertNext(db: Db, feedId: nat, parsed: seq<Client.ParsedFeedItem>, k: nat, now: int,
                    ghost start: seq<FeedItem>, ghost firstId: nat)
    returns (added: bool)
    requires db.Valid() && k < |parsed|
    requires db.items == start + Rows(firstId, feedId, Added(db.feeds, start, feedId, parsed[..k]), now)
    requires db.lastItemId == firstId - 1 + |Added(db.feeds, start, feedId, parsed[..k])|
    modifies db
    ensures db.Valid()
    ensures db.feeds == old(db.feeds) && db.lastFeedId == old(db.lastFeedId)
    ensures db.items == start + Rows(firstId, feedId, Added(db.feeds, start, feedId, parsed[..k + 1]), now)
    ensures |Added(db.feeds, start, feedId, parsed[..k + 1])|
            == |Added(db.feeds, start, feedId, parsed[..k])| + (if added then 1 else 0)
    ensures db.lastItemId == firstId - 1 + |Added(db.feeds, start, feedId, parsed[..k + 1])|
  {
    ghost var before, beforeLast := db.items, db.lastItemId;
    if HasFeed(db.feeds, feedId) {
      FreshIffUnstored(start, firstId, feedId, parsed, k, now);
    }
    added := InsertItem(db, feedId, parsed[k], now);
    if HasFeed(db.feeds, feedId) {
      InsertedRowsStep(start, firstId, feedId, parsed, k, now, before, db.items, added);
    }
  }

  /**
   * The rows after the k-th parsed item: one more row, that of the item,
   * exactly when it is fresh.
   */
  lemma InsertedRowsStep(start: seq<FeedItem>, firstId: nat, feedId: nat, parsed: seq<Client.ParsedFeedItem>,
                         k: nat, now: int, before: seq<FeedItem>, after: seq<FeedItem>, added: bool)
    requires k < |parsed|
    requires before == start + Rows(firstId, feedId, Inserted(start, feedId, parsed[..k]), now)
    requires added <==> Fresh(start, feedId, parsed[..k], parsed[k])
    requires added ==> after == before + [RowOf(firstId + |Inserted(start, feedId, parsed[..k])|, feedId, parsed[k], now)]
    requires !added ==> after == before
    ensures after == start + Rows(firstId, feedId, Inserted(start, feedId, parsed[..k + 1]), now)
    ensures |Inserted(start, feedId, parsed[..k + 1])|
            == |Inserted(start, feedId, parsed[..k])| + (if added then 1 else 0)
  {
    var ins := Inserted(start, feedId, parsed[..k]);
    var rows := Rows(firstId, feedId, ins, now);
    InsertedStep(start, feedId, parsed, k);
    if added {
      var row := RowOf(firstId + |ins|, feedId, parsed[k], now);
      assert Inserted(start, feedId, parsed[..k + 1]) == ins + [parsed[k]];
      assert before + [row] == start + (rows + [row]);
      RowsStep(firstId, feedId, ins, parsed[k], now);
    } else {
      assert Inserted(start, feedId, parsed[..k + 1]) == ins;
    }
  }

  /**
   * The per-item loop for one feed: inserts every parsed item in order and
   * counts the inserts that added a row. The rows appended are exactly those
   * of the added items, with consecutive ids after the last one used.
   */
  method InsertParsedItems(db: Db, feed: Feed, parsed: seq<Client.ParsedFeedItem>, now: int)
    returns (newItems: nat)
    requires db.Valid()
    modifies db
    ensures db.Valid()
    ensures db.feeds == old(db.feeds) && db.lastFeedId == old(db.lastFeedId)
    ensures db.items == old(db.items) + Rows(old(db.lastItemId) + 1, feed.id,
                                             Added(db.feeds, old(db.items), feed.id, parsed), now)
    ensures newItems == |Added(db.feeds, old(db.items), feed.id, parsed)|
    ensures db.lastItemId == old(db.lastItemId) + newItems
  {
    ghost var start := db.items;
    ghost var firstId := db.lastItemId + 1;
    newItems := 0;
    var k := 0;
    assert parsed[..0] == [];
    while k < |parsed|
      invariant 0 <= k <= |parsed|
      invariant db.Valid() && db.feeds == old(db.feeds) && db.lastFeedId == old(db.lastFeedId)
      invariant db.items == start + Rows(firstId, feed.id, Added(db.feeds, start, feed.id, parsed[..k]), now)
      invariant newItems == |Added(db.feeds, start, feed.id, parsed[..k])|
      invariant db.lastItemId == firstId - 1 + newItems
    {
      var added := InsertNext(db, feed.id, parsed, k, now, start, firstId);
      if added {
        newItems := newItems + 1;
      }
      k := k + 1;
    }
    assert parsed[..|parsed|] == parsed;
  }

  /**
   * The item sync of one feed. The rows added are exactly `newItems` unread
   * rows of this feed appended after the old ones. For a stored feed they
   * are the rows of the fresh items, in order, afterwards every linked item
   * is stored for the feed, and when every item has a link that was already
   * stored nothing is added. For a feed no longer stored every insert fails
   * and is skipped, so nothing is added.
   */
  method SyncFeedItems(db: Db, feed: Feed, parsed: seq<Client.ParsedFeedItem>, now: int)
    returns (newItems: nat)
    requires db.Valid()
    modifies db
    ensures db.Valid()
    ensures db.feeds == old(db.feeds) && db.lastFeedId == old(db.lastFeedId)
    ensures old(db.items) <= db.items
    ensures |db.items| == |old(db.items)| + newItems
    ensures forall i :: |old(db.items)| <= i < |db.items| ==> db.items[i].feedId == feed.id && !db.items[i].isRead
    ensures AllLinked(parsed) && ContentStored(old(db.items), feed.id, parsed) ==>
              newItems == 0 && db.items == old(db.items)
    ensures db.lastItemId == old(db.lastItemId) + newItems
    ensures !HasFeed(db.feeds, feed.id) ==> newItems == 0 && db.items == old(db.items)
    ensures HasFeed(db.feeds, feed.id) ==>
              && ContentStored(db.items, feed.id, parsed)
              && FreshRowsAppended(db.items, old(db.items), old(db.lastItemId), feed.id, parsed, now)
              && newItems == |Inserted(old(db.items), feed.id, parsed)|
  {
    ghost var start := db.items;
    ghost var firstId := db.lastItemId + 1;
    newItems := InsertParsedItems(db, feed, parsed, now);
    RowsAppended(start, firstId, feed.id, Added(db.feeds, start, feed.id, parsed), now);
    if HasFeed(db.feeds, feed.id) {
      InsertedContentStored(start, firstId, feed.id, parsed, now);
      if AllLinked(parsed) && ContentStored(start, feed.id, parsed) {
        InsertedNoneWhenStored(start, feed.id, parsed);
      }
    }
  }

  /** Appending the rows for `xs` keeps the old rows and adds |xs| unread rows of the feed. */
  lemma RowsAppended(start: seq<FeedItem>, firstId: nat, feedId: nat, xs: seq<Client.ParsedFeedItem>, now: int)
    ensures var items := start + Rows(firstId, feedId, xs, now);
            && start <= items
            && |items| == |start| + |xs|
            && forall i :: |start| <= i < |items| ==> items[i].feedId == feedId && !items[i].isRead
  {
    var rows := Rows(firstId, feedId, xs, now);
    var items := start + rows;
    RowsAt(firstId, feedId, xs, now);
    forall i | |start| <= i < |items|
      ensures items[i].feedId == feedId && !items[i].isRead
    {
      assert items[i] == rows[i - |start|];
    }
  }

  /**
   * For a feed none of whose rows is stored (a feed just added), which items
   * are inserted depends on the parsed list alone: an item is inserted when
   * it has no link or its link is not repeated from an earlier item.
   */
  lemma {:induction false} InsertedForNewFeed(stored: seq<FeedItem>, feedId: nat, parsed: seq<Client.ParsedFeedItem>)
    requires forall x :: x in stored ==> x.feedId != feedId
    ensures Inserted(stored, feedId, parsed) == Inserted([], feedId, parsed)
    decreases |parsed|
  {
    if parsed != [] {
      var earlier, x := parsed[..|parsed| - 1], parsed[|parsed| - 1];
      InsertedForNewFeed(stored, feedId, earlier);
      if x.link.Some? {
        assert !HasLink(stored, feedId, x.link.value);
      }
    }
  }

  /** After the rows of the fresh items are appended, every linked item is stored for the feed. */
  lemma InsertedContentStored(start: seq<FeedItem>, firstId: nat, feedId: nat,
                              parsed: seq<Client.ParsedFeedItem>, now: int)
    ensures ContentStored(start + Rows(firstId, feedId, Inserted(start, feedId, parsed), now), feedId, parsed)
  {
    var ins := Inserted(start, feedId, parsed);
    var rows := Rows(firstId, feedId, ins, now);
    forall k | 0 <= k < |parsed| && parsed[k].link.Some?
      ensures HasLink(start + rows, feedId, parsed[k].link.value)
    {
      var link := parsed[k].link.value;
      assert LinkIn(parsed, link);
      InsertedLinks(start, feedId, parsed, link);
      RowsLinks(firstId, feedId, ins, now, link);
      if HasLink(start, feedId, link) {
        var x :| x in start && x.feedId == feedId && x.link == Some(link);
        assert x in start + rows;
      } else {
        var x :| x in rows && x.feedId == feedId && x.link == Some(link);
        assert x in start + rows;
      }
    }
  }

  /**
   * One feed of the run: fetch it and, when the fetch succeeds, insert its
   * items. The outcome is a fetch failure exactly when the fetch fails, and
   * then nothing changes; otherwise it counts the rows of the inserted items,
   * which are exactly the rows appended.
   */
  method SyncFeed(db: Db, feed: Feed, fetcher: string -> Client.Download, now: int)
    returns (outcome: FeedOutcome)
    requires db.Valid() && feed in db.feeds
    modifies db
    ensures db.Valid()
    ensures db.feeds == old(db.feeds)
    ensures outcome.FetchFailed? <==> Fetch(fetcher, feed).Err?
    ensures outcome.FetchFailed? ==> outcome.error == Fetch(fetcher, feed).error
    ensures old(db.items) <= db.items
    ensures |db.items| == |old(db.items)| + NewItems(outcome)
    ensures forall i :: |old(db.items)| <= i < |db.items| ==> db.items[i].feedId == feed.id && !db.items[i].isRead
    ensures Fetch(fetcher, feed).Ok? ==> ContentStored(db.items, feed.id, Fetch(fetcher, feed).value.items)
    ensures (&& Fetch(fetcher, feed).Ok?
             && AllLinked(Fetch(fetcher, feed).value.items)
             && ContentStored(old(db.items), feed.id, Fetch(fetcher, feed).value.items))
            ==> db.items == old(db.items)
    ensures Fetch(fetcher, feed).Err? ==> db.items == old(db.items)
    ensures Fetch(fetcher, feed).Ok? ==>
              && outcome == Synced(|Inserted(old(db.items), feed.id, Fetch(fetcher, feed).value.items)|)
              && FreshRowsAppended(db.items, old(db.items), old(db.lastItemId), feed.id, Fetch(fetcher, feed).value.items, now)
    ensures db.lastItemId == old(db.lastItemId) + NewItems(outcome)
  {
    var fetched := Client.FetchFeed(feed.url, fetcher(feed.url));
    match fetched {
      case Ok(parsedFeed) =>
        var newItems := SyncFeedItems(db, feed, parsedFeed.items, now);
        outcome := Synced(newItems);
      case Err(e) =>
        outcome := FetchFailed(e);
    }
  }

  /** The fetched content of the feeds done so far stays stored, and one more feed's is added. */
  lemma FetchedContentStep(before: seq<FeedItem>, after: seq<FeedItem>, feeds: seq<Feed>,
                           fetcher: string -> Client.Download, i: nat)
    requires i < |feeds|
    requires before <= after
    requires FetchedContentStored(before, feeds, fetcher, i)
    requires Fetch(fetcher, feeds[i]).Ok? ==> ContentStored(after, feeds[i].id, Fetch(fetcher, feeds[i]).value.items)
    ensures FetchedContentStored(after, feeds, fetcher, i + 1)
  {
    forall j | 0 <= j < i && Fetch(fetcher, feeds[j]).Ok?
      ensures ContentStored(after, feeds[j].id, Fetch(fetcher, feeds[j]).value.items)
    {
      ContentStoredGrows(before, after, feeds[j].id, Fetch(fetcher, feeds[j]).value.items);
    }
  }

  /** Counting the rows of one more feed's step, whose rows all belong to that feed. */
  lemma {:induction false} CountsStep(feeds: seq<Feed>, added: seq<FeedItem>, rows: seq<FeedItem>,
                                      outcomes: seq<FeedOutcome>, outcome: FeedOutcome)
    requires FeedTable(feeds)
    requires |outcomes| < |feeds|
    requires |rows| == NewItems(outcome)
    requires forall x :: x in rows ==> x.feedId == feeds[|outcomes|].id
    requires forall j :: 0 <= j < |feeds| ==>
               CountOf(added, feeds[j].id) == (if j < |outcomes| then NewItems(outcomes[j]) else 0)
    ensures forall j :: 0 <= j < |feeds| ==>
               CountOf(added + rows, feeds[j].id)
               == (if j < |outcomes| + 1 then NewItems((outcomes + [outcome])[j]) else 0)
  {
    var i := |outcomes|;
    forall j | 0 <= j < |feeds|
      ensures CountOf(added + rows, feeds[j].id)
              == (if j < i + 1 then NewItems((outcomes + [outcome])[j]) else 0)
    {
      CountOfAppend(added, rows, feeds[j].id, feeds[i].id);
      if j < i {
        assert feeds[j].id < feeds[i].id;
      } else if j > i {
        assert feeds[i].id < feeds[j].id;
      }
    }
  }

  /**
   * What the run has established after the first `|outcomes|` feeds, over
   * the rows `base` it started from: one outcome per feed done, a failure
   * exactly when that fetch failed; the rows appended since `base` are, feed
   * by feed, as many as the outcomes report, and `total` in all; the fetched
   * content of the feeds done is stored; and when every fetched item has a
   * link and all fetched content was stored to begin with, nothing was added.
   */
  ghost predicate RunSoFar(items: seq<FeedItem>, base: seq<FeedItem>, feeds: seq<Feed>,
                           fetcher: string -> Client.Download, outcomes: seq<FeedOutcome>, total: nat)
  {
    && |outcomes| <= |feeds|
    && base <= items
    && (forall j :: 0 <= j < |outcomes| ==> (outcomes[j].FetchFailed? <==> Fetch(fetcher, feeds[j]).Err?))
    && (forall j :: 0 <= j < |outcomes| && outcomes[j].FetchFailed? ==>
          outcomes[j].error == Fetch(fetcher, feeds[j]).error)
    && (forall j :: 0 <= j < |feeds| ==>
          CountOf(items[|base|..], feeds[j].id) == (if j < |outcomes| then NewItems(outcomes[j]) else 0))
    && total == TotalNew(outcomes)
    && |items| == |base| + total
    && FetchedContentStored(items, feeds, fetcher, |outcomes|)
    && (FetchedAllLinked(feeds, fetcher) && FetchedContentStored(base, feeds, fetcher, |feeds|) ==>
          total == 0 && items == base)
  }

  /** Before the first feed nothing is established beyond the starting rows. */
  lemma RunStart(base: seq<FeedItem>, feeds: seq<Feed>, fetcher: string -> Client.Download)
    ensures RunSoFar(base, base, feeds, fetcher, [], 0)
  {
    assert base[|base|..] == [];
  }

  /** One more feed, processed as `SyncFeed` promises, extends what the run has established. */
  lemma RunStep(items: seq<FeedItem>, after: seq<FeedItem>, base: seq<FeedItem>, feeds: seq<Feed>,
                fetcher: string -> Client.Download, outcomes: seq<FeedOutcome>, total: nat,
                outcome: FeedOutcome)
    requires FeedTable(feeds)
    requires RunSoFar(items, base, feeds, fetcher, outcomes, total)
    requires |outcomes| < |feeds|
    requires outcome.FetchFailed? <==> Fetch(fetcher, feeds[|outcomes|]).Err?
    requires outcome.FetchFailed? ==> outcome.error == Fetch(fetcher, feeds[|outcomes|]).error
    requires items <= after
    requires |after| == |items| + NewItems(outcome)
    requires forall i :: |items| <= i < |after| ==> after[i].feedId == feeds[|outcomes|].id
    requires Fetch(fetcher, feeds[|outcomes|]).Ok? ==>
               ContentStored(after, feeds[|outcomes|].id, Fetch(fetcher, feeds[|outcomes|]).value.items)
    requires (&& Fetch(fetcher, feeds[|outcomes|]).Ok?
              && AllLinked(Fetch(fetcher, feeds[|outcomes|]).value.items)
              && ContentStored(items, feeds[|outcomes|].id, Fetch(fetcher, feeds[|outcomes|]).value.items))
             ==> after == items
    requires Fetch(fetcher, feeds[|outcomes|]).Err? ==> after == items
    ensures RunSoFar(after, base, feeds, fetcher, outcomes + [outcome], total + NewItems(outcome))
  {
    var i := |outcomes|;
    var outcomes' := outcomes + [outcome];
    assert outcomes'[..i] == outcomes;
    assert TotalNew(outcomes') == TotalNew(outcomes) + NewItems(outcome);
    OutcomesStep(feeds, fetcher, outcomes, outcome);
    var rows := after[|items|..];
    SuffixSplit(base, items, after);
    AppendedRowsOf(items, after, feeds[i].id);
    CountsStep(feeds, items[|base|..], rows, outcomes, outcome);
    FetchedContentStep(items, after, feeds, fetcher, i);
    if FetchedAllLinked(feeds, fetcher) && FetchedContentStored(base, feeds, fetcher, |feeds|) {
      QuietStep(items, after, feeds, fetcher, i);
    }
  }

  /** Rows appended with feed id `feedId` all belong to that feed. */
  lemma AppendedRowsOf(items: seq<FeedItem>, after: seq<FeedItem>, feedId: nat)
    requires |items| <= |after|
    requires forall i :: |items| <= i < |after| ==> after[i].feedId == feedId
    ensures forall x :: x in after[|items|..] ==> x.feedId == feedId
  {
    var rows := after[|items|..];
    forall x | x in rows ensures x.feedId == feedId {
      var k :| 0 <= k < |rows| && rows[k] == x;
      assert after[|items| + k] == x;
    }
  }

  /**
   * When every fetched item has a link and the content was stored before the
   * run, a feed reached with nothing added so far adds nothing either.
   */
  lemma QuietStep(items: seq<FeedItem>, after: seq<FeedItem>, feeds: seq<Feed>,
                  fetcher: string -> Client.Download, i: nat)
    requires i < |feeds|
    requires FetchedAllLinked(feeds, fetcher)
    requires FetchedContentStored(items, feeds, fetcher, |feeds|)
    requires (&& Fetch(fetcher, feeds[i]).Ok?
              && AllLinked(Fetch(fetcher, feeds[i]).value.items)
              && ContentStored(items, feeds[i].id, Fetch(fetcher, feeds[i]).value.items))
             ==> after == items
    requires Fetch(fetcher, feeds[i]).Err? ==> after == items
    ensures after == items
  {
  }

  /** The outcome recorded for one more feed matches its fetch, as the earlier ones do. */
  lemma OutcomesStep(feeds: seq<Feed>, fetcher: string -> Client.Download,
                     outcomes: seq<FeedOutcome>, outcome: FeedOutcome)
    requires |outcomes| < |feeds|
    requires forall j :: 0 <= j < |outcomes| ==> (outcomes[j].FetchFailed? <==> Fetch(fetcher, feeds[j]).Err?)
    requires forall j :: 0 <= j < |outcomes| && outcomes[j].FetchFailed? ==>
               outcomes[j].error == Fetch(fetcher, feeds[j]).error
    requires outcome.FetchFailed? <==> Fetch(fetcher, feeds[|outcomes|]).Err?
    requires outcome.FetchFailed? ==> outcome.error == Fetch(fetcher, feeds[|outcomes|]).error
    ensures forall j :: 0 <= j < |outcomes| + 1 ==>
              ((outcomes + [outcome])[j].FetchFailed? <==> Fetch(fetcher, feeds[j]).Err?)
    ensures forall j :: 0 <= j < |outcomes| + 1 && (outcomes + [outcome])[j].FetchFailed? ==>
              (outcomes + [outcome])[j].error == Fetch(fetcher, feeds[j]).error
  {
    var all := outcomes + [outcome];
    forall j | 0 <= j < |outcomes| + 1
      ensures all[j].FetchFailed? <==> Fetch(fetcher, feeds[j]).Err?
      ensures all[j].FetchFailed? ==> all[j].error == Fetch(fetcher, feeds[j]).error
    {
      if j < |outcomes| { assert all[j] == outcomes[j]; }
    }
  }

  /**
   * One feed's stage of a run, from the rows `items` and the last item id
   * `lastId`: a failed fetch adds nothing; otherwise the rows of the items
   * inserted are appended, their ids continuing after the last one used. The
   * rows added are as many as the ids used.
   */
  ghost function Stage(items: seq<FeedItem>, lastId: nat, feedId: nat,
                       fetched: Result<Client.ParsedFeed, Client.FetchError>, now: int): (r: (seq<FeedItem>, nat))
    ensures lastId <= r.1 && |r.0| - |items| == r.1 - lastId
  {
    if fetched.Err? then (items, lastId)
    else
      var ins := Inserted(items, feedId, fetched.value.items);
      (items + Rows(lastId + 1, feedId, ins, now), lastId + |ins|)
  }

  /** The item rows and the last item id after the stages of the first `n` feeds of a run. */
  ghost function RunState(base: seq<FeedItem>, lastId: nat, feeds: seq<Feed>,
                          fetcher: string -> Client.Download, now: int, n: nat): (r: (seq<FeedItem>, nat))
    requires n <= |feeds|
    ensures lastId <= r.1 && |r.0| - |base| == r.1 - lastId
    decreases n
  {
    if n == 0 then (base, lastId)
    else
      var prev := RunState(base, lastId, feeds, fetcher, now, n - 1);
      Stage(prev.0, prev.1, feeds[n - 1].id, Fetch(fetcher, feeds[n - 1]), now)
  }

  /** Every successful feed among the first `n` reports the items inserted at its stage of the run. */
  ghost predicate RunCounts(base: seq<FeedItem>, baseLast: nat, feeds: seq<Feed>,
                            fetcher: string -> Client.Download, now: int, outcomes: seq<FeedOutcome>)
    requires |outcomes| <= |feeds|
  {
    forall j :: 0 <= j < |outcomes| && Fetch(fetcher, feeds[j]).Ok? ==>
      outcomes[j] == Synced(|Inserted(RunState(base, baseLast, feeds, fetcher, now, j).0,
                                      feeds[j].id, Fetch(fetcher, feeds[j]).value.items)|)
  }

  /**
   * The rows of the run so far, given the outcomes of the feeds done: the
   * rows and last item id are `RunState` after those feeds, each successful
   * feed reports the number of items inserted at its stage, and every row
   * added since `base` is unread.
   */
  ghost predicate RunRows(items: seq<FeedItem>, lastItemId: nat, base: seq<FeedItem>, baseLast: nat,
                          feeds: seq<Feed>, fetcher: string -> Client.Download, now: int,
                          outcomes: seq<FeedOutcome>)
  {
    && |outcomes| <= |feeds|
    && (items, lastItemId) == RunState(base, baseLast, feeds, fetcher, now, |outcomes|)
    && RunCounts(base, baseLast, feeds, fetcher, now, outcomes)
    && (forall i :: |base| <= i < |items| ==> !items[i].isRead)
  }

  /** A feed's stage is exactly what `SyncFeed` does to the rows and the last item id. */
  lemma StageOf(items: seq<FeedItem>, lastItemId: nat, after: seq<FeedItem>, afterLast: nat, feedId: nat,
                fetched: Result<Client.ParsedFeed, Client.FetchError>, now: int)
    requires fetched.Err? ==> after == items && afterLast == lastItemId
    requires fetched.Ok? ==>
               && FreshRowsAppended(after, items, lastItemId, feedId, fetched.value.items, now)
               && afterLast == lastItemId + |Inserted(items, feedId, fetched.value.items)|
    ensures (after, afterLast) == Stage(items, lastItemId, feedId, fetched, now)
  {
  }

  /** The feed after the first `n` moves the run's state by its own stage. */
  lemma RunStateStep(items: seq<FeedItem>, lastItemId: nat, after: seq<FeedItem>, afterLast: nat,
                     base: seq<FeedItem>, baseLast: nat, feeds: seq<Feed>,
                     fetcher: string -> Client.Download, now: int, n: nat)
    requires n < |feeds|
    requires (items, lastItemId) == RunState(base, baseLast, feeds, fetcher, now, n)
    requires (after, afterLast) == Stage(items, lastItemId, feeds[n].id, Fetch(fetcher, feeds[n]), now)
    ensures (after, afterLast) == RunState(base, baseLast, feeds, fetcher, now, n + 1)
  {
  }

  /** The outcome of the feed after the first `n` counts what was inserted at its stage. */
  lemma RunCountsStep(items: seq<FeedItem>, base: seq<FeedItem>, baseLast: nat, feeds: seq<Feed>,
                      fetcher: string -> Client.Download, now: int, outcomes: seq<FeedOutcome>, outcome: FeedOutcome)
    requires |outcomes| < |feeds|
    requires RunCounts(base, baseLast, feeds, fetcher, now, outcomes)
    requires items == RunState(base, baseLast, feeds, fetcher, now, |outcomes|).0
    requires Fetch(fetcher, feeds[|outcomes|]).Ok? ==>
               outcome == Synced(|Inserted(items, feeds[|outcomes|].id, Fetch(fetcher, feeds[|outcomes|]).value.items)|)
    ensures RunCounts(base, baseLast, feeds, fetcher, now, outcomes + [outcome])
  {
    var all := outcomes + [outcome];
    forall j | 0 <= j < |all| && Fetch(fetcher, feeds[j]).Ok?
      ensures all[j] == Synced(|Inserted(RunState(base, baseLast, feeds, fetcher, now, j).0,
                                         feeds[j].id, Fetch(fetcher, feeds[j]).value.items)|)
    {
      if j < |outcomes| {
        assert all[j] == outcomes[j];
      } else {
        assert all[j] == outcome && j == |outcomes|;
      }
    }
  }

  /** One more feed, processed as `SyncFeed` promises, extends the run's rows by its stage. */
  lemma RunRowsStep(items: seq<FeedItem>, lastItemId: nat, after: seq<FeedItem>, afterLast: nat,
                    base: seq<FeedItem>, baseLast: nat, feeds: seq<Feed>, fetcher: string -> Client.Download,
                    now: int, outcomes: seq<FeedOutcome>, outcome: FeedOutcome)
    requires RunRows(items, lastItemId, base, baseLast, feeds, fetcher, now, outcomes)
    requires |outcomes| < |feeds|
    requires items <= after
    requires forall i :: |items| <= i < |after| ==> !after[i].isRead
    requires Fetch(fetcher, feeds[|outcomes|]).Err? ==> after == items && afterLast == lastItemId
    requires Fetch(fetcher, feeds[|outcomes|]).Ok? ==>
               && outcome == Synced(|Inserted(items, feeds[|outcomes|].id, Fetch(fetcher, feeds[|outcomes|]).value.items)|)
               && FreshRowsAppended(after, items, lastItemId, feeds[|outcomes|].id,
                                    Fetch(fetcher, feeds[|outcomes|]).value.items, now)
               && afterLast == lastItemId + NewItems(outcome)
    ensures RunRows(after, afterLast, base, baseLast, feeds, fetcher, now, outcomes + [outcome])
  {
    StageOf(items, lastItemId, after, afterLast, feeds[|outcomes|].id, Fetch(fetcher, feeds[|outcomes|]), now);
    RunStateStep(items, lastItemId, after, afterLast, base, baseLast, feeds, fetcher, now, |outcomes|);
    RunCountsStep(items, base, baseLast, feeds, fetcher, now, outcomes, outcome);
  }

  /** One iteration of the per-feed loop: the next feed is synced and the run extended by its stage. */
  method SyncNext(db: Db, feeds: seq<Feed>, i: nat, fetcher: string -> Client.Download, now: int,
                  ghost base: seq<FeedItem>, ghost baseLast: nat, ghost outcomes: seq<FeedOutcome>, ghost total: nat)
    returns (outcome: FeedOutcome)
    requires db.Valid() && db.feeds == feeds && i == |outcomes| < |feeds|
    requires RunSoFar(db.items, base, feeds, fetcher, outcomes, total)
    requires RunRows(db.items, db.lastItemId, base, baseLast, feeds, fetcher, now, outcomes)
    modifies db
    ensures db.Valid() && db.feeds == feeds
    ensures RunSoFar(db.items, base, feeds, fetcher, outcomes + [outcome], total + NewItems(outcome))
    ensures RunRows(db.items, db.lastItemId, base, baseLast, feeds, fetcher, now, outcomes + [outcome])
  {
    ghost var before, beforeLast := db.items, db.lastItemId;
    outcome := SyncFeed(db, feeds[i], fetcher, now);
    FeedStep(before, beforeLast, db.items, db.lastItemId, base, baseLast, feeds, i, fetcher, now, outcomes, total, outcome);
  }

  /** What `SyncFeed` promises for the next feed extends both accounts of the run. */
  lemma FeedStep(items: seq<FeedItem>, lastItemId: nat, after: seq<FeedItem>, afterLast: nat,
                 base: seq<FeedItem>, baseLast: nat, feeds: seq<Feed>, i: nat,
                 fetcher: string -> Client.Download, now: int, outcomes: seq<FeedOutcome>, total: nat,
                 outcome: FeedOutcome)
    requires FeedTable(feeds) && i == |outcomes| < |feeds|
    requires RunSoFar(items, base, feeds, fetcher, outcomes, total)
    requires RunRows(items, lastItemId, base, baseLast, feeds, fetcher, now, outcomes)
    requires outcome.FetchFailed? <==> Fetch(fetcher, feeds[i]).Err?
    requires outcome.FetchFailed? ==> outcome.error == Fetch(fetcher, feeds[i]).error
    requires items <= after
    requires |after| == |items| + NewItems(outcome)
    requires forall k :: |items| <= k < |after| ==> after[k].feedId == feeds[i].id && !after[k].isRead
    requires Fetch(fetcher, feeds[i]).Ok? ==> ContentStored(after, feeds[i].id, Fetch(fetcher, feeds[i]).value.items)
    requires (&& Fetch(fetcher, feeds[i]).Ok?
              && AllLinked(Fetch(fetcher, feeds[i]).value.items)
              && ContentStored(items, feeds[i].id, Fetch(fetcher, feeds[i]).value.items))
             ==> after == items
    requires Fetch(fetcher, feeds[i]).Err? ==> after == items
    requires Fetch(fetcher, feeds[i]).Ok? ==>
               && outcome == Synced(|Inserted(items, feeds[i].id, Fetch(fetcher, feeds[i]).value.items)|)
               && FreshRowsAppended(after, items, lastItemId, feeds[i].id, Fetch(fetcher, feeds[i]).value.items, now)
    requires afterLast == lastItemId + NewItems(outcome)
    ensures RunSoFar(after, base, feeds, fetcher, outcomes + [outcome], total + NewItems(outcome))
    ensures RunRows(after, afterLast, base, baseLast, feeds, fetcher, now, outcomes + [outcome])
  {
    RunStep(items, after, base, feeds, fetcher, outcomes, total, outcome);
    RunRowsStep(items, lastItemId, after, afterLast, base, baseLast, feeds, fetcher, now, outcomes, outcome);
  }

  /**
   * `sync_feeds`: the feed list is read once and left unchanged; the
   * outcome of each feed, in list order, is a fetch failure exactly when its
   * fetch fails, otherwise the number of rows that feed gained; the total is
   * the sum of those counts and the number of rows added; existing rows are
   * untouched. Afterwards the linked content of every fetched feed is
   * stored, and if it already was and every fetched item has a link, the
   * run adds nothing.
   */
  method SyncFeeds(db: Db, fetcher: string -> Client.Download, now: int)
    returns (outcomes: seq<FeedOutcome>, total: nat)
    requires db.Valid()
    modifies db
    ensures db.Valid()
    ensures db.feeds == old(db.feeds)
    ensures |outcomes| == |db.feeds|
    ensures RunSoFar(db.items, old(db.items), db.feeds, fetcher, outcomes, total)
    ensures RunRows(db.items, db.lastItemId, old(db.items), old(db.lastItemId), db.feeds, fetcher, now, outcomes)
    ensures db.lastItemId == old(db.lastItemId) + total
  {
    var feeds := db.ListFeeds();
    RunStart(db.items, feeds, fetcher);
    if |feeds| == 0 {
      return [], 0;
    }
    ghost var base := db.items;
    ghost var baseLast := db.lastItemId;
    outcomes, total := [], 0;
    var i := 0;
    while i < |feeds|
      invariant 0 <= i <= |feeds|
      invariant db.Valid() && db.feeds == feeds
      invariant |outcomes| == i
      invariant RunSoFar(db.items, base, feeds, fetcher, outcomes, total)
      invariant RunRows(db.items, db.lastItemId, base, baseLast, feeds, fetcher, now, outcomes)
    {
      var outcome := SyncNext(db, feeds, i, fetcher, now, base, baseLast, outcomes, total);
      total := total + NewItems(outcome);
      outcomes := outcomes + [outcome];
      i := i + 1;
    }
  }

  /**
   * Two syncs over unchanged fetched content, where every fetched item has a
   * link: the second adds nothing and reports zero new items.
   */
  method ResyncAddsNothing(db: Db, fetcher: string -> Client.Download, now: int, later: int)
    returns (firstTotal: nat, secondTotal: nat)
    requires db.Valid()
    requires FetchedAllLinked(db.feeds, fetcher)
    modifies db
    ensures db.Valid()
    ensures secondTotal == 0
    ensures |db.items| == |old(db.items)| + firstTotal
  {
    var _, t1 := SyncFeeds(db, fetcher, now);
    var outcomes, t2 := SyncFeeds(db, fetcher, later);
    firstTotal, secondTotal := t1, t2;
  }
}
