/**
 * The feed store: the SQLite database with its two tables, `feed` and
 * `feed_item`, modelled by what its constraints and statements mean.
 *
 * Each table is a sequence of rows in rowid order. Ids come from an
 * AUTOINCREMENT counter (the last id handed out), so a new row's id is one
 * more than every id ever used. `feed.url` is UNIQUE; `feed_item` has
 * `UNIQUE(feed_id, link)` (SQLite treats NULLs as distinct, so rows without
 * a link never collide), a foreign key to `feed` with ON DELETE CASCADE
 * (foreign keys are switched on when the connection opens), and `is_read`
 * starting false. Creation timestamps are parameters.
 */
module FeedStore {
  import opened Types

  /** The `author` column, kept opaque: the author names the caller passes. */
  type Authors = seq<string>

  /** A row of `feed`. */
  datatype Feed = Feed(id: nat, url: string, title: Option<string>, createdAt: int)

  /** A row of `feed_item`. */
  datatype FeedItem = FeedItem(
    id: nat,
    feedId: nat,
    title: Option<string>,
    link: Option<string>,
    description: Option<string>,
    author: Option<Authors>,
    published: Option<int>,
    isRead: bool,
    createdAt: int)

  /** A statement rejected by a constraint. */
  datatype DbError = UniqueViolation | ForeignKeyViolation

  // ---------------------------------------------------------------------------
  // Table contents and constraints
  // ---------------------------------------------------------------------------

  predicate HasUrl(feeds: seq<Feed>, url: string)
  {
    exists f :: f in feeds && f.url == url
  }

  predicate HasFeed(feeds: seq<Feed>, id: nat)
  {
    exists f :: f in feeds && f.id == id
  }

  /** Whether some row of feed `feedId` has the (non-NULL) link `link`. */
  predicate HasLink(items: seq<FeedItem>, feedId: nat, link: string)
  {
    exists x :: x in items && x.feedId == feedId && x.link == Some(link)
  }

  /** `feed` in rowid order: ids increase, and no two rows share a URL. */
  ghost predicate FeedTable(feeds: seq<Feed>)
  {
    forall i, j :: 0 <= i < j < |feeds| ==> feeds[i].id < feeds[j].id && feeds[i].url != feeds[j].url
  }

  /** `feed_item` in rowid order: ids increase, and no two rows of one feed share a non-NULL link. */
  ghost predicate ItemTable(items: seq<FeedItem>)
  {
    forall i, j :: 0 <= i < j < |items| ==>
      && items[i].id < items[j].id
      && (items[i].feedId == items[j].feedId && items[i].link.Some? ==> items[i].link != items[j].link)
  }

  /** The foreign key: every item belongs to a stored feed. */
  ghost predicate NoOrphans(feeds: seq<Feed>, items: seq<FeedItem>)
  {
    forall x :: x in items ==> HasFeed(feeds, x.feedId)
  }

  // ---------------------------------------------------------------------------
  // Row selections
  // ---------------------------------------------------------------------------

  /** The position of the feed with URL `url`, if any. */
  function IndexOfUrl(feeds: seq<Feed>, url: string): (r: Option<nat>)
    ensures r.None? <==> !HasUrl(feeds, url)
    ensures r.Some? ==> r.value < |feeds| && feeds[r.value].url == url
  {
    if feeds == [] then None
    else if feeds[0].url == url then Some(0)
    else
      match IndexOfUrl(feeds[1..], url)
      case None =>
        assert forall f :: f in feeds ==> f == feeds[0] || f in feeds[1..];
        None
      case Some(k) => Some(k + 1)
  }

  /** `DELETE FROM feed WHERE url = ?`: the rows whose URL differs, in order. */
  function WithoutUrl(feeds: seq<Feed>, url: string): (r: seq<Feed>)
    ensures forall f :: f in r <==> f in feeds && f.url != url
    ensures !HasUrl(r, url)
  {
    if feeds == [] then []
    else
      var last := feeds[|feeds| - 1];
      assert feeds == feeds[..|feeds| - 1] + [last];
      WithoutUrl(feeds[..|feeds| - 1], url) + (if last.url == url then [] else [last])
  }

  /** The cascade of deleting feed `feedId`: the item rows of other feeds, in order. */
  function WithoutFeed(items: seq<FeedItem>, feedId: nat): (r: seq<FeedItem>)
    ensures forall x :: x in r <==> x in items && x.feedId != feedId
  {
    if items == [] then []
    else
      var last := items[|items| - 1];
      assert items == items[..|items| - 1] + [last];
      WithoutFeed(items[..|items| - 1], feedId) + (if last.feedId == feedId then [] else [last])
  }

  /** `WHERE feed_id = ?`: the item rows of feed `feedId`, in rowid order. */
  function ItemsOf(items: seq<FeedItem>, feedId: nat): (r: seq<FeedItem>)
    ensures forall x :: x in r <==> x in items && x.feedId == feedId
  {
    if items == [] then []
    else
      var last := items[|items| - 1];
      assert items == items[..|items| - 1] + [last];
      ItemsOf(items[..|items| - 1], feedId) + (if last.feedId == feedId then [last] else [])
  }

  /** Selecting from one more row of `items` adds that row when it belongs to `feedId`. */
  lemma ItemsOfStep(items: seq<FeedItem>, i: nat, feedId: nat)
    requires i < |items|
    ensures ItemsOf(items[..i + 1], feedId)
            == ItemsOf(items[..i], feedId) + (if items[i].feedId == feedId then [items[i]] else [])
  {
    assert items[..i + 1][..i] == items[..i];
  }

  /** Sequences with the same multiset have the same elements. */
  lemma SameElements(a: seq<FeedItem>, b: seq<FeedItem>)
    requires multiset(a) == multiset(b)
    ensures forall x :: x in a <==> x in b
  {
    forall x
      ensures x in a <==> x in b
    {
      assert x in a <==> x in multiset(a);
      assert x in b <==> x in multiset(b);
    }
  }

  /** Deleting a URL no row has deletes nothing. */
  lemma {:induction false} WithoutAbsentUrl(feeds: seq<Feed>, url: string)
    requires !HasUrl(feeds, url)
    ensures WithoutUrl(feeds, url) == feeds
  {
    if feeds != [] {
      var init := feeds[..|feeds| - 1];
      assert feeds == init + [feeds[|feeds| - 1]];
      assert feeds[|feeds| - 1] in feeds;
      WithoutAbsentUrl(init, url);
    }
  }

  /** Deleting by URL keeps the feed table's ordering and uniqueness. */
  lemma {:induction false} WithoutUrlKeepsFeedTable(feeds: seq<Feed>, url: string)
    requires FeedTable(feeds)
    ensures FeedTable(WithoutUrl(feeds, url))
  {
    if feeds != [] {
      var init, last := feeds[..|feeds| - 1], feeds[|feeds| - 1];
      WithoutUrlKeepsFeedTable(init, url);
      var rest := WithoutUrl(init, url);
      if last.url != url {
        forall f | f in rest
          ensures f.id < last.id && f.url != last.url
        {
          var k :| 0 <= k < |init| && init[k] == f;
          assert feeds[k] == f;
        }
        FeedTableSnoc(rest, last);
      }
    }
  }

  /** A row with a larger id and a new URL may follow a feed table. */
  lemma FeedTableSnoc(rest: seq<Feed>, last: Feed)
    requires FeedTable(rest)
    requires forall f :: f in rest ==> f.id < last.id && f.url != last.url
    ensures FeedTable(rest + [last])
  {
    var r := rest + [last];
    forall i, j | 0 <= i < j < |r|
      ensures r[i].id < r[j].id && r[i].url != r[j].url
    {
      assert r[i] == rest[i] && r[i] in rest;
      if j < |rest| { assert r[j] == rest[j]; } else { assert r[j] == last; }
    }
  }

  /** The cascade keeps the item table's ordering and link uniqueness. */
  lemma {:induction false} WithoutFeedKeepsItemTable(items: seq<FeedItem>, feedId: nat)
    requires ItemTable(items)
    ensures ItemTable(WithoutFeed(items, feedId))
  {
    if items != [] {
      var init, last := items[..|items| - 1], items[|items| - 1];
      WithoutFeedKeepsItemTable(init, feedId);
      var rest := WithoutFeed(init, feedId);
      if last.feedId != feedId {
        forall x | x in rest
          ensures x.id < last.id
          ensures x.feedId == last.feedId && x.link.Some? ==> x.link != last.link
        {
          var k :| 0 <= k < |init| && init[k] == x;
          assert items[k] == x;
        }
        ItemTableSnoc(rest, last);
      }
    }
  }

  /** A row with a larger id and a link its feed does not have yet may follow an item table. */
  lemma ItemTableSnoc(rest: seq<FeedItem>, last: FeedItem)
    requires ItemTable(rest)
    requires forall x :: x in rest ==> x.id < last.id
    requires forall x :: x in rest ==> (x.feedId == last.feedId && x.link.Some? ==> x.link != last.link)
    ensures ItemTable(rest + [last])
  {
    var r := rest + [last];
    forall i, j | 0 <= i < j < |r|
      ensures r[i].id < r[j].id
      ensures r[i].feedId == r[j].feedId && r[i].link.Some? ==> r[i].link != r[j].link
    {
      assert r[i] == rest[i] && r[i] in rest;
      if j < |rest| { assert r[j] == rest[j]; } else { assert r[j] == last; }
    }
  }

  /** Deleting a feed together with its items leaves no item without its feed. */
  lemma CascadeKeepsNoOrphans(feeds: seq<Feed>, items: seq<FeedItem>, url: string, index: nat)
    requires FeedTable(feeds) && NoOrphans(feeds, items)
    requires index < |feeds| && feeds[index].url == url
    ensures NoOrphans(WithoutUrl(feeds, url), WithoutFeed(items, feeds[index].id))
  {
    var feeds', items' := WithoutUrl(feeds, url), WithoutFeed(items, feeds[index].id);
    forall x | x in items'
      ensures HasFeed(feeds', x.feedId)
    {
      var f :| f in feeds && f.id == x.feedId;
      var k :| 0 <= k < |feeds| && feeds[k] == f;
      assert k != index;
      assert f.url != url;
      assert f in feeds';
    }
  }

  // ---------------------------------------------------------------------------
  // ORDER BY published DESC
  // ---------------------------------------------------------------------------

  /**
   * Whether `a` may be listed before `b` under `ORDER BY published DESC`:
   * later timestamps first, and SQLite sorts NULL below every value, so
   * items with no timestamp come last.
   */
  predicate PublishedOrder(a: FeedItem, b: FeedItem)
  {
    b.published.None? || (a.published.Some? && a.published.value >= b.published.value)
  }

  ghost predicate SortedByPublished(s: seq<FeedItem>)
  {
    forall i, j :: 0 <= i < j < |s| ==> PublishedOrder(s[i], s[j])
  }

  /**
   * Places `x` before the first element it may precede under `published
   * DESC`; the result holds `x` and the elements of `s`.
   */
  function InsertByPublished(s: seq<FeedItem>, x: FeedItem): (r: seq<FeedItem>)
    ensures multiset(r) == multiset(s) + multiset{x}
  {
    if s == [] then [x]
    else if PublishedOrder(x, s[0]) then [x] + s
    else
      assert s == [s[0]] + s[1..];
      [s[0]] + InsertByPublished(s[1..], x)
  }

  /** Inserting into a list in `published DESC` order keeps it in that order. */
  lemma {:induction false} InsertByPublishedSorted(s: seq<FeedItem>, x: FeedItem)
    requires SortedByPublished(s)
    ensures SortedByPublished(InsertByPublished(s, x))
  {
    if s == [] {
    } else if PublishedOrder(x, s[0]) {
      forall y | y in s
        ensures PublishedOrder(x, y)
      {
        var k :| 0 <= k < |s| && s[k] == y;
        if k > 0 { assert PublishedOrder(s[0], s[k]); }
      }
      SortedCons(x, s);
    } else {
      var tail := s[1..];
      assert SortedByPublished(tail) by {
        forall i, j | 0 <= i < j < |tail| ensures PublishedOrder(tail[i], tail[j]) {
          assert tail[i] == s[i + 1] && tail[j] == s[j + 1];
        }
      }
      InsertByPublishedSorted(tail, x);
      var rest := InsertByPublished(tail, x);
      forall y | y in rest
        ensures PublishedOrder(s[0], y)
      {
        assert y in multiset(rest);
        if y != x {
          assert y in multiset(tail);
          var k :| 0 <= k < |tail| && tail[k] == y;
          assert s[k + 1] == y;
        }
      }
      SortedCons(s[0], rest);
    }
  }

  /** An element that may precede every element of a sorted list may head it. */
  lemma SortedCons(x: FeedItem, s: seq<FeedItem>)
    requires SortedByPublished(s)
    requires forall y :: y in s ==> PublishedOrder(x, y)
    ensures SortedByPublished([x] + s)
  {
    var r := [x] + s;
    forall i, j | 0 <= i < j < |r|
      ensures PublishedOrder(r[i], r[j])
    {
      assert r[j] == s[j - 1] && r[j] in s;
      if i > 0 { assert r[i] == s[i - 1]; }
    }
  }

  // ---------------------------------------------------------------------------
  // UPDATE feed_item SET is_read = 1 WHERE id = ?
  // ---------------------------------------------------------------------------

  /**
   * The rows after marking item `id` read: the same rows in the same order,
   * each with only `is_read` possibly changed, and it is set exactly on the
   * row(s) with that id (none when no row has it).
   */
  function MarkedRead(items: seq<FeedItem>, id: nat): (r: seq<FeedItem>)
    ensures |r| == |items|
    ensures forall i :: 0 <= i < |items| ==> r[i].isRead == (items[i].isRead || items[i].id == id)
    ensures forall i :: 0 <= i < |items| ==> r[i].(isRead := items[i].isRead) == items[i]
  {
    seq(|items|, i requires 0 <= i < |items| => if items[i].id == id then items[i].(isRead := true) else items[i])
  }

  /** Marking an item read twice is the same as marking it once. */
  lemma MarkReadIdempotent(items: seq<FeedItem>, id: nat)
    ensures MarkedRead(MarkedRead(items, id), id) == MarkedRead(items, id)
  {
  }

  // ---------------------------------------------------------------------------
  // The database
  // ---------------------------------------------------------------------------

  class Db {
    var feeds: seq<Feed>
    var items: seq<FeedItem>
    /** The AUTOINCREMENT counters: the largest id ever handed out per table. */
    var lastFeedId: nat
    var lastItemId: nat

    ghost predicate Valid()
      reads this
    {
      && FeedTable(feeds)
      && ItemTable(items)
      && NoOrphans(feeds, items)
      && (forall f :: f in feeds ==> 0 < f.id <= lastFeedId)
      && (forall x :: x in items ==> 0 < x.id <= lastItemId)
    }

    /** A freshly created database with both tables empty. */
    constructor ()
      ensures Valid()
      ensures feeds == [] && items == [] && lastFeedId == 0 && lastItemId == 0
    {
      feeds, items := [], [];
      lastFeedId, lastItemId := 0, 0;
    }

    /**
     * `add_feed`: a URL already stored is a UNIQUE violation and changes
     * nothing; otherwise exactly one row is appended, with that URL and
     * title and an id no row has had before. Items are untouched.
     */
    method AddFeed(url: string, title: Option<string>, now: int) returns (r: Result<(), DbError>)
      requires Valid()
      modifies this
      ensures Valid()
      ensures r.Ok? <==> !HasUrl(old(feeds), url)
      ensures r.Err? ==> r.error == UniqueViolation && feeds == old(feeds) && lastFeedId == old(lastFeedId)
      ensures r.Ok? ==> && lastFeedId == old(lastFeedId) + 1
                        && feeds == old(feeds) + [Feed(lastFeedId, url, title, now)]
                        && !HasFeed(old(feeds), lastFeedId)
      ensures items == old(items) && lastItemId == old(lastItemId)
    {
      if HasUrl(feeds, url) {
        return Err(UniqueViolation);
      }
      var feed := Feed(lastFeedId + 1, url, title, now);
      FeedTableSnoc(feeds, feed);
      lastFeedId := lastFeedId + 1;
      feeds := feeds + [feed];
      r := Ok(());
      assert forall f :: f in feeds ==> f == feed || f in old(feeds);
    }

    /**
     * `remove_feed`: reports whether a row had the URL; afterwards no row
     * has it and every other feed row is still there. The cascade removes
     * exactly the items of the removed feed.
     */
    method RemoveFeed(url: string) returns (removed: bool)
      requires Valid()
      modifies this
      ensures Valid()
      ensures removed <==> HasUrl(old(feeds), url)
      ensures feeds == WithoutUrl(old(feeds), url)
      ensures removed ==> items == WithoutFeed(old(items), old(feeds)[IndexOfUrl(old(feeds), url).value].id)
      ensures !removed ==> feeds == old(feeds) && items == old(items)
      ensures lastFeedId == old(lastFeedId) && lastItemId == old(lastItemId)
    {
      var index := IndexOfUrl(feeds, url);
      var oldFeeds := feeds;
      WithoutUrlKeepsFeedTable(feeds, url);
      feeds := WithoutUrl(feeds, url);
      if index.None? {
        WithoutAbsentUrl(oldFeeds, url);
        return false;
      }
      var id := oldFeeds[index.value].id;
      WithoutFeedKeepsItemTable(items, id);
      CascadeKeepsNoOrphans(oldFeeds, items, url, index.value);
      items := WithoutFeed(items, id);
      removed := true;
    }

    /**
     * `list_feeds`: every feed row. The query has no ORDER BY, so SQLite
     * promises no order; the model returns the rows in rowid order, the order
     * of a plain scan of the table.
     */
    method ListFeeds() returns (r: seq<Feed>)
      ensures r == feeds
    {
      r := [];
      var i := 0;
      while i < |feeds|
        invariant 0 <= i <= |feeds|
        invariant r == feeds[..i]
      {
        r := r + [feeds[i]];
        i := i + 1;
      }
    }

    /**
     * `add_feed_item` (INSERT OR IGNORE): an unknown feed id is a
     * foreign-key error (OR IGNORE does not suppress it) and changes nothing.
     * Otherwise the result is true exactly when the link is NULL or not yet
     * stored for that feed, and then one unread row is appended; when it is
     * false nothing changes, whatever the other columns say.
     */
    method AddFeedItem(feedId: nat, title: Option<string>, link: Option<string>,
                       description: Option<string>, author: Option<Authors>,
                       published: Option<int>, now: int)
      returns (r: Result<bool, DbError>)
      requires Valid()
      modifies this
      ensures Valid()
      ensures feeds == old(feeds) && lastFeedId == old(lastFeedId)
      ensures r.Err? <==> !HasFeed(feeds, feedId)
      ensures r.Err? ==> r.error == ForeignKeyViolation
      ensures r.Ok? ==> (r.value <==> link.None? || !HasLink(old(items), feedId, link.value))
      ensures r != Ok(true) ==> items == old(items) && lastItemId == old(lastItemId)
      ensures r == Ok(true) ==>
                && lastItemId == old(lastItemId) + 1
                && items == old(items) + [FeedItem(lastItemId, feedId, title, link, description,
                                                   author, published, false, now)]
    {
      if !HasFeed(feeds, feedId) {
        return Err(ForeignKeyViolation);
      }
      if link.Some? && HasLink(items, feedId, link.value) {
        return Ok(false);
      }
      var item := FeedItem(lastItemId + 1, feedId, title, link, description, author, published, false, now);
      ItemTableSnoc(items, item);
      lastItemId := lastItemId + 1;
      items := items + [item];
      r := Ok(true);
      assert forall x :: x in items ==> x == item || x in old(items);
    }

    /**
     * `get_feed_items`: exactly the rows of feed `feedId` (each as often as
     * stored), listed by `published` descending with missing timestamps
     * last; the order among equal timestamps is the engine's and is left
     * open.
     */
    method GetFeedItems(feedId: nat) returns (r: seq<FeedItem>)
      ensures SortedByPublished(r)
      ensures multiset(r) == multiset(ItemsOf(items, feedId))
      ensures forall x :: x in r <==> x in items && x.feedId == feedId
    {
      r := [];
      var i := 0;
      while i < |items|
        invariant 0 <= i <= |items|
        invariant SortedByPublished(r)
        invariant multiset(r) == multiset(ItemsOf(items[..i], feedId))
      {
        ItemsOfStep(items, i, feedId);
        if items[i].feedId == feedId {
          InsertByPublishedSorted(r, items[i]);
          r := InsertByPublished(r, items[i]);
        }
        i := i + 1;
      }
      assert items[..|items|] == items;
      SameElements(r, ItemsOf(items, feedId));
    }

    /** `mark_item_read`: sets `is_read` on the row with that id, if any; nothing else changes. */
    method MarkItemRead(id: nat)
      requires Valid()
      modifies this
      ensures Valid()
      ensures items == MarkedRead(old(items), id)
      ensures feeds == old(feeds) && lastFeedId == old(lastFeedId) && lastItemId == old(lastItemId)
    {
      var oldItems := items;
      items := MarkedRead(items, id);
      forall x | x in items
        ensures HasFeed(feeds, x.feedId) && 0 < x.id <= lastItemId
      {
        var k :| 0 <= k < |items| && items[k] == x;
        assert oldItems[k] in oldItems;
      }
    }
  }
}
