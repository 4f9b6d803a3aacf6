/**
 * The terminal interface's state machine: which screen is shown, the
 * selection in the feed and item lists, the scroll offset of an open post,
 * and the popup that captures keys while it is open. Drawing is not part of
 * the model; the state the drawing reads is.
 */
module Ui {
  import opened Types
  import opened FeedStore
  import Client
  import Sync

  /** The popup on top of the screen, and what it holds. */
  datatype PopupState =
    | Help
    | AddFeedPrompt(input: string)
    | DeleteFeedPrompt(feedUrl: string)

  /** The screen shown: the feed list, one feed's items, or one post. */
  datatype Screen =
    | Feeds(feeds: seq<Feed>)
    | Items(feed: Feed, items: seq<FeedItem>)
    | ViewPost(feed: Feed, items: seq<FeedItem>, item: FeedItem, scroll: U16)

  datatype KeyCode = Char(c: char) | Enter | Esc | Backspace | Up | Down | OtherKey

  /** A key press; `controlOnly` is true when Control, and no other modifier, is held. */
  datatype KeyEvent = KeyEvent(controlOnly: bool, code: KeyCode)

  /** What a key does when no popup is open. */
  datatype Command =
    | QuitApp | ShowHelp | PromptAddFeed | PromptDeleteFeed
    | SelectNext | SelectPrevious | SelectFirst | SelectLast | Open | Back | Ignore

  /**
   * The key map of the main screens. 'q' quits whatever the modifiers,
   * 'c' only with Control alone; every other key ignores the modifiers.
   */
  function KeyCommand(key: KeyEvent): (cmd: Command)
    ensures cmd == QuitApp <==>
              key.code == Char('q') || (key.controlOnly && (key.code == Char('c') || key.code == Char('C')))
    ensures cmd == SelectNext <==> key.code == Char('j') || key.code == Down
    ensures cmd == SelectPrevious <==> key.code == Char('k') || key.code == Up
    ensures cmd == ShowHelp <==> key.code == Char('?')
    ensures cmd == PromptAddFeed <==> key.code == Char('a')
    ensures cmd == PromptDeleteFeed <==> key.code == Char('d')
    ensures cmd == SelectFirst <==> key.code == Char('g')
    ensures cmd == SelectLast <==> key.code == Char('G')
    ensures cmd == Open <==> key.code == Enter
    ensures cmd == Back <==> key.code == Esc
  {
    match key.code
    case Char(c) =>
      if c == 'q' || (key.controlOnly && (c == 'c' || c == 'C')) then QuitApp
      else if c == '?' then ShowHelp
      else if c == 'a' then PromptAddFeed
      else if c == 'd' then PromptDeleteFeed
      else if c == 'j' then SelectNext
      else if c == 'k' then SelectPrevious
      else if c == 'g' then SelectFirst
      else if c == 'G' then SelectLast
      else Ignore
    case Down => SelectNext
    case Up => SelectPrevious
    case Enter => Open
    case Esc => Back
    case _ => Ignore
  }

  // ---------------------------------------------------------------------------
  // List selection
  // ---------------------------------------------------------------------------

  /**
   * A list selection that the interface can reach: none, a row of the list,
   * or row 0 of an empty list (moving up with nothing selected selects row 0
   * even when the list is empty).
   */
  predicate SelectionOk(sel: Option<nat>, len: nat)
  {
    sel.None? || sel.value < len || (len == 0 && sel.value == 0)
  }

  /**
   * Moving down in a list of `len` rows: an empty list keeps its selection;
   * otherwise nothing selected becomes the first row, and a row moves one
   * down unless it is at (or past) the last row, where it stays.
   */
  function SelectBelow(sel: Option<nat>, len: nat): (r: Option<nat>)
    ensures len == 0 ==> r == sel
    ensures len > 0 ==> r.Some?
    ensures len > 0 && sel.None? ==> r == Some(0)
    ensures len > 0 && sel.Some? ==>
              sel.value <= r.value <= sel.value + 1 && (r.value == sel.value <==> sel.value >= len - 1)
    ensures SelectionOk(sel, len) ==> SelectionOk(r, len)
    ensures SelectionOk(sel, len) && len > 0 ==> r.value < len
  {
    if len == 0 then sel
    else match sel
      case None => Some(0)
      case Some(i) => if i >= len - 1 then Some(i) else Some(i + 1)
  }

  /**
   * Moving up: nothing selected becomes the first row (even in an empty
   * list); the first row stays; any other row moves one up.
   */
  function SelectAbove(sel: Option<nat>): (r: Option<nat>)
    ensures r.Some?
    ensures sel.None? ==> r == Some(0)
    ensures sel.Some? ==> r.value <= sel.value <= r.value + 1 && (r.value == sel.value <==> sel.value == 0)
    ensures forall len: nat :: SelectionOk(sel, len) ==> SelectionOk(r, len)
  {
    match sel
    case None => Some(0)
    case Some(i) => if i == 0 then Some(0) else Some(i - 1)
  }

  /** Moving down from a row above the last and then up returns to that row. */
  lemma DownThenUp(i: nat, len: nat)
    requires i + 1 < len
    ensures SelectAbove(SelectBelow(Some(i), len)) == Some(i)
  {
  }

  /** Moving up from a row below the first and then down returns to that row. */
  lemma UpThenDown(i: nat, len: nat)
    requires 0 < i < len
    ensures SelectBelow(SelectAbove(Some(i)), len) == Some(i)
  {
  }

  /**
   * The feed selection kept when the feed list is shown again: in a
   * non-empty list nothing selected becomes the first row and a row past the
   * end becomes the last; a selection in range, or any selection in an empty
   * list, is kept.
   */
  function Clamped(sel: Option<nat>, len: nat): (r: Option<nat>)
    ensures len == 0 ==> r == sel
    ensures len > 0 ==> r.Some? && r.value < len
    ensures len > 0 && sel.None? ==> r == Some(0)
    ensures len > 0 && sel.Some? && sel.value >= len ==> r == Some(len - 1)
    ensures sel.Some? && sel.value < len ==> r == sel
    ensures SelectionOk(sel, len) ==> SelectionOk(r, len)
  {
    if sel.None? && len > 0 then Some(0)
    else if sel.Some? && sel.value >= len && len > 0 then Some(len - 1)
    else sel
  }

  /** The selection given to a freshly loaded list: its first row, if it has one. */
  function FirstRow(len: nat): (r: Option<nat>)
    ensures r.None? <==> len == 0
    ensures r.Some? ==> r.value == 0
  {
    if len == 0 then None else Some(0)
  }

  /**
   * The store as `add_feed_async(url)` leaves it, given what the fetch
   * yielded and the store before: when the fetch succeeded and the URL is
   * new, one feed row is appended with the fetched title and the next feed
   * id, and the rows of the fetched items whose link is not repeated from an
   * earlier item are appended in order with the next item ids (every linked
   * item is then stored); otherwise nothing changes.
   */
  ghost predicate StoreAdded(db: Db, url: string, fetched: Result<Client.ParsedFeed, Client.FetchError>, now: int,
                             oldFeeds: seq<Feed>, oldItems: seq<FeedItem>, oldLastItemId: nat)
    reads db
  {
    if fetched.Ok? && !HasUrl(oldFeeds, url) then
      && db.feeds == oldFeeds + [Feed(db.lastFeedId, url, fetched.value.title, now)]
      && !HasFeed(oldFeeds, db.lastFeedId)
      && NewFeedItems(db, fetched.value.items, now, oldItems, oldLastItemId)
    else
      db.feeds == oldFeeds && db.items == oldItems
  }

  /**
   * The items after those of `parsed` were inserted for the newest feed, given
   * the items before: the old rows are kept, the rows of the items that
   * INSERT OR IGNORE adds are appended in order with the next item ids, all
   * of that feed, and every linked item is stored.
   */
  ghost predicate NewFeedItems(db: Db, parsed: seq<Client.ParsedFeedItem>, now: int,
                               oldItems: seq<FeedItem>, oldLastItemId: nat)
    reads db
  {
    && oldItems <= db.items
    && (forall i :: |oldItems| <= i < |db.items| ==> db.items[i].feedId == db.lastFeedId)
    && Sync.ContentStored(db.items, db.lastFeedId, parsed)
    && Sync.FreshRowsAppended(db.items, oldItems, oldLastItemId, db.lastFeedId, parsed, now)
  }

  /**
   * The store part of `add_feed_async`: when the fetch succeeded and the URL
   * is new, the feed is added and then its items are inserted for it;
   * otherwise nothing changes.
   */
  method StoreFetchedFeed(db: Db, url: string, download: Client.Download, now: int)
    requires db.Valid()
    modifies db
    ensures db.Valid()
    ensures StoreAdded(db, url, Client.FetchFeed(url, download), now, old(db.feeds), old(db.items), old(db.lastItemId))
  {
    var fetched := Client.FetchFeed(url, download);
    if fetched.Err? {
      return;
    }
    StoreParsedFeed(db, url, fetched.value, now);
  }

  /** `add_feed_async` once the fetch succeeded with `parsed`. */
  method StoreParsedFeed(db: Db, url: string, parsed: Client.ParsedFeed, now: int)
    requires db.Valid()
    modifies db
    ensures db.Valid()
    ensures StoreAdded(db, url, Ok(parsed), now, old(db.feeds), old(db.items), old(db.lastItemId))
  {
    var stored := db.AddFeed(url, parsed.title, now);
    if stored.Err? {
      return;
    }
    ghost var added := db.feeds;
    SyncAddedFeed(db, url, parsed.items, now);
    assert db.feeds == added == old(db.feeds) + [Feed(db.lastFeedId, url, parsed.title, now)];
  }

  /**
   * The rest of `add_feed_async` once the feed row was added: the feed is
   * looked up by URL and the fetched items are inserted for it. The rows
   * appended are those of the items whose link is not repeated from an
   * earlier item, since the new feed has no rows yet.
   */
  method SyncAddedFeed(db: Db, url: string, items: seq<Client.ParsedFeedItem>, now: int)
    requires db.Valid() && |db.feeds| > 0
    requires db.feeds[|db.feeds| - 1].url == url && db.feeds[|db.feeds| - 1].id == db.lastFeedId
    modifies db
    ensures db.Valid()
    ensures db.feeds == old(db.feeds) && db.lastFeedId == old(db.lastFeedId)
    ensures NewFeedItems(db, items, now, old(db.items), old(db.lastItemId))
  {
    var feeds := db.ListFeeds();
    assert feeds[|feeds| - 1] in feeds;
    var index := IndexOfUrl(feeds, url);
    if index.Some? {
      NewFeedIsLast(feeds, url, index.value);
      var feed := feeds[index.value];
      assert feed.id == db.lastFeedId;
      var added := Sync.SyncFeedItems(db, feed, items, now);
    } else {
      // the feed row just added has this URL
      assert false;
    }
  }

  /** The store as `remove_feed(url)` leaves it, given the feeds and items before. */
  ghost predicate StoreDeleted(db: Db, url: string, oldFeeds: seq<Feed>, oldItems: seq<FeedItem>)
    reads db
  {
    && db.feeds == WithoutUrl(oldFeeds, url)
    && (HasUrl(oldFeeds, url) ==> db.items == WithoutFeed(oldItems, oldFeeds[IndexOfUrl(oldFeeds, url).value].id))
    && (!HasUrl(oldFeeds, url) ==> db.feeds == oldFeeds && db.items == oldItems)
  }

  /**
   * The store part of `delete_feed`: the feed with `url` is removed (with
   * its items) and the feed list is read back.
   */
  method RemoveStoredFeed(db: Db, url: string) returns (feeds: seq<Feed>)
    requires db.Valid()
    modifies db
    ensures db.Valid()
    ensures StoreDeleted(db, url, old(db.feeds), old(db.items))
    ensures feeds == db.feeds
  {
    var removed := db.RemoveFeed(url);
    feeds := db.ListFeeds();
  }

  /**
   * A feed id no earlier feed row had has no stored items, so the items
   * inserted for it are those of the fetched list whose link is not
   * repeated from an earlier item.
   */
  lemma NewFeedInserted(oldFeeds: seq<Feed>, oldItems: seq<FeedItem>, feedId: nat, parsed: seq<Client.ParsedFeedItem>)
    requires NoOrphans(oldFeeds, oldItems) && !HasFeed(oldFeeds, feedId)
    ensures Sync.Inserted(oldItems, feedId, parsed) == Sync.Inserted([], feedId, parsed)
  {
    Sync.InsertedForNewFeed(oldItems, feedId, parsed);
  }

  /**
   * After a successful `add_feed_async` on a consistent store, the rows added
   * are those of the fetched items whose link is not repeated from an
   * earlier item, in order, with the next item ids.
   */
  lemma StoreAddedRows(db: Db, url: string, fetched: Result<Client.ParsedFeed, Client.FetchError>, now: int,
                       oldFeeds: seq<Feed>, oldItems: seq<FeedItem>, oldLastItemId: nat)
    requires StoreAdded(db, url, fetched, now, oldFeeds, oldItems, oldLastItemId)
    requires NoOrphans(oldFeeds, oldItems) && fetched.Ok? && !HasUrl(oldFeeds, url)
    ensures db.items == oldItems + Sync.Rows(oldLastItemId + 1, db.lastFeedId,
                                             Sync.Inserted([], db.lastFeedId, fetched.value.items), now)
  {
    NewFeedInserted(oldFeeds, oldItems, db.lastFeedId, fetched.value.items);
  }

  /** In a feed table whose last row has `url`, the row found for `url` is the last one. */
  lemma NewFeedIsLast(feeds: seq<Feed>, url: string, index: nat)
    requires FeedTable(feeds)
    requires |feeds| > 0 && feeds[|feeds| - 1].url == url
    requires index < |feeds| && feeds[index].url == url
    ensures index == |feeds| - 1
  {
  }

  // ---------------------------------------------------------------------------
  // The application
  // ---------------------------------------------------------------------------

  class App {
    var running: bool
    var popup: Option<PopupState>
    var page: Screen
    const db: Db
    /** The selection in the feed list (`feed_list_state`). */
    var feedSel: Option<nat>
    /** The selection in the item list (`item_list_state`). */
    var itemSel: Option<nat>
    var helpScroll: U16

    /**
     * The feed screen shows the store's current feed list; the feed
     * selection is reachable for that list; an item list or post belongs to
     * a stored feed, with a reachable item selection.
     */
    ghost predicate Valid()
      reads this, db
    {
      && db.Valid()
      && SelectionOk(feedSel, |db.feeds|)
      && (page.Feeds? ==> page.feeds == db.feeds)
      && (page.Items? || page.ViewPost? ==> page.feed in db.feeds && SelectionOk(itemSel, |page.items|))
    }

    /** The screen and both selections are as given. */
    ghost predicate SameView(p: Screen, fs: Option<nat>, sel: Option<nat>)
      reads this
    {
      page == p && feedSel == fs && itemSel == sel
    }

    /** `App::new`: the feed screen with the stored feeds, the first one selected if any. */
    constructor (db: Db)
      requires db.Valid()
      ensures Valid()
      ensures this.db == db
      ensures running && popup.None? && helpScroll == 0
      ensures page == Feeds(db.feeds) && feedSel == FirstRow(|db.feeds|) && itemSel.None?
    {
      var feeds := db.ListFeeds();
      running := true;
      popup := None;
      page := Feeds(feeds);
      this.db := db;
      feedSel := FirstRow(|feeds|);
      itemSel := None;
      helpScroll := 0;
    }

    // --- navigation -----------------------------------------------------

    /** The state after `move_down` from screen `p` with selections `fs` and `sel`. */
    ghost predicate MovedDown(p: Screen, fs: Option<nat>, sel: Option<nat>)
      reads this
    {
      match p
      case Feeds(feeds) => SameView(p, SelectBelow(fs, |feeds|), sel)
      case Items(_, items) => SameView(p, fs, SelectBelow(sel, |items|))
      case ViewPost(feed, items, item, scroll) => SameView(ViewPost(feed, items, item, SaturatingAdd(scroll, 1)), fs, sel)
    }

    /** The state after `move_up`. */
    ghost predicate MovedUp(p: Screen, fs: Option<nat>, sel: Option<nat>)
      reads this
    {
      match p
      case Feeds(_) => SameView(p, SelectAbove(fs), sel)
      case Items(_, _) => SameView(p, fs, SelectAbove(sel))
      case ViewPost(feed, items, item, scroll) => SameView(ViewPost(feed, items, item, SaturatingSub(scroll, 1)), fs, sel)
    }

    /** The state after `move_top`. */
    ghost predicate MovedTop(p: Screen, fs: Option<nat>, sel: Option<nat>)
      reads this
    {
      match p
      case Feeds(feeds) => SameView(p, if |feeds| > 0 then Some(0) else fs, sel)
      case Items(_, items) => SameView(p, fs, if |items| > 0 then Some(0) else sel)
      case ViewPost(feed, items, item, _) => SameView(ViewPost(feed, items, item, 0), fs, sel)
    }

    /** The state after `move_bottom`. */
    ghost predicate MovedBottom(p: Screen, fs: Option<nat>, sel: Option<nat>)
      reads this
    {
      match p
      case Feeds(feeds) => SameView(p, if |feeds| > 0 then Some(|feeds| - 1) else fs, sel)
      case Items(_, items) => SameView(p, fs, if |items| > 0 then Some(|items| - 1) else sel)
      case ViewPost(feed, items, item, _) => SameView(ViewPost(feed, items, item, U16_MAX), fs, sel)
    }

    /**
     * The state after `select_item`: a selected feed opens its item list,
     * sorted newest first, with the first item selected if there is one; a
     * selected item opens its post scrolled to the top; anything else stays.
     */
    ghost predicate ItemSelected(p: Screen, fs: Option<nat>, sel: Option<nat>)
      reads this, db
    {
      match p
      case Feeds(feeds) =>
        if fs.Some? && fs.value < |feeds| then
          && page.Items?
          && page.feed == feeds[fs.value]
          && SortedByPublished(page.items)
          && multiset(page.items) == multiset(ItemsOf(db.items, page.feed.id))
          && feedSel == fs
          && itemSel == FirstRow(|page.items|)
        else SameView(p, fs, sel)
      case Items(feed, items) =>
        if sel.Some? && sel.value < |items| then SameView(ViewPost(feed, items, items[sel.value], 0), fs, sel)
        else SameView(p, fs, sel)
      case ViewPost(_, _, _, _) => SameView(p, fs, sel)
    }

    /**
     * The state after `go_back`: a post returns to its feed's item list; an
     * item list returns to the store's current feed list, with the feed
     * selection clamped into it; the feed list stays.
     */
    ghost predicate GoneBack(p: Screen, fs: Option<nat>, sel: Option<nat>)
      reads this, db
    {
      match p
      case Feeds(_) => SameView(p, fs, sel)
      case Items(_, _) => SameView(Feeds(db.feeds), Clamped(fs, |db.feeds|), sel)
      case ViewPost(feed, items, _, _) => SameView(Items(feed, items), fs, sel)
    }

    /** `move_down`. */
    method MoveDown()
      requires Valid()
      modifies this
      ensures Valid()
      ensures MovedDown(old(page), old(feedSel), old(itemSel))
      ensures running == old(running) && popup == old(popup) && helpScroll == old(helpScroll)
    {
      match page
      case Feeds(feeds) =>
        if |feeds| == 0 {
          return;
        }
        feedSel := match feedSel
          case Some(i) => if i >= |feeds| - 1 then Some(i) else Some(i + 1)
          case None => Some(0);
      case Items(_, items) =>
        if |items| == 0 {
          return;
        }
        itemSel := match itemSel
          case Some(i) => if i >= |items| - 1 then Some(i) else Some(i + 1)
          case None => Some(0);
      case ViewPost(feed, items, item, scroll) =>
        page := ViewPost(feed, items, item, SaturatingAdd(scroll, 1));
    }

    /** `move_up`. */
    method MoveUp()
      requires Valid()
      modifies this
      ensures Valid()
      ensures MovedUp(old(page), old(feedSel), old(itemSel))
      ensures running == old(running) && popup == old(popup) && helpScroll == old(helpScroll)
    {
      match page
      case Feeds(_) =>
        feedSel := match feedSel
          case Some(i) => if i == 0 then Some(0) else Some(i - 1)
          case None => Some(0);
      case Items(_, _) =>
        itemSel := match itemSel
          case Some(i) => if i == 0 then Some(0) else Some(i - 1)
          case None => Some(0);
      case ViewPost(feed, items, item, scroll) =>
        page := ViewPost(feed, items, item, SaturatingSub(scroll, 1));
    }

    /** `move_top`. */
    method MoveTop()
      requires Valid()
      modifies this
      ensures Valid()
      ensures MovedTop(old(page), old(feedSel), old(itemSel))
      ensures running == old(running) && popup == old(popup) && helpScroll == old(helpScroll)
    {
      match page
      case Feeds(feeds) =>
        if |feeds| > 0 {
          feedSel := Some(0);
        }
      case Items(_, items) =>
        if |items| > 0 {
          itemSel := Some(0);
        }
      case ViewPost(feed, items, item, _) =>
        page := ViewPost(feed, items, item, 0);
    }

    /** `move_bottom`; a post scrolls to the largest offset, which drawing clamps. */
    method MoveBottom()
      requires Valid()
      modifies this
      ensures Valid()
      ensures MovedBottom(old(page), old(feedSel), old(itemSel))
      ensures running == old(running) && popup == old(popup) && helpScroll == old(helpScroll)
    {
      match page
      case Feeds(feeds) =>
        if |feeds| > 0 {
          feedSel := Some(|feeds| - 1);
        }
      case Items(_, items) =>
        if |items| > 0 {
          itemSel := Some(|items| - 1);
        }
      case ViewPost(feed, items, item, _) =>
        page := ViewPost(feed, items, item, U16_MAX);
    }

    /** `select_item`. */
    method SelectItem()
      requires Valid()
      modifies this
      ensures Valid()
      ensures ItemSelected(old(page), old(feedSel), old(itemSel))
      ensures running == old(running) && popup == old(popup) && helpScroll == old(helpScroll)
    {
      match page
      case Feeds(feeds) =>
        if feedSel.Some? && feedSel.value < |feeds| {
          var feed := feeds[feedSel.value];
          var items := db.GetFeedItems(feed.id);
          itemSel := FirstRow(|items|);
          page := Items(feed, items);
        }
      case Items(feed, items) =>
        if itemSel.Some? && itemSel.value < |items| {
          page := ViewPost(feed, items, items[itemSel.value], 0);
        }
      case ViewPost(_, _, _, _) =>
    }

    /** `go_back`. */
    method GoBack()
      requires Valid()
      modifies this
      ensures Valid()
      ensures GoneBack(old(page), old(feedSel), old(itemSel))
      ensures running == old(running) && popup == old(popup) && helpScroll == old(helpScroll)
    {
      match page
      case Feeds(_) =>
      case Items(_, _) =>
        var feeds := db.ListFeeds();
        feedSel := Clamped(feedSel, |feeds|);
        page := Feeds(feeds);
      case ViewPost(feed, items, _, _) =>
        page := Items(feed, items);
    }

    // --- feed management ------------------------------------------------

    /** The popup `try_delete_feed` leaves: a delete prompt for the selected feed, if one is selected on the feed screen. */
    ghost predicate DeletePrompted(p: Screen, fs: Option<nat>, oldPopup: Option<PopupState>)
      reads this
    {
      if p.Feeds? && fs.Some? && fs.value < |p.feeds| then popup == Some(DeleteFeedPrompt(p.feeds[fs.value].url))
      else popup == oldPopup
    }

    /** `try_delete_feed`: asks for confirmation before deleting the selected feed. */
    method TryDeleteFeed()
      requires Valid()
      modifies this
      ensures Valid()
      ensures DeletePrompted(old(page), old(feedSel), old(popup))
      ensures SameView(old(page), old(feedSel), old(itemSel))
      ensures running == old(running) && helpScroll == old(helpScroll)
    {
      if page.Feeds? && feedSel.Some? && feedSel.value < |page.feeds| {
        popup := Some(DeleteFeedPrompt(page.feeds[feedSel.value].url));
      }
    }

    /**
     * The state after `delete_feed(url)`: the store no longer has the URL
     * and has lost exactly that feed's items, and the feed screen shows the
     * remaining feeds with the first one selected (none if there are none).
     */
    ghost predicate FeedDeleted(url: string, oldFeeds: seq<Feed>, oldItems: seq<FeedItem>)
      reads this, db
    {
      && StoreDeleted(db, url, oldFeeds, oldItems)
      && page == Feeds(db.feeds)
      && feedSel == FirstRow(|db.feeds|)
    }

    /** Shows `feeds` on the feed screen with the first row selected, if there is one. */
    method ShowFeeds(feeds: seq<Feed>)
      modifies this
      ensures page == Feeds(feeds) && feedSel == FirstRow(|feeds|)
      ensures running == old(running) && popup == old(popup) && itemSel == old(itemSel)
      ensures helpScroll == old(helpScroll)
    {
      feedSel := FirstRow(|feeds|);
      page := Feeds(feeds);
    }

    /** `delete_feed`. */
    method DeleteFeed(url: string)
      requires Valid()
      modifies this, db
      ensures Valid()
      ensures FeedDeleted(url, old(db.feeds), old(db.items))
      ensures running == old(running) && popup == old(popup) && itemSel == old(itemSel)
      ensures helpScroll == old(helpScroll)
    {
      var feeds := RemoveStoredFeed(db, url);
      ShowFeeds(feeds);
    }

    /**
     * The state after `add_feed_async(url)` with `download` as what the
     * fetch of `url` yields: when the fetch succeeds and the URL is new, one
     * feed row is added with the fetched title, and the fetched items are
     * inserted for it: every linked one is then stored, and the rows added
     * are those of the items INSERT OR IGNORE adds, in order, with the next
     * item ids (see `StoreAddedRows`); otherwise the store
     * is unchanged. Either way the feed screen shows the store's feeds with
     * the first one selected.
     */
    ghost predicate FeedAdded(url: string, download: Client.Download, now: int,
                              oldFeeds: seq<Feed>, oldItems: seq<FeedItem>, oldLastItemId: nat)
      reads this, db
    {
      && page == Feeds(db.feeds)
      && feedSel == FirstRow(|db.feeds|)
      && StoreAdded(db, url, Client.FetchFeed(url, download), now, oldFeeds, oldItems, oldLastItemId)
    }

    /** `add_feed_async`, with the fetch done before the call. */
    method AddFeedAsync(url: string, download: Client.Download, now: int)
      requires Valid()
      modifies this, db
      ensures Valid()
      ensures FeedAdded(url, download, now, old(db.feeds), old(db.items), old(db.lastItemId))
      ensures running == old(running) && popup == old(popup) && itemSel == old(itemSel)
      ensures helpScroll == old(helpScroll)
    {
      StoreFetchedFeed(db, url, download, now);
      var feeds := db.ListFeeds();
      ShowFeeds(feeds);
    }

    /** `quit`. */
    method Quit()
      modifies this
      ensures !running
      ensures popup == old(popup) && SameView(old(page), old(feedSel), old(itemSel))
      ensures helpScroll == old(helpScroll)
    {
      running := false;
    }

    // --- keys -------------------------------------------------------------

    /** The help popup after a key: '?' or Esc closes it and resets its scroll; j/k/g/G scroll it; 'q' quits. */
    ghost predicate HelpKeyHandled(code: KeyCode, oldScroll: U16, oldRunning: bool)
      reads this
    {
      match code
      case Char(c) =>
        if c == '?' then popup.None? && helpScroll == 0 && running == oldRunning
        else if c == 'j' then popup == Some(Help) && helpScroll == SaturatingAdd(oldScroll, 1) && running == oldRunning
        else if c == 'k' then popup == Some(Help) && helpScroll == SaturatingSub(oldScroll, 1) && running == oldRunning
        else if c == 'g' then popup == Some(Help) && helpScroll == 0 && running == oldRunning
        else if c == 'G' then popup == Some(Help) && helpScroll == U16_MAX && running == oldRunning
        else if c == 'q' then popup == Some(Help) && helpScroll == oldScroll && !running
        else popup == Some(Help) && helpScroll == oldScroll && running == oldRunning
      case Esc => popup.None? && helpScroll == 0 && running == oldRunning
      case Down => popup == Some(Help) && helpScroll == SaturatingAdd(oldScroll, 1) && running == oldRunning
      case Up => popup == Some(Help) && helpScroll == SaturatingSub(oldScroll, 1) && running == oldRunning
      case _ => popup == Some(Help) && helpScroll == oldScroll && running == oldRunning
    }

    /**
     * The add-feed popup with input `input` after a key: characters
     * (whatever the modifiers) are typed into the input, Backspace deletes
     * the last one, Esc cancels, and Enter closes the popup and submits the
     * input unless it is empty. The app keeps running and the help scroll is
     * kept; only a submitted URL changes the store or the screen.
     */
    twostate predicate AddFeedKeyHandled(input: string, code: KeyCode, download: Client.Download, now: int)
      reads this, db
    {
      && running == old(running) && helpScroll == old(helpScroll)
      && match code
         case Char(c) =>
           popup == Some(AddFeedPrompt(input + [c])) && SameView(old(page), old(feedSel), old(itemSel)) && unchanged(db)
         case Backspace =>
           && popup == Some(AddFeedPrompt(if input == [] then [] else input[..|input| - 1]))
           && SameView(old(page), old(feedSel), old(itemSel)) && unchanged(db)
         case Enter =>
           && popup.None?
           && (input == [] ==> SameView(old(page), old(feedSel), old(itemSel)) && unchanged(db))
           && (input != [] ==> FeedAdded(input, download, now, old(db.feeds), old(db.items), old(db.lastItemId))
                               && itemSel == old(itemSel))
         case Esc =>
           popup.None? && SameView(old(page), old(feedSel), old(itemSel)) && unchanged(db)
         case _ =>
           popup == old(popup) && SameView(old(page), old(feedSel), old(itemSel)) && unchanged(db)
    }

    /**
     * The delete confirmation for `feedUrl` after a key: y/Y deletes the
     * feed, n/N/Esc cancel, anything else waits. The app keeps running and
     * the help scroll is kept.
     */
    twostate predicate DeleteFeedKeyHandled(feedUrl: string, code: KeyCode)
      reads this, db
    {
      && running == old(running) && helpScroll == old(helpScroll)
      && if code == Char('y') || code == Char('Y') then
           popup.None? && FeedDeleted(feedUrl, old(db.feeds), old(db.items)) && itemSel == old(itemSel)
         else if code == Char('n') || code == Char('N') || code == Esc then
           popup.None? && SameView(old(page), old(feedSel), old(itemSel)) && unchanged(db)
         else
           popup == old(popup) && SameView(old(page), old(feedSel), old(itemSel)) && unchanged(db)
    }

    /**
     * A key with no popup open: the command `cmd` it maps to, applied to
     * screen `p` with selections `fs` and `is`.
     */
    ghost predicate CommandApplied(cmd: Command, p: Screen, fs: Option<nat>, sel: Option<nat>, oldRunning: bool)
      reads this, db
    {
      && (running == (oldRunning && cmd != QuitApp))
      && match cmd
         case QuitApp => popup.None? && SameView(p, fs, sel)
         case ShowHelp => popup == Some(Help) && SameView(p, fs, sel)
         case PromptAddFeed => popup == (if p.Feeds? then Some(AddFeedPrompt("")) else None) && SameView(p, fs, sel)
         case PromptDeleteFeed => DeletePrompted(p, fs, None) && SameView(p, fs, sel)
         case SelectNext => popup.None? && MovedDown(p, fs, sel)
         case SelectPrevious => popup.None? && MovedUp(p, fs, sel)
         case SelectFirst => popup.None? && MovedTop(p, fs, sel)
         case SelectLast => popup.None? && MovedBottom(p, fs, sel)
         case Open => popup.None? && ItemSelected(p, fs, sel)
         case Back => popup.None? && GoneBack(p, fs, sel)
         case Ignore => popup.None? && SameView(p, fs, sel)
    }

    /** The keys of the help popup (`on_key_event`, popup branch). */
    method HandleHelpKey(code: KeyCode)
      requires Valid() && popup == Some(Help)
      modifies this
      ensures Valid()
      ensures HelpKeyHandled(code, old(helpScroll), old(running))
      ensures SameView(old(page), old(feedSel), old(itemSel))
    {
      match code {
        case Char(c) =>
          if c == '?' {
            popup := None;
            helpScroll := 0; // the scroll is reset when the popup closes
          } else if c == 'j' {
            helpScroll := SaturatingAdd(helpScroll, 1);
          } else if c == 'k' {
            helpScroll := SaturatingSub(helpScroll, 1);
          } else if c == 'g' {
            helpScroll := 0;
          } else if c == 'G' {
            helpScroll := U16_MAX;
          } else if c == 'q' {
            Quit();
          }
        case Esc =>
          popup := None;
          helpScroll := 0;
        case Down =>
          helpScroll := SaturatingAdd(helpScroll, 1);
        case Up =>
          helpScroll := SaturatingSub(helpScroll, 1);
        case _ =>
      }
    }

    /**
     * The keys of the add-feed popup: characters (whatever the modifiers)
     * are typed into the input, Backspace deletes the last one, Esc cancels,
     * and Enter closes the popup and submits the input unless it is empty.
     */
    method HandleAddFeedKey(input: string, code: KeyCode, download: Client.Download, now: int)
      requires Valid() && popup == Some(AddFeedPrompt(input))
      modifies this, db
      ensures Valid()
      ensures AddFeedKeyHandled(input, code, download, now)
    {
      match code {
        case Char(c) =>
          popup := Some(AddFeedPrompt(input + [c]));
        case Backspace =>
          popup := Some(AddFeedPrompt(if input == [] then [] else input[..|input| - 1]));
        case Enter =>
          popup := None;
          if input != [] {
            AddFeedAsync(input, download, now);
          }
        case Esc =>
          popup := None;
        case _ =>
      }
    }

    /** The keys of the delete confirmation: y/Y deletes the feed, n/N/Esc cancels, anything else waits. */
    method HandleDeleteFeedKey(feedUrl: string, code: KeyCode)
      requires Valid() && popup == Some(DeleteFeedPrompt(feedUrl))
      modifies this, db
      ensures Valid()
      ensures DeleteFeedKeyHandled(feedUrl, code)
    {
      if code == Char('y') || code == Char('Y') {
        popup := None;
        DeleteFeed(feedUrl);
      } else if code == Char('n') || code == Char('N') || code == Esc {
        popup := None;
      }
    }

    /** A command of the main screens (`on_key_event`, no popup open). */
    method ApplyCommand(cmd: Command)
      requires Valid() && popup.None?
      modifies this
      ensures Valid()
      ensures CommandApplied(cmd, old(page), old(feedSel), old(itemSel), old(running))
      ensures helpScroll == old(helpScroll)
    {
      match cmd {
        case QuitApp => Quit();
        case ShowHelp => popup := Some(Help);
        case PromptAddFeed =>
          // adding is offered on the feed screen only
          if page.Feeds? {
            popup := Some(AddFeedPrompt(""));
          }
        case PromptDeleteFeed => TryDeleteFeed();
        case SelectNext => MoveDown();
        case SelectPrevious => MoveUp();
        case SelectFirst => MoveTop();
        case SelectLast => MoveBottom();
        case Open => SelectItem();
        case Back => GoBack();
        case Ignore =>
      }
    }

    /**
     * `on_key_event`. An open popup takes every key, and none reaches the
     * screens: only a submitted URL or a confirmed delete changes the store
     * or the screen. Without a popup the key's command is applied, and the
     * store is unchanged. `download` is what fetching a submitted URL yields.
     */
    method OnKeyEvent(key: KeyEvent, download: Client.Download, now: int)
      requires Valid()
      modifies this, db
      ensures Valid()
      ensures old(popup).None? ==>
                && CommandApplied(KeyCommand(key), old(page), old(feedSel), old(itemSel), old(running))
                && helpScroll == old(helpScroll)
                && unchanged(db)
      ensures old(popup) == Some(Help) ==>
                && HelpKeyHandled(key.code, old(helpScroll), old(running))
                && SameView(old(page), old(feedSel), old(itemSel))
                && unchanged(db)
      ensures old(popup).Some? && old(popup).value.AddFeedPrompt? ==>
                AddFeedKeyHandled(old(popup).value.input, key.code, download, now)
      ensures old(popup).Some? && old(popup).value.DeleteFeedPrompt? ==>
                DeleteFeedKeyHandled(old(popup).value.feedUrl, key.code)
      ensures old(popup).Some? && !(old(popup).value.AddFeedPrompt? && key.code == Enter)
              && !(old(popup).value.DeleteFeedPrompt? && (key.code == Char('y') || key.code == Char('Y'))) ==>
                SameView(old(page), old(feedSel), old(itemSel)) && unchanged(db)
    {
      if popup.Some? {
        match popup.value {
          case Help => HandleHelpKey(key.code);
          case AddFeedPrompt(input) => HandleAddFeedKey(input, key.code, download, now);
          case DeleteFeedPrompt(feedUrl) => HandleDeleteFeedKey(feedUrl, key.code);
        }
        return;
      }
      ApplyCommand(KeyCommand(key));
    }
  }
}
