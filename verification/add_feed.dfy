/**
 * The `add` command: fetch the feed once to validate it and learn its
 * title, then store it. Items are not stored; they arrive with the next
 * sync.
 */
module AddFeedCommand {
  import opened Types
  import opened FeedStore
  import Client

  /** Why the command failed: the fetch, or the insert into the store. */
  datatype AddFeedError = FetchFailed(fetchError: Client.FetchError) | StoreFailed(dbError: DbError)

  /** What the command reports on success: the name it shows and the number of items found. */
  datatype AddFeedReport = AddFeedReport(shownName: string, itemsFound: nat)

  /**
   * `add_feed`: a failed fetch is reported and leaves the store unchanged;
   * a URL already stored is reported as a store failure and also leaves it
   * unchanged; otherwise exactly one feed row is added, with the fetched
   * title, and the report shows that title (the URL when there is none) and
   * the number of fetched items. No item row is ever written.
   */
  method AddFeed(db: Db, url: string, download: Client.Download, now: int)
    returns (r: Result<AddFeedReport, AddFeedError>)
    requires db.Valid()
    modifies db
    ensures db.Valid()
    ensures db.items == old(db.items)
    ensures download.Failed? ==> r == Err(FetchFailed(Client.FetchError(url, download.stage)))
    ensures download.Decoded? && HasUrl(old(db.feeds), url) ==> r == Err(StoreFailed(UniqueViolation))
    ensures r.Err? ==> db.feeds == old(db.feeds)
    ensures r.Ok? <==> download.Decoded? && !HasUrl(old(db.feeds), url)
    ensures r.Ok? ==>
              var parsed := Client.FetchFeed(url, download).value;
              && db.feeds == old(db.feeds) + [Feed(db.lastFeedId, url, parsed.title, now)]
              && !HasFeed(old(db.feeds), db.lastFeedId)
              && r.value.itemsFound == |download.feed.entries|
              && r.value.shownName == (if parsed.title.Some? then parsed.title.value else url)
  {
    var fetched := Client.FetchFeed(url, download);
    if fetched.Err? {
      return Err(FetchFailed(fetched.error));
    }
    var parsed := fetched.value;
    var stored := db.AddFeed(url, parsed.title, now);
    if stored.Err? {
      return Err(StoreFailed(stored.error));
    }
    var shown := if parsed.title.Some? then parsed.title.value else url;
    r := Ok(AddFeedReport(shown, |parsed.items|));
  }
}
