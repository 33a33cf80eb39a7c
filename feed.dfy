/**
 * `Feed::new` (undersea-lib/src/feed.rs), the earlier ingestion revision.
 *
 * It walks the channel's items in order: an item without a usable publish date
 * panics, an item without an enclosure is skipped, any other item becomes an
 * episode whose title falls back to the feed URL. Episodes stay in feed order.
 * In this revision `resume_time` is an optional duration and starts unset.
 */
module FeedRevision {
  import opened Wrappers
  import opened Errors
  import opened Channels

  /** An episode in the shape undersea-lib/src/episode.rs declares; durations in seconds. */
  datatype Episode = Episode(
    mediaUrl: string,
    title: string,
    date: int,
    duration: Option<nat>,
    resumeTime: Option<nat>,
    finished: bool)

  datatype Feed = Feed(
    url: string,
    name: string,
    episodes: seq<Episode>,
    lastChecked: int,
    lastUpload: int)

  /** The episode one item yields. */
  function FromItem(url: string, item: Item): Episode
    requires item.enclosure.Some? && item.pubDate.Some?
  {
    Episode(item.enclosure.value, TitleOr(item, url), item.pubDate.value, None, None, false)
  }

  /** The episodes the loop has pushed after reading `items`. */
  function Extract(url: string, items: seq<Item>): seq<Episode>
    requires Dated(items)
  {
    if items == [] then []
    else
      var last := items[|items| - 1];
      Extract(url, items[..|items| - 1]) + (if last.enclosure.Some? then [FromItem(url, last)] else [])
  }

  /**
   * What `Feed::new` returns for a response. `checkedAt` and `uploadAt` stand for its
   * two separate `Utc::now()` readings, which need not be equal.
   */
  function Build(url: string, response: Response, checkedAt: int, uploadAt: int): Outcome<Feed> {
    match response
    case TransportFailure => Failed(NetworkError)
    case Body(Unreadable) => Panicked(UnreadableChannel)
    case Body(Readable(channel)) =>
      if Dated(channel.items) then Done(Feed(url, channel.title, Extract(url, channel.items), checkedAt, uploadAt))
      else Panicked(BadPublishDate)
  }

  /**
   * Episode `k` comes from the `k`-th item that has an enclosure: its media URL is
   * that enclosure, its title that item's title or the feed URL, its date that
   * item's date, and its playback fields are the fresh defaults.
   */
  lemma {:induction false} ExtractAt(url: string, items: seq<Item>, k: nat)
    requires Dated(items)
    requires k < |Enclosed(items)|
    ensures |Extract(url, items)| == |Enclosed(items)|
    ensures var e, it := Extract(url, items)[k], Enclosed(items)[k];
      && e.mediaUrl == it.enclosure.value
      && e.title == TitleOr(it, url)
      && Some(e.date) == it.pubDate
      && e.duration.None? && e.resumeTime.None? && !e.finished
  {
    var init := items[..|items| - 1];
    var last := items[|items| - 1];
    assert Dated(init) by {
      assert forall i :: 0 <= i < |init| ==> init[i] == items[i];
    }
    ExtractLength(url, init);
    if k < |Enclosed(init)| {
      ExtractAt(url, init, k);
    }
  }

  lemma {:induction false} ExtractLength(url: string, items: seq<Item>)
    requires Dated(items)
    ensures |Extract(url, items)| == |Enclosed(items)|
  {
    if items != [] {
      var init := items[..|items| - 1];
      assert forall i :: 0 <= i < |init| ==> init[i] == items[i];
      ExtractLength(url, init);
    }
  }

  /** `Feed::new`: the item loop with its early panic and `continue`, without a sort. */
  method New(url: string, response: Response, checkedAt: int, uploadAt: int) returns (r: Outcome<Feed>)
    ensures r == Build(url, response, checkedAt, uploadAt)
    ensures r == Failed(NetworkError) <==> response.TransportFailure?
    ensures r == Panicked(UnreadableChannel) <==> response == Body(Unreadable)
    ensures r == Panicked(BadPublishDate) <==>
      response.Body? && response.document.Readable? && !Dated(response.document.channel.items)
    ensures r.Done? ==>
      var channel := response.document.channel;
      && r.value.url == url
      && r.value.name == channel.title
      && r.value.lastChecked == checkedAt && r.value.lastUpload == uploadAt
      && |r.value.episodes| == |Enclosed(channel.items)|
      && forall k :: 0 <= k < |r.value.episodes| ==>
           var e, it := r.value.episodes[k], Enclosed(channel.items)[k];
           && e.mediaUrl == it.enclosure.value
           && e.title == TitleOr(it, url)
           && Some(e.date) == it.pubDate
           && e.duration.None? && e.resumeTime.None? && !e.finished
  {
    if response.TransportFailure? {
      return Failed(NetworkError);
    }
    if response.document.Unreadable? {
      return Panicked(UnreadableChannel);
    }
    var channel := response.document.channel;
    var items := channel.items;
    var episodes: seq<Episode> := [];
    var i := 0;
    while i < |items|
      invariant 0 <= i <= |items|
      invariant Dated(items[..i])
      invariant episodes == Extract(url, items[..i])
    {
      var item := items[i];
      assert items[..i + 1][..i] == items[..i];
      if item.pubDate.None? {
        return Panicked(BadPublishDate);
      }
      assert Dated(items[..i + 1]) by {
        assert forall j :: 0 <= j < i ==> items[..i + 1][j] == items[..i][j];
      }
      if item.enclosure.None? {
        i := i + 1;
        continue;
      }
      var title := if item.title.Some? then item.title.value else url;
      episodes := episodes + [Episode(item.enclosure.value, title, item.pubDate.value, None, None, false)];
      i := i + 1;
    }
    assert items[..i] == items;
    r := Done(Feed(url, channel.title, episodes, checkedAt, uploadAt));
    ExtractLength(url, items);
    forall k | 0 <= k < |episodes|
      ensures var e, it := episodes[k], Enclosed(items)[k];
        && e.mediaUrl == it.enclosure.value
        && e.title == TitleOr(it, url)
        && Some(e.date) == it.pubDate
        && e.duration.None? && e.resumeTime.None? && !e.finished
    {
      ExtractAt(url, items, k);
    }
  }
}
