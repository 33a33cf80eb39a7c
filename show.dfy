/**
 * `Show::new` and the `Show` accessors (undersea-lib/src/show.rs), the later
 * ingestion revision.
 *
 * The item loop is the one of `Feed::new`; afterwards the episodes are sorted by
 * publish date with Rust's stable `sort_by_key`, and `resume_time` is a plain
 * duration that starts at zero.
 */
module ShowRevision {
  import opened Wrappers
  import opened Errors
  import opened Channels

  /** An episode in the shape `Show::new` builds; durations in seconds. */
  datatype Episode = Episode(
    mediaUrl: string,
    title: string,
    date: int,
    duration: Option<nat>,
    resumeTime: nat,
    finished: bool)

  datatype Show = Show(
    url: string,
    name: string,
    episodes: seq<Episode>,
    lastChecked: int,
    lastUpload: int)

  /** Playback fields as a new episode has them: length unknown, not started, not finished. */
  predicate Fresh(e: Episode) {
    e.duration.None? && e.resumeTime == 0 && !e.finished
  }

  /**
   * `e` comes from an item of `items` with an enclosure: its media URL is that
   * enclosure, its title the item's title or else the feed URL, its date the item's.
   */
  predicate Traced(url: string, items: seq<Item>, e: Episode) {
    exists it :: it in items && it.enclosure == Some(e.mediaUrl) && e.title == TitleOr(it, url) && it.pubDate == Some(e.date)
  }

  /** The episode one item yields. */
  function FromItem(url: string, item: Item): Episode
    requires item.enclosure.Some? && item.pubDate.Some?
  {
    Episode(item.enclosure.value, TitleOr(item, url), item.pubDate.value, None, 0, false)
  }

  /** The episodes the loop has pushed after reading `items`, before the sort. */
  function Extract(url: string, items: seq<Item>): seq<Episode>
    requires Dated(items)
  {
    if items == [] then []
    else
      var last := items[|items| - 1];
      Extract(url, items[..|items| - 1]) + (if last.enclosure.Some? then [FromItem(url, last)] else [])
  }

  // ---------------------------------------------------------------------------
  // `sort_by_key(|ep| ep.date)`: a stable sort, specified by a stable insertion sort.

  predicate SortedByDate(s: seq<Episode>) {
    forall i, j :: 0 <= i < j < |s| ==> s[i].date <= s[j].date
  }

  /** The episodes of `s` dated `d`, in their order in `s`. */
  function WithDate(s: seq<Episode>, d: int): seq<Episode> {
    if s == [] then []
    else (if s[0].date == d then [s[0]] else []) + WithDate(s[1..], d)
  }

  lemma WithDateCons(x: Episode, s: seq<Episode>, d: int)
    ensures WithDate([x] + s, d) == (if x.date == d then [x] else []) + WithDate(s, d)
  {
    assert ([x] + s)[1..] == s;
  }

  /** Puts `x` in front of the first element not earlier than it. */
  function InsertByDate(x: Episode, s: seq<Episode>): (r: seq<Episode>)
    ensures multiset(r) == multiset(s) + multiset{x}
  {
    if s == [] || x.date <= s[0].date then [x] + s
    else
      assert s == [s[0]] + s[1..];
      [s[0]] + InsertByDate(x, s[1..])
  }

  lemma {:induction false} InsertSorted(x: Episode, s: seq<Episode>)
    requires SortedByDate(s)
    ensures SortedByDate(InsertByDate(x, s))
  {
    if s != [] && x.date > s[0].date {
      TailSorted(s);
      InsertSorted(x, s[1..]);
      var rest := InsertByDate(x, s[1..]);
      forall j | 0 <= j < |rest| ensures s[0].date <= rest[j].date {
        assert rest[j] in multiset(rest);
        if rest[j] != x {
          assert rest[j] in multiset(s[1..]);
          var k :| 0 <= k < |s[1..]| && s[1..][k] == rest[j];
          assert s[k + 1] == rest[j];
        }
      }
    }
  }

  lemma {:induction false} InsertWithDate(x: Episode, s: seq<Episode>, d: int)
    ensures WithDate(InsertByDate(x, s), d) == (if x.date == d then [x] else []) + WithDate(s, d)
  {
    if s == [] || x.date <= s[0].date {
      WithDateCons(x, s, d);
    } else {
      var rest := InsertByDate(x, s[1..]);
      assert InsertByDate(x, s) == [s[0]] + rest;
      InsertWithDate(x, s[1..], d);
      WithDateCons(s[0], rest, d);
      WithDateCons(s[0], s[1..], d);
      assert s == [s[0]] + s[1..];
    }
  }

  /** The order `sort_by_key` leaves: sorted by date, and a permutation of the input. */
  function SortByDate(s: seq<Episode>): (r: seq<Episode>)
    ensures SortedByDate(r)
    ensures multiset(r) == multiset(s)
    ensures |r| == |s|
  {
    if s == [] then []
    else
      var sortedTail := SortByDate(s[1..]);
      var r := InsertByDate(s[0], sortedTail);
      assert s == [s[0]] + s[1..];
      InsertSorted(s[0], sortedTail);
      assert |r| == |multiset(r)| == |multiset(s)| == |s|;
      r
  }

  /** `sort_by_key` is stable: the episodes of each date keep their input order. */
  lemma {:induction false} SortByDateStable(s: seq<Episode>, d: int)
    ensures WithDate(SortByDate(s), d) == WithDate(s, d)
  {
    if s != [] {
      SortByDateStable(s[1..], d);
      InsertWithDate(s[0], SortByDate(s[1..]), d);
      WithDateCons(s[0], s[1..], d);
      assert s == [s[0]] + s[1..];
    }
  }

  /**
   * Sortedness and stability pin the sorted order down: any sequence that is sorted
   * by date and keeps the episodes of each date in their original order is the
   * result of `SortByDate`.
   */
  lemma {:induction false} StableSortUnique(s: seq<Episode>, t: seq<Episode>)
    requires SortedByDate(s) && SortedByDate(t)
    requires forall d :: WithDate(s, d) == WithDate(t, d)
    ensures s == t
  {
    if s != [] {
      WithDateOwnHead(s);
      assert t != [];
    }
    if t != [] {
      WithDateOwnHead(t);
      assert s != [];
    }
    if s != [] {
      SameHead(s, t);
      forall d ensures WithDate(s[1..], d) == WithDate(t[1..], d) {
        SameTail(s, t, d);
      }
      assert SortedByDate(s[1..]) && SortedByDate(t[1..]) by {
        TailSorted(s);
        TailSorted(t);
      }
      StableSortUnique(s[1..], t[1..]);
      assert s == [s[0]] + s[1..] && t == [t[0]] + t[1..];
    }
  }

  /** Two sorted, non-empty sequences with the same per-date subsequences start alike. */
  lemma SameHead(s: seq<Episode>, t: seq<Episode>)
    requires SortedByDate(s) && SortedByDate(t) && s != [] && t != []
    requires forall d :: WithDate(s, d) == WithDate(t, d)
    ensures s[0] == t[0]
  {
    var d := if s[0].date <= t[0].date then s[0].date else t[0].date;
    WithDateHead(s, d);
    WithDateHead(t, d);
    assert WithDate(s, d) == WithDate(t, d);
  }

  /** Dropping equal heads keeps the per-date subsequences equal. */
  lemma SameTail(s: seq<Episode>, t: seq<Episode>, d: int)
    requires s != [] && t != [] && s[0] == t[0]
    requires WithDate(s, d) == WithDate(t, d)
    ensures WithDate(s[1..], d) == WithDate(t[1..], d)
  {
    WithDateCons(s[0], s[1..], d);
    WithDateCons(t[0], t[1..], d);
    assert s == [s[0]] + s[1..] && t == [t[0]] + t[1..];
    var head := if s[0].date == d then [s[0]] else [];
    assert WithDate(s[1..], d) == WithDate(s, d)[|head|..];
    assert WithDate(t[1..], d) == WithDate(t, d)[|head|..];
  }

  lemma TailSorted(s: seq<Episode>)
    requires SortedByDate(s) && s != []
    ensures SortedByDate(s[1..])
  {
    assert forall i :: 0 <= i < |s| - 1 ==> s[1..][i] == s[i + 1];
  }

  lemma WithDateOwnHead(s: seq<Episode>)
    requires s != []
    ensures WithDate(s, s[0].date) != []
  {
  }

  /**
   * In a sorted sequence whose first date is at least `d`, the episodes dated `d`
   * are led by its head if the head has date `d`, and there are none otherwise.
   */
  lemma {:induction false} WithDateHead(s: seq<Episode>, d: int)
    requires SortedByDate(s) && s != [] && d <= s[0].date
    ensures s[0].date == d ==> WithDate(s, d) != [] && WithDate(s, d)[0] == s[0]
    ensures s[0].date != d ==> WithDate(s, d) == []
  {
    if s[0].date != d && |s| > 1 {
      TailSorted(s);
      assert s[1] == s[1..][0];
      WithDateHead(s[1..], d);
    }
  }

  // ---------------------------------------------------------------------------
  // Show::new

  /**
   * What `Show::new` returns for a response. `checkedAt` and `uploadAt` stand for its
   * two separate `Utc::now()` readings, which need not be equal.
   */
  function Build(url: string, response: Response, checkedAt: int, uploadAt: int): Outcome<Show> {
    match response
    case TransportFailure => Failed(NetworkError)
    case Body(Unreadable) => Panicked(UnreadableChannel)
    case Body(Readable(channel)) =>
      if Dated(channel.items)
      then Done(Show(url, channel.title, SortByDate(Extract(url, channel.items)), checkedAt, uploadAt))
      else Panicked(BadPublishDate)
  }

  /**
   * Every extracted episode traces back to an item with an enclosure, taking its
   * media URL, its title (or the feed URL) and its date from it; every such item
   * yields one; each is fresh.
   */
  lemma {:induction false} ExtractTraces(url: string, items: seq<Item>)
    requires Dated(items)
    ensures |Extract(url, items)| == |Enclosed(items)|
    ensures forall e :: e in Extract(url, items) ==> Fresh(e) && Traced(url, items, e)
    ensures forall it :: it in items && it.enclosure.Some? ==> FromItem(url, it) in Extract(url, items)
  {
    if items != [] {
      var init := items[..|items| - 1];
      var last := items[|items| - 1];
      assert forall i :: 0 <= i < |init| ==> init[i] == items[i];
      assert items == init + [last];
      ExtractTraces(url, init);
    }
  }

  /**
   * What `Show::new` promises of the episodes it stores for `items`: one per item
   * with an enclosure, sorted by date, a permutation of the extracted episodes that
   * keeps episodes of equal date in feed order, each fresh and traced to its item,
   * and every item with an enclosure represented.
   */
  ghost predicate StoredEpisodes(url: string, items: seq<Item>, episodes: seq<Episode>)
    requires Dated(items)
  {
    var extracted := Extract(url, items);
    && |episodes| == |Enclosed(items)|
    && SortedByDate(episodes)
    && multiset(episodes) == multiset(extracted)
    && (forall d :: WithDate(episodes, d) == WithDate(extracted, d))
    && (forall e :: e in episodes ==> Fresh(e) && Traced(url, items, e))
    && (forall it :: it in items && it.enclosure.Some? ==> FromItem(url, it) in episodes)
  }

  /** Sorting the extracted episodes gives what `Show::new` promises. */
  lemma SortedExtraction(url: string, items: seq<Item>)
    requires Dated(items)
    ensures StoredEpisodes(url, items, SortByDate(Extract(url, items)))
  {
    var extracted := Extract(url, items);
    var sorted := SortByDate(extracted);
    ExtractTraces(url, items);
    forall e ensures e in sorted <==> e in extracted {
      assert e in sorted <==> e in multiset(sorted);
      assert e in extracted <==> e in multiset(extracted);
    }
    forall d ensures WithDate(sorted, d) == WithDate(extracted, d) {
      SortByDateStable(extracted, d);
    }
  }

  /** `Show::new`: the item loop with its early panic and `continue`, then the sort. */
  method New(url: string, response: Response, checkedAt: int, uploadAt: int) returns (r: Outcome<Show>)
    ensures r == Build(url, response, checkedAt, uploadAt)
    ensures r == Failed(NetworkError) <==> response.TransportFailure?
    ensures r == Panicked(UnreadableChannel) <==> response == Body(Unreadable)
    ensures r == Panicked(BadPublishDate) <==>
      response.Body? && response.document.Readable? && !Dated(response.document.channel.items)
    ensures r.Done? ==>
      var channel := response.document.channel;
      && r.value.url == url
      && r.value.name == channel.title
      && r.value.lastChecked == checkedAt && r.value.lastUpload == uploadAt
      && Dated(channel.items)
      && StoredEpisodes(url, channel.items, r.value.episodes)
  {
    if response.TransportFailure? {
      return Failed(NetworkError);
    }
    if response.document.Unreadable? {
      return Panicked(UnreadableChannel);
    }
    var channel := response.document.channel;
    var items := channel.items;
    var episodes: seq<Episode> := [];
    var i := 0;
    while i < |items|
      invariant 0 <= i <= |items|
      invariant Dated(items[..i])
      invariant episodes == Extract(url, items[..i])
    {
      var item := items[i];
      assert items[..i + 1][..i] == items[..i];
      if item.pubDate.None? {
        return Panicked(BadPublishDate);
      }
      assert Dated(items[..i + 1]) by {
        assert forall j :: 0 <= j < i ==> items[..i + 1][j] == items[..i][j];
      }
      if item.enclosure.None? {
        i := i + 1;
        continue;
      }
      var title := if item.title.Some? then item.title.value else url;
      episodes := episodes + [Episode(item.enclosure.value, title, item.pubDate.value, None, 0, false)];
      i := i + 1;
    }
    assert items[..i] == items;
    var sorted := SortByDate(episodes);
    SortedExtraction(url, items);
    r := Done(Show(url, channel.title, sorted, checkedAt, uploadAt));
  }

  // ---------------------------------------------------------------------------
  // Accessors

  /** `Show::episodes`: a fresh vector holding the stored episodes, in order. */
  method Episodes(show: Show) returns (refs: seq<Episode>)
    ensures |refs| == |show.episodes|
    ensures forall i :: 0 <= i < |refs| ==> refs[i] == show.episodes[i]
  {
    refs := [];
    for i := 0 to |show.episodes|
      invariant refs == show.episodes[..i]
    {
      refs := refs + [show.episodes[i]];
    }
  }

  /** `Show::episode_titles`: the title of each episode, in episode order. */
  method EpisodeTitles(show: Show) returns (titles: seq<string>)
    ensures |titles| == |show.episodes|
    ensures forall i :: 0 <= i < |titles| ==> titles[i] == show.episodes[i].title
  {
    var refs := Episodes(show);
    titles := [];
    for i := 0 to |refs|
      invariant |titles| == i
      invariant forall j :: 0 <= j < i ==> titles[j] == refs[j].title
    {
      titles := titles + [refs[i].title];
    }
  }
}
