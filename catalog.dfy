/**
 * The catalog `Shows` (undersea-lib/src/lib.rs): an append-only list of feeds
 * plus the time it was created.
 */
module Catalog {
  import opened Errors
  import opened Channels
  import FeedRevision

  /**
   * One call `add_show(url)`: the URL, what fetching it gave, and the two clock
   * readings taken for `last_checked` and `last_upload`.
   */
  datatype AddCall = AddCall(url: string, response: Response, checkedAt: int, uploadAt: int)

  /** The feed list after one `add_show` call: one more feed if ingestion succeeded. */
  function AfterAdd(feeds: seq<FeedRevision.Feed>, call: AddCall): seq<FeedRevision.Feed> {
    match FeedRevision.Build(call.url, call.response, call.checkedAt, call.uploadAt)
    case Done(feed) => feeds + [feed]
    case _ => feeds
  }

  /** The feed list after a run of `add_show` calls, in call order. */
  function AfterAdds(feeds: seq<FeedRevision.Feed>, calls: seq<AddCall>): seq<FeedRevision.Feed>
    decreases |calls|
  {
    if calls == [] then feeds else AfterAdds(AfterAdd(feeds, calls[0]), calls[1..])
  }

  /** The feeds the successful calls among `calls` build, in call order. */
  function Successes(calls: seq<AddCall>): seq<FeedRevision.Feed> {
    if calls == [] then []
    else
      var c := calls[0];
      (match FeedRevision.Build(c.url, c.response, c.checkedAt, c.uploadAt)
       case Done(feed) => [feed]
       case _ => []) + Successes(calls[1..])
  }

  /**
   * After any run of `add_show` calls the catalog holds its earlier feeds followed
   * by the feeds of the successful calls, in the order the calls were made.
   */
  lemma {:induction false} AfterAddsAppendsSuccesses(feeds: seq<FeedRevision.Feed>, calls: seq<AddCall>)
    ensures AfterAdds(feeds, calls) == feeds + Successes(calls)
    decreases |calls|
  {
    if calls != [] {
      AfterAddsAppendsSuccesses(AfterAdd(feeds, calls[0]), calls[1..]);
      var c := calls[0];
      match FeedRevision.Build(c.url, c.response, c.checkedAt, c.uploadAt)
      case Done(feed) =>
        assert feeds + [feed] + Successes(calls[1..]) == feeds + ([feed] + Successes(calls[1..]));
      case _ =>
    }
  }

  class Shows {
    var feed: seq<FeedRevision.Feed>
    var lastChange: int

    /** `Shows::new`: no feeds, created at `now`. */
    constructor (now: int)
      ensures feed == [] && lastChange == now
    {
      feed := [];
      lastChange := now;
    }

    /**
     * `Shows::add_show`: ingest `url` and push the feed; an error or a panic comes
     * back before the push, so the list is then unchanged. `last_change` is never
     * touched.
     */
    method AddShow(url: string, response: Response, checkedAt: int, uploadAt: int) returns (r: Outcome<()>)
      modifies this
      ensures feed == AfterAdd(old(feed), AddCall(url, response, checkedAt, uploadAt))
      ensures lastChange == old(lastChange)
      ensures r.Done? <==> FeedRevision.Build(url, response, checkedAt, uploadAt).Done?
      ensures r.Failed? ==> r.error == NetworkError && response.TransportFailure? && feed == old(feed)
      ensures r.Panicked? ==> FeedRevision.Build(url, response, checkedAt, uploadAt) == Panicked(r.site) && feed == old(feed)
      ensures r.Done? ==>
        && |feed| == |old(feed)| + 1
        && feed[..|old(feed)|] == old(feed)
        && feed[|feed| - 1] == FeedRevision.Build(url, response, checkedAt, uploadAt).value
    {
      var built := FeedRevision.New(url, response, checkedAt, uploadAt);
      match built {
        case Failed(e) => return Failed(e);
        case Panicked(site) => return Panicked(site);
        case Done(f) =>
          feed := feed + [f];
          return Done(());
      }
    }
  }
}
