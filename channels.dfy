/**
 * The input of feed ingestion: what the HTTP transfer and the RSS parser hand over.
 *
 * Fetching and parsing are outside the model. A `Response` is either a transport
 * failure or a body; a body is either a document the RSS parser rejects or a parsed
 * channel. Publish dates arrive already parsed: `None` stands for an item with no
 * `pubDate` or with one that is not an RFC 2822 date-time (section 3.3 of RFC 2822),
 * `Some(t)` for the instant `t` in seconds.
 */
module Channels {
  import opened Wrappers

  datatype Item = Item(title: Option<string>, enclosure: Option<string>, pubDate: Option<int>)

  datatype Channel = Channel(title: string, items: seq<Item>)

  datatype Document = Unreadable | Readable(channel: Channel)

  datatype Response = TransportFailure | Body(document: Document)

  /** Every item carries a parseable publish date, so no date `unwrap` panics. */
  predicate Dated(items: seq<Item>) {
    forall i :: 0 <= i < |items| ==> items[i].pubDate.Some?
  }

  /** The label of an episode: the item's title, or the feed URL when it has none. */
  function TitleOr(item: Item, feedUrl: string): (t: string)
    ensures item.title.None? ==> t == feedUrl
    ensures item.title.Some? ==> t == item.title.value
  {
    item.title.GetOr(feedUrl)
  }

  /**
   * The items that yield an episode, in feed order: those with an enclosure.
   * Built from the back, as the ingestion loop pushes onto the end.
   */
  function Enclosed(items: seq<Item>): (r: seq<Item>)
    ensures |r| <= |items|
    ensures forall k :: 0 <= k < |r| ==> r[k].enclosure.Some?
    ensures (exists i :: 0 <= i < |items| && items[i].enclosure.None?) ==> |r| < |items|
  {
    if items == [] then []
    else
      var init := items[..|items| - 1];
      var last := items[|items| - 1];
      assert forall i :: 0 <= i < |items| - 1 ==> items[i] == init[i];
      Enclosed(init) + (if last.enclosure.Some? then [last] else [])
  }

  /** An item is kept exactly when it is one of `items` and has an enclosure. */
  lemma {:induction false} EnclosedMembers(items: seq<Item>)
    ensures forall it :: it in Enclosed(items) <==> it in items && it.enclosure.Some?
  {
    if items != [] {
      var init := items[..|items| - 1];
      var last := items[|items| - 1];
      EnclosedMembers(init);
      assert items == init + [last];
    }
  }

  /** Every item has an enclosure exactly when none is skipped. */
  lemma EnclosedAll(items: seq<Item>)
    ensures Enclosed(items) == items <==> forall i :: 0 <= i < |items| ==> items[i].enclosure.Some?
  {
    if forall i :: 0 <= i < |items| ==> items[i].enclosure.Some? {
      EnclosedKeepsAll(items);
    } else {
      var i :| 0 <= i < |items| && items[i].enclosure.None?;
      assert |Enclosed(items)| < |items|;
    }
  }

  lemma {:induction false} EnclosedKeepsAll(items: seq<Item>)
    requires forall i :: 0 <= i < |items| ==> items[i].enclosure.Some?
    ensures Enclosed(items) == items
  {
    if items != [] {
      var init := items[..|items| - 1];
      assert forall i :: 0 <= i < |init| ==> init[i].enclosure.Some? by {
        assert forall i :: 0 <= i < |init| ==> init[i] == items[i];
      }
      EnclosedKeepsAll(init);
      var last := items[|items| - 1];
      assert last.enclosure.Some?;
      assert Enclosed(items) == Enclosed(init) + [last];
      assert items == init + [last];
    }
  }
}
