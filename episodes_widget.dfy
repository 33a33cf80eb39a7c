/**
 * The episode list's rows (undersea-tui/src/widgets/episodes.rs): each episode
 * becomes one line of three spans, title, a run of spaces that pushes the date
 * to the right edge, and the date; only the selected episode's title is
 * highlighted.
 */
module EpisodesWidget {
  import opened Wrappers
  import ShowRevision

  /** A terminal width, a `u16`. */
  type U16 = w: nat | w <= 0xFFFF

  /** The styles the rows use. */
  datatype Style =
    | Highlighted   // green, bold: the selected episode's title
    | Plain         // white, not bold: any other title
    | Red           // the separator
    | Gray          // the date

  datatype Span = Span(text: string, style: Style)

  datatype Line = Line(spans: seq<Span>)

  /**
   * The separator width: the room left after the title, the date and the three
   * columns of the highlight marker. The needed width is a `usize`; converting it
   * to `u16` falls back to 0 when it does not fit, and the subtraction saturates
   * at 0.
   */
  function Distance(width: U16, titleLen: nat, dateLen: nat): (d: U16)
    ensures 3 + titleLen + dateLen <= width ==> d == width - (3 + titleLen + dateLen)
    ensures width < 3 + titleLen + dateLen <= 0xFFFF ==> d == 0
    ensures 0xFFFF < 3 + titleLen + dateLen ==> d == width
  {
    var needed := 3 + titleLen + dateLen;
    var needed16: U16 := if needed <= 0xFFFF then needed else 0;
    if needed16 <= width then width - needed16 else 0
  }

  /** `" ".repeat(n)`. */
  function Spaces(n: nat): (s: string)
    ensures |s| == n
    ensures forall i :: 0 <= i < |s| ==> s[i] == ' '
  {
    if n == 0 then "" else Spaces(n - 1) + " "
  }

  /** The title style of row `id`. */
  function TitleStyle(id: nat, selectedEpisode: Option<nat>): (style: Style)
    ensures style == Highlighted <==> selectedEpisode == Some(id)
    ensures style == Highlighted || style == Plain
  {
    if selectedEpisode == Some(id) then Highlighted else Plain
  }

  /**
   * The rows `render` builds, before handing them to ratatui's `List`. `format`
   * stands for chrono's `format("%Y-%m-%d %H:%M")`, which is not part of this model;
   * the widget reads only each episode's title and date.
   */
  method Rows(episodes: seq<ShowRevision.Episode>, selectedEpisode: Option<nat>, width: U16, format: int -> string)
    returns (items: seq<Line>)
    ensures |items| == |episodes|
    ensures forall i :: 0 <= i < |items| ==>
      var title, date := episodes[i].title, format(episodes[i].date);
      && |items[i].spans| == 3
      && items[i].spans[0] == Span(title, TitleStyle(i, selectedEpisode))
      && items[i].spans[1].style == Red
      && |items[i].spans[1].text| == Distance(width, |title|, |date|)
      && (forall c :: c in items[i].spans[1].text ==> c == ' ')
      && items[i].spans[2] == Span(date, Gray)
    ensures forall i :: 0 <= i < |items| ==> (items[i].spans[0].style == Highlighted <==> selectedEpisode == Some(i))
  {
    items := [];
    for id := 0 to |episodes|
      invariant |items| == id
      invariant forall i :: 0 <= i < id ==>
        var title, date := episodes[i].title, format(episodes[i].date);
        && |items[i].spans| == 3
        && items[i].spans[0] == Span(title, TitleStyle(i, selectedEpisode))
        && items[i].spans[1].style == Red
        && |items[i].spans[1].text| == Distance(width, |title|, |date|)
        && (forall c :: c in items[i].spans[1].text ==> c == ' ')
        && items[i].spans[2] == Span(date, Gray)
    {
      var episode := episodes[id];
      var date := format(episode.date);
      var distance := Distance(width, |episode.title|, |date|);
      var separator := Spaces(distance);
      var titleStyle := TitleStyle(id, selectedEpisode);
      var spans := [Span(episode.title, titleStyle), Span(separator, Red), Span(date, Gray)];
      items := items + [Line(spans)];
    }
  }
}
