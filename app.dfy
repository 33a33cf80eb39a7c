/**
 * The terminal front end's `App` (undersea-tui/src/app/mod.rs): a quit flag and a
 * show cursor, driven by key presses read one at a time in the `run` loop.
 */
module TuiApp {
  import opened Wrappers
  import opened ListCursor
  import Catalog

  datatype KeyCode = Char(ch: char) | Other(code: nat)

  datatype KeyEventKind = Press | Repeat | Release

  datatype KeyEvent = KeyEvent(code: KeyCode, kind: KeyEventKind)

  /** The terminal events crossterm's `event::read` can return. */
  datatype Event =
    | Key(key: KeyEvent)
    | FocusGained
    | FocusLost
    | Mouse
    | Paste(text: string)
    | Resize(columns: nat, rows: nat)

  /** What `event::read` gave. */
  datatype ReadResult = ReadFailed | Read(event: Event)

  /** One pass of the `run` loop: the draw failed, or it succeeded and the next read gave `input`. */
  datatype Frame = DrawFailed | Drawn(input: ReadResult)

  /**
   * How `run` ended: `exit` was set, a draw or read error came back, the `unwrap` of
   * the selection in `draw` panicked, or the model's input ran out.
   */
  datatype RunOutcome = Exited | IoError | DrawPanicked | InputEnded

  /** The part of `App` its event handling changes. */
  datatype State = State(exit: bool, selected: Option<Index>)

  /** `handle_key_event`: `q` quits, `k` and `j` move the cursor, any other key does nothing. */
  function OnKey(s: State, code: KeyCode): State {
    if code == Char('q') then s.(exit := true)
    else if code == Char('k') then s.(selected := SelectPrevious(s.selected))
    else if code == Char('j') then s.(selected := SelectNext(s.selected))
    else s
  }

  /** `handle_events`: only key presses reach `handle_key_event`. */
  function OnEvent(s: State, e: Event): State {
    if e.Key? && e.key.kind == Press then OnKey(s, e.key.code) else s
  }

  /** `draw` renders the list of `count` shows with the cursor, which clamps the selection. */
  function OnDraw(s: State, count: nat): State {
    s.(selected := Clamp(s.selected, count))
  }

  /** The state after the frames `frames` were drawn and handled in order, over `count` shows. */
  function AfterFrames(s: State, frames: seq<Frame>, count: nat): State {
    if frames == [] then s
    else
      var drawn := OnDraw(AfterFrames(s, frames[..|frames| - 1], count), count);
      var f := frames[|frames| - 1];
      if f.Drawn? && f.input.Read? then OnEvent(drawn, f.input.event) else drawn
  }

  /** What each key does, and that nothing else does anything. */
  lemma KeyEffects(s: State, e: Event)
    ensures e == Key(KeyEvent(Char('q'), Press)) ==> OnEvent(s, e) == State(true, s.selected)
    ensures e == Key(KeyEvent(Char('k'), Press)) ==> OnEvent(s, e) == State(s.exit, SelectPrevious(s.selected))
    ensures e == Key(KeyEvent(Char('j'), Press)) ==> OnEvent(s, e) == State(s.exit, SelectNext(s.selected))
    ensures OnEvent(s, e) != s ==> e.Key? && e.key.kind == Press && e.key.code in {Char('q'), Char('k'), Char('j')}
    ensures OnEvent(s, e).exit != s.exit ==> e == Key(KeyEvent(Char('q'), Press))
  {
  }

  /**
   * Once `exit` is set neither a draw nor an event clears it, and while there is at
   * least one show, a selection once made is never cleared.
   */
  lemma {:induction false} HandlingKeeps(s: State, frames: seq<Frame>, count: nat)
    ensures s.exit ==> AfterFrames(s, frames, count).exit
    ensures s.selected.Some? && 0 < count ==> AfterFrames(s, frames, count).selected.Some?
  {
    if frames != [] {
      HandlingKeeps(s, frames[..|frames| - 1], count);
    }
  }

  /**
   * With at least one show and a show selected to begin with, every later draw
   * unwraps a selection that lies inside the list; with no shows, the first draw
   * clears the selection and its `unwrap` panics.
   */
  lemma DrawInRange(s: State, frames: seq<Frame>, count: nat)
    ensures s.selected.Some? && 0 < count ==>
      var drawn := OnDraw(AfterFrames(s, frames, count), count);
      drawn.selected.Some? && drawn.selected.value < count
    ensures count == 0 ==> OnDraw(AfterFrames(s, frames, count), count).selected.None?
  {
    HandlingKeeps(s, frames, count);
  }

  class App {
    var shows: Catalog.Shows
    var selected: Option<Index>
    var exit: bool

    function Snapshot(): State
      reads this
    {
      State(exit, selected)
    }

    /**
     * `App::new`, given the catalog it builds (`Shows::default` and `add_multiple`
     * are not part of this model): not exiting, first show selected.
     */
    constructor (shows: Catalog.Shows)
      ensures this.shows == shows
      ensures !exit && selected == Some(0)
    {
      this.shows := shows;
      exit := false;
      selected := Some(0);
    }

    /**
     * `selected_show_title`, given the catalog's `names()` (not part of this model):
     * `"..."` with no selection, otherwise the selected name; indexing past the
     * end panics, so callers must stay within `names`.
     */
    function SelectedShowTitle(names: seq<string>): (title: string)
      reads this
      requires selected.Some? ==> selected.value < |names|
      ensures selected.None? ==> title == "..."
      ensures selected.Some? ==> title == names[selected.value]
    {
      match selected
      case Some(i) => names[i]
      case None => "..."
    }

    /** The selection `draw` unwraps after rendering the show list; with none it panics. */
    function DrawnShow(): (i: Index)
      reads this
      requires selected.Some?
      ensures selected == Some(i)
    {
      selected.value
    }

    /** `exit`: raise the quit flag, nothing else. */
    method Exit()
      modifies this
      ensures exit
      ensures selected == old(selected) && shows == old(shows)
    {
      exit := true;
    }

    /** `handle_key_event`. */
    method HandleKeyEvent(key: KeyEvent)
      modifies this
      ensures Snapshot() == OnKey(old(Snapshot()), key.code)
      ensures shows == old(shows)
    {
      if key.code == Char('q') {
        Exit();
      } else if key.code == Char('k') {
        selected := SelectPrevious(selected);
      } else if key.code == Char('j') {
        selected := SelectNext(selected);
      }
    }

    /** `handle_events`: a read error is returned; a key press is handled; the rest is ignored. */
    method HandleEvents(input: ReadResult) returns (ok: bool)
      modifies this
      ensures ok <==> input.Read?
      ensures Snapshot() == if ok then OnEvent(old(Snapshot()), input.event) else old(Snapshot())
      ensures shows == old(shows)
    {
      if input.ReadFailed? {
        return false;
      }
      match input.event {
        case Key(key) =>
          if key.kind == Press {
            HandleKeyEvent(key);
          }
        case _ =>
      }
      return true;
    }

    /**
     * `run`: while `exit` is unset, draw and handle the next event. The terminal's
     * endless event stream is the finite `frames`; `handled` counts the frames
     * fully handled. Each draw first renders the show list, which clamps the
     * selection to the catalog's length, and then unwraps the selection. Each pass
     * starts with `exit` unset, and the loop ends with `Exited` exactly when `exit`
     * is set.
     */
    method Run(frames: seq<Frame>) returns (outcome: RunOutcome, handled: nat)
      modifies this
      ensures shows == old(shows)
      ensures handled <= |frames|
      ensures Snapshot() ==
        var prefix := AfterFrames(old(Snapshot()), frames[..handled], |shows.feed|);
        if outcome == DrawPanicked || outcome == IoError then OnDraw(prefix, |shows.feed|) else prefix
      ensures forall k :: 0 <= k < handled ==> frames[k].Drawn? && frames[k].input.Read?
      ensures forall k :: 0 <= k < handled ==> !AfterFrames(old(Snapshot()), frames[..k], |shows.feed|).exit
      ensures outcome == Exited <==> exit
      ensures outcome == DrawPanicked ==> handled < |frames| && selected.None?
      ensures outcome == IoError ==>
        handled < |frames| && (frames[handled].DrawFailed? || frames[handled].input.ReadFailed?)
      ensures outcome == InputEnded ==> handled == |frames|
      ensures old(selected).Some? ==>
        (outcome == DrawPanicked <==> |shows.feed| == 0 && !old(exit) && frames != [])
    {
      var count := |shows.feed|;
      handled := 0;
      while !exit
        invariant shows == old(shows) && count == |shows.feed|
        invariant handled <= |frames|
        invariant Snapshot() == AfterFrames(old(Snapshot()), frames[..handled], count)
        invariant forall k :: 0 <= k < handled ==> frames[k].Drawn? && frames[k].input.Read?
        invariant forall k :: 0 <= k < handled ==> !AfterFrames(old(Snapshot()), frames[..k], count).exit
        invariant 0 < handled ==> 0 < count
        decreases |frames| - handled
      {
        if handled == |frames| {
          return InputEnded, handled;
        }
        HandlingKeeps(old(Snapshot()), frames[..handled], count);
        // The show list is rendered with the cursor before the selection is unwrapped.
        selected := Clamp(selected, count);
        if selected.None? {
          return DrawPanicked, handled;
        }
        var shown := DrawnShow();
        if frames[handled].DrawFailed? {
          return IoError, handled;
        }
        var ok := HandleEvents(frames[handled].input);
        if !ok {
          return IoError, handled;
        }
        assert frames[..handled + 1][..handled] == frames[..handled];
        handled := handled + 1;
      }
      outcome := Exited;
    }
  }
}
