# undersea — a Dafny model of feed ingestion, the show catalog and the terminal app

undersea is a podcast aggregator written in Rust. `undersea-lib` fetches an RSS
feed, turns each item that carries a media enclosure into an episode and keeps
the resulting shows in a catalog. `undersea-tui` is a terminal front end: a quit
flag and a show cursor driven by key presses, and an episode list whose rows
align each publish date to the right edge.

This project models, and proves properties of:

- `Feed::new` (undersea-lib/src/feed.rs) and `Show::new` (undersea-lib/src/show.rs),
  the two revisions of per-item extraction. Any item with a missing or unparseable
  publish date panics. This happens before the enclosure test, so it holds even for
  items that would have been skipped. Items without an enclosure are skipped. A
  missing title falls back to the feed URL. Playback fields get fixed defaults.
  `Show::new` then sorts the episodes stably by date, and `Feed::new` does not.
- `Show::episodes` and `Show::episode_titles`, the copy loops over a show's episodes.
- The catalog `Shows` (undersea-lib/src/lib.rs). It is an append-only list of feeds,
  and `add_show` pushes only after a successful ingestion.
- `App` (undersea-tui/src/app/mod.rs). `q` quits, `k` and `j` move the cursor, and
  every other key does nothing. Only key presses are dispatched. `run` loops while
  `exit` is unset. Each draw renders the show list, which clamps the selection to
  the catalog, before it unwraps the selection, so an empty catalog panics there.
  `selected_show_title` falls back to `"..."`.
- The row construction of the episode list (undersea-tui/src/widgets/episodes.rs).
  It covers the separator width, with its `u16` conversion and saturating
  subtraction, the highlight choice, and the order of the spans.

Files: `wrappers.dfy` (Option), `errors.dfy` (the ingestion outcome),
`channels.dfy` (the parsed feed handed to ingestion), `feed.dfy`, `show.dfy`,
`catalog.dfy`, `cursor.dfy` (the assumed behaviour of ratatui's list selection),
`app.dfy` and `episodes_widget.dfy`.

Outcomes keep the library's one error apart from the panics. `Failed(NetworkError)`
is `FeedError::NetworkError` (undersea-lib/src/error.rs:4-7). `Panicked(UnreadableChannel)`
and `Panicked(BadPublishDate)` are the `unwrap` calls at undersea-lib/src/show.rs:24
and :28 (feed.rs:20 and :24).

The model follows the code as written:

- A bad publish date aborts the whole ingestion. It is not a per-item skip.
- `add_show` never updates `last_change`. Only `Shows::new` sets it.
- `Feed::new` does not sort. Only `Show::new` does.
- The app has no left/right focus, episode cursor or confirm key.
- There is no `add_many`, `names` or show lookup.
- The two revisions give an episode's `resume_time` different shapes. episode.rs:11
  declares `Option<Duration>` and `Feed::new` sets `None`, while show.rs:51 stores a
  plain `Duration` of zero. Each revision has its own `Episode` datatype.

## Model

| member | source | states |
|---|---|---|
| `Channels.Enclosed` | undersea-lib/src/show.rs:30-36 | every item kept for an episode has an enclosure; if some item lacks one, strictly fewer items are kept than the feed has |
| `Channels.EnclosedMembers` | undersea-lib/src/show.rs:30-36 | an item is kept exactly when it is in the feed and has an enclosure |
| `Channels.EnclosedAll` | undersea-lib/src/show.rs:30-36 | no item is skipped if and only if every item has an enclosure |
| `FeedRevision.New` | undersea-lib/src/feed.rs:18-58 | transport failure is `Err(NetworkError)`; an unreadable document panics; any undated item panics, even one without enclosure; on success url and name are kept, `last_checked` and `last_upload` are each their own clock reading, episode k comes from the k-th enclosed item (feed order, no sort) with title falling back to the URL, and duration/resume_time are unset and finished is false |
| `FeedRevision.ExtractAt` | undersea-lib/src/feed.rs:23-49 | the loop's k-th pushed episode is built from the k-th item with an enclosure, with the fallback title and fresh playback fields |
| `FeedRevision.ExtractLength` | undersea-lib/src/feed.rs:26-40 | every item with an enclosure yields exactly one episode and no other item yields one |
| `ShowRevision.New` | undersea-lib/src/show.rs:19-65 | same error and panic cases as `Feed::new`; on success url and name are kept, `last_checked` and `last_upload` are each their own clock reading, and the episodes meet `StoredEpisodes`: one per enclosed item, sorted non-decreasing by date, a permutation of the extracted episodes with equal-date episodes in feed order, each fresh (no duration, resume 0, not finished) and traced to its item's enclosure, title-or-URL and date, every enclosed item represented |
| `ShowRevision.SortedExtraction` | undersea-lib/src/show.rs:27-56 | the sorted extracted episodes meet everything `Show::new` promises of its episode list (`StoredEpisodes`) |
| `ShowRevision.ExtractTraces` | undersea-lib/src/show.rs:27-54 | every extracted episode is fresh and traces back to an enclosed item; every enclosed item's episode is extracted; count equals the number of enclosed items |
| `ShowRevision.SortByDate` | undersea-lib/src/show.rs:56 | the sorted list is sorted non-decreasing by date and is a permutation of the input, of the same length |
| `ShowRevision.SortByDateStable` | undersea-lib/src/show.rs:56 | `sort_by_key` is stable: for every date, the episodes with that date keep their input order |
| `ShowRevision.InsertByDate` | undersea-lib/src/show.rs:56 | inserting one episode adds exactly that episode to the multiset |
| `ShowRevision.InsertSorted` | undersea-lib/src/show.rs:56 | insertion keeps a date-sorted list sorted |
| `ShowRevision.InsertWithDate` | undersea-lib/src/show.rs:56 | the inserted episode goes before every episode of the same date already present |
| `ShowRevision.StableSortUnique` | undersea-lib/src/show.rs:56 | two lists sorted by date with the same per-date subsequences are equal, so the stable order is unique |
| `ShowRevision.Episodes` | undersea-lib/src/show.rs:94-100 | `episodes()` returns the stored episodes, same length and order |
| `ShowRevision.EpisodeTitles` | undersea-lib/src/show.rs:104-112 | `episode_titles()[i]` is the title of episode i, one per episode |
| `Catalog.Shows.constructor` | undersea-lib/src/lib.rs:21-26 | a new catalog has no feeds and `last_change` is the creation time |
| `Catalog.Shows.AddShow` | undersea-lib/src/lib.rs:29-32 | on success the list grows by one with the new feed last and earlier feeds untouched; on error or panic the list is unchanged and the error is the ingestion's; `last_change` never changes |
| `Catalog.AfterAddsAppendsSuccesses` | undersea-lib/src/lib.rs:29-31 | after any sequence of `add_show` calls the catalog is its earlier feeds followed by the successful calls' feeds in call order |
| `ListCursor.MovesSelect` | undersea-tui/src/app/mod.rs:99-100 | under the assumed `ListState` behaviour both moves always leave a selection and move it by at most one |
| `ListCursor.MovesUndo` | undersea-tui/src/app/mod.rs:99-100 | away from the ends, previous undoes next and next undoes previous |
| `ListCursor.Clamp` | undersea-tui/src/app/mod.rs:67 | under the assumed `List` rendering, the selection survives the render exactly when there was one and the list is non-empty, then lies inside the list; an in-range selection is kept and one past the end moves to the last show |
| `TuiApp.KeyEffects` | undersea-tui/src/app/mod.rs:86-103 | a `q` press sets exit only, `k`/`j` presses move the cursor only, every other key and every non-press event changes nothing; only `q` changes `exit` |
| `TuiApp.HandlingKeeps` | undersea-tui/src/app/mod.rs:31-37 | over any sequence of draws and events, a set `exit` is never reset, and with at least one show a selection is never cleared |
| `TuiApp.DrawInRange` | undersea-tui/src/app/mod.rs:67-71 | with at least one show and an initial selection, every draw unwraps an index inside the show list; with no shows the draw's selection is empty, so the `unwrap` panics |
| `TuiApp.App.constructor` | undersea-tui/src/app/mod.rs:19-29 | a new app has `exit` false, the first show selected and the given catalog |
| `TuiApp.App.SelectedShowTitle` | undersea-tui/src/app/mod.rs:39-45 | `"..."` with no selection, otherwise the selected show's name, within the names' bounds |
| `TuiApp.App.DrawnShow` | undersea-tui/src/app/mod.rs:71 | the `unwrap` in `draw` yields the selected index; it is only reached with a selection, the `DrawPanicked` case of `Run` covers the rest |
| `TuiApp.App.Exit` | undersea-tui/src/app/mod.rs:82-84 | sets `exit`, leaves the cursor and catalog alone |
| `TuiApp.App.HandleKeyEvent` | undersea-tui/src/app/mod.rs:96-103 | the new state is the key's effect on the old one; the catalog is untouched |
| `TuiApp.App.HandleEvents` | undersea-tui/src/app/mod.rs:86-94 | a read error is returned with nothing changed; a read event is applied, key presses only |
| `TuiApp.App.Run` | undersea-tui/src/app/mod.rs:31-37 | every pass starts with `exit` unset and first clamps the selection to the catalog; the state after the loop is the handled frames' effect (plus the last clamp when a draw or read fails or the unwrap panics); it ends `Exited` exactly when `exit` is set; a draw or read error ends it at that frame; from a selected show it panics in `draw` exactly when the catalog is empty, `exit` was unset and a frame came |
| `EpisodesWidget.Distance` | undersea-tui/src/widgets/episodes.rs:35-39 | when title, date and 3 fit, the padding is the rest of the width; when they do not but need at most 65535, it is 0; when they need more than 65535 the `u16` conversion gives 0 and the padding is the whole width |
| `EpisodesWidget.Spaces` | undersea-tui/src/widgets/episodes.rs:41 | the separator has the requested length and only spaces |
| `EpisodesWidget.TitleStyle` | undersea-tui/src/widgets/episodes.rs:43-47 | the highlighted style is chosen exactly when the row index is the selected episode |
| `EpisodesWidget.Rows` | undersea-tui/src/widgets/episodes.rs:26-57 | one line per episode in order, each exactly title, separator, date; the separator is spaces of the computed width; only the selected row's title is highlighted |

## Left out

- HTTP transfer and async: `reqwest::get` and `.bytes()` become the `Response` input. Any transport failure is `TransportFailure`.
- RSS parsing: `Channel::read_from` becomes the `Document` input. A document it rejects is `Unreadable`.
- RFC 2822 date parsing becomes an item's `pubDate: Option<int>`. Formatting a date for display becomes the `format` parameter of `EpisodesWidget.Rows`.
- `Utc::now()` becomes a parameter. `Feed::new` and `Show::new` read the clock twice, so `New` and `Build` in `FeedRevision` and `ShowRevision` take the two readings `checkedAt` and `uploadAt`. `Shows::new` reads it once, as `now`.
- The item's content/body and the channel image are not read by the code, so they are not modelled.
- A panic aborts the program. The model returns `Panicked` instead.
- ShowRevision.New: the in-place merge sort behind `sort_by_key` is not modelled. The method sorts a sequence with a stable insertion sort, and the order that results is the same, as `StableSortUnique` shows.
- ratatui's `ListState` and `List`: `select_next`, `select_previous` and the render's clamping are taken to behave as `ListCursor` states. The list is assumed to be drawn into a non-empty area: when the terminal leaves it no room, ratatui skips the clamp, and that case is not modelled. The show list is taken to have one row per feed in the catalog.
- TuiApp.App.Run: a draw error is taken to come after the closure has run, so it is preceded by the clamp and the `unwrap`. An error raised before the closure, such as a failed resize, is not told apart.
- Layout, `List`, `Block` and `Paragraph` drawing, the highlight symbol, and terminal reading and drawing are not modelled. `Run` takes the event stream as a finite sequence of frames. `InputEnded` has no counterpart in the program.
- `Shows::default`, `add_multiple`, `names`, `get_show` and `shows` are called by the app but defined in no file of the source. The app's constructor takes the catalog, and `SelectedShowTitle` takes the names.
- The app's call `ShowsWidget::new(&names)` at undersea-tui/src/app/mod.rs:65 passes the names, but the widget takes the catalog and renders one row per show. The model uses the catalog's length.
- The app's call `EpisodesWidget::new(&episode_titles)` at undersea-tui/src/app/mod.rs:79 does not match the widget's two-argument constructor. The model takes the widget's own signature.
- EpisodesWidget.Distance: the `usize` sum `3 + title + date` is unbounded in the model. Its overflow cannot occur for strings that fit in memory.
- The `Show` accessors `url`, `name`, `last_check` and `last_upload` are field reads of the `Show` datatype.
- undersea-tui/src/app.rs (an earlier app whose only key is `q`), undersea-tui/src/widgets/shows.rs, undersea-tui/src/widgets/episode_info.rs and undersea-tui/src/main.rs are not part of this model. They only render or set up the terminal.
