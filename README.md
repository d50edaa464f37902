# PlaylistIntegration: page loops and prompt rules

This project models the verifiable core of `main.py`. That script consolidates the tracks of several Spotify playlists, and optionally the user's saved songs, for a chronological playlist. Two parts are modelled.

- **Page-following accumulation.** `get_user_playlists`, `get_tracks_from_playlist` (with `get_tracks_from_playlist_helper`), `get_saved_songs` and `get_sorted_tracks` walk the service's cursor-linked result pages and build lists. A remote collection is a finite `seq<Page<T>>`. Each `Page` has `items` and `hasNext`, and following the cursor of page `i` yields page `i + 1`. Each loop is a method over that sequence. The three cursor loops (`get_user_playlists`, `get_tracks_from_playlist`, `get_saved_songs`) return the list they build and the number of pages they requested: the first call plus one `next` call per further page. Each method is proved equal to a specification function: `Fetched`, the concatenation of the pages up to the first one without a cursor, or `Owned(Fetched(..))` for the owner filter.
- **Prompt acceptance rules.** These are the input loops of `get_target_playlists`, `confirm_yesno` and `get_final_playlist`. Standard input is a `seq<string>` of typed lines, read from a position. Running out of lines (Python's `EOFError`) gives `None`. A successful read returns the value and the position of the next unread line. Each prompt loop is a method, proved equal to a recursive function. That function's contract says which line is taken, that every earlier line is turned down, and what comes out.

The Dafny modules are `Wrappers` (Option/Result), `Pagination` (pages and cursor chains), `Fetching` (the page loops), `Text` (the `str` operations the prompts use) and `Prompts` (the acceptance rules).

The docstring of `get_sorted_tracks` (main.py:281-296) and the comments in `main` (main.py:41-44) and in `get_sorted_tracks` (main.py:308-311) promise more than the code does. They say it removes duplicates, sorts the tracks, returns the sorted list, and adds the ids to the target playlist in chunks. In the code these steps exist only as comments: `get_sorted_tracks` builds its list and returns nothing. This model follows the code. `GetSortedTracks` takes `varDupDetect` and ignores it. Nothing is sorted, deduplicated or written. The model returns the final accumulator, which Python discards, so that its contents can be stated.

## Model

| member | source | states |
|---|---|---|
| `Pagination.ChainLength` | main.py:115-123 | the pages a cursor-following loop reads end at the first page without a "next" cursor; every page before it has one |
| `Pagination.ChainLengthUnique` | main.py:120-123 | the number of pages read is fixed by the position of the first page without a cursor |
| `Pagination.FetchedIgnoresLaterPages` | main.py:373-380 | pages after the end of the cursor chain are never requested, so they change neither the result nor the page count |
| `Pagination.Fetched` | main.py:115-123 | defines what a cursor loop collects: the items of the pages up to the first one without a cursor, in page order |
| `Pagination.FlattenConcat` | main.py:330-336 | accumulating page by page commutes with concatenating page sequences |
| `Pagination.FlattenLength` | main.py:330-338 | the collected list is exactly as long as the sum of the page lengths |
| `Pagination.FetchedLength` | main.py:370-382 | what a loop collects is as long as the sum of the lengths of the pages it reads |
| `Pagination.FlattenIndex` | main.py:351-354 | item j of page i appears right after the items of all earlier pages, so page order and item order are both kept |
| `Fetching.Owned` | main.py:116-118 | defines the owner filter: the playlists whose owner id is `username`, in their listed order |
| `Fetching.OwnedMembers` | main.py:116-118 | the owner filter keeps only playlists owned by `username` and keeps every such playlist |
| `Fetching.OwnedConcat` | main.py:115-123 | filtering a later page appends after what was kept from earlier pages |
| `Fetching.OwnedPositions` | main.py:116-117 | the positions of owned playlists, strictly increasing, covering every owned position |
| `Fetching.OwnedIsSubsequence` | main.py:113-125 | the kept playlists are exactly the playlists at the owned positions, in increasing order, so none is reordered |
| `Fetching.GetUserPlaylists` | main.py:98-125 | returns the owned playlists of every page read, in order, having read exactly the cursor chain |
| `Fetching.GetTracksFromPlaylistHelper` | main.py:341-356 | copies one page's items unchanged and in order |
| `Fetching.GetTracksFromPlaylist` | main.py:314-338 | returns the unfiltered concatenation of the playlist's pages up to the first page without a cursor, and reads exactly those pages |
| `Fetching.GetSavedSongs` | main.py:359-382 | returns the unfiltered concatenation of the saved-tracks pages up to the first page without a cursor, and reads exactly those pages |
| `Fetching.Consolidated` | main.py:300-302 | defines the accumulation of each requested playlist's tracks, in the order of the ids |
| `Fetching.ConsolidatedConcat` | main.py:300-301 | collecting the tracks of a concatenation of playlist ids concatenates the per-playlist results in the same order |
| `Fetching.GetSortedTracks` | main.py:280-311 | the accumulator is each playlist's tracks in `playlistIds` order, followed by the saved songs exactly when `varSavedSongs` holds; `varDupDetect` has no effect; the first id the service does not know aborts the collection |
| `Text.IsDigits` | main.py:243 | defines `str.isdigit` on ASCII: non-empty and digits only |
| `Text.Decimal` | main.py:150 | defines `int` of a digit string (also used at main.py:244) as its base-10 value, the last digit least significant |
| `Text.IsSpace` | main.py:229 | defines the characters `str.isspace` accepts: U+0009 to U+000D, U+001C to U+0020, U+0085, U+00A0, U+1680, U+2000 to U+200A, U+2028, U+2029, U+202F, U+205F and U+3000 |
| `Text.IsBlank` | main.py:229-234 | defines `not s.strip()`: the string is empty or whitespace only |
| `Text.DecimalLeadingZero` | main.py:150 | `int` ignores leading zeros, so "007" names the same playlist as "7" |
| `Text.LowerAscii` | main.py:196 | lower-casing keeps the length and maps each upper-case letter to its lower-case form |
| `Text.LowerIsY` | main.py:196-200 | exactly "y" and "Y" lower-case to "y" |
| `Text.LowerIsN` | main.py:201-203 | exactly "n" and "N" lower-case to "n" |
| `Text.Split` | main.py:148 | `str.split` yields at least one piece; no piece contains the separator, and every piece is made of characters of the line |
| `Text.SplitJoin` | main.py:148 | joining the split pieces with the separator gives back the line |
| `Text.NonEmpty` | main.py:148 | `filter(None, ..)` returns no more strings than it is given; every string it returns is non-empty and one of the pieces; every non-empty piece is returned |
| `Text.NonEmptyPositions` | main.py:148 | the positions of the non-empty pieces, strictly increasing, each in range and non-empty, covering every non-empty piece |
| `Text.NonEmptyIsSubsequence` | main.py:148 | the filter returns exactly the pieces at the non-empty positions, in increasing order, so nothing is reordered and a repeated piece is kept each time |
| `Text.SplitOfSeparators` | main.py:148 | a line of separators only splits into empty pieces |
| `Text.EmptyPiecesOnlySeparators` | main.py:148 | a line whose pieces are all empty holds separators only |
| `Text.NonEmptyOfEmpties` | main.py:148 | filtering empty pieces only leaves nothing |
| `Prompts.MatchesSelectionPattern` | main.py:147 | defines `re.match(r"[0-9,]+$", line)`: a non-empty line of ASCII digits and commas only |
| `Prompts.AllAtMost` | main.py:150 | defines `all(int(item) <= len(all_playlists) - 1 ...)` over the fields |
| `Prompts.SelectionAccepted` | main.py:147-150 | defines when the selection prompt takes a line: it matches the pattern and every field is at most `len(all_playlists) - 1` |
| `Prompts.SelectionFields` | main.py:147-148 | every field left after the split and filter of a matching line is a non-empty digit string |
| `Prompts.SelectionFieldsInOrder` | main.py:147-148 | the fields of a matching line are its non-empty comma-separated pieces in the order typed, a repeated index kept each time it is typed |
| `Prompts.SelectionAcceptedPieces` | main.py:146-151 | a line matching `[0-9,]+$` is accepted exactly when every non-empty comma-separated piece is at most `len(all_playlists) - 1` |
| `Prompts.AcceptedNamesPlaylists` | main.py:150-165 | every field of an accepted line indexes an existing playlist, so the id lookup cannot fail |
| `Prompts.OnlyCommasSelectNothing` | main.py:147-151 | a line of commas only is accepted, for any number of playlists, and selects nothing |
| `Prompts.SelectingNeedsPlaylists` | main.py:150 | an accepted line that selects anything requires at least one playlist |
| `Prompts.NoPlaylistsAcceptsOnlyCommas` | main.py:147-151 | with no playlists, the only accepted lines are lines of commas |
| `Prompts.FirstSelection` | main.py:145-158 | the selection taken is from the first accepted line; every earlier line is turned down; None exactly when no remaining line is accepted |
| `Prompts.ReadSelection` | main.py:145-158 | the inner prompt loop reads lines until the first accepted one and returns its fields |
| `Prompts.ChosenIds` | main.py:160-165 | one id per field, in the order typed, repeated indices kept: field k selects `all_playlists[int(field k)].id`; the result is `IdsOf(fields)` |
| `Prompts.FirstAnswer` | main.py:196-207 | the answer is decided by the first line that lower-cases to "y" or "n": True for "y"/"Y", False for "n"/"N"; earlier lines are ignored; None exactly when no such line remains |
| `Prompts.ConfirmYesNo` | main.py:186-207 | `confirm_yesno` returns the first yes/no answer as `FirstAnswer` defines it |
| `Prompts.TargetFrom` | main.py:140-170 | defines the outer loop round by round: a selection, then "choose again?"; a yes starts a new round after the answer, a no returns the ids of that round's selection, and running out of input gives None |
| `Prompts.AgainRounds` | main.py:140-168 | defines the positions reached from the start by whole rounds, each an accepted selection answered yes |
| `Prompts.FinalRound` | main.py:145-170 | defines a round that ends the prompt: the first accepted line of the round, its ids, and a no answer after it |
| `Prompts.UnfinishedRound` | main.py:145-168 | defines a round that runs out of input: no accepted line is left, or no yes/no answer follows it |
| `Prompts.TargetFromSome` | main.py:140-170 | the prompt returns `res` exactly when, after zero or more rounds answered yes, a round answered no selects `res` as the ids of that round's first accepted line; the selections of earlier rounds are discarded |
| `Prompts.TargetFromNone` | main.py:140-170 | the prompt runs out of input exactly when, after zero or more rounds answered yes, a round finds no accepted line or no yes/no answer |
| `Prompts.GetTargetPlaylists` | main.py:128-170 | the outer select-then-confirm loop returns what `TargetFrom` defines |
| `Prompts.FirstName` | main.py:232-238 | the new playlist's name is the first non-blank line, kept as typed |
| `Prompts.ReadPlaylistName` | main.py:232-238 | the name prompt reads lines until the first non-blank one |
| `Prompts.DestinationRejected` | main.py:229-253 | defines the answers the destination prompt turns down: blank ones, and any other than "new" or a digit string at most `len(all_playlists) - 1` |
| `Prompts.FirstDestination` | main.py:227-253 | defines the destination prompt line by line: turned-down answers are skipped, a digit string selects that playlist's id, "new" takes the next non-blank line as the new playlist's name, and running out of input gives None |
| `Prompts.FirstDestinationSome` | main.py:227-253 | a destination comes from the first answer that is not turned down, after only turned-down answers. A blank answer is turned down, and so is any answer other than "new" or a digit string no greater than `len(all_playlists) - 1`. A digit string selects that playlist's id. "new" asks for a new playlist named by the first non-blank line after it |
| `Prompts.FirstDestinationNone` | main.py:227-253 | no destination exactly when every remaining answer is turned down, or when the first accepted answer is "new" and only blank lines follow it |
| `Prompts.GetFinalPlaylist` | main.py:210-255 | the destination prompt returns what `FirstDestination` defines, reading exactly the same lines |
| `Prompts.SplitExample` | main.py:148 | `"1,,1,".split(',')` is `["1", "", "1", ""]` |
| `Prompts.NonEmptyExample` | main.py:148 | filtering `["1", "", "1", ""]` leaves `["1", "1"]` |
| `Prompts.SelectionPatternExample` | main.py:147 | "1,,1," matches `[0-9,]+$` |
| `Prompts.RepeatedIndexKept` | main.py:147-151 | with two playlists, "1,,1," is accepted, and its fields are "1" twice: the empty fields are dropped and the repeated index is kept |
| `Prompts.DestinationAnswers` | main.py:229-253 | "", "  ", " 3" and "new " are turned down; "new" and an in-range "3" are not |
| `Prompts.ConfirmSkipsOtherAnswers` | main.py:196-205 | "yes" is not an answer; a following "Y" is a yes |

## Left out

- Credential lookup and storage through `keyring` and environment variables, and token acquisition (main.py:49-76): these are external side effects.
- The spotipy client calls `user_playlists`, `user_playlist`, `current_user_saved_tracks` and `next`: each is replaced by a page sequence, and the service's other behaviour is not modelled. A requested playlist id the service does not know is modelled as `Failure(id)`. In Python it is an exception from the remote call.
- The page chains are required to terminate: some page carries no `next` cursor. On an endless chain the Python loops never end.
- `create_final_playlist` (main.py:258-275): it reads the wall clock and creates the playlist remotely. `GetFinalPlaylist` returns `CreateNew(name)` where the source would return the new playlist's id.
- `print`, `print_playlists` and the `input()` mechanics: prompts are not modelled, and typed lines are a given sequence of strings.
- `main` (main.py:11-46) and `get_user_preferences` (main.py:79-95): orchestration that only calls the modelled functions.
- Chronological sorting, duplicate removal and chunked appends: they appear only as comments (main.py:41-44, 308-311), so the model has none of them.
- `Fetching.GetSortedTracks`: the source returns `None`; the model returns the final accumulator instead, so that its contents can be stated.
- `Text.LowerAscii`: Python's `str.lower` maps all Unicode letters; the model maps ASCII letters only. No other character lower-cases to "y" or "n", so which answers `confirm_yesno` accepts is unchanged.
- `Text.IsDigits`: Python's `str.isdigit` also accepts non-ASCII digit characters. Some of them `int` parses, for example Arabic-Indic digits. Others make `int` raise, for example superscript digits. The model treats every non-ASCII character as a non-digit.
- `Prompts.MatchesSelectionPattern`: Python's `$` also matches before a final newline; lines from `input()` never contain one, so the model takes `$` as the end of the line.
