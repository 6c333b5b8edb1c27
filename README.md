# nmcurse-rs network controller, modelled in Dafny

nmcurse-rs is a terminal front end to NetworkManager. Its controller, `NetworkUi` in `src/network.rs`, does six things:

- asks `nmcli` for the visible Wi-Fi networks;
- parses that multiline report into `Network` records and sorts them by signal (`run_scan`);
- draws the visible part of the list (`display_networks`);
- decodes key presses, including escape sequences (`get_input`);
- moves a highlight over the list until Enter, `q`, ESC or a failed read (`select_network`);
- connects, disconnects or forgets the highlighted network through further `nmcli` commands (`connect`, `disconnect`, `forget_password`), prompting for a password when needed (`get_password`).

This project models each of those steps and proves what the code promises about them. In the model, the outside world becomes parameters:

- the lines `nmcli` prints are a `seq<string>`, and every rescan reads the next report of a list;
- the codes `wgetch` returns are a `seq<int>`, and every read past the end returns ERR;
- the names whose profile has a saved password are a set, so `is_password_cached` is membership in it; the selection loop removes a name once its own `connection delete` has run;
- every command issued is recorded as its argument vector after `nmcli`;
- instead of drawing, `display_networks` returns its rows: row number, text, colour tier, bold, reverse video.

Modules, one per concern:

- `Text`: `starts_with`, `trim` with Unicode white space, `parse::<u8>`.
- `Report`: the line fold, the records, the sort.
- `Layout`: the viewport and row formatting.
- `Keys`: `get_input`.
- `Password`: `get_password`.
- `Commands`: the argument vectors.
- `Controller`: the class `NetworkUi`, with the fields `highlight` and `networks`, and its methods `RunScan`, `DisplayNetworks`, `SelectNetwork` and `Connect`. Each loop of the source is a loop there, proved against a specification function (`Scanned`, `Rows`, `Select`, `PasswordOf`). `Controller` also holds `React` and `Select`, one loop step and the whole loop on a `Session` value, with the lemmas about them.

Integer semantics are those of a release build, where `usize` arithmetic wraps:

- `self.networks.len() - 1` on an empty list is `usize::MAX`;
- `max_combined_length - 3` wraps when the name column is narrower than 3, and `truncate` then keeps the whole name.

Indexing out of range is a panic. The model keeps panics as outcomes (`Crashed`, `Panicked`, a `None` from `React`); it does not exclude them by preconditions.

Where the design description and the code disagree, the model follows the code:

- **Enter on an empty list.** The design says an empty scan makes the selection return `None` at once. The code waits for keys, and Enter returns `Some(0)` (`Controller.EnterOnEmptyList`). `connect(0)` then indexes an empty list.
- **Out-of-range actions.** The design says these are no-ops. In the code, `d`, `f` and `connect` index the list unchecked and panic (`Controller.StaleIndexCrashes`, `Controller.NetworkUi.Connect`).
- **The highlight.** The design says it always stays on a non-empty list. In the code it can leave the list in two ways:
  - the rescans after `d` and `f` do not reset it (`Controller.StaleHighlightAfterDisconnect`);
  - Down on an empty list moves it to 1 (`Controller.DownOnEmptyList`).
- **`forget_password`.** The design puts the cached-password test inside it. In the code the test is in the `f` branch of `select_network`, and `forget_password` itself checks only for an empty name. The model follows that split.

## Model

| member | source | states |
|---|---|---|
| Text.StartsWith | src/network.rs:185-193 | `str::starts_with`: the line's first characters are the key; `Report.KeysExclusive` and `Report.KeysExclusiveFields` state which keys a line can start with |
| Text.IsWhitespace | src/network.rs:186-194 | the Unicode White_Space set that `char::is_whitespace`, and so `trim`, drops |
| Text.TrimStart | src/network.rs:186-194 | drops leading white space one character at a time; `Text.TrimStartSpec` states what remains |
| Text.TrimEnd | src/network.rs:186-194 | drops trailing white space one character at a time; `Text.TrimEndSpec` states what remains |
| Text.Trim | src/network.rs:186-194 | `str::trim`, both ends; `Text.TrimSpec`, `Text.TrimUntouched` and `Text.TrimIdempotent` state its properties |
| Text.TrimStartSpec | src/network.rs:184-194 | the leading trim keeps a suffix of the line, drops only white space, and stops at the first non-white-space character |
| Text.TrimEndSpec | src/network.rs:184-194 | the trailing trim keeps a prefix of the line, drops only white space, and stops at the last non-white-space character |
| Text.TrimSpec | src/network.rs:184-194 | a trimmed value is a slice `s[i..j]` with only white space outside it, and it neither starts nor ends with white space |
| Text.TrimUntouched | src/network.rs:184-194 | a value with no white space at either end is left as it is by `trim` |
| Text.TrimIdempotent | src/network.rs:184-194 | trimming twice gives the same as trimming once |
| Text.ParseU8 | src/network.rs:194 | a successful `u8` parse needs a non-empty value that ends in a digit |
| Text.Decimal | src/network.rs:194 | the decimal digits of a number, as `nmcli` prints the signal; `Text.DecimalValue` and `Text.ParseDecimal` state its meaning and round trip |
| Text.DecimalValue | src/network.rs:194 | the decimal rendering of a number spells that number |
| Text.ParseDecimal | src/network.rs:194 | every value 0 to 255, written in decimal, parses back as itself |
| Text.ParseOverflow | src/network.rs:194 | a decimal number above 255 does not parse as `u8`, so the signal becomes 0 |
| Report.ValueAfter | src/network.rs:186-194 | the trimmed text after a line's key, `line[n..].trim()` with `n` the key's length; `Report.FeedInUse` to `Report.FeedSecurity` use it |
| Report.SignalOf | src/network.rs:194 | `parse::<u8>().unwrap_or(0)` of a `SIGNAL:` line's value; `Report.FeedSignal` and `Text.ParseOverflow` state both outcomes |
| Report.Feed | src/network.rs:185-204 | one pass of the line loop: the `if` chain over the five keys, flushing on `SIGNAL:` and ignoring other lines; `Report.FeedFlushes` and `Report.FeedInUse` to `Report.FeedSignal` state each branch |
| Report.FeedAll | src/network.rs:184-205 | the line loop over a whole report, in order, from a given state; `Report.FeedAllConcat` and `Report.RecordCountFrom` state its properties |
| Report.Parse | src/network.rs:176-205 | the records the loop pushes for a report, in report order; `Report.RecordCount`, `Report.FlushedRecord` and `Report.ParseRender` state what they are |
| Report.KeysExclusive | src/network.rs:185-193 | a `SIGNAL:` line starts with none of the four field keys, so the `if` chain sends it to the flush branch |
| Report.KeysExclusiveFields | src/network.rs:185-192 | no line starts with two of the four field keys |
| Report.FeedFlushes | src/network.rs:193-204 | a `SIGNAL:` line appends exactly one record, the accumulator with that signal, and resets the accumulator to the defaults; any other line appends nothing |
| Report.RecordCount | src/network.rs:184-205 | the number of records equals the number of `SIGNAL:` lines |
| Report.RecordCountFrom | src/network.rs:184-205 | from any state, the lines add one record per `SIGNAL:` line |
| Report.FeedAllConcat | src/network.rs:184-205 | feeding two blocks of lines one after the other is feeding their concatenation |
| Report.FeedKeepsDone | src/network.rs:184-205 | one line only appends to the records already flushed, never changes them |
| Report.FeedAllKeepsDone | src/network.rs:184-205 | records already flushed are never changed by later lines |
| Report.ParseConcat | src/network.rs:184-205 | once the accumulator is blank, the rest of the report parses independently and its records follow |
| Report.TrailingFieldsDropped | src/network.rs:184-205 | lines after the last `SIGNAL:` line add no record |
| Report.PendingFields | src/network.rs:176-192 | after a block of field lines each field holds the trimmed value of its last line, or its default; `in_use` holds iff that value is `*` |
| Report.FlushedRecord | src/network.rs:176-205 | a `SIGNAL:` line appends exactly the record built from the field lines since the previous flush, and the accumulator starts over |
| Report.FeedInUse | src/network.rs:185-186 | an `IN-USE:` line sets `in_use` to whether its trimmed value is `*` |
| Report.FeedSsid | src/network.rs:187-188 | an `SSID:` line sets the SSID to its trimmed value |
| Report.FeedBssid | src/network.rs:189-190 | a `BSSID:` line sets the BSSID to its trimmed value |
| Report.FeedSecurity | src/network.rs:191-192 | a `SECURITY:` line sets the security label to its trimmed value |
| Report.FeedSignal | src/network.rs:193-203 | a `SIGNAL:` line with a decimal byte flushes the accumulator with that signal |
| Report.FeedRecord | src/network.rs:176-205 | the five lines `nmcli` prints for one record with trimmed fields flush exactly that record |
| Report.ParseRender | src/network.rs:184-205 | parsing the report printed for a list of records with trimmed fields gives that list back |
| Report.InsertBySignal | src/network.rs:207-213 | one insertion step of the sort adds exactly one record, as a multiset |
| Report.InsertSorted | src/network.rs:207-213 | inserting into a list ordered by non-increasing signal keeps it ordered; the new head is the inserted record when its signal is at least the old head's, and the old head otherwise |
| Report.SortedTail | src/network.rs:207-213 | dropping the strongest record of an ordered list leaves it ordered |
| Report.SortBySignal | src/network.rs:207-213 | the sorted list is a permutation of its input, ordered by non-increasing signal |
| Report.SortExample | src/network.rs:207-213 | any three records with signals 10, 90, 50 come out in the order 90, 50, 10 |
| Report.Scanned | src/network.rs:156-213 | what `run_scan` leaves in `networks`: the parsed records sorted by signal; `Report.ScannedOrdered` states its order and contents |
| Report.ScannedOrdered | src/network.rs:157-213 | after a scan the list is a permutation of the parsed records, strongest first, with one entry per `SIGNAL:` line |
| Layout.WrappingSub | src/network.rs:119 | `usize` subtraction in a release build, wrapping below zero; `Layout.FitNameNarrowWindow` states its effect |
| Layout.TierOf | src/network.rs:90-96 | the colour pair by signal: strong from 66, medium from 33, weak below; `Layout.RowStyle` states it per row |
| Layout.MaxSecurityLength | src/network.rs:44-53 | the security column is at least 3 wide, at least as wide as every label, and either 3 or the length of some label |
| Layout.NameWidth | src/network.rs:57-58 | `max_combined_length`: the window width less the security column and 6, at least 0, below `usize::MAX` |
| Layout.ViewHeight | src/network.rs:60 | `win_height`: the window height less 4, at least 0; `Layout.ViewportBounds` uses it |
| Layout.ViewStart | src/network.rs:62-63 | `start_index`: just far enough down that the highlight is on the last visible row; `Layout.ViewportBounds` states its bounds |
| Layout.ViewEnd | src/network.rs:64 | `end_index`: the end of the list or of the window, whichever comes first; `Layout.ViewportBounds` states its bounds |
| Layout.Placeholder | src/network.rs:106-115 | an empty SSID or security label shows as `---`; `Layout.FitNameKeeps` states it |
| Layout.Truncate | src/network.rs:119 | `String::truncate`: keeps the first `n` characters, a no-op when `n` is not shorter |
| Layout.FitName | src/network.rs:106-121 | the SSID cell: placeholder, then truncation with `...` when too long; `Layout.FitNameTruncates`, `Layout.FitNameKeeps` and `Layout.FitNameNarrowWindow` state its cases |
| Layout.Spaces | src/network.rs:122-131 | the padding `format!` adds: exactly `n` spaces |
| Layout.PadRight | src/network.rs:122-131 | `{:<width$}`: left-aligned and padded with spaces; `Layout.RowColumns` states the widths it gives |
| Layout.Marker | src/network.rs:98-104 | `> ` for the network in use, two spaces otherwise; `Layout.MarkerFirst` states it |
| Layout.RowText | src/network.rs:98-131 | the text `ss` of one row: marker, padded name, padded security label, two spaces; `Layout.RowColumns` states its layout |
| Layout.RowOf | src/network.rs:89-142 | the row drawn for `networks[i]`: screen row `i - start_index + 3`, text, tier, bold, reverse; `Layout.RowStyle` states its attributes |
| Layout.MapIndexed | src/network.rs:89-151 | what a loop over the indices `lo..hi` collects: one element per index, so `hi - lo` of them, none for an empty range |
| Layout.Rows | src/network.rs:37-154 | everything the list area of `display_networks` shows, none for an empty list; `Layout.RowsInWindow`, `Layout.RowAt`, `Layout.HighlightDrawn` and `Layout.OnlyHighlightReversed` state its properties |
| Layout.ViewportBounds | src/network.rs:60-64 | the window never passes the end of the list and holds at most `win_height` rows; when it has a row and the highlight is on the list, the highlight is inside it |
| Layout.RowsInWindow | src/network.rs:60-142 | at most `win_height` rows and at most one per network are drawn; row `k` is at screen row `k + 3`, between the header rule and the footer rule |
| Layout.RowsBetween | src/network.rs:89-151 | the drawing loop from `start_index` to `end_index` draws one row per index, none when the range is empty |
| Layout.MapIndexedAt | src/network.rs:89-151 | element `k` of a per-index loop from `lo` to `hi` is the one built for network `lo + k` |
| Layout.RowsBetweenIndex | src/network.rs:89-142 | the `k`-th row the loop draws is the row of network `start + k`, formatted with its own index |
| Layout.RowsBetweenStep | src/network.rs:89-151 | one pass of the drawing loop appends the row of network `i` |
| Layout.RowsBetweenAt | src/network.rs:89-142 | the `k`-th row the loop draws is the row of network `start + k` |
| Layout.RowAt | src/network.rs:89-142 | list row `k` shows network `start_index + k`, formatted with the column widths of the whole list |
| Layout.HighlightDrawn | src/network.rs:62-142 | with room for a row and the highlight on the list, the highlighted network is inside the window, drawn at screen row `highlight - start + 3` in reverse video (`Layout.RowAt` gives its text) |
| Layout.OnlyHighlightReversed | src/network.rs:133-140 | in the drawn list, a row is in reverse video iff its index `start_index + k` is the highlight |
| Layout.RowsBetweenReverse | src/network.rs:133-140 | reverse video is on exactly for the row of index `highlight` |
| Layout.RowStyle | src/network.rs:90-140 | a row is bold and starts with `> ` iff its network is in use; its tier is strong iff signal >= 66, medium iff 33 <= signal < 66, weak otherwise; reverse iff it is the highlighted index |
| Layout.MarkerFirst | src/network.rs:98-104 | each row's text begins with the two-character in-use marker |
| Layout.FitNameTruncates | src/network.rs:117-121 | with a column of at least 3, a longer name becomes its first `width - 3` characters and `...`, exactly `width` long |
| Layout.FitNameKeeps | src/network.rs:106-121 | a name that fits is shown whole, an empty one as `---` |
| Layout.FitNameNarrowWindow | src/network.rs:117-121 | with a column narrower than 3, the subtraction wraps, nothing is cut, and `...` is appended to the whole name |
| Layout.TruncationExample | src/network.rs:117-121 | width 10 shows `VeryLongNetworkName` as `VeryLon...` |
| Layout.RowColumns | src/network.rs:122-131 | with a name column of at least 3, every row is `name width + security width + 4` long: marker, padded name, padded security label, two spaces |
| Keys.KeyAt | src/network.rs:240-261 | what the `i`-th `wgetch` returns: the `i`-th code, and ERR past the end |
| Keys.Decode | src/network.rs:238-270 | one key read takes one to three codes, and returns ERR exactly when the first, blocking, read does |
| Keys.GetInput | src/network.rs:238-270 | the step-by-step reads return the code and position `Decode` describes |
| Keys.DecodeKeyPress | src/network.rs:240-270 | a plain code gives itself; ESC then nothing gives 27; ESC then `c` other than `[` gives `c`; ESC `[` `c` gives `c`; each consumes exactly its own codes |
| Keys.FlattenConcat | src/network.rs:238-270 | the codes of two runs of key presses are the codes of each, in order |
| Keys.DecodeStream | src/network.rs:238-270 | successive reads over a run of key presses return each press's code in turn, never splitting an escape sequence |
| Keys.ArrowsLookLikeLetters | src/network.rs:255-266 | a plain `A`/`B` and the arrow sequences ESC `[` `A`/`B` decode to the same code, so the loop cannot tell them apart |
| Keys.UnfinishedCsi | src/network.rs:259-268 | ESC `[` with nothing after it reads as ESC after three reads |
| Password.EndsPrompt | src/network.rs:339-343 | Enter and ESC end the prompt; `Password.FirstEnd` finds the first of them |
| Password.Edit | src/network.rs:344-358 | one key other than Enter or ESC: backspace pops, a byte that is not an ASCII control is pushed, anything else is ignored; `Password.BackspacePops` and `Password.TypedSnoc` state it |
| Password.Typed | src/network.rs:337-360 | the password after a run of keys without Enter or ESC; `Password.TypedIsTypeable` and `Password.TypedCodes` state what it holds |
| Password.PasswordOf | src/network.rs:337-362 | what the prompt returns and how many codes it read; `Password.EnterReturnsTyped` and `Password.EscapeClears` state both exits |
| Password.LowByte | src/network.rs:355-356 | `ch as u8` keeps a value from 0 to 255 |
| Password.FirstEnd | src/network.rs:337-343 | the prompt stops at the first Enter or ESC, and no earlier |
| Password.GetPassword | src/network.rs:326-363 | the push/pop loop returns what `PasswordOf` describes: Enter returns the edits of the keys before it, ESC the empty password |
| Password.EnterReturnsTyped | src/network.rs:339-340 | Enter returns what the keys before it typed, having read one code past them |
| Password.EscapeClears | src/network.rs:341-343 | ESC returns the empty password whatever was typed |
| Password.FirstEndAt | src/network.rs:337-343 | with no Enter or ESC among the typed codes, the prompt stops at the one that follows them |
| Password.BackspacePops | src/network.rs:344-348 | backspace (KEY_BACKSPACE, 127, 8) removes the last character, and does nothing to an empty password |
| Password.BackspaceUndoes | src/network.rs:344-356 | a typeable character followed by backspace leaves the password as it was |
| Password.TypedIsTypeable | src/network.rs:355-356 | the password only holds one-byte characters that are not ASCII controls, and is no longer than the keys |
| Password.TypedCodes | src/network.rs:337-360 | typing the characters of a password of typeable characters builds exactly that password |
| Password.TypeThenEnter | src/network.rs:337-360 | typing a password and pressing Enter returns that password |
| Password.TypedSnoc | src/network.rs:337-360 | each key other than Enter and ESC applies one edit to the password typed so far |
| Password.TypedExample | src/network.rs:344-356 | `a`, `b`, backspace, `c` leaves `ac` |
| Password.BackspaceExample | src/network.rs:337-360 | `a`, `b`, backspace, `c`, Enter returns `ac` after five codes |
| Password.EscapeExample | src/network.rs:341-343 | `x`, ESC returns the empty password |
| Password.LowByteQuirk | src/network.rs:355-356 | a code of 321 types `A`, and ERR types U+00FF, because only the low byte counts |
| Commands.UpArgv | src/network.rs:372-373 | `con up id <ssid>` for a network whose password is saved; `Controller.NetworkUi.Connect` states when it is issued |
| Commands.NewConnectionArgv | src/network.rs:381-385 | the command is `dev wifi connect <bssid>`, followed by `password <pw>` only when the password is not empty |
| Commands.DisconnectArgv | src/network.rs:411-418 | no command for an empty name, otherwise `con down id <name>` |
| Commands.ForgetArgv | src/network.rs:443-450 | no command for an empty name, otherwise `connection delete <name>` |
| Commands.Issue | src/network.rs:411-418 | a command is recorded only when `disconnect` or `forget_password` runs one; `Controller.DisconnectGuard` and `Controller.ForgetGuard` state the log |
| Controller.Ends | src/network.rs:276 | the loop condition: ERR, Enter, `q` and ESC end the selection; `Controller.SelectStops` states the exit |
| Controller.NthReport | src/network.rs:158-174 | the report the `k`-th `nmcli` list request prints; an exhausted supply means an empty report |
| Controller.LastIndex | src/network.rs:282 | `networks.len() - 1` in `usize`, `usize::MAX` on an empty list; `Controller.DownOnEmptyList` states its effect |
| Controller.Rescanned | src/network.rs:156-213 | `run_scan` on a session: the list request `Commands.ScanArgv` (lines 158-168) is issued and the next report's records, strongest first, replace the list; `Controller.RescanResets` states it |
| Controller.Forgotten | src/network.rs:443-450 | after `forget_password(name)` the deleted profile no longer has a saved password, and every other name keeps its answer; an empty name deletes nothing |
| Controller.React | src/network.rs:276-294 | one pass of the loop body for a key that does not end the loop, `None` for a panic; `Controller.MovesStayInRange` to `Controller.ForgetOnlyOnce` state each branch |
| Controller.Select | src/network.rs:273-305 | the whole loop from a position in the key codes: outcome and final session; `Controller.SelectStops`, `Controller.EnterOnEmptyList`, `Controller.MovesThenEnter` and `Controller.ForgetTwice` state its behaviour |
| Controller.MovesStayInRange | src/network.rs:278-283 | on a non-empty list Up decrements only above 0 and Down increments only below `len - 1`; the highlight stays on the list, never wraps, and nothing else changes |
| Controller.DownOnEmptyList | src/network.rs:282 | on an empty list `len() - 1` wraps, so Down moves the highlight to 1, off the list |
| Controller.RescanResets | src/network.rs:277-279 | `r` issues the list command, replaces the list by the next report's records, strongest first, and sets the highlight to 0 |
| Controller.OtherKeysIgnored | src/network.rs:276-293 | a key other than `r`, Up, Down, `d` and `f` leaves the state unchanged |
| Controller.HighlightKeptInRange | src/network.rs:276-293 | keys other than `d` and `f` keep the highlight valid, except Down on an empty list, which breaks it |
| Controller.StaleIndexCrashes | src/network.rs:284-293 | `d` and `f` panic exactly when the highlight is off the list |
| Controller.DisconnectGuard | src/network.rs:284-288 | `d` acts only on the network in use: it takes that profile down if it has a name, rescans, and keeps the old highlight; otherwise nothing changes |
| Controller.ForgetGuard | src/network.rs:289-293 | `f` acts only when the highlighted password is saved: it deletes that profile if it has a name, so its password is no longer saved, rescans, and keeps the old highlight; otherwise nothing changes |
| Controller.ForgetOnlyOnce | src/network.rs:289-293 | after `f` deletes a named profile, a second `f` on a network of that name finds no saved password and changes nothing |
| Controller.ForgetTwice | src/network.rs:273-305 | `f`, `f`, Enter on a network that every rescan lists again issues one delete and one rescan, and selects index 0 |
| Controller.RescanListsAgain | src/network.rs:156-213 | the report printed for one well-formed record scans back to that record |
| Controller.StaleHighlightAfterDisconnect | src/network.rs:284-288 | disconnecting the second of two networks when the rescan finds none leaves the highlight at 1, and a second `d` panics |
| Controller.SelectStops | src/network.rs:276-304 | the loop stops at a decoded ERR, Enter, `q` or ESC without changing the state: `Some(highlight)` for Enter, `None` for the others |
| Controller.EnterOnEmptyList | src/network.rs:298-304 | on an empty list Enter still returns `Some(0)` |
| Controller.MovesThenEnter | src/network.rs:273-304 | Up/Down presses on a non-empty list followed by Enter select an entry of the unchanged list, without commands and without a panic |
| Controller.NetworkUi.constructor | src/network.rs:29-35 | a new controller has highlight 0 and no networks |
| Controller.NetworkUi.RunScan | src/network.rs:156-213 | the clear, fold and sort leave `networks` equal to `Scanned(report)`, a permutation of the parsed records ordered by signal |
| Controller.NetworkUi.DisplayNetworks | src/network.rs:37-154 | the rows drawn are `Rows(networks, highlight, maxx, maxy)`; nothing is drawn for an empty list |
| Controller.NetworkUi.SecurityWidth | src/network.rs:44-53 | the max-finding loop computes the security column width |
| Controller.NetworkUi.DrawRows | src/network.rs:89-151 | the index loop produces the row of each network from `start_index` to `end_index`, in order |
| Controller.NetworkUi.FormatRow | src/network.rs:90-142 | one pass builds the row of one network: tier, marker, placeholders, truncation, padding, row number, highlight |
| Controller.NetworkUi.SelectNetwork | src/network.rs:273-305 | the `while` loop over the key codes ends with the outcome, highlight, list, commands and saved passwords of `Select`, whose properties the lemmas above state |
| Controller.NetworkUi.Connect | src/network.rs:365-386 | panic iff the index is off the list; nothing iff the BSSID is empty or the network is in use; otherwise `con up id <ssid>` when the password is cached, and otherwise the prompt's password in `dev wifi connect` |

## Left out

- Drawing is not modelled. `werase`, `wattron`, `mvwprintw`, `mvwhline` and `wrefresh` are left out, and so are the header, the footer and the redraw inside the selection loop. The model returns the list rows instead.
- Subprocesses are not modelled: spawning and waiting for `nmcli`. Reports, the cached-password answer and the issued argument vectors stand in for them.
- The argument vector of the `is_password_cached` query is not recorded.
- The loading-animation threads, their channel and the shared `Ui` (`scan`, the waits in `connect`/`disconnect`/`forget_password`, `src/ui.rs`) are left out. Their only effect is animation.
- `Zeroizing` scrubbing of the password buffer is left out: clearing memory cannot be stated here.
- `src/main.rs`, the outer glue loop, is not part of this model.
- Strings are sequences of characters. Byte lengths, UTF-8 character boundaries in `line[7..]` and `truncate`, and lines that are not valid UTF-8 are not modelled.
- The `as i32` and `as usize` casts in `display_networks` are not modelled. The model works for window sizes and list lengths where they are exact.
- Overflow panics of a debug build are not modelled. The model follows a release build.
- `max_ssid_length` in `display_networks` is computed, but nothing reads it, so it is not modelled.
- Layout colour pairs and attributes are modelled as a tier and two flags, not as ncurses bit masks.
- Report.SortBySignal: states only that the result is ordered by non-increasing signal and is a permutation. The comparator of `run_scan` never answers `Equal`. Any order of records with equal signals is therefore possible, and the model fixes one without claiming it.
- Password.GetPassword: a key stream with no Enter or ESC gives `Unfinished`. The source keeps reading there (an ERR types U+00FF), so the model says nothing about that case.
- Controller.NetworkUi.SelectNetwork: a rescan reads the next report of `reports`; an exhausted list gives an empty report.
- Controller.NetworkUi.SelectNetwork: the saved passwords change only through the loop's own `connection delete`, which is taken to succeed; profiles that another program adds or removes during the loop are not modelled.
