# logtrail session reconstruction, modelled in Dafny

logtrail reads a game server's log lines and rebuilds play sessions from them. The service lives in `fastapi/app/main.py`. A player's arrival shows up as three lines:

1. "Accepted connection from <steamid>"
2. "Connected to userid:<session token>"
3. "[userid:<token>] player <name> connected"

Two in-memory dicts tie the token back to the steam id. These are `pending_connections`, kept in insertion order, and `session_to_steam`.

Each connect opens a row in the `sessions` table (SQLite). A "Disconnected from userid:<token>" line closes that row and records the playtime. When a session's open row is from an earlier day, split_if_needed closes it at 23:59:59 and inserts rows from the next day on, though the unique keys let at most one of those inserts through (see below). The `processed_logs` table records every connect and disconnect line by its log id, so a line sent twice with the same log id is applied once.

The project models that core:

- `LogPatterns`: the four regex parsers and the order process_single_log tries them in.
- `PyDict`: an insertion-ordered dict.
- `Correlation`: the two dicts and the handshake handlers.
- `SessionStore`:
  - the sessions table with its two unique keys;
  - close_row, open_row, get_open_row and split_if_needed, each as a function on a table value;
  - a `SessionTable` class over the same state: close_row, open_row and split_if_needed are methods, and get_open_row is a function that reads the object.
- `Ledger`: the processed_logs table.
- `Ingest`: the effect of one line on the whole state, as the function `Step`, with the properties proved about it.
- `Server`: the handlers and process_single_log as methods on the objects, each proved to compute `Step`.

Times of day are seconds 0..86399. Dates are integer day numbers. The current time, the log id and the Steam profile name are inputs to each line.

The comment in split_if_needed (`fastapi/app/main.py:192`) promises a row for every day from the day after the open row up to today, with today's row left open. The code does less, and the model follows the code:

- **An intermediate day of a split gets playtime 86399, not 86400.** Its row is closed by `secs_between("00:00:00", "23:59:59")`.
- **A split inserts at most one row.** `UNIQUE(session_userid, connect_time)` leaves the date out. Every day after the first is inserted at "00:00:00", so once a token has a 00:00:00 row, each later insert for it raises IntegrityError. open_row swallows that error. `last_insert_rowid()` then names the last row this transaction did insert, and closing that row again at 23:59:59 changes nothing. If the transaction has inserted no row yet, it is 0 on the fresh connection, and close_row(0) finds no row. Both cases are covered by `SessionStore.RecloseIsNoop`.
- **The consequence for long gaps.** A session left open over two or more midnights keeps at most its first day after the open row. It has no open row for today, so its disconnect answers "no open session" (`SessionStore.SplitOutcome`, `SessionStore.LongGapClosesEverything`, `Ingest.DisconnectAfterLongGap`).
- **Sessions that already have a 00:00:00 row.** Such a session gets no row at all after its open row, even after a single midnight. This covers a visit that connected at exactly 00:00:00. It also covers an open row that an earlier split inserted, because that row starts at 00:00:00. The split only closes the open row at 23:59:59, and the disconnect answers "no open session" (`SessionStore.MidnightRowClosesEverything`, `Ingest.DisconnectWithMidnightRow`).
- **The one-open-row assumption.** The long-gap and midnight-row lemmas assume the token has at most one open row. That holds in every state reached by a run whose clock never goes back to an earlier day. The run must start from a table where no token has two open rows and no open row is dated after the first line (`Ingest.RunKeepsOneOpen`). With a clock that goes back, a connect can open a second row for a token whose open row is dated after the line's day.

## Model

| member | source | states |
|---|---|---|
| LogPatterns.RunLength | fastapi/app/main.py:123 | the greedy `\d+`/`\S+` run: in bounds, every character matches, and the next character does not |
| LogPatterns.FirstDigitsMatch | fastapi/app/main.py:123 | the search for `literal(\d+)` tries positions left to right: the result is the first position from which the literal and a digit follow, or no later position matches |
| LogPatterns.DigitsAtShape | fastapi/app/main.py:123-124 | the group found at a match is all digits, follows the literal, and is a maximal run |
| LogPatterns.FirstPlayerMatch | fastapi/app/main.py:133 | the same leftmost-match rule for the player pattern: the first position where it matches, or none at any position |
| LogPatterns.PlayerAtShape | fastapi/app/main.py:133-135 | a match of the player pattern gives an all-digit token and a whitespace-free name, and the line holds "[userid:<token>] player <name> connected" at that position |
| LogPatterns.DigitsAfter | fastapi/app/main.py:121-141 | `re.search(literal(\d+))`: a result exists iff the literal followed by a digit occurs somewhere; it is all digits, sits at the leftmost such occurrence, and is the maximal digit run there |
| LogPatterns.ParseSteamId | fastapi/app/main.py:121-124 | parse_steamid: an all-digit id, present iff "Accepted connection from " is followed by a digit somewhere |
| LogPatterns.ParseLinkedToken | fastapi/app/main.py:126-129 | parse_session_userid_connect: the same for "Connected to userid:" |
| LogPatterns.ParseDisconnectToken | fastapi/app/main.py:138-141 | parse_disconnect: the same for "Disconnected from userid:" |
| LogPatterns.ParsePlayerConnected | fastapi/app/main.py:131-136 | parse_player_connected: token and name come together or not at all; the token is all digits and the name non-empty and whitespace-free; the line contains "[userid:<token>] player <name> connected"; with no result, no position matches; with a result, it is the match at the leftmost position where the pattern matches |
| LogPatterns.PlayerMatchComplete | fastapi/app/main.py:131-136 | any occurrence of a well-formed player line makes the parser succeed |
| LogPatterns.PlayerRoundTrip | fastapi/app/main.py:131-136 | parsing a line that starts with "[userid:<token>] player <name> connected" gives back exactly that token and name |
| LogPatterns.DigitsRoundTrip | fastapi/app/main.py:121-141 | parsing "<literal><id><rest>", where rest does not start with a digit, gives back exactly the id |
| LogPatterns.RunLengthOfRun | fastapi/app/main.py:133 | a maximal run of matching characters is what the greedy run returns |
| LogPatterns.Classify | fastapi/app/main.py:352-417 | the first parser that matches, in the order accepted, linked, player-connected, disconnect, decides the kind of line; each field of the result is what that parser returns, so it is well formed |
| TimeOfDay.SecsBetween | fastapi/app/main.py:143-146 | `max(0, b - a)`: between 0 and 86399, exact when b is not earlier than a, 0 otherwise |
| TimeOfDay.FullDayIs86399 | fastapi/app/main.py:143-146 | 00:00:00 to 23:59:59 gives 86399 |
| PyDict.IndexOf | fastapi/app/main.py:212 | `k in d`: the position holds k, or no entry has key k |
| PyDict.Put | fastapi/app/main.py:207 | `d[k] = v`: keys stay distinct; an existing key keeps its place and the other entries are unchanged; a new key is appended at the end |
| PyDict.Remove | fastapi/app/main.py:241-242 | `del d[k]`: keys stay distinct, k is gone, every other entry is kept in its order (the result is the dict with k's entry cut out), and nothing changes if k was absent |
| PyDict.FirstIndexWith | fastapi/app/main.py:220-224 | the first position in insertion order whose value is v |
| PyDict.PutKeepsLastKey | fastapi/app/main.py:364 | assigning to the last key keeps it last, in place |
| PyDict.PutOrder | fastapi/app/main.py:207 | a new key becomes the last key; re-assigning an old key does not move it |
| Correlation.ResolveSteamId | fastapi/app/main.py:219-232 | the steam id found is either a pending id bound to the token or the one remembered for it; with neither, there is none |
| Correlation.ResolveSteamIdCases | fastapi/app/main.py:219-232 | the first pending id bound to the token wins; only when none is bound is `session_to_steam` consulted, and its absence gives no id |
| Correlation.HandshakeResolves | fastapi/app/main.py:205-224 | for an id not already pending and a token no pending entry is bound to yet, accepted(id) then linked(token) makes the token resolve to that id |
| Correlation.Correlator.OnAccepted | fastapi/app/main.py:205-208 | `pending_connections[steamid] = None`, session_to_steam unchanged |
| Correlation.Correlator.OnLinked | fastapi/app/main.py:210-215 | binds the token to a steam id that is still pending, otherwise nothing |
| Correlation.Correlator.FindSteamIdByToken | fastapi/app/main.py:219-224 | the loop returns the first pending steam id bound to the token |
| Correlation.Correlator.ResolveSteamIdFor | fastapi/app/main.py:219-232 | computes ResolveSteamId on the current dicts |
| Correlation.Correlator.Bind | fastapi/app/main.py:238-242 | session_to_steam gains the player; its steam id leaves the pending dict |
| Correlation.Correlator.Forget | fastapi/app/main.py:323 | removes the token from session_to_steam only |
| Correlation.Correlator.constructor | fastapi/app/main.py:16-17 | both dicts start empty, and the pending ids are well formed |
| SessionStore.PlaytimeBounds | fastapi/app/main.py:143-157 | every playtime in a valid table lies in [0, 86399] |
| SessionStore.IndexOfId | fastapi/app/main.py:150 | the row with that id, or no row has it |
| SessionStore.AfterClose | fastapi/app/main.py:148-157 | close_row on a table value; a definition with no contract of its own: its effect is stated in `SessionStore.CloseEffect` |
| SessionStore.Collides | fastapi/app/main.py:159-167 | the IntegrityError test of open_row; a definition: `SessionStore.OpenDroppedIffKeyViolated` proves it is exactly a violation of one of the two unique keys |
| SessionStore.AfterOpen | fastapi/app/main.py:159-167 | open_row on a table value; a definition: its effect is stated in `SessionStore.OpenDroppedIffKeyViolated` and `SessionStore.OpenKeepsValid` |
| SessionStore.CloseEffect | fastapi/app/main.py:148-157 | close_row changes only the row with that id, setting disconnect_time and playtime = secs_between(connect, disconnect); a missing id changes nothing |
| SessionStore.CloseKeepsValid | fastapi/app/main.py:148-157 | close_row keeps ids, both unique keys and playtimes consistent |
| SessionStore.OpenDroppedIffKeyViolated | fastapi/app/main.py:159-167 | the insert is dropped exactly when the new row would break UNIQUE(token, connect_time) or the one-open-row-per-(token, date) index; otherwise the open row with playtime 0 is appended and becomes last_insert_rowid() |
| SessionStore.OpenKeepsValid | fastapi/app/main.py:51-56 | open_row keeps both unique keys, whether it inserts or not |
| SessionStore.LatestOpen | fastapi/app/main.py:169-176 | get_open_row: an open row of the token that no other open row of it follows by (date, connect_time), or none when it has no open row |
| SessionStore.AfterSplit | fastapi/app/main.py:178-203 | split_if_needed on a table value; a definition: its result is stated in `SessionStore.SplitOutcome` and `SessionStore.SplitKeepsValid` |
| SessionStore.FillDays | fastapi/app/main.py:193-203 | the day loop of split_if_needed; a definition: its result is stated in `SessionStore.FillDaysIdle`, `SessionStore.FillFromFreshMidnight` and `SessionStore.FillDaysKeepsValid` |
| SessionStore.PastDay | fastapi/app/main.py:199-202 | one round of the day loop for a day before today; a definition: its effect is stated in `SessionStore.OpenThenClose` |
| SessionStore.SplitOutcome | fastapi/app/main.py:178-203 | no change without an open row or when it is dated today or later; otherwise that row is closed at 23:59:59 and exactly one row is added iff the token had no 00:00:00 row: dated the next day, closed with playtime 86399 unless that day is today |
| SessionStore.FillDaysIdle | fastapi/app/main.py:193-203 | once the token has a 00:00:00 row every further day of the loop changes nothing |
| SessionStore.SplitAfterPastRow | fastapi/app/main.py:185-203 | with the latest open row from an earlier day, the split closes it and adds one row iff the token had no 00:00:00 row |
| SessionStore.CloseKeepsMidnightRows | fastapi/app/main.py:148-157 | close_row changes no token and no connect time, so the token's 00:00:00 rows stay the same |
| SessionStore.FillDaysAfterRounds | fastapi/app/main.py:193-203 | running the past-day rounds up to a day and the loop from that day on is the whole loop |
| SessionStore.CloseLatest | fastapi/app/main.py:185-190 | closing the latest open row keeps the table valid and leaves no open row of the token after that row's date |
| SessionStore.OpenThenClose | fastapi/app/main.py:198-201 | on a day with no collision, open_row at 00:00:00 then close_row(last_insert_rowid(), 23:59:59) appends one closed row, which then blocks every later midnight insert and makes re-closing harmless |
| SessionStore.FillFromFreshMidnight | fastapi/app/main.py:193-203 | without a 00:00:00 row, the loop adds exactly one row on its first day |
| SessionStore.LongGapLeavesNothingOpenToday | fastapi/app/main.py:178-203 | after a split over two or more midnights the token has no open row dated today |
| SessionStore.LongGapClosesEverything | fastapi/app/main.py:178-203 | for a token with one open row, such a split leaves it no open row at all |
| SessionStore.MidnightRowClosesEverything | fastapi/app/main.py:178-203 | for a token with one open row from an earlier day and a 00:00:00 row already, the split only closes the open row at 23:59:59 and leaves the token no open row |
| SessionStore.CloseKeepsOneOpen | fastapi/app/main.py:148-157 | close_row only closes a row: no token gets a second open row, and no open row is dated later than before |
| SessionStore.CloseNoOpenLeft | fastapi/app/main.py:189-190 | closing the token's only open row at 23:59:59 leaves the token no open row |
| SessionStore.SplitSettlesToken | fastapi/app/main.py:178-203 | with at most one open row per token and none dated after today, split_if_needed keeps both, and any open row it leaves the token is dated today |
| SessionStore.PastRowSplitSettlesToken | fastapi/app/main.py:187-203 | the same for a latest open row from an earlier day: the split leaves the token at most the one open row it inserts today |
| SessionStore.OneDayGapOpensToday | fastapi/app/main.py:178-203 | a split over one midnight, for a token with no 00:00:00 row, leaves a new open 00:00:00 row today as the latest open row |
| SessionStore.SplitBoundsOpenDates | fastapi/app/main.py:178-203 | a split adds no open row dated after today |
| SessionStore.FillDaysKeepsValid | fastapi/app/main.py:193-203 | the day loop keeps the table invariant |
| SessionStore.SplitKeepsValid | fastapi/app/main.py:178-203 | split_if_needed keeps the table invariant |
| SessionStore.SessionTable.constructor | fastapi/app/main.py:37-73 | an empty sessions table |
| SessionStore.SessionTable.Reconnect | fastapi/app/main.py:19-35 | a new connection: last_insert_rowid() is 0, rows unchanged |
| SessionStore.SessionTable.CloseRow | fastapi/app/main.py:148-157 | the table afterwards is AfterClose of the table before, and stays valid |
| SessionStore.SessionTable.OpenRow | fastapi/app/main.py:159-167 | the table afterwards is AfterOpen of the table before, and stays valid |
| SessionStore.SessionTable.GetOpenRow | fastapi/app/main.py:169-176 | the latest open row of the token, as LatestOpen |
| SessionStore.SessionTable.HasOpenRowOn | fastapi/app/main.py:247-252 | true iff the token has an open row dated that day |
| SessionStore.SessionTable.SplitIfNeeded | fastapi/app/main.py:178-203 | the table afterwards is AfterSplit of the table before |
| SessionStore.SessionTable.FillDaysFrom | fastapi/app/main.py:193-203 | the day loop leaves the table as FillDays says (each past day opened at 00:00:00 and closed at 23:59:59, today opened at 00:00:00) and valid; the round of today, which the source runs before its `break`, is written after the loop |
| SessionStore.SessionTable.FillPastDay | fastapi/app/main.py:198-201 | one past day of the loop: the table afterwards is PastDay of the table before, and stays valid |
| Ledger.RecordKeepsUnique | fastapi/app/main.py:62 | recording a new log id keeps log_id a key, and exactly that id becomes recorded |
| Ledger.ProcessedLogs.constructor | fastapi/app/main.py:61-67 | the processed_logs table starts empty, with log_id a key |
| Ledger.ProcessedLogs.Contains | fastapi/app/main.py:375-378 | the "already processed" query; a definition: true exactly when an entry has that log id |
| Ledger.ProcessedLogs.Record | fastapi/app/main.py:386-389 | the INSERT appends the entry |
| Ingest.FreshConnection | fastapi/app/main.py:19-35 | each transaction runs on a new connection, so last_insert_rowid() starts at 0; a definition, used by `Ingest.Transaction` |
| Ingest.Transaction | fastapi/app/main.py:373-414 | the ledger check, the handler, and the processed_logs insert of a connect or disconnect line; a definition: its effect is stated in `Ingest.LedgerEffect`, `Ingest.ReplayIsNoop` and `Ingest.TransactionKeepsValid` |
| Ingest.Apply | fastapi/app/main.py:353-417 | process_single_log for an already classified line; a definition: its effect is stated in `Ingest.HandshakeLeavesStoreAlone`, `Ingest.LinkedBindsLastKey` and `Ingest.UnmatchedChangesNothing` |
| Ingest.Step | fastapi/app/main.py:342-417 | process_single_log; a definition: its properties are stated in `Ingest.StepKeepsValid`, `Ingest.StepKeepsOneOpen` and `Ingest.LedgerEffect` |
| Ingest.Run | fastapi/app/main.py:332-337 | the /ingest loop over a list payload; a definition: its properties are stated in `Ingest.RunKeepsValid`, `Ingest.RunKeepsOneOpen` and `Ingest.RunExtends` |
| Ingest.SteamIdOf | fastapi/app/main.py:388-411 | `result.get("steamid")` exists exactly for the connected and disconnected answers |
| Ingest.ConnectEffect | fastapi/app/main.py:217-277 | handle_player_connected: the ledger is untouched; the answer is not-found (and then nothing changes, exactly when no steam id resolves), already connected, or connected with the resolved id |
| Ingest.DisconnectEffect | fastapi/app/main.py:279-325 | handle_disconnect: pending and the ledger are untouched; not-in-memory (and then nothing changes, exactly when the token is unknown), no open session exactly when no open row of the token survives the split (then the table is the split result and memory is kept), or disconnected (token forgotten) |
| Ingest.ConnectKeepsValid | fastapi/app/main.py:217-257 | handle_player_connected keeps the dicts and table well formed |
| Ingest.DisconnectKeepsValid | fastapi/app/main.py:279-295 | handle_disconnect keeps them well formed |
| Ingest.TransactionKeepsValid | fastapi/app/main.py:371-414 | a transactional line keeps all state well formed, ledger key included |
| Ingest.StepKeepsValid | fastapi/app/main.py:342-417 | every line keeps the dicts, the table and the ledger well formed |
| Ingest.RunKeepsValid | fastapi/app/main.py:332-337 | a batch keeps them well formed and answers once per line |
| Ingest.LedgerEffect | fastapi/app/main.py:371-414 | a connect or disconnect line with a new log id adds exactly one ledger entry (its id, time, the handler's steam id, its token and action), whatever the handler answered; every other line leaves the ledger alone |
| Ingest.ReplayIsNoop | fastapi/app/main.py:373-404 | sending a connect or disconnect line again with the same log id answers "already processed" and changes nothing |
| Ingest.AlreadyProcessedChangesNothing | fastapi/app/main.py:373-404 | a recorded log id is answered "already processed" with no change |
| Ingest.HandshakeLeavesStoreAlone | fastapi/app/main.py:352-417 | accepted, linked and unmatched lines touch neither the table, the ledger nor session_to_steam |
| Ingest.UnmatchedChangesNothing | fastapi/app/main.py:417 | an unmatched line answers "skip" and changes nothing |
| Ingest.LinkedBindsLastKey | fastapi/app/main.py:360-368 | linked binds the token to the last pending key in place, keeping every other entry; with nothing pending it changes nothing |
| Ingest.ConnectOpensRow | fastapi/app/main.py:234-257 | in a valid state on a fresh connection, where the token has no open row dated after today, a resolved player with no open row today gets an open row at now's time, which becomes the latest open row, unless a unique key drops it; the answer is "connected" |
| Ingest.LatestOpenOfFreshRow | fastapi/app/main.py:159-176 | a row opened on a day with no later open rows is what get_open_row returns next |
| Ingest.ConnectWhileOpenToday | fastapi/app/main.py:234-254 | with an open row today after the split: "already connected", nothing inserted, but the player is bound and its pending entry removed |
| Ingest.DisconnectSameDay | fastapi/app/main.py:279-323 | a same-day disconnect closes the open row at now's time and forgets the token |
| Ingest.DisconnectClosesLatest | fastapi/app/main.py:287-323 | when an open row survives the split, the latest is closed at now's time with playtime secs_between(connect, now) and only it changes |
| Ingest.DisconnectAfterLongGap | fastapi/app/main.py:287-293 | two or more days after the only open row: "no open session" and the token stays in memory |
| Ingest.DisconnectWithMidnightRow | fastapi/app/main.py:279-295 | a disconnect on a later day, for a token with one open row and a 00:00:00 row already: "no open session", the token stays in memory, and the only change is the open row closed at 23:59:59 |
| Ingest.ConnectKeepsOneOpen | fastapi/app/main.py:244-257 | handle_player_connected keeps at most one open row per token and none dated after the line's day |
| Ingest.DisconnectKeepsOneOpen | fastapi/app/main.py:286-295 | handle_disconnect keeps at most one open row per token and none dated after the line's day |
| Ingest.StepKeepsOneOpen | fastapi/app/main.py:342-417 | each line keeps at most one open row per token and none dated after its day, when none was dated after its day before |
| Ingest.RunKeepsOneOpen | fastapi/app/main.py:332-337 | over a batch whose clock never goes back, every token keeps at most one open row, and none is dated after the last line's day |
| Ingest.OvernightVisitTwoRows | fastapi/app/main.py:178-297 | for a table whose only row is the visit's, opened after 00:00:00, a disconnect one day later leaves two rows: that row closed at 23:59:59, and a 00:00:00 row closed at the disconnect |
| Ingest.OvernightSplit | fastapi/app/main.py:178-203 | for a table whose only row is the token's row, open from yesterday (not at 00:00:00), the split closes it at 23:59:59 and opens a 00:00:00 row today, which is then the latest open row |
| Ingest.FirstHandshake | fastapi/app/main.py:205-215 | from the empty state, the accepted and linked lines leave one pending steam id bound to the token and change nothing else |
| Ingest.FirstConnect | fastapi/app/main.py:217-257 | for that state, handle_player_connected resolves the pending id, empties the pending dict, binds the player, and inserts the table's first row, open at the connect time |
| Ingest.FirstVisitConnects | fastapi/app/main.py:205-257 | from an empty state, accepted, linked and player-connected lines answer "connected", open one row at the line's time, bind the player and leave nothing pending |
| Ingest.FirstVisitDisconnects | fastapi/app/main.py:279-325 | the same-day disconnect that follows closes that row at its time and forgets the token |
| Ingest.OneVisitOneRow | fastapi/app/main.py:205-325 | the four events (accepted, linked, player connected, disconnected) of a same-day visit from an empty state leave one closed row with playtime secs_between(connect, disconnect) and empty dicts |
| Server.HandlePlayerConnected | fastapi/app/main.py:217-277 | the objects afterwards, and the answer, are ConnectEffect of the state before |
| Server.HandleDisconnect | fastapi/app/main.py:279-325 | the objects afterwards, and the answer, are DisconnectEffect of the state before |
| Server.ProcessSingleLog | fastapi/app/main.py:342-417 | the objects afterwards, and the answer, are Step of the state before |
| Ingest.RunExtends | fastapi/app/main.py:332-337 | the batch over one more line is the batch so far followed by one more Step |
| Server.IngestBatch | fastapi/app/main.py:327-337 | the loop over a list payload computes Run: the state after all lines and the answers in order |

## Left out

- HTTP plumbing is not modelled: the FastAPI routes `/health`, `/stats` and `/send-daily-report`, and the JSON payload handling. The list-payload loop of `/ingest` is kept as `Server.IngestBatch`.
- `fetch_steam_name` is not modelled: it is network I/O plus HTML scraping. Its answer is the input `LogLine.steamName`.
- `send_discord_notification` and the `asyncio.create_task` calls are not modelled, nor the hours/minutes formatting for the embed. They are fire-and-forget network I/O.
- Concurrency is not modelled: not the interleaving of requests at the `await` inside handle_player_connected, and not concurrent transactions. Every line is processed to completion, one after another.
- SQLite mechanics are left out: connections, `BEGIN IMMEDIATE`, commit and rollback, and the schema bootstrap in init_db. Each transaction is one atomic step. The exceptions a rollback would undo cannot arise in the model, because open_row swallows its IntegrityError and the ledger insert is preceded by its own check. The secondary indexes only speed up queries.
- The MD5 fallback for a missing `log_id`, and `datetime.now()`, are not modelled. They are a hash call and the clock. `log_id` and the current time are inputs. Without a `log_id`, the fallback hashes the line with the current time, so a re-sent line gets a new id and is applied again: the deduplication holds only for lines sent with the same `log_id`.
- The calendar is left out: `strptime`/`strftime`/`timedelta` on `YYYY-MM-DD`, and `total_seconds()` as a float. Dates are integer day numbers and times are whole seconds. The microseconds in `processed_at` are dropped.
- Only ASCII `\d` and `\s` are modelled: digits 0-9, and as whitespace the characters 9-13, 28-31 and space. Python also accepts other Unicode digits and spaces.
- `Correlation.ResolveSteamId` compares tokens by string equality. This matches `sess_id == session_userid` for the values the parsers produce, where None never equals a string.
- The `ok` flag and the echoed `log_id` of each response are not modelled. The outcome datatype keeps the action, note, error or skip and its fields.
