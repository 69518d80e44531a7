# Score ledger: the store, the scoreboard and the new-game roster

A Dafny model of the persistence-and-scoring layer of a tabletop-game score
ledger (a TypeScript/React app over an SQLite store). It covers three parts.

- **The store.** The `LedgerDatabase` class: four tables (`templates`,
  `sessions`, `session_players`, `scores`) and the commands and queries on them.
  - Seeding the two built-in templates.
  - Inserting a template, with its round names written as JSON text.
  - Listing templates.
  - Listing one day's sessions through the join on templates.
  - Creating a session together with its seats.
  - Reading one session's details.
  - The `scores` upsert keyed by `(session_id, round_index, player_id)`.
- **The scoreboard of a running session.** The `ActiveSession` component.
  - The cell lookup that defaults to 0.
  - Per-player totals.
  - The number of open-ended (DYNAMIC) rounds shown.
  - The row list.
  - "+ Add Round".
  - A score edit: `parseInt(val) || 0`, then the upsert, then a reload.
- **The new-game dialog.** `NewGameModal` together with the `onStart` handler
  that App hands it.
  - The seat slots and their edits.
  - The selected template.
  - The Start button: it drops blank names, checks `min_players` and only then
    creates a session.

Layout:

| file | module | what it holds |
|---|---|---|
| wrappers.dfy | `Wrappers` | `Option` |
| js_builtins.dfy | `JsBuiltins` | the JavaScript built-ins the code relies on: the ECMA-262 white-space set, `String.prototype.trim`, and radix-less `parseInt` (including its `0x` prefix) with the `|| 0` fallback |
| round_names.dfy | `RoundNames` | `JSON.stringify` / `JSON.parse` restricted to a list of strings, with the round trip |
| schema.dfy | `Schema` | the row types of the four tables, plus the pure table operations the store is specified by: template row encode/decode, lookups, the session filters, the day listing, the upsert |
| database.dfy | `Database` | the store as a class whose fields are the tables, changed in place |
| scoreboard.dfy | `Scoreboard` | cell lookup, totals, round count and rows as functions; the component as a class over the store |
| new_game.dfy | `NewGame` | blank filtering and the start decision as functions; the dialog as a class |

Modelling choices:

- **Ids.** The store never checks an id's format. Each call to `uuidv4()`
  becomes a draw from a counter `nextId`, so every new id is one no row has used.
- **Row order.** Tables are sequences in insertion order. A `SELECT` without
  `ORDER BY` is read in that order.
- **Foreign keys.** The schema declares them. The model does not check them,
  so a session may name a template that has no row (see `CreateSession` under
  "## Left out"). For such a session:
  - the day listing's inner join drops it;
  - the details carry its template as `None`.
- **Store invariant.** `LedgerDatabase.Valid` says:
  - ids are unique and below the counter;
  - every stored round-name text parses;
  - each session's seats are in seat order;
  - no two score rows share a key.

  Every command keeps it.
- **DYNAMIC rows.** The grid grows to `max(maxRound + 1, 1)` rows, as the code
  has it at src/ActiveSession.tsx:23. A rule of `highest written index + 2`
  would always leave an empty row under the last one written. Under the code's
  `+ 1` that does not happen, and `Scoreboard.WriteInVisibleRowKeepsCount`
  proves it: writing into the bottom row leaves the count unchanged.
- **A side effect of the reload.** After "+ Add Round", a save into an earlier
  row reloads, and `LoadData` resets the round list to what the scores justify.
  So the added empty row goes away again.
- **Time.** The clock behind `createSession`'s date is a parameter (`today`).

## Model

| member | source | states |
|---|---|---|
| Schema.EncodeRow | src/services/database.ts:117-122 | the row `createTemplate` inserts. `Schema.DecodeEncodedRow` proves both readers give the template back |
| Schema.DecodeEncodedRow | src/services/database.ts:120 | reading an inserted row with either reader (the one with the `'[]'` fallback, or the strict one) gives back exactly the template that was written |
| Schema.DecodersAgree | src/services/database.ts:135 | where `JSON.parse(text)` succeeds, `JSON.parse(text \|\| '[]')` gives the same result |
| RoundNames.RoundTrip | src/services/database.ts:120 | `JSON.parse(JSON.stringify(names))` is `names` for every list of strings |
| RoundNames.StoredRoundTrip | src/services/database.ts:135 | the stored column read with the `'[]'` fallback gives back the list |
| RoundNames.EncodeRoundNames | src/services/database.ts:120 | `JSON.stringify` of a list of strings: a text that opens with `[` and closes with `]`. `RoundNames.RoundTrip` proves that it parses back |
| RoundNames.DecodeRoundNames | src/services/database.ts:203 | a successful `JSON.parse` of a list starts, after white space, with `[`; a blank text is a syntax error |
| Schema.DecodeRow | src/services/database.ts:135 | the fallback reader copies every column of the row; a NULL or empty round-name column reads as no round names |
| Schema.DecodeRowStrict | src/services/database.ts:203 | the strict reader copies every column of the row; a NULL or empty round-name column is unreadable, since it has no fallback |
| RoundNames.DecodeStored | src/services/database.ts:135 | a NULL or empty column reads as the empty list |
| RoundNames.DecodeEmptyArray | src/services/database.ts:135 | the text `[]` parses to the empty list |
| RoundNames.ParseEncodedElements | src/services/database.ts:120 | the parser reads back every encoded element list and stops exactly after its closing bracket |
| RoundNames.ParseEscapedString | src/services/database.ts:120 | reading an escaped string gives back the original characters and the text after the closing quote |
| RoundNames.ParseEscapedChar | src/services/database.ts:120 | each JSON escape of a character reads back as that character and consumes exactly its escape |
| RoundNames.EscapeChar | src/services/database.ts:120 | `JSON.stringify`'s escape of one character inside a string literal, as a definition: `\"`, `\\`, the five short control escapes, `\u00xx` for the other control characters, any other character as itself; `RoundNames.ParseEscapedChar` proves each reads back |
| RoundNames.Unescape | src/services/database.ts:203 | `JSON.parse`'s escape after a backslash, as a definition that consumes at least one character: the short escapes, `\uXXXX` in either case, a high-low surrogate pair as one code point, and no lone surrogate; the lemmas named next state what it returns |
| RoundNames.SurrogatePairEscape | src/services/database.ts:203 | the `\uXXXX\uYYYY` escapes of the two UTF-16 surrogates of any character above U+FFFF read back as that one character |
| RoundNames.LoneLowSurrogateRefused | src/services/database.ts:203 | an escaped trailing surrogate on its own is refused |
| RoundNames.LoneHighSurrogateRefused | src/services/database.ts:203 | an escaped leading surrogate that no further escape follows is refused |
| RoundNames.DecodePairElement | src/services/database.ts:203 | a list whose one element is a surrogate-pair escape parses to the one-character string |
| RoundNames.DecodeEscapedAstral | src/services/database.ts:203 | U+1F600 is escaped `\ud83d\ude00`, and `JSON.parse('["\\ud83d\\ude00"]')` is the list holding that one character |
| RoundNames.ParseUnicodeEscape | src/services/database.ts:120 | a control character without a short escape reads back from its `\u00XX` escape |
| RoundNames.HexChar | src/services/database.ts:120 | the hex digit written in a `\u00XX` escape reads back as its value |
| Database.GenericTemplate | src/services/database.ts:94-102 | the first seeded literal, as a definition: "Scrabble / Generic", 2 to 8 players, highest total wins, DYNAMIC, no round names; `Database.SeededRowsDecode` proves it reads back |
| Database.LorumTemplate | src/services/database.ts:104-113 | the second seeded literal, as a definition: "Lórum", exactly 4 players, lowest total wins, FIXED, the twelve round names in order; `Database.SeededRowsDecode` proves it reads back |
| Database.SeededRowsDecode | src/services/database.ts:93-114 | both seeded templates read back unchanged; the generic one has min ≤ max and is DYNAMIC; Lórum is FIXED, with 4 = min = max players and 12 round names |
| Database.LedgerDatabase.constructor | src/services/database.ts:49-78 | an opened store is four empty tables that satisfy the invariant |
| Database.LedgerDatabase.NewId | src/services/database.ts:95 | a fresh id, above every id in use; no table changes |
| Database.LedgerDatabase.CreateTemplate | src/services/database.ts:117-122 | appends exactly the encoded row and keeps the invariant; no other table changes |
| Database.LedgerDatabase.SeedTemplates | src/services/database.ts:82-115 | when templates exist: no change. Otherwise the table becomes exactly the two encoded seed rows, under fresh ids. Sessions, seats and scores never change |
| Database.LedgerDatabase.GetTemplates | src/services/database.ts:126-140 | one template per row, in table order, each the row decoded with the `'[]'` fallback; never fails under the invariant |
| Schema.SessionsOnDateMembers | src/services/database.ts:142-157 | a listing is returned exactly when its session was played on the date, has a template row, and carries that template's name |
| Schema.SessionsOnDate | src/services/database.ts:142-157 | the join query as a definition; `SessionsOnDateMembers`, `SessionsOnDateSound` and `SessionsOnDateUnique` state what it returns |
| Schema.SessionsOnDateSound | src/services/database.ts:142-157 | every listing carries a stored session played on the date, which joins a template row and carries that template's name; there are no more listings than sessions |
| Schema.SessionsOnDateUnique | src/services/database.ts:142-157 | when session ids are unique, no session is listed twice |
| Database.LedgerDatabase.GetSessionsByDate | src/services/database.ts:142-157 | returns the inner join in table order; membership is exactly the join condition |
| Database.LedgerDatabase.CreateSession | src/services/database.ts:159-177 | adds one session under a fresh id, with the given template and date and not finished, and returns that id. Adds one seat per name, in input order, with seat index = position. The session's seats are exactly the new rows. Templates and scores do not change |
| Database.LedgerDatabase.InsertSession | src/services/database.ts:164-167 | the session insert, under a new id above every session's and seat's session id |
| Database.LedgerDatabase.InsertSeats | src/services/database.ts:169-174 | the seat loop: appends seat k = (name k, index k) of the new session for every k |
| Database.LedgerDatabase.InsertSeat | src/services/database.ts:170-173 | one seat insert, behind every seat the session already has; keeps the invariant |
| Database.LedgerDatabase.SeatAppended | src/services/database.ts:170-173 | a seat appended under a fresh id, behind its session's other seats, keeps ids unique and bounded and seats in order |
| Database.LedgerDatabase.SeatsOfNewSession | src/services/database.ts:169-174 | seats appended for a new session are exactly that session's seats |
| Database.LedgerDatabase.GetSessionDetails | src/services/database.ts:179-224 | equals `Schema.Details` on the current tables. None exactly when no session has the id. Otherwise: that session. Under the invariant, a template comes back exactly when a template row has the session's template id. Then exactly its seats, sorted by seat index, and exactly its score rows. There is no `modifies` clause, so no state changes |
| Database.LedgerDatabase.SelectSeats | src/services/database.ts:207-213 | the seat query equals the session filter over the seat table |
| Database.LedgerDatabase.SelectScores | src/services/database.ts:215-221 | the score query equals the session filter over the score table |
| Schema.PlayersOfSorted | src/services/database.ts:209 | where the table keeps each session's seats in seat order, the filtered seats are sorted by `seat_index`, which is what `ORDER BY seat_index` returns |
| Schema.PlayersOf | src/services/database.ts:207-213 | the filtered seats are exactly the seat rows of that session |
| Schema.ScoresOf | src/services/database.ts:215-221 | the filtered scores are exactly the score rows of that session |
| Schema.PlayersOfConcat | src/services/database.ts:207-213 | the seat filter distributes over concatenation, so table order is kept |
| Schema.ScoresOfConcat | src/services/database.ts:215-221 | the score filter distributes over concatenation, so table order is kept |
| Schema.FindSession | src/services/database.ts:186-195 | some session with the id if there is one, otherwise None |
| Schema.FindTemplateRow | src/services/database.ts:197-205 | some template row with the id if there is one, otherwise None |
| Schema.Upsert | src/services/database.ts:226-234 | the written entry is in the table afterwards; the table grows by at most one row. `Schema.UpsertWrites` and `Schema.UpsertKeepsOthers` give the rest |
| Schema.Details | src/services/database.ts:179-224 | None exactly when no session has the id. Otherwise: a stored session with that id. If a template row has the session's template id, the template is that row decoded by the strict reader; if none has, there is no template. Then exactly that session's seats and score rows |
| Schema.IndexOfKey | src/services/database.ts:77 | the first row with the key, or None when no row has it |
| Database.LedgerDatabase.SaveScore | src/services/database.ts:226-234 | the scores table becomes `Upsert(old, entry)` and keeps unique keys; the other tables do not change |
| Schema.UpsertWrites | src/services/database.ts:226-234 | keeps keys unique; afterwards the entry is present and is the only row with its key |
| Schema.UpsertKeepsOthers | src/services/database.ts:229-232 | every row with another key is kept, and nothing new appears except the entry |
| Schema.UpsertMiddle | src/services/database.ts:229-232 | upserting a row whose key first occurs right after `pre` replaces that row and keeps the rest in place |
| Schema.UpsertIdempotent | src/services/database.ts:226-234 | saving the same score twice equals saving it once |
| Schema.ScoresOfUpsert | src/services/database.ts:215-234 | reading a session after an upsert into it is upserting into what was read |
| Schema.ScoresOfUpsertOther | src/services/database.ts:215-234 | an upsert into one session leaves every other session's scores alone |
| Scoreboard.GetScore | src/ActiveSession.tsx:6-7 | 0 when no entry is in the cell; a non-zero result is the value of an entry in the cell |
| Scoreboard.GetScoreFirst | src/ActiveSession.tsx:6-7 | the first entry in the cell decides what it shows |
| Scoreboard.GetScoreUnique | src/ActiveSession.tsx:6-7 | among one session's rows with unique keys, the cell shows the value of its one entry |
| Scoreboard.GetScoreAfterUpsert | src/ActiveSession.tsx:6-7 | after an upsert into one session's rows, the written cell shows the new value and every other cell is unchanged |
| Scoreboard.CellAfterSave | src/ActiveSession.tsx:39-42 | after `saveScore` and the reload, the edited cell shows the saved value and every other cell what it showed before |
| Scoreboard.NonNumericInputClearsCell | src/ActiveSession.tsx:39-42 | input with no decimal digit (blank, white space, letters, a lone sign) is still saved: the cell then holds a stored 0, whatever it held before |
| Scoreboard.EntriesOf | src/ActiveSession.tsx:51-52 | the filter keeps exactly that player's entries |
| Scoreboard.Sum | src/ActiveSession.tsx:53 | the `reduce` from 0 that adds each entry's value, as a definition; `PlayerTotalConcat`, `PlayerTotalSingle` and `PlayerTotalReplace` state its properties |
| Scoreboard.PlayerTotal | src/ActiveSession.tsx:51-53 | the sum of the `value`s of that player's entries, as a definition; the `PlayerTotal…` lemmas below state its properties |
| Scoreboard.Totals | src/ActiveSession.tsx:50-54 | one total per seat, in seat order, each the player's total |
| Scoreboard.PlayerTotalConcat | src/ActiveSession.tsx:50-54 | a total over concatenated rows is the sum of the totals of the parts |
| Scoreboard.PlayerTotalNoEntries | src/ActiveSession.tsx:50-54 | a player with no entries totals 0 |
| Scoreboard.PlayerTotalIgnoresOthers | src/ActiveSession.tsx:50-54 | other players' entries do not change a player's total |
| Scoreboard.PlayerTotalSingle | src/ActiveSession.tsx:50-54 | one entry adds its value to its own player's total and nothing to anyone else's |
| Scoreboard.PlayerTotalReplace | src/ActiveSession.tsx:50-54 | replacing one entry's value `v` by `v + delta` changes that player's total by exactly `delta` and no one else's |
| Scoreboard.PlayerTotalAfterUpsert | src/ActiveSession.tsx:39-54 | a save moves the writer's total by the new value minus what the cell showed; every other total is unchanged |
| Scoreboard.MaxRound | src/ActiveSession.tsx:20 | at least -1; no entry's round exceeds it; it is -1 or some entry's round |
| Scoreboard.DynamicRoundCount | src/ActiveSession.tsx:23 | at least 1, greater than every written round index, and the least such value |
| Scoreboard.DynamicRoundCountAfterUpsert | src/ActiveSession.tsx:20-24 | after a save, the count is the larger of the old count and the written round + 1; it never drops |
| Scoreboard.MaxRoundSameRounds | src/ActiveSession.tsx:20 | the maximum depends only on the rows' round indices |
| Scoreboard.WriteInVisibleRowKeepsCount | src/ActiveSession.tsx:23 | a write into any visible row, the bottom one included, leaves the row count unchanged |
| Scoreboard.RoundIndices | src/ActiveSession.tsx:24 | `Array.from({length: n}, (_, i) => i)` is a list of length n holding its own positions |
| Scoreboard.Rows | src/ActiveSession.tsx:34-37 | FIXED: exactly the round names, in order. DYNAMIC: exactly the round list |
| Scoreboard.FixedRowsIgnoreRounds | src/ActiveSession.tsx:34-37 | a FIXED grid has one row per round name, whatever the round list or the scores are |
| Scoreboard.DynamicRowsAfterLoad | src/ActiveSession.tsx:22-24 | after a reload, a DYNAMIC grid has `DynamicRoundCount` rows: 0, 1, … |
| Scoreboard.ScoreBoard.constructor | src/ActiveSession.tsx:10-13 | nothing loaded and no rounds yet |
| Scoreboard.ScoreBoard.LoadData | src/ActiveSession.tsx:15-27 | unknown session: no state change. Otherwise the details are kept. For a DYNAMIC template the round list becomes 0 … count-1; for any other case it is unchanged |
| Scoreboard.ScoreBoard.HandleScoreChange | src/ActiveSession.tsx:39-43 | upserts `Coerce(val)` into the cell and changes no other table, then reloads as `LoadData` does |
| Scoreboard.ScoreBoard.AddRound | src/ActiveSession.tsx:45-47 | appends the next row number; the list stays 0 … n |
| Scoreboard.RangeIsRoundIndices | src/ActiveSession.tsx:24 | a list holding its own positions is the round list of its length |
| JsBuiltins.TrimStart | src/components/NewGameModal.tsx:9 | what is left is a suffix that starts with a non-blank; everything dropped is white space |
| JsBuiltins.Trim | src/components/NewGameModal.tsx:9 | `trim()` is no longer than its input; what is left neither starts nor ends with white space |
| JsBuiltins.TrimEnd | src/components/NewGameModal.tsx:9 | what is left is a prefix that ends with a non-blank; everything dropped is white space |
| JsBuiltins.TrimEmptyIff | src/components/NewGameModal.tsx:9 | `trim()` gives the empty string exactly when every character is white space |
| JsBuiltins.DigitRun | src/ActiveSession.tsx:40 | the longest prefix of digits in the radix |
| JsBuiltins.CoerceWithoutDigits | src/ActiveSession.tsx:40 | text with no decimal digit at all coerces to 0 |
| JsBuiltins.ParseInt | src/ActiveSession.tsx:40 | `parseInt` gives a number only for text that contains a decimal digit |
| JsBuiltins.Coerce | src/ActiveSession.tsx:40 | `parseInt(val) \|\| 0` is non-zero only for text that contains a decimal digit |
| JsBuiltins.CoerceBlank | src/ActiveSession.tsx:40 | blank text coerces to 0 |
| JsBuiltins.ParseUnsigned | src/ActiveSession.tsx:40 | `parseInt`'s digits after the sign, as a definition: radix 16 after `0x`/`0X`, radix 10 otherwise, the longest digit run, NaN for none; `ParseUnsignedNoDigit` and `ParseUnsignedDigits` state what it returns |
| JsBuiltins.ParseUnsignedNoDigit | src/ActiveSession.tsx:40 | digits that do not start with a decimal digit are NaN |
| JsBuiltins.ParseUnsignedDigits | src/ActiveSession.tsx:40 | a string of decimal digits reads as its decimal value |
| JsBuiltins.ParseIntFromDigit | src/ActiveSession.tsx:40 | text that starts with a digit is read without sign or white space |
| JsBuiltins.ParseIntNegative | src/ActiveSession.tsx:40 | a minus sign then digits reads as the negated number |
| JsBuiltins.CoerceDigits | src/ActiveSession.tsx:40 | a string of decimal digits coerces to its value |
| JsBuiltins.NatToDecimal | src/ActiveSession.tsx:92 | a non-empty string of decimal digits |
| JsBuiltins.NatToDecimalValue | src/ActiveSession.tsx:40 | the decimal digits of n read back as n |
| JsBuiltins.IntToDecimal | src/ActiveSession.tsx:92 | `String(n)` for the cell value, as a definition: a minus sign for a negative integer, then the decimal digits of its magnitude; `JsBuiltins.CoerceIntToDecimal` proves `parseInt` reads it back |
| JsBuiltins.CoerceIntToDecimal | src/ActiveSession.tsx:92-93 | the decimal text of an integer coerces back to that integer; the shown text is that text for magnitudes below 10^21 |
| NewGame.IsBlank | src/components/NewGameModal.tsx:9 | a slot made only of white space, as a definition; `NewGame.BlankIffTrimmedEmpty` ties it to `trim()` |
| NewGame.BlankIffTrimmedEmpty | src/components/NewGameModal.tsx:9 | a slot is blank exactly when its `trim()` is empty |
| NewGame.ValidPlayers | src/components/NewGameModal.tsx:9 | no longer than the slots; no name blank; a name is kept exactly when it is in a slot and is not blank |
| NewGame.ValidPlayersConcat | src/components/NewGameModal.tsx:9 | filtering distributes over concatenation, so slot order is kept |
| NewGame.ValidPlayersAllFilled | src/components/NewGameModal.tsx:9 | when no slot is blank, the names are the slots unchanged |
| NewGame.ValidPlayersAllBlank | src/components/NewGameModal.tsx:9 | when every slot is blank, there are no names |
| NewGame.BlankNameIsDropped | src/components/NewGameModal.tsx:9 | appending a blank slot does not change the names |
| NewGame.EditChangesCount | src/components/NewGameModal.tsx:9 | editing one slot changes the count of names by whether that slot was filled before and whether it is filled after |
| NewGame.HandleStart | src/components/NewGameModal.tsx:8-15 | start exactly when a template is selected and the non-blank names reach `min_players`, passing that template's id and exactly those names. Reject, naming the minimum, exactly when they fall short. Fail when no template is selected |
| NewGame.StartedRosterIsValid | src/components/NewGameModal.tsx:10-14 | a started roster has at least `min_players` names, none of them blank, all taken from the slots |
| NewGame.EmptySlotsNeverStart | src/components/NewGameModal.tsx:6-13 | the four opening empty slots are rejected for any template that needs a player |
| NewGame.FindTemplate | src/components/NewGameModal.tsx:26 | some offered template with the id, or None when none has it |
| NewGame.NewGameForm.constructor | src/components/NewGameModal.tsx:5-6 | the first template is selected (none when there is none), and there are four empty slots |
| NewGame.NewGameForm.SelectTemplate | src/components/NewGameModal.tsx:25-28 | the selection becomes the lookup result |
| NewGame.NewGameForm.AddSeat | src/components/NewGameModal.tsx:51 | appends exactly one empty slot; the other slots and the names do not change |
| NewGame.NewGameForm.EditSeat | src/components/NewGameModal.tsx:42-46 | replaces only slot `idx`; the length is unchanged |
| NewGame.NewGameForm.Start | src/App.tsx:68-69 | a session is created exactly when `HandleStart` says start. It then has at least `min_players` seats, named by the non-blank slots in order. Templates, scores and the earlier seats stay as they were. Otherwise the store is unchanged |

## Left out

- SQLite/WASM loading, the OPFS or in-memory storage choice, and console logging (src/services/database.ts:12-44) are I/O. The store is modelled as already open with its tables created.
- The migration SQL is left out. The tables are Dafny data.
- `uuidv4` is replaced by a counter, so ids are naturals, not strings.
- The clock is left out. `createSession`'s date is the parameter `today`.
- The `transaction` primitive is left out. `CreateSession` is one atomic method.
- React rendering is left out: JSX, `useState`/`useEffect`, the row headings (`Round n`) and the `alert` text. The mount effect that calls `loadData` is `LoadData` called after the constructor.
- src/hooks/useLedger.ts, src/hooks/useGameEngine.ts, src/types.ts and vite.config.ts are not part of this model. They are effect wiring, an alternative design over an API the store does not have, its types, and build configuration.
- Winner determination, `max_players` enforcement, duplicate-name checks, FIXED round-index bounds and any `is_finished` change do not exist in the code, so the model has none of them. The win condition is only displayed.
- JsBuiltins.ParseInt: integers are unbounded. The IEEE double that `parseInt` returns and its loss of precision past 2^53 are not modelled. Nor is the exponent form (`1e+21`) in which `String(n)` writes magnitudes of 10^21 and more, which `parseInt` would read back as 1. `JsBuiltins.IntToDecimal` writes plain digits for every integer.
- RoundNames.DecodeRoundNames: it parses only JSON text that is an array of strings, which is the only shape `JSON.stringify` writes here. Any other JSON value is treated as unreadable. A `\u` escape of a leading UTF-16 surrogate directly followed by a `\u` escape of a trailing one reads as the code point the pair encodes (`RoundNames.SurrogatePairEscape`). A `\u` escape of a lone surrogate, where JavaScript would keep the lone code unit, is refused, because a Dafny `char` is a Unicode scalar value.
- Schema.DecodeRowStrict: a NULL round-name column counts as unreadable. In JavaScript, `JSON.parse(null)` yields `null`. Under `LedgerDatabase.Valid` no stored row has a NULL column.
- Database.LedgerDatabase.GetSessionsByDate: rows come back in session-table order. SQLite leaves the order of an unordered join unspecified.
- Database.LedgerDatabase.SelectScores: the score rows of a session come back in insertion order. SQLite may read `SELECT * FROM scores WHERE session_id = ?` through the primary-key index, which returns them ordered by round and then by player. No proved property depends on this order: the cell lookup under unique keys, the totals and the round maximum all ignore it.
- Database.LedgerDatabase.CreateSession: it assumes that every call passes the id of a listed template, as the dialog's template selector does. SQLite's foreign-key enforcement is off unless `PRAGMA foreign_keys` turns it on, or the build changes that default. Nothing in the store sets that pragma, and the model does not decide how the bundled SQLite was built. With enforcement on, a session under an unknown template id would make the insert throw and the transaction roll back. The model inserts the session instead.
- Scoreboard.ScoreBoard.LoadData: when a session's template row is missing, the source keeps the details and then throws a TypeError on `res.template`. The model keeps the details and the round list but does not model the exception.
- NewGame.NewGameForm.EditSeat: requires `idx < |slots|`. The dialog only renders inputs for existing slots, so JavaScript's growing of an array on an out-of-range write is not modelled.
- NewGame.HandleStart: when no template is selected, the source throws a TypeError reading `min_players`. The model returns `NoTemplate`.
