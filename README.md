# Reversi-Server: board engine and moderation, modelled in Dafny

Reversi-Server is a small web API for a two-player Reversi (Othello) game.
It has two parts.

- The board engine exists twice. The original is in Python (`api/game_logic.py`). The JavaScript handler `api/index.js` carries a port of it. Each decides legal moves on an 8x8 board of ints: 0 is empty, 1 and 2 are the two colours, and the opponent of `color` is `3 - color`. Each also plays a move, flipping every opponent run that ends at a disc of the mover.
- The request handlers register players, count reports of suspicious play and ban players, over a Redis store.
  - The JavaScript handler has `register`, `report` and `move` branches.
  - The Flask app `api/index.py` has `register`, `report_suspicious` and `admin_ban` routes, with a per-IP registration lock and an administrator password.

The model has seven modules.

- `Board` (Board.dfy) holds the reference definitions, on `seq<seq<int>>`:
  - `HasFlippable` and `CanPlace` are straight-line ray predicates;
  - `LegalMoves` is the row-major list of legal cells;
  - `Moved` is the board after a move, defined cell by cell from `Captured`;
  - disc counts and the lemmas about them.
- `JsGameLogic` (JsGameLogic.dfy) holds the `gameLogic` methods of `api/index.js`, over `array2<int>`. `executeMove` writes a fresh array and leaves its input untouched; its method has no `modifies` clause.
- `PyGameLogic` (PyGameLogic.dfy) holds the functions of `api/game_logic.py`, over `array2<int>`. `execute_move` writes into the caller's array and returns that same array.
- `Opening` (Opening.dfy) applies the `Board` definitions to the standard opening position: Dark (1) at (3, 4) and (4, 3), Light (2) at (3, 3) and (4, 4). It proves Dark's four legal replies in that position, in the order `getValidMoves` lists them, and the board after Dark plays (2, 3).
- `Redis` (Redis.dfy) models the store through the keys the handlers use:
  - `user:<name>` hashes, as a map from name to a record of fields;
  - the set `ban_list`;
  - the `ip_registered:<ip>` strings.
  Each Redis command is a pure transition on `State` and a method of class `Store`. HINCRBY starts a missing record or field at 0. `FieldsWritten` says that a store differs from another only in the named fields of one record and possibly in the ban list, which it does not constrain.
- `JsHandler` (JsHandler.dfy) holds the register, report and move branches of `api/index.js`.
- `PyApi` (PyApi.dfy) holds the three routes of `api/index.py`.

In both handler modules, each route is a pure step function from a store `State` to a new `State` and a reply. Each route is also a method that issues the same Redis calls, in the same order, on a `Store`, and is proved equal to the step. `Serve` runs a sequence of requests; the lemmas about `Serve` state what holds over any sequence.

Three behaviours of the code are easy to miss; the model follows the code.

- The Python `register` (api/index.py:19-46) never reads the ban list, so a banned name with no record registers normally; `PyApi.BannedNameRegisters` shows it. Only the JavaScript branch checks the ban list first.
- The JavaScript `register` writes a field `suspicious` (api/index.js:96), while `report` increments a different field, `suspicious_count` (api/index.js:103). The two are modelled as distinct fields; `JsHandler.RegisterDoesNotSeedCounter` shows the stale `suspicious` field.
- Neither handler decides whose turn comes next or whether a player must pass: the move branch answers only the new board.

## Model

| member | source | states |
|---|---|---|
| Board.Opponent | api/index.js:36 | the opponent `3 - color` differs from `color`, and swaps colours 1 and 2 |
| Board.LegalMovesExact | api/index.js:25-33 | the listed cells are exactly the on-board cells where canPlace holds, in strictly increasing row-major order, so each appears once |
| Board.Moved | api/index.js:53-68 | after a move the target holds `color`; every captured cell held the opponent and now holds `color`; every other cell is unchanged |
| Opening.OnlyFourRuns | api/index.js:43-51 | in the opening position, a direction with a flip run for Dark starts only from (2, 3), (3, 2), (4, 5) or (5, 4) |
| Opening.OpeningLegalCells | api/index.js:34-42 | in the opening position, canPlace holds for Dark exactly at (2, 3), (3, 2), (4, 5) and (5, 4) |
| Opening.OpeningMoves | api/index.js:25-33 | in the opening position, getValidMoves for Dark is exactly the list (2, 3), (3, 2), (4, 5), (5, 4), in that order |
| Opening.IncreasingDetermined | api/index.js:25-33 | two row-major increasing move lists with the same members are equal, so the order of the list getValidMoves builds is determined by its members |
| Opening.OpeningMove | api/index.js:53-68 | Dark playing (2, 3) on the opening position turns (2, 3) and (3, 3) Dark and leaves every other cell as it was, so (4, 4) is the one Light disc left |
| Board.MovedChanges | api/index.js:55-66 | a changed cell other than the target went from the opponent to `color`, and lies on a direction whose hasFlippable held |
| Board.MoveCounts | api/index.js:59-64 | for a move on an empty cell by colour 1 or 2: empty cells drop by exactly 1 (so occupied cells grow by 1), the mover gains 1 + flips, and the opponent loses the flips |
| Board.LegalMoveFlips | api/index.js:34-42 | a legal move flips at least one disc |
| JsGameLogic.GetValidMoves | api/index.js:25-33 | the returned list equals the row-major list of legal cells |
| JsGameLogic.CanPlace | api/index.js:34-42 | false on an occupied cell; otherwise true iff some of the eight directions has a flip run |
| JsGameLogic.HasFlippable | api/index.js:43-52 | true iff the adjacent cell is on the board and holds `opponent`, and the ray reaches `color` before an empty cell or the edge |
| JsGameLogic.ExecuteMove | api/index.js:53-68 | returns a fresh 8x8 board equal to `Moved` of the input; the input is not written |
| JsGameLogic.FlipDirection | api/index.js:58-65 | one pass of the direction loop flips exactly the captured cells of that direction |
| JsGameLogic.FlipRun | api/index.js:60-64 | the flip loop stays on the board, terminates, and turns exactly the opponent run into `color` |
| JsGameLogic.FlipCell | api/index.js:62 | writing one run cell extends the flipped part of the run by that cell |
| JsGameLogic.AgreesWithPython | api/index.js:53-68 | on boards with equal contents, executeMove answers the same cells execute_move leaves in place |
| PyGameLogic.GetValidMoves | api/game_logic.py:1-8 | the returned list equals the row-major list of legal cells |
| PyGameLogic.CanPlace | api/game_logic.py:10-17 | false on an occupied cell; otherwise true iff some direction has a flip run |
| PyGameLogic.HasFlippable | api/game_logic.py:19-29 | true iff the adjacent cell holds `opponent` and the ray reaches `color` before 0 or the edge |
| PyGameLogic.ExecuteMove | api/game_logic.py:31-42 | updates the caller's board in place to `Moved` of its old contents and returns that same board |
| PyGameLogic.FlipDirection | api/game_logic.py:35-41 | one pass of the direction loop flips exactly the captured cells of that direction |
| PyGameLogic.FlipRun | api/game_logic.py:37-41 | the inner `while` stays on the board, terminates, and turns exactly the opponent run into `color` |
| PyGameLogic.FlipCell | api/game_logic.py:39 | writing one run cell extends the flipped part of the run by that cell |
| Redis.WithFields | api/db.py:11-13 | HSET writes the given fields into the record, creating it if missing; other fields, other records, the ban set and IP keys are kept |
| Redis.FieldsWrittenTwice | api/index.py:64-69 | two writes to one record, with a ban-list change between them, together write the union of their fields and keep everything else in the record and the store |
| Redis.Incremented | api/index.js:103 | HINCRBY returns the old integer (0 if the record or field is missing) plus `delta`, stores it, creates the record if absent, and changes nothing else |
| Redis.WithBan | api/db.py:19-21 | SADD adds the name to the ban set and changes nothing else |
| Redis.WithIp | api/index.py:44 | SET maps the IP address to the name and changes nothing else |
| Redis.Store.Exists | api/db.py:23-25 | answers whether a `user:<name>` record exists |
| Redis.Store.IsMember | api/db.py:15-17 | answers whether the name is in the ban set |
| Redis.Store.IpExists | api/index.py:29 | answers whether the IP address has an `ip_registered` key |
| Redis.Store.HSet | api/db.py:11-13 | the store becomes `WithFields` of the old store |
| Redis.Store.HIncrBy | api/index.py:64 | the store and the returned count are `Incremented` of the old store |
| Redis.Store.SAdd | api/db.py:19-21 | the store becomes `WithBan` of the old store |
| Redis.Store.SetIp | api/index.py:44 | the store becomes `WithIp` of the old store |
| JsHandler.NewUser | api/index.js:96 | the new record has exactly `password`, `rate` and `suspicious`, and no `suspicious_count` |
| JsHandler.RegisterStep | api/index.js:93-97 | 403 iff the name is banned, checked before existence; 400 iff it is not banned but exists; both without a write; otherwise the record is created with rate 1000 and `suspicious` 0 and nothing else changes |
| JsHandler.ReportStep | api/index.js:102-108 | `suspicious_count` goes up by exactly 1, banned or not; a missing record is created holding only `suspicious_count` = 1; BANNED iff the new count is at least 5, and then the name joins the ban set; otherwise WARNED with the new count; nothing else changes |
| JsHandler.Register | api/index.js:93-97 | the Redis calls of the register branch have the effect and reply of `RegisterStep` |
| JsHandler.Report | api/index.js:102-108 | the Redis calls of the report branch have the effect and reply of `ReportStep` |
| JsHandler.Move | api/index.js:113-115 | 500 iff the row is off the board; 400 iff the row is on it and the column is off it or canPlace fails; otherwise a fresh board with the move played |
| JsHandler.BanIsPermanent | api/index.js:103-106 | no sequence of register and report requests removes a name from the ban set |
| JsHandler.StepKeepsLimit | api/index.js:103-106 | one request keeps every unbanned user's count below 5 |
| JsHandler.LimitEnforced | api/index.js:103-106 | after any sequence of requests, every unbanned user's count is below 5 |
| JsHandler.RepeatedReports | api/index.js:103-108 | n reports on one name answer WARNED with counts c+1, c+2, ... below 5 and BANNED from then on |
| JsHandler.ReportsReachingLimitBan | api/index.js:104-106 | reports that bring a count to 5 or more leave the name in the ban set |
| JsHandler.FiveReportsBan | api/index.js:103-108 | five reports on an unreported name answer WARNED 1, 2, 3, 4 and then BANNED, and the name is banned |
| JsHandler.RegisterDoesNotSeedCounter | api/index.js:96-103 | after register and one report the record holds `suspicious` 0 next to `suspicious_count` 1 |
| PyApi.NewUser | api/index.py:33-39 | the saved record has exactly password, ip, is_admin, score and `suspicious_count`, the counter at 0 |
| PyApi.RegisterStep | api/index.py:19-46 | an empty name or password, a taken name, or a non-admin from a registered IP address are each refused without a write, in that order; otherwise the record is created with is_admin = (password == ADMIN_PASS), and only non-admins lock the IP address to the name; the ban set is neither read nor written |
| PyApi.ReportStep | api/index.py:57-72 | the admin password answers admin_bypass and a banned name answers already_banned, both without a write; otherwise the counter goes up by exactly 1; at 5 or more the name is banned and `ban_reason` set to `自動BAN: <reason>の繰り返し` (line 69), and only `suspicious_count` and `ban_reason` of that record are written; otherwise warned with the new count, which is below 5, and only `suspicious_count` is written and the ban list is unchanged |
| PyApi.Counted | api/index.py:63-72 | the counter goes up by exactly 1; warned (count below 5, only the counter written, ban list unchanged) or banned (count 5 or more, name added to the ban list, only the counter and `ban_reason` written) |
| PyApi.AutoBan | api/index.py:68-69 | the name joins the ban list and its record gets `ban_reason` = `自動BAN: <reason>の繰り返し`; no other field, record or IP key changes, and integral counters stay integral |
| PyApi.AdminBanStep | api/index.py:81-85 | a wrong admin password changes nothing; the right one adds the target to the ban set and changes nothing else |
| PyApi.Register | api/index.py:19-46 | the Redis calls of the route have the effect and reply of `RegisterStep` |
| PyApi.ReportSuspicious | api/index.py:57-72 | the Redis calls of the route have the effect and reply of `ReportStep` |
| PyApi.AdminBan | api/index.py:81-85 | the Redis calls of the route have the effect and reply of `AdminBanStep` |
| PyApi.StepMonotone | api/index.py:60-68 | one request never removes a ban, never releases an IP address, and never changes a banned user's counter |
| PyApi.ServeMonotone | api/index.py:60-68 | over any sequence of requests, bans and IP locks are permanent and banned users' counters are frozen |
| PyApi.StepKeepsLimit | api/index.py:64-70 | one request keeps every unbanned user's count below SUSPICIOUS_LIMIT |
| PyApi.LimitEnforced | api/index.py:64-70 | after any sequence of requests, every unbanned user's count is below SUSPICIOUS_LIMIT |
| PyApi.OneAccountPerIp | api/index.py:26-44 | once a non-admin has registered from an IP address, any later non-admin registration of a new name from it is refused with 403 |
| PyApi.BannedNameRegisters | api/index.py:22-23 | a banned name with no record registers like any other name |

## Left out

- The engines require an 8x8 board of ints and an on-board target. Off-board targets are modelled only in `JsHandler.Move`, where the request can carry them. In the engines, Python would wrap negative indices. In JavaScript an off-board column reads `undefined`, while an off-board row throws a TypeError because `board[r]` is `undefined`; `JsHandler.Move` models both.
- JSON decoding is left out: boards that are not 8x8 int grids, and non-integer `r`, `c` or `color`.
- A missing `username` or `password` field is modelled as the empty string. Python's `register` treats `None` and `""` alike at api/index.py:19. JavaScript would use the text `undefined` as the name; that is not modelled.
- PyApi.ReportStep, PyApi.Counted, PyApi.AutoBan, PyApi.AdminBanStep: a missing `username` (api/index.py:52) or `targetName` (api/index.py:79) is modelled as the empty string, which touches the record `user:` and the ban-list member "". The source passes `None` on: the f-string at api/index.py:64 and 69 makes the key `user:None`, the record of an account named "None", and `is_banned`/`add_to_ban_list` (api/index.py:60, 68, 84) hand `None` to the Redis client, whose handling of it is not part of this model.
- `reason` is an opaque string. Python would write a missing `reason` as the text `None`.
- JsHandler.ReportStep, JsHandler.Report, PyApi.ReportStep, PyApi.Counted, PyApi.ReportSuspicious: these require `Redis.Valid`, meaning every `suspicious_count` field holds an integer. Every state the handlers produce satisfies it. Redis's error for HINCRBY on a non-integer field is not modelled.
- The Redis connection, environment-variable parsing and client construction (api/index.js:3-21, api/db.py:5) are left out. So are `get_user` (api/db.py:7-9), which the routes do not call, and the ping endpoint.
- CORS, OPTIONS handling, URL routing, the 404 answer, and the Flask app and its `handler` are transport. Replies are modelled as result constructors. Their HTTP status codes are named in the comments; the JSON message texts are not modelled.
- The 500 catch-all path is left out, except for the off-board row in `JsHandler.Move`. Store failures are outside the model.
- Concurrent requests are left out. Each route is one sequential step, so the atomicity of HINCRBY and the race between the existence check and the write in `register` are not modelled.
- `is_admin` is stored as Python's `str(is_admin)`, the text `True` or `False`. The reply carries the boolean.
