# Prediction-market arbitrage core, modelled in Dafny

This project models the computational core of a tool that finds arbitrage
between prediction markets (Kalshi, Polymarket). The tool ingests events,
stores them as bets with options and prices, pairs up similar events and
options, and prices two-leg cross-market arbitrage. Six parts are modelled,
one module each:

- **Arbitrage** (`arbitrage.dfy`). `calculate_cross_market_arbitrage`
  works on prices in cents, which may be fractional (`real`). For each of the two opposite-side
  scenarios it gives the total cost, the profit per contract and the
  arbitrage flag. The result is a record with both scenarios and, only when
  there is no arbitrage, the message. A small payout model of binary
  contracts shows that the calculator's profit is the gain guaranteed
  whichever way the event settles.
- **OptionCheck** (`option_check.dfy`). The matching loops of
  `populate_similar_event_options` compare every option of a pair's first
  bet with every option of its second bet. They emit a similar_event_options
  row whenever the names score at least 0.1. The bet_choice table is a
  sequence of rows, and each `SELECT ... WHERE bet_id = ...` is a filter in
  table order. A class holds the target table, with commit-or-rollback
  semantics.
- **SimilarEvents** (`similar_events.dfy`). The nested index loops of
  `similar_events.py` scan the upper triangle of an n×n score matrix and keep
  each `(events[i], events[j], score)` whose score is at least 0.25.
- **KalshiDates** (`kalshi_dates.dfy`). `parse_date` has three
  fixed-width timestamp formats, which it tries in order and re-renders as
  `YYYY-MM-DD HH:MM:SS`.
- **KalshiRows** (`kalshi_rows.dfy`). The row-building loop of
  `insert_event_data` turns decoded event records into bet_description,
  bet_choice and price rows. It has a running option-id counter and a
  per-event set of seen `(bet_id, subtitle)` keys. A JSON key is modelled as
  missing, null, or present. `dict.get(k, d)` yields `d` only for a missing
  key, so a null subtitle stays null. The loop catches no exceptions: an
  event whose `markets` field is null (TypeError) or an empty list
  (IndexError) aborts the whole call before anything is written. The model
  returns an error result in that case. `generate_unique_bet_id` is an
  abstract digest of the key string, reduced modulo 10^8.
- **UpdateDatabase** (`update_database.dfy`). `close_expired_events` is
  modelled as a class over the bet_description table. Dates are compared as
  calendar dates. bet_id is the primary key.
- **Globals** (`globals.dfy`). `add_to_arbitrage_sides_lookup` is a
  class holding the module-level dictionary, updated in place.

Every loop of the source is a `method` with a `for` or `while` loop. It is
proved equal to a specification function, and the properties are proved
about that function as lemmas. The similarity scores, the MD5 digest, the
current time and the current maximum option id are parameters.

## Model

| member | source | states |
|---|---|---|
| Arbitrage.Payout | arbitrage_calculator.py:85-94 | a contract pays 0 or 100 cents at settlement |
| Arbitrage.ScenarioProfit | arbitrage_calculator.py:16-19 | profit is never negative, and it is positive exactly when the total is below 100 |
| Arbitrage.MakeScenario | arbitrage_calculator.py:14-26 | a scenario records its legs, its total unchanged, and a non-negative profit |
| Arbitrage.CalculateCrossMarketArbitrage | arbitrage_calculator.py:1-57 | each scenario is the one MakeScenario builds from its legs and its total (so its profit is ScenarioProfit of that total); scenario 1 bets Yes on market 1 and No on market 2, with total yes1+no2; scenario 2 bets the reverse, with total no1+yes2; both profits are non-negative; the flag holds iff some total is below 100, iff some profit is positive; the message is present iff there is no arbitrage; both scenarios are always reported |
| Arbitrage.OppositeLegsPayHundred | arbitrage_calculator.py:85-94 | a Yes and a No contract together pay exactly 100 cents whichever way the event settles |
| Arbitrage.ProfitIsGuaranteedGain | arbitrage_calculator.py:90-94 | a scenario's profit is the gain guaranteed under every outcome when that gain is positive, and 0 otherwise; it is positive iff every outcome gains |
| Arbitrage.BoundaryHundredIsNoProfit | arbitrage_calculator.py:16-19 | a total of exactly 100 yields profit 0 and, with the other total at least 100, no arbitrage |
| Arbitrage.JustUnderHundredIsProfit | arbitrage_calculator.py:16-17 | a total of 99.99 cents yields a profit of 0.01 and sets the flag |
| Arbitrage.SwapMarketsExchangesScenarios | arbitrage_calculator.py:14-26 | swapping the two markets exchanges the scenarios' totals and profits and keeps the flag and the message |
| Arbitrage.WorkedExample | arbitrage_calculator.py:60-65 | prices 72/25/35/30 give totals 97 and 65, profits 3 and 35, and arbitrage |
| OptionCheck.OptionsOf | option_check.py:57-69 | the `SELECT` of one bet's options returns at most one entry per bet_choice row |
| OptionCheck.OptionsOfMembers | option_check.py:57-69 | the options fetched for a bet are exactly its bet_choice rows |
| OptionCheck.InnerRowsMembers | option_check.py:74-86 | the innermost loop emits, for one option of the first bet, exactly the options among those scanned so far that reach 0.1, with both ids, both names and the event id |
| OptionCheck.OuterRowsMembers | option_check.py:73-86 | after i options of the first bet, the rows are exactly the qualifying pairs drawn from those i options and all options of the second bet |
| OptionCheck.EventRowsMembers | option_check.py:56-86 | one event pair's rows are exactly the pairs of an option of bet_id_1 and an option of bet_id_2 that score at least 0.1, carrying the event id and both names unchanged |
| OptionCheck.MatchedRowsMembers | option_check.py:53-86 | after k event pairs the rows are exactly those fitting one of the first k pairs |
| OptionCheck.MatchedRowsSoundAndComplete | option_check.py:53-86 | every row scores at least 0.1; the rows are exactly the qualifying pairs of some event; every qualifying pair is emitted, however many rows share one of its options |
| OptionCheck.MatchSimilarEventOptions | option_check.py:53-86 | the nested loops emit exactly the specified rows in order: events, then options of bet 1, then options of bet 2 |
| OptionCheck.SimilarEventOptionsTable.PopulateSimilarEventOptions | option_check.py:46-94 | on success the table gains all matched rows, committed together; on failure it is as before (rollback) |
| OptionCheck.SimilarEventOptionsTable.constructor | option_check.py:82-86 | the similar_event_options table holds the given rows |
| OptionCheck.RerunDuplicates | option_check.py:80-86 | two runs over unchanged data leave every row twice, since nothing is checked before insert |
| SimilarEvents.RowPairsMembers | similar_events.py:44-46 | row i keeps exactly the columns j with i < j that reach the threshold |
| SimilarEvents.RowPairsOrderedAndBounded | similar_events.py:44-46 | a row keeps at most n-i-1 pairs, in increasing column order |
| SimilarEvents.RowsPairsSound | similar_events.py:43-46 | every pair kept after i rows lies above the diagonal in one of those rows and reaches the threshold |
| SimilarEvents.RowsPairsComplete | similar_events.py:43-46 | every pair above the diagonal in the first i rows that reaches the threshold is kept |
| SimilarEvents.RowsPairsMembers | similar_events.py:43-46 | the pairs kept after i rows are exactly the qualifying pairs of those rows |
| SimilarEvents.RowsPairsOrdered | similar_events.py:43-46 | the kept pairs are in strictly increasing lexicographic order of (i, j) |
| SimilarEvents.RowsPairsBound | similar_events.py:43-44 | at most i(2n-i-1)/2 pairs are kept after i rows |
| SimilarEvents.SelectedPairsProperties | similar_events.py:39-46 | the selection has i < j and a score of at least 0.25 for every pair (so no self-pairs and no mirrored duplicates), contains every such pair, is lexicographically ordered, and has at most n(n-1)/2 pairs |
| SimilarEvents.RowTriplesAgree | similar_events.py:44-46 | what the inner loop appends for a row is the triples of the index pairs it keeps |
| SimilarEvents.RowsTriplesAgree | similar_events.py:43-46 | what the loops append is the triples of the selected index pairs, in the same order |
| SimilarEvents.SelectedTriplesScores | similar_events.py:39-46 | every emitted triple scores at least 0.25 |
| SimilarEvents.SelectedTriplesComplete | similar_events.py:43-46 | every (events[i], events[j], m[i][j]) with i < j and a score of at least 0.25 is emitted |
| SimilarEvents.SelectedTriplesProperties | similar_events.py:39-46 | the output is the selected pairs' triples, carrying both descriptions and exactly the matrix score, with the score, completeness and n(n-1)/2 properties |
| SimilarEvents.ScanRow | similar_events.py:44-46 | the inner loop appends exactly the row's triples |
| SimilarEvents.FindSimilarEventPairs | similar_events.py:40-46 | the loops produce the specified triples: each scores at least 0.25, every qualifying pair is present, at most n(n-1)/2 in all |
| KalshiDates.Pad | kalshiapi.py:18 | strftime's zero-padded numeric field (%Y at width 4, the others at width 2) prints exactly `width` decimal digits |
| KalshiDates.Strptime | kalshiapi.py:18 | `datetime.strptime` on fixed-width input: a result has fields in the ranges `datetime` accepts (ValidStamp: year at least 1, month 1-12, a day that exists in that month, leap years included, hour below 24, minute and second below 60), and the whole input is consumed: exactly a Z or z after the seconds for the first format, a dot, one to six digits (%f) and a Z or z for the second, nothing for the third (SuffixMatches, IsT, IsZ: the literals match case-insensitively) |
| KalshiDates.DateText | kalshiapi.py:18 | the `%Y-%m-%d` part of the output is 10 characters long |
| KalshiDates.TimeText | kalshiapi.py:18 | the `%H:%M:%S` part of the output is 8 characters long |
| KalshiDates.Strftime | kalshiapi.py:18 | `strftime("%Y-%m-%d %H:%M:%S")` is 19 characters: the date part, a space, the time part |
| KalshiDates.FirstMatch | kalshiapi.py:16-22 | a returned date is a 19-character rendering with a space at position 10 |
| KalshiDates.FirstMatchFirstSuccess | kalshiapi.py:16-22 | the loop returns None iff every format fails, and otherwise the rendering of the first format that succeeds, all earlier ones having failed |
| KalshiDates.ParsedDate | kalshiapi.py:10-22 | parse_date's value, when present, is 19 characters with a space between date and time |
| KalshiDates.DateTextOfFields | kalshiapi.py:18 | re-rendering the parsed year, month and day gives back the input's first ten characters |
| KalshiDates.TimeTextOfFields | kalshiapi.py:18 | re-rendering the parsed hour, minute and second gives back the input's characters 11 to 18 |
| KalshiDates.RenderedShape | kalshiapi.py:18 | the input's digits with the T replaced by a space and the tail dropped have the output shape YYYY-MM-DD HH:MM:SS |
| KalshiDates.PadNumberOf | kalshiapi.py:18 | printing a zero-padded field's value at its own width gives back its digits |
| KalshiDates.TryFormatRendersInput | kalshiapi.py:18 | a successful parse re-renders as the input's date digits, a space in place of the T, and the time digits; what follows the seconds is dropped |
| KalshiDates.FormatsExclusive | kalshiapi.py:11-15 | no input is accepted by two of the formats |
| KalshiDates.ParsedDateUnfolded | kalshiapi.py:16-20 | the formats are tried in the listed order and the first success is returned |
| KalshiDates.ParsedDateCharacterised | kalshiapi.py:10-22 | the result is None iff no format parses the input; otherwise the input has the fixed-width shape with valid calendar fields, some format yields the result, and the result is its digits in YYYY-MM-DD HH:MM:SS form |
| KalshiDates.ParsedDateNormalises | kalshiapi.py:11-18 | accepted inputs that agree on their date and time digits normalise to the same string, whatever their fraction, Z, or T case |
| KalshiDates.ParseDateExample | kalshiapi.py:12-18 | "2024-11-05T23:59:59.5Z" fails the first format, parses with the second and becomes "2024-11-05 23:59:59" |
| KalshiDates.ParseDate | kalshiapi.py:10-22 | the loop over the formats with its early return computes the specified result |
| KalshiRows.RawKey | kalshiapi.py:69 | the hashed string is the event name, a dash, then the expiration date, each recoverable from its position |
| KalshiRows.GenerateUniqueBetId | kalshiapi.py:67-70 | the bet id lies in [0, 10^8) and depends only on the name and the expiration date |
| KalshiRows.Get | kalshiapi.py:189 | `dict.get` yields a value exactly when the key is present and not null, and then it is the key's value |
| KalshiRows.GetOr | kalshiapi.py:208 | `dict.get` with a default yields the default only for a missing key; a null stays null |
| KalshiRows.Expiration | kalshiapi.py:189-191 | reading the first market's close_time raises TypeError exactly when markets is null and IndexError exactly when it is an empty list; a missing markets key gives None; otherwise the result is parse_date of the first market's close_time when that is present and non-empty, and None when it is missing, null or empty |
| KalshiRows.RowsSnoc | kalshiapi.py:216-226 | keeping one more market appends one choice row and one price row under the next option id |
| KalshiRows.EventRowsIds | kalshiapi.py:193-226 | an event contributes at most one description row, no choices without one, and as many price rows as choice rows, numbered consecutively from the counter |
| KalshiRows.BatchRowsIds | kalshiapi.py:183-226 | option ids start at max+1 and rise by exactly one per choice row; the k-th price row carries the k-th choice row's id |
| KalshiRows.BatchRowsErrStable | kalshiapi.py:188-228 | once an event raises, the whole call raises the same, whatever follows |
| KalshiRows.CrashAbortsBatch | kalshiapi.py:190 | an event with null or empty markets anywhere in the list aborts the call |
| KalshiRows.CrashingEventAborts | kalshiapi.py:190 | an event whose expiration cannot be read aborts the call |
| KalshiRows.SkippedEventAddsNothing | kalshiapi.py:193-195 | an event without a title or a parsable expiration adds no rows of any kind |
| KalshiRows.SubtitlesOfMembers | kalshiapi.py:205-214 | the subtitles seen are exactly those of the markets scanned |
| KalshiRows.KeptMarketsSubtitles | kalshiapi.py:205-214 | every scanned subtitle is carried by some kept market, and kept markets carry only scanned subtitles |
| KalshiRows.KeptMarketsDistinct | kalshiapi.py:211-214 | no two kept markets of one event share a subtitle |
| KalshiRows.KeptMarketsWithin | kalshiapi.py:207 | only the event's own markets are kept |
| KalshiRows.KeptMarketsFirst | kalshiapi.py:211-224 | the market kept for a subtitle is its first occurrence, so its prices are the ones recorded |
| KalshiRows.KeptEventRows | kalshiapi.py:197-226 | a kept event yields one description row (its bet id, name and date, website kalshi, status open, is_arbitrage no) and one choice and one price row per kept market |
| KalshiRows.KeptEventExtends | kalshiapi.py:197-226 | a kept event appends exactly those rows to the lists, numbered from the counter's value |
| KalshiRows.BatchRowsSnoc | kalshiapi.py:188-228 | one more event extends the lists by its rows, numbered where the ids stopped, or raises |
| KalshiRows.KeptEventChoices | kalshiapi.py:205-216 | an event's choice rows all carry its bet id and outcome pending, have pairwise distinct names, and name every subtitle of its markets; the seen set starts empty per event |
| KalshiRows.EventChoicesMatchPrices | kalshiapi.py:208-224 | the k-th choice and price rows share option id max+1+k and describe the same market; missing bids and volume become 0, a missing subtitle "Unknown Choice", the odds repeat the bids, and every price row carries the batch timestamp |
| KalshiRows.ReadExpiration | kalshiapi.py:189-191 | the expiration read computes the specified value or exception |
| KalshiRows.AppendMarketRows | kalshiapi.py:205-226 | the inner loop with its seen set appends exactly the kept markets' choice and price rows and advances the counter by their number |
| KalshiRows.AddEventRows | kalshiapi.py:188-228 | one event's loop body computes the specified extension and the new counter |
| KalshiRows.InsertEventRows | kalshiapi.py:179-228 | the loop over the events, with the counter starting at max+1, computes the specified rows or the first exception |
| UpdateDatabase.BeforeIsStrictOrder | update_database.py:34 | the date comparison is irreflexive, transitive and asymmetric, so a row expiring today is not before today |
| UpdateDatabase.SelectOpen | update_database.py:8-12 | the selection holds exactly the open rows |
| UpdateDatabase.CollectExpired | update_database.py:28-35 | the loop appends at most one id per selected row |
| UpdateDatabase.CollectExpiredMembers | update_database.py:28-35 | the collected ids are exactly those of selected rows whose date is present and strictly before today |
| UpdateDatabase.ExpiredIdsMembers | update_database.py:8-35 | the ids a run closes are exactly those of open rows that expired strictly before today |
| UpdateDatabase.SetClosed | update_database.py:14-18 | one `UPDATE ... WHERE bet_id = id` changes only the status column, and a row ends closed iff it was closed already or carries that bet_id |
| UpdateDatabase.ClosedTable | update_database.py:37-38 | the `executemany` UPDATE over the collected ids changes only the status column, and a row ends closed iff it was closed already or its bet_id was collected |
| UpdateDatabase.ClosedTableSnoc | update_database.py:14-18 | one more UPDATE closes one more id |
| UpdateDatabase.CloseExpiredRowwise | update_database.py:14-38 | a row ends closed iff it was closed or expired; rows not selected are unchanged; only the status changes; a row expiring today stays open |
| UpdateDatabase.CollectExpiredEmpty | update_database.py:34-35 | with no row past its date nothing is collected |
| UpdateDatabase.CloseExpiredIdempotent | update_database.py:8-34 | a second run on the same day closes nothing and changes nothing |
| UpdateDatabase.ExpiredIdsSnoc | update_database.py:28-35 | the ids collected grow row by row in table order |
| UpdateDatabase.CountIsTransitioned | update_database.py:40 | with unique bet ids the reported count equals the number of rows whose status changed |
| UpdateDatabase.CollectClosedEvents | update_database.py:25-35 | the selection loop computes the specified ids |
| UpdateDatabase.BetDescriptionTable.CloseExpiredEvents | update_database.py:7-40 | the table becomes the specified closed table, and the count is the number of ids collected |
| UpdateDatabase.BetDescriptionTable.constructor | update_database.py:8-12 | the table holds the given rows |
| Globals.WithSides | globals.py:7-10 | after storing, the key maps to the new sides, every other key keeps its value, and no key is added besides it |
| Globals.WithSidesSize | globals.py:7 | the map grows by one iff the key was absent |
| Globals.WithSidesOverwrites | globals.py:7 | storing under an existing key overwrites it rather than adding a second entry |
| Globals.ArbitrageSidesLookup.constructor | globals.py:4 | the lookup starts empty |
| Globals.ArbitrageSidesLookup.AddToArbitrageSidesLookup | globals.py:6-10 | the dictionary is updated in place as specified, and its size rule holds |

## Left out

- Database I/O is not modelled: connections, cursors, `fetchall`, `executemany`, commits and rollbacks. Only the row lists or the table state they would read or write are modelled. The atomicity of a run is modelled in `PopulateSimilarEventOptions`.
- The writes after the loop in `insert_event_data` (kalshiapi.py:230-240) are not modelled: three `executemany` calls with `ON DUPLICATE KEY UPDATE` upserts, one commit, and a caught database error. They are SQL side effects with no further logic.
- `get_max_option_id` and `clear_kalshi_events` are database queries. The current maximum option id is an input of `InsertEventRows`.
- `datetime.now()` is a parameter. It is `now` in the Kalshi rows and `today` in `CloseExpiredEvents`.
- The MD5 digest in `generate_unique_bet_id` is a foreign hash, modelled as an abstract function `digest`.
- The similarity back-ends are library float numerics, modelled as an abstract score function and an abstract score matrix. These are `difflib.SequenceMatcher` in `calculate_similarity` and TF-IDF with cosine similarity in `similar_events.py`. The sample event list and the printing in `similar_events.py` are not modelled.
- KalshiDates.ParseDate covers only the fixed-width forms. `strptime` also accepts fields that are not zero-padded, and Unicode digits; the model rejects those inputs.
- KalshiDates.TryFormatRendersInput: for years below 1000 the model renders four zero-padded digits. Python's `%Y` output for such years depends on the platform's C library, so the model does not capture it.
- Values of unexpected JSON types are not modelled, for example a numeric `close_time` or a market that is not an object. Those raise errors other than the two modelled exceptions.
- Arbitrage.CalculateCrossMarketArbitrage: prices are exact reals, so floating-point rounding of the sums is not modelled (in binary floating point a sum such as 99.99 is not exact).
- KalshiRows: bids and volumes are whole numbers. The source copies whatever the API returns into the price rows without computing with it, so only the copying is modelled.
- KalshiRows.GenerateUniqueBetId: the contract does not promise distinct ids for distinct events. The digest reduced modulo 10^8 can map two keys to the same id, despite the function's name.
- The string-to-datetime path in `close_expired_events` (update_database.py:31-32) is not modelled. The column is a DATE, so a string never arrives. Comparing the parsed `datetime` with a `date` would raise a TypeError, which the `except Error` clause does not catch.
- Database errors in `close_expired_events` are not modelled. On such an error the table is left as it was.
- Both `SELECT`s are taken in table order. SQL does not guarantee any order, so emission order is stated relative to that order.
- The `print` calls and the `tqdm` progress bar are not modelled.
- The fetch code and the rest of the repository are not part of this model: `fetch_kalshi_events`, `polymarketapi.py`, `main.py`, `app.py`, `update.py`, `query_options.py` and `kalshitest.py`. They are network, menu and endpoint plumbing.
