# ScratchWinRewards — a Dafny model of the prize draw and its store

ScratchWinRewards is a scratch-card game. The server keeps prizes, users, one
game-settings row and one game-stats row in an in-memory store (`MemStorage`). It
decides each play with `determineWin`:

- a percentage gate against `globalWinRate`;
- a filter that keeps the active prizes whose stock is `0` ("unlimited") or positive;
- a cumulative-weight roulette over that list, in insertion order, with a fallback to the
  first eligible prize;
- a stock decrement and a `prizesWon`/`gamesPlayed` bump for the winner.

The `POST /api/play` handler wraps the draw, adds one more to `gamesPlayed`, and answers
win or lose. The admin client shows prizes with their stock and a status badge. It lists
users with a search box and pages of ten. Its utility module also provides helpers for
a growth-figure colour, a stock-status label, and an e-mail check by regular expression.

This project models all of that as pure Dafny functions over immutable records.

| module | file | what it holds |
|---|---|---|
| `JsValues` | `jsvalues.dfy` | `Option` for nullable columns, `Patch` for one key of a `Partial<...>`, and `null` read as 0 |
| `Schema` | `schema.dfy` | the table shapes, column defaults and the shallow merges `{ ...row, ...patch }` |
| `Storage` | `storage.dfy` | the store: prizes in insertion order, users, counters and the CRUD operations |
| `Draw` | `draw.dfy` | `determineWin`, split into its gate, filter, roulette and effects |
| `Routes` | `routes.dfy` | the `/api/play` handler, as written and with each play counted once |
| `Utils` | `utils.dfy` | `getGrowthClass`, `getPrizeStockStatus`, `validateEmail` |
| `UsersTab` | `users_tab.dfy` | the user search filter, page arithmetic and pager |
| `PrizesTab` | `prizes_tab.dfy` | the stock cell, status badge, add/edit form and the submit choice |

`Math.random()` becomes two parameters `u1` and `u2` in `[0, 1)`. The code's `r1` is
`u1 * 100` and its `r2` is `u2 * totalWeight` (`Draw.Scaled`). Dafny's `real` is exact,
so the roulette's running subtraction has no rounding. A store is `Valid` when:

- prize ids strictly increase along the insertion order and lie below the prize counter;
- each user is stored under its own id, below the user counter.

The seeded store is valid, and every operation keeps it valid.

Four behaviours of the code are easy to misread; the model follows the code:

- **A losing draw.** `determineWin` leaves the stats alone on a loss; only the handler
  counts the play.
- **Null stock.** A `null` stock is never eligible, so a catalogue whose every prize has a
  null stock loses every draw (`Draw.NullStockCatalogueNeverDrawn`). Stock `0` is the "unlimited" value.
- **The last unit.** A won prize with stock 1 drops to 0 and so becomes unlimited
  (`Routes.LastUnitNeverRunsOut`).
- **Counting wins.** A winning play adds 2 to `gamesPlayed` (see Findings).

## Model

| member | source | states |
|---|---|---|
| `JsValues.Incremented` | server/routes.ts:227-229 | `counter + 1` on a nullable counter gives a non-null value one above the counter read as a number (`null` reads as 0) |
| `Schema.ApplyPrizeDefaults` | shared/schema.ts:22-24 | the database column defaults: a prize row without `isActive` is active, and one without `probability` weighs 0; `stock` and `description` have no default and stay as given (the in-memory store applies none of these) |
| `Schema.ColumnDefaults` | shared/schema.ts:15-62 | `globalWinRate` defaults to 25 and the four stats counters to 0; a prize given neither flag nor weight is active with weight 0 and null stock |
| `Schema.WithId` | shared/schema.ts:71-73 | an insert record carries every prize column but `id`; adding an id gives back exactly that record |
| `Schema.MergePrize` | server/storage.ts:239-246 | `{ ...prize, ...updates }`: each field present in the patch takes the patch's value, each absent field keeps the prize's, and the id stays |
| `Schema.StockPatchOnlyTouchesStock` | server/storage.ts:322-323 | the `{ stock: prize.stock - 1 }` update changes the stock and no other field |
| `Schema.MergeSettings` | server/storage.ts:257-260 | `{ ...settings, ...patch }` keeps every settings field absent from the patch and takes every present one |
| `Schema.MergeSettingsLaws` | server/storage.ts:257-260 | an empty settings patch changes nothing; the same patch twice is the patch once; two patches in a row are one combined patch |
| `Schema.MergeStats` | server/storage.ts:267-270 | `{ ...stats, ...patch }` keeps every stats field absent from the patch and takes every present one |
| `Schema.MergeStatsLaws` | server/storage.ts:267-270 | the same three merge laws for the stats row |
| `Storage.IndexOf` | server/storage.ts:228-230 | the first position holding an id, none exactly when no prize has that id |
| `Storage.IndexOfUnique` | server/storage.ts:232-237 | when ids ascend along the insertion order, as the increasing counter makes them, at most one position holds a given id |
| `Storage.AllPrizes` | server/storage.ts:224-226 | `getAllPrizes` lists exactly the stored prizes, in insertion order, which in a valid store is ascending id order |
| `Storage.GetPrize` | server/storage.ts:228-230 | `getPrize` returns a stored prize with the asked id, and undefined exactly when no prize has it |
| `Storage.CreatePrize` | server/storage.ts:232-237 | the new prize gets the counter's id and the given columns, goes last, and the counter moves on; its id exceeds every stored id and the store stays valid |
| `Storage.GetStored` | server/storage.ts:228-230 | in a valid store, `getPrize` with a stored prize's id returns that prize |
| `Storage.CreateThenGet` | server/storage.ts:228-237 | after `createPrize`, `getPrize` with the new id returns the created prize, whose columns are the ones given |
| `Storage.UpdatePrize` | server/storage.ts:239-246 | an unknown id returns undefined and changes nothing; otherwise the prize with that id is replaced in place by its merge, the other prizes and all ids keep their positions, and the store stays valid |
| `Storage.UpdateThenGet` | server/storage.ts:228-246 | after updating a stored id, the result and `getPrize` both give the old prize merged with the patch |
| `Storage.RemoveAt` | server/storage.ts:248-250 | removing one entry keeps the others in their order, shifted by one after the removed position |
| `Storage.RemoveAtKeepsOthers` | server/storage.ts:248-250 | removing the entry of an id keeps the ids ascending and keeps exactly the prizes with another id |
| `Storage.DeletePrize` | server/storage.ts:248-250 | `deletePrize` reports true exactly when the id was present, removes only that entry, and changes nothing otherwise |
| `Storage.DeleteThenGet` | server/storage.ts:228-250 | after a delete, the id is no longer found and deleting it again reports false |
| `Storage.GetUser` | server/storage.ts:185-187 | `getUser` returns the user stored under the id, or undefined when there is none |
| `Storage.CreateUser` | server/storage.ts:195-206 | the new user gets the user counter's id and the given name, password and role, starts with both counters at 0, and the counter moves on |
| `Storage.CreateUserThenGet` | server/storage.ts:185-206 | a created user is found under its new id with zero games and zero prizes |
| `Storage.UpdateUserStats` | server/storage.ts:208-221 | an unknown id returns undefined and changes nothing; a counter whose argument is undefined keeps its value, a given one takes it; no other user changes |
| `Storage.UpdateGameSettings` | server/storage.ts:257-260 | only the settings row changes, by the shallow merge |
| `Storage.UpdateGameStats` | server/storage.ts:267-270 | only the stats row changes, by the shallow merge |
| `Storage.InitialStoreValid` | server/storage.ts:61-182 | the seeded store is valid, its settings row equals the column defaults, and all six seeded prizes are active |
| `Draw.GatePasses` | server/storage.ts:303-304 | `Math.random() * 100 < globalWinRate`: a pass with a non-negative draw needs a positive rate, and a rate of 100 or more passes every draw in [0, 1) |
| `Draw.Eligible` | server/storage.ts:307-308 | the filter's test holds exactly for an active prize whose stock is non-null and not negative |
| `Draw.EligibleIffStocked` | server/storage.ts:307-308 | the filter keeps a prize exactly when it is active and its stock is non-null and not negative; null and negative stocks are never kept |
| `Draw.EligiblePrizes` | server/storage.ts:307-308 | the eligible list holds exactly the stored prizes that pass the filter |
| `Draw.EligibleAppend` | server/storage.ts:307-308 | the filter keeps insertion order: filtering a concatenation concatenates the filtered parts |
| `Draw.EligibleIdsAscending` | server/storage.ts:307-308 | the eligible prizes of a valid store are still in ascending id order |
| `Draw.Weight` | server/storage.ts:313 | the reduce sum of the weights is not negative when no weight is negative |
| `Draw.WeightSnoc` | server/storage.ts:313 | the total weight of a prefix grows by exactly the next prize's weight |
| `Draw.Roulette` | server/storage.ts:317-320 | the loop stops at the first prize whose inclusive cumulative weight reaches `r2`, and runs out exactly when none does |
| `Draw.SelectWinner` | server/storage.ts:316-334 | the loop with its running remainder `random -= prize.probability` stops at the first crossing, the same position as `Draw.Roulette` |
| `Draw.FirstCrossingUnique` | server/storage.ts:317-320 | there is at most one first crossing |
| `Draw.PickWinner` | server/storage.ts:317-337 | whether the loop stops or the fallback is taken, the winner is one of the eligible prizes |
| `Draw.StockAfterWin` | server/storage.ts:321-323 | a won prize's stock drops by one exactly when positive; null, 0 and negative stocks stay; a non-negative stock stays non-negative, so an eligible winner stays eligible |
| `Draw.Award` | server/storage.ts:321-331 | a win decrements the winner's stock when positive and leaves other prizes, users and settings alone; `prizesWon` and `gamesPlayed` rise by one, other stats stay, and the store stays valid |
| `Draw.DrawnPrize` | server/storage.ts:301-337 | the draw returns nothing exactly when the gate fails, the eligible list is empty or its weight is 0; a returned prize is stored and eligible |
| `Draw.DetermineWin` | server/storage.ts:301-349 | a returned prize was drawn after the gate passed and is stored and eligible; a rate of 0 or less never wins; a null result leaves the store unchanged; a win applies exactly the winner's effects |
| `Draw.DrawIgnoresRest` | server/storage.ts:301-349 | the draw depends only on the settings and the prizes, so stores that agree on those draw alike |
| `Draw.FullRatePassesGate` | server/storage.ts:303-304 | a rate of 100 or more always passes the gate |
| `Draw.PickIsFirstCrossing` | server/storage.ts:317-337 | when `r2` is below the total weight the loop stops on a prize, so the fallback is not taken |
| `Draw.DrawIsPick` | server/storage.ts:303-320 | once the gate passes over a non-empty eligible list of non-zero weight, the prize is the roulette's pick at `u2 * totalWeight` |
| `Draw.WinnerIsFirstCrossing` | server/storage.ts:313-337 | with a positive total weight, the winner is the first eligible prize whose cumulative weight reaches `r2`, so the fallback is unreachable |
| `Draw.FirstPrizeWinsAtZero` | server/storage.ts:317-320 | at `r2 = 0` the first eligible prize wins whenever its own weight is not negative, even when that weight is 0 |
| `Draw.CrossingHasWeight` | server/storage.ts:318-319 | at a positive `r2` the first crossing is never a prize of weight 0 |
| `Draw.ZeroWeightNeverWins` | server/storage.ts:313-320 | with a positive total weight and `r2 > 0`, a prize of weight 0 never wins |
| `Draw.WinnerStockEffect` | server/storage.ts:321-323 | the winner's stock drops by exactly one when positive and stays when it is 0; every other prize is unchanged; a winner with stock 1 ends at 0 and is still eligible |
| `Draw.DrawKeepsStocksNonNegative` | server/storage.ts:321-323 | if no stored stock is negative before a draw, none is negative after it, and the store stays valid |
| `Draw.AllEligibleKept` | server/storage.ts:307-308 | a list of eligible prizes passes the filter whole |
| `Draw.SeedPrizesAllEligible` | server/storage.ts:75-147 | all six seeded prizes are eligible |
| `Draw.SeedWeight` | server/storage.ts:75-147 | the seeded weights total 122 |
| `Draw.FirstStoredWinsAtZero` | server/storage.ts:317-331 | when every stored prize is eligible and the gate passes, the draw at `r2 = 0` awards the first stored prize and applies the win's stock rule to it |
| `Draw.SeedDrawAtZero` | server/storage.ts:61-182 | in the seeded store at `r1 = r2 = 0`, the $100 gift card wins and is left with 9 in stock |
| `Draw.NullStockNeverDrawn` | server/storage.ts:307-310 | a catalogue holding only an active null-stock prize, of any weight, loses every draw, even at a rate of 100 |
| `Draw.NullStockFilteredOut` | server/storage.ts:307-310 | the eligibility filter keeps nothing from a list whose every prize has a null stock |
| `Draw.NullStockCatalogueNeverDrawn` | server/storage.ts:301-348 | a store whose every prize has a null stock, at any rate, weights and random numbers, loses the draw and is left unchanged |
| `Draw.FallbackWhenNoCrossing` | server/storage.ts:316-348 | when no cumulative weight reaches `r2` the loop runs out and the first eligible prize is awarded; this happens only with a negative total weight |
| `Draw.NegativeWeightReachesFallback` | server/storage.ts:336-348 | one prize of weight -5 at rate 100, drawn at `u2 = 0.5`: the loop runs out and the fallback awards that prize |
| `Routes.Play` | server/routes.ts:221-246 | the response is a win carrying exactly the drawn prize, or a loss with "Better luck next time!"; a loss adds 1 to `gamesPlayed` and leaves `prizesWon` and the prizes alone; a win adds 2 to `gamesPlayed` and 1 to `prizesWon`; nothing else changes beyond the draw |
| `Routes.PlayCounted` | server/routes.ts:221-246 | the corrected handler answers as the written one and differs from it only in the stats: every play adds exactly 1 to `gamesPlayed` |
| `Routes.PlayAllCountsAsWritten` | server/routes.ts:227-229 | over a run of plays as written, `gamesPlayed` grows by the number of plays plus the number of wins, and `prizesWon` by the number of wins |
| `Routes.PlayAllCountsCorrected` | server/routes.ts:227-229 | over a run of plays counted once, `gamesPlayed` grows by the number of plays and `prizesWon` by the number of wins |
| `Routes.PlayAllKeepsValid` | server/routes.ts:221-246 | a run of plays keeps the store valid |
| `Routes.CountingChangesOnlyTheCount` | server/routes.ts:224-229 | from stores that agree on settings and prizes, the corrected and the written handler win the same plays and leave the same prizes |
| `Routes.LastUnitNeverRunsOut` | server/storage.ts:307-323 | a prize with one unit left is won, drops to 0 ("unlimited"), and is won again at the next play with its stock staying 0 |
| `Utils.GrowthClass` | client/src/lib/utils.ts:81-83 | green exactly for a growth of 0 or more, red exactly for a negative one |
| `Utils.PrizeStockStatus` | client/src/lib/utils.ts:85-95 | "Unlimited" exactly for null, "Out of Stock" exactly for 0 or less, "Low Stock" exactly for 1 to 9, "In Stock" exactly for 10 or more; green for Unlimited and In Stock, red for Out of Stock, yellow for Low Stock |
| `Utils.StockStatusTotal` | client/src/lib/utils.ts:85-95 | every stock gets one of the four labels |
| `Utils.FirstIndexOf` | client/src/lib/utils.ts:97-100 | the first position holding a character, none exactly when it does not occur |
| `Utils.ValidateEmail` | client/src/lib/utils.ts:97-100 | an accepted address has at least five characters, contains an `@`, and has no white space |
| `Utils.ValidateEmailSound` | client/src/lib/utils.ts:97-100 | every string the piecewise check accepts matches the regular expression |
| `Utils.ValidateEmailComplete` | client/src/lib/utils.ts:97-100 | every string the regular expression matches passes the piecewise check |
| `Utils.ValidateEmailIsPattern` | client/src/lib/utils.ts:97-100 | the check accepts a string exactly when it splits as local `@` host `.` suffix with three non-empty parts free of white space and `@` |
| `Utils.ValidateEmailConditions` | client/src/lib/utils.ts:97-100 | the check accepts exactly the strings with no white space, exactly one `@` after a non-empty part, and a `.` after the `@` with a character on each side |
| `Utils.ShortEmailAccepted` | client/src/lib/utils.ts:97-100 | `a@b.c` is accepted |
| `Utils.DottedEmailAccepted` | client/src/lib/utils.ts:97-100 | `x.y@m.co` is accepted |
| `Utils.EmailRejected` | client/src/lib/utils.ts:97-100 | `a@b` (no dot), `a b@c.d` (a space) and `a@b@c.d` (two `@`) are rejected |
| `UsersTab.LowerChar` | client/src/components/AdminTabs/UsersTab.tsx:19-20 | an ASCII capital moves to its small letter; every other character stays |
| `UsersTab.Lower` | client/src/components/AdminTabs/UsersTab.tsx:19-20 | lowering keeps the length and lowers each character |
| `UsersTab.Includes` | client/src/components/AdminTabs/UsersTab.tsx:19-20 | `includes` holds for the empty term, and only for a term no longer than the text |
| `UsersTab.IncludesIffOccurs` | client/src/components/AdminTabs/UsersTab.tsx:19-20 | `includes` holds exactly when the term occurs at some position |
| `UsersTab.Filter` | client/src/components/AdminTabs/UsersTab.tsx:17-22 | the filter keeps exactly the users whose lowered username, or non-empty lowered e-mail, contains the lowered term |
| `UsersTab.FilteredUsers` | client/src/components/AdminTabs/UsersTab.tsx:17-22 | before the users load the list is empty; afterwards it holds exactly the matching users |
| `UsersTab.FilterAppend` | client/src/components/AdminTabs/UsersTab.tsx:17-22 | the filter keeps the original order: filtering a concatenation concatenates the filtered parts |
| `UsersTab.EmptyTermKeepsAll` | client/src/components/AdminTabs/UsersTab.tsx:17-22 | an empty term keeps every user, in order |
| `UsersTab.TermCaseIgnored` | client/src/components/AdminTabs/UsersTab.tsx:19-20 | a term and its lower-case form select the same users |
| `UsersTab.TotalPages` | client/src/components/AdminTabs/UsersTab.tsx:24 | `Math.ceil(n / 10)`: the fewest pages of ten that hold `n` users, and 0 only for no users |
| `UsersTab.SliceBound` | client/src/components/AdminTabs/UsersTab.tsx:25-28 | a slice bound counts from the end when negative and is clamped to the list |
| `UsersTab.JsSlice` | client/src/components/AdminTabs/UsersTab.tsx:25-28 | `slice` never yields more than the list; with in-range bounds it is the plain sub-sequence; an end at or before the start, both on the same side of 0, gives the empty list |
| `UsersTab.Page` | client/src/components/AdminTabs/UsersTab.tsx:25-28 | a page holds at most ten users: the contiguous run from `(page - 1) * 10`, cut at the end of the list; page 0 is empty |
| `UsersTab.PagesFromCover` | client/src/components/AdminTabs/UsersTab.tsx:24-28 | the pages from a given one to the last cover the list from that page's start |
| `UsersTab.PagesConcatenate` | client/src/components/AdminTabs/UsersTab.tsx:24-28 | pages 1 to `totalPages` concatenate back to the filtered list |
| `UsersTab.HandleSearch` | client/src/components/AdminTabs/UsersTab.tsx:30-33 | a new term takes effect and the page returns to 1 |
| `UsersTab.HandlePageChange` | client/src/components/AdminTabs/UsersTab.tsx:35-37 | a page change keeps the term |
| `UsersTab.FirstRenderShowsFirstTen` | client/src/components/AdminTabs/UsersTab.tsx:8-28 | the first render, with an empty term on page 1, shows the first ten users in their order |
| `UsersTab.SearchShowsFirstPage` | client/src/components/AdminTabs/UsersTab.tsx:25-33 | after a search the table shows the first ten matching users |
| `UsersTab.PagerFor` | client/src/components/AdminTabs/UsersTab.tsx:163-198 | the pager shows only with more than one page; Previous is disabled exactly on page 1 and Next exactly on the last page; the buttons number the pages from 1 |
| `UsersTab.ClicksStayInRange` | client/src/components/AdminTabs/UsersTab.tsx:163-198 | from a page in range every enabled click lands in range; Previous and Next move by one, and each is enabled exactly away from its end |
| `PrizesTab.StockCellFor` | client/src/components/AdminTabs/PrizesTab.tsx:255 | stock 0 shows "Unlimited", null shows nothing, and any other stock shows its number |
| `PrizesTab.StatusBadge` | client/src/components/AdminTabs/PrizesTab.tsx:261-272 | "Inactive" (red) exactly for an inactive prize; "Low Stock" (yellow) exactly for an active prize with stock 1 to 5; "Active" (green) for an active prize with null, 0 or more than 5 |
| `PrizesTab.HandleAddPrize` | client/src/components/AdminTabs/PrizesTab.tsx:113-126 | Add clears the edited prize, opens the dialog, and resets the form to type Physical, icon gift, stock 10, weight 10, active, empty texts |
| `PrizesTab.HandleEditPrize` | client/src/components/AdminTabs/PrizesTab.tsx:128-141 | Edit opens the dialog on the prize, with a form holding exactly its columns |
| `PrizesTab.HandleSubmit` | client/src/components/AdminTabs/PrizesTab.tsx:160-166 | Submit updates the edited prize when there is one and creates otherwise, sending the form |
| `PrizesTab.FullPatch` | server/routes.ts:148-166 | a full form sent as an update body replaces every column but the id |
| `PrizesTab.Serve` | server/routes.ts:134-166 | a create appends the form as a new prize under the next id; an update replaces the prize of that id in place; the store stays valid |
| `PrizesTab.EditRoundTrip` | client/src/components/AdminTabs/PrizesTab.tsx:128-166 | editing a stored prize and submitting it unchanged leaves the store as it was |
| `PrizesTab.AddedPrizeIsEligible` | client/src/components/AdminTabs/PrizesTab.tsx:113-126 | a prize added with the default form gets the next id and is eligible in the draw with weight 10 |
| `PrizesTab.ZeroStockReadings` | client/src/components/AdminTabs/PrizesTab.tsx:255-272 | stock 0 reads "Unlimited" in the table and is eligible in the draw, but the stock-status helper calls it "Out of Stock" |
| `PrizesTab.NullStockReadings` | client/src/components/AdminTabs/PrizesTab.tsx:255-272 | null stock reads "Unlimited" in the helper, shows nothing with an "Active" badge in the table, and is never drawn |
| `PrizesTab.LowStockThresholds` | client/src/components/AdminTabs/PrizesTab.tsx:261-272 | the table's Low Stock covers 1 to 5 and the helper's covers 1 to 9: they agree below 6 and disagree from 6 to 9 |
| `PrizesTab.NegativeStockReadings` | client/src/components/AdminTabs/PrizesTab.tsx:255-272 | a negative stock shows its number with an "Active" badge, is "Out of Stock" in the helper, and is never drawn |

## Left out

- JWT signing and checking, `authenticateUser`, `verifyToken` and the auth/admin middleware are left out: they are foreign library calls and HTTP plumbing.
- `lastLogin` and every `new Date()` are not modelled: they are clock readings. `formatDate`, `formatCurrency`, `isValidURL` and `cn` depend on Intl, the URL constructor and external libraries.
- The rest of `server/routes.ts` is not modelled: the Express wiring, the `parseInt` id checks and the 400/404/500 branches, and the hard-coded user ids 1..10 of `/api/users`. The play handler's 500 branch cannot arise in the model, which has no exceptions.
- The rendering and canvas code, ProbabilityTab's floating-point percentages, `api.ts`, `auth.ts` and `db-init.ts` are left out. They are UI, fetch and localStorage wrappers, or database I/O; the database seed duplicates the in-memory one.
- async/Promise is not modelled: `MemStorage` methods have no awaits inside, so each is one atomic step, and the model applies them in sequence.
- Randomness is only the two caller-supplied values `u1` and `u2`. Fairness and distribution are not stated.
- Floating point is not modelled: `r1` and `r2` are exact reals, and weights, stocks and counters are unbounded integers.
- `isActive` is a `bool`. The table column is nullable, and the prizes form can send the string "false", which the server stores unvalidated. Neither case is modelled.
- `Schema.PrizePatch` has no `id` key. A prize update body that carries an `id` would rename the stored prize while keeping its map key; the model does not allow that body.
- `Storage.CreatePrize` takes a complete insert record. The insert schema only makes the defaulted and nullable keys optional, and `createPrize` spreads the body as sent, so a missing key stays `undefined`. A prize sent without `isActive` is then never eligible and reads "Inactive", and one sent without `stock` reads "In Stock" in the stock-status helper. A prize sent without `probability` has an undefined weight that turns the total into `NaN`. None of these absent-key cases is modelled. `Schema.ApplyPrizeDefaults` states the database column defaults, which the in-memory store never applies.
- `Storage.CreateUser` takes a username, password and role. A body without `role` passes the insert schema, because `role` has a column default, and the user is then stored with no role. That case is not modelled.
- Numeric form input (`Number(value)` on a text field) is not modelled; the form holds integers.
- `UsersTab.Lower` lowers the ASCII letters only, while `toLowerCase` also lowers other Unicode letters. The user rows of the schema have no `email` column, so the e-mail branch of the search only matters for rows that carry one.
- `UsersTab.Page` is stated for page 0 and for pages from 1 up. The pager never reaches a negative page, so `slice` with two negative bounds is modelled (`UsersTab.JsSlice`) but not stated.
- JavaScript strings are UTF-16, while a Dafny `string` is a sequence of Unicode scalar values. `validateEmail` classifies characters only against `\s` and `@`, so the difference does not change its result.

## Findings

| source | as written | input that shows it | evidently intended | confidence | as-written member | corrected member |
|---|---|---|---|---|---|---|
| server/routes.ts:227-229 | the handler writes `gamesPlayed + 1` from the stats `determineWin` has just updated, so a win is counted twice | a store at rate 100 with one eligible prize of weight 1: one play moves `gamesPlayed` from 0 to 2 | each play adds exactly 1 to `gamesPlayed`, so after N plays `gamesPlayed` has grown by N and `prizesWon` by the number of wins | medium, not executed | `Routes.PlayAllCountsAsWritten` | `Routes.PlayAllCountsCorrected` |
