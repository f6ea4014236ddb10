# Koala's rate-limiting kernel, verified

This project models the parts of Koala that decide whether a request passes: the three counting
algorithms (`count`, `accumulate`, `freq`), the in-memory store they run on, the rule engine that
picks one rule and then checks and updates its counters, the failover manager between the engine and
its two stores, the HTTP server's own per-client limiter, and the numeric range patterns of the rule
language. The main results are about whole runs: how many requests any interval of time can hold, for
one caller at a time, for any number of concurrent ones, and across failovers; what looking and
sweeping can never change; and which key belongs to which rule.

`dafny verify dfyconfig.toml` checks everything.

## How it is built

| file | what it holds |
|---|---|
| `Intervals`, `Windows` | what a rate bound is, and the one argument why a counter with an expiry meets it |
| `Lists`, `Limiters` | the list operations and the three algorithms as functions of what is stored under a key |
| `LocalStorage`, `Algorithms`, `Engine` | the store, the algorithms and the engine as classes and methods that update entries in place, each proved against those functions |
| `SlidingWindow`, `FixedWindow`, `Accumulate` | runs of one algorithm on one key |
| `EngineRuns`, `Transparency`, `ListRuns`, `SweepRuns` | runs of the whole engine and of the store |
| `FreqKeys`, `CountKeys`, `SharedKeys` | what still holds, exactly, when rules share a key |
| `OverAdmission`, `ConcurrentRuns` | concurrent Checks and Browses, each operation of which is a single step |
| `CountRaces`, `RaceRuns`, `Increments` | concurrent calls on the in-memory counters, in the steps the code takes |
| `PushRaces` | concurrent calls on an in-memory list, beside the sweep |
| `Manager`, `ManagerSteps`, `Failover`, `FailoverRuns` | the failover manager, in one piece and in single steps, and a limiter behind it |
| `Middleware`, `Keys`, `Patterns` | the HTTP limiter, storage keys, range patterns and integer printing |

Instants are nanoseconds and every reading of the clock is a parameter. One request can read it six
times (`Limiters.Clock`), and a run asks only that no reading lies before an earlier one. 64-bit and
32-bit arithmetic wraps where the program lets it wrap (`GoTypes.Wrap64`, `GoTypes.Wrap32`).
`Intervals.AtMost(ts, n, len)` says that no closed interval of length `len` holds more than `n` of the
instants `ts`; all rate bounds are stated with it. A bound is called exact when a number is shown to
bound every run if and only if it is at least that bound.

Where the code and its comments differ the model follows the code:

- `count.go` speaks of a sliding window. The window is fixed: it opens with the first request and
  nothing extends it, so an interval of its length can hold `2 * count - 1` admissions.
- `leak.go` compares whole milliseconds. A window with a fraction of a millisecond lets one request
  too many through (`SlidingWindow.SlidingWindowExact`).
- `leak.go` describes a trim of the expired part of a list. On the lists that occur the trim either
  does nothing or clears the list (`SlidingWindow.CleanKeepsOrClears`); on other lists it would cut
  off as many entries at the end as have expired in front (`SlidingWindow.CleanKeepsExactly`).
- `base.go` clamps the expiry of the total counter to seven days, after a multiplication that can
  wrap. For longer windows the base is granted again within a window (`Accumulate.GrantsOnceExactly`).
- `local.go` deletes an expired counter in a step of its own, after looking it up and testing it. A
  caller that stalls in between can delete the live counter that has replaced it
  (`Increments.NeverLosesExactly`), and more requests are then admitted than atomic operations would
  let through. A Browse deletes as well: one beside one Check at a time is enough
  (`RaceRuns.AtomicBoundExactly`).
- `local.go` calls its sweep of empty lists conservative. A sweep that comes between a push's lookup of
  an empty list and its write still loses what is pushed (`PushRaces.SweptExactly`).
- `router.go` prints the smallest 64-bit integer as a lone minus sign.

## Model

| member | source | states |
|---|---|---|
| SlidingWindow.SlidingWindowExact | internal/engine/algorithm/leak.go:38-112 | every run of Checks and Browses on a freq key holds at most `count` admissions in every interval of the configured window, if and only if that window is a whole number of milliseconds |
| SlidingWindow.SlidingWindowSafe | internal/engine/algorithm/leak.go:38-112 | for any window, every interval as long as its whole milliseconds holds at most `count` admissions |
| SlidingWindow.FractionalWindowFails | internal/engine/algorithm/leak.go:76-78 | for every window with a fraction of a millisecond there is a run that admits more than `count` within it |
| SlidingWindow.StepKeepsInv | internal/engine/algorithm/leak.go:38-73 | one request keeps the state of the list: it holds the newest admissions in order, at most `count` of them, and what it no longer holds has left the window |
| SlidingWindow.ListInvariant | internal/engine/algorithm/leak.go:59-112 | in every reachable state the list is non-increasing and no longer than `count` |
| SlidingWindow.CleanKeepsExactly | internal/engine/algorithm/leak.go:90-111 | on any list at all, cleaning keeps the in-window timestamps exactly when the entries cut off at the end are all out of the window |
| SlidingWindow.CleanKeepsOrClears | internal/engine/algorithm/leak.go:90-111 | on a non-increasing list cleaning keeps everything or clears the list, depending on the newest timestamp alone |
| SlidingWindow.CleanLosesNothing | internal/engine/algorithm/leak.go:76-112 | on a non-increasing list no in-window timestamp is lost |
| SlidingWindow.CleanTwice | internal/engine/algorithm/leak.go:76-112 | cleaning earlier does not change what a later cleaning leaves |
| SlidingWindow.CleanTwiceExactly | internal/engine/algorithm/leak.go:76-112 | this holds for all non-increasing lists exactly when the earlier cleaning's window does not start later than the later one's |
| FixedWindow.FixedWindowExact | internal/engine/algorithm/count.go:27-43 | a number bounds the admissions of every run on a count key, in every interval of the window's length, if and only if it is at least `2 * count - 1` |
| FixedWindow.FixedWindowSafe | internal/engine/algorithm/count.go:27-43 | every run keeps to that bound |
| FixedWindow.RunIsLog | internal/engine/algorithm/count.go:27-43 | in every run no bump passes number `count` of its window, and successive windows open more than the configured time apart |
| Windows.LogSpread | internal/storage/local/local.go:264-289 | a counter whose expiry is set at creation only, and that never passes `cap`, is bumped at most `(q + 2) * cap - 1` times in an interval in which `q` of its windows fit |
| Windows.TracksBump | internal/storage/local/local.go:264-289 | an increment is either a higher number in a past bump's window or opens a window after that one has expired |
| Windows.SharedSpread | internal/storage/local/local.go:264-289 | a counter that others bump as well, with a time to live no shorter, is bumped by a rule at most `2 * cap - 1` times in an interval of the rule's window |
| Accumulate.AccumulateSafe | internal/engine/algorithm/base.go:31-73 | every run on an accumulate key, for every base and window, holds at most `Bound` admissions in every interval of the window's length |
| Accumulate.BoundWithinAWeek | internal/engine/algorithm/base.go:75-88 | that bound is `2 * (base + count)` if and only if the window is at most seven days |
| Accumulate.GrantsOnceExactly | internal/engine/algorithm/base.go:55-88 | the total counter lets at most `2 * base + 1` requests through in any interval of the window's length, in every run, if and only if the window is at most seven days |
| Accumulate.BaseGrantedFor | internal/engine/algorithm/base.go:55-88 | how long the base stays granted: the total counter lets at most `2 * base + 1` requests through in any interval of length `len`, in every run, if and only if `len` is at most the 64-bit product of the window and ten, raised to 3600000000000 and lowered to 604800000000000 nanoseconds |
| Accumulate.ClampCoversWindow | internal/engine/algorithm/base.go:75-88 | the expiry of the total counter is ten windows, but an hour at least and seven days at most, unless the product wraps; it covers the window exactly when that is at most seven days |
| Accumulate.AdmitsExactPrefix | internal/engine/algorithm/base.go:31-73 | in every run in which neither counter expires exactly the first `base + count` checks are admitted, a negative base counting as 0 |
| Accumulate.BoundLeastForOne | internal/engine/algorithm/base.go:31-73 | for base 0, count 1 and a window under seven days no smaller number than the bound holds for all runs |
| Accumulate.BoundLeastForZero | internal/engine/algorithm/base.go:31-73 | for base 0, any count and a window of at least two nanoseconds, and of at most seven days less two, no number smaller than the bound holds for all runs |
| EngineRuns.FreqRuleBound | internal/engine/engine.go:180-253 | in any run of the whole engine, among requests to all other rules and keys, a freq rule admits at most `count` per key in every interval of its whole-millisecond window |
| EngineRuns.CountRuleBound | internal/engine/engine.go:180-253 | the same for a count rule and `2 * count - 1` |
| EngineRuns.AccumulateRuleBound | internal/engine/engine.go:180-253 | the same for an accumulate rule and its bound |
| EngineRuns.OthersKeepAway | internal/engine/rule.go:116-132 | no request that selects another rule, or the same rule under another key, touches the store keys of a rule for a request |
| EngineRuns.SameKeySameRule | internal/engine/engine.go:217-249 | requests with unambiguous keys that reach the same store key have selected the same rule, even where several rules share a name |
| EngineRuns.LeakRun | internal/engine/engine.go:217-246 | what one freq rule admits under one key in a run of the engine is a run of the algorithm on that key alone |
| EngineRuns.CountRun | internal/engine/engine.go:217-246 | the same for a count rule |
| EngineRuns.BaseRun | internal/engine/engine.go:217-246 | the same for an accumulate rule |
| EngineRuns.BrowseIsInvisible | internal/engine/engine.go:163-176 | from a fresh store, inserting any Browse calls anywhere in a run changes no other answer, where rules are told apart by name or keys are unambiguous |
| Transparency.BrowseIsTransparent | internal/engine/engine.go:163-176 | the same wherever calls that use one key under freq rules use it with one window |
| Transparency.BrowseKeeps | internal/storage/local/local.go:209-214 | a browse that deletes an expired counter or cleans a list leaves a store nobody can tell from the one before |
| Transparency.ServeBoth | internal/engine/engine.go:180-253 | the same request to two such stores gets the same answer and leaves two such stores |
| FreqKeys.BrowsingInvisibleExactly | internal/engine/engine.go:163-176 | for any rules and matchers, browses are invisible in every run if and only if any two requests that reach one key under freq rules do so with the same window in milliseconds |
| FreqKeys.BoundedExactly | internal/engine/algorithm/leak.go:38-112 | for any rules and matchers, a freq rule keeps to its bound under a key in every run of the engine if and only if no freq rule with a shorter window reaches that key |
| FreqKeys.IntrusionFails | internal/engine/rule.go:116-132 | whenever a shorter window reaches the key, one run shows both failures: a browse changes an answer, and the rule with the longer window admits one request too many |
| FreqKeys.StepKeepsInv | internal/engine/algorithm/leak.go:38-112 | a request under the rule, or under one with a window no shorter, keeps the list holding all of the rule's admissions that are still in its window |
| CountKeys.BoundedExactly | internal/engine/algorithm/count.go:27-43 | under a key without accumulate counters a count rule keeps to its bound in every run of the engine if and only if its count is one or no count rule that reaches the key has a window shorter by more than a nanosecond |
| CountKeys.OverrunFails | internal/engine/rule.go:116-132 | otherwise one run admits at least `3 * count - 2` requests within the rule's window |
| SharedKeys.BrowseIsSeen | internal/engine/rule.go:116-132 | configuration allows such rules: two freq rules of one name, and a value with a colon, give a run in which a browse turns a denial into an admission |
| SharedKeys.SlowOverrun | internal/engine/rule.go:116-132 | and in which the slower rule admits more than its count within its window |
| SweepRuns.SweepIsInvisible | internal/storage/local/local.go:537-576 | in every run of the engine, for any rules, matchers and clock, sweeping the store between requests changes no answer |
| OverAdmission.OverAdmissionExact | internal/engine/engine.go:219-246 | for Checks whose Browse and Update are each a single step, at most `n` of them between the two, and any other Browses, a number bounds the live count plus the pending updates in every reachable state if and only if it is at least `count + n - 1` |
| OverAdmission.NextKeepsInv | internal/engine/engine.go:219-246 | each single step, with the clock reading anything, keeps that bound |
| OverAdmission.OverrunReaches | internal/engine/engine.go:219-246 | for every `n` and `count` a possible interleaving reaches it |
| ConcurrentRuns.ConcurrentExact | internal/engine/engine.go:219-246 | for Checks whose Browse and Update are each a single step, as the per-key lock makes them for freq keys and as a store with atomic operations would for count keys: with at most `n` of them in flight, any other Browses and a clock that never goes back, a number bounds the admissions of every run in every interval of the window if and only if it is at least `count + n - 1` for a freq key, `2 * (count + n - 1) - 1` for a count key |
| ConcurrentRuns.ConcurrentSafe | internal/engine/engine.go:219-246 | every such run keeps to that bound |
| RaceRuns.RacesExact | internal/storage/local/local.go:195-217 | for count keys of the in-memory store, with GetInt and IncrWithTTL in the steps the code takes, at most `n` calls in flight, Checks and Browses together, and at most `b` more that are Browses, a number bounds the admissions of every run in every interval of the window if and only if it is at least `CountRaces.Bound(n, b)` |
| RaceRuns.AtomicBoundExactly | internal/engine/engine.go:219-246 | there the bound of single-step calls holds for all runs if and only if there is one call at a time, be it a Check or a Browse: `n` is 1 and `b` is 0 |
| RaceRuns.OneBrowseBeside | internal/engine/engine.go:165-176 | for every limit one Check at a time and one Browse beside it can admit `3 * count - 1` within the window, where single-step calls keep to `2 * count - 1` |
| CountRaces.BoundClosed | internal/engine/algorithm/count.go:27-43 | the exact bound is `count + n - 2 + n * (count - 1) + n * (n + 1) / 2`, and `count + n - 1` more for each of the `b` Browses |
| CountRaces.BoundHigher | internal/engine/algorithm/count.go:27-43 | which is that of single-step calls for one call at a time, and higher otherwise |
| CountRaces.RacesSafe | internal/storage/local/local.go:264-289 | every run of at most `n` calls in flight and `b` more Browses keeps to it |
| CountRaces.NextKeepsInv | internal/storage/local/local.go:195-217 | each single step of a Check or a Browse keeps the live count and the Checks that can still raise it, whatever it is, at `count + n - 1` at most |
| CountRaces.StepInside | internal/storage/local/local.go:195-217 | each step of a Check or a Browse uses up as much of what an interval has room for as it admits, a deletion by a stalled reader included |
| CountRaces.LiveCountBound | internal/engine/engine.go:219-246 | in every reachable state the live count and the updates that can still raise it stay at `count + n - 1` at most, in spite of the deletions by Checks and Browses |
| RaceRuns.WorstLeads | internal/storage/local/local.go:195-217 | a possible interleaving, for every limit, `n` and `b`, in which every stalled reader, Check or Browse, deletes a counter just filled |
| RaceRuns.WorstIn | internal/engine/algorithm/count.go:27-43 | which admits exactly `CountRaces.Bound(n, b)` in one interval |
| Increments.NoLostIncrements | internal/storage/local/local.go:264-289 | in every interleaving of the two steps of IncrWithTTL with those of GetInt, while the key does not expire, everybody in flight holds the entry of the map, its value is the number of completed adds, and the values returned are `1, 2, ...` in this order |
| Increments.NeverLosesExactly | internal/storage/local/local.go:195-217 | over clock readings from 0 to `end` no run takes a live counter out of the map, if and only if there is no time to live, or it is at least `end`, or fewer than two callers increment, or none reads |
| Increments.LossNeeds | internal/storage/local/local.go:209-214 | a live counter can only be lost to a deletion that follows the expiry of another one |
| Increments.LateDeleteLosesIncrement | internal/storage/local/local.go:195-217 | for every time to live and any further callers, a reader that saw the expired entry deletes the one made after it, and an increment is lost |
| PushRaces.SweptExactly | internal/storage/local/local.go:295-320 | for freq keys of the in-memory store, with the sweep running between LPush's lookup and its write, at most `n` Checks in flight, any other Browses and at most `k` sweeps in any interval of the window's whole milliseconds, a number bounds the admissions of every run in every such interval if and only if it is at least `count + n - 1 + k` |
| PushRaces.SweptSafe | internal/engine/algorithm/leak.go:38-73 | in every run an interval holds at most as many admissions beyond `count + n - 1` as it holds sweeps |
| PushRaces.NextKeepsInv | internal/storage/local/local.go:295-320 | each step of a Check, a Browse or the sweep keeps the list in order, and its length with the pending updates at `count + n - 1` at most |
| PushRaces.StepCounts | internal/storage/local/local.go:547-576 | within an interval of the window only a sweep takes an admission of it out of the list, and one at most |
| ListRuns.SweepIsInvisible | internal/storage/local/local.go:537-576 | in every run of list operations, sweeping between operations at any points changes no answer |
| Lists.SliceIsBetween | internal/storage/local/local.go:396-417 | for all signed bounds the index arithmetic selects the elements whose positions lie between the normalised bounds |
| Lists.TrimThenRange | internal/storage/local/local.go:375-465 | trimming to a range and reading everything is reading that range before |
| Lists.IndexAgreesWithRange | internal/storage/local/local.go:342-373 | an index fails exactly where the one-element range is empty, and otherwise names its element |
| Lists.FromTheEnd | internal/storage/local/local.go:342-465 | index `-k` is the `k`-th element from the end, and a range from there to the end is the last `k` |
| Lists.PushIsPushEach | internal/storage/local/local.go:308-316 | pushing several values is pushing them one by one |
| LocalStorage.LocalStorage.GetInt | internal/storage/local/local.go:195-217 | the live value or the missing-key error, and the whole new store: an expired counter is gone, nothing else has changed |
| LocalStorage.LocalStorage.SetInt | internal/storage/local/local.go:219-234 | the whole new store: the value under the key with its expiry |
| Memory.SetThenGet | internal/storage/local/local.go:195-234 | what is set is read until its time to live is over, and for ever without one |
| LocalStorage.LocalStorage.Entry | internal/storage/local/local.go:269-285 | the locked part of an increment: the map holds a live entry for the key, the old one if it was live, otherwise a new zero with an expiry only for a positive time to live |
| LocalStorage.LocalStorage.AddTo | internal/storage/local/local.go:287-288 | the unlocked part: exactly that entry has grown, modulo 2^64, and its new value is returned |
| LocalStorage.LocalStorage.IncrBy | internal/storage/local/local.go:240-262 | the new store and value of an increment without expiry |
| LocalStorage.LocalStorage.IncrWithTTL | internal/storage/local/local.go:264-289 | the new store and value of an increment by one whose expiry is set at creation only |
| Memory.IncrThenGet | internal/storage/local/local.go:240-289 | an increment returns what was there plus the delta, modulo 2^64, and what it leaves is read for as long as the old counter would have been, or for the new one's time to live |
| LocalStorage.LocalStorage.Prepend | internal/storage/local/local.go:309-316 | the buffer loop puts the values in reverse order in front of the data |
| LocalStorage.LocalStorage.LPush | internal/storage/local/local.go:295-320 | the new store of a push; a closed store is an error and unchanged |
| Memory.PushThenIndex | internal/storage/local/local.go:295-373 | the last value pushed is read first, then the others back to what was there before |
| LocalStorage.LocalStorage.LLen | internal/storage/local/local.go:322-340 | the length, zero for a missing key |
| LocalStorage.LocalStorage.LIndex | internal/storage/local/local.go:342-373 | the element at a signed index, or the range error |
| LocalStorage.LocalStorage.Clamped | internal/storage/local/local.go:391-417 | the sequence of index adjustments selects the slice for all signed bounds |
| LocalStorage.LocalStorage.LTrim | internal/storage/local/local.go:375-419 | the new store of a trim; a missing key stays missing |
| LocalStorage.LocalStorage.LRange | internal/storage/local/local.go:421-465 | the slice, empty for a missing key |
| LocalStorage.LocalStorage.CleanupLists | internal/storage/local/local.go:537-576 | collecting keys and then deleting them removes exactly the empty lists |
| Memory.CleanupRemovesEmpty | internal/storage/local/local.go:537-576 | the sweep removes the keys of empty lists and no others |
| Memory.ClosedRefuses | internal/storage/local/local.go:195-465 | a closed store refuses every operation with its error and changes no more |
| Algorithms.BrowseCount | internal/engine/algorithm/count.go:27-37 | the verdict, error and whole new store, from the old one |
| Algorithms.UpdateCount | internal/engine/algorithm/count.go:40-43 | the whole new store and error, from the old one |
| Algorithms.BrowseBase | internal/engine/algorithm/base.go:31-52 | the verdict, error and whole new store, with both counters found under different keys |
| Algorithms.UpdateBase | internal/engine/algorithm/base.go:55-73 | the whole new store and error, with the second counter bumped only past the base |
| Algorithms.FindValid | internal/engine/algorithm/leak.go:90-97 | the scan finds the first timestamp in the window, or -1 exactly when there is none |
| Algorithms.CleanExpired | internal/engine/algorithm/leak.go:76-112 | the read, scan and trim leave the cleaned list under the key, everything else alone, and fail only on a closed store |
| Algorithms.BrowseLeak | internal/engine/algorithm/leak.go:38-56 | the verdict, error and whole new store |
| Algorithms.UpdateLeak | internal/engine/algorithm/leak.go:59-73 | the whole new store and error |
| AlgorithmSpec.BrowseFrame | internal/engine/algorithm/base.go:31-52 | browsing leaves every store key alone that the algorithm does not own |
| AlgorithmSpec.UpdateFrame | internal/engine/algorithm/base.go:55-73 | so does updating |
| Engine.Engine.MatchesScan | internal/engine/rule.go:98-111 | in whatever order the conditions are tried, the answer is whether all of them hold |
| Engine.Engine.MatchAccess | internal/engine/engine.go:181-206 | the two loops find the first matching access rule, or show that there is none |
| Engine.Engine.MatchRateRules | internal/engine/engine.go:208-252 | the nested loops serve the first matching rate rule of the concatenated phases |
| Engine.Engine.LimitRule | internal/engine/engine.go:219-246 | check, then update when not hit and asked to; a browse error is returned, an update error is not; without a store nothing is limited |
| Engine.Engine.MatchRules | internal/engine/engine.go:178-253 | answer and new store are those of the first match over all phases |
| Engine.Engine.Check | internal/engine/engine.go:114-126 | the whole contract of matching with the update: the new store, and the answer field by field |
| Engine.Engine.BrowseOnly | internal/engine/engine.go:165-176 | the same without the update |
| EngineSpec.FirstMatchAt | internal/engine/engine.go:183-249 | the rule selected is the one that matches and has no matching rule before it |
| EngineSpec.AccessSelected | internal/engine/engine.go:183-206 | a match in the whitelist, or else in the blacklist, wins over all later phases |
| EngineSpec.RateSelected | internal/engine/engine.go:208-249 | without one, the first match over business, post, advanced and default rules is selected, or none |
| EngineSpec.ServeAnswers | internal/engine/engine.go:188-253 | for every rule set, store, request and reading of the clock the answer, field by field: the first matching whitelist rule allows and the first matching blacklist rule denies, both with their own code, message, name and authentication type, and leave the store alone; the first matching rate rule in the order business, post, advanced, default denies with its own if and only if the counters or the list stored under its key show its limit used up, and is answered with an error over a closed store; all else is allowed with code 0 |
| EngineSpec.AdmittedBumps | internal/engine/engine.go:219-246 | what an admitted check leaves in the store: its rule's counter one higher, or the total counter and above the base the secondary one, each with its own time to live counted from its own reading of the clock, or the time in front of its list |
| EngineSpec.NoConditionsMatch | internal/engine/rule.go:99-113 | a rule without conditions matches every request |
| EngineSpec.OneMoreCondition | internal/engine/rule.go:99-113 | with one condition more a rule matches if and only if it did without and the added pattern, by its precompiled matcher or the one the pattern asks for, accepts the request's field |
| EngineSpec.ServeFrame | internal/engine/engine.go:217-246 | a request leaves every store key alone that the selected rate rule does not own |
| EngineSpec.DeniedLeavesCounters | internal/engine/engine.go:226-243 | a request not admitted by a rate rule increments and pushes nothing: each counter is kept or, having expired when the request looked, dropped, and each list is kept or cleaned |
| Keys.GenerateKey | internal/engine/rule.go:116-132 | the key does not depend on the order in which the condition map is iterated |
| Keys.CollectFields | internal/engine/rule.go:119-123 | the collected fields are those of the map, each once |
| Keys.AnyOrderSorts | internal/engine/rule.go:124 | any two enumerations of the same fields sort to the same sequence |
| Keys.KeysSeparateRequests | internal/engine/rule.go:116-132 | with colon-free values, two keys of one rule are equal if and only if the requests agree on every matched field |
| Keys.SharedKeyExactly | internal/engine/request.go:29-45 | with colon-free values two requests share a rule's key if and only if they agree on those of their components act, uid, ip, did and custom fields that the rule matches |
| Keys.OneFieldExactly | internal/engine/request.go:29-45 | a rule on one field alone keys requests by that component, whatever it holds and whatever the others are; a missing custom field counts as empty |
| Keys.KeyOfOne | internal/engine/rule.go:116-132 | the text of a key with one field |
| Keys.KeyOfTwo | internal/engine/rule.go:116-132 | the text of a key with two fields, the one that is smaller at the first different character first |
| Keys.KeysSeparateRules | internal/engine/rule.go:116-132 | rules with different colon-free names never share a key, for any values, even with the suffixes of the accumulate algorithm |
| Keys.KeysDetermine | internal/engine/rule.go:116-132 | with colon-free names, fields and values and no equals sign in fields, two store keys are equal if and only if name, set of fields, suffix and all values are |
| Keys.KeysSeparateAllExact | internal/engine/rule.go:116-132 | over arbitrary values the keys of a rule tell requests apart if and only if it matches at most one field |
| Keys.SuffixesSeparate | internal/engine/algorithm/base.go:33-45 | a total counter and a secondary counter never have the same key, and two of a kind only for the same key |
| FailoverSpec.DegradedExactly | internal/storage/manager/manager.go:124-176 | for every configured number that 32 bits hold, after any sequential run with a primary the manager is degraded, and its current store the fallback, if and only if at least that many faults, or 3 if the number is not positive, have come since the last good ping; until then `failures` is their number |
| FailoverSpec.DegradedWhenConfigured | internal/storage/manager/manager.go:69-86 | the same for every number, narrowed to 32 bits: at least that many faults and at least one |
| FailoverSpec.GoodPingRestores | internal/storage/manager/manager.go:147-176 | one good ping restores the primary and clears the count, whatever happened before |
| FailoverSpec.NoPrimary | internal/storage/manager/manager.go:89-94 | without a primary nothing ever changes |
| FailoverSpec.TraceProjection | internal/storage/manager/manager.go:198-255 | over any run the primary executes exactly the operations issued while not degraded, the fallback those issued while degraded and those whose own error tripped the switch, each once and in order, and each caller gets the answer of the last store tried |
| StorageManager.StorageManager.constructor | internal/storage/manager/manager.go:69-103 | the first state, with the configured number of failures, 3 if it is not positive, narrowed to 32 bits |
| StorageManager.StorageManager.DegradeNow | internal/storage/manager/manager.go:154-164 | the new state; degrading twice is degrading once |
| StorageManager.StorageManager.RecoverNow | internal/storage/manager/manager.go:166-176 | the new state; nothing happens without a primary |
| StorageManager.StorageManager.Fail | internal/storage/manager/manager.go:140-145 | the new state after one more failure, counted in 32 bits |
| StorageManager.StorageManager.Succeed | internal/storage/manager/manager.go:147-152 | the new state after a success |
| StorageManager.StorageManager.Health | internal/storage/manager/manager.go:124-138 | the new state after a health check |
| StorageManager.StorageManager.ExecuteWithFailover | internal/storage/manager/manager.go:198-255 | the new state, the answer, and how often and where the operation has been executed |
| ManagerSteps.DegradedIffFallback | internal/storage/manager/manager.go:140-176 | in every interleaving of single steps of any number of goroutines, whenever the lock is free the manager is degraded if and only if its current store is the fallback |
| ManagerSteps.AloneIsAtomic | internal/storage/manager/manager.go:140-176 | the steps of one goroutine on its own add up to the sequential operation |
| ManagerSteps.LastGoodPingExactly | internal/storage/manager/manager.go:140-176 | for every tolerance, every run of `n` goroutines that ends with all of them idle and whose last record begun is a good ping ends at the primary, if and only if `n <= 1` |
| ManagerSteps.AloneRestores | internal/storage/manager/manager.go:147-176 | a single goroutine, once it has begun to record a good ping, is on its way to the primary at every step |
| ManagerSteps.LateDegrade | internal/storage/manager/manager.go:140-152 | for every tolerance and any two or more goroutines, a failure counted before a good ping switches to the fallback after it, with no fault counted any more |
| FailoverRuns.FailoverExact | internal/storage/manager/manager.go:222-231 | behind the manager, over any number of switches, a number bounds the admissions of a count key in every interval of the window's length, in every run, if and only if it is at least `4 * count - 2`, or `2 * count - 1` without a primary or when exactly one failure is configured |
| FailoverRuns.FailoverBoundLeast | internal/storage/manager/manager.go:69-86 | the same for every configured number, narrowed to 32 bits |
| Failover.FailoverBound | internal/storage/manager/manager.go:222-231 | every run keeps to `4 * count - 2` |
| Failover.OnlyFallbackCounts | internal/storage/manager/manager.go:140-145 | when one fault is too many the missing key of the first request degrades the manager, and the primary never counts |
| Failover.LookupReadsCurrent | internal/storage/manager/manager.go:222-231 | the count that a Check compares comes from the store that its increment goes to |
| Failover.LookupIsExecute | internal/storage/manager/manager.go:222-231 | a lookup is one operation of the manager, for what the two stores answer when they are tried |
| Failover.StepIsManaged | internal/storage/manager/manager.go:124-152 | every event of such a run is an operation or a health check of the manager |
| RateLimitSpec.SweepIsInvisible | internal/api/middleware.go:375-426 | running the cleanup at any points of a run gives the same decisions as never running it |
| RateLimitSpec.SweepForgetsExactly | internal/api/middleware.go:375-385 | after a cleanup, in every run, exactly the clients are remembered that have sent a request within the window |
| RateLimitSpec.ClientBound | internal/api/middleware.go:388-426 | sweeping or not, every interval of the window's length holds at most `2 * max(limit, 1) - 1` accepted requests of one client |
| RateLimitSpec.ClientExact | internal/api/middleware.go:375-426 | no smaller number bounds all runs, with or without the cleanup |
| RateLimit.RateLimitMiddleware.HandleRequest | internal/api/middleware.go:392-425 | the decision and the entries of all clients afterwards |
| RateLimit.RateLimitMiddleware.CleanupNow | internal/api/middleware.go:375-385 | deleting while looping removes exactly the clients not seen for longer than the window |
| Patterns.ParseRangeExact | internal/engine/matcher/range.go:38-59 | on every string the bounds can be read if and only if the dispatch calls it a range and both bounds fit 64 bits |
| Patterns.RangeMatchesExactly | internal/engine/matcher/range.go:20-59 | for any two 64-bit integers in text around a dash, and any value at all, the matcher accepts exactly the 64-bit integers from the one to the other |
| Patterns.RangePatternExactly | internal/engine/matcher/matcher.go:81-111 | the dispatch calls a pattern a range if and only if it is two integers around a dash |
| Patterns.DispatchExactly | internal/engine/matcher/matcher.go:42-78 | which of the nine matchers every pattern is given: by its first character, then a comma, then a range, then a wildcard address, otherwise the exact one |
| Patterns.IPWildcardExactly | internal/engine/matcher/matcher.go:137-146 | a wildcard address is a pattern with an asterisk that splits into four parts at its dots |
| Patterns.ParseIntExact | internal/engine/matcher/range.go:22-56 | on every string an integer is read if and only if the scan accepts it and the sum of its digits' codes less 48, each times the power of ten of its place, with its sign, fits 64 bits, and that is the result |
| Patterns.ParsedInOrder | internal/engine/matcher/range.go:22-56 | of two digit strings of one length the one with the smaller character at the first difference is read as the smaller number |
| Patterns.PrintedReadsBack | internal/api/router.go:153-173 | a printed 64-bit integer is read back if and only if it is not the smallest one |
| Patterns.RangeReadsBack | internal/engine/matcher/range.go:38-59 | a pattern of two printed integers is read back as these if and only if neither is the smallest one |
| Patterns.RangeDispatched | internal/engine/matcher/matcher.go:42-78 | and it is dispatched to the range matcher |
| Patterns.RangeRoundTrip | internal/engine/matcher/range.go:20-34 | which accepts a printed integer if and only if it lies between the two |
| Patterns.RangeRoundTripExactly | internal/engine/matcher/range.go:20-34 | for all 64-bit bounds the matcher does so for all values if and only if the lower bound is not the smallest integer |
| Patterns.UintToString | internal/api/middleware.go:92-104 | the decimal numeral of every unsigned 64-bit number: it denotes the number and has no leading zero, and the 20-byte buffer never underflows |
| Patterns.IntToStringInBuffer | internal/api/router.go:153-173 | the same with a sign, except for the smallest integer, which prints as a lone minus sign |
| Patterns.IsIntegerScan | internal/engine/matcher/matcher.go:114-134 | the scan accepts exactly an optional sign and at least one digit |
| Patterns.FindRangeDashScan | internal/engine/matcher/matcher.go:98-111 | the first dash after the first character, or none |

## Left out

- EngineRuns.BrowseIsInvisible: asks that names are colon-free and unique, or that names, fields and values have none of a key's separators, which can be read off a configuration; FreqKeys.BrowsingInvisibleExactly has the exact condition.
- EngineRuns.FreqRuleBound: asks the same; FreqKeys.BoundedExactly has the exact condition.
- EngineRuns.CountRuleBound: asks the same; CountKeys.BoundedExactly has the exact condition wherever no accumulate rule keeps a counter under the count rule's key.
- EngineRuns.AccumulateRuleBound: asks the same; what accumulate rules that share a key can do to each other is not modelled further.
- Accumulate.AccumulateSafe: runs of at most 2^63 - 1 requests, because the counters would wrap after that; EngineRuns.AccumulateRuleBound likewise.
- Accumulate.GrantsOnceExactly: the same restriction, so that a run that uses up the base twice exists.
- Accumulate.BoundLeastForOne: the least bound on all admissions is shown for base 0, here for count 1 and any window under seven days, in Accumulate.BoundLeastForZero for any count and almost all such windows; for other bases the bound may be too high by what a window's last free request takes from the secondary counter.
- Accumulate.BoundLeastForZero: leaves out windows of one nanosecond and of the last two nanoseconds before seven days, and counts that need more than 2^63 - 1 requests to be used up twice.
- EngineSpec.AdmittedBumps: windows whose tenfold fits 64 bits; Accumulate.BaseGrantedFor covers the others.
- Increments.NoLostIncrements: holds only while the key does not expire; Increments.NeverLosesExactly says exactly when a counter can be lost.
- ConcurrentRuns.ConcurrentExact: single-step operations; GetInt of the in-memory store is not one, and RaceRuns.RacesExact has its exact bound. Nor is LPush beside the sweep, for which PushRaces.SweptExactly has it. OverAdmission.OverAdmissionExact likewise, but its bound is kept (CountRaces.LiveCountBound).
- RaceRuns.RacesExact: `count + n` below 2^63, because the counter would wrap; ConcurrentRuns.ConcurrentExact and OverAdmission.OverAdmissionExact likewise. A request counts at the clock reading with which its update looks up the counter.
- Failover.FailoverBound: pings fall between Checks, both stores count in the same way, and a missing key is their only operation error; FailoverRuns.FailoverExact likewise. When pings happen is up to the run, not to a timer.
- Concurrent runs of the accumulate algorithm, and of several keys at once.
- PushRaces.SweptExactly: a sweep is one step, at the instant of its deletion. What a trim does to an entry that the sweep has taken is left out; only empty lists are swept, and a trim adds nothing.
- `LoadRules` and hot reload: one rule set is fixed for a run. `BuildRuleSet`, configuration files, dictionaries and their validation; a limit has a positive time and count, as validation ensures.
- A nil request and a nil rule set: each is one branch that answers before anything is modelled.
- The Redis store: the primary is any store that answers or fails. Its scripts and expiry in whole milliseconds are not part of this model.
- The string operations of the in-memory store, which rest on a cache whose eviction is not visible here.
- The exact, any, not, greater, less, multi, IP and dictionary matchers: the engine is proved for every acceptance predicate.
- A clock that goes back, and durations that saturate when instants lie further apart than 292 years.
- Texts of errors and log messages; strings are sequences of characters that stand for bytes.
- HTTP handlers and the rest of the middleware, metrics, health endpoints and shutdown.
