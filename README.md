# Bitbucket Confetti merge watcher, in Dafny

This project models the content script of the Bitbucket Confetti browser
extension (`content.js`). The script runs on a Bitbucket pull request page.
It watches the page until the pull request shows as merged, then fires a
confetti celebration once. It also offers a "Celebrate!" button for repeat
celebrations. After a single-page navigation to a new address it re-arms
itself.

The model has these modules:

- `Text`: the string operations the script applies to page text: ASCII case mapping, ECMAScript `trim`, and `includes`.
- `PageScope`: the eligibility test `isIndividualPRPage`. This is the unanchored pattern `/\/pull-requests\/\d+/`.
- `MergeCheck`: an abstract page snapshot and the four merge signals. `IsPRMerged` is a method with the script's short-circuit order and its first-match loop.
- `Effect`: the stored level and its default, and the level-to-configuration table. It also covers what `triggerConfetti` does: one `confetti` call, or a `setInterval` burst that fires a fixed volley on each tick until its end time. Time is an integer clock. Each `confetti` call is logged as a record of integer fields and tags: an angle tag, an origin tag and an optional `ticks`.
- `Lifecycle`: the script as a state machine.
  - `WatchState` holds `hasTriggered`, `lastUrl`, the button count, the merge observers (connected or not), pending `observePRStatus` runs, trigger counters, the call log and the burst intervals.
  - `Step` gives the effect of each event.
  - The lemmas hold over every sequence of events.
- `MergeWatcher`: the class `Watcher`. Its fields are the script's state together with the environment it reads: the address `href`, the page snapshot and the stored level.
  - The constructor `Load` is script load. It ensures the state `Lifecycle.Initial` gives.
  - `TriggerConfetti`, `AddManualTriggerButton` and `ObservePRStatus` are the script's functions. They ensure `Lifecycle.Fire`, `Lifecycle.WithButton` and `Lifecycle.Observe` of the old state.
  - `RunScheduledObserve`, `MergeObserverFires`, `ClickButton`, `NavigationObserverFires` and `IntervalFires` are the script's callbacks. `Navigate`, `Render` and `StoreLevel` are changes in the environment. Each of these eight ensures `Lifecycle.Step` of the old state for its event.

The key property is `Lifecycle.AtMostOnePrimaryBetweenUrlChanges`. Between two address changes seen by the navigation observer, there is at most one automatic celebration. This holds for any number of merge observers and any order of callbacks. Once the celebration has fired, there are none.

A few behaviours differ from what a merge watcher might be expected to do. The model follows the code:

- An unknown stored level does not fall back to the default profile. `confettiConfigs[level]` has no entry of its own for it, so line 140 calls `confetti` without any of the option fields (`Effect.UnknownLevelHasNoConfig`). That argument is `undefined` for most names. It is an inherited `Object.prototype` member for names such as `constructor` or `toString`. The model writes both as `NoOptions`.
- Eligibility is checked once, at load. After a navigation it is not checked again (`Lifecycle.EligibilityNeverRechecked`, `Lifecycle.UrlChangeReArms`).
- Navigation does not cancel running bursts. Earlier merge observers are not disconnected on navigation.
- Each run of `observePRStatus` that does not return early registers one more observer, so initialisation is not idempotent.

## Model

| member | source | states |
|---|---|---|
| `Text.LowerChar` | content.js:155 | lower-cases an ASCII capital by 32 code points and keeps every other character; the result is never a capital |
| `Text.UpperChar` | content.js:186 | upper-cases an ASCII small letter by 32 code points and keeps every other character; the result is never a small letter |
| `Text.ToLower` | content.js:173 | `toLowerCase` keeps the length and lowers each character in place |
| `Text.ToUpper` | content.js:186 | `toUpperCase` keeps the length and raises each character in place |
| `Text.TrimStartSpec` | content.js:186 | the result is a suffix of the input, what was dropped is all white space, and the result does not start with white space |
| `Text.TrimEndSpec` | content.js:186 | the result is a prefix of the input, what was dropped is all white space, and the result does not end with white space |
| `Text.Trim` | content.js:186 | `trim()` is the trailing trim of the leading trim; characterised by `Text.TrimIsCore` |
| `Text.TrimIsCore` | content.js:186 | `trim()` is the slice between a white-space prefix and a white-space suffix, and neither starts nor ends with white space |
| `Text.TrimIdempotent` | content.js:186 | trimming twice is trimming once |
| `Text.Contains` | content.js:175-177 | `includes`, scanning for a prefix match at each position; characterised by `Text.ContainsIff` |
| `Text.ContainsIff` | content.js:157 | `includes` is true exactly when the substring occurs at some index |
| `Text.ContainsToLower` | content.js:155-157 | an occurrence survives lower-casing both strings |
| `Text.ToUpperEqualsWord` | content.js:186-187 | a string upper-cases to an all-capitals word exactly when it spells that word up to case |
| `PageScope.IsIndividualPRPage` | content.js:8-14 | true exactly when `/pull-requests/` immediately followed by a digit occurs somewhere in the URL |
| `PageScope.EligibleUnderExtension` | content.js:12-13 | the pattern is unanchored: text before or after an eligible URL keeps it eligible |
| `PageScope.PullRequestPageIsEligible` | content.js:10-13 | `/pull-requests/<digit>...` on any host is eligible |
| `PageScope.ListPageIsNotEligible` | content.js:11-13 | the list page `/pull-requests/?user_filter=ALL` is rejected |
| `MergeCheck.BadgeSignal` | content.js:151-161 | the badge is present and its lower-cased text contains "merged" |
| `MergeCheck.MessageSignal` | content.js:164-170 | the merge message element is present |
| `MergeCheck.BodySignal` | content.js:173-181 | the lower-cased body text contains one of the three merge phrases |
| `MergeCheck.IsMergedStatus` | content.js:186-187 | the element's trimmed, upper-cased text is exactly "MERGED" and it has no element children |
| `MergeCheck.StatusSignal` | content.js:184-191 | some status element is a merged status |
| `MergeCheck.Merged` | content.js:147-195 | the disjunction of the four signals |
| `MergeCheck.IsPRMerged` | content.js:147-195 | returns true exactly when the badge, message, body-text or status-element signal holds; the loop returns at the first merged status element |
| `MergeCheck.SignalsDecide` | content.js:147-195 | each signal alone makes the page merged; with none the page is not merged |
| `MergeCheck.MergedStatusIgnoresCase` | content.js:184-191 | a status element counts exactly when its trimmed text is "merged" in any case and it has no children |
| `MergeCheck.BadgeMentioningMerged` | content.js:151-161 | a badge whose text contains "merged" in any case, among any other text, is a positive signal |
| `MergeCheck.ButtonLabelsAreNoSignal` | content.js:211-246 | neither button label is a merged status or contains "merged" |
| `MergeCheck.NoEmNotMergedStatus` | content.js:186-187 | a text without the letter m in either case is no merged status |
| `MergeCheck.NoEmNoMergedWord` | content.js:155-157 | a text without the letter m in either case does not contain "merged" after lower-casing |
| `MergeCheck.MergedKeptByMoreElements` | content.js:184-191 | more status elements never take the merged state away |
| `Effect.ResolveLevel` | content.js:24-30 | the level is the stored value when it is present and non-empty, and `"a-lot"` otherwise; it is never empty |
| `Effect.ResolveLevelIdempotent` | content.js:27 | a resolved level, stored back, resolves to itself |
| `Effect.ConfigFor` | content.js:32-59 | there is a configuration exactly for `minimal`, `a-lot`, `a-ton` and `extreme` |
| `Effect.DefaultLevelConfigured` | content.js:27-43 | a missing or empty stored level finds the `a-lot` configuration (150 particles, spread 90, 200 ticks) |
| `Effect.PlanFor` | content.js:61-141 | a level gets a burst exactly when it is `extreme` or `a-ton`; every call of a volley inherits the level's `ticks`; a single call has no options exactly when the level is unknown |
| `Effect.SingleCall` | content.js:140 | `confetti(config)`: the entry's particle count, spread and `ticks` at the default angle and the entry's origin, or no options without an entry; pinned down by `Effect.SingleCallLevels` and `Effect.UnknownLevelHasNoConfig` |
| `Effect.ExtremeVolley` | content.js:77-109 | the four calls of one extreme tick, each spreading the configuration; pinned down by `Effect.ExtremePlan` |
| `Effect.ATonVolley` | content.js:123-137 | the two calls of one a-ton tick, each spreading the configuration; pinned down by `Effect.ATonPlan` |
| `Effect.ExtremePlan` | content.js:65-110 | `extreme` fires every 150 ms for 10000 ms. Each tick makes 4 calls: 200 particles at 60 degrees and spread 100 from the lower left, 200 at 120 degrees from the lower right, 150 at 90 degrees and spread 120 from the upper centre, and 100 at a random angle and spread 100 from a random point, all with `ticks` 400 |
| `Effect.ATonPlan` | content.js:111-138 | `a-ton` fires every 250 ms for 3000 ms. Each tick makes 2 calls of 100 particles with spread 55 and `ticks` 300: one at 60 degrees from the left edge, one at 120 degrees from the right edge |
| `Effect.SingleCallLevels` | content.js:33-43 | `minimal` makes one call of 50 particles, spread 60, no `ticks`; `a-lot` one of 150 particles, spread 90, `ticks` 200; both at the default angle and their own origin |
| `Effect.OtherLevelsCallOnce` | content.js:139-141 | every other level makes exactly one call with its configuration |
| `Effect.UnknownLevelHasNoConfig` | content.js:62-63 | an unknown level has no configuration and gets `confetti(undefined)` |
| `Effect.Start` | content.js:66-75 | a burst started at `now`: every callback before `now + duration` fires the volley, and any callback at or after it clears the interval and fires nothing |
| `Effect.Tick` | content.js:69-75 | one callback keeps the end time and the volley, fires either nothing or the whole volley (never after clearing), and a cleared interval stays as it is |
| `Effect.RunTicks` | content.js:69-75 | callbacks in sequence keep the end time and the volley, and a cleared interval stays cleared |
| `Effect.ClearedIsSilent` | content.js:72-75 | a cleared interval fires nothing more |
| `Effect.RunTicksFiresLiveTicks` | content.js:69-75 | an interval fires one volley per leading tick with time left, then clears at the first tick with `timeLeft <= 0` and fires nothing after |
| `Effect.RepeatedLength` | content.js:77-109 | n volleys hold n times the calls of one volley |
| `Effect.IdealTimes` | content.js:69-110 | an undelayed interval calls back n times, the k-th callback at `start + (k + 1) * period` |
| `Effect.IdealLiveTicks` | content.js:66-75 | undelayed, exactly k ticks find time left when k periods fall short of the duration and k + 1 reach it |
| `Effect.ExtremeBurstTotal` | content.js:65-110 | undelayed, the extreme burst fires 66 volleys (264 calls) and is cleared |
| `Effect.ATonBurstTotal` | content.js:111-138 | undelayed, the a-ton burst fires 11 volleys (22 calls); the tick at exactly 3000 ms clears it |
| `Lifecycle.Fire` | content.js:61-144 | `triggerConfetti` changes only the call log and the intervals, extends both, and adds exactly one call or interval |
| `Lifecycle.WithButton` | content.js:198-250 | only the button count changes; a merged page without the button gets exactly one; otherwise nothing changes |
| `Lifecycle.Observe` | content.js:254-285 | `observePRStatus` fires the primary trigger exactly when the page is merged and the trigger armed, at most once; it leaves the observers or adds one connected observer; afterwards the trigger is disarmed exactly when it was or the page is merged |
| `Lifecycle.ObserverCallback` | content.js:266-277 | the callback fires the primary trigger exactly when the page is merged and the trigger armed, at most once; only observer i may be disconnected; a merged page ends with a button |
| `Lifecycle.NavigationCallback` | content.js:296-303 | `lastUrl` becomes the address; the trigger is re-armed and one run scheduled exactly when the address is new; observers, button and calls are untouched |
| `Lifecycle.Step` | content.js:198-303 | no event changes eligibility; an event that cannot happen changes nothing; only a click adds a manual trigger, exactly one |
| `Lifecycle.Initial` | content.js:16-295 | after load, eligibility is the URL's, `href` and `lastUrl` are the URL; an ineligible page has nothing registered; a loading page has one pending run and no observer; otherwise `observePRStatus` runs at once, so a merged page celebrates once and registers nothing, and any other page gets one connected observer and no celebration |
| `Lifecycle.InitialWatching` | content.js:287-292 | after load, an armed eligible watcher has a pending run or a connected observer |
| `Lifecycle.StepKeepsWatching` | content.js:254-303 | every event keeps that: an armed eligible watcher always has a pending run or a connected observer |
| `Lifecycle.ArmedWatcherCelebratesAtNextCheck` | content.js:255-270 | on a merged page, an armed watcher has an enabled event that fires the primary trigger |
| `Lifecycle.InitialInv` | content.js:16-22 | the state after load satisfies the invariant, and it is eligible exactly when the URL is |
| `Lifecycle.StepKeepsInv` | content.js:198-303 | every event keeps the invariant: at most one button, no handler or effect on an ineligible page, clicks only with a button |
| `Lifecycle.EligibilityNeverRechecked` | content.js:17-20 | no event sequence changes eligibility |
| `Lifecycle.IneligiblePageStaysInert` | content.js:16-20 | on an ineligible page no event sequence celebrates, calls `confetti` or inserts the button |
| `Lifecycle.StepKeepsPrimaryBudget` | content.js:255-270 | apart from a new address, no event re-arms the trigger; the primary trigger fires only when armed, on a merged page, and disarms it |
| `Lifecycle.AtMostOnePrimaryBetweenUrlChanges` | content.js:254-303 | between address changes the primary trigger fires at most once, and not at all once fired |
| `Lifecycle.NoSignalNoCelebration` | content.js:254-277 | if no page ever shows a merge signal, the primary trigger never fires and the button is never inserted |
| `Lifecycle.AlreadyMergedCelebratesAndReturns` | content.js:255-259 | an armed `observePRStatus` on a merged page celebrates once and adds neither button nor observer |
| `Lifecycle.ObserveOtherwiseRegisters` | content.js:261-285 | otherwise it celebrates nothing, has a button exactly when one was there or the page is merged, and registers one more observer |
| `Lifecycle.CallbackCelebratesMergedPage` | content.js:266-277 | an armed observer's callback on a merged page celebrates, disconnects that observer and leaves exactly one button |
| `Lifecycle.CallbackAfterCelebrationOnlyAddsButton` | content.js:266-277 | once celebrated, a callback only inserts the button |
| `Lifecycle.ButtonInsertionIdempotent` | content.js:198-250 | inserting twice is inserting once; a merged page gets exactly one button; nothing changes without a merged page or with a button already there; only the button count ever changes |
| `Lifecycle.ClickLeavesTriggerFlag` | content.js:242-248 | a click celebrates once more and changes neither `hasTriggered` nor the primary count |
| `Lifecycle.UrlChangeReArms` | content.js:296-302 | a new address updates `lastUrl`, re-arms the trigger and schedules `observePRStatus`; observers stay connected and eligibility is not checked |
| `Lifecycle.SameUrlChangesNothing` | content.js:298 | the same address changes nothing |
| `Lifecycle.NewMergedPageCelebratesAgain` | content.js:298-301 | after a move to a new merged page, the scheduled `observePRStatus` celebrates again |
| `MergeWatcher.Watcher.Load` | content.js:16-295 | script load leaves the state `Lifecycle.Initial` describes, satisfying the invariant |
| `MergeWatcher.Watcher.TriggerConfetti` | content.js:61-144 | appends one call or one burst interval, as the stored level's plan says |
| `MergeWatcher.Watcher.AddManualTriggerButton` | content.js:198-251 | inserts the button only on a merged page without one |
| `MergeWatcher.Watcher.ObservePRStatus` | content.js:254-285 | takes the `Lifecycle.Observe` step and keeps `Lifecycle.Inv` |
| `MergeWatcher.Watcher.RunScheduledObserve` | content.js:288-301 | a pending `observePRStatus` run takes one pending run off and observes |
| `MergeWatcher.Watcher.MergeObserverFires` | content.js:266-277 | a connected observer's callback takes the `Lifecycle.ObserverCallback` step |
| `MergeWatcher.Watcher.ClickButton` | content.js:242-248 | a click fires the effect and counts one manual trigger |
| `MergeWatcher.Watcher.NavigationObserverFires` | content.js:296-303 | the navigation callback takes the `Lifecycle.NavigationCallback` step |
| `MergeWatcher.Watcher.IntervalFires` | content.js:69-75 | a live interval fires its volley while time is left, and clears itself otherwise |
| `MergeWatcher.Watcher.Navigate` | content.js:297 | the address the navigation observer reads changes, and nothing else does |
| `MergeWatcher.Watcher.Render` | content.js:266 | the document the checks read changes, and nothing else does |
| `MergeWatcher.Watcher.StoreLevel` | content.js:26 | the stored level read by the next celebration changes, and nothing else does |

## Left out

- `console.log` output, the button's styling and hover handlers, and the 2-second "Woohoo!" label reset are UI only and are not modelled.
- A failed settings read is not modelled. If `chrome.storage.sync.get` throws (for instance after the extension is updated), the `await` at content.js:62 throws and no `confetti` call is made, although `hasTriggered` is already true. The model's `Lifecycle.Fire` always adds one call or one interval.
- `chrome.storage.sync` is a foreign call. It is modelled as an optional stored string, read when a celebration starts. Non-string stored values are not modelled.
- The read of the stored level is asynchronous in the script. The model applies its effect at once. The trigger flag is set before the read in both, so this does not affect the primary-trigger properties.
- Rendering by the `confetti` library is a foreign call. It is modelled as a log of call records.
- The float fields `origin`, `scalar` and `gravity` are not modelled. Nor are the `Math.random()` angle and origin. Origins are opaque tags and the random angle is a tag.
- `MutationObserver`, `setTimeout`, `setInterval` and `Date.now` are replaced by explicit events with an integer clock reading.
- Any registered callback may run at any time. The model does not tie merge-observer callbacks to qualifying mutations (child lists, `data-testid` and `class` attributes). It does not tie the navigation observer to document mutations. Nor does it make clock readings increase. The safety properties hold for every such order. The burst counts are proved only for an undelayed clock.
- The host page removing the inserted button is not modelled: the button count only grows.
- The page snapshot does not include the inserted button, though the button is a `button` element that content.js:184 lists and its label is part of the body text read at line 173. Keeping them apart is sound because neither label ("🎉 Celebrate!", "🎉 Woohoo!") is a merged status or contains "merged" (`MergeCheck.ButtonLabelsAreNoSignal`).
- `Text.LowerChar`, `Text.UpperChar`: they map ASCII letters only. JavaScript maps all of Unicode, but for the comparisons the script makes the results agree. No non-ASCII character upper-cases to letters of "MERGED" alone. The only characters that lower-case to ASCII (U+0130 and U+212A) cannot form "merged" or one of the three phrases.
- Strings are sequences of Unicode scalar values, not UTF-16 code units.
- `popup.js` is not part of this model. It is the settings form and store glue, and it duplicates the level table without an `extreme` entry.
