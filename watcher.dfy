/**
 * The content script's running state: its module-level variables, the
 * observers and timers it registered and the celebration calls it made,
 * together with the environment it reads (the address, the page and the
 * stored level). The constructor is script load and ensures
 * `Lifecycle.Initial`. `TriggerConfetti`, `AddManualTriggerButton` and
 * `ObservePRStatus` are the script's functions, written as the script writes
 * them, and ensure `Lifecycle.Fire`, `Lifecycle.WithButton` and
 * `Lifecycle.Observe`. The other methods are the script's callbacks or
 * changes in the environment, and each takes the `Lifecycle.Step` of its event.
 */
module MergeWatcher {
  import opened Wrappers
  import opened PageScope
  import opened MergeCheck
  import opened Effect
  import opened Lifecycle

  class Watcher {
    const eligible: bool
    var href: string
    var page: Page
    var stored: Option<string>
    var hasTriggered: bool
    var lastUrl: string
    var buttons: nat
    var observers: seq<bool>
    var scheduled: nat
    var primaryTriggers: nat
    var manualTriggers: nat
    var calls: seq<Call>
    var intervals: seq<Interval>

    ghost function State(): WatchState
      reads this
    {
      WatchState(eligible, href, page, stored, hasTriggered, lastUrl, buttons, observers,
                 scheduled, primaryTriggers, manualTriggers, calls, intervals)
    }

    /** The invariant, and an armed watcher always has a check to come. */
    ghost predicate Valid()
      reads this
    {
      Inv(State()) && Watching(State())
    }

    /** Script load: the eligibility check, then `observePRStatus` now or on `DOMContentLoaded`. */
    constructor Load(url: string, page0: Page, stored0: Option<string>, loading: bool, now: int)
      ensures Valid()
      ensures State() == Initial(url, page0, stored0, loading, now)
    {
      eligible := IsIndividualPRPage(url);
      href, page, stored := url, page0, stored0;
      hasTriggered, lastUrl := false, url;
      buttons, observers, scheduled := 0, [], 0;
      primaryTriggers, manualTriggers := 0, 0;
      calls, intervals := [], [];
      new;
      InitialInv(url, page0, stored0, loading, now);
      if eligible {
        if loading {
          scheduled := 1;
        } else {
          ObservePRStatus(now);
        }
      }
      InitialWatching(url, page0, stored0, loading, now);
    }

    /** `triggerConfetti` at clock time `now`, with the level the settings store holds. */
    method TriggerConfetti(now: int)
      modifies this
      ensures State() == Fire(old(State()), now)
    {
      var level := ResolveLevel(stored);
      var config := ConfigFor(level);
      if level == "extreme" {
        intervals := intervals + [Interval(now + ExtremeDuration, ExtremeVolley(config.value), false)];
      } else if level == "a-ton" {
        intervals := intervals + [Interval(now + ATonDuration, ATonVolley(config.value), false)];
      } else {
        calls := calls + [SingleCall(config)];
      }
    }

    /** `addManualTriggerButton`. */
    method AddManualTriggerButton()
      modifies this
      ensures State() == WithButton(old(State()))
    {
      var merged := IsPRMerged(page);
      if !merged {
        return;
      }
      if buttons > 0 {
        return;
      }
      buttons := buttons + 1;
    }

    /** `observePRStatus`. */
    method ObservePRStatus(now: int)
      requires Inv(State()) && eligible
      modifies this
      ensures Inv(State())
      ensures State() == Observe(old(State()), now)
    {
      var merged := IsPRMerged(page);
      if merged && !hasTriggered {
        hasTriggered := true;
        primaryTriggers := primaryTriggers + 1;
        TriggerConfetti(now);
        return;
      }
      merged := IsPRMerged(page);
      if merged {
        AddManualTriggerButton();
      }
      observers := observers + [true];
    }

    /** The document finished loading, or the 1000 ms timeout after a navigation expired. */
    method RunScheduledObserve(now: int)
      requires Valid() && scheduled > 0
      modifies this
      ensures Valid()
      ensures State() == Step(old(State()), ScheduledObserve(now))
    {
      scheduled := scheduled - 1;
      ObservePRStatus(now);
      StepKeepsInv(old(State()), ScheduledObserve(now));
      StepKeepsWatching(old(State()), ScheduledObserve(now));
    }

    /** The callback of merge observer `i`. */
    method MergeObserverFires(i: nat, now: int)
      requires Valid() && i < |observers| && observers[i]
      modifies this
      ensures Valid()
      ensures State() == Step(old(State()), MergeObserverCallback(i, now))
    {
      var merged := IsPRMerged(page);
      if merged && !hasTriggered {
        hasTriggered := true;
        primaryTriggers := primaryTriggers + 1;
        TriggerConfetti(now);
        observers := observers[i := false];
      }
      merged := IsPRMerged(page);
      if merged {
        AddManualTriggerButton();
      }
      StepKeepsInv(old(State()), MergeObserverCallback(i, now));
      StepKeepsWatching(old(State()), MergeObserverCallback(i, now));
    }

    /** The button's click handler. */
    method ClickButton(now: int)
      requires Valid() && buttons > 0
      modifies this
      ensures Valid()
      ensures State() == Step(old(State()), ButtonClick(now))
    {
      manualTriggers := manualTriggers + 1;
      TriggerConfetti(now);
      StepKeepsInv(old(State()), ButtonClick(now));
      StepKeepsWatching(old(State()), ButtonClick(now));
    }

    /** The navigation observer's callback. */
    method NavigationObserverFires()
      requires Valid() && eligible
      modifies this
      ensures Valid()
      ensures State() == Step(old(State()), NavigationObserverCallback)
    {
      var url := href;
      if url != lastUrl {
        lastUrl := url;
        hasTriggered := false;
        scheduled := scheduled + 1;
      }
      StepKeepsInv(old(State()), NavigationObserverCallback);
      StepKeepsWatching(old(State()), NavigationObserverCallback);
    }

    /** The callback of burst interval `i` at clock time `now`. */
    method IntervalFires(i: nat, now: int)
      requires Valid() && i < |intervals| && !intervals[i].cleared
      modifies this
      ensures Valid()
      ensures State() == Step(old(State()), IntervalCallback(i, now))
    {
      var iv := intervals[i];
      var timeLeft := iv.end - now;
      if timeLeft <= 0 {
        intervals := intervals[i := iv.(cleared := true)];
        return;
      }
      calls := calls + iv.volley;
      assert intervals == old(intervals)[i := iv];
    }

    /** The address changes without a reload. */
    method Navigate(url: string)
      requires Valid()
      modifies this
      ensures Valid()
      ensures State() == Step(old(State()), Lifecycle.Navigate(url))
    {
      href := url;
      StepKeepsInv(old(State()), Lifecycle.Navigate(url));
      StepKeepsWatching(old(State()), Lifecycle.Navigate(url));
    }

    /** The host page changes its document. */
    method Render(page1: Page)
      requires Valid()
      modifies this
      ensures Valid()
      ensures State() == Step(old(State()), Lifecycle.Render(page1))
    {
      page := page1;
      StepKeepsInv(old(State()), Lifecycle.Render(page1));
      StepKeepsWatching(old(State()), Lifecycle.Render(page1));
    }

    /** The settings store changes the stored level. */
    method StoreLevel(level: Option<string>)
      requires Valid()
      modifies this
      ensures Valid()
      ensures State() == Step(old(State()), Lifecycle.StoreLevel(level))
    {
      stored := level;
      StepKeepsInv(old(State()), Lifecycle.StoreLevel(level));
      StepKeepsWatching(old(State()), Lifecycle.StoreLevel(level));
    }
  }
}
