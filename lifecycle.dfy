/**
 * The merge watcher as a state machine. `WatchState` holds what the content
 * script keeps (its module-level variables, the merge observers it created,
 * the timers it scheduled, the celebration calls it made) together with the
 * parts of its environment it reads (the URL, the page, the stored level).
 * `Step` says what each event does; the `Watcher` class implements these
 * steps, and the lemmas here state what holds over every sequence of events.
 */
module Lifecycle {
  import opened Wrappers
  import opened PageScope
  import opened MergeCheck
  import opened Effect

  datatype WatchState = WatchState(
    eligible: bool,             // `isIndividualPRPage()` at script load
    href: string,               // `location.href`
    page: Page,                 // the document, as `isPRMerged` reads it
    stored: Option<string>,     // `confettiLevel` in the settings store
    hasTriggered: bool,
    lastUrl: string,
    buttons: nat,               // elements with id `bitbucket-confetti-btn`
    observers: seq<bool>,       // the merge observers created, true while connected
    scheduled: nat,             // pending runs of `observePRStatus`
    primaryTriggers: nat,       // automatic celebrations
    manualTriggers: nat,        // celebrations from the button
    calls: seq<Call>,           // every `confetti(...)` call made
    intervals: seq<Interval>)   // every burst interval started

  /** What can happen next: a change in the environment, or one of the script's callbacks. */
  datatype Event =
    | Navigate(url: string)                        // the address changes without a reload
    | Render(page: Page)                           // the host page changes its document
    | StoreLevel(level: Option<string>)            // the settings store changes
    | ScheduledObserve(now: int)                   // `DOMContentLoaded` or the 1000 ms timeout runs `observePRStatus`
    | MergeObserverCallback(index: nat, now: int)  // a merge observer is called back
    | ButtonClick(now: int)                        // the celebrate button is clicked
    | NavigationObserverCallback                   // the navigation observer is called back
    | IntervalCallback(index: nat, now: int)       // a burst interval is called back

  /** `triggerConfetti`: one call, or one new burst interval, for the stored level. */
  ghost function Fire(s: WatchState, now: int): (r: WatchState)
    ensures r.(calls := s.calls, intervals := s.intervals) == s
    ensures s.calls <= r.calls && s.intervals <= r.intervals
    ensures |r.calls| + |r.intervals| == |s.calls| + |s.intervals| + 1
  {
    var plan := PlanFor(ResolveLevel(s.stored));
    if plan.Once? then s.(calls := s.calls + [plan.call])
    else s.(intervals := s.intervals + [Start(plan, now)])
  }

  /** `addManualTriggerButton`: on a merged page without the button, insert it; otherwise nothing. */
  ghost function WithButton(s: WatchState): (r: WatchState)
    ensures r == s.(buttons := r.buttons)
    ensures Merged(s.page) && s.buttons == 0 ==> r.buttons == 1
    ensures !Merged(s.page) || s.buttons > 0 ==> r == s
  {
    if Merged(s.page) && s.buttons == 0 then s.(buttons := 1) else s
  }

  /**
   * `observePRStatus`: on a merged page not yet celebrated, celebrate and
   * return at once; otherwise add the button if merged and register a new
   * merge observer.
   */
  ghost function Observe(s: WatchState, now: int): (r: WatchState)
    ensures r.primaryTriggers > s.primaryTriggers <==> Merged(s.page) && !s.hasTriggered
    ensures r.primaryTriggers <= s.primaryTriggers + 1
    ensures r.observers == s.observers || r.observers == s.observers + [true]
    ensures r.hasTriggered == (s.hasTriggered || Merged(s.page))
  {
    if Merged(s.page) && !s.hasTriggered then
      Fire(s.(hasTriggered := true, primaryTriggers := s.primaryTriggers + 1), now)
    else
      WithButton(s).(observers := s.observers + [true])
  }

  /**
   * The merge observer's callback: on a merged page not yet celebrated,
   * celebrate and disconnect this observer; then, on a merged page, add the
   * button.
   */
  ghost function ObserverCallback(s: WatchState, i: nat, now: int): (r: WatchState)
    requires i < |s.observers|
    ensures r.primaryTriggers > s.primaryTriggers <==> Merged(s.page) && !s.hasTriggered
    ensures r.primaryTriggers <= s.primaryTriggers + 1
    ensures r.hasTriggered == (s.hasTriggered || Merged(s.page))
    ensures |r.observers| == |s.observers|
    ensures forall j :: 0 <= j < |s.observers| && j != i ==> r.observers[j] == s.observers[j]
    ensures Merged(s.page) ==> r.buttons > 0
  {
    var t := if Merged(s.page) && !s.hasTriggered then
        Fire(s.(hasTriggered := true, primaryTriggers := s.primaryTriggers + 1,
                observers := s.observers[i := false]), now)
      else s;
    WithButton(t)
  }

  /** The navigation observer's callback: a new address re-arms the trigger and schedules `observePRStatus`. */
  ghost function NavigationCallback(s: WatchState): (r: WatchState)
    ensures r.lastUrl == s.href
    ensures r.hasTriggered == (s.hasTriggered && s.href == s.lastUrl)
    ensures r.scheduled == s.scheduled + (if s.href != s.lastUrl then 1 else 0)
    ensures r.observers == s.observers && r.buttons == s.buttons && r.calls == s.calls
  {
    if s.href != s.lastUrl then
      s.(lastUrl := s.href, hasTriggered := false, scheduled := s.scheduled + 1)
    else s
  }

  /** An event can happen: the callback it names exists and is still registered. */
  ghost predicate Enabled(s: WatchState, e: Event) {
    match e
    case ScheduledObserve(_) => s.scheduled > 0
    case MergeObserverCallback(i, _) => i < |s.observers| && s.observers[i]
    case ButtonClick(_) => s.buttons > 0
    case NavigationObserverCallback => s.eligible
    case IntervalCallback(i, _) => i < |s.intervals| && !s.intervals[i].cleared
    case _ => true
  }

  /** One event; an event that cannot happen leaves the state as it is. */
  ghost function Step(s: WatchState, e: Event): (r: WatchState)
    ensures r.eligible == s.eligible
    ensures !Enabled(s, e) ==> r == s
    ensures r.manualTriggers == s.manualTriggers + (if e.ButtonClick? && Enabled(s, e) then 1 else 0)
  {
    if !Enabled(s, e) then s
    else match e
      case Navigate(url) => s.(href := url)
      case Render(page) => s.(page := page)
      case StoreLevel(level) => s.(stored := level)
      case ScheduledObserve(now) => Observe(s.(scheduled := s.scheduled - 1), now)
      case MergeObserverCallback(i, now) => ObserverCallback(s, i, now)
      case ButtonClick(now) => Fire(s, now).(manualTriggers := s.manualTriggers + 1)
      case NavigationObserverCallback => NavigationCallback(s)
      case IntervalCallback(i, now) =>
        var t := Tick(s.intervals[i], now);
        s.(intervals := s.intervals[i := t.0], calls := s.calls + t.1)
  }

  /**
   * Script load. An ineligible page gets nothing: no state, no observer, no
   * listener. Otherwise `observePRStatus` runs now, or on `DOMContentLoaded`
   * while the document is still loading.
   */
  ghost function Initial(url: string, page: Page, stored: Option<string>, loading: bool, now: int): (r: WatchState)
    ensures r.eligible == IsIndividualPRPage(url)
    ensures r.href == url && r.lastUrl == url && r.page == page && r.stored == stored
    ensures !r.eligible ==> r.scheduled == 0 && r.observers == [] && r.calls == [] && r.intervals == []
    ensures r.eligible && loading ==> r.scheduled == 1 && r.observers == [] && !r.hasTriggered
    ensures r.eligible && !loading ==>
      && r.scheduled == 0 && r.buttons == 0 && r.hasTriggered == Merged(page)
      && (Merged(page) ==> r.primaryTriggers == 1 && r.observers == [])
      && (!Merged(page) ==> r.primaryTriggers == 0 && r.observers == [true])
  {
    var s := WatchState(IsIndividualPRPage(url), url, page, stored, false, url, 0, [], 0, 0, 0, [], []);
    if !s.eligible then s
    else if loading then s.(scheduled := 1)
    else Observe(s, now)
  }

  /** The events in order. */
  ghost function RunEvents(s: WatchState, es: seq<Event>): WatchState
    decreases |es|
  {
    if es == [] then s else RunEvents(Step(s, es[0]), es[1..])
  }

  /** The event is the navigation observer seeing a new address. */
  ghost predicate ChangesUrl(s: WatchState, e: Event) {
    Enabled(s, e) && e.NavigationObserverCallback? && s.href != s.lastUrl
  }

  /** No event of the sequence, run from `s`, is the navigation observer seeing a new address. */
  ghost predicate NoUrlChange(s: WatchState, es: seq<Event>)
    decreases |es|
  {
    es == [] || (!ChangesUrl(s, es[0]) && NoUrlChange(Step(s, es[0]), es[1..]))
  }

  /** The invariant every reachable state keeps. */
  ghost predicate Inv(s: WatchState) {
    && s.buttons <= 1
    && (s.hasTriggered ==> s.primaryTriggers > 0)
    && (s.manualTriggers > 0 ==> s.buttons > 0)
    && (!s.eligible ==>
          !s.hasTriggered && s.buttons == 0 && s.observers == [] && s.scheduled == 0
          && s.primaryTriggers == 0 && s.manualTriggers == 0 && s.calls == [] && s.intervals == [])
  }

  lemma InitialInv(url: string, page: Page, stored: Option<string>, loading: bool, now: int)
    ensures Inv(Initial(url, page, stored, loading, now))
    ensures Initial(url, page, stored, loading, now).eligible == IsIndividualPRPage(url)
  {
  }

  lemma StepKeepsInv(s: WatchState, e: Event)
    requires Inv(s)
    ensures Inv(Step(s, e))
  {
  }

  /**
   * An armed watcher on an eligible page always has a check to come: a
   * pending run of `observePRStatus` or a connected merge observer.
   */
  ghost predicate Watching(s: WatchState) {
    s.eligible && !s.hasTriggered ==>
      s.scheduled > 0 || exists i :: 0 <= i < |s.observers| && s.observers[i]
  }

  lemma InitialWatching(url: string, page: Page, stored: Option<string>, loading: bool, now: int)
    ensures Watching(Initial(url, page, stored, loading, now))
  {
    var r := Initial(url, page, stored, loading, now);
    if r.eligible && !loading && !r.hasTriggered {
      assert r.observers[|r.observers| - 1];
    }
  }

  lemma StepKeepsWatching(s: WatchState, e: Event)
    requires Watching(s)
    ensures Watching(Step(s, e))
  {
    var r := Step(s, e);
    if Enabled(s, e) && r.eligible && !r.hasTriggered && r.scheduled == 0 {
      match e
      case ScheduledObserve(now) =>
        assert r.observers == s.observers + [true];
        assert r.observers[|s.observers|];
      case MergeObserverCallback(i, now) =>
        assert !s.hasTriggered && r.observers == s.observers;
        assert r.observers[i];
      case NavigationObserverCallback =>
        assert s.href == s.lastUrl;
      case IntervalCallback(i, now) =>
        assert r.observers == s.observers;
      case _ =>
    }
  }

  /**
   * On a merged page, an armed and watching state has an event that fires
   * the primary trigger: the pending `observePRStatus` or a connected observer.
   */
  lemma ArmedWatcherCelebratesAtNextCheck(s: WatchState)
    requires Watching(s) && s.eligible && !s.hasTriggered && Merged(s.page)
    ensures exists e :: Enabled(s, e) && Step(s, e).primaryTriggers == s.primaryTriggers + 1
  {
    if s.scheduled > 0 {
      var e := ScheduledObserve(0);
      assert Enabled(s, e) && Step(s, e).primaryTriggers == s.primaryTriggers + 1;
    } else {
      var i :| 0 <= i < |s.observers| && s.observers[i];
      var e := MergeObserverCallback(i, 0);
      assert Enabled(s, e) && Step(s, e).primaryTriggers == s.primaryTriggers + 1;
    }
  }

  /** Eligibility is decided once, at load, and no event changes it. */
  lemma {:induction false} EligibilityNeverRechecked(s: WatchState, es: seq<Event>)
    ensures RunEvents(s, es).eligible == s.eligible
    decreases |es|
  {
    if es != [] {
      EligibilityNeverRechecked(Step(s, es[0]), es[1..]);
    }
  }

  /** An ineligible page never celebrates and never shows the button, whatever happens. */
  lemma {:induction false} IneligiblePageStaysInert(s: WatchState, es: seq<Event>)
    requires Inv(s) && !s.eligible
    ensures var t := RunEvents(s, es);
      t.primaryTriggers == 0 && t.manualTriggers == 0 && t.buttons == 0 && t.calls == [] && t.intervals == []
    decreases |es|
  {
    if es != [] {
      StepKeepsInv(s, es[0]);
      IneligiblePageStaysInert(Step(s, es[0]), es[1..]);
    }
  }

  /** One when the primary trigger is armed, zero once it has fired. */
  function Armed(s: WatchState): nat {
    if s.hasTriggered then 0 else 1
  }

  /**
   * Apart from a new address, no event re-arms the trigger: the primary
   * triggers plus the armed flag stay constant, and the primary trigger fires
   * only when armed, on a merged page, disarming it.
   */
  lemma StepKeepsPrimaryBudget(s: WatchState, e: Event)
    requires !ChangesUrl(s, e)
    ensures Step(s, e).primaryTriggers + Armed(Step(s, e)) == s.primaryTriggers + Armed(s)
    ensures Step(s, e).primaryTriggers > s.primaryTriggers ==>
      !s.hasTriggered && Step(s, e).hasTriggered && Merged(s.page)
  {
  }

  /**
   * At most one primary trigger between two address changes, however many
   * merge observers are registered and in whatever order the callbacks come;
   * none at all once it has fired.
   */
  lemma {:induction false} AtMostOnePrimaryBetweenUrlChanges(s: WatchState, es: seq<Event>)
    requires NoUrlChange(s, es)
    ensures RunEvents(s, es).primaryTriggers <= s.primaryTriggers + Armed(s)
    ensures s.hasTriggered ==> RunEvents(s, es).primaryTriggers == s.primaryTriggers
    decreases |es|
  {
    if es != [] {
      StepKeepsPrimaryBudget(s, es[0]);
      AtMostOnePrimaryBetweenUrlChanges(Step(s, es[0]), es[1..]);
    }
  }

  /** Every `Render` in the sequence shows a page with no merge signal. */
  ghost predicate NeverMerged(es: seq<Event>) {
    forall k :: 0 <= k < |es| && es[k].Render? ==> !Merged(es[k].page)
  }

  /** Without a merge signal the primary trigger never fires and the button is never inserted. */
  lemma {:induction false} NoSignalNoCelebration(s: WatchState, es: seq<Event>)
    requires !Merged(s.page) && NeverMerged(es)
    ensures RunEvents(s, es).primaryTriggers == s.primaryTriggers
    ensures RunEvents(s, es).buttons == s.buttons
    decreases |es|
  {
    if es != [] {
      assert !Merged(Step(s, es[0]).page);
      assert NeverMerged(es[1..]) by {
        forall k | 0 <= k < |es[1..]| && es[1..][k].Render? ensures !Merged(es[1..][k].page) {
          assert es[1..][k] == es[k + 1];
        }
      }
      NoSignalNoCelebration(Step(s, es[0]), es[1..]);
    }
  }

  /**
   * A page already merged when `observePRStatus` runs with the trigger armed:
   * it celebrates once and returns, adding no button and no observer.
   */
  lemma AlreadyMergedCelebratesAndReturns(s: WatchState, now: int)
    requires Merged(s.page) && !s.hasTriggered
    ensures var t := Observe(s, now);
      t.primaryTriggers == s.primaryTriggers + 1 && t.hasTriggered
      && t.buttons == s.buttons && t.observers == s.observers
      && |t.calls| + |t.intervals| == |s.calls| + |s.intervals| + 1
  {
  }

  /** Otherwise `observePRStatus` celebrates nothing, adds the button exactly when merged, and registers one more observer. */
  lemma ObserveOtherwiseRegisters(s: WatchState, now: int)
    requires !Merged(s.page) || s.hasTriggered
    ensures var t := Observe(s, now);
      t.primaryTriggers == s.primaryTriggers && t.calls == s.calls && t.intervals == s.intervals
      && t.observers == s.observers + [true]
      && (t.buttons > 0 <==> s.buttons > 0 || Merged(s.page))
  {
  }

  /**
   * A connected observer called back on a merged page with the trigger armed
   * celebrates, disconnects itself, and leaves exactly one button.
   */
  lemma CallbackCelebratesMergedPage(s: WatchState, i: nat, now: int)
    requires Inv(s) && i < |s.observers| && s.observers[i]
    requires Merged(s.page) && !s.hasTriggered
    ensures var t := Step(s, MergeObserverCallback(i, now));
      t.primaryTriggers == s.primaryTriggers + 1 && t.hasTriggered
      && t.observers == s.observers[i := false] && t.buttons == 1
  {
  }

  /** Once celebrated, a callback only makes sure the button is there. */
  lemma CallbackAfterCelebrationOnlyAddsButton(s: WatchState, i: nat, now: int)
    requires i < |s.observers| && s.observers[i] && s.hasTriggered
    ensures Step(s, MergeObserverCallback(i, now)) == WithButton(s)
  {
  }

  /** Inserting the button is idempotent: a second insertion changes nothing, and there is at most one button. */
  lemma ButtonInsertionIdempotent(s: WatchState)
    requires s.buttons <= 1
    ensures WithButton(WithButton(s)) == WithButton(s)
    ensures WithButton(s).buttons <= 1
    ensures !Merged(s.page) ==> WithButton(s) == s
    ensures s.buttons > 0 ==> WithButton(s) == s
    ensures Merged(s.page) ==> WithButton(s).buttons == 1
    ensures WithButton(s) == s.(buttons := WithButton(s).buttons)
  {
  }

  /** A click celebrates once more and leaves the trigger flag alone. */
  lemma ClickLeavesTriggerFlag(s: WatchState, now: int)
    requires s.buttons > 0
    ensures var t := Step(s, ButtonClick(now));
      t.hasTriggered == s.hasTriggered && t.primaryTriggers == s.primaryTriggers
      && t.manualTriggers == s.manualTriggers + 1
      && |t.calls| + |t.intervals| == |s.calls| + |s.intervals| + 1
  {
  }

  /**
   * A new address: `lastUrl` follows it, the trigger is re-armed and one run
   * of `observePRStatus` is scheduled. The earlier observers stay connected,
   * and eligibility is not checked again.
   */
  lemma UrlChangeReArms(s: WatchState)
    requires s.eligible && s.href != s.lastUrl
    ensures var t := Step(s, NavigationObserverCallback);
      t.lastUrl == s.href && !t.hasTriggered && t.scheduled == s.scheduled + 1
      && t.observers == s.observers && t.eligible
  {
  }

  /** The same address: nothing changes. */
  lemma SameUrlChangesNothing(s: WatchState)
    requires s.href == s.lastUrl
    ensures Step(s, NavigationObserverCallback) == s
  {
  }

  /** After a move to a new merged page, the scheduled `observePRStatus` celebrates again. */
  lemma NewMergedPageCelebratesAgain(s: WatchState, now: int)
    requires s.eligible && s.href != s.lastUrl && Merged(s.page)
    ensures RunEvents(s, [NavigationObserverCallback, ScheduledObserve(now)]).primaryTriggers
      == s.primaryTriggers + 1
  {
    var t := Step(s, NavigationObserverCallback);
    UrlChangeReArms(s);
    assert [NavigationObserverCallback, ScheduledObserve(now)][1..] == [ScheduledObserve(now)];
    assert RunEvents(t, [ScheduledObserve(now)]) == Step(t, ScheduledObserve(now));
  }
}
