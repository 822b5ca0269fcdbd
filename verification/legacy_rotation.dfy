/** The earlier, callback-based rotation service (src/rotation.service.ts). A slot
    is passed over while its `skip` flag is set; events are matched on the
    primary tab only; slot timers are repeating intervals that reload the primary. */
module LegacyRotation {
  import opened Models
  import ReadyScan

  /** The first slot whose primary tab is `tabId`. */
  function FindTab(tabs: seq<TabConfig>, tabId: int): (r: Option<nat>)
    ensures r.Some? ==> r.value < |tabs| && tabs[r.value].tabId == tabId
    ensures r.Some? ==> forall j :: 0 <= j < r.value ==> tabs[j].tabId != tabId
    ensures r.None? ==> forall j :: 0 <= j < |tabs| ==> tabs[j].tabId != tabId
  {
    IndexOf(tabs, (t: TabConfig) => t.tabId == tabId)
  }

  /** The event is for a slot's primary tab and for the page that slot shows. */
  predicate Concerns(s: Scheduler, tabId: int, url: string) {
    FindTab(s.tabs, tabId).Some? && s.tabs[FindTab(s.tabs, tabId).value].page.url == url
  }

  /** A page loaded: the slot rejoins the rotation, its failures are forgotten
      and, for a page with a reload interval, a repeating reload is armed. */
  function OnPageLoaded(s: Scheduler, tabId: int, url: string): (r: Scheduler)
    ensures !Concerns(s, tabId, url) ==> r == s
    ensures Concerns(s, tabId, url) ==> SameRun(s, r) && OtherSlotsUnchanged(s, r, FindTab(s.tabs, tabId).value)
    ensures Concerns(s, tabId, url) ==>
              var i := FindTab(s.tabs, tabId).value;
              var t, t' := s.tabs[i], r.tabs[i];
              && !t'.skip && t'.retryCount == 0
              && t'.page == t.page && t'.tabId == t.tabId && t'.nextTabId == t.nextTabId
              && t'.tabIdReady == t.tabIdReady && t'.nextTabIdReady == t.nextTabIdReady
              && (t.page.reloadIntervalSeconds > 0 ==> t'.reloadTimer == RefreshAfter(t.page.reloadIntervalSeconds))
              && (t.page.reloadIntervalSeconds <= 0 ==> t'.reloadTimer == NoReloadTimer)
  {
    match FindTab(s.tabs, tabId)
    case None => s
    case Some(i) =>
      var t := s.tabs[i];
      if t.page.url != url then s
      else
        var cleared := RemoveReloadTimer(t.(skip := false));
        var armed := if t.page.reloadIntervalSeconds > 0
                     then cleared.(reloadTimer := RefreshAfter(t.page.reloadIntervalSeconds))
                     else cleared;
        s.(tabs := s.tabs[i := armed])
  }

  /** A page failed: while retries remain the tab is pointed at the page again;
      after that the slot is skipped and a repeating recovery reload is armed. */
  function OnHandleError(s: Scheduler, tabId: int, url: string): (r: Step)
    ensures !Concerns(s, tabId, url) ==> r == Step(s, [])
    ensures Concerns(s, tabId, url) ==>
              SameRun(s, r.next) && OtherSlotsUnchanged(s, r.next, FindTab(s.tabs, tabId).value)
    ensures Concerns(s, tabId, url) && s.tabs[FindTab(s.tabs, tabId).value].retryCount < MaxRetries ==>
              var i := FindTab(s.tabs, tabId).value;
              var t, t' := s.tabs[i], r.next.tabs[i];
              && SameHandles(t', t) && t'.reloadTimer == t.reloadTimer
              && t'.retryCount == t.retryCount + 1
              && r.commands == [NavigateTab(tabId, t.page.url)]
    ensures Concerns(s, tabId, url) && s.tabs[FindTab(s.tabs, tabId).value].retryCount >= MaxRetries ==>
              var i := FindTab(s.tabs, tabId).value;
              var t, t' := s.tabs[i], r.next.tabs[i];
              && t'.skip && t'.retryCount == 0
              && t'.page == t.page && t'.tabId == t.tabId && t'.nextTabId == t.nextTabId
              && t'.tabIdReady == t.tabIdReady && t'.nextTabIdReady == t.nextTabIdReady
              && t'.reloadTimer == RecoverAfter(RecoveryDelaySeconds(t.page.reloadIntervalSeconds))
              && r.commands == []
  {
    match FindTab(s.tabs, tabId)
    case None => Step(s, [])
    case Some(i) =>
      var t := s.tabs[i];
      if t.page.url != url then Step(s, [])
      else if t.retryCount < MaxRetries then
        Step(s.(tabs := s.tabs[i := t.(retryCount := t.retryCount + 1)]), [NavigateTab(tabId, t.page.url)])
      else
        var skipped := RemoveReloadTimer(t.(skip := true));
        var probing := skipped.(reloadTimer := RecoverAfter(RecoveryDelaySeconds(t.page.reloadIntervalSeconds)));
        Step(s.(tabs := s.tabs[i := probing]), [])
  }

  /** Lookups by tab id only see the primary handles. */
  lemma FindTabSeesHandles(a: seq<TabConfig>, b: seq<TabConfig>, tabId: int)
    requires |a| == |b|
    requires forall j :: 0 <= j < |a| ==> a[j].tabId == b[j].tabId
    ensures FindTab(a, tabId) == FindTab(b, tabId)
  {
  }

  /** A skipped page rejoins the rotation once it loads: the same slot is found,
      it is no longer skipped and its failures are forgotten. */
  lemma ErrorThenLoadRejoins(s: Scheduler, tabId: int, url: string)
    requires Concerns(s, tabId, url)
    ensures var i := FindTab(s.tabs, tabId).value;
            var r := OnPageLoaded(OnHandleError(s, tabId, url).next, tabId, url);
            && SameRun(s, r) && OtherSlotsUnchanged(s, r, i)
            && !r.tabs[i].skip && r.tabs[i].retryCount == 0 && r.tabs[i].tabId == s.tabs[i].tabId
  {
    var e := OnHandleError(s, tabId, url).next;
    FindTabSeesHandles(s.tabs, e.tabs, tabId);
    assert Concerns(e, tabId, url);
  }

  /** A slot timer fired. Both kinds are repeating intervals that reload the
      primary tab, so the timer stays armed. */
  function ReloadTimerFired(s: Scheduler, i: nat): (r: Step)
    ensures r.next == s
    ensures i < |s.tabs| && !s.tabs[i].reloadTimer.NoReloadTimer? ==> r.commands == [ReloadTab(s.tabs[i].tabId)]
    ensures i >= |s.tabs| || s.tabs[i].reloadTimer.NoReloadTimer? ==> r.commands == []
  {
    if i < |s.tabs| && !s.tabs[i].reloadTimer.NoReloadTimer? then Step(s, [ReloadTab(s.tabs[i].tabId)])
    else Step(s, [])
  }

  /** After a page failed for good, every firing of the recovery interval
      reloads that tab, and the interval stays armed until the page loads. */
  lemma FailureThenIntervalReloads(s: Scheduler, tabId: int, url: string)
    requires Concerns(s, tabId, url) && s.tabs[FindTab(s.tabs, tabId).value].retryCount >= MaxRetries
    ensures var i := FindTab(s.tabs, tabId).value;
            var failed := OnHandleError(s, tabId, url).next;
            var fired := ReloadTimerFired(failed, i);
            && fired.commands == [ReloadTab(tabId)]
            && ReloadTimerFired(fired.next, i) == fired
            && OnPageLoaded(fired.next, tabId, url).tabs[i].reloadTimer != RecoverAfter(RecoveryDelaySeconds(s.tabs[i].page.reloadIntervalSeconds))
  {
    var failed := OnHandleError(s, tabId, url).next;
    FindTabSeesHandles(s.tabs, failed.tabs, tabId);
  }

  /** A tab of the rotation was closed: its slot is skipped from now on, its timer
      is cancelled and exactly that id leaves the persisted list. */
  function TryRemoveTabFromRotation(s: Scheduler, tabId: int): (r: Scheduler)
    ensures FindTab(s.tabs, tabId).None? ==> r == s
    ensures FindTab(s.tabs, tabId).Some? ==> OtherSlotsUnchanged(s, r, FindTab(s.tabs, tabId).value)
    ensures FindTab(s.tabs, tabId).Some? ==>
              var i := FindTab(s.tabs, tabId).value;
              var t, t' := s.tabs[i], r.tabs[i];
              && t'.skip && t'.retryCount == 0 && t'.reloadTimer == NoReloadTimer
              && t'.page == t.page && t'.tabId == t.tabId && t'.nextTabId == t.nextTabId
              && r.currentIndex == s.currentIndex && r.rotationTimer == s.rotationTimer
              && r.rotationState.isRotating == s.rotationState.isRotating
              && multiset(r.rotationState.tabIds) == multiset(s.rotationState.tabIds)[tabId := 0]
  {
    match FindTab(s.tabs, tabId)
    case None => s
    case Some(i) =>
      var t' := RemoveReloadTimer(s.tabs[i].(skip := true));
      var persisted := SetRotationState(s.rotationState, IsRotating(s), Some(Without(s.rotationState.tabIds, tabId)));
      s.(tabs := s.tabs[i := t'], rotationState := persisted.state)
  }

  /** Stopping: the rotation timer and every slot timer cancelled (the poll
      interval keeps running), persisted tabs closed, index back to the start,
      persisted state "not rotating, no tabs". The slots keep their skip flags. */
  function StopRotation(s: Scheduler): (r: Step)
    ensures !IsRotating(r.next) && r.next.rotationState.tabIds == []
    ensures r.next.currentIndex == 0 && r.next.rotationTimer == Disarmed
    ensures |r.next.tabs| == |s.tabs|
    ensures forall j :: 0 <= j < |s.tabs| ==>
              && SameHandles(r.next.tabs[j], s.tabs[j])
              && r.next.tabs[j].retryCount == 0
              && r.next.tabs[j].reloadTimer == NoReloadTimer
    ensures r.commands == [RemoveTabs(s.rotationState.tabIds)]
  {
    var tabs := seq(|s.tabs|, j requires 0 <= j < |s.tabs| => RemoveReloadTimer(s.tabs[j]));
    Step(Scheduler(SetRotationState(s.rotationState, false, Some([])).state, 0, Disarmed, tabs),
         [RemoveTabs(s.rotationState.tabIds)])
  }

  /** Stopping a stopped rotation leaves it as it is. */
  lemma StopRotationIdempotent(s: Scheduler)
    ensures StopRotation(StopRotation(s).next).next == StopRotation(s).next
    ensures StopRotation(StopRotation(s).next).commands == [RemoveTabs([])]
  {
    var once := StopRotation(s).next;
    assert StopRotation(once).next.tabs == once.tabs;
  }

  datatype ScanResult =
      /** the slot at `index` is not skipped */
    | Show(index: nat)
      /** the index points past the last slot: reading its tab throws */
    | InvalidTab(index: nat)
      /** every slot visited was skipped; the service recurses once more */
    | LapExhausted(index: nat)

  /** The skip-scan, cut off after `fuel` visits. */
  function SkipScan(tabs: seq<TabConfig>, i: nat, fuel: nat): (r: ScanResult)
    requires |tabs| > 0
    decreases fuel
    ensures r.Show? ==> r.index < |tabs| && !tabs[r.index].skip
    ensures r.InvalidTab? ==> r.index >= |tabs|
  {
    if fuel == 0 then LapExhausted(i)
    else if i >= |tabs| then InvalidTab(i)
    else if !tabs[i].skip then Show(i)
    else SkipScan(tabs, ReadyScan.Advance(i, |tabs|), fuel - 1)
  }

  /** From an index in range, the scan shows a slot when a slot that is not
      skipped lies within its fuel (SkipScanAllSkipped is the converse for a
      rotation whose slots are all skipped). */
  lemma {:induction false} SkipScanOneLap(tabs: seq<TabConfig>, i: nat, fuel: nat, j: nat)
    requires |tabs| > 0 && i < |tabs| && j < |tabs| && !tabs[j].skip
    requires (if i <= j then j - i else |tabs| - i + j) < fuel
    ensures SkipScan(tabs, i, fuel).Show?
    decreases fuel
  {
    if tabs[i].skip {
      SkipScanOneLap(tabs, ReadyScan.Advance(i, |tabs|), fuel - 1, j);
    }
  }

  /** When every slot is skipped, no amount of fuel shows a slot. */
  lemma {:induction false} SkipScanAllSkipped(tabs: seq<TabConfig>, i: nat, fuel: nat)
    requires |tabs| > 0 && i < |tabs|
    requires forall j :: 0 <= j < |tabs| ==> tabs[j].skip
    ensures SkipScan(tabs, i, fuel).LapExhausted?
    decreases fuel
  {
    if fuel > 0 {
      SkipScanAllSkipped(tabs, ReadyScan.Advance(i, |tabs|), fuel - 1);
    }
  }

  /** What a call of `rotateTabs` amounts to. */
  datatype Outcome =
    | Completed(step: Step)
      /** the current index is past the end: reading the missing slot's tab
          throws before the index advances */
    | ThrowsInvalidTab
      /** every slot is skipped: the synchronous self-call at
          src/rotation.service.ts:204 recurses until the call stack overflows and
          a `RangeError` is thrown; no rotation timer is armed on the way */
    | StackOverflow

  /** The tick leaves a rotation timer armed, so `rotateTabs` runs again later. */
  predicate SchedulesNextTick(o: Outcome) {
    o.Completed? && o.step.next.rotationTimer.Armed?
  }

  /** One tick: nothing when not rotating, a stop with no slots; else the first
      slot not skipped is activated, the index moves one past it and the timer is
      armed with that page's delay. */
  function RotateTabs(s: Scheduler): (r: Outcome)
    ensures !IsRotating(s) ==> r == Completed(Step(s, []))
    ensures IsRotating(s) && |s.tabs| == 0 ==> r == Completed(StopRotation(s))
    ensures IsRotating(s) && |s.tabs| > 0 && s.currentIndex < |s.tabs| && !s.tabs[s.currentIndex].skip ==>
              r == Completed(Step(s.(currentIndex := ReadyScan.Advance(s.currentIndex, |s.tabs|),
                                     rotationTimer := Armed(s.tabs[s.currentIndex].page.delaySeconds)),
                                  [ActivateTab(s.tabs[s.currentIndex].tabId)]))
    ensures IsRotating(s) && |s.tabs| > 0 && s.currentIndex >= |s.tabs| ==> r == ThrowsInvalidTab
    ensures IsRotating(s) && |s.tabs| > 0 ==> (SchedulesNextTick(r) <==> r.Completed?)
  {
    if !IsRotating(s) then Completed(Step(s, []))
    else if |s.tabs| == 0 then Completed(StopRotation(s))
    else
      match SkipScan(s.tabs, s.currentIndex, |s.tabs|)
      case Show(j) =>
        var t := s.tabs[j];
        Completed(Step(s.(currentIndex := ReadyScan.Advance(j, |s.tabs|), rotationTimer := Armed(t.page.delaySeconds)),
                       [ActivateTab(t.tabId)]))
      case InvalidTab(_) => ThrowsInvalidTab
      case LapExhausted(_) => StackOverflow
  }

  /** A scan from a skipped slot is the scan from the next slot, and it shows
      a slot when some slot is not skipped. */
  lemma SkipScanPassesOver(tabs: seq<TabConfig>, i: nat, j: nat)
    requires i < |tabs| && tabs[i].skip && j < |tabs| && !tabs[j].skip
    ensures SkipScan(tabs, i, |tabs|) == SkipScan(tabs, ReadyScan.Advance(i, |tabs|), |tabs|)
    ensures SkipScan(tabs, i, |tabs|).Show?
  {
    var len := |tabs|;
    var next := ReadyScan.Advance(i, len);
    assert next == if i + 1 < len then i + 1 else 0;
    assert (if next <= j then j - next else len - next + j) < len - 1;
    SkipScanOneLap(tabs, next, len - 1, j);
    ShowFromFuel(tabs, next, len - 1, len);
  }

  /** A skipped current slot is passed over without activating anything: the tick
      behaves as one started at the next index. */
  lemma RotateTabsPassesOverSkipped(s: Scheduler)
    requires IsRotating(s) && |s.tabs| > 0 && s.currentIndex < |s.tabs| && s.tabs[s.currentIndex].skip
    requires exists j :: 0 <= j < |s.tabs| && !s.tabs[j].skip
    ensures RotateTabs(s) == RotateTabs(s.(currentIndex := ReadyScan.Advance(s.currentIndex, |s.tabs|)))
    ensures RotateTabs(s).Completed?
  {
    var j :| 0 <= j < |s.tabs| && !s.tabs[j].skip;
    SkipScanPassesOver(s.tabs, s.currentIndex, j);
  }

  /** Extra fuel does not change a scan that already shows a slot. */
  lemma {:induction false} ShowFromFuel(tabs: seq<TabConfig>, i: nat, fuel: nat, more: nat)
    requires |tabs| > 0 && fuel <= more && SkipScan(tabs, i, fuel).Show?
    ensures SkipScan(tabs, i, more) == SkipScan(tabs, i, fuel)
    decreases fuel
  {
    if i < |tabs| && tabs[i].skip {
      ShowFromFuel(tabs, ReadyScan.Advance(i, |tabs|), fuel - 1, more - 1);
    }
  }

  /** With every slot skipped the tick overflows the stack and arms no timer:
      this tick schedules no further tick, even once a page loads and its slot is
      no longer skipped. Only the poll interval can start the rotation again. */
  lemma RotateTabsAllSkipped(s: Scheduler)
    requires IsRotating(s) && |s.tabs| > 0 && s.currentIndex < |s.tabs|
    requires forall j :: 0 <= j < |s.tabs| ==> s.tabs[j].skip
    ensures RotateTabs(s) == StackOverflow
    ensures !SchedulesNextTick(RotateTabs(s))
  {
    SkipScanAllSkipped(s.tabs, s.currentIndex, |s.tabs|);
  }
}
