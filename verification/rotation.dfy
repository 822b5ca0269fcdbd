/** The background rotation service (src/background/rotation.service.ts) as pure
    transitions over a `Scheduler`: one function per entry point. Browser calls
    come out as `Command`s; what the browser answers comes in as a parameter. */
module Rotation {
  import opened Models
  import opened ReadyScan

  /** A load, error or removal event concerns the slot holding the tab as its primary or its replacement. */
  predicate Matches(t: TabConfig, tabId: int) {
    t.tabId == tabId || t.nextTabId == tabId
  }

  /** The first slot holding `tabId` in either handle. */
  function FindTab(tabs: seq<TabConfig>, tabId: int): (r: Option<nat>)
    ensures r.Some? ==> r.value < |tabs| && Matches(tabs[r.value], tabId)
    ensures r.Some? ==> forall j :: 0 <= j < r.value ==> !Matches(tabs[j], tabId)
    ensures r.None? ==> forall j :: 0 <= j < |tabs| ==> !Matches(tabs[j], tabId)
  {
    IndexOf(tabs, t => Matches(t, tabId))
  }

  /** The event is for a tab of the rotation and for the page its slot shows. */
  predicate Concerns(s: Scheduler, tabId: int, url: string) {
    FindTab(s.tabs, tabId).Some? && s.tabs[FindTab(s.tabs, tabId).value].page.url == url
  }

  /** A page finished loading in `tabId`. Stale events (unknown tab, other url)
      are ignored; otherwise the matching handle becomes ready, failures are
      forgotten and, for a page with a reload interval, a refresh is armed. */
  function OnPageLoaded(s: Scheduler, tabId: int, url: string): (r: Scheduler)
    ensures !Concerns(s, tabId, url) ==> r == s
    ensures Concerns(s, tabId, url) ==> SameRun(s, r) && OtherSlotsUnchanged(s, r, FindTab(s.tabs, tabId).value)
    ensures Concerns(s, tabId, url) ==>
              var i := FindTab(s.tabs, tabId).value;
              var t, t' := s.tabs[i], r.tabs[i];
              && t'.page == t.page && t'.tabId == t.tabId && t'.nextTabId == t.nextTabId
              && (t.nextTabId == tabId ==> t'.nextTabIdReady && t'.tabIdReady == t.tabIdReady)
              && (t.nextTabId != tabId ==> t'.tabIdReady && t'.nextTabIdReady == t.nextTabIdReady)
              && t'.retryCount == 0
              && (t.page.reloadIntervalSeconds > 0 ==> t'.reloadTimer == RefreshAfter(t.page.reloadIntervalSeconds))
              && (t.page.reloadIntervalSeconds <= 0 ==> t'.reloadTimer == NoReloadTimer)
  {
    match FindTab(s.tabs, tabId)
    case None => s
    case Some(i) =>
      var t := s.tabs[i];
      if t.page.url != url then s
      else
        var marked := if t.nextTabId == tabId then t.(nextTabIdReady := true) else t.(tabIdReady := true);
        var cleared := RemoveReloadTimer(marked);
        var armed := if t.page.reloadIntervalSeconds > 0
                     then cleared.(reloadTimer := RefreshAfter(t.page.reloadIntervalSeconds))
                     else cleared;
        s.(tabs := s.tabs[i := armed])
  }

  /** A page failed to load in `tabId`. While retries remain the same tab is
      pointed at the page again; after that the matching handle stops being ready
      and a recovery probe is armed. */
  function OnHandleError(s: Scheduler, tabId: int, url: string): (r: Step)
    ensures !Concerns(s, tabId, url) ==> r == Step(s, [])
    ensures Concerns(s, tabId, url) ==>
              SameRun(s, r.next) && OtherSlotsUnchanged(s, r.next, FindTab(s.tabs, tabId).value)
    ensures Concerns(s, tabId, url) && s.tabs[FindTab(s.tabs, tabId).value].retryCount < MaxRetries ==>
              var i := FindTab(s.tabs, tabId).value;
              var t, t' := s.tabs[i], r.next.tabs[i];
              && SameHandles(t', t) && t'.reloadTimer == t.reloadTimer
              && t'.retryCount == t.retryCount + 1
              && r.commands == [NavigateTab(tabId, t.page.url)]
    ensures Concerns(s, tabId, url) && s.tabs[FindTab(s.tabs, tabId).value].retryCount >= MaxRetries ==>
              var i := FindTab(s.tabs, tabId).value;
              var t, t' := s.tabs[i], r.next.tabs[i];
              && t'.page == t.page && t'.tabId == t.tabId && t'.nextTabId == t.nextTabId
              && (t.nextTabId == tabId ==> !t'.nextTabIdReady && t'.tabIdReady == t.tabIdReady)
              && (t.nextTabId != tabId ==> !t'.tabIdReady && t'.nextTabIdReady == t.nextTabIdReady)
              && t'.retryCount == 0
              && t'.reloadTimer == RecoverAfter(RecoveryDelaySeconds(t.page.reloadIntervalSeconds))
              && r.commands == []
  {
    match FindTab(s.tabs, tabId)
    case None => Step(s, [])
    case Some(i) =>
      var t := s.tabs[i];
      if t.page.url != url then Step(s, [])
      else if t.retryCount < MaxRetries then
        Step(s.(tabs := s.tabs[i := t.(retryCount := t.retryCount + 1)]), [NavigateTab(tabId, t.page.url)])
      else
        var unready := if t.nextTabId == tabId then t.(nextTabIdReady := false) else t.(tabIdReady := false);
        var probing := RemoveReloadTimer(unready).(reloadTimer := RecoverAfter(RecoveryDelaySeconds(t.page.reloadIntervalSeconds)));
        Step(s.(tabs := s.tabs[i := probing]), [])
  }

  /** Lookups by tab id only see the handles: slots with the same handles are found the same way. */
  lemma FindTabSeesHandles(a: seq<TabConfig>, b: seq<TabConfig>, tabId: int)
    requires |a| == |b|
    requires forall j :: 0 <= j < |a| ==> a[j].tabId == b[j].tabId && a[j].nextTabId == b[j].nextTabId
    ensures FindTab(a, tabId) == FindTab(b, tabId)
  {
    var fa, fb := FindTab(a, tabId), FindTab(b, tabId);
    if fa.Some? && fb.Some? {
      if fa.value < fb.value {
        assert Matches(b[fa.value], tabId);
      } else if fb.value < fa.value {
        assert Matches(a[fb.value], tabId);
      }
    } else if fa.Some? {
      assert Matches(b[fa.value], tabId);
    } else if fb.Some? {
      assert Matches(a[fb.value], tabId);
    }
  }

  /** A page that failed, however often, is shown again once it loads: the same
      slot is found, its loaded handle is ready and its failures are forgotten. */
  lemma ErrorThenLoadRecovers(s: Scheduler, tabId: int, url: string)
    requires Concerns(s, tabId, url)
    ensures var i := FindTab(s.tabs, tabId).value;
            var r := OnPageLoaded(OnHandleError(s, tabId, url).next, tabId, url);
            && SameRun(s, r) && OtherSlotsUnchanged(s, r, i)
            && IsReady(r.tabs[i]) && r.tabs[i].retryCount == 0
            && r.tabs[i].tabId == s.tabs[i].tabId && r.tabs[i].nextTabId == s.tabs[i].nextTabId
  {
    var i := FindTab(s.tabs, tabId).value;
    var e := OnHandleError(s, tabId, url).next;
    FindTabSeesHandles(s.tabs, e.tabs, tabId);
    assert Concerns(e, tabId, url);
  }

  /** After a page failed for good, the recovery probe reloads the slot's
      primary tab, also when the failure was in the replacement tab. */
  lemma FailureThenProbeReloadsPrimary(s: Scheduler, tabId: int, url: string)
    requires Concerns(s, tabId, url) && s.tabs[FindTab(s.tabs, tabId).value].retryCount >= MaxRetries
    ensures var i := FindTab(s.tabs, tabId).value;
            var failed := OnHandleError(s, tabId, url).next;
            var probed := RecoveryTimerFired(failed, i);
            && probed.commands == [ReloadTab(s.tabs[i].tabId)]
            && probed.next.tabs[i].reloadTimer == NoReloadTimer
            && (s.tabs[i].nextTabId == tabId && s.tabs[i].tabId != tabId ==> probed.commands != [ReloadTab(tabId)])
  {
  }

  /** The user closed `tabId`. The slot forgets that handle; when it has no tab
      left its timer goes too; the id leaves the persisted list either way. */
  function TryRemoveTabFromRotationOnClose(s: Scheduler, tabId: int): (r: Scheduler)
    ensures FindTab(s.tabs, tabId).None? ==> r == s
    ensures FindTab(s.tabs, tabId).Some? ==> OtherSlotsUnchanged(s, r, FindTab(s.tabs, tabId).value)
    ensures FindTab(s.tabs, tabId).Some? ==>
              var i := FindTab(s.tabs, tabId).value;
              var t, t' := s.tabs[i], r.tabs[i];
              && r.currentIndex == s.currentIndex && r.rotationTimer == s.rotationTimer
              && r.rotationState.isRotating == s.rotationState.isRotating
              && multiset(r.rotationState.tabIds) == multiset(s.rotationState.tabIds)[tabId := 0]
              && t'.page == t.page
              && (t.nextTabId == tabId ==> t'.nextTabId == NoTab && !t'.nextTabIdReady
                                           && t'.tabId == t.tabId && t'.tabIdReady == t.tabIdReady)
              && (t.nextTabId != tabId ==> t'.tabId == NoTab && !t'.tabIdReady
                                           && t'.nextTabId == t.nextTabId && t'.nextTabIdReady == t.nextTabIdReady)
              && (t'.tabId > 0 || t'.nextTabId > 0 ==> t'.retryCount == t.retryCount && t'.reloadTimer == t.reloadTimer)
              && (!(t'.tabId > 0 || t'.nextTabId > 0) ==> t'.retryCount == 0 && t'.reloadTimer == NoReloadTimer)
  {
    match FindTab(s.tabs, tabId)
    case None => s
    case Some(i) =>
      var t := s.tabs[i];
      var closed := if t.nextTabId == tabId then t.(nextTabIdReady := false, nextTabId := NoTab)
                    else t.(tabIdReady := false, tabId := NoTab);
      var t' := if !(closed.tabId > 0 || closed.nextTabId > 0) then RemoveReloadTimer(closed) else closed;
      var persisted := SetRotationState(s.rotationState, IsRotating(s), Some(Without(s.rotationState.tabIds, tabId)));
      s.(tabs := s.tabs[i := t'], rotationState := persisted.state)
  }

  /** Stopping: the rotation timer and every slot timer are cancelled, every
      persisted tab is closed, and the persisted state becomes "not rotating, no tabs". */
  function StopRotation(s: Scheduler): (r: Step)
    ensures !IsRotating(r.next) && r.next.rotationState.tabIds == []
    ensures r.next.currentIndex == 0 && r.next.rotationTimer == Disarmed
    ensures |r.next.tabs| == |s.tabs|
    ensures forall j :: 0 <= j < |s.tabs| ==>
              && SameHandles(r.next.tabs[j], s.tabs[j])
              && r.next.tabs[j].retryCount == 0
              && r.next.tabs[j].reloadTimer == NoReloadTimer
    ensures r.commands == [RemoveTabs(s.rotationState.tabIds)]
  {
    var tabs := seq(|s.tabs|, j requires 0 <= j < |s.tabs| => RemoveReloadTimer(s.tabs[j]));
    var persisted := SetRotationState(s.rotationState, false, Some([]));
    Step(Scheduler(persisted.state, 0, Disarmed, tabs), [RemoveTabs(s.rotationState.tabIds)])
  }

  /** Stopping a stopped rotation leaves it as it is. */
  lemma StopRotationIdempotent(s: Scheduler)
    ensures StopRotation(StopRotation(s).next).next == StopRotation(s).next
    ensures StopRotation(StopRotation(s).next).commands == [RemoveTabs([])]
  {
    var once := StopRotation(s).next;
    var twice := StopRotation(once).next;
    assert twice.tabs == once.tabs;
  }

  /** Whether creating a tab for the slot reaches the browser: the page has a url
      and no replacement tab is pending already. */
  predicate CreateTabRequested(t: TabConfig) {
    t.page.url != "" && !(t.nextTabId > 0)
  }

  /** Placing a newly created tab (`created`, or None when the browser refused):
      it becomes the replacement when the slot has a primary, else the primary. */
  function CreateTab(t: TabConfig, created: Option<int>): (r: TabConfig)
    ensures r.page == t.page && r.active == t.active && r.retryCount == t.retryCount
    ensures r.tabIdReady == t.tabIdReady && r.nextTabIdReady == t.nextTabIdReady
    ensures r.reloadTimer == t.reloadTimer && r.skip == t.skip
    ensures !CreateTabRequested(t) || created.None? ==> r == t
    ensures CreateTabRequested(t) && created.Some? && t.tabId > 0 ==>
              r.tabId == t.tabId && r.nextTabId == created.value
    ensures CreateTabRequested(t) && created.Some? && !(t.tabId > 0) ==>
              r.tabId == created.value && r.nextTabId == t.nextTabId
    ensures t.tabId > 0 ==> r.tabId == t.tabId
    ensures t.nextTabId > 0 ==> r.nextTabId == t.nextTabId
  {
    if t.page.url == "" then t
    else if t.nextTabId > 0 then t
    else match created
      case None => t
      case Some(id) => if t.tabId > 0 then t.(nextTabId := id) else t.(tabId := id)
  }

  /** The refresh timer of slot `i` fired: reload the pending replacement when
      there is one, else create one and record the new tab in the persisted list. */
  function RefreshTimerFired(s: Scheduler, i: nat, created: Option<int>): (r: Step)
    ensures i >= |s.tabs| || !s.tabs[i].reloadTimer.RefreshAfter? ==> r == Step(s, [])
    ensures i < |s.tabs| && s.tabs[i].reloadTimer.RefreshAfter? ==> OtherSlotsUnchanged(s, r.next, i)
    ensures i < |s.tabs| && s.tabs[i].reloadTimer.RefreshAfter? ==>
              var t, t' := s.tabs[i], r.next.tabs[i];
              && r.next.currentIndex == s.currentIndex && r.next.rotationTimer == s.rotationTimer
              && r.next.rotationState.isRotating == s.rotationState.isRotating
              && t'.reloadTimer == NoReloadTimer
              && (t.nextTabId > 0 ==> r.commands == [ReloadTab(t.nextTabId)]
                                      && r.next.rotationState == s.rotationState
                                      && SameHandles(t', t))
              && (!(t.nextTabId > 0) ==>
                    r.next.rotationState.tabIds == s.rotationState.tabIds + [if t'.nextTabId > 0 then t'.nextTabId else t'.tabId]
                    && (CreateTabRequested(t) ==> r.commands == [NewTab(t.page.url, t.active)])
                    && (!CreateTabRequested(t) ==> r.commands == []))
  {
    if i >= |s.tabs| || !s.tabs[i].reloadTimer.RefreshAfter? then Step(s, [])
    else
      var t := s.tabs[i].(reloadTimer := NoReloadTimer);
      if t.nextTabId > 0 then
        Step(s.(tabs := s.tabs[i := t]), [ReloadTab(t.nextTabId)])
      else
        var t' := CreateTab(t, created);
        var commands := if CreateTabRequested(t) then [NewTab(t.page.url, t.active)] else [];
        var added := if t'.nextTabId > 0 then t'.nextTabId else t'.tabId;
        var persisted := SetRotationState(s.rotationState, s.rotationState.isRotating, Some(s.rotationState.tabIds + [added]));
        Step(s.(tabs := s.tabs[i := t'], rotationState := persisted.state), commands)
  }

  /** The recovery timer of slot `i` fired: reload its primary tab. */
  function RecoveryTimerFired(s: Scheduler, i: nat): (r: Step)
    ensures i >= |s.tabs| || !s.tabs[i].reloadTimer.RecoverAfter? ==> r == Step(s, [])
    ensures i < |s.tabs| && s.tabs[i].reloadTimer.RecoverAfter? ==>
              && SameRun(s, r.next) && OtherSlotsUnchanged(s, r.next, i)
              && SameHandles(r.next.tabs[i], s.tabs[i])
              && r.next.tabs[i].retryCount == s.tabs[i].retryCount
              && r.next.tabs[i].reloadTimer == NoReloadTimer
              && r.commands == [ReloadTab(s.tabs[i].tabId)]
  {
    if i >= |s.tabs| || !s.tabs[i].reloadTimer.RecoverAfter? then Step(s, [])
    else Step(s.(tabs := s.tabs[i := s.tabs[i].(reloadTimer := NoReloadTimer)]), [ReloadTab(s.tabs[i].tabId)])
  }

  /** Hot swap of slot `i`: show the freshly loaded replacement, close the old
      primary and promote the replacement. `activated` is the browser's answer to
      the activation; when it refuses nothing else happens. */
  function OpenNextPageTab(s: Scheduler, i: nat, activated: bool): (r: Step)
    requires i < |s.tabs|
    ensures |r.commands| > 0 && r.commands[0] == ActivateTab(s.tabs[i].nextTabId)
    ensures !activated ==> r.next == s
    ensures activated ==> OtherSlotsUnchanged(s, r.next, i)
    ensures activated ==>
              var t, t' := s.tabs[i], r.next.tabs[i];
              && r.next.currentIndex == s.currentIndex && r.next.rotationTimer == s.rotationTimer
              && t'.tabId == t.nextTabId && t'.nextTabId == NoTab
              && t'.tabIdReady && !t'.nextTabIdReady
              && t'.page == t.page && t'.retryCount == t.retryCount && t'.reloadTimer == t.reloadTimer
              && r.next.rotationState.isRotating == s.rotationState.isRotating
              && multiset(r.next.rotationState.tabIds) == multiset(s.rotationState.tabIds)[t.tabId := 0]
              && r.commands == [ActivateTab(t.nextTabId), RemoveTabs([t.tabId])]
  {
    var t := s.tabs[i];
    if !activated then Step(s, [ActivateTab(t.nextTabId)])
    else
      var removed := t.tabId;
      var persisted := SetRotationState(s.rotationState, IsRotating(s), Some(Without(s.rotationState.tabIds, removed)));
      var promoted := t.(tabId := t.nextTabId, nextTabId := NoTab, tabIdReady := true, nextTabIdReady := false);
      Step(s.(rotationState := persisted.state, tabs := s.tabs[i := promoted]), [ActivateTab(t.nextTabId), RemoveTabs([removed])])
  }

  /** After showing a slot: move to the next slot and arm the rotation timer. */
  function ScheduleNextRotation(s: Scheduler, delaySeconds: int): (r: Scheduler)
    requires |s.tabs| > 0
    ensures 0 <= r.currentIndex < |s.tabs|
    ensures s.currentIndex < |s.tabs| ==>
              r.currentIndex == if s.currentIndex + 1 < |s.tabs| then s.currentIndex + 1 else 0
    ensures r.rotationTimer == Armed(delaySeconds)
    ensures r.tabs == s.tabs && r.rotationState == s.rotationState
  {
    s.(currentIndex := Advance(s.currentIndex, |s.tabs|), rotationTimer := Armed(delaySeconds))
  }

  /** Whether showing slot `t` is a hot swap rather than a plain activation. */
  predicate SwapsIn(t: TabConfig) {
    t.nextTabId > 0 && t.nextTabIdReady
  }

  /** One rotation tick: nothing when not rotating, a stop when there are no
      slots, else the ready scan followed by showing the slot it found (hot swap
      or activation) and scheduling the next tick, or the all-pages-failed wait. */
  function RotateTabs(s: Scheduler, activated: bool): (r: Step)
    ensures !IsRotating(s) ==> r == Step(s, [])
    ensures IsRotating(s) && |s.tabs| == 0 ==> r == StopRotation(s)
    ensures IsRotating(s) && |s.tabs| > 0 ==> r.next.currentIndex < |s.tabs|
  {
    if !IsRotating(s) then Step(s, [])
    else if |s.tabs| == 0 then StopRotation(s)
    else
      match Scan(s.tabs, s.currentIndex, 0)
      case Found(j, _) =>
        var t := s.tabs[j];
        var shown := if SwapsIn(t) then OpenNextPageTab(s.(currentIndex := j), j, activated)
                     else Step(s.(currentIndex := j), [ActivateTab(t.tabId)]);
        Step(ScheduleNextRotation(shown.next, t.page.delaySeconds), shown.commands)
      case BackOff(j, _) =>
        Step(s.(currentIndex := j, rotationTimer := Disarmed), [WaitSeconds(DefaultAllPagesFailedWaitIntervalSeconds)])
      case LapExhausted(j) =>
        Step(s.(currentIndex := j, rotationTimer := Disarmed), [])
  }

  /** With some slot ready, a tick shows the first ready slot in rotation order
      from the current index, by hot swap exactly when its replacement is loaded,
      then moves the index one past it and arms the timer with that page's delay. */
  lemma RotateTabsShowsFirstReady(s: Scheduler, activated: bool)
    requires IsRotating(s) && |s.tabs| > 0 && AnyReady(s.tabs)
    ensures Scan(s.tabs, s.currentIndex, 0).Found?
    ensures var j := Scan(s.tabs, s.currentIndex, 0).index;
            var t := s.tabs[j];
            var r := RotateTabs(s, activated);
            && IsReady(t)
            && (s.currentIndex < |s.tabs| ==>
                  forall m :: 0 <= m < |s.tabs| && Dist(|s.tabs|, s.currentIndex, m) < Dist(|s.tabs|, s.currentIndex, j) ==>
                    !IsReady(s.tabs[m]))
            && r.next.currentIndex == Advance(j, |s.tabs|)
            && r.next.rotationTimer == Armed(t.page.delaySeconds)
            && |r.next.tabs| == |s.tabs|
            && (SwapsIn(t) ==> r.commands[0] == ActivateTab(t.nextTabId))
            && (SwapsIn(t) && activated ==>
                  r.next.tabs[j].tabId == t.nextTabId && r.next.tabs[j].nextTabId == NoTab
                  && r.next.tabs[j].tabIdReady && !r.next.tabs[j].nextTabIdReady)
            && (!SwapsIn(t) ==> r.commands == [ActivateTab(t.tabId)] && r.next.tabs == s.tabs
                                && r.next.rotationState == s.rotationState)
  {
    ScanCompletesWithinLap(s.tabs, s.currentIndex);
  }

  /** With no slot ready, a tick ends on the last slot and waits the
      all-pages-failed interval before scanning again. The wait is a plain
      promise, not the rotation timer, so no rotation timer is pending; nothing
      else changes. */
  lemma RotateTabsBacksOff(s: Scheduler, activated: bool)
    requires IsRotating(s) && |s.tabs| > 0 && !AnyReady(s.tabs)
    ensures var r := RotateTabs(s, activated);
            && r.next.currentIndex == |s.tabs| - 1
            && r.commands == [WaitSeconds(DefaultAllPagesFailedWaitIntervalSeconds)]
            && r.next.tabs == s.tabs && r.next.rotationState == s.rotationState
            && r.next.rotationTimer == Disarmed
  {
    ScanCompletesWithinLap(s.tabs, s.currentIndex);
  }

  /** Two slots share a tab: a live handle (an id above 0) of `a` is a handle of `b`. */
  predicate Shares(a: TabConfig, b: TabConfig) {
    || (a.tabId > 0 && (a.tabId == b.tabId || a.tabId == b.nextTabId))
    || (a.nextTabId > 0 && (a.nextTabId == b.tabId || a.nextTabId == b.nextTabId))
  }

  /** No tab sits in two places: a slot's primary differs from its replacement,
      and no two slots share a tab. */
  predicate HandlesDistinct(tabs: seq<TabConfig>) {
    && (forall j :: 0 <= j < |tabs| && tabs[j].tabId > 0 ==> tabs[j].tabId != tabs[j].nextTabId)
    && (forall j, k :: 0 <= j < |tabs| && 0 <= k < |tabs| && j != k ==> !Shares(tabs[j], tabs[k]))
  }

  /** The slot's live handles are in the persisted list. */
  predicate Tracked(t: TabConfig, ids: seq<int>) {
    && (t.tabId > 0 ==> t.tabId in ids)
    && (t.nextTabId > 0 ==> t.nextTabId in ids)
  }

  /** The scheduler invariant: tabs are not shared, and while rotating every open
      tab of the rotation is in the persisted list, so that a stop or a restart of
      the extension closes it. After a stop the slots keep their old handles while
      the list is empty, hence the condition on the flag. */
  predicate WellFormed(s: Scheduler) {
    && HandlesDistinct(s.tabs)
    && (IsRotating(s) ==> forall j :: 0 <= j < |s.tabs| ==> Tracked(s.tabs[j], s.rotationState.tabIds))
  }

  /** A tab id the browser may hand out for a new tab: not held by any slot. */
  predicate Fresh(tabs: seq<TabConfig>, id: int) {
    id > 0 && forall j :: 0 <= j < |tabs| ==> !Matches(tabs[j], id)
  }

  /** Only the handles and the persisted state matter to the invariant. */
  lemma HandlesKeepWellFormed(s: Scheduler, r: Scheduler)
    requires WellFormed(s)
    requires |r.tabs| == |s.tabs| && r.rotationState == s.rotationState
    requires forall j :: 0 <= j < |s.tabs| ==> r.tabs[j].tabId == s.tabs[j].tabId && r.tabs[j].nextTabId == s.tabs[j].nextTabId
    ensures WellFormed(r)
  {
    forall j, k | 0 <= j < |r.tabs| && 0 <= k < |r.tabs| && j != k
      ensures !Shares(r.tabs[j], r.tabs[k])
    {
      assert !Shares(s.tabs[j], s.tabs[k]);
    }
    if IsRotating(r) {
      forall j | 0 <= j < |r.tabs|
        ensures Tracked(r.tabs[j], r.rotationState.tabIds)
      {
        assert Tracked(s.tabs[j], s.rotationState.tabIds);
      }
    }
  }

  lemma OnPageLoadedKeepsWellFormed(s: Scheduler, tabId: int, url: string)
    requires WellFormed(s)
    ensures WellFormed(OnPageLoaded(s, tabId, url))
  {
    if Concerns(s, tabId, url) {
      HandlesKeepWellFormed(s, OnPageLoaded(s, tabId, url));
    }
  }

  lemma OnHandleErrorKeepsWellFormed(s: Scheduler, tabId: int, url: string)
    requires WellFormed(s)
    ensures WellFormed(OnHandleError(s, tabId, url).next)
  {
    if Concerns(s, tabId, url) {
      HandlesKeepWellFormed(s, OnHandleError(s, tabId, url).next);
    }
  }

  lemma RecoveryTimerFiredKeepsWellFormed(s: Scheduler, i: nat)
    requires WellFormed(s)
    ensures WellFormed(RecoveryTimerFired(s, i).next)
  {
    if i < |s.tabs| && s.tabs[i].reloadTimer.RecoverAfter? {
      HandlesKeepWellFormed(s, RecoveryTimerFired(s, i).next);
    }
  }

  /** An id other than the filtered one stays in the list. */
  lemma WithoutKeeps(ids: seq<int>, id: int, x: int)
    requires x in ids && x != id
    ensures x in Without(ids, id)
  {
    assert multiset(Without(ids, id))[x] == multiset(ids)[x] > 0;
  }

  /** Closing a tab clears its only handle and drops only its id. */
  lemma TryRemoveKeepsWellFormed(s: Scheduler, tabId: int)
    requires WellFormed(s)
    ensures WellFormed(TryRemoveTabFromRotationOnClose(s, tabId))
  {
    var r := TryRemoveTabFromRotationOnClose(s, tabId);
    if FindTab(s.tabs, tabId).Some? {
      var i := FindTab(s.tabs, tabId).value;
      forall j, k | 0 <= j < |r.tabs| && 0 <= k < |r.tabs| && j != k
        ensures !Shares(r.tabs[j], r.tabs[k])
      {
        assert !Shares(s.tabs[j], s.tabs[k]);
      }
      if IsRotating(r) {
        var ids := s.rotationState.tabIds;
        assert r.rotationState.tabIds == Without(ids, tabId);
        forall j | 0 <= j < |r.tabs|
          ensures Tracked(r.tabs[j], r.rotationState.tabIds)
        {
          var t := s.tabs[j];
          assert Tracked(t, ids);
          if j != i {
            assert !Shares(t, s.tabs[i]);
          }
          if r.tabs[j].tabId > 0 {
            WithoutKeeps(ids, tabId, r.tabs[j].tabId);
          }
          if r.tabs[j].nextTabId > 0 {
            WithoutKeeps(ids, tabId, r.tabs[j].nextTabId);
          }
        }
      }
    }
  }

  /** A hot swap promotes a tracked replacement and drops only the old primary. */
  lemma OpenNextPageTabKeepsWellFormed(s: Scheduler, i: nat, activated: bool)
    requires i < |s.tabs| && WellFormed(s)
    ensures WellFormed(OpenNextPageTab(s, i, activated).next)
  {
    var r := OpenNextPageTab(s, i, activated).next;
    if activated {
      forall j, k | 0 <= j < |r.tabs| && 0 <= k < |r.tabs| && j != k
        ensures !Shares(r.tabs[j], r.tabs[k])
      {
        assert !Shares(s.tabs[j], s.tabs[k]);
      }
      if IsRotating(r) {
        var ids, closedId := s.rotationState.tabIds, s.tabs[i].tabId;
        assert r.rotationState.tabIds == Without(ids, closedId);
        forall j | 0 <= j < |r.tabs|
          ensures Tracked(r.tabs[j], r.rotationState.tabIds)
        {
          var t := s.tabs[j];
          assert Tracked(t, ids);
          if j != i {
            assert !Shares(t, s.tabs[i]);
          }
          if r.tabs[j].tabId > 0 {
            WithoutKeeps(ids, closedId, r.tabs[j].tabId);
          }
          if r.tabs[j].nextTabId > 0 {
            WithoutKeeps(ids, closedId, r.tabs[j].nextTabId);
          }
        }
      }
    }
  }

  /** A fired refresh places only a fresh tab, and records it. */
  lemma RefreshTimerFiredKeepsWellFormed(s: Scheduler, i: nat, created: Option<int>)
    requires WellFormed(s)
    requires created.Some? ==> Fresh(s.tabs, created.value)
    ensures WellFormed(RefreshTimerFired(s, i, created).next)
  {
    var r := RefreshTimerFired(s, i, created).next;
    if i < |s.tabs| && s.tabs[i].reloadTimer.RefreshAfter? {
      var t := s.tabs[i];
      if t.nextTabId > 0 {
        HandlesKeepWellFormed(s, r);
      } else {
        var t' := r.tabs[i];
        assert t'.tabId == t.tabId || (created.Some? && t'.tabId == created.value);
        assert t'.nextTabId == t.nextTabId || (created.Some? && t'.nextTabId == created.value);
        forall j, k | 0 <= j < |r.tabs| && 0 <= k < |r.tabs| && j != k
          ensures !Shares(r.tabs[j], r.tabs[k])
        {
          assert !Shares(s.tabs[j], s.tabs[k]);
          if created.Some? {
            assert !Matches(s.tabs[j], created.value) && !Matches(s.tabs[k], created.value);
          }
        }
        if IsRotating(r) {
          var ids := s.rotationState.tabIds;
          var added := if t'.nextTabId > 0 then t'.nextTabId else t'.tabId;
          assert r.rotationState.tabIds == ids + [added];
          forall j | 0 <= j < |r.tabs|
            ensures Tracked(r.tabs[j], r.rotationState.tabIds)
          {
            assert Tracked(s.tabs[j], ids);
          }
        }
      }
    }
  }

  lemma StopRotationKeepsWellFormed(s: Scheduler)
    requires WellFormed(s)
    ensures WellFormed(StopRotation(s).next)
  {
    var r := StopRotation(s).next;
    forall j, k | 0 <= j < |r.tabs| && 0 <= k < |r.tabs| && j != k
      ensures !Shares(r.tabs[j], r.tabs[k])
    {
      assert !Shares(s.tabs[j], s.tabs[k]);
    }
  }

  /** A tick keeps the invariant whatever the browser answers. */
  lemma RotateTabsKeepsWellFormed(s: Scheduler, activated: bool)
    requires WellFormed(s)
    ensures WellFormed(RotateTabs(s, activated).next)
  {
    if IsRotating(s) && |s.tabs| == 0 {
      StopRotationKeepsWellFormed(s);
    } else if IsRotating(s) {
      match Scan(s.tabs, s.currentIndex, 0)
      case Found(j, _) =>
        if SwapsIn(s.tabs[j]) {
          OpenNextPageTabKeepsWellFormed(s.(currentIndex := j), j, activated);
        }
      case BackOff(j, _) =>
      case LapExhausted(j) =>
    }
  }
}
