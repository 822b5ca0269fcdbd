/** Data model shared by both rotation services: the records of src/app/models,
    the per-tab slot with the fields the services add to it at run time, and the
    small state helpers both services use in the same way. */
module Models {

  datatype Option<+T> = None | Some(value: T)

  /** One page of a rotation configuration. */
  datatype PageConfig = PageConfig(url: string, delaySeconds: int, reloadIntervalSeconds: int)

  /** A rotation configuration: pages in rotation order. */
  datatype ConfigData = ConfigData(pages: seq<PageConfig>, isFullscreen: bool)

  /** Where a remote configuration lives and how often it is fetched again. */
  datatype RemoteSettings = RemoteSettings(configUrl: string, configReloadIntervalMinutes: int)

  /** The persisted part of the scheduler: survives a restart of the extension. */
  datatype RotationState = RotationState(isRotating: bool, tabIds: seq<int>)

  /** A one-shot timer: nothing pending, or due after `seconds`. */
  datatype Timer = Disarmed | Armed(seconds: int)

  /** What a slot's reload timer will do when it fires. */
  datatype ReloadTimer =
    | NoReloadTimer
      /** armed when the page loaded: refresh the page after `seconds` */
    | RefreshAfter(seconds: int)
      /** armed when the page failed for good: probe it again after `seconds` */
    | RecoverAfter(seconds: int)

  /** One slot of the rotation. A tab id of `NoTab` means "no tab". */
  datatype TabConfig = TabConfig(
    page: PageConfig,
    tabId: int,
    nextTabId: int,
    active: bool,
    skip: bool,
    tabIdReady: bool,
    nextTabIdReady: bool,
    retryCount: int,
    reloadTimer: ReloadTimer)

  /** Scheduler state of a rotation service; `rotationState` is what gets persisted. */
  datatype Scheduler = Scheduler(
    rotationState: RotationState,
    currentIndex: nat,
    rotationTimer: Timer,
    tabs: seq<TabConfig>)

  /** A call the service makes into the browser. */
  datatype Command =
    | ActivateTab(tabId: int)
    | RemoveTabs(tabIds: seq<int>)
    | ReloadTab(tabId: int)
    | NavigateTab(tabId: int, url: string)
    | NewTab(url: string, active: bool)
    | WaitSeconds(seconds: int)

  /** The effect of one entry point: the next state and the browser calls made on the way. */
  datatype Step = Step(next: Scheduler, commands: seq<Command>)

  const NoTab: int := 0
  const MaxRetries: int := 1
  const DefaultFailedPageReloadIntervalSeconds: int := 120
  const DefaultAllPagesFailedWaitIntervalSeconds: int := 120

  function IsRotating(s: Scheduler): bool {
    s.rotationState.isRotating
  }

  /** Everything a slot holds apart from its retry counter and its reload timer. */
  predicate SameHandles(a: TabConfig, b: TabConfig) {
    && a.page == b.page
    && a.tabId == b.tabId
    && a.nextTabId == b.nextTabId
    && a.active == b.active
    && a.skip == b.skip
    && a.tabIdReady == b.tabIdReady
    && a.nextTabIdReady == b.nextTabIdReady
  }

  /** The slots of `r` are those of `s` except possibly slot `i`. */
  predicate OtherSlotsUnchanged(s: Scheduler, r: Scheduler, i: nat) {
    && |r.tabs| == |s.tabs|
    && forall j :: 0 <= j < |s.tabs| && j != i ==> r.tabs[j] == s.tabs[j]
  }

  /** Scheduler fields other than the slots are untouched. */
  predicate SameRun(s: Scheduler, r: Scheduler) {
    && r.rotationState == s.rotationState
    && r.currentIndex == s.currentIndex
    && r.rotationTimer == s.rotationTimer
  }

  /** Cancelling a slot's reload timer also forgets its failed attempts. */
  function RemoveReloadTimer(t: TabConfig): (r: TabConfig)
    ensures SameHandles(r, t)
    ensures r.retryCount == 0
    ensures r.reloadTimer == NoReloadTimer
  {
    t.(retryCount := 0, reloadTimer := NoReloadTimer)
  }

  /** Delay before a page that failed for good is probed again: its own reload
      interval when that is positive and shorter than the default, else the default. */
  function RecoveryDelaySeconds(reloadIntervalSeconds: int): (d: int)
    ensures 0 < d <= DefaultFailedPageReloadIntervalSeconds
    ensures 0 < reloadIntervalSeconds < DefaultFailedPageReloadIntervalSeconds ==> d == reloadIntervalSeconds
    ensures !(0 < reloadIntervalSeconds < DefaultFailedPageReloadIntervalSeconds) ==>
              d == DefaultFailedPageReloadIntervalSeconds
  {
    if reloadIntervalSeconds > 0 && DefaultFailedPageReloadIntervalSeconds > reloadIntervalSeconds
    then reloadIntervalSeconds
    else DefaultFailedPageReloadIntervalSeconds
  }

  /** The persisted state after a write request, and whether anything was written. */
  datatype Persisted = Persisted(state: RotationState, written: bool)

  /** Writing the rotation state: skipped when the flag is unchanged and no ids are
      given; otherwise the flag is set and the ids, when given, replace the old ones. */
  function SetRotationState(rs: RotationState, rotating: bool, tabIds: Option<seq<int>>): (r: Persisted)
    ensures r.state.isRotating == rotating
    ensures tabIds.Some? ==> r.state.tabIds == tabIds.value
    ensures tabIds.None? ==> r.state.tabIds == rs.tabIds
    ensures r.written <==> rs.isRotating != rotating || tabIds.Some?
    ensures !r.written ==> r.state == rs
  {
    if rs.isRotating == rotating && tabIds.None? then
      Persisted(rs, false)
    else
      var flagged := rs.(isRotating := rotating);
      Persisted(if tabIds.Some? then flagged.(tabIds := tabIds.value) else flagged, true)
  }

  /** `ids` without any occurrence of `id`, the rest in their original order. */
  function Without(ids: seq<int>, id: int): (r: seq<int>)
    ensures id !in r
    ensures multiset(r) == multiset(ids)[id := 0]
    ensures |r| <= |ids|
  {
    if |ids| == 0 then []
    else
      assert ids == [ids[0]] + ids[1..];
      if ids[0] == id then Without(ids[1..], id) else [ids[0]] + Without(ids[1..], id)
  }

  /** Index of the first slot satisfying `p`, if any (Array.prototype.find). */
  function IndexOf(tabs: seq<TabConfig>, p: TabConfig -> bool): (r: Option<nat>)
    ensures r.Some? ==> r.value < |tabs| && p(tabs[r.value])
    ensures r.Some? ==> forall j :: 0 <= j < r.value ==> !p(tabs[j])
    ensures r.None? ==> forall j :: 0 <= j < |tabs| ==> !p(tabs[j])
  {
    if |tabs| == 0 then None
    else if p(tabs[0]) then Some(0)
    else match IndexOf(tabs[1..], p)
      case None => None
      case Some(k) => Some(k + 1)
  }
}
