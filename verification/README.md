# chrome-tab-rotator in Dafny

A model of the core of chrome-tab-rotator, a Chrome extension that cycles through
a configured list of web pages, one browser tab per page. The model covers:

- the background rotation service (`src/background/rotation.service.ts`). This is a
  state machine over *slots*, one per page. A slot holds a primary tab and
  optionally a freshly loaded replacement tab (`nextTabId`), each with a ready flag.
  A rotation tick scans for a ready slot and shows it, either by activating the
  primary tab or by a *hot swap* that promotes the replacement. Failed pages are
  retried once and then probed again after a recovery delay. When no page is
  ready, the service backs off for 120 seconds. It can also poll a remote
  configuration, and is meant to restart when the configuration changes.
- the earlier callback version of the same service (`src/rotation.service.ts`).
  It has one `skip` flag per slot instead of ready flags, and no back-off.
- the background script's event routing and popup message handler
  (`src/background/background.ts`).
- the configuration validator (`src/app/common/config-validator.service.ts`).
- the error classification of the two configuration loaders, and the switch that
  turns validation off in one of them.
- the " Dev" postfix the development build adds to the extension name.

Every entry point is a pure function over immutable data:

- the service state is a `Scheduler` value;
- calls into the browser come out as a list of `Command`s;
- what the browser answers comes in as a parameter: whether an activation
  succeeded, the id of a created tab, or how an initialization ended;
- timers are values. The rotation timer is `Disarmed` or `Armed(seconds)`. A slot
  timer is `NoReloadTimer`, `RefreshAfter(seconds)` or `RecoverAfter(seconds)`.
  A timer firing is its own transition (`RefreshTimerFired`, `RecoveryTimerFired`,
  `ReloadTimerFired`).

Modules, one per concern:

- `Models`: the records of `src/app/models` and the helpers both services share.
- `ReadyScan`: the ready-gated scan.
- `Rotation`: the background service.
- `ConfigPolling`: start plan and remote polling.
- `LegacyRotation`: the callback service.
- `Background`: event routing and message handler.
- `ConfigValidator`, `ConfigLoader`, `DevManifest`.
- `Strings`: the JavaScript string operations used.

The validator reads the page fields `delay` and `reloadInterval`
(`src/app/common/config-validator.service.ts:34`, `:38`). The page record declares
`delaySeconds` and `reloadIntervalSeconds` instead
(`src/app/models/page-config.model.ts:11-17`). The model follows the code: it
validates the fields the validator actually reads, with JavaScript's comparison
rules. An absent field is `undefined`, and `undefined < 3` is false, so an absent
delay or reload interval passes validation. A `null` field compares as 0, so a
`null` delay fails and a `null` reload interval passes. JSON numbers may be
fractional, so the number fields are reals.

## Model

| member | source | states |
|---|---|---|
| Models.RemoveReloadTimer | src/background/rotation.service.ts:558-565 | cancelling a slot's timer also zeroes its retry counter and leaves the tabs, ready flags and page alone |
| Models.RecoveryDelaySeconds | src/background/rotation.service.ts:299-304 | the recovery delay is the page's reload interval when that lies in (0,120), else 120; it is always in (0,120] |
| Models.SetRotationState | src/background/rotation.service.ts:318-348 | the write is skipped, and the state kept, exactly when the flag is unchanged and no ids are given; otherwise the flag is set and given ids replace the old list (same rule at src/rotation.service.ts:153-175) |
| Models.Without | src/background/rotation.service.ts:224-227 | filtering an id out of the persisted ids removes every copy of it and keeps every other id with its multiplicity |
| Models.IndexOf | src/background/rotation.service.ts:204-206 | `find` yields the first slot satisfying the test, or nothing when no slot does |
| ReadyScan.AnyReady | src/background/rotation.service.ts:28-34 | the `isAnyTabReady` getter: some slot has its primary or replacement loaded; `ScanCompletesWithinLap` shows it holds exactly when a scan finds a slot rather than backing off |
| ReadyScan.Advance | src/background/rotation.service.ts:379 | an index advance stays in [0,len) and equals old+1, wrapping to 0 after the last slot; the callback service steps its index with the same function |
| ReadyScan.Scan | src/background/rotation.service.ts:363-398 | the scan stops on a ready slot, and no slot nearer in rotation order is ready; or it stops on the last slot when no slot is ready; its index is always in range |
| ReadyScan.ScanFindsReady | src/background/rotation.service.ts:378-396 | when some slot is ready, the scan finds one within the advances left to it |
| ReadyScan.ScanBacksOff | src/background/rotation.service.ts:378-393 | when no slot is ready, the scan reaches the back-off point within the advances left to it |
| ReadyScan.ScanCompletesWithinLap | src/background/rotation.service.ts:28-34 | from any start index, one lap finds a ready slot exactly when one exists and otherwise reaches the back-off point, so the recursion never runs a second lap |
| Rotation.FindTab | src/background/rotation.service.ts:231-233 | an event's slot is the first one holding the tab as primary or replacement |
| Rotation.OnPageLoaded | src/background/rotation.service.ts:230-273 | an unknown tab or a different url changes nothing; otherwise only that slot changes: the loaded handle (the replacement when it matches) becomes ready, retries reset, and a refresh is armed exactly for a positive reload interval |
| Rotation.OnHandleError | src/background/rotation.service.ts:275-316 | below one retry, the counter goes up, the tab is pointed at the page again and the ready flags stay; otherwise the matched handle's ready flag clears, retries reset and a recovery probe is armed with the recovery delay |
| Rotation.ErrorThenLoadRecovers | src/background/rotation.service.ts:230-316 | after any error, a later load of the same page in the same tab makes the slot ready again with no retries pending |
| Rotation.TryRemoveTabFromRotationOnClose | src/background/rotation.service.ts:203-228 | closing a tab of the rotation clears that handle and its ready flag; the slot's timer is cancelled only when no handle is left; exactly that id leaves the persisted list |
| Rotation.StopRotation | src/background/rotation.service.ts:183-198 | stopping leaves the service not rotating, the persisted list empty and the index 0; it cancels the rotation timer and every slot timer, zeroes every retry counter and closes every persisted tab |
| Rotation.StopRotationIdempotent | src/background/rotation.service.ts:183-198 | stopping a stopped rotation changes nothing |
| Rotation.CreateTab | src/background/rotation.service.ts:495-524 | a created tab becomes the replacement when the slot has a primary, else the primary; a missing url, a pending replacement or a refused creation leave the slot as it was; a live handle is never overwritten |
| Rotation.RefreshTimerFired | src/background/rotation.service.ts:251-271 | a fired refresh reloads a pending replacement; otherwise it creates one and appends the slot's newest handle to the persisted ids |
| Rotation.RecoveryTimerFired | src/background/rotation.service.ts:306-312 | a fired recovery probe reloads the slot's primary tab and changes nothing else |
| Rotation.FailureThenProbeReloadsPrimary | src/background/rotation.service.ts:292-312 | after a page fails for good, the recovery probe reloads the slot's primary tab, not the replacement tab that failed |
| Rotation.OpenNextPageTab | src/background/rotation.service.ts:417-447 | after a successful activation, the replacement becomes the primary and is ready, the replacement handle is cleared and not ready, and the old primary is closed and leaves the persisted ids; a refused activation changes nothing |
| Rotation.ScheduleNextRotation | src/background/rotation.service.ts:401-412 | the index moves one past the shown slot, wrapping, and the rotation timer is armed with the page's delay |
| Rotation.RotateTabs | src/background/rotation.service.ts:350-399 | a tick does nothing when not rotating and stops when there are no slots; otherwise it ends with the index in range |
| Rotation.RotateTabsShowsFirstReady | src/background/rotation.service.ts:363-377 | with some slot ready, a tick shows the first ready slot in rotation order; it is a hot swap exactly when the replacement is set and ready, and the index then moves one past that slot |
| Rotation.RotateTabsBacksOff | src/background/rotation.service.ts:378-393 | with no slot ready, a tick ends on the last slot and waits 120 seconds on a plain promise, with no rotation timer pending; slots and persisted state are unchanged |
| Rotation.HandlesKeepWellFormed | src/background/rotation.service.ts:203-227 | the invariant (no tab in two places; while rotating, every live handle is persisted) depends only on the handles and the persisted state |
| Rotation.OnPageLoadedKeepsWellFormed | src/background/rotation.service.ts:230-273 | a load event keeps the invariant |
| Rotation.OnHandleErrorKeepsWellFormed | src/background/rotation.service.ts:275-316 | an error event keeps the invariant |
| Rotation.RecoveryTimerFiredKeepsWellFormed | src/background/rotation.service.ts:306-312 | a fired recovery probe keeps the invariant |
| Rotation.WithoutKeeps | src/background/rotation.service.ts:224-227 | filtering one id out keeps every other id |
| Rotation.TryRemoveKeepsWellFormed | src/background/rotation.service.ts:203-228 | closing a tab keeps the invariant: its handle and its id go together |
| Rotation.OpenNextPageTabKeepsWellFormed | src/background/rotation.service.ts:417-447 | a hot swap keeps the invariant: the promoted tab is already persisted and only the closed primary is dropped |
| Rotation.RefreshTimerFiredKeepsWellFormed | src/background/rotation.service.ts:251-271 | a fired refresh keeps the invariant when the browser's new tab id is fresh: the new handle is recorded |
| Rotation.StopRotationKeepsWellFormed | src/background/rotation.service.ts:183-198 | stopping keeps the invariant |
| Rotation.RotateTabsKeepsWellFormed | src/background/rotation.service.ts:350-399 | a tick keeps the invariant whatever the browser answers |
| ConfigPolling.PlanStart | src/background/rotation.service.ts:85-126 | polling is used exactly when remote settings exist with a url and a positive interval; the period is that many whole minutes in milliseconds |
| ConfigPolling.PollAsWritten | src/background/rotation.service.ts:98-115 | as written, a poll restarts exactly when the fetch differs from the recorded running configuration, and it never updates that record |
| ConfigPolling.PollAsWrittenRestartsEveryTime | src/background/rotation.service.ts:100 | as written, the same configuration fetched twice restarts the rotation both times |
| ConfigPolling.Poll | src/background/rotation.service.ts:98-115 | the corrected poll records the configuration it restarts with |
| ConfigPolling.PollIsIdempotent | src/background/rotation.service.ts:100 | with the correction, a second poll of the same fetch restarts nothing and changes nothing |
| ConfigPolling.InitialStart | src/background/rotation.service.ts:76-127 | no running configuration is ever recorded; without polling, the stored configuration starts; with polling, the first fetch starts exactly when it brings a configuration; `initialize` then awaits the rotation loop exactly when something started, and arms the poll interval at once exactly when polling found nothing |
| ConfigPolling.PollingAfterFailedStartRestartsEveryTime | src/background/rotation.service.ts:100-126 | after a failed first fetch the interval is armed and, as written, each later fetch of one same configuration restarts the rotation again |
| LegacyRotation.FindTab | src/rotation.service.ts:107 | an event's slot is the first one whose primary tab is the tab |
| LegacyRotation.OnPageLoaded | src/rotation.service.ts:104-120 | a matching load clears the skip flag, resets retries and arms a repeating reload for a positive interval; a mismatch changes nothing |
| LegacyRotation.OnHandleError | src/rotation.service.ts:122-151 | below one retry, the counter goes up and the tab is pointed at the page again; otherwise the slot is skipped, retries reset and a repeating recovery reload is armed with the recovery delay |
| LegacyRotation.ErrorThenLoadRejoins | src/rotation.service.ts:104-151 | after any error, a later load of the same page in the same tab makes the slot rejoin the rotation with no retries pending |
| LegacyRotation.ReloadTimerFired | src/rotation.service.ts:114-116 | a slot interval reloads the primary tab and stays armed |
| LegacyRotation.FailureThenIntervalReloads | src/rotation.service.ts:104-143 | after a page fails for good, each firing of the recovery interval reloads that tab and leaves the interval armed, until the page loads |
| LegacyRotation.TryRemoveTabFromRotation | src/rotation.service.ts:90-102 | closing a tab of the rotation skips its slot, cancels its timer and removes exactly that id from the persisted list |
| LegacyRotation.StopRotation | src/rotation.service.ts:79-88 | stopping resets the index to 0, clears the flag and the persisted ids, cancels the rotation timer and every slot timer and closes the persisted tabs |
| LegacyRotation.StopRotationIdempotent | src/rotation.service.ts:79-88 | stopping a stopped rotation changes nothing |
| LegacyRotation.SkipScan | src/rotation.service.ts:195-209 | a shown index is in range and not skipped; an invalid index is out of range |
| LegacyRotation.SkipScanOneLap | src/rotation.service.ts:202-204 | from an index in range, the scan shows a slot whenever a non-skipped slot lies within its fuel |
| LegacyRotation.SkipScanPassesOver | src/rotation.service.ts:202-204 | a skipped slot passes the scan on to the next slot, and the scan shows a slot when any slot is not skipped |
| LegacyRotation.SkipScanAllSkipped | src/rotation.service.ts:202-204 | when every slot is skipped, no amount of scanning shows one |
| LegacyRotation.RotateTabs | src/rotation.service.ts:177-210 | a non-skipped current slot is activated, the index advances by one modulo the slot count and the timer is armed with its delay; an index past the end throws; a tick that does not complete arms no timer |
| LegacyRotation.RotateTabsPassesOverSkipped | src/rotation.service.ts:202-204 | a skipped current slot is passed over without activation: the tick equals one started at the next index |
| LegacyRotation.RotateTabsAllSkipped | src/rotation.service.ts:196-204 | with every slot skipped, the synchronous self-call overflows the stack and the tick arms no timer, so the rotation does not resume |
| Background.OnEvent | src/background/background.ts:14-48 | navigation errors go to the error handler, completed loads to the load handler, closed tabs to the removal handler; the closed id leaves the persisted ids unless the event is ignored |
| Background.FlaggedOnly | src/background/rotation.service.ts:77-79 | a throwing `initialize` leaves the rotation flag set and nothing else changed |
| Background.OnMessage | src/background/background.ts:50-90 | start when idle answers "started" once `initialize` returns, "error" when it throws (the flag stays set), and nothing while the rotation it started runs; start when rotating answers "already rotating" and changes nothing; stop answers "stopped"; a state query answers the flag; anything else answers "unknown action"; "no response" is never sent |
| Background.FailedStartBlocksRestart | src/background/background.ts:54-67 | after a start whose initialization threw, the popup is told the rotation runs and a second start is refused, until a stop |
| Background.OnEventKeepsWellFormed | src/background/background.ts:14-48 | every browser event keeps the scheduler invariant |
| Background.OnMessageKeepsWellFormed | src/background/background.ts:50-90 | every message other than a start from idle keeps the scheduler invariant |
| Strings.TrimEmptyIffBlank | src/app/common/config-validator.service.ts:30 | trimming leaves nothing exactly when the string is all white space |
| ConfigValidator.UrlCheckFailsIffBlank | src/app/common/config-validator.service.ts:30 | the url check fails exactly when the url is missing or blank |
| ConfigValidator.FailedChecks | src/app/common/config-validator.service.ts:30-42 | all three checks run; the failing ones are listed once each, in the order url, delay, reloadInterval; none fails exactly when the page is valid |
| ConfigValidator.ValidatePageConfig | src/app/common/config-validator.service.ts:27-49 | a page passes exactly when its url is not blank, its delay is absent or a number of at least 3, and its reload interval is absent, `null` or a number of at least 0; otherwise it throws with the "Validation failed: " prefix |
| ConfigValidator.CollectErrors | src/app/common/config-validator.service.ts:51-59 | running one validation keeps every error collected so far and appends one error exactly when the page is rejected, namely that page's message; `MessagesFromInvalid` and `ErrorsFromInvalid` build on it |
| ConfigValidator.PageVerdicts | src/app/common/config-validator.service.ts:14-17 | every page is validated with its own index |
| ConfigValidator.InvalidFrom | src/app/common/config-validator.service.ts:14-17 | the rejected pages are listed in increasing page order, and only rejected pages are listed |
| ConfigValidator.InvalidFromComplete | src/app/common/config-validator.service.ts:14-17 | no rejected page is missed: checking continues past a failing page |
| ConfigValidator.MessagesFromInvalid | src/app/common/config-validator.service.ts:51-59 | there is one collected message per rejected page, that page's message, in page order |
| ConfigValidator.ErrorsFrom | src/app/common/config-validator.service.ts:14-17 | the page loop keeps what was already collected and adds at most one error per remaining page; `ErrorsFromInvalid` shows the added errors are exactly the rejected pages' messages in order |
| ConfigValidator.ErrorsFromInvalid | src/app/common/config-validator.service.ts:14-17 | the collection loop keeps what was already collected and appends the messages of the rejected pages in order |
| ConfigValidator.ConfigErrors | src/app/common/config-validator.service.ts:9-19 | missing pages give the single error "pages are undefined."; otherwise there is exactly one error per failing page, that page's message, in page order |
| ConfigValidator.PageErrorsPrefixed | src/app/common/config-validator.service.ts:45-48 | every collected page error starts with "Validation failed: " |
| ConfigValidator.NoErrorsIffValid | src/app/common/config-validator.service.ts:9-22 | errors are collected exactly when the configuration is not valid |
| ConfigValidator.ValidateConfigData | src/app/common/config-validator.service.ts:9-25 | a configuration is accepted exactly when pages are present and every page is valid; an empty list is accepted; otherwise the message is the prefix followed by the collected errors joined with spaces, so missing pages fail with "Validation failed: pages are undefined." and a failing page list carries the prefix twice |
| ConfigValidator.ValidationBoundaries | src/app/common/config-validator.service.ts:34-42 | a delay of 3 and a reload interval of 0 pass; a delay of 2.5, a reload interval of -1 or a `null` delay fail; a missing delay and a `null` reload interval pass |
| ConfigValidator.BlankUrlFails | src/app/common/config-validator.service.ts:30-32 | a url made only of white space fails whatever the other fields hold |
| ConfigLoader.DescribeLoadError | src/app/services/config-loader.service.ts:30-47 | status 0 gives the network suffix, 404 "File not found.", and 401 or 403 "Unauthorized."; any other status with the exact parse message gives "Invalid configuration data format."; anything else gives the prefix, a space and the error's message |
| ConfigLoader.StatusTakesPrecedence | src/app/services/config-loader.service.ts:33-43 | a named status decides the message whatever the error's message is |
| ConfigLoader.FallbackKeepsMessage | src/app/services/config-loader.service.ts:39-43 | in the fallback branch, the error's message can be read back after the prefix and a space |
| ConfigLoader.Rewrap | src/app/services/config-loader.service.ts:26-27 | a rewrapped validation error has no status and starts with "Failed to parse configuration data. " |
| ConfigLoader.RewrappedNeverInvalidFormat | src/app/services/config-loader.service.ts:24-40 | a rewrapped error never equals the exact parse message, so the "Invalid configuration data format." branch never fires for it |
| ConfigLoader.RewrappedMessage | src/app/services/config-loader.service.ts:26-43 | a rewrapped validation error is reported as a fixed head followed by the validator's message, unchanged |
| ConfigLoader.Reject | src/app/services/config-loader.service.ts:26-46 | a rejected body fails with exactly the load prefix, the parse message, "Error: " and the validator's message, in that order |
| ConfigLoader.LoadFromUrl | src/app/services/config-loader.service.ts:17-49 | a failed request is classified; with validation off, the body is returned as is; with it on, the body loads exactly when it is valid |
| ConfigLoader.LoadConfig | src/app/config-loader/config-loader.service.ts:16-46 | the same classification; the body is always validated and loads exactly when it is valid |
| ConfigLoader.LoadersAgree | src/app/config-loader/config-loader.service.ts:16-46 | the two loaders agree whenever `loadFromUrl` validates |
| DevManifest.SetDevName | scripts/set-dev-manifest-plugin.js:29-49 | the result always ends with " Dev"; a name already ending so is kept and nothing is written; otherwise the name gains exactly " Dev" and is written |
| DevManifest.SetDevNameIdempotent | scripts/set-dev-manifest-plugin.js:30-31 | applying the rule twice equals applying it once, and the second run writes nothing |
| DevManifest.SetDevNameReversible | scripts/set-dev-manifest-plugin.js:31 | dropping the postfix from a rewritten name gives the original name back |

## Left out

- Browser APIs. All `chrome.*` calls (tabs, storage, windows, webNavigation, action), the HTTP client and file I/O are outside the model. Their results are parameters: activation succeeded, created tab id, initialization outcome, HTTP result.
- Real timers and the awaited rotation loop. One tick is one transition. The all-pages-failed wait is a `WaitSeconds` command, and the recursive call after it is the next tick. Each tick awaits the next one (`src/background/rotation.service.ts:401-411`), so the start that began the loop stays pending; the model records that as `Running` and `awaitsRotation`, not the chain of promises.
- Startup code: `createTabs`, `waitForTabToLoad`, `startRotationProcess` and the fullscreen switch (`src/background/rotation.service.ts:134-181`, `:526-547`). They fan out concurrently, and slots are pushed in completion order, so the slot sequence is taken as given.
- `restorePreviousRotationState` and `loadActualConfigurationFromLocalStorage`. Their storage reads are inputs to `ConfigPolling.InitialStart`.
- The legacy service's `initialize`, `createTabs` and `initializeRotationProcess`. They are callback plumbing around storage and tab creation.
- `loadFromFile` and `saveToFile` in `src/app/services/config-loader.service.ts`. They are file-reader and download I/O.
- Angular UI components, the toolbar icon, `src/background.ts` and the build scripts other than the " Dev" rule.
- JavaScript `null`/`undefined` for whole objects. A missing `tabsConfig` and an empty slot list are handled the same way by every entry point, so both are the empty sequence. A missing `tabIds` list is the empty sequence.
- Background.OnMessage: the scheduler left by a start from idle that returns or keeps running is an input, because creating the tabs is outside the model. So the scheduler invariant is not claimed after such a start.
- ConfigPolling.InitialStart: `initialize` also returns, and then arms the poll interval, when the awaited rotation loop ends. That happens when a tick finds no slots, or when the 120-second back-off wait ends after a stop. The model does not follow the loop to that point.
- Rotation.StopRotation: the poll interval (`configUpdateInterval`) and a pending back-off wait are not cancelled by a stop (`src/background/rotation.service.ts:183-198`). Once the interval runs, the next successful poll after a user's stop calls `startRotation` (`:113`), and `startRotationProcess` sets the flag again (`:164-167`), so the rotation comes back. The poll interval is not part of the `Scheduler`, so this is not modelled.
- LegacyRotation.StopRotation: the poll interval (`configUpdateInterval`, `src/rotation.service.ts:60-67`) is cleared only by `initialize` (`:42-44`), never by a stop. Each later interval whose read finds a configuration stops again and creates a new set of tabs (`:61-66`), and `initializeRotationProcess` reaches `rotateTabs` again, so the rotation comes back after a user's stop and after `RotateTabsAllSkipped`. The poll interval is not part of the `Scheduler`, so this is not modelled.
- Models.PageConfig: `delaySeconds` and `reloadIntervalSeconds` are integers. No validator checks these two fields (the validator checks `delay` and `reloadInterval`), so a fractional value from JSON reaches the timers unchanged; fractional seconds are not modelled. A missing field acts as 0 at every use: a missing delay gives `NaN` milliseconds and the timer fires at once, and a missing interval arms no refresh and gives the 120-second recovery delay, so 0 stands for it.
- Background.OnMessage: the error branch of `stopRotation` (`src/background/background.ts:73-75`) is left out because it cannot be reached. `removeTabs` and `setRotationState` catch their own errors, so stopping never throws.
- Background.OnMessage: the error object sent with `{ status: 'error' }` is not modelled, only that an error response is sent.
- Rotation.RefreshTimerFired: the case where the fired callback throws is left out. Every awaited call in it catches its own errors.
- LegacyRotation.SkipScan: the scan is cut off after one lap. When every slot is skipped, the source's synchronous self-call recurses until the stack overflows and a `RangeError` is thrown. The model reports that as `StackOverflow`, with no resulting state: the index where the overflow stops depends on the engine's stack depth.
- ConfigValidator.ValidatePageConfig: JSON values of the wrong type are not modelled: a url that is not a string (its `trim` throws a `TypeError`, which is collected), and strings or booleans in the number fields (JavaScript converts them before comparing).
- ConfigPolling.PlanStart: the interval in minutes is an integer. A fractional minute count from JSON is not modelled.
- Fired one-shot timers are modelled as disarmed. The source keeps the stale handle, which has no further effect.
- DevManifest.SetDevName: failing to read or write the manifest only logs, so it is left out.

## Findings

| source | as written | input that shows it | evidently intended | confidence | as-written member | corrected member |
|---|---|---|---|---|---|---|
| src/background/rotation.service.ts:100 | `currentConfig` is declared (`:22`) and compared at `:100` but never assigned, so every successful poll counts as a change | remote polling on, a first fetch that fails (so the poll interval is armed), then the same remote configuration fetched on two later polls: the rotation is stopped and rebuilt both times | record the configuration the rotation restarts with, so that an unchanged remote configuration leaves the running rotation alone | high (not executed) | ConfigPolling.PollingAfterFailedStartRestartsEveryTime | ConfigPolling.PollIsIdempotent |
