/** How the background rotation service starts from its stored settings and how
    it reacts to each fetch of the remote configuration
    (src/background/rotation.service.ts, initialize). Fetching and validating are
    outside the model: a poll receives the fetched configuration, or None when the
    fetch or its validation failed. */
module ConfigPolling {
  import opened Models

  /** How `initialize` proceeds once the stored configuration is loaded. */
  datatype StartPlan =
    | StartOnce
      /** fetch from `configUrl` now; once that first fetch-and-start returns,
          fetch again every `intervalMs` milliseconds */
    | PollEvery(configUrl: string, intervalMs: int)

  const MillisecondsPerMinute: int := 60 * 1000

  /** Polling is used only when remote settings exist, name a url, and ask for a
      positive reload interval; the interval is then that many whole minutes. */
  function PlanStart(settings: Option<RemoteSettings>): (p: StartPlan)
    ensures p.PollEvery? <==>
              settings.Some? && settings.value.configUrl != "" && settings.value.configReloadIntervalMinutes > 0
    ensures p.PollEvery? ==> p.configUrl == settings.value.configUrl
    ensures p.PollEvery? ==> p.intervalMs >= MillisecondsPerMinute
    ensures p.PollEvery? ==> p.intervalMs % MillisecondsPerMinute == 0
    ensures p.PollEvery? ==> p.intervalMs / MillisecondsPerMinute == settings.value.configReloadIntervalMinutes
  {
    if settings.None? || settings.value.configUrl == "" || !(settings.value.configReloadIntervalMinutes > 0)
    then StartOnce
    else PollEvery(settings.value.configUrl, settings.value.configReloadIntervalMinutes * 60 * 1000)
  }

  /** What a poll remembers: the configuration the rotation runs on, and the
      copy of the remote configuration kept in storage. */
  datatype Poller = Poller(currentConfig: Option<ConfigData>, storedRemoteConfig: Option<ConfigData>)

  /** A poll's outcome: the new poller and, when the rotation is rebuilt, the configuration it restarts with. */
  datatype PollResult = PollResult(poller: Poller, restart: Option<ConfigData>)

  /** A fetched configuration differs from the running one (structural equality;
      nothing running never equals a fetched configuration). */
  predicate Changed(current: Option<ConfigData>, fetched: Option<ConfigData>) {
    fetched.Some? && current != fetched
  }

  /** A poll as the service performs it: a changed configuration is stored and
      the rotation restarts with it, but the running configuration is never
      recorded, so `currentConfig` keeps its initial value. */
  function PollAsWritten(p: Poller, fetched: Option<ConfigData>): (r: PollResult)
    ensures r.poller.currentConfig == p.currentConfig
    ensures r.restart.Some? <==> Changed(p.currentConfig, fetched)
    ensures r.restart.Some? ==> Some(r.restart.value) == fetched && r.poller.storedRemoteConfig == fetched
    ensures r.restart.None? ==> r.poller == p
  {
    if Changed(p.currentConfig, fetched) then
      PollResult(p.(storedRemoteConfig := fetched), Some(fetched.value))
    else PollResult(p, None)
  }

  /** Since the service starts with no running configuration and never records
      one, every successful fetch restarts the rotation, even when the fetched
      configuration is the one already running. */
  lemma PollAsWrittenRestartsEveryTime(c: ConfigData)
    ensures var first := PollAsWritten(Poller(None, None), Some(c));
            var second := PollAsWritten(first.poller, Some(c));
            first.restart == Some(c) && second.restart == Some(c)
  {
  }

  /** A poll that records the configuration it restarts with, so that the next
      poll compares against what is actually running. */
  function Poll(p: Poller, fetched: Option<ConfigData>): (r: PollResult)
    ensures r.restart.Some? <==> Changed(p.currentConfig, fetched)
    ensures r.restart.Some? ==> Some(r.restart.value) == fetched
    ensures r.restart.Some? ==> r.poller == Poller(fetched, fetched)
    ensures r.restart.None? ==> r.poller == p
    ensures fetched.Some? ==> r.poller.currentConfig == fetched
  {
    if Changed(p.currentConfig, fetched) then PollResult(Poller(fetched, fetched), Some(fetched.value))
    else PollResult(p, None)
  }

  /** Reconciling twice with the same fetch rebuilds at most once: the second
      poll changes nothing and restarts nothing. */
  lemma PollIsIdempotent(p: Poller, fetched: Option<ConfigData>)
    ensures var once := Poll(p, fetched);
            Poll(once.poller, fetched) == PollResult(once.poller, None)
  {
  }

  /** What `initialize` does once the stored configuration is loaded: the first
      poll (the stored configuration counts as fetched when there is no polling),
      whether it then waits on the rotation loop, and whether the poll interval
      gets armed. Starting a rotation awaits `rotateTabs`, which awaits every later
      tick, so `initialize` does not return while the rotation runs; the interval
      is armed right away only when the first fetch started nothing. */
  datatype InitialRun = InitialRun(poll: PollResult, awaitsRotation: bool, pollingArmed: bool)

  /** How `initialize` starts, as written: the stored configuration when it does
      not poll; otherwise only what the first fetch brings, so a failed first fetch
      starts nothing even though a stored remote configuration was loaded. The
      running configuration is never recorded. */
  function InitialStart(settings: Option<RemoteSettings>, loaded: ConfigData, firstFetch: Option<ConfigData>): (r: InitialRun)
    ensures r.poll.poller.currentConfig == None
    ensures r.poll.poller.storedRemoteConfig == if PlanStart(settings).PollEvery? then firstFetch else None
    ensures PlanStart(settings).StartOnce? ==> r.poll.restart == Some(loaded) && !r.pollingArmed
    ensures PlanStart(settings).PollEvery? ==> r.poll.restart == firstFetch
    ensures r.awaitsRotation <==> r.poll.restart.Some?
    ensures r.pollingArmed <==> PlanStart(settings).PollEvery? && firstFetch.None?
  {
    match PlanStart(settings)
    case StartOnce => InitialRun(PollResult(Poller(None, None), Some(loaded)), true, false)
    case PollEvery(_, _) =>
      var first := PollAsWritten(Poller(None, None), firstFetch);
      InitialRun(first, first.restart.Some?, first.restart.None?)
  }

  /** Polls only run after a failed first fetch; from then on, as written, every
      successful fetch of one and the same configuration restarts the rotation. */
  lemma PollingAfterFailedStartRestartsEveryTime(settings: Option<RemoteSettings>, loaded: ConfigData, c: ConfigData)
    requires PlanStart(settings).PollEvery?
    ensures var init := InitialStart(settings, loaded, None);
            var second := PollAsWritten(init.poll.poller, Some(c));
            var third := PollAsWritten(second.poller, Some(c));
            && init.pollingArmed && !init.awaitsRotation && init.poll.restart.None?
            && second.restart == Some(c) && third.restart == Some(c)
  {
    var init := InitialStart(settings, loaded, None);
    assert init.poll.poller == Poller(None, None);
    PollAsWrittenRestartsEveryTime(c);
  }
}
