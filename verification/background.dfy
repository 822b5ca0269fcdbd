/** The background script (src/background/background.ts): browser events routed
    to the rotation service, and the message handler the popup talks to. */
module Background {
  import opened Models
  import Rotation

  /** Browser events the background script listens to. */
  datatype BrowserEvent =
    | NavigationErrorOccurred(tabId: int, url: string)
    | NavigationCompleted(tabId: int, url: string)
    | TabRemoved(tabId: int)

  /** Each event goes to its handler in the rotation service; handler failures are swallowed. */
  function OnEvent(s: Scheduler, e: BrowserEvent): (r: Step)
    ensures e.NavigationErrorOccurred? ==> r == Rotation.OnHandleError(s, e.tabId, e.url)
    ensures e.NavigationCompleted? ==> r == Step(Rotation.OnPageLoaded(s, e.tabId, e.url), [])
    ensures e.TabRemoved? ==> r == Step(Rotation.TryRemoveTabFromRotationOnClose(s, e.tabId), [])
    ensures !e.TabRemoved? ==> r.next.rotationState == s.rotationState
    ensures e.TabRemoved? ==> e.tabId !in r.next.rotationState.tabIds || r.next == s
    ensures r.next.currentIndex == s.currentIndex && |r.next.tabs| == |s.tabs|
    ensures IsRotating(r.next) == IsRotating(s)
  {
    match e
    case NavigationErrorOccurred(tabId, url) => Rotation.OnHandleError(s, tabId, url)
    case NavigationCompleted(tabId, url) => Step(Rotation.OnPageLoaded(s, tabId, url), [])
    case TabRemoved(tabId) => Step(Rotation.TryRemoveTabFromRotationOnClose(s, tabId), [])
  }

  /** The response sent back for a message. */
  datatype Response =
      /** `{ status: text }` */
    | Status(text: string)
      /** `{ status: 'error', message: error }`; the error object is not modelled */
    | ErrorStatus
      /** `{ isRotating }` */
    | RotationStatus(isRotating: bool)

  /** How the awaited `initialize` call went. Loading the configuration and
      creating the tabs are outside the model; what they lead to is the input. */
  datatype Initialization =
      /** `initialize` returned, with the scheduler it left: the first fetch
          started nothing, or the rotation loop it awaited has ended */
    | Settled(next: Scheduler)
      /** the rotation runs, with the scheduler given, and `initialize` is still
          awaiting its loop: every tick awaits the next one */
    | Running(next: Scheduler)
      /** reading the stored configuration threw; the rotation flag had already
          been set */
    | StoredConfigMissing

  /** The state `initialize` leaves when it throws: `setRotationState(true)` has
      run, nothing else has. */
  function FlaggedOnly(s: Scheduler): (r: Scheduler)
    ensures IsRotating(r)
    ensures r.rotationState.tabIds == s.rotationState.tabIds
    ensures r.tabs == s.tabs && r.currentIndex == s.currentIndex && r.rotationTimer == s.rotationTimer
  {
    s.(rotationState := SetRotationState(s.rotationState, true, None).state)
  }

  /** The scheduler after the message, the browser calls made, and the response
      sent, if any. */
  datatype Reply = Reply(next: Scheduler, commands: seq<Command>, response: Option<Response>)

  /** The message handler: a start request when idle initializes and answers
      once `initialize` returns; when already rotating it only answers; a stop
      request stops; a state query answers the flag; anything else is an unknown
      action. Only a start whose rotation is running goes unanswered. */
  function OnMessage(s: Scheduler, action: string, init: Initialization): (r: Reply)
    ensures r.response != Some(Status("no response"))
    ensures r.response.None? <==> action == "rotateTabs" && !IsRotating(s) && init.Running?
    ensures action == "rotateTabs" && !IsRotating(s) ==>
              && r.commands == []
              && (init.Settled? ==> r.next == init.next && r.response == Some(Status("started")))
              && (init.Running? ==> r.next == init.next)
              && (init.StoredConfigMissing? ==> r.next == FlaggedOnly(s) && r.response == Some(ErrorStatus))
    ensures action == "rotateTabs" && IsRotating(s) ==>
              r == Reply(s, [], Some(Status("already rotating")))
    ensures action == "stopRotation" ==>
              && !IsRotating(r.next) && r.next.rotationState.tabIds == [] && r.next.currentIndex == 0
              && r.commands == [RemoveTabs(s.rotationState.tabIds)]
              && r.response == Some(Status("stopped"))
    ensures action == "getRotationState" ==> r == Reply(s, [], Some(RotationStatus(IsRotating(s))))
    ensures action !in {"rotateTabs", "stopRotation", "getRotationState"} ==>
              r == Reply(s, [], Some(Status("unknown action")))
  {
    if action == "rotateTabs" then
      if IsRotating(s) then Reply(s, [], Some(Status("already rotating")))
      else
        match init
        case Settled(next) => Reply(next, [], Some(Status("started")))
        case Running(next) => Reply(next, [], None)
        case StoredConfigMissing => Reply(FlaggedOnly(s), [], Some(ErrorStatus))
    else if action == "stopRotation" then
      var stopped := Rotation.StopRotation(s);
      Reply(stopped.next, stopped.commands, Some(Status("stopped")))
    else if action == "getRotationState" then
      Reply(s, [], Some(RotationStatus(IsRotating(s))))
    else Reply(s, [], Some(Status("unknown action")))
  }

  /** A start whose initialization threw leaves the flag set: the popup is then
      told the rotation runs, and a second start is refused, until a stop. */
  lemma FailedStartBlocksRestart(s: Scheduler, init: Initialization)
    requires !IsRotating(s)
    ensures var failed := OnMessage(s, "rotateTabs", StoredConfigMissing).next;
            && OnMessage(failed, "getRotationState", init).response == Some(RotationStatus(true))
            && OnMessage(failed, "rotateTabs", init).response == Some(Status("already rotating"))
            && OnMessage(OnMessage(failed, "stopRotation", init).next, "rotateTabs", init).response
               != Some(Status("already rotating"))
  {
  }

  /** Browser events keep the scheduler invariant. */
  lemma OnEventKeepsWellFormed(s: Scheduler, e: BrowserEvent)
    requires Rotation.WellFormed(s)
    ensures Rotation.WellFormed(OnEvent(s, e).next)
  {
    match e
    case NavigationErrorOccurred(tabId, url) => Rotation.OnHandleErrorKeepsWellFormed(s, tabId, url);
    case NavigationCompleted(tabId, url) => Rotation.OnPageLoadedKeepsWellFormed(s, tabId, url);
    case TabRemoved(tabId) => Rotation.TryRemoveKeepsWellFormed(s, tabId);
  }

  /** Every message keeps the scheduler invariant, except a start from idle,
      whose outcome comes from outside the model: its scheduler is an input. */
  lemma OnMessageKeepsWellFormed(s: Scheduler, action: string, init: Initialization)
    requires Rotation.WellFormed(s)
    requires action == "rotateTabs" ==> IsRotating(s)
    ensures Rotation.WellFormed(OnMessage(s, action, init).next)
  {
    if action == "stopRotation" {
      Rotation.StopRotationKeepsWellFormed(s);
    }
  }
}
