/** Following a job's log while waiting for it (internal/progresslog/logger.go
    and internal/k8s/job.go): four goroutines, one channel of one slot and three
    contexts, interleaved in any order. */
module Follower {
  import opened Outcome

  const BAR_MAXIMUM := 100
  const STREAMED_MAXIMUM := BAR_MAXIMUM - 1

  datatype Update = Update(percentage: int, transferred: int)

  /** Why the waiting goroutine stops the follower. */
  datatype Why = Failed | Succeeded | Aborted

  datatype MainAt =
    | Waiting            // for the pod to end
    | Marking            // in MarkAsComplete's select
    | Stopping(why: Why) // about to cancel the tail
    | Joining(why: Why)  // in the errgroup's Wait
    | Joined(why: Why)
    | Returning(why: Why) // only the deferred stop is left
    | Returned(why: Why)

  datatype StartAt = Looping | Opening | Streaming | BackingOff | Ended(error: Option<nat>)

  datatype TailAt = NoTail | Scanning | Sending(line: Option<Update>) | TailEnded(canceled: bool)

  datatype HandlerAt = NoHandler | Selecting | HandlerEnded

  /** What the cluster says of the pod. Any end but success counts as a failure. */
  datatype Phase = PodRuns | PodSucceeded | PodFailed

  /** The pod and its log: whether a stream of it has been asked for, the last
      one with TailLines 0, and whether the open one has nothing to send. */
  datatype Log = Log(phase: Phase, streamedOnce: bool, tailOnly: bool, silent: bool)

  /** The bar and the writer it is drawn on. */
  datatype Screen = Screen(
    showBar: bool,
    bar: Option<int>, transferred: int, finished: bool,
    finishes: nat,   // calls of the bar's Finish
    lineEnded: bool, // the join has ended the line the bar was on
    mainWrote: bool, // the waiting goroutine has used the writer
    tangled: bool    // the follower used it after that, or it while not joined
  )

  datatype State = State(
    main: MainAt, start: StartAt, tail: TailAt, handler: HandlerAt,
    runDone: bool, tailDone: bool, attemptDone: bool, // the contexts
    token: bool,                                      // what is in successCh
    handled: bool,                                    // the handler took the token
    barOpen: bool, stopped: bool,
    screen: Screen,
    told: seq<Option<nat>>,                           // what each stop of the follower returned
    log: Log
  )

  function Initial(showBar: bool): State {
    State(Waiting, Looping, NoTail, NoHandler, false, false, false, false, false, showBar, false,
          Screen(showBar, None, 0, false, 0, false, false, false), [], Log(PodRuns, false, false, false))
  }

  predicate TailCanceled(s: State) { s.runDone || s.tailDone }

  predicate AttemptCanceled(s: State) { TailCanceled(s) || s.attemptDone }

  predicate Rendered(s: Screen) { s.transferred > 0 || s.finished }

  /** Start of logger.go returns nil only, but its caller is written for one that
      fails, so LoopFails lets it. */
  datatype StartEvent =
    | LoopSeesDone | LoopTakesToken | LoopFails(error: nat) | LoopOpens | RetryDue
    | OpenFails(canceled: bool) | Opens | AttemptEnds

  datatype TailEvent = Reads(line: Option<Update>) | TailEnds(canceled: bool)

  datatype HandlerEvent = HandlerSeesDone | HandlerTakesToken | HandlerReceives

  datatype MainEvent = WaitFails | PodSeen | MarkCanceled | Marks | Stops | Joins | Concludes

  /** Who moves next, and how; or the whole run is cancelled, or the pod ends. */
  datatype Event =
    | RunCanceled
    | PodEnds(well: bool)
    | ByStart(start: StartEvent)
    | ByTail(tail: TailEvent)
    | ByHandler(handler: HandlerEvent)
    | ByMain(main: MainEvent)

  /** A line's progress, if it parses, moves the bar, but never back and never
      to its end. */
  function Handle(s: Screen, line: Option<Update>): Screen {
    if line.None? || !s.showBar || line.value.transferred < s.transferred then s
    else
      var percentage := line.value.percentage;
      s.(transferred := line.value.transferred,
         bar := Some(if percentage < STREAMED_MAXIMUM then percentage else STREAMED_MAXIMUM),
         tangled := s.tangled || s.mainWrote)
  }

  function Finish(s: Screen): Screen { s.(finished := true, finishes := s.finishes + 1, bar := Some(BAR_MAXIMUM)) }

  /** The handler's answer to the token. */
  function HandlerFinish(s: Screen): Screen {
    if s.showBar && !s.finished then Finish(s).(tangled := s.tangled || s.mainWrote) else s
  }

  function MainWrites(s: Screen, joined: bool): Screen { s.(mainWrote := true, tangled := s.tangled || !joined) }

  /** The bar leaves its line open until Finish; whoever stops the follower before
      that ends it. */
  function EndLine(s: Screen, joined: bool): Screen { MainWrites(s, joined).(lineEnded := true) }

  /** FinishBar, for a token the handler did not get to. */
  function FinishBar(s: Screen, joined: bool): Screen {
    if s.bar.None? || s.finished || s.transferred == 0 then s else MainWrites(Finish(s), joined)
  }

  /** After the join: the tail of a failed job's log, or the bar's end and the
      warning about vanished files, unless the follower failed. */
  function ConcludedScreen(s: Screen, why: Why, start: StartAt): Screen {
    match why
    case Aborted => s
    case Failed => MainWrites(s, start.Ended?)
    case Succeeded =>
      if start.Ended? && start.error.Some? then s
      else MainWrites(FinishBar(s, start.Ended?), start.Ended?)
  }

  function Conclude(s: State): State
    requires s.main.Joined?
  {
    var why := s.main.why;
    s.(main := if why.Aborted? then Returned(why) else Returning(why),
       screen := ConcludedScreen(s.screen, why, s.start))
  }

  predicate StartCan(s: State, e: StartEvent) {
    match e
    case LoopSeesDone => (s.start.Looping? || s.start.BackingOff?) && TailCanceled(s)
    case LoopTakesToken => (s.start.Looping? || s.start.BackingOff?) && s.token
    case LoopFails(_) => s.start.Looping? || s.start.BackingOff?
    case LoopOpens => s.start.Looping? && !TailCanceled(s) && !s.token
    case RetryDue => s.start.BackingOff?
    case OpenFails(_) => s.start.Opening?
    case Opens => s.start.Opening?
    case AttemptEnds => s.start.Streaming? && s.tail.TailEnded? && s.handler.HandlerEnded?
  }

  /** Every stream but the first is asked for without what is in the log already;
      once the pod has ended that is a stream without lines. */
  function StartStep(s: State, e: StartEvent): State
    requires StartCan(s, e)
  {
    match e
    case LoopSeesDone => s.(start := Ended(None))
    case LoopTakesToken => s.(token := false, start := Ended(None))
    case LoopFails(error) => s.(start := Ended(Some(error)))
    case LoopOpens => s.(start := Opening, log := s.log.(tailOnly := s.log.streamedOnce, streamedOnce := true))
    case RetryDue => s.(start := Looping)
    case OpenFails(canceled) => s.(start := if canceled then Ended(None) else BackingOff)
    case Opens =>
      s.(start := Streaming, tail := Scanning, handler := Selecting, attemptDone := false,
         log := s.log.(silent := s.log.tailOnly && !s.log.phase.PodRuns?),
         screen := if s.screen.showBar && s.screen.bar.None? then s.screen.(bar := Some(0)) else s.screen)
    case AttemptEnds =>
      s.(start := if s.tail.canceled then Ended(None) else BackingOff, tail := NoTail, handler := NoHandler)
  }

  predicate TailCan(s: State, e: TailEvent) {
    match e
    case Reads(_) => s.tail.Scanning? && !s.log.silent
    case TailEnds(canceled) => s.tail.Scanning? || (s.tail.Sending? && AttemptCanceled(s))
  }

  function TailStep(s: State, e: TailEvent): State
    requires TailCan(s, e)
  {
    match e
    case Reads(line) => s.(tail := Sending(line))
    case TailEnds(canceled) => s.(tail := TailEnded(canceled), attemptDone := true)
  }

  predicate HandlerCan(s: State, e: HandlerEvent) {
    s.handler.Selecting? &&
    match e
    case HandlerSeesDone => AttemptCanceled(s)
    case HandlerTakesToken => s.token
    case HandlerReceives => s.tail.Sending?
  }

  function HandlerStep(s: State, e: HandlerEvent): State
    requires HandlerCan(s, e)
  {
    match e
    case HandlerSeesDone => s.(handler := HandlerEnded, attemptDone := true)
    case HandlerTakesToken =>
      s.(screen := HandlerFinish(s.screen), token := false, handled := true,
         handler := HandlerEnded, attemptDone := true)
    case HandlerReceives => s.(screen := Handle(s.screen, s.tail.line), tail := Scanning)
  }

  /** The same function at every call: nil at once if it has run before,
      otherwise it cancels the tail and goes on to the join. */
  function StopFollower(s: State): State
    requires s.main.Stopping? || s.main.Returning?
  {
    if s.stopped then s.(told := s.told + [None], main := Returned(s.main.why))
    else s.(stopped := true, tailDone := true, main := Joining(s.main.why))
  }

  predicate MainCan(s: State, e: MainEvent) {
    match e
    case WaitFails => s.main.Waiting?
    case PodSeen => s.main.Waiting? && !s.log.phase.PodRuns?
    case MarkCanceled => s.main.Marking? && s.runDone
    case Marks => s.main.Marking? && !s.token
    case Stops => s.main.Stopping? || s.main.Returning?
    case Joins => s.main.Joining? && s.start.Ended?
    case Concludes => s.main.Joined?
  }

  function MainStep(s: State, e: MainEvent): State
    requires MainCan(s, e)
  {
    match e
    case WaitFails => s.(main := Stopping(Aborted))
    case PodSeen => s.(main := if s.log.phase != PodSucceeded then Stopping(Failed) else Marking)
    case MarkCanceled => s.(main := Stopping(Aborted))
    case Marks => s.(token := true, barOpen := false, main := Stopping(Succeeded))
    case Stops => StopFollower(s)
    case Joins =>
      s.(told := s.told + [s.start.error], main := Joined(s.main.why),
         screen := if s.barOpen && Rendered(s.screen) then EndLine(s.screen, s.start.Ended?) else s.screen)
    case Concludes => Conclude(s)
  }

  predicate Possible(s: State, e: Event) {
    match e
    case RunCanceled => true
    case PodEnds(_) => s.log.phase.PodRuns?
    case ByStart(start) => StartCan(s, start)
    case ByTail(tail) => TailCan(s, tail)
    case ByHandler(handler) => HandlerCan(s, handler)
    case ByMain(main) => MainCan(s, main)
  }

  function Step(s: State, e: Event): State
    requires Possible(s, e)
  {
    match e
    case RunCanceled => s.(runDone := true)
    case PodEnds(well) => s.(log := s.log.(phase := if well then PodSucceeded else PodFailed))
    case ByStart(start) => StartStep(s, start)
    case ByTail(tail) => TailStep(s, tail)
    case ByHandler(handler) => HandlerStep(s, handler)
    case ByMain(main) => MainStep(s, main)
  }

  // ---- what holds in every interleaving

  /** The two goroutines of an attempt live only while Start waits for them. */
  predicate AttemptInv(s: State) {
    (s.tail.NoTail? <==> !s.start.Streaming?) && (s.handler.NoHandler? <==> !s.start.Streaming?)
  }

  /** The bar reaches its end only by Finish, which runs once. */
  predicate BarInv(s: State) {
    && s.screen.finishes == (if s.screen.finished then 1 else 0)
    && (s.screen.bar.None? ==> s.screen.transferred == 0 && !s.screen.finished)
    && (!s.screen.showBar ==> s.screen.bar.None?)
    && (s.screen.bar.Some? && !s.screen.finished ==> s.screen.bar.value <= STREAMED_MAXIMUM)
    && s.screen.transferred >= 0
    && (s.screen.showBar && s.start.Streaming? ==> s.screen.bar.Some?)
    && (s.screen.finished ==> s.handled || s.main == Returning(Succeeded) || s.main == Returned(Succeeded))
    && (s.handled && s.screen.showBar ==> s.screen.finished)
  }

  predicate Past(m: MainAt) { m.Joined? || m.Returning? || m.Returned? }

  /** The waiting goroutine is past the join only with the follower at its end,
      and writes only then. */
  predicate OwnerInv(s: State) {
    && (Past(s.main) ==> s.start.Ended?)
    && (Past(s.main) || s.main.Joining? <==> s.stopped)
    && (s.stopped ==> s.tailDone)
    && (s.main.Returning? ==> !s.main.why.Aborted?)
    && (s.screen.mainWrote ==> Past(s.main))
    && !s.screen.tangled
  }

  function Told(s: State): seq<Option<nat>> {
    if !s.start.Ended? then []
    else
      match s.main
      case Joined(_) => [s.start.error]
      case Returning(_) => [s.start.error]
      case Returned(why) => if why.Aborted? then [s.start.error] else [s.start.error, None]
      case _ => []
  }

  /** The token is sent at most once, so sending it never blocks. */
  predicate TokenInv(s: State) {
    && (s.main.Waiting? || s.main.Marking? ==> !s.token && !s.handled && s.barOpen == s.screen.showBar)
    && (!s.main.Waiting? && !s.main.Marking? && s.main.why.Succeeded? ==> !s.barOpen)
    && (s.token || s.handled ==> !s.main.Waiting? && !s.main.Marking? && s.main.why.Succeeded?)
    && s.told == Told(s)
  }

  /** After the handler took the token nothing is handled any more: its attempt
      has no handler, and any later one has no lines. So a finished bar stays. */
  predicate SilenceInv(s: State) {
    && (s.main.Marking? || (!s.main.Waiting? && s.main.why.Succeeded?) ==> s.log.phase.PodSucceeded?)
    && (s.start.Opening? || s.start.Streaming? || s.handled ==> s.log.streamedOnce)
    && (s.handled && s.start.Opening? ==> s.log.tailOnly)
    && (s.handled && s.handler.Selecting? ==> s.log.silent)
    && (s.log.silent ==> !s.tail.Sending?)
    && (s.screen.finished ==> s.screen.bar == Some(BAR_MAXIMUM))
  }

  /** A bar that moved is finished by the time a successful wait returns. */
  predicate FinishInv(s: State) {
    (s.main == Returning(Succeeded) || s.main == Returned(Succeeded)) && s.start.Ended? && s.start.error.None? &&
    s.screen.showBar ==>
      (s.screen.finished <==> s.handled || s.screen.transferred > 0)
  }

  predicate Inv(s: State) { AttemptInv(s) && BarInv(s) && OwnerInv(s) && TokenInv(s) && FinishInv(s) && SilenceInv(s) }

  lemma InitialInv(showBar: bool)
    ensures Inv(Initial(showBar))
  {}

  /** Nothing that was counted or reported is taken back by a step. */
  predicate Grows(s: State, t: State) {
    s.screen.transferred <= t.screen.transferred && s.screen.finishes <= t.screen.finishes &&
    s.told <= t.told && (s.screen.mainWrote ==> t.screen.mainWrote) &&
    t.screen.showBar == s.screen.showBar
  }

  lemma StartKeeps(s: State, e: StartEvent)
    requires Inv(s) && StartCan(s, e)
    ensures Inv(StartStep(s, e)) && Grows(s, StartStep(s, e))
  {
    match e
    case LoopOpens => OpeningKeeps(s);
    case Opens => OpenedKeeps(s);
    case AttemptEnds => AttemptEndKeeps(s);
    case _ =>
  }

  lemma OpeningKeeps(s: State)
    requires Inv(s) && StartCan(s, LoopOpens)
    ensures Inv(StartStep(s, LoopOpens)) && Grows(s, StartStep(s, LoopOpens))
  {}

  lemma OpenedKeeps(s: State)
    requires Inv(s) && StartCan(s, Opens)
    ensures Inv(StartStep(s, Opens)) && Grows(s, StartStep(s, Opens))
  {}

  lemma AttemptEndKeeps(s: State)
    requires Inv(s) && StartCan(s, AttemptEnds)
    ensures Inv(StartStep(s, AttemptEnds)) && Grows(s, StartStep(s, AttemptEnds))
  {}

  lemma TailKeeps(s: State, e: TailEvent)
    requires Inv(s) && TailCan(s, e)
    ensures Inv(TailStep(s, e)) && Grows(s, TailStep(s, e))
  {}

  lemma LineKeeps(s: State)
    requires Inv(s) && HandlerCan(s, HandlerReceives)
    ensures Inv(HandlerStep(s, HandlerReceives)) && Grows(s, HandlerStep(s, HandlerReceives))
  {}

  lemma TokenKeeps(s: State)
    requires Inv(s) && HandlerCan(s, HandlerTakesToken)
    ensures Inv(HandlerStep(s, HandlerTakesToken)) && Grows(s, HandlerStep(s, HandlerTakesToken))
  {}

  lemma HandlerKeeps(s: State, e: HandlerEvent)
    requires Inv(s) && HandlerCan(s, e)
    ensures Inv(HandlerStep(s, e)) && Grows(s, HandlerStep(s, e))
  {
    match e
    case HandlerSeesDone =>
    case HandlerTakesToken => TokenKeeps(s);
    case HandlerReceives => LineKeeps(s);
  }

  lemma JoinKeeps(s: State)
    requires Inv(s) && MainCan(s, Joins)
    ensures Inv(MainStep(s, Joins)) && Grows(s, MainStep(s, Joins))
  {}

  lemma ConclusionKeeps(s: State)
    requires Inv(s) && MainCan(s, Concludes)
    ensures Inv(MainStep(s, Concludes)) && Grows(s, MainStep(s, Concludes))
  {
    match s.main.why
    case Aborted => AbortKeeps(s);
    case Failed => FailureKeeps(s);
    case Succeeded => SuccessKeeps(s);
  }

  lemma AbortKeeps(s: State)
    requires Inv(s) && s.main == Joined(Aborted)
    ensures Inv(Conclude(s)) && Grows(s, Conclude(s))
  {}

  lemma FailureKeeps(s: State)
    requires Inv(s) && s.main == Joined(Failed)
    ensures Inv(Conclude(s)) && Grows(s, Conclude(s))
  {}

  lemma SuccessKeeps(s: State)
    requires Inv(s) && s.main == Joined(Succeeded)
    ensures Inv(Conclude(s)) && Grows(s, Conclude(s))
  {
    if s.start.error.None? {
      FinishKeeps(s);
    }
  }

  lemma FinishKeeps(s: State)
    requires Inv(s) && s.main == Joined(Succeeded) && s.start.error.None?
    ensures Inv(Conclude(s)) && Grows(s, Conclude(s))
  {
    assert BarInv(Conclude(s));
    assert FinishInv(Conclude(s));
  }

  lemma StopKeeps(s: State)
    requires Inv(s) && MainCan(s, Stops)
    ensures Inv(MainStep(s, Stops)) && Grows(s, MainStep(s, Stops))
  {
    if s.stopped {
      StopAgainKeeps(s);
    } else {
      FirstStopKeeps(s);
    }
  }

  lemma FirstStopKeeps(s: State)
    requires Inv(s) && s.main.Stopping? && !s.stopped
    ensures Inv(StopFollower(s)) && Grows(s, StopFollower(s))
  {}

  lemma StopAgainKeeps(s: State)
    requires Inv(s) && s.main.Returning? && s.stopped
    ensures Inv(StopFollower(s)) && Grows(s, StopFollower(s))
  {}

  lemma MainKeeps(s: State, e: MainEvent)
    requires Inv(s) && MainCan(s, e)
    ensures Inv(MainStep(s, e)) && Grows(s, MainStep(s, e))
  {
    match e
    case Joins => JoinKeeps(s);
    case Concludes => ConclusionKeeps(s);
    case Stops => StopKeeps(s);
    case _ =>
  }

  lemma StepKeeps(s: State, e: Event)
    requires Inv(s) && Possible(s, e)
    ensures Inv(Step(s, e)) && Grows(s, Step(s, e))
  {
    match e
    case RunCanceled =>
    case PodEnds(_) =>
    case ByStart(start) => StartKeeps(s, start);
    case ByTail(tail) => TailKeeps(s, tail);
    case ByHandler(handler) => HandlerKeeps(s, handler);
    case ByMain(main) => MainKeeps(s, main);
  }

  // ---- runs

  predicate CanRun(s: State, events: seq<Event>)
    decreases |events|
  {
    events == [] || (Possible(s, events[0]) && CanRun(Step(s, events[0]), events[1..]))
  }

  function RunAll(s: State, events: seq<Event>): State
    requires CanRun(s, events)
    decreases |events|
  {
    if events == [] then s else RunAll(Step(s, events[0]), events[1..])
  }

  lemma {:induction false} RunKeeps(s: State, events: seq<Event>)
    requires Inv(s) && CanRun(s, events)
    ensures Inv(RunAll(s, events)) && Grows(s, RunAll(s, events))
    decreases |events|
  {
    if events != [] {
      StepKeeps(s, events[0]);
      RunKeeps(Step(s, events[0]), events[1..]);
    }
  }

  /** Whatever the interleaving: the bar is finished at most once, shows its end
      from then on and never before, and the writer has one owner at a time. */
  lemma BarIsFinishedOnce(showBar: bool, events: seq<Event>)
    requires CanRun(Initial(showBar), events)
    ensures var t := RunAll(Initial(showBar), events);
            && t.screen.finishes <= 1 && !t.screen.tangled
            && (t.screen.finishes == 0 && t.screen.bar.Some? ==> t.screen.bar.value <= STREAMED_MAXIMUM)
            && (t.screen.finishes == 1 <==> t.screen.bar == Some(BAR_MAXIMUM))
            && (t.main.Returned? ==> t.start.Ended?)
            && (t.main == Returned(Succeeded) && t.start == Ended(None) && showBar ==>
              (t.screen.finishes == 1 <==> t.handled || t.screen.transferred > 0))
  {
    InitialInv(showBar);
    RunKeeps(Initial(showBar), events);
  }

  // ---- what the wait answers is what became of the pod

  predicate Aborts(events: seq<Event>) { ByMain(WaitFails) in events || ByMain(MarkCanceled) in events }

  predicate TakenBy(events: seq<Event>, handler: bool) {
    (if handler then ByHandler(HandlerTakesToken) else ByStart(LoopTakesToken)) in events
  }

  predicate Decided(s: State) { !s.main.Waiting? && !s.main.Marking? }

  /** How the state goes back to what has happened: the pod's end, */
  predicate PodTraces(s: State, past: seq<Event>) {
    (s.log.phase.PodSucceeded? <==> PodEnds(true) in past) && (s.log.phase.PodFailed? <==> PodEnds(false) in past)
  }

  /** what was decided on it, */
  predicate DecisionTraces(s: State, past: seq<Event>) {
    && (Decided(s) && s.main.why.Aborted? <==> Aborts(past))
    && (Decided(s) && s.main.why.Succeeded? <==> ByMain(Marks) in past)
    && (s.main.Marking? || ByMain(Marks) in past ==> s.log.phase.PodSucceeded?)
    && (Decided(s) && s.main.why.Failed? ==> s.log.phase.PodFailed?)
    && LineTraces(s)
    && ((s.main.Returning? || s.main.Returned?) && s.main.why.Failed? ==> s.screen.mainWrote)
  }

  /** whether its line was ended, */
  predicate LineTraces(s: State) {
    && (!Decided(s) || !s.main.why.Succeeded? ==> s.barOpen == s.screen.showBar)
    && (!Past(s.main) || s.main.why.Succeeded? ==> !s.screen.lineEnded)
    && (Past(s.main) && !s.main.why.Succeeded? ==>
          (s.screen.lineEnded <==> s.screen.showBar && Rendered(s.screen)))
  }

  /** and the token. */
  predicate TokenTraces(s: State, past: seq<Event>) {
    && (s.handled <==> TakenBy(past, true))
    && (s.token <==> ByMain(Marks) in past && !TakenBy(past, true) && !TakenBy(past, false))
    && (TakenBy(past, true) || TakenBy(past, false) ==> ByMain(Marks) in past)
    && !(TakenBy(past, true) && TakenBy(past, false))
  }

  predicate Traces(s: State, past: seq<Event>) {
    PodTraces(s, past) && DecisionTraces(s, past) && TokenTraces(s, past)
  }

  lemma InNext(past: seq<Event>, e: Event)
    ensures forall x :: x in past + [e] <==> x in past || x == e
  {}

  lemma StepTraces(s: State, past: seq<Event>, e: Event)
    requires Inv(s) && Traces(s, past) && Possible(s, e)
    ensures Traces(Step(s, e), past + [e])
  {
    match e
    case RunCanceled => CancelTraces(s, past);
    case PodEnds(well) => PodEndTraces(s, past, well);
    case ByStart(start) => StartTraces(s, past, start);
    case ByTail(tail) => TailTraces(s, past, tail);
    case ByHandler(handler) => HandlerTraces(s, past, handler);
    case ByMain(main) => MainTraces(s, past, main);
  }

  lemma CancelTraces(s: State, past: seq<Event>)
    requires Traces(s, past)
    ensures Traces(Step(s, RunCanceled), past + [RunCanceled])
  {
    InNext(past, RunCanceled);
  }

  lemma PodEndTraces(s: State, past: seq<Event>, well: bool)
    requires Traces(s, past) && Possible(s, PodEnds(well))
    ensures Traces(Step(s, PodEnds(well)), past + [PodEnds(well)])
  {
    InNext(past, PodEnds(well));
  }

  lemma TailTraces(s: State, past: seq<Event>, e: TailEvent)
    requires Traces(s, past) && TailCan(s, e)
    ensures Traces(TailStep(s, e), past + [ByTail(e)])
  {
    InNext(past, ByTail(e));
  }

  lemma StartTraces(s: State, past: seq<Event>, e: StartEvent)
    requires Traces(s, past) && StartCan(s, e)
    ensures Traces(StartStep(s, e), past + [ByStart(e)])
  {
    InNext(past, ByStart(e));
  }

  lemma HandlerTraces(s: State, past: seq<Event>, e: HandlerEvent)
    requires Inv(s) && Traces(s, past) && HandlerCan(s, e)
    ensures Traces(HandlerStep(s, e), past + [ByHandler(e)])
  {
    InNext(past, ByHandler(e));
  }

  lemma MainTraces(s: State, past: seq<Event>, e: MainEvent)
    requires Inv(s) && Traces(s, past) && MainCan(s, e)
    ensures Traces(MainStep(s, e), past + [ByMain(e)])
  {
    match e
    case Stops => StopTraces(s, past);
    case Joins => JoinTraces(s, past);
    case Concludes => ConclusionTraces(s, past);
    case _ => DecisionIsTraced(s, past, e);
  }

  lemma DecisionIsTraced(s: State, past: seq<Event>, e: MainEvent)
    requires Inv(s) && Traces(s, past) && MainCan(s, e) && !e.Stops? && !e.Joins? && !e.Concludes?
    ensures Traces(MainStep(s, e), past + [ByMain(e)])
  {
    InNext(past, ByMain(e));
  }

  lemma StopTraces(s: State, past: seq<Event>)
    requires Inv(s) && Traces(s, past) && MainCan(s, Stops)
    ensures Traces(MainStep(s, Stops), past + [ByMain(Stops)])
  {
    InNext(past, ByMain(Stops));
  }

  lemma JoinTraces(s: State, past: seq<Event>)
    requires Inv(s) && Traces(s, past) && MainCan(s, Joins)
    ensures Traces(MainStep(s, Joins), past + [ByMain(Joins)])
  {
    InNext(past, ByMain(Joins));
  }

  lemma ConclusionTraces(s: State, past: seq<Event>)
    requires Inv(s) && Traces(s, past) && MainCan(s, Concludes)
    ensures Traces(MainStep(s, Concludes), past + [ByMain(Concludes)])
  {
    InNext(past, ByMain(Concludes));
    ConclusionLeaves(s);
  }

  lemma ConclusionLeaves(s: State)
    requires s.main.Joined?
    ensures var t := Conclude(s);
            && t.main.why == s.main.why && t.log == s.log && t.token == s.token && t.handled == s.handled
            && t.barOpen == s.barOpen && t.screen.lineEnded == s.screen.lineEnded
            && t.screen.showBar == s.screen.showBar
            && (t.main.Returning? || t.main.Returned?)
            && (s.main.why.Failed? ==> t.screen.mainWrote)
            && (!s.main.why.Succeeded? ==> Rendered(t.screen) == Rendered(s.screen))
  {}

  lemma {:induction false} RunTraces(s: State, past: seq<Event>, events: seq<Event>)
    requires Inv(s) && Traces(s, past) && CanRun(s, events)
    ensures Traces(RunAll(s, events), past + events)
    decreases |events|
  {
    if events == [] {
      assert past + events == past;
    } else {
      StepTraces(s, past, events[0]);
      StepKeeps(s, events[0]);
      RunTraces(Step(s, events[0]), past + [events[0]], events[1..]);
      assert past + [events[0]] + events[1..] == past + events;
    }
  }

  lemma History(showBar: bool, events: seq<Event>)
    requires CanRun(Initial(showBar), events)
    ensures Traces(RunAll(Initial(showBar), events), events) && Inv(RunAll(Initial(showBar), events))
    ensures RunAll(Initial(showBar), events).screen.showBar == showBar
  {
    InitialInv(showBar);
    RunKeeps(Initial(showBar), events);
    RunTraces(Initial(showBar), [], events);
    assert [] + events == events;
  }

  /** A wait that was not broken off answers success exactly if the pod
      succeeded, having told the follower so, and failure exactly if it failed,
      having written the end of its log. */
  lemma AnswerIsThePods(showBar: bool, events: seq<Event>)
    requires CanRun(Initial(showBar), events) && RunAll(Initial(showBar), events).main.Returned?
    ensures var t := RunAll(Initial(showBar), events);
            && (t.main.why == Aborted <==> Aborts(events))
            && (t.main.why == Succeeded <==> !Aborts(events) && PodEnds(true) in events)
            && (t.main.why == Failed <==> !Aborts(events) && PodEnds(false) in events)
            && (t.main.why == Succeeded ==> ByMain(Marks) in events)
            && (t.main.why == Failed ==> t.screen.mainWrote)
            && (t.screen.lineEnded <==> t.main.why != Succeeded && showBar && Rendered(t.screen))
  {
    History(showBar, events);
  }

  /** In no run of a pod that failed is a success told, or the bar finished. */
  lemma FailedPodIsNoSuccess(showBar: bool, events: seq<Event>)
    requires CanRun(Initial(showBar), events) && PodEnds(false) in events
    ensures var t := RunAll(Initial(showBar), events);
            && ByMain(Marks) !in events && !t.token && !t.handled
            && t.screen.finishes == 0 && (t.screen.bar.Some? ==> t.screen.bar.value <= STREAMED_MAXIMUM)
  {
    History(showBar, events);
  }

  /** The token is sent with the success and taken once, by the handler or by
      the loop around it, or still there. */
  lemma TokenIsTakenOnce(showBar: bool, events: seq<Event>)
    requires CanRun(Initial(showBar), events)
    ensures var t := RunAll(Initial(showBar), events); var sent := ByMain(Marks) in events;
            && (t.token <==> sent && !TakenBy(events, true) && !TakenBy(events, false))
            && (TakenBy(events, true) || TakenBy(events, false) ==> sent)
            && !(TakenBy(events, true) && TakenBy(events, false))
            && (t.handled <==> TakenBy(events, true))
  {
    History(showBar, events);
  }

  function Nones(n: nat): seq<Option<nat>> { seq(n, i requires 0 <= i < n => None) }

  predicate NeverFails(events: seq<Event>) {
    forall i :: 0 <= i < |events| ==> !(events[i].ByStart? && events[i].start.LoopFails?)
  }

  /** Whatever a follower returns is told by the first stop and by no other; one
      that never fails, as this one, ends without an error. */
  lemma FollowerIsToldOnce(showBar: bool, events: seq<Event>)
    requires CanRun(Initial(showBar), events) && RunAll(Initial(showBar), events).main.Returned?
    ensures var t := RunAll(Initial(showBar), events);
            t.told != [] && t.start.Ended? && t.told == [t.start.error] + Nones(|t.told| - 1) &&
            (NeverFails(events) ==> t.start.error == None)
  {
    InitialInv(showBar);
    RunKeeps(Initial(showBar), events);
    var t := RunAll(Initial(showBar), events);
    assert Nones(0) == [] && Nones(1) == [None];
    assert [t.start.error] + [] == [t.start.error] && [t.start.error] + [None] == [t.start.error, None];
    if NeverFails(events) {
      EndsWell(Initial(showBar), events);
    }
  }

  lemma {:induction false} EndsWell(s: State, events: seq<Event>)
    requires CanRun(s, events) && NeverFails(events) && (s.start.Ended? ==> s.start.error == None)
    ensures RunAll(s, events).start.Ended? ==> RunAll(s, events).start.error == None
    decreases |events|
  {
    if events != [] {
      StepEndsWell(s, events[0]);
      EndsWell(Step(s, events[0]), events[1..]);
    }
  }

  lemma StepEndsWell(s: State, e: Event)
    requires Possible(s, e) && !(e.ByStart? && e.start.LoopFails?) && (s.start.Ended? ==> s.start.error == None)
    ensures Step(s, e).start.Ended? ==> Step(s, e).start.error == None
  {
    match e
    case RunCanceled =>
    case PodEnds(_) =>
    case ByStart(start) => StartEndsWell(s, start);
    case ByTail(_) => OthersLeaveStart(s, e);
    case ByHandler(_) => OthersLeaveStart(s, e);
    case ByMain(main) => MainLeavesFollower(s, main);
  }

  lemma StartEndsWell(s: State, e: StartEvent)
    requires StartCan(s, e) && !e.LoopFails?
    ensures StartStep(s, e).start.Ended? ==> StartStep(s, e).start.error == None
  {}

  lemma OthersLeaveStart(s: State, e: Event)
    requires Possible(s, e) && (e.ByTail? || e.ByHandler?)
    ensures Step(s, e).start == s.start
  {
    if e.ByHandler? {
      HandlerLeaves(s, e.handler);
    }
  }

  lemma HandlerLeaves(s: State, e: HandlerEvent)
    requires HandlerCan(s, e)
    ensures HandlerStep(s, e).start == s.start
    ensures HandlerStep(s, e).tail == if e.HandlerReceives? then Scanning else s.tail
  {
    match e
    case HandlerSeesDone =>
    case HandlerTakesToken =>
    case HandlerReceives =>
  }

  lemma MainLeavesFollower(s: State, e: MainEvent)
    requires MainCan(s, e)
    ensures SameFollower(s, MainStep(s, e))
  {
    match e
    case Concludes => ConcludeLeavesFollower(s);
    case Joins => JoinLeavesFollower(s);
    case Stops => assert SameFollower(s, StopFollower(s));
    case Marks =>
    case _ =>
  }

  predicate SameFollower(s: State, t: State) { t.start == s.start && t.tail == s.tail && t.handler == s.handler }

  lemma ConcludeLeavesFollower(s: State)
    requires s.main.Joined?
    ensures SameFollower(s, Conclude(s))
  {}

  lemma JoinLeavesFollower(s: State)
    requires MainCan(s, Joins)
    ensures SameFollower(s, MainStep(s, Joins))
  {}

  // ---- nothing waits for ever

  /** Telling the follower that the job is done never blocks. */
  lemma MarkNeverBlocks(s: State)
    requires Inv(s) && s.main.Marking?
    ensures Possible(s, ByMain(Marks))
  {}

  /** How far the follower is from its end, once it has been stopped. */
  function Distance(s: State): nat {
    match s.start
    case Ended(_) => 0
    case Looping => 1
    case BackingOff => 1
    case Opening => 5
    case Streaming => 2 + (if s.tail.TailEnded? then 0 else 1) + (if s.handler.HandlerEnded? then 0 else 1)
  }

  function NextToEnd(s: State): Event {
    match s.start
    case Opening => ByStart(OpenFails(true))
    case Streaming =>
      if !s.tail.TailEnded? then ByTail(TailEnds(true))
      else if !s.handler.HandlerEnded? then ByHandler(HandlerSeesDone)
      else ByStart(AttemptEnds)
    case _ => ByStart(LoopSeesDone)
  }

  /** A join can always come to its end: some goroutine of the follower can move,
      and towards it. */
  lemma JoinIsNeverStuck(s: State)
    requires Inv(s) && s.main.Joining? && !s.start.Ended?
    ensures Possible(s, NextToEnd(s)) && Distance(Step(s, NextToEnd(s))) < Distance(s)
  {}

  /** And no step of anyone leads away from it. */
  lemma JoinOnlyNears(s: State, e: Event)
    requires Inv(s) && s.stopped && Possible(s, e)
    ensures Distance(Step(s, e)) <= Distance(s)
  {
    match e
    case RunCanceled =>
    case PodEnds(_) =>
    case ByStart(start) => StartNears(s, start);
    case ByTail(_) => OthersLeaveStart(s, e);
    case ByHandler(handler) => HandlerLeaves(s, handler);
    case ByMain(main) => MainLeavesFollower(s, main);
  }

  lemma StartNears(s: State, e: StartEvent)
    requires Inv(s) && s.stopped && StartCan(s, e)
    ensures Distance(StartStep(s, e)) <= Distance(s)
  {}

  // ---- what the bar does not promise

  ghost predicate Reaches(s: State, t: State) { exists events :: CanRun(s, events) && RunAll(s, events) == t }

  lemma {:induction false} RunSnoc(s: State, events: seq<Event>, e: Event)
    requires CanRun(s, events) && Possible(RunAll(s, events), e)
    ensures CanRun(s, events + [e]) && RunAll(s, events + [e]) == Step(RunAll(s, events), e)
    decreases |events|
  {
    if events == [] {
      assert events + [e] == [e] && [e][1..] == [];
    } else {
      assert (events + [e])[1..] == events[1..] + [e];
      RunSnoc(Step(s, events[0]), events[1..], e);
    }
  }

  lemma Further(s: State, t: State, e: Event)
    requires Reaches(s, t) && Possible(t, e)
    ensures Reaches(s, Step(t, e))
  {
    var events :| CanRun(s, events) && RunAll(s, events) == t;
    RunSnoc(s, events, e);
  }

  const ASKED := Log(PodRuns, true, false, false)
  const ENDED := ASKED.(phase := PodSucceeded)

  const OPENED := Initial(true).screen.(bar := Some(0))

  /** A first attempt that has drawn one line. */
  function Drawn(s: State, line: Update): State {
    s.(start := Streaming, log := ASKED, tail := Scanning, handler := Selecting, screen := Handle(OPENED, Some(line)))
  }

  lemma DrawsLine(line: Update)
    ensures Reaches(Initial(true), Drawn(Initial(true), line))
  {
    var s := Initial(true);
    assert RunAll(s, []) == s && CanRun(s, []);
    Further(s, s, ByStart(LoopOpens));
    var opening := s.(start := Opening, log := ASKED);
    Further(s, opening, ByStart(Opens));
    var attempt := s.(start := Streaming, log := ASKED, tail := Scanning, handler := Selecting, screen := OPENED);
    Further(s, attempt, ByTail(Reads(Some(line))));
    Further(s, attempt.(tail := Sending(Some(line))), ByHandler(HandlerReceives));
  }

  /** The job succeeds and the follower is stopped before it sees the token. */
  lemma StopsUnseen(t: State, percentage: int)
    requires t == Drawn(Initial(true), Update(percentage, 0))
    ensures Reaches(Initial(true), t.(token := true, barOpen := false, log := ENDED, main := Stopping(Succeeded)))
  {
    var s := Initial(true);
    DrawsLine(Update(percentage, 0));
    Further(s, t, PodEnds(true));
    Further(s, t.(log := ENDED), ByMain(PodSeen));
    Further(s, t.(log := ENDED, main := Marking), ByMain(Marks));
  }

  /** Once stopped, an attempt ends by its three steps. */
  lemma WindsUp(s: State, u: State)
    requires Reaches(s, u) && u.start == Streaming && u.tail == Scanning && u.handler == Selecting && TailCanceled(u)
    ensures Reaches(s, u.(attemptDone := true, start := Ended(None), tail := NoTail, handler := NoHandler))
  {
    Further(s, u, ByHandler(HandlerSeesDone));
    var v := u.(handler := HandlerEnded, attemptDone := true);
    Further(s, v, ByTail(TailEnds(true)));
    Further(s, v.(tail := TailEnded(true)), ByStart(AttemptEnds));
  }

  /** A successful join of such a run writes nothing to the bar. */
  lemma ConcludesUnseen(s: State, v: State)
    requires Reaches(s, v) && v.main == Joined(Succeeded) && v.start == Ended(None)
    requires v.screen.transferred == 0 && v.told == [None] && !v.screen.tangled
    requires v.stopped
    ensures Reaches(s, v.(main := Returned(Succeeded), told := [None, None], screen := MainWrites(v.screen, true)))
  {
    Further(s, v, ByMain(Concludes));
    Further(s, v.(main := Returning(Succeeded), screen := MainWrites(v.screen, true)), ByMain(Stops));
  }

  /** A job whose only update says nothing was transferred, at any percentage,
      draws a bar that is never finished, if the handler does not see the success
      itself; rsync reports an empty transfer as 0 bytes at 100%. */
  lemma EmptyTransferStaysOpen(percentage: int)
    ensures exists t :: Reaches(Initial(true), t) && t.main == Returned(Succeeded) && t.screen.finishes == 0 &&
              t.screen.bar == Some(if percentage < STREAMED_MAXIMUM then percentage else STREAMED_MAXIMUM)
  {
    var s, t := Initial(true), Drawn(Initial(true), Update(percentage, 0));
    var stopped := t.(main := Joining(Succeeded), token := true, barOpen := false, log := ENDED, stopped := true,
      tailDone := true);
    StopsUnseen(t, percentage);
    Further(s, t.(token := true, barOpen := false, log := ENDED, main := Stopping(Succeeded)), ByMain(Stops));
    WindsUp(s, stopped);
    var u := stopped.(attemptDone := true, start := Ended(None), tail := NoTail, handler := NoHandler);
    Further(s, u, ByMain(Joins));
    var v := u.(main := Joined(Succeeded), told := [None]);
    ConcludesUnseen(s, v);
    assert Reaches(s, v.(main := Returned(Succeeded), told := [None, None], screen := MainWrites(v.screen, true)));
  }
}
