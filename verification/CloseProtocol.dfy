/** The connect and close protocol of `AlpacaMCPResearchClient`, as atomic steps between awaits.  Any
    number of callers enter, close, are cancelled and come back; the transport's own operations
    succeed or fail at will. */
module CloseProtocol {
  import opened Common

  type Caller = nat

  /** An exit attempt is a future; each is created once. */
  type Attempt = nat

  datatype Answer = Pending | Succeeded | Failed | FailedCancelled

  /** Where the lifecycle task stands. */
  datatype Task =
    | Absent
    | Created
    | Entering
    | Listing
    | Waiting
    | Exiting(attempt: Attempt)
    | Done

  /** Where a caller stands; `entering` callers run the close inside their failed `__aenter__`. */
  datatype Place =
    | Outside
    | AwaitsReady
    | AwaitsAttempt(attempt: Attempt, entering: bool)
    | AwaitsTask(entering: bool)

  datatype State = State(
    used: bool,
    closing: bool,
    connected: bool,                 // self._connected is set
    lifecycle: bool,                 // self._lifecycle_task and self._exit_requests are set
    exitAttempt: Option<Attempt>,
    queue: seq<Attempt>,
    answers: seq<Answer>,            // one per attempt created so far
    task: Task,
    ready: Answer,
    entered: bool,                   // the lifecycle task's local: the transport was entered
    places: map<Caller, Place>,
    enters: nat,                     // history: calls of the transport's __aenter__
    exits: nat,                      // history: calls of the transport's __aexit__
    exitSuccesses: nat)

  const INITIAL := State(false, false, false, false, None, [], [], Absent, Pending, false, map[], 0, 0, 0)

  function PlaceOf(s: State, c: Caller): Place {
    if c in s.places then s.places[c] else Outside
  }

  function At(s: State, c: Caller, p: Place): State {
    s.(places := s.places[c := p])
  }

  // ---- Steps of a caller ----

  /** `__aenter__` up to its first await.  The client factory may raise. */
  function EnterCall(s: State, c: Caller, factoryOk: bool): State {
    if s.used || s.connected || s.lifecycle then s
    else if !factoryOk then s.(used := true)
    else At(s.(used := true, lifecycle := true, task := Created), c, AwaitsReady)
  }

  /** `_close_lifecycle` up to its first await: join the attempt under way, or start one. */
  function StartClose(s: State, c: Caller, entering: bool): State {
    if !s.lifecycle then At(s, c, Outside)
    else
      match s.exitAttempt
      case Some(a) => At(s, c, AwaitsAttempt(a, entering))
      case None =>
        var a := |s.answers|;
        At(s.(exitAttempt := Some(a), queue := s.queue + [a], answers := s.answers + [Pending]), c, AwaitsAttempt(a, entering))
  }

  /** `__aenter__` resumes: the lifecycle is ready, or failed to become so. */
  function EnterResumes(s: State, c: Caller): State {
    if s.ready == Succeeded then At(s.(connected := true), c, Outside)
    else StartClose(s.(closing := true), c, true)
  }

  /** The entering caller is cancelled while it waits for readiness. */
  function EnterCancelled(s: State, c: Caller): State {
    StartClose(s.(closing := true), c, true)
  }

  function CloseCall(s: State, c: Caller): State {
    if !s.lifecycle then s else StartClose(s.(closing := true), c, false)
  }

  /** A waiter resumes after its attempt was answered.  `cancelling` says whether a cancellation of
      the waiter itself is still requested. */
  function AttemptAnswered(s: State, c: Caller, a: Attempt, entering: bool, answer: Answer, cancelling: bool): State {
    if answer == Succeeded then At(s, c, AwaitsTask(entering))
    else if answer == FailedCancelled && cancelling then At(s, c, Outside)
    else At(if s.exitAttempt == Some(a) then s.(exitAttempt := None) else s, c, Outside)
  }

  /** A closer resumes after the lifecycle task has ended. */
  function TaskEnded(s: State, c: Caller): State {
    At(s.(connected := false, lifecycle := false, exitAttempt := None), c, Outside)
  }

  // ---- Steps of the lifecycle task ----

  /** The task takes the next exit request. */
  function TakeRequest(s: State): State
    requires s.queue != []
  {
    var a := s.queue[0];
    if a >= |s.answers| then s
    else if !s.entered then s.(queue := s.queue[1..], answers := s.answers[a := Succeeded], task := Done)
    else s.(queue := s.queue[1..], task := Exiting(a), exits := s.exits + 1)
  }

  function ExitAnswered(s: State, a: Attempt, answer: Answer): State {
    if a >= |s.answers| then s
    else
      s.(answers := s.answers[a := answer],
         task := if answer == Succeeded then Done else Waiting,
         exitSuccesses := s.exitSuccesses + (if answer == Succeeded then 1 else 0))
  }

  // ---- Events ----

  datatype Event =
    | Enter(c: Caller, factoryOk: bool)
    | ReadyResumes(c: Caller)
    | CancelEnter(c: Caller)
    | Close(c: Caller)
    | Answered(c: Caller, cancelling: bool)
    | CancelWait(c: Caller)
    | Ended(c: Caller)
    | TaskStarts
    | TransportEntered(ok: bool)
    | ToolsListed(ok: bool)
    | TakesRequest
    | TransportExited(answer: Answer)

  predicate Enabled(s: State, e: Event) {
    match e
    case Enter(c, _) => PlaceOf(s, c) == Outside
    case ReadyResumes(c) => PlaceOf(s, c) == AwaitsReady && s.ready != Pending
    case CancelEnter(c) => PlaceOf(s, c) == AwaitsReady
    case Close(c) => PlaceOf(s, c) == Outside
    case Answered(c, _) =>
      PlaceOf(s, c).AwaitsAttempt? && PlaceOf(s, c).attempt < |s.answers| && s.answers[PlaceOf(s, c).attempt] != Pending
    case CancelWait(c) => PlaceOf(s, c).AwaitsAttempt? || PlaceOf(s, c).AwaitsTask?
    case Ended(c) => PlaceOf(s, c).AwaitsTask? && s.task == Done
    case TaskStarts => s.task == Created
    case TransportEntered(_) => s.task == Entering
    case ToolsListed(_) => s.task == Listing
    case TakesRequest => s.task == Waiting && s.queue != []
    case TransportExited(answer) => s.task.Exiting? && answer != Pending
  }

  function Step(s: State, e: Event): State
    requires Enabled(s, e)
  {
    match e
    case Enter(c, factoryOk) => EnterCall(s, c, factoryOk)
    case ReadyResumes(c) => EnterResumes(s, c)
    case CancelEnter(c) => EnterCancelled(s, c)
    case Close(c) => CloseCall(s, c)
    case Answered(c, cancelling) =>
      var p := PlaceOf(s, c);
      AttemptAnswered(s, c, p.attempt, p.entering, s.answers[p.attempt], cancelling)
    case CancelWait(c) => At(s, c, Outside)
    case Ended(c) => TaskEnded(s, c)
    case TaskStarts => s.(task := Entering, enters := s.enters + 1)
    case TransportEntered(ok) =>
      if ok then s.(task := Listing, entered := true) else s.(task := Waiting, ready := Failed)
    case ToolsListed(ok) => s.(task := Waiting, ready := if ok then Succeeded else Failed)
    case TakesRequest => TakeRequest(s)
    case TransportExited(answer) => ExitAnswered(s, s.task.attempt, answer)
  }

  /** `t` is reached from `s` by these events. */
  ghost predicate Reaches(s: State, events: seq<Event>, t: State)
    decreases |events|
  {
    if events == [] then s == t
    else Enabled(s, events[0]) && Reaches(Step(s, events[0]), events[1..], t)
  }

  // ---- The invariant ----

  predicate Early(t: Task) {
    t == Absent || t == Created || t == Entering || t == Listing
  }

  /** The attempt that the queue or the transport is working on. */
  predicate Outstanding(queue: seq<Attempt>, task: Task, a: Attempt) {
    a in queue || task == Exiting(a)
  }

  ghost predicate TaskFacts(s: State) {
    && (s.task == Absent ==> !s.lifecycle && s.answers == [])
    && (s.task != Absent ==> s.used)
    && (s.task != Absent && s.task != Done ==> s.lifecycle)
    && s.enters == (if s.task == Absent || s.task == Created then 0 else 1)
    && (s.entered ==> s.task != Absent && s.task != Created && s.task != Entering)
    && (s.task == Listing || s.task.Exiting? || s.exits > 0 || s.ready == Succeeded ==> s.entered)
    && (s.ready == Pending <==> Early(s.task))
    && (s.connected ==> s.ready == Succeeded)
    && s.exitSuccesses == (if s.task == Done && s.entered then 1 else 0)
    && (Early(s.task) ==> s.exits == 0)
    && (s.exits > 0 ==> s.answers != [])
  }

  ghost predicate AttemptFacts(s: State) {
    && |s.queue| + (if s.task.Exiting? then 1 else 0) <= 1
    && (forall a: nat :: Outstanding(s.queue, s.task, a) ==> a < |s.answers| && s.exitAttempt == Some(a))
    && (forall a: nat :: a < |s.answers| ==> (s.answers[a] == Pending <==> Outstanding(s.queue, s.task, a)))
    && (forall a: nat :: a < |s.answers| && s.answers[a] == Succeeded ==> s.task == Done)
    && (s.exitAttempt.Some? ==> s.exitAttempt.value < |s.answers|)
    && (s.answers != [] ==> s.closing)
    && (s.task == Done ==> s.queue == [] && s.answers != [])
    && (s.task == Done && s.lifecycle ==> s.exitAttempt.Some? && s.answers[s.exitAttempt.value] == Succeeded)
  }

  ghost predicate PlaceFacts(s: State) {
    forall c :: c in s.places ==>
      && (s.places[c].AwaitsAttempt? ==> s.places[c].attempt < |s.answers|)
      && (s.places[c].AwaitsTask? ==> s.task == Done)
      && (s.places[c].AwaitsReady? ==> s.task != Absent)
  }

  ghost predicate Inv(s: State) {
    TaskFacts(s) && AttemptFacts(s) && PlaceFacts(s)
  }

  // ---- Every step keeps it ----

  /** What is queued or being answered is the attempt that new closers would join. */
  lemma CurrentAttempt(s: State)
    requires AttemptFacts(s)
    ensures s.queue != [] ==> s.exitAttempt == Some(s.queue[0])
    ensures s.task.Exiting? ==> s.exitAttempt == Some(s.task.attempt)
  {
    assert s.queue != [] ==> Outstanding(s.queue, s.task, s.queue[0]);
    assert s.task.Exiting? ==> Outstanding(s.queue, s.task, s.task.attempt);
  }

  lemma StartCloseKeeps(s: State, c: Caller, entering: bool)
    requires Inv(s) && s.closing && s.task != Absent
    ensures Inv(StartClose(s, c, entering))
  {
    var t := StartClose(s, c, entering);
    if s.lifecycle && s.exitAttempt.None? {
      var a := |s.answers|;
      CurrentAttempt(s);
      assert t.queue == [a];
      forall b: nat | b < |t.answers| ensures t.answers[b] == Pending <==> Outstanding(t.queue, t.task, b) {
        assert b < a ==> t.answers[b] == s.answers[b];
      }
    }
  }

  lemma CallerStepKeeps(s: State, e: Event)
    requires Inv(s) && Enabled(s, e)
    requires e.Enter? || e.ReadyResumes? || e.CancelEnter? || e.Close? || e.CancelWait? || e.Ended?
    ensures Inv(Step(s, e))
  {
    match e
    case Enter(_, _) => CurrentAttempt(s);
    case ReadyResumes(c) =>
      if s.ready != Succeeded {
        StartCloseKeeps(s.(closing := true), c, true);
      }
    case CancelEnter(c) => StartCloseKeeps(s.(closing := true), c, true);
    case Close(c) =>
      if s.lifecycle {
        StartCloseKeeps(s.(closing := true), c, false);
      }
    case Ended(c) =>
      assert forall a: nat :: !Outstanding(s.queue, s.task, a);
    case _ =>
  }

  /** The identity check: an answered waiter clears `exitAttempt` only if it still holds its own. */
  lemma ClearKeeps(s: State, a: Attempt)
    requires Inv(s) && a < |s.answers| && s.answers[a] != Pending && s.answers[a] != Succeeded
    ensures Inv(if s.exitAttempt == Some(a) then s.(exitAttempt := None) else s)
  {
    assert !Outstanding(s.queue, s.task, a);
  }

  lemma MoveKeeps(s: State, c: Caller, p: Place)
    requires Inv(s) && (p == Outside || (p.AwaitsTask? && s.task == Done))
    ensures Inv(At(s, c, p))
  {
  }

  lemma AnsweredKeeps(s: State, e: Event)
    requires Inv(s) && Enabled(s, e) && e.Answered?
    ensures Inv(Step(s, e))
  {
    var p := PlaceOf(s, e.c);
    var a, answer := p.attempt, s.answers[p.attempt];
    if answer == Succeeded {
      MoveKeeps(s, e.c, AwaitsTask(p.entering));
    } else if answer == FailedCancelled && e.cancelling {
      MoveKeeps(s, e.c, Outside);
    } else {
      ClearKeeps(s, a);
      MoveKeeps(if s.exitAttempt == Some(a) then s.(exitAttempt := None) else s, e.c, Outside);
    }
  }

  lemma TakesRequestKeeps(s: State, e: Event)
    requires Inv(s) && Enabled(s, e) && e.TakesRequest?
    ensures Inv(Step(s, e))
  {
    var a := s.queue[0];
    var t := Step(s, e);
    assert Outstanding(s.queue, s.task, a) && s.queue == [a] && t.queue == [];
    forall b: nat | b < |t.answers| ensures t.answers[b] == Pending <==> Outstanding(t.queue, t.task, b) {
      assert b != a ==> !Outstanding(s.queue, s.task, b);
    }
  }

  lemma TransportExitedKeeps(s: State, e: Event)
    requires Inv(s) && Enabled(s, e) && e.TransportExited?
    ensures Inv(Step(s, e))
  {
    var a := s.task.attempt;
    var t := Step(s, e);
    assert Outstanding(s.queue, s.task, a) && s.queue == [];
    forall b: nat | b < |t.answers| ensures t.answers[b] == Pending <==> Outstanding(t.queue, t.task, b) {
      assert b != a ==> !Outstanding(s.queue, s.task, b);
    }
  }

  lemma TaskStepKeeps(s: State, e: Event)
    requires Inv(s) && Enabled(s, e) && (e.TaskStarts? || e.TransportEntered? || e.ToolsListed?)
    ensures Inv(Step(s, e))
  {
    assert forall a: nat :: Outstanding(Step(s, e).queue, Step(s, e).task, a) <==> Outstanding(s.queue, s.task, a);
  }

  lemma StepKeeps(s: State, e: Event)
    requires Inv(s) && Enabled(s, e)
    ensures Inv(Step(s, e))
  {
    match e
    case Answered(_, _) => AnsweredKeeps(s, e);
    case TakesRequest => TakesRequestKeeps(s, e);
    case TransportExited(_) => TransportExitedKeeps(s, e);
    case TaskStarts => TaskStepKeeps(s, e);
    case TransportEntered(_) => TaskStepKeeps(s, e);
    case ToolsListed(_) => TaskStepKeeps(s, e);
    case _ => CallerStepKeeps(s, e);
  }

  lemma {:induction false} RunKeeps(s: State, events: seq<Event>, t: State)
    requires Inv(s) && Reaches(s, events, t)
    ensures Inv(t)
    decreases |events|
  {
    if events != [] {
      StepKeeps(s, events[0]);
      RunKeeps(Step(s, events[0]), events[1..], t);
    }
  }

  // ---- What holds in every run ----

  /** The transport is entered at most once, exited only after it was entered, with at most one exit
      request outstanding, and exits successfully at most once. */
  lemma Safety(events: seq<Event>, s: State)
    requires Reaches(INITIAL, events, s)
    ensures s.enters <= 1
    ensures s.exits > 0 || s.task.Exiting? ==> s.entered && s.enters == 1
    ensures |s.queue| + (if s.task.Exiting? then 1 else 0) <= 1
    ensures s.exitSuccesses <= 1
    ensures s.exitSuccesses == 1 ==> s.task == Done && s.queue == []
    ensures forall a: nat, b: nat ::
              a < |s.answers| && b < |s.answers| && s.answers[a] == Pending && s.answers[b] == Pending ==> a == b
  {
    RunKeeps(INITIAL, events, s);
    forall a: nat, b: nat | a < |s.answers| && b < |s.answers| && s.answers[a] == Pending && s.answers[b] == Pending
      ensures a == b
    {
      assert Outstanding(s.queue, s.task, a) && Outstanding(s.queue, s.task, b);
    }
  }

  lemma DoneStays(s: State, e: Event)
    requires Inv(s) && s.task == Done && Enabled(s, e)
    ensures Step(s, e).task == Done && Step(s, e).exits == s.exits && Step(s, e).enters == s.enters
    ensures Step(s, e).queue == [] && Step(s, e).exitSuccesses == s.exitSuccesses
  {
    StepKeeps(s, e);
  }

  /** After a successful exit the transport is never entered or exited again. */
  lemma {:induction false} NoExitAfterSuccess(s: State, events: seq<Event>, t: State)
    requires Inv(s) && s.task == Done && Reaches(s, events, t)
    ensures t.task == Done && t.exits == s.exits && t.enters == s.enters && t.exitSuccesses == s.exitSuccesses
    ensures t.queue == []
    decreases |events|
  {
    if events != [] {
      DoneStays(s, events[0]);
      StepKeeps(s, events[0]);
      NoExitAfterSuccess(Step(s, events[0]), events[1..], t);
    }
  }

  /** No step drops the attempt under way: only its own answer ends it, and only a later attempt
      takes its place. */
  lemma PendingAttemptIsKept(s: State, e: Event, a: Attempt)
    requires Inv(s) && Enabled(s, e) && s.exitAttempt == Some(a) && s.answers[a] == Pending
    ensures Step(s, e).exitAttempt == Some(a)
    ensures Step(s, e).answers[a] != Pending ==> e.TakesRequest? || e.TransportExited?
  {
    assert Outstanding(s.queue, s.task, a);
  }

  /** A close that returns normally means the transport is gone: exited once, or never entered. */
  lemma CloseReturns(s: State, c: Caller)
    requires Inv(s) && Enabled(s, Ended(c))
    ensures s.entered ==> s.exitSuccesses == 1
    ensures !Step(s, Ended(c)).lifecycle && !Step(s, Ended(c)).connected
  {
  }

  lemma NextRequest(s: State, c: Caller)
    requires Inv(s) && s.lifecycle && s.exitAttempt.None? && s.task == Waiting && s.entered
    requires PlaceOf(s, c) == Outside
    ensures var t := Step(Step(s, Close(c)), TakesRequest);
            && t.task == Exiting(|s.answers|) && t.exits == s.exits + 1
            && PlaceOf(t, c) == AwaitsAttempt(|s.answers|, false)
            && Reaches(s, [Close(c), TakesRequest], t)
  {
    CurrentAttempt(s);
    ReachesInTwo(s, Close(c), TakesRequest);
  }

  lemma ReachesInTwo(s: State, e: Event, f: Event)
    requires Enabled(s, e) && Enabled(Step(s, e), f)
    ensures Reaches(s, [e, f], Step(Step(s, e), f))
  {
    assert [e, f][1..] == [f] && [f][1..] == [];
    assert Reaches(Step(s, e), [f], Step(Step(s, e), f));
  }

  lemma {:induction false} ReachesOn(s: State, a: seq<Event>, t: State, b: seq<Event>, u: State)
    requires Reaches(s, a, t) && Reaches(t, b, u)
    ensures Reaches(s, a + b, u)
    decreases |a|
  {
    if a == [] {
      assert a + b == b;
    } else {
      ReachesOn(Step(s, a[0]), a[1..], t, b, u);
      assert (a + b)[1..] == a[1..] + b;
    }
  }

  /** A failed attempt that nobody waits for any more is still there for the next closer, who sees it fail
      and leaves it behind. */
  lemma LeftoverIsCleared(s: State, c: Caller)
    requires Inv(s) && s.lifecycle && s.exitAttempt.Some? && s.task == Waiting && s.queue == []
    requires PlaceOf(s, c) == Outside
    ensures Enabled(s, Close(c)) && Enabled(Step(s, Close(c)), Answered(c, false))
    ensures var t := Step(Step(s, Close(c)), Answered(c, false));
            && t.exitAttempt.None? && t.task == Waiting && t.queue == [] && t.lifecycle
            && t.answers == s.answers && t.exits == s.exits && t.entered == s.entered && PlaceOf(t, c) == Outside
  {
    assert !Outstanding(s.queue, s.task, s.exitAttempt.value);
  }

  /** A failed exit can always be retried.  From every reachable state in which the transport is open and
      no exit is under way, an idle caller gets a new request to the transport in at most two closes; the
      first is spent on an earlier failed attempt that was left in place. */
  lemma FailedExitIsRetried(run: seq<Event>, s: State, c: Caller) returns (events: seq<Event>, t: State)
    requires Reaches(INITIAL, run, s) && s.entered && s.task == Waiting && s.queue == [] && PlaceOf(s, c) == Outside
    ensures events == (if s.exitAttempt.None? then [Close(c), TakesRequest]
                       else [Close(c), Answered(c, false), Close(c), TakesRequest])
    ensures Reaches(s, events, t)
    ensures t.task == Exiting(|s.answers|) && t.exits == s.exits + 1 && PlaceOf(t, c) == AwaitsAttempt(|s.answers|, false)
  {
    RunKeeps(INITIAL, run, s);
    events := [Close(c), TakesRequest];
    if s.exitAttempt.None? {
      NextRequest(s, c);
      t := Step(Step(s, Close(c)), TakesRequest);
    } else {
      LeftoverIsCleared(s, c);
      StepKeeps(s, Close(c));
      StepKeeps(Step(s, Close(c)), Answered(c, false));
      var cleared := Step(Step(s, Close(c)), Answered(c, false));
      ReachesInTwo(s, Close(c), Answered(c, false));
      NextRequest(cleared, c);
      t := Step(Step(cleared, Close(c)), TakesRequest);
      ReachesOn(s, [Close(c), Answered(c, false)], cleared, events, t);
      assert [Close(c), Answered(c, false)] + events == [Close(c), Answered(c, false), Close(c), TakesRequest];
      events := [Close(c), Answered(c, false)] + events;
    }
  }

  /** `call` reaches the transport only between readiness and the first close. */
  predicate CallAdmitted(s: State) {
    s.connected && !s.closing
  }

  lemma CallsReachAnOpenTransport(s: State)
    requires Inv(s) && CallAdmitted(s)
    ensures s.entered && s.exits == 0 && s.task == Waiting && s.queue == []
  {
    CurrentAttempt(s);
  }

  /** Once closing, no call is ever admitted again. */
  lemma {:induction false} ClosingIsFinal(s: State, events: seq<Event>, t: State)
    requires s.closing && Reaches(s, events, t)
    ensures t.closing && !CallAdmitted(t)
    decreases |events|
  {
    if events != [] {
      ClosingIsFinal(Step(s, events[0]), events[1..], t);
    }
  }
}
