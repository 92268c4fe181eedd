/** The bounded market-window runner: one child process, one tick per five-minute slot, a hard cutoff.

    The clock, the child, the readiness probe and the tick sender are answers that the environment
    gives one after another; what the runner does to the outside is a log of events.  A run whose
    answers are used up is a run observed only so far, so what is proved of every log holds of every
    prefix of a longer run.  Times are microseconds. */
module MarketWindow {
  const SECOND := 1_000_000
  const CADENCE := 300 * SECOND
  const MAXIMUM_START_LEAD := 300 * SECOND
  const READY_TIMEOUT := 60 * SECOND
  const DAY := 86_400 * SECOND
  const MAXIMUM_DURATION := 4 * 3_600 * SECOND

  datatype Schedule = Schedule(start: int, cutoff: int)

  /** What loading a schedule demands of its two times. */
  predicate InRange(s: Schedule) {
    && s.start / DAY == s.cutoff / DAY
    && 0 < s.cutoff - s.start <= MAXIMUM_DURATION
    && (s.cutoff - s.start) % CADENCE == 0
  }

  // ---- The grid ----

  predicate OnGrid(start: int, slot: int) {
    start <= slot && (slot - start) % CADENCE == 0
  }

  function NextTick(start: int, now: int): int {
    if now <= start then start
    else
      var candidate := start + (now - start) / CADENCE * CADENCE;
      if candidate >= now then candidate else candidate + CADENCE
  }

  /** The next tick is the least grid point that is not before `now`. */
  lemma NextTickIsLeast(start: int, now: int, slot: int)
    ensures OnGrid(start, NextTick(start, now)) && now <= NextTick(start, now)
    ensures OnGrid(start, slot) && now <= slot ==> NextTick(start, now) <= slot
  {
    if now > start {
      var q, m := (now - start) / CADENCE, (slot - start) / CADENCE;
      assert now - start == q * CADENCE + (now - start) % CADENCE;
      if OnGrid(start, slot) && now <= slot {
        assert slot - start == m * CADENCE;
        assert m >= q;
      }
    }
  }

  // ---- What a run may do: the protocol as a log reader ----

  datatype Event =
    | Started(at: int)
    | Ready(at: int)
    | Aimed(now: int)
    | Tick(slot: int, at: int, accepted: bool)
    | CutoffReached(at: int)
    | ExitSeen
    | Terminated
    | Killed
    | Stopped(at: int)

  datatype Phase =
    | Idle
    | Waiting(since: int)
    | Chosen(since: int)
    | Ticking(next: int, since: int)
    | Ended(complete: bool)
    | Down(complete: bool)
    | Broken

  /** One event, read against the phase before it. */
  function Step(s: Schedule, phase: Phase, e: Event): Phase {
    match (phase, e)
    case (Idle, Started(t)) =>
      if s.start - MAXIMUM_START_LEAD <= t < s.cutoff then Waiting(t) else Broken
    case (Waiting(since), Ready(t)) => if since <= t then Chosen(t) else Broken
    case (Chosen(since), Aimed(t)) => if since <= t then Ticking(NextTick(s.start, t), t) else Broken
    case (Ticking(next, since), Tick(slot, t, accepted)) =>
      if slot != next || t < slot || t < since || t >= s.cutoff then Broken
      else if accepted then Ticking(next + CADENCE, t)
      else Ended(false)
    case (Ticking(_, since), CutoffReached(t)) => if t >= s.cutoff && t >= since then Ended(true) else Broken
    case (Waiting(_), _) => if e.ExitSeen? || e.Terminated? then Down(false) else Broken
    case (Chosen(_), _) => if e.ExitSeen? || e.Terminated? then Down(false) else Broken
    case (Ticking(_, _), _) => if e.ExitSeen? || e.Terminated? then Down(false) else Broken
    case (Ended(c), _) => if e.ExitSeen? || e.Terminated? then Down(c) else Broken
    case (Down(c), _) => if e.Killed? || e.Stopped? then Down(c) else Broken
    case _ => Broken
  }

  function Reads(s: Schedule, log: seq<Event>): Phase {
    if log == [] then Idle else Step(s, Reads(s, log[..|log| - 1]), log[|log| - 1])
  }

  predicate Proper(s: Schedule, log: seq<Event>) {
    !Reads(s, log).Broken?
  }

  lemma ReadsSnoc(s: Schedule, log: seq<Event>, e: Event)
    ensures Reads(s, log + [e]) == Step(s, Reads(s, log), e)
  {
    assert (log + [e])[..|log|] == log;
  }

  // ---- What every proper log says ----

  /** The ticks sent, in order. */
  function Ticks(log: seq<Event>): seq<Event> {
    if log == [] then []
    else Ticks(log[..|log| - 1]) + (if log[|log| - 1].Tick? then [log[|log| - 1]] else [])
  }

  /** Ticks go to consecutive slots from a first grid slot on, each sent at or after its slot and before
      the cutoff, at non-decreasing times, and only the last may be refused. */
  predicate InOrder(s: Schedule, ticks: seq<Event>) {
    forall i :: 0 <= i < |ticks| ==>
      && ticks[i].Tick? && OnGrid(s.start, ticks[i].slot)
      && ticks[i].slot <= ticks[i].at < s.cutoff
      && (i > 0 ==> ticks[i - 1].Tick? && ticks[i].slot == ticks[i - 1].slot + CADENCE && ticks[i - 1].at <= ticks[i].at)
      && (i < |ticks| - 1 ==> ticks[i].accepted)
  }

  /** How the phase follows from the ticks sent so far. */
  predicate Follows(s: Schedule, phase: Phase, ticks: seq<Event>) {
    && InOrder(s, ticks)
    && (phase.Idle? || phase.Waiting? || phase.Chosen? ==> ticks == [])
    && (phase.Ticking? ==>
          && OnGrid(s.start, phase.next)
          && (ticks != [] ==>
                var last := ticks[|ticks| - 1];
                last.accepted && phase.next == last.slot + CADENCE && phase.since == last.at))
    && ((phase.Ended? || phase.Down?) && phase.complete && ticks != [] ==> ticks[|ticks| - 1].accepted)
  }

  lemma StepFollows(s: Schedule, phase: Phase, ticks: seq<Event>, e: Event)
    requires Follows(s, phase, ticks) && !Step(s, phase, e).Broken?
    ensures Follows(s, Step(s, phase, e), if e.Tick? then ticks + [e] else ticks)
  {
    if e.Aimed? {
      NextTickIsLeast(s.start, e.now, s.start);
    }
  }

  lemma {:induction false} ProperFollows(s: Schedule, log: seq<Event>)
    requires Proper(s, log)
    ensures Follows(s, Reads(s, log), Ticks(log))
  {
    if log != [] {
      var init, e := log[..|log| - 1], log[|log| - 1];
      ProperFollows(s, init);
      StepFollows(s, Reads(s, init), Ticks(init), e);
    }
  }

  lemma {:induction false} SlotOf(s: Schedule, ticks: seq<Event>, i: nat)
    requires InOrder(s, ticks) && i < |ticks|
    ensures ticks[i].slot == ticks[0].slot + i * CADENCE
  {
    if i > 0 {
      SlotOf(s, ticks, i - 1);
    }
  }

  lemma {:induction false} TimesOrdered(s: Schedule, ticks: seq<Event>, i: nat, j: nat)
    requires InOrder(s, ticks) && i <= j < |ticks|
    ensures ticks[i].at <= ticks[j].at
    decreases j - i
  {
    if i < j {
      TimesOrdered(s, ticks, i, j - 1);
    }
  }

  lemma CountFits(s: Schedule, first: int, n: nat)
    requires n > 0 && s.start <= first && first + (n - 1) * CADENCE < s.cutoff
    ensures n * CADENCE < s.cutoff - s.start + CADENCE
    ensures InRange(s) ==> n <= (s.cutoff - s.start) / CADENCE <= 48
  {
  }

  lemma SlotsIncrease(s: Schedule, ticks: seq<Event>, i: nat, j: nat)
    requires InOrder(s, ticks) && i < j < |ticks|
    ensures ticks[i].slot < ticks[j].slot && ticks[i].at <= ticks[j].at
  {
    SlotOf(s, ticks, i);
    SlotOf(s, ticks, j);
    TimesOrdered(s, ticks, i, j);
  }

  /** Every tick is sent at or after its own grid slot and before the cutoff, slots are consecutive, so no
      slot gets two ticks, and there are at most 48. */
  lemma TicksStayInWindow(s: Schedule, log: seq<Event>)
    requires Proper(s, log)
    ensures InOrder(s, Ticks(log))
    ensures forall i, j :: 0 <= i < j < |Ticks(log)| ==>
              Ticks(log)[i].slot < Ticks(log)[j].slot && Ticks(log)[i].at <= Ticks(log)[j].at
    ensures Ticks(log) != [] ==> |Ticks(log)| * CADENCE < s.cutoff - s.start + CADENCE
    ensures InRange(s) && Ticks(log) != [] ==> |Ticks(log)| <= (s.cutoff - s.start) / CADENCE <= 48
  {
    ProperFollows(s, log);
    var ticks := Ticks(log);
    forall i, j | 0 <= i < j < |ticks| ensures ticks[i].slot < ticks[j].slot && ticks[i].at <= ticks[j].at {
      SlotsIncrease(s, ticks, i, j);
    }
    if ticks != [] {
      SlotOf(s, ticks, |ticks| - 1);
      CountFits(s, ticks[0].slot, |ticks|);
    }
  }

  lemma {:induction false} PrefixIsProper(s: Schedule, log: seq<Event>, k: nat)
    requires Proper(s, log) && k <= |log|
    ensures Proper(s, log[..k])
    decreases |log|
  {
    if k == |log| {
      assert log[..k] == log;
    } else {
      assert log[..|log| - 1][..k] == log[..k];
      PrefixIsProper(s, log[..|log| - 1], k);
    }
  }

  predicate Active(phase: Phase) {
    phase.Waiting? || phase.Chosen? || phase.Ticking? || phase.Ended?
  }

  /** Once the child is down nothing but the clean-up follows: no tick, no restart. */
  lemma {:induction false} DownIsFinal(s: Schedule, log: seq<Event>, k: nat, m: nat)
    requires Proper(s, log) && k <= m < |log| && Reads(s, log[..k]).Down?
    ensures log[m].Killed? || log[m].Stopped?
    ensures Reads(s, log[..m]).Down?
    decreases m
  {
    PrefixIsProper(s, log, m + 1);
    assert log[..m + 1][..m] == log[..m];
    if k < m {
      DownIsFinal(s, log, k, m - 1);
      assert log[..m] == log[..m - 1] + [log[m - 1]];
      ReadsSnoc(s, log[..m - 1], log[m - 1]);
    }
  }

  /** What a finished run stands for. */
  predicate Complete(s: Schedule, log: seq<Event>) {
    Reads(s, log) == Down(true)
  }

  /** A complete run read the clock at or after the cutoff, and none of its ticks was refused. */
  lemma {:induction false} CompleteMeansCutoff(s: Schedule, log: seq<Event>)
    requires Reads(s, log).Ended? || Reads(s, log).Down?
    ensures var phase := Reads(s, log); phase.complete ==>
              && (exists k :: 0 <= k < |log| && log[k].CutoffReached? && log[k].at >= s.cutoff)
              && (forall i :: 0 <= i < |Ticks(log)| ==> Ticks(log)[i].Tick? && Ticks(log)[i].accepted)
  {
    ProperFollows(s, log);
    var init, e := log[..|log| - 1], log[|log| - 1];
    if Reads(s, init).Ended? || Reads(s, init).Down? {
      CompleteMeansCutoff(s, init);
      if Reads(s, init).complete {
        var k :| 0 <= k < |init| && init[k].CutoffReached? && init[k].at >= s.cutoff;
        assert log[k] == init[k];
      }
    } else if e.CutoffReached? {
      assert log[|log| - 1].at >= s.cutoff;
    }
  }

  // ---- The environment ----

  datatype Reading = At(time: int) | Naive

  datatype Probe = Up | NotYet | Failing

  datatype Code =
    | NotOpen | Closed | PortCheckFailed | PortOccupied | SpawnFailed | ChildDied | ReadinessFailed
    | TickFailed | ClockInvalid | StopTimedOut | Unobserved

  datatype Try<+T> = Got(value: T) | Raised(code: Code) {
    predicate IsFailure() { Raised? }
    function PropagateFailure<U>(): Try<U>
      requires Raised?
    {
      Raised(code)
    }
    function Extract(): T
      requires Got?
    {
      value
    }
  }

  /** The clock never goes back. */
  predicate Forward(clock: seq<Reading>) {
    forall i, j :: 0 <= i < j < |clock| && clock[i].At? && clock[j].At? ==> clock[i].time <= clock[j].time
  }

  /** A sleep: the clock's last reading before it, and how long it was asked to last. */
  datatype Pause = Pause(after: int, length: int)

  /** The pauses from number `k` on last at most a second each and end by `limit`. */
  predicate PausesEndBy(pauses: seq<Pause>, k: nat, limit: int) {
    forall i :: k <= i < |pauses| ==> 0 < pauses[i].length <= SECOND && pauses[i].after + pauses[i].length <= limit
  }

  /** The pauses from number `k` on last a second each and begin before `limit`. */
  predicate PausesBeginBefore(pauses: seq<Pause>, k: nat, limit: int) {
    forall i :: k <= i < |pauses| ==> pauses[i].length == SECOND && pauses[i].after < limit
  }

  /** The answers the environment will give, how many have been used, and what has been done to it. */
  class Environment {
    const clock: seq<Reading>
    const exits: seq<bool>
    const probes: seq<Probe>
    const sends: seq<bool>
    const waits: seq<bool>
    var looked: nat
    var polled: nat
    var probed: nat
    var sent: nat
    var waited: nat
    var pauses: seq<Pause>
    var log: seq<Event>

    constructor (clock: seq<Reading>, exits: seq<bool>, probes: seq<Probe>, sends: seq<bool>, waits: seq<bool>)
      ensures log == [] && pauses == [] && this.clock == clock && looked == polled == probed == sent == waited == 0
    {
      this.clock, this.exits, this.probes, this.sends, this.waits := clock, exits, probes, sends, waits;
      looked, polled, probed, sent, waited, pauses, log := 0, 0, 0, 0, 0, [], [];
    }

    /** No later reading is before `t`. */
    ghost predicate NotBefore(t: int)
      reads this
    {
      forall i :: looked <= i < |clock| && clock[i].At? ==> t <= clock[i].time
    }

    method Now() returns (r: Try<int>)
      requires Forward(clock)
      modifies `looked
      ensures looked >= old(looked)
      ensures r.Got? ==> looked == old(looked) + 1 <= |clock| && clock[looked - 1] == At(r.value) && NotBefore(r.value)
      ensures r.Raised? ==> r.code == ClockInvalid || r.code == Unobserved
      ensures r.Raised? ==> old(looked) >= |clock| || clock[old(looked)].Naive?
      ensures forall t :: old(NotBefore(t)) ==> NotBefore(t) && (r.Got? ==> t <= r.value)
    {
      if looked >= |clock| {
        return Raised(Unobserved);
      }
      looked := looked + 1;
      match clock[looked - 1]
      case Naive => return Raised(ClockInvalid);
      case At(t) => return Got(t);
    }

    method Poll() returns (r: Try<bool>)
      modifies `polled
      ensures r.Got? ==> polled == old(polled) + 1 <= |exits| && r.value == exits[polled - 1]
      ensures r.Raised? ==> r.code == Unobserved && polled == old(polled)
    {
      if polled >= |exits| {
        return Raised(Unobserved);
      }
      polled := polled + 1;
      return Got(exits[polled - 1]);
    }

    /** The child was there when it was last looked at. */
    predicate SeenAlive()
      reads `polled
    {
      0 < polled <= |exits| && !exits[polled - 1]
    }

    method RequireAlive() returns (r: Try<()>)
      modifies `polled
      ensures r.Got? ==> SeenAlive()
      ensures r.Raised? ==> r.code == ChildDied || r.code == Unobserved
    {
      var exited :- Poll();
      if exited {
        return Raised(ChildDied);
      }
      return Got(());
    }

    method ProbeReadiness() returns (r: Try<bool>)
      modifies `probed
      ensures r.Got? ==> 0 < probed <= |probes| && (r.value <==> probes[probed - 1] == Up)
      ensures r.Raised? ==> r.code == ReadinessFailed || r.code == Unobserved
    {
      if probed >= |probes| {
        return Raised(Unobserved);
      }
      probed := probed + 1;
      match probes[probed - 1]
      case Up => return Got(true);
      case NotYet => return Got(false);
      case Failing => return Raised(ReadinessFailed);
    }

    method Sleep(duration: int)
      requires 0 < looked <= |clock| && clock[looked - 1].At?
      modifies `pauses
      ensures pauses == old(pauses) + [Pause(clock[looked - 1].time, duration)]
    {
      pauses := pauses + [Pause(clock[looked - 1].time, duration)];
    }

    method Emit(e: Event)
      modifies `log
      ensures log == old(log) + [e]
    {
      log := log + [e];
    }

    /** The tick is on its way before it is known whether it was accepted. */
    method SendTick(slot: int, at: int) returns (r: Try<()>)
      requires SeenAlive()
      modifies `sent, `log
      ensures r.Got? ==> log == old(log) + [Tick(slot, at, true)]
      ensures r.Raised? ==> log == old(log) + [Tick(slot, at, false)] && (r.code == TickFailed || r.code == Unobserved)
    {
      if sent >= |sends| || !sends[sent] {
        Emit(Tick(slot, at, false));
        return Raised(if sent >= |sends| then Unobserved else TickFailed);
      }
      sent := sent + 1;
      Emit(Tick(slot, at, true));
      return Got(());
    }

    method WaitExit() returns (r: Try<bool>)
      modifies `waited
      ensures r.Raised? ==> r.code == Unobserved
    {
      if waited >= |waits| {
        return Raised(Unobserved);
      }
      waited := waited + 1;
      return Got(waits[waited - 1]);
    }
  }

  // ---- The runner ----

  function Earlier(a: int, b: int): int {
    if a <= b then a else b
  }

  /** The child answered in time: before the cutoff, and within a minute of the first look. */
  method WaitUntilReady(env: Environment, s: Schedule) returns (r: Try<()>)
    requires Forward(env.clock)
    modifies env`looked, env`polled, env`probed, env`pauses
    ensures forall t :: old(env.NotBefore(t)) ==> env.NotBefore(t)
    ensures r.Got? ==>
              && 0 < env.probed <= |env.probes| && env.probes[env.probed - 1] == Up
              && old(env.looked) + 2 <= env.looked <= |env.clock|
              && env.clock[old(env.looked)].At? && env.clock[env.looked - 1].At?
              && env.clock[env.looked - 1].time < Earlier(env.clock[old(env.looked)].time + READY_TIMEOUT, s.cutoff)
    ensures r.Raised? ==> r.code in {ChildDied, ReadinessFailed, ClockInvalid, Unobserved}
    ensures old(env.pauses) <= env.pauses && PausesBeginBefore(env.pauses, |old(env.pauses)|, s.cutoff)
  {
    var begun :- env.Now();
    var deadline := Earlier(begun + READY_TIMEOUT, s.cutoff);
    var now :- env.Now();
    while now < deadline
      invariant old(env.looked) + 2 <= env.looked <= |env.clock|
      invariant env.clock[env.looked - 1] == At(now)
      invariant forall t :: old(env.NotBefore(t)) ==> env.NotBefore(t)
      invariant old(env.pauses) <= env.pauses && PausesBeginBefore(env.pauses, |old(env.pauses)|, s.cutoff)
      decreases |env.clock| - env.looked
    {
      var alive :- env.RequireAlive();
      var up :- env.ProbeReadiness();
      if up {
        return Got(());
      }
      env.Sleep(SECOND);
      now :- env.Now();
    }
    return Raised(ReadinessFailed);
  }

  /** Returns only once the clock has been read at or after the target or the cutoff, and never sleeps
      past either. */
  method WaitUntil(env: Environment, target: int, cutoff: int) returns (r: Try<()>)
    requires Forward(env.clock)
    modifies env`looked, env`polled, env`pauses
    ensures forall t :: old(env.NotBefore(t)) ==> env.NotBefore(t)
    ensures r.Got? ==> env.NotBefore(Earlier(target, cutoff))
    ensures r.Raised? ==> r.code in {ChildDied, ClockInvalid, Unobserved}
    ensures old(env.pauses) <= env.pauses && PausesEndBy(env.pauses, |old(env.pauses)|, Earlier(target, cutoff))
  {
    var now :- env.Now();
    while now < target && now < cutoff
      invariant old(env.looked) < env.looked <= |env.clock| && env.NotBefore(now) && env.clock[env.looked - 1] == At(now)
      invariant old(env.pauses) <= env.pauses && PausesEndBy(env.pauses, |old(env.pauses)|, Earlier(target, cutoff))
      invariant forall t :: old(env.NotBefore(t)) ==> env.NotBefore(t)
      decreases |env.clock| - env.looked
    {
      var alive :- env.RequireAlive();
      var pause := Earlier(SECOND, Earlier(target, cutoff) - now);
      env.Sleep(pause);
      now :- env.Now();
    }
    return Got(());
  }

  ghost predicate Aiming(env: Environment, s: Schedule, next: int)
    reads env
  {
    var phase := Reads(s, env.log);
    phase.Ticking? && phase.next == next && env.NotBefore(phase.since)
  }

  lemma TickStep(s: Schedule, log: seq<Event>, now: int)
    requires Reads(s, log).Ticking? && Reads(s, log).next <= now && Reads(s, log).since <= now < s.cutoff
    ensures var next := Reads(s, log).next;
            && Reads(s, log + [Tick(next, now, true)]) == Ticking(next + CADENCE, now)
            && Reads(s, log + [Tick(next, now, false)]) == Ended(false)
  {
    ReadsSnoc(s, log, Tick(Reads(s, log).next, now, true));
    ReadsSnoc(s, log, Tick(Reads(s, log).next, now, false));
  }

  /** One turn of the tick loop: false when the cutoff came first. */
  method TakeTick(env: Environment, s: Schedule, next: int) returns (r: Try<bool>)
    requires Forward(env.clock) && Aiming(env, s, next) && next < s.cutoff
    modifies env
    ensures r == Got(true) ==> Aiming(env, s, next + CADENCE)
    ensures r == Got(false) ==> Aiming(env, s, next)
    ensures r.Raised? ==> Reads(s, env.log).Ticking? || (Reads(s, env.log) == Ended(false) && r.code in {TickFailed, Unobserved})
    ensures r.Raised? ==> r.code in {ChildDied, TickFailed, ClockInvalid, Unobserved}
    ensures r == Raised(TickFailed) ==> Reads(s, env.log) == Ended(false)
  {
    var waited :- WaitUntil(env, next, s.cutoff);
    var now :- env.Now();
    if now >= s.cutoff {
      return Got(false);
    }
    var alive :- env.RequireAlive();
    TickStep(s, env.log, now);
    var sent :- env.SendTick(next, now);
    return Got(true);
  }

  method RunTicks(env: Environment, s: Schedule, first: int) returns (r: Try<()>)
    requires Forward(env.clock) && Aiming(env, s, first)
    modifies env
    ensures r.Got? ==> Reads(s, env.log) == Ended(true)
    ensures r.Raised? ==> Reads(s, env.log).Ticking? || (Reads(s, env.log) == Ended(false) && r.code in {TickFailed, Unobserved})
    ensures r.Raised? ==> r.code in {ChildDied, TickFailed, ClockInvalid, Unobserved}
    ensures r == Raised(TickFailed) ==> Reads(s, env.log) == Ended(false)
  {
    var next := first;
    while next < s.cutoff
      invariant Aiming(env, s, next)
      decreases s.cutoff - next
    {
      var ticked :- TakeTick(env, s, next);
      if !ticked {
        break;
      }
      next := next + CADENCE;
    }
    var waited :- WaitUntil(env, s.cutoff, s.cutoff);
    var now :- env.Now();
    ReadsSnoc(s, env.log, CutoffReached(now));
    env.Emit(CutoffReached(now));
    return Got(());
  }

  method Serve(env: Environment, s: Schedule) returns (r: Try<()>)
    requires Forward(env.clock) && Reads(s, env.log).Waiting? && env.NotBefore(Reads(s, env.log).since)
    modifies env
    ensures r.Got? ==> Reads(s, env.log) == Ended(true)
    ensures r.Raised? ==> Active(Reads(s, env.log)) && Reads(s, env.log) != Ended(true)
    ensures r.Raised? ==> r.code in {ChildDied, ReadinessFailed, TickFailed, ClockInvalid, Unobserved}
    ensures r == Raised(TickFailed) ==> Reads(s, env.log) == Ended(false)
  {
    var up :- WaitUntilReady(env, s);
    var now :- env.Now();
    ReadsSnoc(s, env.log, Ready(now));
    env.Emit(Ready(now));
    now :- env.Now();
    ReadsSnoc(s, env.log, Aimed(now));
    env.Emit(Aimed(now));
    r := RunTicks(env, s, NextTick(s.start, now));
  }

  /** The child is seen gone, or is told to go, and is killed if it does not. */
  method StopProcess(env: Environment, s: Schedule) returns (r: Try<()>)
    requires Active(Reads(s, env.log))
    modifies env`polled, env`waited, env`log
    ensures r != Raised(Unobserved) ==> Reads(s, env.log).Down?
    ensures Reads(s, env.log).Down? || env.log == old(env.log)
    ensures Reads(s, env.log).Down? ==>
              (Reads(s, env.log).complete <==> Reads(s, old(env.log)) == Ended(true))
    ensures r.Raised? ==> r.code == StopTimedOut || r.code == Unobserved
  {
    var gone :- env.Poll();
    ReadsSnoc(s, env.log, ExitSeen);
    ReadsSnoc(s, env.log, Terminated);
    if gone {
      env.Emit(ExitSeen);
      return Got(());
    }
    env.Emit(Terminated);
    var exited :- env.WaitExit();
    if !exited {
      ReadsSnoc(s, env.log, Killed);
      env.Emit(Killed);
      exited :- env.WaitExit();
      if !exited {
        return Raised(StopTimedOut);
      }
    }
    return Got(());
  }

  /** From the child's start to its end. */
  method RunChild(env: Environment, s: Schedule, now: int) returns (r: Try<()>)
    requires Forward(env.clock) && env.log == [] && env.NotBefore(now)
    requires s.start - MAXIMUM_START_LEAD <= now < s.cutoff
    modifies env
    ensures env.log != [] && Proper(s, env.log)
    ensures r.Got? ==> Complete(s, env.log)
    ensures r != Raised(Unobserved) ==> Reads(s, env.log).Down?
    ensures r.Raised? && r.code in {ChildDied, ReadinessFailed, TickFailed} ==> Reads(s, env.log) == Down(false)
    ensures r.Raised? ==> r.code in {ChildDied, ReadinessFailed, TickFailed, ClockInvalid, StopTimedOut, Unobserved}
  {
    ReadsSnoc(s, env.log, Started(now));
    env.Emit(Started(now));
    var served := Serve(env, s);
    var stop :- StopProcess(env, s);
    var last :- env.Now();
    ReadsSnoc(s, env.log, Stopped(last));
    env.Emit(Stopped(last));
    return served;
  }

  /** A whole run.  `portIsClear` is None when the port check itself fails. */
  method RunWindow(env: Environment, s: Schedule, portIsClear: Try<bool>, spawns: bool) returns (r: Try<()>)
    requires Forward(env.clock) && env.log == [] && env.looked == 0
    modifies env
    ensures Proper(s, env.log)
    ensures r.Got? ==> Complete(s, env.log)
    // Whatever happens after the child is started, it is stopped before the run is over.
    ensures env.log != [] && r != Raised(Unobserved) ==> Reads(s, env.log).Down?
    // Nothing is started unless the window is open, the port is clear and the child can be spawned.
    ensures env.log == [] ==> r.Raised?
    ensures env.log != [] ==>
              && portIsClear == Got(true) && spawns && |env.clock| > 0 && env.clock[0].At?
              && s.start - MAXIMUM_START_LEAD <= env.clock[0].time < s.cutoff
    ensures r == Raised(NotOpen) <==>
              |env.clock| > 0 && env.clock[0].At? && env.clock[0].time < s.start - MAXIMUM_START_LEAD
    ensures r == Raised(Closed) <==>
              && |env.clock| > 0 && env.clock[0].At?
              && s.start - MAXIMUM_START_LEAD <= env.clock[0].time && s.cutoff <= env.clock[0].time
    // A refused tick is reported, and the run does not count as complete.
    ensures r.Raised? && r.code in {ChildDied, ReadinessFailed, TickFailed} ==> Reads(s, env.log) == Down(false)
  {
    var now :- env.Now();
    if now < s.start - MAXIMUM_START_LEAD {
      return Raised(NotOpen);
    }
    if now >= s.cutoff {
      return Raised(Closed);
    }
    if portIsClear.Raised? {
      return Raised(PortCheckFailed);
    }
    if !portIsClear.value {
      return Raised(PortOccupied);
    }
    if !spawns {
      return Raised(SpawnFailed);
    }
    r := RunChild(env, s, now);
  }
}
