/** At-most-once dispatch of an approved order, over every interleaving, crash and retry of processes.

    One event is one step of one process between two effects on the outside: reading the approval,
    making the artifact directory, running the command-line tool, writing an artifact, reading the
    clock, creating the dispatch marker, submitting.  A process may crash between any two. */
module Dispatch {
  import opened Common

  type Path = string
  type Order = string

  const FRESHNESS := 60

  datatype Preconditions = Preconditions(
    checkedAt: int, expiresAt: int, book: string, role: string,
    marketOpen: bool, buyingPowerVerified: bool, positionsReconciled: bool, quotesFresh: bool,
    riskRechecked: bool, idempotencyClear: bool, submitAuthorized: bool)

  /** `wellFormed` stands for the checks on the approval's fields and hashes, which read no clock. */
  datatype Approval = Approval(
    wellFormed: bool, hash: string, order: Order, book: string, role: string, validUntil: int, pre: Preconditions)

  predicate Approves(a: Approval, instant: int) {
    a.wellFormed && instant < a.validUntil
  }

  /** The preconditions for a submission hold at `instant`. */
  predicate MaySubmit(a: Approval, instant: int) {
    var p := a.pre;
    && p.book == a.book && p.role == a.role
    && p.marketOpen && p.buyingPowerVerified && p.positionsReconciled && p.quotesFresh
    && p.riskRechecked && p.idempotencyClear && p.submitAuthorized
    && p.checkedAt <= instant <= p.expiresAt <= a.validUntil
    && p.expiresAt - p.checkedAt <= FRESHNESS
  }

  // ---- Processes and the world they share ----

  datatype Stage =
    | Begun | Approved | Opened | Identified | Rehearsed | Requested | Recorded
    | Reidentified | Timed | Claimed | Sent | Answered | Finished | Stopped

  datatype Process = Process(
    path: Path, directory: Path, execute: bool, stage: Stage,
    approval: Option<Approval>, instant: int, authorized: bool, identified: nat, rehearsed: Option<Order>, dispatch: int)

  /** An artifact directory, with the process that made it. */
  datatype Artifacts = Artifacts(owner: nat, request: Option<Order>, provenance: bool, result: bool)

  /** A call of the tool's submit command, with what the process had established before it. */
  datatype Submission = Submission(
    caller: nat, path: Path, approval: Approval, dispatch: int, directory: Path,
    requested: bool, authorized: bool, identified: nat, rehearsed: Option<Order>)

  /** `marked` are the approval paths whose dispatch marker exists, with the process that created it. */
  datatype World = World(
    processes: map<nat, Process>,
    artifacts: map<Path, Artifacts>,
    marked: map<Path, nat>,
    submissions: seq<Submission>)

  const EMPTY := World(map[], map[], map[], [])

  datatype Claim = Created | CreatedThenFailed | NotCreated

  datatype Event =
    | Begin(p: nat, path: Path, directory: Path, execute: bool)
    | Load(p: nat, approval: Approval, instant: int, credentialsMatch: bool)
    | Open(p: nat, works: bool)
    | Identify(p: nat, genuine: bool)
    | Rehearse(p: nat, answer: Order)
    | WriteRequest(p: nat, works: bool)
    | WriteProvenance(p: nat, works: bool)
    | ReadClock(p: nat, now: int)
    | Mark(p: nat, claim: Claim)
    | Submit(p: nat)
    | Answer(p: nat, matches: bool)
    | WriteResult(p: nat, works: bool)
    | Crash(p: nat)

  function Move(w: World, p: nat, q: Process): World {
    w.(processes := w.processes[p := q])
  }

  predicate At(w: World, p: nat, stage: Stage) {
    p in w.processes && w.processes[p].stage == stage
  }

  function To(q: Process, stage: Stage): Process {
    q.(stage := stage)
  }

  /** Creating the marker is exclusive: it fails when the marker is there.  It may also fail after the
      marker was created, when its content cannot be written or synced. */
  function TryMark(w: World, p: nat, q: Process, claim: Claim): World {
    if q.path in w.marked || claim.NotCreated? then Move(w, p, To(q, Stopped))
    else
      var marked := w.(marked := w.marked[q.path := p]);
      Move(marked, p, To(q, if claim.Created? then Claimed else Stopped))
  }

  function Begins(w: World, p: nat, path: Path, directory: Path, execute: bool): World {
    if p in w.processes then w else Move(w, p, Process(path, directory, execute, Begun, None, 0, false, 0, None, 0))
  }

  /** Reads the approval and checks it, the credentials, and for a submission the preconditions. */
  function Loads(w: World, p: nat, a: Approval, instant: int, credentialsMatch: bool): World {
    if !At(w, p, Begun) then w
    else
      var q := w.processes[p];
      var fine := Approves(a, instant) && credentialsMatch && (q.execute ==> MaySubmit(a, instant));
      if !fine then Move(w, p, To(q, Stopped))
      else Move(w, p, q.(stage := Approved, approval := Some(a), instant := instant, authorized := true))
  }

  /** Makes the artifact directory, which must not be there. */
  function Opens(w: World, p: nat, works: bool): World {
    if !At(w, p, Approved) then w
    else
      var q := w.processes[p];
      if q.directory in w.artifacts || !works then Move(w, p, To(q, Stopped))
      else Move(w.(artifacts := w.artifacts[q.directory := Artifacts(p, None, false, false)]), p, To(q, Opened))
  }

  /** Checks that the tool is the pinned one and is on the paper host: before the rehearsal, and again
      before a submission. */
  function Identifies(w: World, p: nat, genuine: bool): World {
    if !At(w, p, Opened) && !At(w, p, Recorded) then w
    else
      var q := w.processes[p];
      if !genuine then Move(w, p, To(q, Stopped))
      else if q.stage == Opened then Move(w, p, q.(stage := Identified, identified := q.identified + 1))
      else Move(w, p, q.(stage := Reidentified, identified := q.identified + 1))
  }

  /** The dry run must give back the approved order. */
  function Rehearses(w: World, p: nat, answer: Order): World {
    if !At(w, p, Identified) || w.processes[p].approval == None then w
    else
      var q := w.processes[p];
      Move(w, p, q.(stage := if answer == q.approval.value.order then Rehearsed else Stopped, rehearsed := Some(answer)))
  }

  function WritesRequest(w: World, p: nat, works: bool): World {
    if !At(w, p, Rehearsed) || w.processes[p].approval == None then w
    else
      var q := w.processes[p];
      if q.directory !in w.artifacts || !works then Move(w, p, To(q, Stopped))
      else
        var kept := w.artifacts[q.directory].(request := Some(q.approval.value.order));
        Move(w.(artifacts := w.artifacts[q.directory := kept]), p, To(q, Requested))
  }

  function WritesProvenance(w: World, p: nat, works: bool): World {
    if !At(w, p, Requested) then w
    else
      var q := w.processes[p];
      if q.directory !in w.artifacts || !works then Move(w, p, To(q, Stopped))
      else
        var kept := w.artifacts[q.directory].(provenance := true);
        Move(w.(artifacts := w.artifacts[q.directory := kept]), p, To(q, if q.execute then Recorded else Finished))
  }

  /** The preconditions are checked again at the dispatch time. */
  function ReadsClock(w: World, p: nat, now: int): World {
    if !At(w, p, Reidentified) || w.processes[p].approval == None then w
    else
      var q := w.processes[p];
      Move(w, p, if MaySubmit(q.approval.value, now) then q.(stage := Timed, dispatch := now) else To(q, Stopped))
  }

  function Marks(w: World, p: nat, claim: Claim): World {
    if !At(w, p, Timed) then w else TryMark(w, p, w.processes[p], claim)
  }

  function CallOf(p: nat, q: Process, a: Approval): Submission {
    Submission(p, q.path, a, q.dispatch, q.directory, q.execute, q.authorized, q.identified, q.rehearsed)
  }

  /** The one call that sends the order. */
  function Submits(w: World, p: nat): World {
    if !At(w, p, Claimed) || w.processes[p].approval == None then w
    else
      var q := w.processes[p];
      var call := CallOf(p, q, q.approval.value);
      Move(w.(submissions := w.submissions + [call]), p, To(q, Sent))
  }

  function IsAnswered(w: World, p: nat, matches: bool): World {
    if !At(w, p, Sent) then w else Move(w, p, To(w.processes[p], if matches then Answered else Stopped))
  }

  function WritesResult(w: World, p: nat, works: bool): World {
    if !At(w, p, Answered) then w
    else
      var q := w.processes[p];
      if q.directory !in w.artifacts || !works then Move(w, p, To(q, Stopped))
      else
        var kept := w.artifacts[q.directory].(result := true);
        Move(w.(artifacts := w.artifacts[q.directory := kept]), p, To(q, Finished))
  }

  function Crashes(w: World, p: nat): World {
    if p !in w.processes then w else Move(w, p, To(w.processes[p], Stopped))
  }

  /** One step; an event that the process is not ready for changes nothing. */
  function Step(w: World, e: Event): World {
    match e
    case Begin(p, path, directory, execute) => Begins(w, p, path, directory, execute)
    case Load(p, a, instant, credentialsMatch) => Loads(w, p, a, instant, credentialsMatch)
    case Open(p, works) => Opens(w, p, works)
    case Identify(p, genuine) => Identifies(w, p, genuine)
    case Rehearse(p, answer) => Rehearses(w, p, answer)
    case WriteRequest(p, works) => WritesRequest(w, p, works)
    case WriteProvenance(p, works) => WritesProvenance(w, p, works)
    case ReadClock(p, now) => ReadsClock(w, p, now)
    case Mark(p, claim) => Marks(w, p, claim)
    case Submit(p) => Submits(w, p)
    case Answer(p, matches) => IsAnswered(w, p, matches)
    case WriteResult(p, works) => WritesResult(w, p, works)
    case Crash(p) => Crashes(w, p)
  }

  function Run(w: World, events: seq<Event>): World {
    if events == [] then w else Step(Run(w, events[..|events| - 1]), events[|events| - 1])
  }

  // ---- What every reachable world satisfies ----

  /** The order of the stages: up to 9 nothing has been sent, from 10 on the process will not send again. */
  function Rank(stage: Stage): nat {
    match stage
    case Begun => 0
    case Approved => 1
    case Opened => 2
    case Identified => 3
    case Rehearsed => 4
    case Requested => 5
    case Recorded => 6
    case Reidentified => 7
    case Timed => 8
    case Claimed => 9
    case Sent => 10
    case Answered => 11
    case Finished => 12
    case Stopped => 13
  }

  /** What process `p` has established by its stage, given by its rank. */
  predicate Established(w: World, p: nat, q: Process) {
    var rank := Rank(q.stage);
    && (1 <= rank <= 11 ==>
          && q.approval.Some? && q.authorized && Approves(q.approval.value, q.instant)
          && (q.execute ==> MaySubmit(q.approval.value, q.instant)))
    && (4 <= rank <= 11 ==> q.rehearsed == Some(q.approval.value.order))
    && (rank <= 2 ==> q.identified == 0)
    && (3 <= rank <= 6 ==> q.identified == 1)
    && (7 <= rank <= 11 ==> q.identified == 2)
    && (2 <= rank <= 11 ==> q.directory in w.artifacts && w.artifacts[q.directory].owner == p)
    && (5 <= rank <= 11 ==> w.artifacts[q.directory].request == Some(q.approval.value.order))
    && (6 <= rank <= 11 ==> q.execute && w.artifacts[q.directory].provenance)
    && (8 <= rank <= 11 ==> MaySubmit(q.approval.value, q.dispatch))
    && (9 <= rank <= 11 ==> q.path in w.marked && w.marked[q.path] == p)
  }

  /** What stays true of a submission once it is made. */
  predicate Justified(w: World, c: Submission) {
    && c.caller in w.processes && 10 <= Rank(w.processes[c.caller].stage)
    && c.requested && c.authorized && c.approval.wellFormed && MaySubmit(c.approval, c.dispatch)
    && c.identified == 2 && c.rehearsed == Some(c.approval.order)
    && c.path in w.marked && w.marked[c.path] == c.caller
    && c.directory in w.artifacts && w.artifacts[c.directory].owner == c.caller
    && w.artifacts[c.directory].request == Some(c.approval.order) && w.artifacts[c.directory].provenance
  }

  ghost predicate Inv(w: World) {
    && (forall p :: p in w.processes ==> Established(w, p, w.processes[p]))
    && (forall c :: c in w.submissions ==> Justified(w, c))
    && (forall i, j :: 0 <= i < j < |w.submissions| ==> w.submissions[i].caller != w.submissions[j].caller)
  }

  // ---- Every step keeps it ----

  predicate ArtifactsGrow(w: World, v: World, p: nat) {
    forall d :: d in w.artifacts ==>
      && d in v.artifacts && v.artifacts[d].owner == w.artifacts[d].owner
      && (w.artifacts[d].owner != p || At(w, p, Answered) ==>
            v.artifacts[d].request == w.artifacts[d].request && v.artifacts[d].provenance == w.artifacts[d].provenance)
  }

  /** A step of process `p` leaves every other process, and what others have recorded, alone. */
  ghost predicate Frame(w: World, v: World, p: nat) {
    && v.processes.Keys == w.processes.Keys + {p}
    && (forall o :: o in w.processes && o != p ==> v.processes[o] == w.processes[o])
    && (p in w.processes ==> Rank(w.processes[p].stage) <= Rank(v.processes[p].stage))
    && ArtifactsGrow(w, v, p)
    && (forall path :: path in w.marked ==> path in v.marked && v.marked[path] == w.marked[path])
  }

  lemma OtherKeeps(w: World, v: World, p: nat, o: nat)
    requires Frame(w, v, p) && o != p && o in w.processes && Established(w, o, w.processes[o])
    ensures Established(v, o, v.processes[o])
  {
  }

  lemma SubmissionKeeps(w: World, v: World, p: nat, c: Submission)
    requires Frame(w, v, p) && Justified(w, c)
    requires p in w.processes && 10 <= Rank(w.processes[p].stage) ==>
               At(w, p, Answered) || v.artifacts == w.artifacts
    ensures Justified(v, c)
  {
  }

  lemma FrameKeeps(w: World, v: World, p: nat)
    requires Inv(w) && Frame(w, v, p) && v.submissions == w.submissions
    requires p in w.processes && 10 <= Rank(w.processes[p].stage) ==>
               At(w, p, Answered) || v.artifacts == w.artifacts
    requires Established(v, p, v.processes[p])
    ensures Inv(v)
  {
    forall o | o in v.processes ensures Established(v, o, v.processes[o]) {
      if o != p {
        OtherKeeps(w, v, p, o);
      }
    }
    forall c | c in v.submissions ensures Justified(v, c) {
      SubmissionKeeps(w, v, p, c);
    }
  }

  /** Moving one process on, with nothing else changed. */
  lemma MoveKeeps(w: World, p: nat, q: Process)
    requires Inv(w) && Established(w, p, q)
    requires p in w.processes ==> Rank(w.processes[p].stage) <= Rank(q.stage)
    ensures Inv(Move(w, p, q))
  {
    FrameKeeps(w, Move(w, p, q), p);
  }

  lemma StoppedEstablishes(w: World, p: nat, q: Process)
    ensures Established(w, p, To(q, Stopped)) && Established(w, p, To(q, Finished))
  {
  }

  lemma ArtifactFrame(w: World, p: nat, d: Path, a: Artifacts, q: Process)
    requires p in w.processes && a.owner == p && (d in w.artifacts ==> w.artifacts[d].owner == p)
    requires At(w, p, Answered) ==>
               d in w.artifacts && a.request == w.artifacts[d].request && a.provenance == w.artifacts[d].provenance
    requires Rank(w.processes[p].stage) <= Rank(q.stage)
    ensures Frame(w, Move(w.(artifacts := w.artifacts[d := a]), p, q), p)
  {
  }

  lemma ArtifactKeeps(w: World, p: nat, d: Path, a: Artifacts, q: Process)
    requires Inv(w) && p in w.processes && a.owner == p && (d in w.artifacts ==> w.artifacts[d].owner == p)
    requires Rank(w.processes[p].stage) < 10 ||
             (At(w, p, Answered) && d in w.artifacts &&
              a.request == w.artifacts[d].request && a.provenance == w.artifacts[d].provenance)
    requires Rank(w.processes[p].stage) <= Rank(q.stage)
    requires Established(w.(artifacts := w.artifacts[d := a]), p, q)
    ensures Inv(Move(w.(artifacts := w.artifacts[d := a]), p, q))
  {
    var u := w.(artifacts := w.artifacts[d := a]);
    ArtifactFrame(w, p, d, a, q);
    assert Established(Move(u, p, q), p, q);
    FrameKeeps(w, Move(u, p, q), p);
  }

  lemma MarkFrame(w: World, p: nat, q: Process)
    requires At(w, p, Timed) && 8 <= Rank(q.stage) && w.processes[p].path !in w.marked
    ensures Frame(w, Move(w.(marked := w.marked[w.processes[p].path := p]), p, q), p)
  {
  }

  lemma ClaimEstablishes(w: World, p: nat, q: Process)
    requires Established(w, p, q) && q.stage == Timed
    ensures Established(w.(marked := w.marked[q.path := p]), p, To(q, Claimed))
  {
  }

  lemma CreatedKeeps(w: World, p: nat, stage: Stage)
    requires Inv(w) && At(w, p, Timed) && w.processes[p].path !in w.marked && (stage == Claimed || stage == Stopped)
    ensures var q := w.processes[p]; Inv(Move(w.(marked := w.marked[q.path := p]), p, To(q, stage)))
  {
    var q := w.processes[p];
    var marked := w.(marked := w.marked[q.path := p]);
    assert Established(w, p, q);
    StoppedEstablishes(marked, p, q);
    ClaimEstablishes(w, p, q);
    MarkFrame(w, p, To(q, stage));
    FrameKeeps(w, Move(marked, p, To(q, stage)), p);
  }

  lemma MarkKeeps(w: World, p: nat, claim: Claim)
    requires Inv(w) && At(w, p, Timed)
    ensures Inv(TryMark(w, p, w.processes[p], claim))
  {
    var q := w.processes[p];
    if q.path in w.marked || claim.NotCreated? {
      StoppedEstablishes(w, p, q);
      MoveKeeps(w, p, To(q, Stopped));
    } else {
      CreatedKeeps(w, p, if claim.Created? then Claimed else Stopped);
    }
  }

  lemma CallJustified(w: World, p: nat)
    requires At(w, p, Claimed) && Established(w, p, w.processes[p])
    ensures var q := w.processes[p];
            var v := Move(w, p, To(q, Sent));
            && Established(v, p, To(q, Sent))
            && Justified(v, CallOf(p, q, q.approval.value))
  {
  }

  lemma CallerIsNew(w: World, p: nat, c: Submission)
    requires At(w, p, Claimed) && Justified(w, c)
    ensures c.caller != p
  {
  }

  lemma WithCall(v: World, s: World, call: Submission)
    requires Inv(v) && Justified(v, call) && (forall c :: c in v.submissions ==> c.caller != call.caller)
    requires s == v.(submissions := v.submissions + [call])
    ensures Inv(s)
  {
    forall o | o in s.processes ensures Established(s, o, s.processes[o]) {
      assert Established(v, o, v.processes[o]);
    }
    forall c | c in s.submissions ensures Justified(s, c) {
      assert c in v.submissions || c == call;
      assert Justified(v, c);
    }
    forall i, j | 0 <= i < j < |s.submissions| ensures s.submissions[i].caller != s.submissions[j].caller {
      assert v.submissions[i] in v.submissions;
    }
  }

  lemma SubmitKeeps(w: World, p: nat)
    requires Inv(w) && At(w, p, Claimed)
    ensures Inv(Step(w, Submit(p)))
  {
    var q := w.processes[p];
    CallJustified(w, p);
    MoveKeeps(w, p, To(q, Sent));
    forall c | c in w.submissions ensures c.caller != p {
      CallerIsNew(w, p, c);
    }
    WithCall(Move(w, p, To(q, Sent)), Step(w, Submit(p)),
             CallOf(p, q, q.approval.value));
  }

  /** Every step keeps the invariant. */
  lemma StepKeeps(w: World, e: Event)
    requires Inv(w)
    ensures Inv(Step(w, e))
  {
    var v := Step(w, e);
    if e.p in w.processes {
      StoppedEstablishes(w, e.p, w.processes[e.p]);
    }
    match e
    case Submit(p) =>
      if At(w, p, Claimed) && w.processes[p].approval.Some? {
        SubmitKeeps(w, p);
      }
    case Mark(p, claim) =>
      if At(w, p, Timed) {
        MarkKeeps(w, p, claim);
      }
    case _ => OrdinaryStepKeeps(w, e);
  }

  /** The step only moves its process on. */
  predicate Moves(w: World, v: World, p: nat) {
    && p in v.processes && v == Move(w, p, v.processes[p]) && Established(w, p, v.processes[p])
    && (p in w.processes ==> Rank(w.processes[p].stage) <= Rank(v.processes[p].stage))
  }

  /** The step records something in its process's own directory and moves it on. */
  predicate Writes(w: World, v: World, p: nat) {
    && p in v.processes && p in w.processes && Rank(w.processes[p].stage) <= Rank(v.processes[p].stage)
    && var d := w.processes[p].directory;
       && d in v.artifacts && v.artifacts[d].owner == p && (d in w.artifacts ==> w.artifacts[d].owner == p)
       && v == Move(w.(artifacts := w.artifacts[d := v.artifacts[d]]), p, v.processes[p])
       && Established(w.(artifacts := w.artifacts[d := v.artifacts[d]]), p, v.processes[p])
       && (Rank(w.processes[p].stage) < 10 ||
             (At(w, p, Answered) && d in w.artifacts && v.artifacts[d].request == w.artifacts[d].request &&
              v.artifacts[d].provenance == w.artifacts[d].provenance))
  }

  lemma BeginStep(w: World, e: Event)
    requires e.Begin? && Step(w, e) != w && (e.p in w.processes ==> Established(w, e.p, w.processes[e.p]))
    ensures Moves(w, Step(w, e), e.p)
  {
  }

  lemma LoadStep(w: World, e: Event)
    requires e.Load? && Step(w, e) != w && (e.p in w.processes ==> Established(w, e.p, w.processes[e.p]))
    ensures Moves(w, Step(w, e), e.p)
  {
  }

  lemma IdentifyStep(w: World, e: Event)
    requires e.Identify? && Step(w, e) != w && (e.p in w.processes ==> Established(w, e.p, w.processes[e.p]))
    ensures Moves(w, Step(w, e), e.p)
  {
  }

  lemma RehearseStep(w: World, e: Event)
    requires e.Rehearse? && Step(w, e) != w && (e.p in w.processes ==> Established(w, e.p, w.processes[e.p]))
    ensures Moves(w, Step(w, e), e.p)
  {
  }

  lemma ReadClockStep(w: World, e: Event)
    requires e.ReadClock? && Step(w, e) != w && (e.p in w.processes ==> Established(w, e.p, w.processes[e.p]))
    ensures Moves(w, Step(w, e), e.p)
  {
  }

  lemma AnswerStep(w: World, e: Event)
    requires e.Answer? && Step(w, e) != w && (e.p in w.processes ==> Established(w, e.p, w.processes[e.p]))
    ensures Moves(w, Step(w, e), e.p)
  {
  }

  lemma CrashStep(w: World, e: Event)
    requires e.Crash? && Step(w, e) != w && (e.p in w.processes ==> Established(w, e.p, w.processes[e.p]))
    ensures Moves(w, Step(w, e), e.p)
  {
  }

  lemma OpenStep(w: World, e: Event)
    requires e.Open? && Step(w, e) != w && (e.p in w.processes ==> Established(w, e.p, w.processes[e.p]))
    ensures Moves(w, Step(w, e), e.p) || Writes(w, Step(w, e), e.p)
  {
  }

  lemma WriteRequestStep(w: World, e: Event)
    requires e.WriteRequest? && Step(w, e) != w && (e.p in w.processes ==> Established(w, e.p, w.processes[e.p]))
    ensures Moves(w, Step(w, e), e.p) || Writes(w, Step(w, e), e.p)
  {
  }

  lemma WriteProvenanceStep(w: World, e: Event)
    requires e.WriteProvenance? && Step(w, e) != w && (e.p in w.processes ==> Established(w, e.p, w.processes[e.p]))
    ensures Moves(w, Step(w, e), e.p) || Writes(w, Step(w, e), e.p)
  {
  }

  lemma WriteResultStep(w: World, e: Event)
    requires e.WriteResult? && Step(w, e) != w && (e.p in w.processes ==> Established(w, e.p, w.processes[e.p]))
    ensures Moves(w, Step(w, e), e.p) || Writes(w, Step(w, e), e.p)
  {
  }

  lemma OrdinaryStep(w: World, e: Event)
    requires !e.Submit? && !e.Mark? && Step(w, e) != w
    requires e.p in w.processes ==> Established(w, e.p, w.processes[e.p])
    ensures Moves(w, Step(w, e), e.p) || Writes(w, Step(w, e), e.p)
  {
    match e
    case Begin(_, _, _, _) => BeginStep(w, e);
    case Load(_, _, _, _) => LoadStep(w, e);
    case Open(_, _) => OpenStep(w, e);
    case Identify(_, _) => IdentifyStep(w, e);
    case Rehearse(_, _) => RehearseStep(w, e);
    case WriteRequest(_, _) => WriteRequestStep(w, e);
    case WriteProvenance(_, _) => WriteProvenanceStep(w, e);
    case ReadClock(_, _) => ReadClockStep(w, e);
    case Answer(_, _) => AnswerStep(w, e);
    case WriteResult(_, _) => WriteResultStep(w, e);
    case Crash(_) => CrashStep(w, e);
  }

  lemma OrdinaryStepKeeps(w: World, e: Event)
    requires Inv(w) && !e.Submit? && !e.Mark?
    ensures Inv(Step(w, e))
  {
    var v, p := Step(w, e), e.p;
    if v != w {
      OrdinaryStep(w, e);
      if Moves(w, v, p) {
        MoveKeeps(w, p, v.processes[p]);
      } else {
        var d := w.processes[p].directory;
        ArtifactKeeps(w, p, d, v.artifacts[d], v.processes[p]);
      }
    }
  }

  // ---- Over whole runs ----

  lemma {:induction false} RunKeeps(events: seq<Event>)
    ensures Inv(Run(EMPTY, events))
  {
    if events != [] {
      RunKeeps(events[..|events| - 1]);
      StepKeeps(Run(EMPTY, events[..|events| - 1]), events[|events| - 1]);
    }
  }

  /** Whatever processes run, crash and are retried, an approval path is submitted at most once, and only
      after a matching rehearsal, two identity checks, recorded request and provenance, and preconditions
      that hold at the dispatch time. */
  lemma AtMostOnce(events: seq<Event>, i: nat, j: nat)
    requires i < j < |Run(EMPTY, events).submissions|
    ensures Run(EMPTY, events).submissions[i].path != Run(EMPTY, events).submissions[j].path
  {
    RunKeeps(events);
    var w := Run(EMPTY, events);
    assert Justified(w, w.submissions[i]) && Justified(w, w.submissions[j]);
  }

  lemma SubmissionsAreJustified(events: seq<Event>, c: Submission)
    requires c in Run(EMPTY, events).submissions
    ensures Justified(Run(EMPTY, events), c)
  {
    RunKeeps(events);
  }

  /** The marker is there and the process that made it will not submit any more: it has submitted, has
      crashed, or failed while writing the marker. */
  predicate Spent(w: World, path: Path) {
    && path in w.marked && w.marked[path] in w.processes
    && Rank(w.processes[w.marked[path]].stage) > 9
  }

  lemma StaysSpent(w: World, e: Event, path: Path)
    requires Inv(w) && Spent(w, path)
    ensures Spent(Step(w, e), path)
    ensures forall c :: c in Step(w, e).submissions && c.path == path ==> c in w.submissions
  {
    var v := Step(w, e);
    if e.Submit? {
      SubmitStaysSpent(w, e.p, path);
    } else if e.Mark? {
      MarkStaysSpent(w, e.p, e.claim, path);
    } else if v != w {
      OrdinaryStep(w, e);
    }
  }

  lemma SubmitStaysSpent(w: World, p: nat, path: Path)
    requires Inv(w) && Spent(w, path)
    ensures Spent(Step(w, Submit(p)), path)
    ensures forall c :: c in Step(w, Submit(p)).submissions && c.path == path ==> c in w.submissions
  {
    if At(w, p, Claimed) {
      assert Established(w, p, w.processes[p]);
      assert w.processes[p].path != path;
    }
  }

  lemma MarkStaysSpent(w: World, p: nat, claim: Claim, path: Path)
    requires Spent(w, path)
    ensures Spent(Step(w, Mark(p, claim)), path)
    ensures Step(w, Mark(p, claim)).submissions == w.submissions
  {
  }

  /** A crash after the claim means no later submission, however often it is retried. */
  lemma {:induction false} SpentForever(w: World, events: seq<Event>, path: Path)
    requires Inv(w) && Spent(w, path)
    ensures Inv(Run(w, events)) && Spent(Run(w, events), path)
    ensures forall c :: c in Run(w, events).submissions && c.path == path ==> c in w.submissions
  {
    if events != [] {
      var init, e := events[..|events| - 1], events[|events| - 1];
      SpentForever(w, init, path);
      StepKeeps(Run(w, init), e);
      StaysSpent(Run(w, init), e, path);
    }
  }

  /** A process that crashes while it holds the claim leaves the path spent. */
  lemma CrashSpends(w: World, p: nat)
    requires Inv(w) && At(w, p, Claimed)
    ensures Spent(Step(w, Crash(p)), w.processes[p].path)
    ensures Step(w, Crash(p)).submissions == w.submissions
    ensures forall c :: c in w.submissions ==> c.path != w.processes[p].path
  {
    assert Established(w, p, w.processes[p]);
    forall c | c in w.submissions ensures c.path != w.processes[p].path {
      assert Justified(w, c);
    }
  }

  // ---- The guard is per path ----

  /** The steps of one undisturbed submission, in four stretches. */
  function Approach(p: nat, path: Path, directory: Path, a: Approval, now: int): seq<Event> {
    [Begin(p, path, directory, true), Load(p, a, now, true), Open(p, true)]
  }

  function Rehearsal(p: nat, a: Approval): seq<Event> {
    [Identify(p, true), Rehearse(p, a.order)]
  }

  function Record(p: nat): seq<Event> {
    [WriteRequest(p, true), WriteProvenance(p, true)]
  }

  function Commit(p: nat, now: int): seq<Event> {
    [Identify(p, true), ReadClock(p, now), Mark(p, Created), Submit(p)]
  }

  function Solo(p: nat, path: Path, directory: Path, a: Approval, now: int): seq<Event> {
    Approach(p, path, directory, a, now) + (Rehearsal(p, a) + (Record(p) + Commit(p, now)))
  }

  function SoloCall(p: nat, path: Path, directory: Path, a: Approval, now: int): Submission {
    Submission(p, path, a, now, directory, true, true, 2, Some(a.order))
  }

  lemma RunOne(w: World, events: seq<Event>, e: Event)
    ensures Run(w, events + [e]) == Step(Run(w, events), e)
    ensures Run(w, []) == w
  {
    assert (events + [e])[..|events|] == events;
  }

  lemma RunPair(w: World, a: Event, b: Event)
    ensures Run(w, [a, b]) == Step(Step(w, a), b)
  {
    RunOne(w, [], a);
    RunOne(w, [a], b);
    assert [] + [a] == [a] && [a] + [b] == [a, b];
  }

  lemma {:induction false} RunOn(w: World, first: seq<Event>, second: seq<Event>)
    ensures Run(w, first + second) == Run(Run(w, first), second)
  {
    if second == [] {
      assert first + second == first;
    } else {
      var init, e := second[..|second| - 1], second[|second| - 1];
      RunOn(w, first, init);
      assert first + second == (first + init) + [e];
      RunOne(w, first + init, e);
    }
  }

  function Made(w: World, p: nat, directory: Path, request: Option<Order>, provenance: bool): World {
    w.(artifacts := w.artifacts[directory := Artifacts(p, request, provenance, false)])
  }

  lemma MoveTwice(w: World, p: nat, q: Process, r: Process)
    ensures Move(Move(w, p, q), p, r) == Move(w, p, r)
  {
  }

  lemma LoadTo(w: World, p: nat, q: Process, a: Approval, now: int)
    requires q.stage == Begun && MaySubmit(a, now) && Approves(a, now)
    ensures Step(Move(w, p, q), Load(p, a, now, true)) ==
            Move(w, p, q.(stage := Approved, approval := Some(a), instant := now, authorized := true))
  {
    MoveTwice(w, p, q, q.(stage := Approved, approval := Some(a), instant := now, authorized := true));
  }

  lemma OpenTo(w: World, p: nat, q: Process)
    requires q.stage == Approved && q.directory !in w.artifacts
    ensures Step(Move(w, p, q), Open(p, true)) == Move(Made(w, p, q.directory, None, false), p, To(q, Opened))
  {
    MoveTwice(Made(w, p, q.directory, None, false), p, q, To(q, Opened));
  }

  lemma ApproachOpens(w: World, p: nat, path: Path, directory: Path, a: Approval, now: int)
    requires p !in w.processes && directory !in w.artifacts && MaySubmit(a, now) && Approves(a, now)
    ensures Run(w, Approach(p, path, directory, a, now)) ==
            Move(Made(w, p, directory, None, false), p, Process(path, directory, true, Opened, Some(a), now, true, 0, None, 0))
  {
    var begin, load := Begin(p, path, directory, true), Load(p, a, now, true);
    var q := Process(path, directory, true, Begun, None, 0, false, 0, None, 0);
    RunPair(w, begin, load);
    LoadTo(w, p, q, a, now);
    RunOne(w, [begin, load], Open(p, true));
    OpenTo(w, p, q.(stage := Approved, approval := Some(a), instant := now, authorized := true));
    assert Approach(p, path, directory, a, now) == [begin, load] + [Open(p, true)];
  }

  lemma RehearsalMatches(w: World, p: nat, q: Process, a: Approval)
    requires q.stage == Opened && q.approval == Some(a)
    ensures Run(Move(w, p, q), Rehearsal(p, a)) ==
            Move(w, p, q.(stage := Rehearsed, identified := q.identified + 1, rehearsed := Some(a.order)))
  {
    RunPair(Move(w, p, q), Identify(p, true), Rehearse(p, a.order));
    assert Step(Move(w, p, q), Identify(p, true)) == Move(w, p, q.(stage := Identified, identified := q.identified + 1));
  }

  lemma MadeTwice(w: World, p: nat, directory: Path, request: Option<Order>, provenance: bool, a: Artifacts,
                  q: Process, r: Process)
    ensures Move((Move(Made(w, p, directory, request, provenance), p, q)).(artifacts := w.artifacts[directory := a]), p, r) ==
            Move(w.(artifacts := w.artifacts[directory := a]), p, r)
    ensures Move(Made(w, p, directory, request, provenance), p, q).artifacts[directory := a] == w.artifacts[directory := a]
  {
    MoveTwice(w.(artifacts := w.artifacts[directory := a]), p, q, r);
  }

  lemma RequestTo(w: World, p: nat, q: Process, a: Approval)
    requires q.stage == Rehearsed && q.approval == Some(a)
    ensures Step(Move(Made(w, p, q.directory, None, false), p, q), WriteRequest(p, true)) ==
            Move(Made(w, p, q.directory, Some(a.order), false), p, To(q, Requested))
  {
    MadeTwice(w, p, q.directory, None, false, Artifacts(p, Some(a.order), false, false), q, To(q, Requested));
  }

  lemma ProvenanceTo(w: World, p: nat, q: Process, order: Order)
    requires q.stage == Requested && q.execute
    ensures Step(Move(Made(w, p, q.directory, Some(order), false), p, q), WriteProvenance(p, true)) ==
            Move(Made(w, p, q.directory, Some(order), true), p, To(q, Recorded))
  {
    MadeTwice(w, p, q.directory, Some(order), false, Artifacts(p, Some(order), true, false), q, To(q, Recorded));
  }

  lemma RecordRecords(w: World, p: nat, q: Process, a: Approval)
    requires q.stage == Rehearsed && q.approval == Some(a) && q.execute
    ensures Run(Move(Made(w, p, q.directory, None, false), p, q), Record(p)) ==
            Move(Made(w, p, q.directory, Some(a.order), true), p, To(q, Recorded))
  {
    RunPair(Move(Made(w, p, q.directory, None, false), p, q), WriteRequest(p, true), WriteProvenance(p, true));
    RequestTo(w, p, q, a);
    ProvenanceTo(w, p, To(q, Requested), a.order);
  }

  lemma TimeTo(w: World, p: nat, q: Process, a: Approval, now: int)
    requires q.stage == Recorded && q.approval == Some(a) && MaySubmit(a, now)
    ensures Run(Move(w, p, q), [Identify(p, true), ReadClock(p, now)]) ==
            Move(w, p, q.(stage := Timed, identified := q.identified + 1, dispatch := now))
  {
    var r := q.(stage := Reidentified, identified := q.identified + 1);
    RunPair(Move(w, p, q), Identify(p, true), ReadClock(p, now));
    MoveTwice(w, p, q, r);
    assert Step(Move(w, p, q), Identify(p, true)) == Move(w, p, r);
    MoveTwice(w, p, r, r.(stage := Timed, dispatch := now));
  }

  lemma ClaimTo(w: World, p: nat, q: Process)
    requires q.stage == Timed && q.path !in w.marked
    ensures Step(Move(w, p, q), Mark(p, Created)) == Move(w.(marked := w.marked[q.path := p]), p, To(q, Claimed))
  {
    MoveTwice(w.(marked := w.marked[q.path := p]), p, q, To(q, Claimed));
  }

  lemma SubmitTo(w: World, p: nat, q: Process, a: Approval)
    requires q.stage == Claimed && q.approval == Some(a)
    ensures var call := CallOf(p, q, a);
            Step(Move(w, p, q), Submit(p)) == Move(w.(submissions := w.submissions + [call]), p, To(q, Sent))
  {
    var call := CallOf(p, q, a);
    MoveTwice(w.(submissions := w.submissions + [call]), p, q, To(q, Sent));
  }

  lemma ClaimThenSubmit(w: World, p: nat, q: Process, a: Approval)
    requires q.stage == Timed && q.approval == Some(a) && q.path !in w.marked
    ensures var v := Run(Move(w, p, q), [Mark(p, Created), Submit(p)]);
            && v.submissions == w.submissions + [CallOf(p, q, a)]
            && v.processes.Keys == w.processes.Keys + {p} && v.artifacts == w.artifacts
            && v.marked.Keys == w.marked.Keys + {q.path}
  {
    RunPair(Move(w, p, q), Mark(p, Created), Submit(p));
    ClaimTo(w, p, q);
    SubmitTo(w.(marked := w.marked[q.path := p]), p, To(q, Claimed), a);
  }

  lemma CommitSubmits(w: World, p: nat, q: Process, a: Approval, now: int)
    requires q.stage == Recorded && q.approval == Some(a) && MaySubmit(a, now) && q.path !in w.marked
    ensures var v := Run(Move(w, p, q), Commit(p, now));
            && v.submissions == w.submissions + [CallOf(p, q.(identified := q.identified + 1, dispatch := now), a)]
            && v.processes.Keys == w.processes.Keys + {p} && v.artifacts == w.artifacts
            && v.marked.Keys == w.marked.Keys + {q.path}
  {
    var check, close := [Identify(p, true), ReadClock(p, now)], [Mark(p, Created), Submit(p)];
    TimeTo(w, p, q, a, now);
    assert Commit(p, now) == check + close;
    RunOn(Move(w, p, q), check, close);
    ClaimThenSubmit(w, p, q.(stage := Timed, identified := q.identified + 1, dispatch := now), a);
  }

  /** One process, undisturbed, submits. */
  lemma SoloSubmits(w: World, p: nat, path: Path, directory: Path, a: Approval, now: int)
    requires p !in w.processes && directory !in w.artifacts && path !in w.marked
    requires MaySubmit(a, now) && Approves(a, now)
    ensures var v := Run(w, Solo(p, path, directory, a, now));
            && v.submissions == w.submissions + [SoloCall(p, path, directory, a, now)]
            && v.processes.Keys == w.processes.Keys + {p} && v.artifacts.Keys == w.artifacts.Keys + {directory}
            && v.marked.Keys == w.marked.Keys + {path}
  {
    var ready := Process(path, directory, true, Opened, Some(a), now, true, 0, None, 0);
    var rehearsed := ready.(stage := Rehearsed, identified := 1, rehearsed := Some(a.order));
    RunOn(w, Approach(p, path, directory, a, now), Rehearsal(p, a) + (Record(p) + Commit(p, now)));
    ApproachOpens(w, p, path, directory, a, now);
    var w1 := Move(Made(w, p, directory, None, false), p, ready);
    RunOn(w1, Rehearsal(p, a), Record(p) + Commit(p, now));
    RehearsalMatches(Made(w, p, directory, None, false), p, ready, a);
    var w2 := Move(Made(w, p, directory, None, false), p, rehearsed);
    RunOn(w2, Record(p), Commit(p, now));
    RecordRecords(w, p, rehearsed, a);
    CommitSubmits(Made(w, p, directory, Some(a.order), true), p, To(rehearsed, Recorded), a, now);
  }

  /** The same approval at two paths is submitted twice: the marker guards a path, not an approval. */
  lemma CopiedApprovalSubmitsTwice(a: Approval, now: int, here: Path, there: Path, one: Path, two: Path)
    requires MaySubmit(a, now) && Approves(a, now) && here != there && one != two
    ensures var events := Solo(0, here, one, a, now) + Solo(1, there, two, a, now);
            Run(EMPTY, events).submissions == [SoloCall(0, here, one, a, now), SoloCall(1, there, two, a, now)]
  {
    RunOn(EMPTY, Solo(0, here, one, a, now), Solo(1, there, two, a, now));
    SoloSubmits(EMPTY, 0, here, one, a, now);
    SoloSubmits(Run(EMPTY, Solo(0, here, one, a, now)), 1, there, two, a, now);
  }

  // ---- One approval, one submission ----

  /** Process `p` is started somewhere in the run for the approval path `path`. */
  predicate StartsFor(events: seq<Event>, p: nat, path: Path) {
    exists e :: e in events && e.Begin? && e.p == p && e.path == path
  }

  predicate LoadsApproval(events: seq<Event>, p: nat, a: Approval) {
    exists e :: e in events && e.Load? && e.p == p && e.approval == a
  }

  /** Only processes started for one of these paths read the approval. */
  ghost predicate LoadedOnlyAt(events: seq<Event>, a: Approval, paths: set<Path>) {
    forall p, path :: StartsFor(events, p, path) && LoadsApproval(events, p, a) ==> path in paths
  }

  predicate TracedProcess(events: seq<Event>, p: nat, q: Process) {
    StartsFor(events, p, q.path) && (q.approval.Some? ==> LoadsApproval(events, p, q.approval.value))
  }

  predicate TracedCall(events: seq<Event>, c: Submission) {
    StartsFor(events, c.caller, c.path) && LoadsApproval(events, c.caller, c.approval)
  }

  /** Every process and every submission goes back to events of the run. */
  ghost predicate Traced(events: seq<Event>, w: World) {
    && (forall p :: p in w.processes ==> TracedProcess(events, p, w.processes[p]))
    && (forall c :: c in w.submissions ==> TracedCall(events, c))
  }

  /** One process at most is replaced, by `q`. */
  predicate Replaces(w: World, v: World, p: nat, q: Process) {
    v.processes == w.processes || v.processes == w.processes[p := q]
  }

  /** The process keeps its path and its approval. */
  predicate Carries(w: World, v: World, p: nat) {
    && v.submissions == w.submissions
    && (v.processes == w.processes ||
          (p in w.processes && p in v.processes && v.processes == w.processes[p := v.processes[p]] &&
           v.processes[p].path == w.processes[p].path && v.processes[p].approval == w.processes[p].approval))
  }

  lemma EarlyStepCarries(w: World, e: Event)
    requires e.Open? || e.Identify? || e.Rehearse? || e.WriteRequest? || e.WriteProvenance?
    ensures Carries(w, Step(w, e), e.p)
  {
    match e
    case Open(_, _) =>
    case Identify(_, _) =>
    case Rehearse(_, _) =>
    case WriteRequest(_, _) =>
    case WriteProvenance(_, _) =>
  }

  lemma LateStepCarries(w: World, e: Event)
    requires e.ReadClock? || e.Mark? || e.Answer? || e.WriteResult? || e.Crash?
    ensures Carries(w, Step(w, e), e.p)
  {
    match e
    case ReadClock(_, _) =>
    case Mark(_, _) =>
    case Answer(_, _) =>
    case WriteResult(_, _) =>
    case Crash(_) =>
  }

  lemma TracedCarries(events: seq<Event>, w: World, v: World, p: nat)
    requires Traced(events, w) && Carries(w, v, p)
    ensures Traced(events, v)
  {
    forall o | o in v.processes ensures TracedProcess(events, o, v.processes[o]) {
      assert TracedProcess(events, o, w.processes[o]);
    }
  }

  lemma TracedReplaces(events: seq<Event>, w: World, v: World, p: nat, q: Process)
    requires Traced(events, w) && Replaces(w, v, p, q) && TracedProcess(events, p, q)
    requires forall c :: c in v.submissions ==> c in w.submissions || TracedCall(events, c)
    ensures Traced(events, v)
  {
  }

  lemma TracedStart(events: seq<Event>, w: World, e: Event)
    requires Traced(events, w) && e in events && (e.Begin? || e.Load?)
    ensures Traced(events, Step(w, e))
  {
    var v := Step(w, e);
    if v != w {
      var q := v.processes[e.p];
      assert e.Load? ==> TracedProcess(events, e.p, w.processes[e.p]);
      assert TracedProcess(events, e.p, q);
      TracedReplaces(events, w, v, e.p, q);
    }
  }

  lemma TracedSubmit(events: seq<Event>, w: World, p: nat)
    requires Traced(events, w)
    ensures Traced(events, Submits(w, p))
  {
    if Submits(w, p) != w {
      var q := w.processes[p];
      assert TracedProcess(events, p, q) && TracedProcess(events, p, To(q, Sent));
      assert TracedCall(events, CallOf(p, q, q.approval.value));
      TracedReplaces(events, w, Submits(w, p), p, To(q, Sent));
    }
  }

  lemma TracedStep(events: seq<Event>, w: World, e: Event)
    requires Traced(events, w) && e in events
    ensures Traced(events, Step(w, e))
  {
    if e.Begin? || e.Load? {
      TracedStart(events, w, e);
    } else if e.Submit? {
      TracedSubmit(events, w, e.p);
    } else if e.Open? || e.Identify? || e.Rehearse? || e.WriteRequest? || e.WriteProvenance? {
      EarlyStepCarries(w, e);
      TracedCarries(events, w, Step(w, e), e.p);
    } else {
      LateStepCarries(w, e);
      TracedCarries(events, w, Step(w, e), e.p);
    }
  }

  lemma {:induction false} TracedRun(events: seq<Event>, done: seq<Event>)
    requires done <= events
    ensures Traced(events, Run(EMPTY, done))
    decreases |done|
  {
    if done != [] {
      var init, e := done[..|done| - 1], done[|done| - 1];
      TracedRun(events, init);
      assert e == events[|done| - 1];
      TracedStep(events, Run(EMPTY, init), e);
    }
  }

  ghost predicate SubmittedTwice(w: World, a: Approval) {
    exists i, j :: 0 <= i < j < |w.submissions| && w.submissions[i].approval == a && w.submissions[j].approval == a
  }

  lemma SubmittedInside(events: seq<Event>, a: Approval, paths: set<Path>, c: Submission)
    requires LoadedOnlyAt(events, a, paths) && c in Run(EMPTY, events).submissions && c.approval == a
    ensures c.path in paths
  {
    TracedRun(events, events);
    assert TracedCall(events, c);
  }

  lemma AtOnePath(paths: set<Path>, one: Path, two: Path)
    requires |paths| <= 1 && one in paths && two in paths
    ensures one == two
  {
    assert |paths - {one}| == 0;
    assert two !in paths - {one};
  }

  /** The events of one undisturbed process are its own, and it starts for its path alone. */
  lemma SoloIsOwn(p: nat, path: Path, directory: Path, a: Approval, now: int)
    ensures forall e :: e in Solo(p, path, directory, a, now) ==> e.p == p && (e.Begin? ==> e.path == path)
  {
    var tail := Record(p) + Commit(p, now);
    assert forall e :: e in tail ==> e in Record(p) || e in Commit(p, now);
    assert forall e :: e in Rehearsal(p, a) + tail ==> e in Rehearsal(p, a) || e in tail;
    assert forall e :: e in Solo(p, path, directory, a, now) ==>
                         e in Approach(p, path, directory, a, now) || e in Rehearsal(p, a) + tail;
  }

  lemma TwoPathsSubmitTwice(a: Approval, now: int, paths: set<Path>, here: Path, there: Path)
    requires MaySubmit(a, now) && Approves(a, now) && here in paths && there in paths && here != there
    ensures exists events :: LoadedOnlyAt(events, a, paths) && SubmittedTwice(Run(EMPTY, events), a)
  {
    var one, two := Solo(0, here, "1", a, now), Solo(1, there, "2", a, now);
    CopiedApprovalSubmitsTwice(a, now, here, there, "1", "2");
    SoloIsOwn(0, here, "1", a, now);
    SoloIsOwn(1, there, "2", a, now);
    StartsInside(one, two, a, paths);
    TwoCalls(Run(EMPTY, one + two), SoloCall(0, here, "1", a, now), SoloCall(1, there, "2", a, now));
  }

  lemma StartsInside(one: seq<Event>, two: seq<Event>, a: Approval, paths: set<Path>)
    requires forall e :: e in one || e in two ==> (e.Begin? ==> e.path in paths)
    ensures LoadedOnlyAt(one + two, a, paths)
  {
    forall p, path | StartsFor(one + two, p, path) && LoadsApproval(one + two, p, a) ensures path in paths {
      var e: Event :| e in one + two && e.Begin? && e.p == p && e.path == path;
      assert e in one || e in two;
    }
  }

  lemma TwoCalls(w: World, c: Submission, d: Submission)
    requires w.submissions == [c, d] && c.approval == d.approval
    ensures SubmittedTwice(w, c.approval)
  {
    assert w.submissions[0] == c && w.submissions[1] == d;
  }

  /** An approval that may be submitted is submitted at most once in every run if and only if there is at
      most one path at which it is ever read. */
  lemma OneApprovalOneSubmissionExactly(a: Approval, now: int, paths: set<Path>)
    requires MaySubmit(a, now) && Approves(a, now)
    ensures (forall events :: LoadedOnlyAt(events, a, paths) ==> !SubmittedTwice(Run(EMPTY, events), a)) <==> |paths| <= 1
  {
    if |paths| <= 1 {
      forall events | LoadedOnlyAt(events, a, paths) ensures !SubmittedTwice(Run(EMPTY, events), a) {
        var calls := Run(EMPTY, events).submissions;
        forall i, j | 0 <= i < j < |calls| ensures calls[i].approval != a || calls[j].approval != a {
          AtMostOnce(events, i, j);
          if calls[i].approval == a && calls[j].approval == a {
            SubmittedInside(events, a, paths, calls[i]);
            SubmittedInside(events, a, paths, calls[j]);
            AtOnePath(paths, calls[i].path, calls[j].path);
          }
        }
      }
    } else {
      var here :| here in paths;
      assert paths - {here} != {} by {
        assert |paths - {here}| == |paths| - 1;
      }
      var there :| there in paths - {here};
      TwoPathsSubmitTwice(a, now, paths, here, there);
    }
  }
}
