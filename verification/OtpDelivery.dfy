/**
 Idempotent OTP delivery: concurrent callers share one receipt per delivery id. The
 registry is the Application class; its methods are the critical sections under the
 mutex. A step system interleaves any number of callers between those sections: the
 lock is not held around the clock read, the provider call or the wait.
 */
module OtpDelivery {
  /** Message id and error of a provider call. */
  datatype Outcome = Outcome(messageId: string, error: string)

  /** A *receipt. closes counts close(done); id, installer and born are history, not fields of the program. */
  datatype Receipt = Receipt(fingerprint: int, expiresAt: int, completed: bool, outcome: Outcome, closes: nat,
                             id: string, installer: int, born: nat)

  /** The receipts map points into the heap; a purged receipt stays on the heap for those who hold it. */
  datatype Registry = Registry(receipts: map<string, nat>, heap: seq<Receipt>) {
    ghost predicate Valid() {
      forall id :: id in receipts ==> receipts[id] < |heap| && heap[receipts[id]].id == id
    }

    predicate Expired(ref: nat, now: int) {
      ref < |heap| && heap[ref].completed && heap[ref].expiresAt <= now
    }

    function Purge(now: int): Registry {
      Registry(map id | id in receipts && !Expired(receipts[id], now) :: receipts[id], heap)
    }

    function Install(id: string, fingerprint: int, expiresAt: int, installer: int, born: nat): Registry {
      Registry(receipts[id := |heap|],
               heap + [Receipt(fingerprint, expiresAt, false, Outcome("", ""), 0, id, installer, born)])
    }

    function Complete(ref: nat, outcome: Outcome): Registry
      requires ref < |heap|
    {
      Registry(receipts, heap[ref := heap[ref].(outcome := outcome, completed := true, closes := heap[ref].closes + 1)])
    }
  }

  datatype Verdict = Conflicts | Joins(ref: nat) | Installs(ref: nat)

  /** The first critical section: what a caller with this id, body and clock reading is told. */
  function Decide(g: Registry, id: string, fingerprint: int, now: int): Verdict {
    var live := g.Purge(now);
    if id !in live.receipts then Installs(|g.heap|)
    else
      var ref := live.receipts[id];
      if ref < |g.heap| && g.heap[ref].fingerprint == fingerprint then Joins(ref) else Conflicts
  }

  function Enter(g: Registry, id: string, fingerprint: int, expiresAt: int, now: int, installer: int, born: nat)
      : Registry
  {
    var live := g.Purge(now);
    if Decide(g, id, fingerprint, now).Installs? then live.Install(id, fingerprint, expiresAt, installer, born)
    else live
  }

  class Application {
    var receipts: map<string, nat>
    var heap: seq<Receipt>

    ghost function Contents(): Registry
      reads this
    {
      Registry(receipts, heap)
    }

    constructor ()
      ensures Contents() == Registry(map[], [])
    {
      receipts, heap := map[], [];
    }

    /** Purge, look up, then conflict, join or install. */
    method EnterSection(id: string, fingerprint: int, expiresAt: int, now: int, installer: int, born: nat)
      returns (v: Verdict)
      requires Contents().Valid()
      modifies this
      ensures v == Decide(old(Contents()), id, fingerprint, now)
      ensures Contents() == Enter(old(Contents()), id, fingerprint, expiresAt, now, installer, born)
      ensures Contents().Valid()
    {
      ghost var before := Contents();
      var todo := receipts.Keys;
      while todo != {}
        invariant heap == before.heap && todo <= receipts.Keys <= before.receipts.Keys
        invariant forall key :: key in receipts ==> receipts[key] == before.receipts[key]
        invariant forall key :: key in before.receipts && key !in todo ==>
                    (key in receipts <==> !before.Expired(before.receipts[key], now))
        decreases todo
      {
        var key :| key in todo;
        todo := todo - {key};
        var existing := heap[receipts[key]];
        if existing.completed && existing.expiresAt <= now {
          receipts := receipts - {key};
        }
      }
      assert receipts == before.Purge(now).receipts;
      if id in receipts {
        v := if heap[receipts[id]].fingerprint == fingerprint then Joins(receipts[id]) else Conflicts;
      } else {
        v := Installs(|heap|);
        receipts := receipts[id := |heap|];
        heap := heap + [Receipt(fingerprint, expiresAt, false, Outcome("", ""), 0, id, installer, born)];
      }
    }

    /** Publish the provider's result and wake the waiters. */
    method CompleteSection(ref: nat, outcome: Outcome)
      requires Contents().Valid() && ref < |heap|
      modifies this
      ensures Contents() == old(Contents()).Complete(ref, outcome) && Contents().Valid()
    {
      var current := heap[ref];
      heap := heap[ref := current.(outcome := outcome, completed := true, closes := current.closes + 1)];
    }
  }

  // ---- callers ----

  datatype Request = Request(id: string, fingerprint: int, expiresAt: int)

  datatype Answer = Conflict | Delivery(outcome: Outcome) | Cancelled

  datatype Phase =
    | Called
    | Timed(now: int)
    | Waiting(ref: nat)
    | Delivering(ref: nat)
    | Delivered(ref: nat, outcome: Outcome)
    | Returned(answer: Answer, ref: nat)

  datatype Caller = Caller(request: Request, phase: Phase)

  /** clock is the history of clock readings. */
  datatype State = State(registry: Registry, callers: map<int, Caller>, clock: seq<int>)

  datatype Step =
    | Call(t: int, request: Request)
    | ReadClock(t: int, now: int)
    | EnterStep(t: int)
    | ProviderReturns(t: int, outcome: Outcome)
    | CompleteStep(t: int)
    | Wake(t: int)
    | Cancel(t: int)

  ghost predicate Enabled(s: State, a: Step) {
    if a.Call? then a.t !in s.callers
    else
      && a.t in s.callers
      && var p := s.callers[a.t].phase;
      match a
      case ReadClock(_, _) => p.Called?
      case EnterStep(_) => p.Timed?
      case ProviderReturns(_, _) => p.Delivering?
      case CompleteStep(_) => p.Delivered? && p.ref < |s.registry.heap|
      case Wake(_) => p.Waiting? && p.ref < |s.registry.heap| && s.registry.heap[p.ref].closes > 0
      case Cancel(_) => p.Waiting?
  }

  ghost function NextPhase(s: State, a: Step): Phase
    requires Enabled(s, a)
  {
    if a.Call? then Called
    else
      var caller := s.callers[a.t];
      match a
      case ReadClock(_, now) => Timed(now)
      case EnterStep(_) =>
        (match Decide(s.registry, caller.request.id, caller.request.fingerprint, caller.phase.now)
         case Conflicts => Returned(Conflict, 0)
         case Joins(ref) => Waiting(ref)
         case Installs(ref) => Delivering(ref))
      case ProviderReturns(_, outcome) => Delivered(caller.phase.ref, outcome)
      case CompleteStep(_) => Returned(Delivery(caller.phase.outcome), caller.phase.ref)
      case Wake(_) => Returned(Delivery(s.registry.heap[caller.phase.ref].outcome), caller.phase.ref)
      case Cancel(_) => Returned(Cancelled, caller.phase.ref)
  }

  ghost function NextRegistry(s: State, a: Step): Registry
    requires Enabled(s, a)
  {
    if a.EnterStep? then
      var r := s.callers[a.t].request;
      Enter(s.registry, r.id, r.fingerprint, r.expiresAt, s.callers[a.t].phase.now, a.t, |s.clock|)
    else if a.CompleteStep? then
      s.registry.Complete(s.callers[a.t].phase.ref, s.callers[a.t].phase.outcome)
    else s.registry
  }

  ghost function Next(s: State, a: Step): State
    requires Enabled(s, a)
  {
    var request := if a.Call? then a.request else s.callers[a.t].request;
    State(NextRegistry(s, a),
          s.callers[a.t := Caller(request, NextPhase(s, a))],
          if a.ReadClock? then s.clock + [a.now] else s.clock)
  }

  ghost predicate Run(states: seq<State>, steps: seq<Step>) {
    && |states| == |steps| + 1
    && states[0] == State(Registry(map[], []), map[], [])
    && forall i :: 0 <= i < |steps| ==> Enabled(states[i], steps[i]) && states[i + 1] == Next(states[i], steps[i])
  }

  // ---- invariant ----

  /** Some caller had read a clock at or past the deadline within the first n readings. */
  ghost predicate ClockPassed(clock: seq<int>, n: int, deadline: int) {
    exists k :: 0 <= k < n <= |clock| && clock[k] >= deadline
  }

  ghost predicate HeapOk(s: State) {
    && s.registry.Valid()
    && (forall r :: 0 <= r < |s.registry.heap| ==>
          && s.registry.heap[r].closes == (if s.registry.heap[r].completed then 1 else 0)
          && s.registry.heap[r].born <= |s.clock|)
  }

  /** A receipt out of the map is complete and its expiry was passed; a younger one for the id came after that. */
  ghost predicate Succession(s: State) {
    && (forall r :: 0 <= r < |s.registry.heap| ==>
          var receipt := s.registry.heap[r];
          || (receipt.id in s.registry.receipts && s.registry.receipts[receipt.id] == r)
          || (receipt.completed && ClockPassed(s.clock, |s.clock|, receipt.expiresAt)))
    && (forall q, r :: 0 <= q < r < |s.registry.heap| && s.registry.heap[q].id == s.registry.heap[r].id ==>
          s.registry.heap[q].completed && ClockPassed(s.clock, s.registry.heap[r].born, s.registry.heap[q].expiresAt))
  }

  ghost predicate Holds(s: State, r: Request, ref: nat) {
    ref < |s.registry.heap| && s.registry.heap[ref].id == r.id && s.registry.heap[ref].fingerprint == r.fingerprint
  }

  ghost predicate CallerOk(s: State, t: int, c: Caller) {
    match c.phase
    case Called => true
    case Timed(now) => now in s.clock
    case Waiting(ref) => Holds(s, c.request, ref)
    case Delivering(ref) =>
      Holds(s, c.request, ref) && !s.registry.heap[ref].completed && s.registry.heap[ref].installer == t
    case Delivered(ref, _) =>
      Holds(s, c.request, ref) && !s.registry.heap[ref].completed && s.registry.heap[ref].installer == t
    case Returned(Delivery(o), ref) =>
      Holds(s, c.request, ref) && s.registry.heap[ref].completed && s.registry.heap[ref].outcome == o
    case Returned(_, _) => true
  }

  ghost predicate Inv(s: State) {
    && HeapOk(s) && Succession(s)
    && (forall t :: t in s.callers ==> CallerOk(s, t, s.callers[t]))
  }

  /** The heap only grows, and a completed receipt never changes again. */
  ghost predicate Frozen(g: Registry, g': Registry) {
    && |g.heap| <= |g'.heap|
    && (forall r :: 0 <= r < |g.heap| ==>
          && g'.heap[r].id == g.heap[r].id && g'.heap[r].fingerprint == g.heap[r].fingerprint
          && g'.heap[r].installer == g.heap[r].installer && g'.heap[r].expiresAt == g.heap[r].expiresAt
          && (g.heap[r].completed ==> g'.heap[r] == g.heap[r]))
  }

  lemma StepFrozen(s: State, a: Step)
    requires Inv(s) && Enabled(s, a)
    ensures Frozen(s.registry, NextRegistry(s, a))
  {
  }

  lemma StepHeapOk(s: State, a: Step)
    requires Inv(s) && Enabled(s, a)
    ensures HeapOk(Next(s, a))
  {
  }

  lemma StepSuccession(s: State, a: Step)
    requires Inv(s) && Enabled(s, a)
    ensures Succession(Next(s, a))
  {
    if a.EnterStep? { EnterSuccession(s, a); } else { OtherSuccession(s, a); }
  }

  lemma EnterSuccession(s: State, a: Step)
    requires HeapOk(s) && Succession(s) && Enabled(s, a) && a.EnterStep? && CallerOk(s, a.t, s.callers[a.t])
    ensures Succession(Next(s, a))
  {
  }

  lemma OtherSuccession(s: State, a: Step)
    requires HeapOk(s) && Succession(s) && Enabled(s, a) && !a.EnterStep?
    ensures Succession(Next(s, a))
  {
    var s' := Next(s, a);
    forall n, d | ClockPassed(s.clock, n, d) ensures ClockPassed(s'.clock, n, d) {
      var k :| 0 <= k < n && s.clock[k] >= d;
      assert s'.clock[k] >= d;
    }
    forall d | ClockPassed(s'.clock, |s.clock|, d) ensures ClockPassed(s'.clock, |s'.clock|, d) {
      var k :| 0 <= k < |s.clock| && s'.clock[k] >= d;
    }
  }

  lemma StepCallers(s: State, a: Step)
    requires Inv(s) && Enabled(s, a)
    ensures forall t :: t in Next(s, a).callers ==> CallerOk(Next(s, a), t, Next(s, a).callers[t])
  {
  }

  lemma {:induction false} RunInv(states: seq<State>, steps: seq<Step>, k: nat)
    requires Run(states, steps) && k < |states|
    ensures Inv(states[k])
  {
    if k > 0 {
      RunInv(states, steps, k - 1);
      StepHeapOk(states[k - 1], steps[k - 1]);
      StepSuccession(states[k - 1], steps[k - 1]);
      StepCallers(states[k - 1], steps[k - 1]);
    }
  }

  // ---- theorems over whole runs ----

  /** At most one provider call per delivery id is in flight, and its receipt is still in the map. */
  lemma OneCallInFlight(states: seq<State>, steps: seq<Step>, k: nat, t: int, u: int)
    requires Run(states, steps) && k < |states|
    requires t in states[k].callers && u in states[k].callers
    requires var p, q := states[k].callers[t], states[k].callers[u];
             p.phase.Delivering? && q.phase.Delivering? && p.request.id == q.request.id
    ensures t == u
    ensures var c := states[k].callers[t];
            c.request.id in states[k].registry.receipts && states[k].registry.receipts[c.request.id] == c.phase.ref
  {
    RunInv(states, steps, k);
  }

  /** Purging never removes an incomplete receipt. */
  lemma IncompleteStaysRegistered(states: seq<State>, steps: seq<Step>, k: nat, r: nat)
    requires Run(states, steps) && k < |states|
    requires r < |states[k].registry.heap| && !states[k].registry.heap[r].completed
    ensures var g := states[k].registry; g.heap[r].id in g.receipts && g.receipts[g.heap[r].id] == r
  {
    RunInv(states, steps, k);
  }

  /** done is closed exactly once for a completed receipt and never before. */
  lemma DoneClosedOnce(states: seq<State>, steps: seq<Step>, k: nat, r: nat)
    requires Run(states, steps) && k < |states| && r < |states[k].registry.heap|
    ensures states[k].registry.heap[r].closes == if states[k].registry.heap[r].completed then 1 else 0
  {
    RunInv(states, steps, k);
  }

  lemma RunStepFrozen(states: seq<State>, steps: seq<Step>, k: nat)
    requires Run(states, steps) && k < |steps|
    ensures Frozen(states[k].registry, states[k + 1].registry)
  {
    RunInv(states, steps, k);
    StepFrozen(states[k], steps[k]);
  }

  lemma FrozenTransitive(a: Registry, b: Registry, c: Registry)
    requires Frozen(a, b) && Frozen(b, c)
    ensures Frozen(a, c)
  {
  }

  /** A completed receipt never changes, in the map or purged from it. */
  lemma {:induction false} CompletedNeverChanges(states: seq<State>, steps: seq<Step>, i: nat, j: nat)
    requires Run(states, steps) && i <= j < |states|
    ensures Frozen(states[i].registry, states[j].registry)
  {
    if i < j {
      CompletedNeverChanges(states, steps, i, j - 1);
      RunStepFrozen(states, steps, j - 1);
      FrozenTransitive(states[i].registry, states[j - 1].registry, states[j].registry);
    } else {
      assert Frozen(states[i].registry, states[i].registry);
    }
  }

  /** The step installs a receipt and goes on to call the provider. */
  ghost predicate StartsCall(s: State, a: Step, id: string) {
    Enabled(s, a) && a.EnterStep? && s.callers[a.t].request.id == id && NextPhase(s, a).Delivering?
  }

  /**
   A second provider call for an id starts only after the first one completed and after some caller
   read a clock at or past the first one's expiry.
   */
  lemma SecondCallOnlyAfterExpiry(states: seq<State>, steps: seq<Step>, id: string, i: nat, j: nat)
    requires Run(states, steps) && i < j < |steps|
    requires StartsCall(states[i], steps[i], id) && StartsCall(states[j], steps[j], id)
    ensures var ref := |states[i].registry.heap|;
            && ref < |states[j].registry.heap|
            && states[j].registry.heap[ref].completed
            && ClockPassed(states[j].clock, |states[j].clock|, states[i].callers[steps[i].t].request.expiresAt)
  {
    var ref := |states[i].registry.heap|;
    CompletedNeverChanges(states, steps, i + 1, j);
    RunInv(states, steps, j + 1);
    var first, second := states[j].registry.heap[ref], states[j + 1].registry.heap[|states[j].registry.heap|];
    assert first.id == id && second.id == id && second.born == |states[j].clock|;
    assert states[j + 1].registry.heap[ref] == first;
  }

  /** Two callers that got an answer from one receipt got the same one, whenever each of them returned. */
  lemma SharersAgree(states: seq<State>, steps: seq<Step>, i: nat, j: nat, t: int, u: int)
    requires Run(states, steps) && i <= j < |states|
    requires t in states[i].callers && u in states[j].callers
    requires var p, q := states[i].callers[t].phase, states[j].callers[u].phase;
             p.Returned? && q.Returned? && p.answer.Delivery? && q.answer.Delivery? && p.ref == q.ref
    ensures states[i].callers[t].phase.answer == states[j].callers[u].phase.answer
    ensures states[i].callers[t].request.id == states[j].callers[u].request.id
    ensures states[i].callers[t].request.fingerprint == states[j].callers[u].request.fingerprint
  {
    RunInv(states, steps, i);
    RunInv(states, steps, j);
    CompletedNeverChanges(states, steps, i, j);
  }

  ghost predicate ProviderSaid(steps: seq<Step>, k: nat, t: int, o: Outcome) {
    exists i :: 0 <= i < k <= |steps| && steps[i] == ProviderReturns(t, o)
  }

  ghost predicate FromProvider(steps: seq<Step>, k: nat, s: State) {
    && (forall r :: 0 <= r < |s.registry.heap| && s.registry.heap[r].completed ==>
          ProviderSaid(steps, k, s.registry.heap[r].installer, s.registry.heap[r].outcome))
    && (forall t :: t in s.callers && s.callers[t].phase.Delivered? ==>
          ProviderSaid(steps, k, t, s.callers[t].phase.outcome))
  }

  lemma {:induction false} OutcomesComeFromTheProvider(states: seq<State>, steps: seq<Step>, k: nat)
    requires Run(states, steps) && k < |states|
    ensures FromProvider(steps, k, states[k])
  {
    if k > 0 {
      OutcomesComeFromTheProvider(states, steps, k - 1);
      RunInv(states, steps, k - 1);
      StepFromProvider(steps, k - 1, states[k - 1]);
    }
  }

  lemma StepFromProvider(steps: seq<Step>, k: nat, s: State)
    requires k < |steps| && Enabled(s, steps[k]) && FromProvider(steps, k, s)
    requires steps[k].t in s.callers ==> CallerOk(s, steps[k].t, s.callers[steps[k].t])
    ensures FromProvider(steps, k + 1, Next(s, steps[k]))
  {
    var a, s' := steps[k], Next(s, steps[k]);
    forall t, o | ProviderSaid(steps, k, t, o) ensures ProviderSaid(steps, k + 1, t, o) {
      var i :| 0 <= i < k && steps[i] == ProviderReturns(t, o);
    }
    if a.ProviderReturns? { assert ProviderSaid(steps, k + 1, a.t, a.outcome); }
    forall r | 0 <= r < |s'.registry.heap| && s'.registry.heap[r].completed
      ensures ProviderSaid(steps, k + 1, s'.registry.heap[r].installer, s'.registry.heap[r].outcome)
    {
      if r < |s.registry.heap| && s.registry.heap[r] == s'.registry.heap[r] {
        assert ProviderSaid(steps, k, s'.registry.heap[r].installer, s'.registry.heap[r].outcome);
      }
    }
  }

  /** Whatever a caller is told as the delivery result is what the provider returned to the receipt's installer. */
  lemma AnswersComeFromTheInstallersCall(states: seq<State>, steps: seq<Step>, k: nat, t: int)
    requires Run(states, steps) && k < |states| && t in states[k].callers
    requires states[k].callers[t].phase.Returned? && states[k].callers[t].phase.answer.Delivery?
    ensures var p := states[k].callers[t].phase;
            && p.ref < |states[k].registry.heap|
            && ProviderSaid(steps, k, states[k].registry.heap[p.ref].installer, p.answer.outcome)
  {
    RunInv(states, steps, k);
    OutcomesComeFromTheProvider(states, steps, k);
  }

  /** The receipt installed at step i is live at step k: its call is not over, or no clock has reached its expiry. */
  ghost predicate StillLive(states: seq<State>, steps: seq<Step>, i: nat, k: nat)
    requires i < k < |steps| && |states| == |steps| + 1 && steps[i].EnterStep? && steps[i].t in states[i].callers
  {
    var ref := |states[i].registry.heap|;
    && ref < |states[k].registry.heap|
    && (|| !states[k].registry.heap[ref].completed
        || !ClockPassed(states[k].clock, |states[k].clock|, states[i].callers[steps[i].t].request.expiresAt))
  }

  /** A receipt whose call is not over, or whose expiry no clock has reached, is the one its id is bound to. */
  lemma LiveIsRegistered(states: seq<State>, steps: seq<Step>, id: string, i: nat, k: nat)
    requires Run(states, steps) && i < k < |steps|
    requires StartsCall(states[i], steps[i], id) && StillLive(states, steps, i, k)
    ensures var ref, request, g := |states[i].registry.heap|, states[i].callers[steps[i].t].request, states[k].registry;
            && ref < |g.heap| && id in g.receipts && g.receipts[id] == ref
            && g.heap[ref].fingerprint == request.fingerprint && g.heap[ref].expiresAt == request.expiresAt
  {
    CompletedNeverChanges(states, steps, i + 1, k);
    RunInv(states, steps, k);
    var ref := |states[i].registry.heap|;
    assert states[i + 1].registry.heap[ref].id == id;
    assert states[k].registry.heap[ref].id == id;
  }

  /**
   From the start of a call until it is over and a clock has passed its expiry, every caller of its id
   waits for that very receipt if its body is the installer's, and conflicts if it is not: no caller of
   the id starts another call, whatever happened in between.
   */
  lemma ConflictExactlyOnDifferentBody(states: seq<State>, steps: seq<Step>, id: string, i: nat, k: nat)
    requires Run(states, steps) && i < k < |steps|
    requires StartsCall(states[i], steps[i], id) && StillLive(states, steps, i, k)
    requires steps[k].EnterStep? && states[k].callers[steps[k].t].request.id == id
    ensures var installer, caller := states[i].callers[steps[i].t].request, states[k].callers[steps[k].t].request;
            NextPhase(states[k], steps[k]) ==
              if caller.fingerprint == installer.fingerprint then Waiting(|states[i].registry.heap|)
              else Returned(Conflict, 0)
  {
    LiveIsRegistered(states, steps, id, i, k);
    RunInv(states, steps, k);
    var s, ref, now := states[k], |states[i].registry.heap|, states[k].callers[steps[k].t].phase.now;
    assert CallerOk(s, steps[k].t, s.callers[steps[k].t]);
    var n :| 0 <= n < |s.clock| && s.clock[n] == now;
    var expiry := s.registry.heap[ref].expiresAt;
    assert s.clock[n] >= expiry ==> ClockPassed(s.clock, |s.clock|, expiry);
  }

  /** Step i started the call behind receipt ref, for this id and body and with this expiry. */
  ghost predicate InstalledAt(states: seq<State>, steps: seq<Step>, i: nat, ref: nat, r: Receipt)
    requires i < |steps| && |states| == |steps| + 1
  {
    && StartsCall(states[i], steps[i], r.id) && |states[i].registry.heap| == ref
    && states[i].callers[steps[i].t].request.fingerprint == r.fingerprint
    && states[i].callers[steps[i].t].request.expiresAt == r.expiresAt
  }

  /** Every receipt was installed by a caller that went on to call the provider. */
  lemma {:induction false} ReceiptsAreInstalled(states: seq<State>, steps: seq<Step>, k: nat, ref: nat)
    requires Run(states, steps) && k < |states| && ref < |states[k].registry.heap|
    ensures exists i :: 0 <= i < k && InstalledAt(states, steps, i, ref, states[k].registry.heap[ref])
  {
    if k > 0 {
      RunStepFrozen(states, steps, k - 1);
      if ref < |states[k - 1].registry.heap| {
        ReceiptsAreInstalled(states, steps, k - 1, ref);
        var i :| 0 <= i < k - 1 && InstalledAt(states, steps, i, ref, states[k - 1].registry.heap[ref]);
        assert InstalledAt(states, steps, i, ref, states[k].registry.heap[ref]);
      } else {
        assert InstalledAt(states, steps, k - 1, ref, states[k].registry.heap[ref]);
      }
    }
  }

  /** Nothing else conflicts: behind every conflict is an earlier call of the id, with another body and still live. */
  lemma ConflictHasACause(states: seq<State>, steps: seq<Step>, k: nat)
    requires Run(states, steps) && k < |steps| && steps[k].EnterStep?
    requires NextPhase(states[k], steps[k]) == Returned(Conflict, 0)
    ensures var s, c := states[k], states[k].callers[steps[k].t];
            exists i :: 0 <= i < k && StartsCall(states[i], steps[i], c.request.id)
              && states[i].callers[steps[i].t].request.fingerprint != c.request.fingerprint
              && |states[i].registry.heap| < |s.registry.heap|
              && var r := s.registry.heap[|states[i].registry.heap|];
                 !r.completed || c.phase.now < r.expiresAt
  {
    RunInv(states, steps, k);
    var s, c := states[k], states[k].callers[steps[k].t];
    var ref := s.registry.receipts[c.request.id];
    ReceiptsAreInstalled(states, steps, k, ref);
    var i :| 0 <= i < k && InstalledAt(states, steps, i, ref, s.registry.heap[ref]);
    assert StartsCall(states[i], steps[i], c.request.id);
  }

  // ---- expiry ----

  ghost predicate Registered(g: Registry, r: nat) {
    r < |g.heap| && g.heap[r].id in g.receipts && g.receipts[g.heap[r].id] == r
  }

  /**
   A caller calls the provider if and only if every receipt its id ever had is completed and has either
   expired by this caller's clock or left the map before.
   */
  lemma DeliversExactlyWhenExpired(states: seq<State>, steps: seq<Step>, k: nat)
    requires Run(states, steps) && k < |steps| && steps[k].EnterStep?
    ensures var g, c := states[k].registry, states[k].callers[steps[k].t];
            NextPhase(states[k], steps[k]).Delivering? <==>
              forall r :: 0 <= r < |g.heap| && g.heap[r].id == c.request.id ==>
                g.heap[r].completed && (Registered(g, r) ==> g.heap[r].expiresAt <= c.phase.now)
  {
    RunInv(states, steps, k);
    var s, c := states[k], states[k].callers[steps[k].t];
    if c.request.id in s.registry.receipts {
      var ref := s.registry.receipts[c.request.id];
      assert s.registry.heap[ref].id == c.request.id && Registered(s.registry, ref);
    }
  }

  /** After a caller has been in with its clock reading, no completed receipt expired by it is left in the map. */
  lemma PurgeLeavesNoneExpired(states: seq<State>, steps: seq<Step>, k: nat)
    requires Run(states, steps) && k < |steps| && steps[k].EnterStep?
    ensures var g, now := states[k + 1].registry, states[k].callers[steps[k].t].phase.now;
            forall r :: 0 <= r < |g.heap| && Registered(g, r) && g.heap[r].completed ==> now < g.heap[r].expiresAt
  {
    RunInv(states, steps, k);
  }

  /** A receipt leaves the map only when completed and expired by the clock of the caller in the section. */
  lemma LeavesOnlyExpired(states: seq<State>, steps: seq<Step>, k: nat, r: nat)
    requires Run(states, steps) && k < |steps|
    requires Registered(states[k].registry, r) && !Registered(states[k + 1].registry, r)
    ensures steps[k].EnterStep? && states[k].registry.heap[r].completed
    ensures states[k].registry.heap[r].expiresAt <= states[k].callers[steps[k].t].phase.now
  {
    RunInv(states, steps, k);
  }

  // ---- progress ----

  /** The caller that installed an incomplete receipt is still in, or back from, its provider call. */
  ghost predicate Manned(s: State) {
    forall r :: 0 <= r < |s.registry.heap| && !s.registry.heap[r].completed ==>
      MannedBy(s, r, s.registry.heap[r].installer)
  }

  ghost predicate MannedBy(s: State, r: nat, t: int) {
    t in s.callers &&
    match s.callers[t].phase
    case Delivering(ref) => ref == r
    case Delivered(ref, _) => ref == r
    case _ => false
  }

  lemma StepManned(s: State, a: Step)
    requires Inv(s) && Manned(s) && Enabled(s, a)
    ensures Manned(Next(s, a))
  {
    var s' := Next(s, a);
    forall r | 0 <= r < |s'.registry.heap| && !s'.registry.heap[r].completed
      ensures MannedBy(s', r, s'.registry.heap[r].installer)
    {
      if r < |s.registry.heap| { assert MannedBy(s, r, s.registry.heap[r].installer); }
    }
  }

  lemma {:induction false} RunManned(states: seq<State>, steps: seq<Step>, k: nat)
    requires Run(states, steps) && k < |states|
    ensures Manned(states[k])
  {
    if k > 0 {
      RunManned(states, steps, k - 1);
      RunInv(states, steps, k - 1);
      StepManned(states[k - 1], steps[k - 1]);
    }
  }

  /** A step of this caller other than giving up is possible. */
  ghost predicate CanGoOn(s: State, t: int) {
    exists a: Step :: a.t == t && !a.Call? && !a.Cancel? && Enabled(s, a)
  }

  /** No waiter is stranded: a caller that has not returned can go on, or waits for a receipt whose installer can. */
  lemma NobodyIsStranded(states: seq<State>, steps: seq<Step>, k: nat, t: int)
    requires Run(states, steps) && k < |states| && t in states[k].callers && !states[k].callers[t].phase.Returned?
    ensures var s := states[k];
            || CanGoOn(s, t)
            || (&& s.callers[t].phase.Waiting? && s.callers[t].phase.ref < |s.registry.heap|
                && CanGoOn(s, s.registry.heap[s.callers[t].phase.ref].installer))
  {
    RunInv(states, steps, k);
    RunManned(states, steps, k);
    var s, p := states[k], states[k].callers[t].phase;
    assert CallerOk(s, t, s.callers[t]);
    match p
    case Called => assert Enabled(s, ReadClock(t, 0)) && ReadClock(t, 0).t == t;
    case Timed(_) => assert Enabled(s, EnterStep(t)) && EnterStep(t).t == t;
    case Delivering(_) => InstallerGoesOn(s, p.ref, t);
    case Delivered(_, _) => InstallerGoesOn(s, p.ref, t);
    case Waiting(ref) =>
      if s.registry.heap[ref].completed {
        assert Enabled(s, Wake(t)) && Wake(t).t == t;
      } else {
        InstallerGoesOn(s, ref, s.registry.heap[ref].installer);
      }
  }

  lemma InstallerGoesOn(s: State, r: nat, t: int)
    requires Inv(s) && r < |s.registry.heap| && MannedBy(s, r, t)
    ensures CanGoOn(s, t)
  {
    if s.callers[t].phase.Delivering? {
      var a := ProviderReturns(t, Outcome("", ""));
      assert Enabled(s, a) && a.t == t;
    } else {
      assert Enabled(s, CompleteStep(t)) && CompleteStep(t).t == t;
    }
  }
}
