/**
 `ServeConn` loops and their goroutines, over any number of connections: contexts leave the pool and
 come back, the wait group counts, and every request is answered from the context it was given.

 An attempt is one turn of a `ServeConn` loop. Its stages interleave freely with those of all other
 attempts, whether the loop or the goroutine it started takes them; each works on the fields of the
 context the attempt holds, as earlier requests have left them.
 */
module ServeLoop {
  import opened Common
  import opened ServerContext

  /** A turn that uses context `ctx`; `w` is what its connection has in store for it. */
  datatype Attempt = Attempt(ctx: nat, w: Traffic, phase: Phase, local: Local)

  /** `ctxs` are the contexts ever made; `user[x]` is history: the attempt that took context `x` out of
      the pool last. */
  datatype State = State(ctxs: seq<Ctx>, user: seq<nat>, pool: set<nat>, attempts: seq<Attempt>, callGroup: int)

  const INIT := State([], [], {}, [], 0)

  /** A turn begins with a pooled or a new context; then it advances stage by stage. */
  datatype Step = GetPooled(x: nat, w: Traffic) | GetNew(w: Traffic) | Advance(r: nat)

  function TurnOf(st: State, a: Attempt): Turn
    requires a.ctx < |st.ctxs|
  {
    Turn(a.phase, st.ctxs[a.ctx], a.local)
  }

  function Become(a: Attempt, t: Turn): Attempt {
    a.(phase := t.phase, local := t.local)
  }

  function Apply(srv: Server, st: State, step: Step): Option<State> {
    match step
    case GetPooled(x, w) =>
      if x in st.pool && x < |st.user| && x < |st.ctxs|
      then Some(st.(ctxs := st.ctxs[x := Fetch(st.ctxs[x])], pool := st.pool - {x},
                    user := st.user[x := |st.attempts|],
                    attempts := st.attempts + [Attempt(x, w, Got, NO_LOCAL)]))
      else None
    case GetNew(w) =>
      Some(st.(ctxs := st.ctxs + [Fetch(NEW_CTX)], user := st.user + [|st.attempts|],
               attempts := st.attempts + [Attempt(|st.ctxs|, w, Got, NO_LOCAL)]))
    case Advance(r) =>
      if r < |st.attempts| && st.attempts[r].ctx < |st.ctxs| && st.attempts[r].phase != Finished then
        var a := st.attempts[r];
        var t := Next(srv, a.w, TurnOf(st, a));
        Some(st.(ctxs := st.ctxs[a.ctx := t.ctx],
                 attempts := st.attempts[r := Become(a, t)],
                 pool := if a.phase == Answered then st.pool + {a.ctx} else st.pool,
                 callGroup := st.callGroup + Added(a.phase)))
      else None
  }

  /** What leaving this phase does to the wait group. */
  function Added(phase: Phase): int {
    if phase == Fetched then 1 else if phase == Freed then -1 else 0
  }

  function Run(srv: Server, steps: seq<Step>): Option<State> {
    if steps == [] then Some(INIT)
    else match Run(srv, steps[..|steps| - 1])
      case None => None
      case Some(st) => Apply(srv, st, steps[|steps| - 1])
  }

  // ---------------------------------------------------------------- invariant

  predicate Holding(a: Attempt) {
    a.phase != Freed && a.phase != Finished
  }

  /** Counted by the wait group and not yet done. */
  predicate Active(phase: Phase) {
    phase == Counted || phase == Answering || phase == Answered || phase == Freed
  }

  function CountActive(attempts: seq<Attempt>): nat {
    if attempts == [] then 0
    else CountActive(attempts[..|attempts| - 1]) + if Active(attempts[|attempts| - 1].phase) then 1 else 0
  }

  lemma {:induction false} CountUpdate(attempts: seq<Attempt>, r: nat, a: Attempt)
    requires r < |attempts|
    ensures CountActive(attempts[r := a])
            == CountActive(attempts) - (if Active(attempts[r].phase) then 1 else 0) + (if Active(a.phase) then 1 else 0)
  {
    var n := |attempts| - 1;
    if r < n {
      CountUpdate(attempts[..n], r, a);
      assert attempts[r := a][..n] == attempts[..n][r := a];
    } else {
      assert attempts[r := a][..n] == attempts[..n];
    }
  }

  /** One owner per context: whoever holds it is the one who took it last, and it is not pooled. */
  ghost predicate OwnerInv(st: State) {
    && |st.user| == |st.ctxs|
    && (forall x :: x in st.pool ==> x < |st.ctxs| && Recycled(st.ctxs[x]))
    && (forall r :: 0 <= r < |st.attempts| && Holding(st.attempts[r]) ==>
          st.attempts[r].ctx < |st.ctxs| && st.attempts[r].ctx !in st.pool && st.user[st.attempts[r].ctx] == r)
  }

  /** A turn that holds its context keeps step with the reference; one that has given it back has
      answered as the reference. */
  ghost predicate AttemptInv(srv: Server, st: State, a: Attempt) {
    if Holding(a) then a.ctx < |st.ctxs| && TurnInv(srv, a.w, TurnOf(st, a)) else AsReference(srv, a.w, a.local)
  }

  ghost predicate AttemptsInv(srv: Server, st: State) {
    forall r :: 0 <= r < |st.attempts| ==> AttemptInv(srv, st, st.attempts[r])
  }

  ghost predicate Inv(srv: Server, st: State) {
    OwnerInv(st) && AttemptsInv(srv, st) && st.callGroup == CountActive(st.attempts)
  }

  /** What a stage does to a turn as far as ownership and counting go. */
  lemma NextPhase(srv: Server, w: Traffic, t: Turn)
    requires t.phase != Finished && TurnInv(srv, w, t)
    ensures var t' := Next(srv, w, t);
            && (t.phase == Answered ==> t'.phase == Freed && Recycled(t'.ctx))
            && (t.phase == Freed ==> t'.phase == Finished && t'.ctx == t.ctx)
            && (t.phase != Answered && t.phase != Freed ==> t'.phase != Freed && t'.phase != Finished)
            && (if Active(t'.phase) then 1 else 0) == (if Active(t.phase) then 1 else 0) + Added(t.phase)
  {
    hide Begin;
    hide TakeHeader;
    hide Resolve;
    hide TakeBody;
    hide Invoke;
    hide Send;
    hide React;
  }

  /** The turn in `Advance(r)`, which may no longer hold its context. */
  lemma AdvancePhase(srv: Server, st: State, r: nat)
    requires r < |st.attempts| && st.attempts[r].ctx < |st.ctxs| && st.attempts[r].phase != Finished
    requires AttemptInv(srv, st, st.attempts[r])
    ensures var a := st.attempts[r];
            var t, t' := TurnOf(st, a), Next(srv, a.w, TurnOf(st, a));
            && TurnInv(srv, a.w, t) && TurnInv(srv, a.w, t')
            && (a.phase == Answered ==> t'.phase == Freed && Recycled(t'.ctx))
            && (a.phase == Freed ==> t'.phase == Finished && t'.ctx == t.ctx)
            && (a.phase != Answered && a.phase != Freed ==> t'.phase != Freed && t'.phase != Finished)
            && (if Active(t'.phase) then 1 else 0) == (if Active(a.phase) then 1 else 0) + Added(a.phase)
  {
    var a := st.attempts[r];
    hide Next;
    hide AsReference;
    NextPhase(srv, a.w, TurnOf(st, a));
    NextKeepsInv(srv, a.w, TurnOf(st, a));
  }

  lemma GetKeepsInv(srv: Server, st: State, step: Step)
    requires Inv(srv, st) && Apply(srv, st, step).Some? && !step.Advance?
    ensures OwnerInv(Apply(srv, st, step).value) && AttemptsInv(srv, Apply(srv, st, step).value)
  {
    hide AsReference;
    hide CountActive;
    var st' := Apply(srv, st, step).value;
    var n := |st.attempts|;
    assert forall r :: 0 <= r < n ==> st'.attempts[r] == st.attempts[r];
    assert OwnerInv(st');
    assert AttemptInv(srv, st', st'.attempts[n]);
    hide TurnInv;
    forall r | 0 <= r < n ensures AttemptInv(srv, st', st'.attempts[r]) {
      assert AttemptInv(srv, st, st.attempts[r]);
    }
  }

  lemma AdvanceKeepsOwners(srv: Server, st: State, r: nat)
    requires OwnerInv(st) && AttemptsInv(srv, st) && Apply(srv, st, Advance(r)).Some?
    ensures OwnerInv(Apply(srv, st, Advance(r)).value)
  {
    AdvancePhase(srv, st, r);
    hide Next;
    hide TurnInv;
    hide AttemptsInv;
    hide Recycled;
  }

  lemma AdvanceKeepsAttempts(srv: Server, st: State, r: nat)
    requires OwnerInv(st) && AttemptsInv(srv, st) && Apply(srv, st, Advance(r)).Some?
    ensures AttemptsInv(srv, Apply(srv, st, Advance(r)).value)
  {
    AdvancePhase(srv, st, r);
    var st' := Apply(srv, st, Advance(r)).value;
    hide Next;
    hide AsReference;
    assert AttemptInv(srv, st', st'.attempts[r]);
    hide TurnInv;
    forall q | 0 <= q < |st'.attempts| ensures AttemptInv(srv, st', st'.attempts[q]) {
      if q != r {
        assert AttemptInv(srv, st, st.attempts[q]);
      }
    }
  }

  lemma StepKeepsCount(srv: Server, st: State, step: Step)
    requires Inv(srv, st) && Apply(srv, st, step).Some?
    ensures Apply(srv, st, step).value.callGroup == CountActive(Apply(srv, st, step).value.attempts)
  {
    var st' := Apply(srv, st, step).value;
    if step.Advance? {
      AdvancePhase(srv, st, step.r);
      hide Next;
      CountUpdate(st.attempts, step.r, st'.attempts[step.r]);
    } else {
      assert st'.attempts[..|st'.attempts| - 1] == st.attempts;
    }
  }

  lemma {:induction false} RunKeepsInv(srv: Server, steps: seq<Step>)
    requires Run(srv, steps).Some?
    ensures Inv(srv, Run(srv, steps).value)
  {
    if steps != [] {
      var before, step := steps[..|steps| - 1], steps[|steps| - 1];
      RunKeepsInv(srv, before);
      var st := Run(srv, before).value;
      hide Apply;
      StepKeepsCount(srv, st, step);
      if step.Advance? {
        AdvanceKeepsOwners(srv, st, step.r);
        AdvanceKeepsAttempts(srv, st, step.r);
      } else {
        GetKeepsInv(srv, st, step);
      }
    }
  }

  // ---------------------------------------------------------------- what holds in every run

  /** Serving with pooled contexts answers every request as a context of its own would: whatever the
      interleaving and whatever earlier requests left behind, a finished turn has sent exactly the
      responses of the reference, which knows no context. */
  lemma AnsweredAsReference(srv: Server, steps: seq<Step>, r: nat)
    requires Run(srv, steps).Some? && r < |Run(srv, steps).value.attempts|
    ensures var a := Run(srv, steps).value.attempts[r];
            a.phase in {Answered, Freed, Finished} ==> AsFresh(srv, a.w, a.local.sent)
  {
    RunKeepsInv(srv, steps);
    assert AttemptInv(srv, Run(srv, steps).value, Run(srv, steps).value.attempts[r]);
  }

  /** In every run the wait group counts exactly the turns that were added and are not done; it is
      never negative, and zero means that nothing counted is still going on. */
  lemma WaitGroupCounts(srv: Server, steps: seq<Step>)
    requires Run(srv, steps).Some?
    ensures var st := Run(srv, steps).value; st.callGroup == CountActive(st.attempts) >= 0
    ensures var st := Run(srv, steps).value;
            st.callGroup == 0 ==> forall r :: 0 <= r < |st.attempts| ==> !Active(st.attempts[r].phase)
  {
    RunKeepsInv(srv, steps);
    var st := Run(srv, steps).value;
    if st.callGroup == 0 {
      CountZero(st.attempts);
    }
  }

  lemma {:induction false} CountZero(attempts: seq<Attempt>)
    requires CountActive(attempts) == 0
    ensures forall r :: 0 <= r < |attempts| ==> !Active(attempts[r].phase)
  {
    if attempts != [] {
      CountZero(attempts[..|attempts| - 1]);
    }
  }

  /** A request whose header was read gets exactly one `sendResponse`, and what that sends carries the
      number in that header, panic or not; a turn whose header could not be read gets none. */
  lemma AnsweredOnceWithOwnSeq(srv: Server, steps: seq<Step>, r: nat)
    requires Run(srv, steps).Some? && r < |Run(srv, steps).value.attempts|
    ensures var a := Run(srv, steps).value.attempts[r];
            var read := srv.preHeader(map[]).err.None? && a.w.header.HeaderOk?;
            && a.local.sends <= 1 && |a.local.sent| <= a.local.sends
            && (a.phase == Finished ==> a.local.sends == if read then 1 else 0)
            && (forall k :: 0 <= k < |a.local.sent| ==> read && a.local.sent[k].seqno == a.w.header.seqno)
  {
    RunKeepsInv(srv, steps);
    var a := Run(srv, steps).value.attempts[r];
    assert AttemptInv(srv, Run(srv, steps).value, a);
    AnswerIff(srv, a.w);
  }

  lemma AnswerIff(srv: Server, w: Traffic)
    ensures React(srv, w).Answer? <==> srv.preHeader(map[]).err.None? && w.header.HeaderOk?
    ensures React(srv, w).Answer? ==> React(srv, w).seqno == w.header.seqno
  {
  }

  /** A context has one owner at a time. */
  lemma OneOwner(srv: Server, steps: seq<Step>, q: nat, r: nat)
    requires Run(srv, steps).Some? && q < r < |Run(srv, steps).value.attempts|
    requires Holding(Run(srv, steps).value.attempts[q]) && Holding(Run(srv, steps).value.attempts[r])
    ensures var st := Run(srv, steps).value;
            st.attempts[q].ctx != st.attempts[r].ctx && st.attempts[q].ctx !in st.pool
  {
    RunKeepsInv(srv, steps);
  }
}
