/**
 When a batch waits for ever: the exact condition on its entries, from both sides. A state in which nobody
 moves is shown to need the condition, and a run into such a state is built whenever it holds.
 */
module JsonRpcWaiting {
  import opened Common
  import opened JsonRpcServer
  import opened JsonRpcBatch
  import opened JsonRpcPipe

  // ---------------------------------------------------------------- the condition

  /** No entry brings the process down. */
  ghost predicate Survives(entries: seq<Json>) {
    forall k :: 0 <= k < |entries| && Unmarshal(entries[k]).Some? ==> !BringsDown(Unmarshal(entries[k]).value)
  }

  lemma {:induction false} SurvivorsOnly(entries: seq<Json>, k: nat)
    requires Survives(entries) && k < |Valid(entries)|
    ensures !BringsDown(Valid(entries)[k])
  {
    hide Unmarshal;
    hide BringsDown;
    var n := |entries| - 1;
    var before := entries[..n];
    if k < |Valid(before)| {
      forall j | 0 <= j < n && Unmarshal(before[j]).Some? ensures !BringsDown(Unmarshal(before[j]).value) {
        assert before[j] == entries[j];
      }
      SurvivorsOnly(before, k);
    }
  }

  /** More messages are made than tokens pushed: one stays in the pipe. If newlines may stay, as many as
      tokens are enough, since the last one taken then still occupies the pipe. */
  predicate Over(env: Env, made: nat, tokens: nat) {
    made > tokens || (env.lagOut && tokens >= 1 && made >= tokens)
  }

  /** The read loop can be kept from answering the last request before entry `k`, so that this entry is
      never read. */
  ghost predicate BlocksNext(env: Env, entries: seq<Json>, k: nat)
    requires k < |entries|
  {
    var rs := Valid(entries[..k]);
    && Unmarshal(entries[k]).Some? && rs != [] && FromLoop(env, rs[|rs| - 1])
    && Over(env, Made(entries, k), Asked(entries, k + 1))
  }

  /** The read loop can be kept from answering entry `k`, so that its newline is never read. */
  ghost predicate BlocksItself(env: Env, entries: seq<Json>, k: nat)
    requires k < |entries|
  {
    var u := Unmarshal(entries[k]);
    && u.Some? && env.lagIn(k) && FromLoop(env, u.value) && Over(env, Made(entries, k + 1), Asked(entries, k + 1))
  }

  ghost predicate Blocks(env: Env, entries: seq<Json>, k: nat)
    requires k < |entries|
  {
    BlocksNext(env, entries, k) || BlocksItself(env, entries, k)
  }

  /** Fewer entries are answered by a message than have an id. */
  ghost predicate Starves(entries: seq<Json>) {
    CountSends(Valid(entries)) < |InnerIds(entries)|
  }

  ghost predicate CanWait(env: Env, entries: seq<Json>) {
    Starves(entries) || exists k :: 0 <= k < |entries| && Blocks(env, entries, k)
  }

  /** What the run of the inner codec says about the entries read. */
  lemma InnerFacts(entries: seq<Json>, fed: nat, inner: State, steps: seq<Step>)
    requires InnerInv(entries, fed, inner, steps)
    ensures inner.requests == Valid(entries[..fed]) && Inv(inner)
    ensures |inner.sent| + |Owed(Mark, inner.requests, inner.codec.pending, |inner.requests|)| == Made(entries, fed)
    ensures forall k :: 0 <= k < |inner.sent| ==> inner.sent[k].0 != 0
  {
    hide Run;
    hide Honest;
    hide Reads;
    hide Inputs;
    hide Valid;
    hide Owed;
    hide Inv;
    InputsAccepted(entries[..fed]);
    RunTakes(steps);
    RunKeepsInv(steps);
    MessageCount(steps);
  }

  /** A response the server may hand back. */
  function Handing(r: Request): (Option<string>, JsonRpcServer.Reply) {
    match ListOf(r)
    case Some(entries) => (None, Replies(seq(|WantedIds(entries)|, _ => INVALID_REQUEST)))
    case None => (if r.method_ == BATCH then Some("") else None, Plain(Null))
  }

  function Answering(p: Pipe, s: nat): Move
    requires 1 <= s <= |p.inner.requests|
  {
    var h := Handing(p.inner.requests[s - 1]);
    Reply(s, h.0, h.1)
  }

  lemma CanReply(env: Env, entries: seq<Json>, p: Pipe, s: nat)
    requires PipeInv(env, entries, p) && Survives(entries) && p.held.None? && s in p.inner.codec.pending
    ensures 1 <= s <= |p.inner.requests| && Do(env, entries, p, Answering(p, s)).Some?
  {
    hide Unmarshal;
    hide FromLoop;
    hide InnerInv;
    hide TokenInv;
    hide MessageInv;
    hide Inv;
    hide Owed;
    hide Made;
    hide BringsDown;
    hide HandsBack;
    hide Handing;
    hide Valid;
    hide Apply;
    hide Sends;
    InnerFacts(entries, Fed(p), p.inner, p.steps);
    SurvivesPrefix(entries, Fed(p));
    SurvivorsOnly(entries[..Fed(p)], s - 1);
    HandingIsHonest(p.inner.requests[s - 1]);
  }

  lemma HandingIsHonest(r: Request)
    requires !BringsDown(r)
    ensures HandsBack(r, Handing(r).0, Handing(r).1)
  {
    hide WantedIds;
  }

  lemma SurvivesPrefix(entries: seq<Json>, k: nat)
    requires Survives(entries) && k <= |entries|
    ensures Survives(entries[..k])
  {
    hide Unmarshal;
    hide BringsDown;
    forall j | 0 <= j < k && Unmarshal(entries[..k][j]).Some? ensures !BringsDown(Unmarshal(entries[..k][j]).value) {
      assert entries[..k][j] == entries[j];
    }
  }

  /** What keeps everybody but the calls from moving. */
  lemma NoMove(env: Env, entries: seq<Json>, p: Pipe)
    requires forall m :: Do(env, entries, p, m).None?
    ensures p.want ==> p.held != Some(Newline) && (p.held == Some(Whole) ==> p.inner.sent == [])
    ensures !p.want ==> p.queue == []
    ensures p.writing.None? ==> p.k >= |entries|
    ensures p.writing == Some(Whole) ==> p.k >= |entries| || p.busy
    ensures p.writing == Some(Newline) ==> p.busy
  {
    hide Unmarshal;
    hide TokensOf;
    hide FromLoop;
    hide Apply;
    hide DoReply;
    assert Do(env, entries, p, TakeRest) == DoTakeRest(p);
    assert Do(env, entries, p, TakeMessage(false)) == DoTakeMessage(env, p, false);
    assert Do(env, entries, p, TakeToken) == DoTakeToken(p);
    assert Do(env, entries, p, Push) == DoPush(entries, p);
    assert Do(env, entries, p, ReadEntry(false)) == DoReadEntry(env, entries, p, false);
    assert Do(env, entries, p, ReadRest) == DoReadRest(p);
  }

  lemma Halves(h: Option<Half>)
    ensures h == None || h == Some(Whole) || h == Some(Newline)
  {
    match h
    case None =>
    case Some(Whole) =>
    case Some(Newline) =>
  }

  /** A collector that wants a message nobody can send: everything has been written and answered. */
  lemma StuckWanting(env: Env, entries: seq<Json>, p: Pipe)
    requires PipeInv(env, entries, p) && Survives(entries) && Stuck(env, entries, p) && p.want
    ensures Starves(entries)
  {
    hide Unmarshal;
    hide TokensOf;
    hide FromLoop;
    hide Sends;
    hide HandsBack;
    hide Apply;
    hide Collected;
    hide CountAwaited;
    hide Do;
    NoMove(env, entries, p);
    Halves(p.held);
    Halves(p.writing);
    assert p.held.None?;
    if s :| s in p.inner.codec.pending {
      CanReply(env, entries, p, s);
      assert false;
    }
    assert p.inner.codec.pending == map[];
    assert !p.busy;
    assert p.writing.None? && p.k == |entries|;
    InnerFacts(entries, p.k, p.inner, p.steps);
    OwedNothing(Mark, p.inner.requests, |p.inner.requests|);
    assert entries[..p.k] == entries;
  }

  /** A producer whose write is never read: the read loop waits for `sending`, whose holder writes what the
      collector has no token for. */
  lemma StuckWriting(env: Env, entries: seq<Json>, p: Pipe)
    requires PipeInv(env, entries, p) && Survives(entries) && Stuck(env, entries, p) && !p.want
    ensures p.k < |entries| && Blocks(env, entries, p.k)
  {
    hide Unmarshal;
    hide FromLoop;
    hide Sends;
    hide Collected;
    hide Valid;
    hide InnerIds;
    hide CountSends;
    hide Wanted;
    hide InnerInv;
    hide Inv;
    hide Owed;
    hide Do;
    NoMove(env, entries, p);
    Halves(p.held);
    Halves(p.writing);
    assert p.queue == [] && p.writing.Some? && p.busy;
    InnerFacts(entries, Fed(p), p.inner, p.steps);
    if p.held.None? {
      CanReply(env, entries, p, |p.inner.requests|);
      assert false;
    }
    assert CountAwaited([]) == 0;
    hide CountAwaited;
    assert Over(env, Made(entries, Fed(p)), Asked(entries, Pushed(p)));
    hide Over;
    hide MessageInv;
    hide TokenInv;
    if p.writing == Some(Newline) {
      LastRequest(entries, p.k);
      assert BlocksItself(env, entries, p.k);
    } else {
      assert BlocksNext(env, entries, p.k);
    }
  }

  lemma LastRequest(entries: seq<Json>, k: nat)
    requires k < |entries| && Unmarshal(entries[k]).Some?
    ensures var rs := Valid(entries[..k + 1]);
            rs != [] && rs[|rs| - 1] == Unmarshal(entries[k]).value
  {
    hide Unmarshal;
    assert entries[..k + 1][..k] == entries[..k];
  }

  // ---------------------------------------------------------------- building a run

  /** The collector takes tokens until it has one for a message in hand. */
  lemma {:induction false} UntilWanting(env: Env, entries: seq<Json>, moves: seq<Move>) returns (run: seq<Move>)
    requires Play(env, entries, moves).Some?
    requires var p := Play(env, entries, moves).value; p.want || CountAwaited(p.queue) >= 1
    ensures Play(env, entries, run).Some?
    ensures var p, q := Play(env, entries, moves).value, Play(env, entries, run).value;
            q == p.(queue := q.queue, out := q.out, want := true) && PipeInv(env, entries, q)
    decreases |Play(env, entries, moves).value.queue|
  {
    hide PipeInv;
    hide Play;
    PlayKeepsInv(env, entries, moves);
    var p := Play(env, entries, moves).value;
    if p.want {
      run := moves;
    } else {
      assert p.queue != [];
      CountFirst(p.queue);
      run := Extend(env, entries, moves, TakeToken);
      run := UntilWanting(env, entries, run);
    }
  }

  /** The collector takes all tokens, when none is for a message. */
  lemma {:induction false} UntilEmpty(env: Env, entries: seq<Json>, moves: seq<Move>) returns (run: seq<Move>)
    requires Play(env, entries, moves).Some?
    requires var p := Play(env, entries, moves).value; !p.want && CountAwaited(p.queue) == 0
    ensures Play(env, entries, run).Some?
    ensures var p, q := Play(env, entries, moves).value, Play(env, entries, run).value;
            q == p.(queue := [], out := q.out) && PipeInv(env, entries, q)
    decreases |Play(env, entries, moves).value.queue|
  {
    hide PipeInv;
    hide Play;
    PlayKeepsInv(env, entries, moves);
    var p := Play(env, entries, moves).value;
    if p.queue == [] {
      run := moves;
    } else {
      CountFirst(p.queue);
      run := Extend(env, entries, moves, TakeToken);
      run := UntilEmpty(env, entries, run);
    }
  }

  /** Entry `c` is the first valid one from `k` on. */
  ghost predicate FirstValid(entries: seq<Json>, k: nat, c: nat) {
    && k <= c < |entries| && Unmarshal(entries[c]).Some?
    && forall j :: k <= j < c ==> Unmarshal(entries[j]).None?
  }

  /** The producer goes on to the next valid entry. */
  lemma {:induction false} UntilWriting(env: Env, entries: seq<Json>, moves: seq<Move>, c: nat) returns (run: seq<Move>)
    requires Play(env, entries, moves).Some?
    requires var p := Play(env, entries, moves).value; p.writing.None? && FirstValid(entries, p.k, c)
    ensures Play(env, entries, run).Some?
    ensures var p, q := Play(env, entries, moves).value, Play(env, entries, run).value;
            q == p.(k := c, writing := Some(Whole), queue := q.queue) && PipeInv(env, entries, q)
    decreases c - Play(env, entries, moves).value.k
  {
    hide PipeInv;
    hide Play;
    hide Unmarshal;
    hide TokensOf;
    var p := Play(env, entries, moves).value;
    run := Extend(env, entries, moves, Push);
    if p.k < c {
      run := UntilWriting(env, entries, run, c);
    }
  }

  /** The read loop waits to answer, the holder of `sending` writes, and no token is left: nobody moves. */
  lemma Jammed(env: Env, entries: seq<Json>, p: Pipe)
    requires p.writing.Some? && p.busy && p.held.Some? && p.queue == [] && !p.want
    ensures Stuck(env, entries, p)
  {
    hide Unmarshal;
    forall m ensures Do(env, entries, p, m).None? {
    }
  }

  /** A request that waits for an answer which will be a message. */
  predicate Due(p: Pipe, s: nat) {
    s in p.inner.codec.pending && 1 <= s <= |p.inner.requests| && Sends(p.inner.requests[s - 1])
  }

  /** It is answered: its message is in the pipe. */
  lemma SendOne(env: Env, entries: seq<Json>, moves: seq<Move>, s: nat) returns (run: seq<Move>)
    requires Play(env, entries, moves).Some? && Survives(entries)
    requires var p := Play(env, entries, moves).value; p.held.None? && Due(p, s)
    ensures Play(env, entries, run).Some?
    ensures var p, q := Play(env, entries, moves).value, Play(env, entries, run).value;
            && q == p.(inner := q.inner, steps := q.steps, held := Some(Whole)) && PipeInv(env, entries, q)
            && q.inner.requests == p.inner.requests && q.inner.codec.pending == p.inner.codec.pending - {s}
            && q.inner.sent != []
  {
    hide Play;
    hide Unmarshal;
    hide TokenInv;
    hide MessageInv;
    hide LoopInv;
    hide InnerInv;
    hide Sends;
    hide HandsBack;
    hide FromLoop;
    hide Handing;
    hide Apply;
    PlayKeepsInv(env, entries, moves);
    var p := Play(env, entries, moves).value;
    CanReply(env, entries, p, s);
    var m := Answering(p, s);
    ReplyKeepsInner(entries, Fed(p), p.inner, p.steps, Write(m.s, m.error, m.reply));
    run := Extend(env, entries, moves, m);
  }

  /** It is answered and taken whole, while the read loop, waiting for another one, stays where it is. */
  lemma SendAndTake(env: Env, entries: seq<Json>, moves: seq<Move>, s: nat) returns (run: seq<Move>)
    requires Play(env, entries, moves).Some? && Survives(entries)
    requires var p := Play(env, entries, moves).value; p.held.None? && p.want && Due(p, s)
    ensures Play(env, entries, run).Some?
    ensures var p, q := Play(env, entries, moves).value, Play(env, entries, run).value;
            && q == p.(inner := q.inner, steps := q.steps, want := false, taken := p.taken + 1, out := q.out,
                       busy := p.busy && s != |p.inner.requests| && |p.inner.requests| in p.inner.codec.pending)
            && q.inner.requests == p.inner.requests && q.inner.codec.pending == p.inner.codec.pending - {s}
            && PipeInv(env, entries, q)
  {
    hide Play;
    hide PipeInv;
    run := SendOne(env, entries, moves, s);
    run := Extend(env, entries, run, TakeMessage(false));
  }

  /** It is answered and taken, but for its newline. */
  lemma SendAndLeave(env: Env, entries: seq<Json>, moves: seq<Move>, s: nat) returns (run: seq<Move>)
    requires Play(env, entries, moves).Some? && Survives(entries) && env.lagOut
    requires var p := Play(env, entries, moves).value; p.held.None? && p.want && Due(p, s)
    ensures Play(env, entries, run).Some?
    ensures var p, q := Play(env, entries, moves).value, Play(env, entries, run).value;
            && q == p.(inner := q.inner, steps := q.steps, want := false, taken := p.taken + 1, out := q.out,
                       held := Some(Newline))
            && q.inner.requests == p.inner.requests && q.inner.codec.pending == p.inner.codec.pending - {s}
            && PipeInv(env, entries, q)
  {
    hide Play;
    hide PipeInv;
    run := SendOne(env, entries, moves, s);
    run := Extend(env, entries, run, TakeMessage(true));
  }

  // ---------------------------------------------------------------- up to an entry

  /** The producer is writing entry `i` and the inner server can read it; tokens of earlier entries were
      enough for the messages taken. */
  ghost predicate AtEntry(env: Env, entries: seq<Json>, p: Pipe, i: nat) {
    && i < |entries| && p.k == i && p.writing == Some(Whole) && !p.busy && p.held.None?
    && p.taken <= Asked(entries, i) && (env.lagOut && p.taken >= 1 ==> p.want)
  }

  ghost predicate StuckOr(env: Env, entries: seq<Json>, p: Pipe, i: nat) {
    Stuck(env, entries, p) || AtEntry(env, entries, p, i)
  }

  lemma AskedGrows(entries: seq<Json>, i: nat, j: nat)
    requires i <= j <= |entries|
    ensures Asked(entries, i) <= Asked(entries, j)
    decreases j
  {
    hide Unmarshal;
    if i < j {
      hide CountAwaited;
      NextEntry(entries, j - 1);
      hide Asked;
      hide TokensOf;
      AskedGrows(entries, i, j - 1);
    }
  }

  /** The inner server reads entry `i`. */
  lemma ReadIt(env: Env, entries: seq<Json>, moves: seq<Move>, i: nat, leave: bool) returns (run: seq<Move>)
    requires Play(env, entries, moves).Some? && AtEntry(env, entries, Play(env, entries, moves).value, i)
    requires Unmarshal(entries[i]).Some? && (leave ==> env.lagIn(i))
    ensures Play(env, entries, run).Some?
    ensures var p, q := Play(env, entries, moves).value, Play(env, entries, run).value;
            var r := Unmarshal(entries[i]).value;
            && q == p.(inner := q.inner, steps := q.steps, busy := FromLoop(env, r),
                       k := if leave then i else i + 1, writing := if leave then Some(Newline) else None)
            && q.inner.requests == p.inner.requests + [r] && |q.inner.requests| in q.inner.codec.pending
            && PipeInv(env, entries, q)
  {
    hide Play;
    hide Unmarshal;
    hide TokenInv;
    hide MessageInv;
    hide LoopInv;
    hide InnerInv;
    hide FromLoop;
    hide Apply;
    hide Asked;
    PlayKeepsInv(env, entries, moves);
    var p := Play(env, entries, moves).value;
    ValidKeepsInner(entries, i, p.inner, p.steps);
    run := Extend(env, entries, moves, ReadEntry(leave));
  }

  /** The read loop answers the request that keeps it busy, by silence. */
  lemma AnswerInSilence(env: Env, entries: seq<Json>, moves: seq<Move>) returns (run: seq<Move>)
    requires Play(env, entries, moves).Some? && Survives(entries)
    requires var p := Play(env, entries, moves).value;
             var n := |p.inner.requests|;
             p.held.None? && p.busy && n in p.inner.codec.pending && n >= 1 && !Sends(p.inner.requests[n - 1])
    ensures Play(env, entries, run).Some?
    ensures var p, q := Play(env, entries, moves).value, Play(env, entries, run).value;
            q == p.(inner := q.inner, steps := q.steps, busy := false) && PipeInv(env, entries, q)
  {
    hide Play;
    hide Unmarshal;
    hide TokenInv;
    hide MessageInv;
    hide LoopInv;
    hide InnerInv;
    hide Sends;
    hide HandsBack;
    hide FromLoop;
    hide Handing;
    hide Apply;
    PlayKeepsInv(env, entries, moves);
    var p := Play(env, entries, moves).value;
    var n := |p.inner.requests|;
    CanReply(env, entries, p, n);
    var m := Answering(p, n);
    ReplyKeepsInner(entries, Fed(p), p.inner, p.steps, Write(m.s, m.error, m.reply));
    run := Extend(env, entries, moves, m);
  }

  /** A request the read loop answers gets a message exactly if it has an id. */
  lemma LoopSends(env: Env, r: Request)
    requires FromLoop(env, r)
    ensures Sends(r) <==> r.id.Some?
  {
    hide WantedIds;
  }

  /** From one valid entry to the next, or to a state in which nobody moves. */
  lemma Onward(env: Env, entries: seq<Json>, moves: seq<Move>, i: nat, j: nat) returns (run: seq<Move>)
    requires Play(env, entries, moves).Some? && Survives(entries)
    requires AtEntry(env, entries, Play(env, entries, moves).value, i) && Unmarshal(entries[i]).Some?
    requires FirstValid(entries, i + 1, j)
    ensures Play(env, entries, run).Some? && StuckOr(env, entries, Play(env, entries, run).value, j)
  {
    hide Play;
    hide PipeInv;
    hide Unmarshal;
    hide FromLoop;
    hide Sends;
    hide Stuck;
    hide CountAwaited;
    hide Asked;
    var r := Unmarshal(entries[i]).value;
    AskedGrows(entries, i, j);
    run := ReadIt(env, entries, moves, i, false);
    if !FromLoop(env, r) {
      run := UntilWriting(env, entries, run, j);
    } else if !Sends(r) {
      run := AnswerInSilence(env, entries, run);
      run := UntilWriting(env, entries, run, j);
    } else {
      run := LoopAnswers(env, entries, run, i, j);
    }
  }

  /** The read loop answers entry `i` with a message. */
  lemma LoopAnswers(env: Env, entries: seq<Json>, moves: seq<Move>, i: nat, j: nat) returns (run: seq<Move>)
    requires Play(env, entries, moves).Some? && Survives(entries) && FirstValid(entries, i + 1, j)
    requires Unmarshal(entries[i]).Some? && FromLoop(env, Unmarshal(entries[i]).value)
    requires var p, r := Play(env, entries, moves).value, Unmarshal(entries[i]).value;
             var n := |p.inner.requests|;
             && p.k == i + 1 && p.writing.None? && p.held.None? && p.taken <= Asked(entries, i)
             && n >= 1 && n in p.inner.codec.pending && p.inner.requests[n - 1] == r && p.busy && Sends(r)
    ensures Play(env, entries, run).Some? && StuckOr(env, entries, Play(env, entries, run).value, j)
  {
    hide Play;
    hide Unmarshal;
    hide InnerInv;
    hide MessageInv;
    hide LoopInv;
    hide FromLoop;
    hide Sends;
    hide Stuck;
    PlayKeepsInv(env, entries, moves);
    var p := Play(env, entries, moves).value;
    var n := |p.inner.requests|;
    LoopSends(env, Unmarshal(entries[i]).value);
    NextEntry(entries, i);
    AskedGrows(entries, i + 1, j);
    assert CountAwaited([Awaited]) == 1 by {
      assert [Awaited][..0] == [];
    }
    hide CountAwaited;
    hide Asked;
    hide TokensOf;
    run := UntilWanting(env, entries, moves);
    hide TokenInv;
    if !env.lagOut {
      run := SendAndTake(env, entries, run, n);
      run := UntilWriting(env, entries, run, j);
    } else {
      run := SendAndLeave(env, entries, run, n);
      run := UntilWriting(env, entries, run, j);
      run := FreeOrStuck(env, entries, run, j);
    }
  }

  /** The newline of the read loop's message is still in the pipe while the producer writes entry `j`: a
      further token frees the read loop, and without one nobody moves. */
  lemma FreeOrStuck(env: Env, entries: seq<Json>, moves: seq<Move>, j: nat) returns (run: seq<Move>)
    requires Play(env, entries, moves).Some?
    requires var p := Play(env, entries, moves).value;
             && j < |entries| && p.k == j && p.writing == Some(Whole) && p.held == Some(Newline) && !p.want && p.busy
             && |p.inner.requests| !in p.inner.codec.pending && p.taken <= Asked(entries, j)
    ensures Play(env, entries, run).Some? && StuckOr(env, entries, Play(env, entries, run).value, j)
  {
    hide Play;
    hide PipeInv;
    hide CountAwaited;
    hide Asked;
    hide Stuck;
    var p := Play(env, entries, moves).value;
    if CountAwaited(p.queue) >= 1 {
      run := UntilWanting(env, entries, moves);
      run := Extend(env, entries, run, TakeRest);
    } else {
      run := UntilEmpty(env, entries, moves);
      Jammed(env, entries, Play(env, entries, run).value);
    }
  }

  /** Some run leads to entry `i`, or to a state in which nobody moves. */
  lemma {:induction false} Reach(env: Env, entries: seq<Json>, i: nat) returns (run: seq<Move>)
    requires Survives(entries) && i < |entries| && Unmarshal(entries[i]).Some?
    ensures Play(env, entries, run).Some? && StuckOr(env, entries, Play(env, entries, run).value, i)
    decreases i
  {
    hide Unmarshal;
    hide Stuck;
    hide PipeInv;
    hide Do;
    var h := Before(entries, i);
    if h.None? {
      assert Play(env, entries, []) == Some(START);
      run := UntilWriting(env, entries, [], i);
    } else {
      hide Play;
      run := Reach(env, entries, h.value);
      if !Stuck(env, entries, Play(env, entries, run).value) {
        run := Onward(env, entries, run, h.value, i);
      }
    }
  }

  /** The valid entry before entry `i`, if there is one. */
  lemma {:induction false} Before(entries: seq<Json>, i: nat) returns (h: Option<nat>)
    requires i < |entries| && Unmarshal(entries[i]).Some?
    ensures h.None? ==> FirstValid(entries, 0, i)
    ensures h.Some? ==> h.value < i && Unmarshal(entries[h.value]).Some? && FirstValid(entries, h.value + 1, i)
  {
    hide Unmarshal;
    h := LastBefore(entries, i);
  }

  lemma {:induction false} LastBefore(entries: seq<Json>, i: nat) returns (h: Option<nat>)
    requires i <= |entries|
    ensures h.None? ==> forall j :: 0 <= j < i ==> Unmarshal(entries[j]).None?
    ensures h.Some? ==> h.value < i && Unmarshal(entries[h.value]).Some?
                        && forall j :: h.value < j < i ==> Unmarshal(entries[j]).None?
  {
    hide Unmarshal;
    if i == 0 {
      h := None;
    } else if Unmarshal(entries[i - 1]).Some? {
      h := Some(i - 1);
    } else {
      h := LastBefore(entries, i - 1);
    }
  }

  // ---------------------------------------------------------------- jamming the pipe

  /** The read loop is waiting to answer, and there is more to send than the collector will take. */
  ghost predicate Primed(env: Env, entries: seq<Json>, p: Pipe) {
    && Pushed(p) <= |entries| && p.writing.Some? && p.busy && p.held.None?
    && p.inner.requests != [] && |p.inner.requests| in p.inner.codec.pending
    && var made, tokens := Made(entries, Fed(p)), Asked(entries, Pushed(p));
       Over(env, made, tokens) && (made > tokens || p.taken < tokens)
  }

  lemma {:induction false} OwedSome(rs: seq<Request>, pending: map<nat, Option<Json>>, n: nat) returns (s: nat)
    requires n <= |rs| && |Owed(Mark, rs, pending, n)| >= 1
    ensures 1 <= s <= n && s in pending && Sends(rs[s - 1])
  {
    hide Sends;
    if n in pending && Sends(rs[n - 1]) {
      s := n;
    } else {
      s := OwedSome(rs, pending, n - 1);
    }
  }

  lemma OwedOther(rs: seq<Request>, pending: map<nat, Option<Json>>, n: nat) returns (s: nat)
    requires 1 <= n <= |rs| && |Owed(Mark, rs, pending, n)| >= 2
    ensures 1 <= s < n && s in pending && Sends(rs[s - 1])
  {
    hide Sends;
    s := OwedSome(rs, pending, n - 1);
  }

  /** What is owed, and how many tokens are left, in a primed state. */
  lemma PrimedCounts(env: Env, entries: seq<Json>, p: Pipe)
    requires PipeInv(env, entries, p) && Primed(env, entries, p)
    ensures p.taken + |Owed(Mark, p.inner.requests, p.inner.codec.pending, |p.inner.requests|)| == Made(entries, Fed(p))
    ensures CountAwaited(p.queue) + One(p.want) + p.taken == Asked(entries, Pushed(p))
  {
    hide Unmarshal;
    hide Owed;
    hide Collected;
    hide CountAwaited;
    hide LoopInv;
    hide Made;
    hide Asked;
    InnerFacts(entries, Fed(p), p.inner, p.steps);
  }

  lemma {:induction false} Jam(env: Env, entries: seq<Json>, moves: seq<Move>) returns (run: seq<Move>)
    requires Play(env, entries, moves).Some? && Survives(entries)
    requires Primed(env, entries, Play(env, entries, moves).value)
    ensures Play(env, entries, run).Some? && Stuck(env, entries, Play(env, entries, run).value)
    decreases Asked(entries, Pushed(Play(env, entries, moves).value)) - Play(env, entries, moves).value.taken
  {
    hide Play;
    hide PipeInv;
    hide Owed;
    hide CountAwaited;
    hide Made;
    hide Asked;
    hide Sends;
    hide Stuck;
    PlayKeepsInv(env, entries, moves);
    var p := Play(env, entries, moves).value;
    var made, tokens := Made(entries, Fed(p)), Asked(entries, Pushed(p));
    PrimedCounts(env, entries, p);
    if p.taken == tokens {
      run := JamWhole(env, entries, moves);
    } else if made > tokens || p.taken < tokens - 1 {
      run := UntilWanting(env, entries, moves);
      var s := OwedOther(p.inner.requests, p.inner.codec.pending, |p.inner.requests|);
      run := SendAndTake(env, entries, run, s);
      run := Jam(env, entries, run);
    } else {
      run := JamNewline(env, entries, moves);
    }
  }

  /** With every token used, one more message stays in the pipe. */
  lemma JamWhole(env: Env, entries: seq<Json>, moves: seq<Move>) returns (run: seq<Move>)
    requires Play(env, entries, moves).Some? && Survives(entries)
    requires var p := Play(env, entries, moves).value;
             Primed(env, entries, p) && p.taken == Asked(entries, Pushed(p))
    ensures Play(env, entries, run).Some? && Stuck(env, entries, Play(env, entries, run).value)
  {
    hide Play;
    hide PipeInv;
    hide Owed;
    hide CountAwaited;
    hide Made;
    hide Asked;
    hide Sends;
    hide Stuck;
    PlayKeepsInv(env, entries, moves);
    var p := Play(env, entries, moves).value;
    PrimedCounts(env, entries, p);
    run := UntilEmpty(env, entries, moves);
    var s := OwedSome(p.inner.requests, p.inner.codec.pending, |p.inner.requests|);
    run := SendOne(env, entries, run, s);
    Jammed(env, entries, Play(env, entries, run).value);
  }

  /** With one token left, one message is taken and its newline stays. */
  lemma JamNewline(env: Env, entries: seq<Json>, moves: seq<Move>) returns (run: seq<Move>)
    requires Play(env, entries, moves).Some? && Survives(entries) && env.lagOut
    requires var p := Play(env, entries, moves).value;
             Primed(env, entries, p) && p.taken == Asked(entries, Pushed(p)) - 1
    ensures Play(env, entries, run).Some? && Stuck(env, entries, Play(env, entries, run).value)
  {
    hide Play;
    hide PipeInv;
    hide Owed;
    hide CountAwaited;
    hide Made;
    hide Asked;
    hide Sends;
    hide Stuck;
    PlayKeepsInv(env, entries, moves);
    var p := Play(env, entries, moves).value;
    PrimedCounts(env, entries, p);
    run := UntilWanting(env, entries, moves);
    var s := OwedSome(p.inner.requests, p.inner.codec.pending, |p.inner.requests|);
    run := SendAndLeave(env, entries, run, s);
    NoTokenLeft(env, entries, Play(env, entries, run).value);
    run := UntilEmpty(env, entries, run);
    Jammed(env, entries, Play(env, entries, run).value);
  }

  lemma NoTokenLeft(env: Env, entries: seq<Json>, p: Pipe)
    requires PipeInv(env, entries, p) && p.taken == Asked(entries, Pushed(p))
    ensures CountAwaited(p.queue) == 0 && !p.want
  {
    hide Unmarshal;
    hide InnerInv;
    hide MessageInv;
    hide LoopInv;
    hide CountAwaited;
    hide Asked;
  }

  lemma PrimedAt(env: Env, entries: seq<Json>, p: Pipe)
    requires PipeInv(env, entries, p) && p.writing.Some? && p.busy && p.held.None?
    requires p.inner.requests != [] && |p.inner.requests| in p.inner.codec.pending
    requires env.lagOut && p.taken >= 1 ==> p.want
    requires Fed(p) <= |entries| && Pushed(p) <= |entries|
    requires Over(env, Made(entries, Fed(p)), Asked(entries, Pushed(p)))
    ensures Primed(env, entries, p)
  {
    hide Unmarshal;
    hide InnerInv;
    hide MessageInv;
    hide LoopInv;
    hide CountAwaited;
    hide Asked;
    hide Made;
  }

  /** The producer can be kept from getting entry `k` through. */
  lemma CanBlock(env: Env, entries: seq<Json>, k: nat) returns (run: seq<Move>)
    requires Survives(entries) && k < |entries| && Blocks(env, entries, k)
    ensures Play(env, entries, run).Some? && Stuck(env, entries, Play(env, entries, run).value)
  {
    hide Play;
    hide Unmarshal;
    hide FromLoop;
    hide Stuck;
    hide PipeInv;
    hide Made;
    hide Asked;
    if BlocksItself(env, entries, k) {
      run := Reach(env, entries, k);
      if !Stuck(env, entries, Play(env, entries, run).value) {
        run := ReadIt(env, entries, run, k, true);
        PrimedAt(env, entries, Play(env, entries, run).value);
        run := Jam(env, entries, run);
      }
    } else {
      var b := LastSender(entries, k);
      run := Reach(env, entries, b);
      if !Stuck(env, entries, Play(env, entries, run).value) {
        run := ReadIt(env, entries, run, b, false);
        run := UntilWriting(env, entries, run, k);
        PrimedAt(env, entries, Play(env, entries, run).value);
        run := Jam(env, entries, run);
      }
    }
  }

  /** The entry that is the last request before entry `k`. */
  lemma LastSender(entries: seq<Json>, k: nat) returns (b: nat)
    requires k < |entries| && Unmarshal(entries[k]).Some? && Valid(entries[..k]) != []
    ensures b < k && Unmarshal(entries[b]).Some? && FirstValid(entries, b + 1, k)
    ensures var rs := Valid(entries[..k]); rs[|rs| - 1] == Unmarshal(entries[b]).value
  {
    hide Unmarshal;
    var h := LastBefore(entries, k);
    if h.None? {
      SameValid(entries, 0, k);
      assert false;
    }
    b := h.value;
    SameValid(entries, b + 1, k);
    LastRequest(entries, b);
  }

  lemma {:induction false} SameValid(entries: seq<Json>, i: nat, k: nat)
    requires i <= k <= |entries| && forall j :: i <= j < k ==> Unmarshal(entries[j]).None?
    ensures Valid(entries[..k]) == Valid(entries[..i])
    decreases k
  {
    hide Unmarshal;
    if i < k {
      SameValid(entries, i, k - 1);
      assert entries[..k][..k - 1] == entries[..k - 1];
    }
  }

  // ---------------------------------------------------------------- the results

  lemma Finishes(env: Env, entries: seq<Json>, p: Pipe)
    requires PipeInv(env, entries, p) && Finished(entries, p)
    ensures p.taken == |InnerIds(entries)| && |p.out| == |WantedIds(entries)|
    ensures InnerInv(entries, |entries|, p.inner, p.steps) && p.inner.requests == Valid(entries)
    ensures p.taken <= |p.inner.sent| <= CountSends(Valid(entries))
  {
    hide Unmarshal;
    hide Collected;
    hide LoopInv;
    hide Valid;
    hide InnerIds;
    hide WantedIds;
    hide CountSends;
    assert CountAwaited([]) == 0;
    hide CountAwaited;
    InnerFacts(entries, p.k, p.inner, p.steps);
    assert entries[..|entries|] == entries;
  }

  /** A batch that counts on more messages than its entries make waits for ever, whatever happens. */
  lemma StarvingNeverFinishes(env: Env, entries: seq<Json>, moves: seq<Move>)
    requires Play(env, entries, moves).Some? && Starves(entries)
    ensures !Finished(entries, Play(env, entries, moves).value)
  {
    hide Play;
    hide PipeInv;
    PlayKeepsInv(env, entries, moves);
    if Finished(entries, Play(env, entries, moves).value) {
      Finishes(env, entries, Play(env, entries, moves).value);
    }
  }

  /** Exactly when a batch may wait for ever: fewer of its entries are answered by a message than have an
      id; or the read loop answers a request itself and, with the entries up to that one making more
      messages than there are tokens up to the entry being written, can be kept from it. */
  lemma WaitsIff(env: Env, entries: seq<Json>)
    requires Survives(entries)
    ensures (exists moves :: Play(env, entries, moves).Some? && Stuck(env, entries, Play(env, entries, moves).value))
            <==> CanWait(env, entries)
  {
    hide Play;
    hide PipeInv;
    hide Blocks;
    hide Starves;
    if moves :| Play(env, entries, moves).Some? && Stuck(env, entries, Play(env, entries, moves).value) {
      hide Stuck;
      var p := Play(env, entries, moves).value;
      PlayKeepsInv(env, entries, moves);
      if p.want {
        StuckWanting(env, entries, p);
      } else {
        StuckWriting(env, entries, p);
      }
    } else if Starves(entries) {
      var run := CanStarve(env, entries);
    } else if k :| 0 <= k < |entries| && Blocks(env, entries, k) {
      var run := CanBlock(env, entries, k);
    }
  }

  lemma CanStarve(env: Env, entries: seq<Json>) returns (run: seq<Move>)
    requires Starves(entries)
    ensures Play(env, entries, run).Some? && Stuck(env, entries, Play(env, entries, run).value)
  {
    assert Play(env, entries, []).Some?;
    hide Play;
    hide Do;
    hide Starves;
    run := Exhaust(env, entries, []);
    StarvingNeverFinishes(env, entries, run);
  }

  /** A batch that returns has one reply for each invalid entry and each valid one with an id: so many
      messages as there are ids, in the order they came, and the ready-made errors. If all entries are
      ordinary the replies carry exactly the ids that were asked with. */
  lemma BatchReplies(env: Env, entries: seq<Json>, moves: seq<Move>)
    requires Play(env, entries, moves).Some? && Finished(entries, Play(env, entries, moves).value)
    ensures var p := Play(env, entries, moves).value;
            && |p.out| == |WantedIds(entries)| && |InnerIds(entries)| <= |p.inner.sent|
            && |InnerIds(entries)| <= |WantedIds(entries)|
            && Collected(p.out, Messages(p.inner.sent)[..|InnerIds(entries)|], INVALID_REQUEST,
                         |WantedIds(entries)| - |InnerIds(entries)|)
            && (AllOrdinary(Valid(entries)) ==>
                  AllSingle(p.out) && multiset(Ids(p.out)) == multiset(WantedIds(entries)))
  {
    hide Play;
    hide Unmarshal;
    hide Collected;
    hide TokenInv;
    hide LoopInv;
    hide InnerInv;
    hide Valid;
    hide InnerIds;
    hide WantedIds;
    hide CountSends;
    hide Ids;
    hide AllSingle;
    hide Messages;
    hide AllOrdinary;
    PlayKeepsInv(env, entries, moves);
    var p := Play(env, entries, moves).value;
    Finishes(env, entries, p);
    if AllOrdinary(Valid(entries)) {
      OrdinarySent(entries, p.inner, p.steps, p.taken);
      assert Messages(p.inner.sent)[..p.taken] == Messages(p.inner.sent);
      OrdinaryReplies(entries, Messages(p.inner.sent), p.out);
    }
  }

  /** With ordinary entries, as many messages as there are ids are all the messages, and carry those ids. */
  lemma OrdinarySent(entries: seq<Json>, inner: State, steps: seq<Step>, taken: nat)
    requires InnerInv(entries, |entries|, inner, steps) && AllOrdinary(Valid(entries))
    requires taken == |InnerIds(entries)| <= |inner.sent|
    ensures |inner.sent| == taken && AllSingle(Messages(inner.sent))
    ensures multiset(Ids(Messages(inner.sent))) == multiset(InnerIds(entries))
  {
    hide Run;
    hide Honest;
    hide Reads;
    hide Inputs;
    hide Valid;
    hide InnerIds;
    hide Inv;
    hide Ids;
    hide Owed;
    hide Total;
    assert entries[..|entries|] == entries;
    InnerFacts(entries, |entries|, inner, steps);
    ValidIds(entries);
    OrdinaryMakes(Valid(entries));
    OrdinaryRun(steps);
    IdsAreConserved(steps);
    SentIdsAreIds(inner.sent);
    hide SentIds;
    hide ListedIds;
    AllAccounted(SentIds(inner.sent), Owed(IdOf, inner.requests, inner.codec.pending, |inner.requests|),
                 Total(IdOf, inner.requests));
  }

  lemma AllAccounted(a: multiset<Json>, b: multiset<Json>, all: multiset<Json>)
    requires a + b == all && |a| >= |all|
    ensures a == all
  {
    assert |a + b| == |a| + |b|;
    assert b == multiset{};
  }

  lemma {:induction false} OrdinaryMakes(rs: seq<Request>)
    requires AllOrdinary(rs)
    ensures |Total(Mark, rs)| == |Total(IdOf, rs)|
  {
    if rs != [] {
      var n := |rs| - 1;
      OrdinaryMakes(rs[..n]);
      assert Ordinary(rs[n]);
      hide WantedIds;
    }
  }

  /** Every entry that is answered by a message has an id. */
  ghost predicate OnlyAsked(rs: seq<Request>) {
    forall k :: 0 <= k < |rs| && Sends(rs[k]) ==> rs[k].id.Some?
  }

  lemma {:induction false} MadeAtMostAsked(entries: seq<Json>)
    requires OnlyAsked(Valid(entries))
    ensures CountSends(Valid(entries)) <= |InnerIds(entries)|
  {
    hide Unmarshal;
    hide Sends;
    ValidIds(entries);
    hide InnerIds;
    MarkAtMostIds(Valid(entries));
  }

  lemma {:induction false} MarkAtMostIds(rs: seq<Request>)
    requires OnlyAsked(rs)
    ensures |Total(Mark, rs)| <= |Total(IdOf, rs)|
  {
    hide Sends;
    if rs != [] {
      var n := |rs| - 1;
      MarkAtMostIds(rs[..n]);
      assert Sends(rs[n]) ==> rs[n].id.Some?;
    }
  }

  lemma {:induction false} ValidPrefix(entries: seq<Json>, k: nat)
    requires k <= |entries|
    ensures Valid(entries[..k]) <= Valid(entries)
  {
    hide Unmarshal;
    if k == |entries| {
      assert entries[..k] == entries;
    } else {
      var n := |entries| - 1;
      ValidPrefix(entries[..n], k);
      assert entries[..n][..k] == entries[..k];
    }
  }

  /** If a decoder takes every message with its newline, and every entry that is answered by a message has
      an id, the producer never gets stuck; if besides every entry with an id is answered by a message,
      the batch returns in every run. */
  lemma NeverWaits(env: Env, entries: seq<Json>)
    requires !env.lagOut && OnlyAsked(Valid(entries))
    ensures forall k :: 0 <= k < |entries| ==> !Blocks(env, entries, k)
    ensures (forall k :: 0 <= k < |Valid(entries)| ==> Matches(Valid(entries)[k])) ==> !CanWait(env, entries)
  {
    hide Unmarshal;
    hide Sends;
    hide FromLoop;
    hide Matches;
    forall k | 0 <= k < |entries| ensures !Blocks(env, entries, k) {
      NotBlocked(env, entries, k);
    }
    if forall k :: 0 <= k < |Valid(entries)| ==> Matches(Valid(entries)[k]) {
      AllMatch(Valid(entries));
      ValidIds(entries);
    }
  }

  lemma NotBlocked(env: Env, entries: seq<Json>, k: nat)
    requires !env.lagOut && OnlyAsked(Valid(entries)) && k < |entries|
    ensures !Blocks(env, entries, k)
  {
    hide Unmarshal;
    hide Sends;
    hide FromLoop;
    hide Valid;
    hide InnerIds;
    hide CountSends;
    ValidPrefix(entries, k);
    ValidPrefix(entries, k + 1);
    assert OnlyAsked(Valid(entries[..k])) && OnlyAsked(Valid(entries[..k + 1]));
    MadeAtMostAsked(entries[..k]);
    MadeAtMostAsked(entries[..k + 1]);
    AskedGrows(entries, k, k + 1);
  }

  lemma {:induction false} AllMatch(rs: seq<Request>)
    requires forall k :: 0 <= k < |rs| ==> Matches(rs[k])
    ensures |Total(Mark, rs)| == |Total(IdOf, rs)|
  {
    hide Matches;
    hide Sends;
    if rs != [] {
      var n := |rs| - 1;
      AllMatch(rs[..n]);
      assert Matches(rs[n]);
      MatchesIff(rs[n]);
    }
  }

  // ---------------------------------------------------------------- batches that wait

  function Note(method_: string): Json {
    Obj(map["jsonrpc" := Str("2.0"), "method" := Str(method_)])
  }

  lemma NoteIs(method_: string)
    ensures Unmarshal(Note(method_)) == Some(Request(method_, None, None))
  {
    hide Unmarshal;
    AcceptsExactlyRequestObjects(Note(method_));
  }

  lemma NoEntry()
    ensures Valid([]) == [] && InnerIds([]) == []
    ensures CountAwaited([]) == 0 && CountAwaited([Awaited]) == 1
  {
    assert [Awaited][..0] == [];
  }

  lemma Three(a: Json, b: Json, c: Json, ra: Request, rb: Request, rc: Request)
    requires Unmarshal(a) == Some(ra) && Unmarshal(b) == Some(rb) && Unmarshal(c) == Some(rc)
    ensures var es := [a, b, c];
            && Valid(es[..2]) == [ra, rb] && Valid(es) == [ra, rb, rc]
            && |InnerIds(es)| == Asked(es, 3) == One(ra.id.Some?) + One(rb.id.Some?) + One(rc.id.Some?)
            && Made(es, 2) == One(Sends(ra)) + One(Sends(rb))
  {
    hide Unmarshal;
    hide Sends;
    hide Valid;
    hide InnerIds;
    hide Asked;
    hide CountSends;
    var es := [a, b, c];
    NothingYet(es);
    OneMoreEntry(es, 0, [], ra);
    OneMoreEntry(es, 1, [ra], rb);
    OneMoreEntry(es, 2, [ra, rb], rc);
    assert [] + [ra] == [ra] && [ra] + [rb] == [ra, rb] && [ra, rb] + [rc] == [ra, rb, rc];
    TwoMarks(ra, rb);
    AllAsked(es);
  }

  lemma NothingYet(es: seq<Json>)
    ensures Valid(es[..0]) == [] && Asked(es, 0) == 0
  {
    assert es[..0] == [];
  }

  lemma AllAsked(es: seq<Json>)
    ensures Valid(es[..|es|]) == Valid(es) && Asked(es, |es|) == |InnerIds(es)|
  {
    hide Valid;
    hide InnerIds;
    assert es[..|es|] == es;
  }

  lemma OneMoreEntry(es: seq<Json>, k: nat, rs: seq<Request>, r: Request)
    requires k < |es| && Unmarshal(es[k]) == Some(r) && Valid(es[..k]) == rs
    ensures Valid(es[..k + 1]) == rs + [r] && Asked(es, k + 1) == Asked(es, k) + One(r.id.Some?)
  {
    hide Unmarshal;
    hide Valid;
    hide InnerIds;
    hide WantedIds;
    hide CountAwaited;
    hide Inputs;
    NextEntry(es, k);
    NoEntry();
    hide TokensOf;
  }

  lemma TwoMarks(a: Request, b: Request)
    ensures CountSends([a, b]) == One(Sends(a)) + One(Sends(b))
  {
    hide Sends;
    assert [a, b][..1] == [a] && [a][..0] == [];
    assert Total(Mark, [a]) == Mark(a);
  }

  /** Three requests, the second of them answered by the read loop: if the first two make more messages than
      all three ask for, the third may never be read. */
  lemma ThirdIsBlocked(env: Env, a: Json, b: Json, c: Json, ra: Request, rb: Request, rc: Request)
      returns (run: seq<Move>)
    requires Unmarshal(a) == Some(ra) && Unmarshal(b) == Some(rb) && Unmarshal(c) == Some(rc)
    requires !BringsDown(ra) && !BringsDown(rb) && !BringsDown(rc) && FromLoop(env, rb)
    requires Over(env, One(Sends(ra)) + One(Sends(rb)), One(ra.id.Some?) + One(rb.id.Some?) + One(rc.id.Some?))
    ensures Survives([a, b, c])
    ensures Play(env, [a, b, c], run).Some? && Stuck(env, [a, b, c], Play(env, [a, b, c], run).value)
  {
    hide Unmarshal;
    hide Sends;
    hide Valid;
    hide InnerIds;
    hide Made;
    hide Asked;
    hide BringsDown;
    hide FromLoop;
    hide Play;
    hide Stuck;
    var entries := [a, b, c];
    Three(a, b, c, ra, rb, rc);
    assert BlocksNext(env, entries, 2);
    run := CanBlock(env, entries, 2);
  }

  /** Three notifications: a call of the batch method by name whose own entry is no request, a call of a
      method that does not exist, and another one. Nothing is asked for, so nobody reads the answer to
      the first; the read loop cannot answer the second; the third is never read. */
  lemma NotificationsCanBlock(env: Env, none: string, some: string) returns (run: seq<Move>)
    requires env.unknown(Request(none, None, None)) && none != BATCH && some != BATCH
    ensures var entries := [Obj(BatchCall([Null])), Note(none), Note(some)];
            && |InnerIds(entries)| == 0 && Survives(entries)
            && Play(env, entries, run).Some? && Stuck(env, entries, Play(env, entries, run).value)
  {
    hide Unmarshal;
    hide InnerIds;
    hide Valid;
    hide Sends;
    hide Play;
    hide Stuck;
    BatchNoteIs();
    NoteIs(none);
    NoteIs(some);
    var r, rn, rs := Request(BATCH, Some(Arr([Null])), None), Request(none, None, None), Request(some, None, None);
    Three(Obj(BatchCall([Null])), Note(none), Note(some), r, rn, rs);
    run := ThirdIsBlocked(env, Obj(BatchCall([Null])), Note(none), Note(some), r, rn, rs);
  }

  /** If newlines may stay in the pipe, a batch without any call of the batch method may wait as well: a
      call with an id, a call of a method that does not exist, and a further one, both without. */
  lemma OrdinaryCanBlock(env: Env, call: Json, r: Request, none: string, some: string) returns (run: seq<Move>)
    requires env.lagOut && env.unknown(Request(none, None, None)) && none != BATCH && some != BATCH
    requires Unmarshal(call) == Some(r) && r.id.Some? && r.method_ != BATCH
    ensures var entries := [call, Note(none), Note(some)];
            && AllOrdinary(Valid(entries)) && Survives(entries)
            && Play(env, entries, run).Some? && Stuck(env, entries, Play(env, entries, run).value)
  {
    hide Unmarshal;
    hide Play;
    hide Stuck;
    NoteIs(none);
    NoteIs(some);
    var rn, rs := Request(none, None, None), Request(some, None, None);
    Three(call, Note(none), Note(some), r, rn, rs);
    hide Valid;
    run := ThirdIsBlocked(env, call, Note(none), Note(some), r, rn, rs);
  }

  /** A batch of one entry, which calls the batch method by name, with an id and with nothing but a
      notification: it is answered by silence, and the batch waits for the answer. */
  lemma SilenceStarves(env: Env, note: Json) returns (run: seq<Move>)
    requires Silent(note)
    ensures var entries := [Obj(BatchCall([note])["id" := Number("1")])];
            Play(env, entries, run).Some? && Stuck(env, entries, Play(env, entries, run).value)
  {
    hide Play;
    hide Stuck;
    BatchCanWaitForEver(note);
    run := CanStarve(env, [Obj(BatchCall([note])["id" := Number("1")])]);
  }
}
