/**
 How a batch comes to its end, or does not. `JSONMyrpc.Batch` and the inner server talk over a pipe
 without a buffer: a write lasts until the other side has read all of it. Four parties take turns: the
 loop that writes the entries, the inner server's read loop, whoever holds its `sending` mutex to write
 a response, and the goroutine that collects the replies.

 The read loop of Go's net/rpc starts a goroutine for each call, but answers a request that it cannot
 dispatch by itself, and reads nothing until that is done. A JSON decoder returns a value as soon as its
 closing bracket has arrived; the newline behind it may stay in the pipe until the next read.
 */
module JsonRpcPipe {
  import opened Common
  import opened JsonRpcServer
  import opened JsonRpcBatch

  // ---------------------------------------------------------------- the machine

  /** What is not settled by the entries: the requests for which there is no method or whose params do not
      fit it, the entries whose newline a decoder may leave behind, and whether it may do so with a
      response. */
  datatype Env = Env(unknown: Request -> bool, lagIn: nat -> bool, lagOut: bool)

  /** The read loop answers this request itself. */
  predicate FromLoop(env: Env, r: Request) {
    if r.method_ == BATCH then ListOf(r).None? else env.unknown(r)
  }

  /** Of the calls of the batch method, the read loop answers those whose params are refused. */
  lemma FromLoopForms(env: Env, entries: seq<Json>, fields: map<string, Json>, id: Option<Json>, r: Request)
    ensures FromLoop(env, Request("JSONMyrpc.Batch", Some(Arr([])), id))
    ensures FromLoop(env, Request("JSONMyrpc.Batch", Some(Obj(fields)), id))
    ensures entries != [] ==> !FromLoop(env, Request("JSONMyrpc.Batch", Some(Arr(entries)), id))
    ensures r.method_ != "JSONMyrpc.Batch" ==> (FromLoop(env, r) <==> env.unknown(r))
  {
  }

  /** What is still to be read of a write. */
  datatype Half = Whole | Newline

  /** `k` is the entry the producer is at, `writing` what is left of its write, `queue` the channel
      `replyc`. The read loop is `busy` while it answers the last request it has read. `held` is what is
      left of the response that the holder of `sending` is writing. The collector has `taken` so many
      messages, has a token for the next one in hand if it `want`s one, and has put together `out`.
      `inner` is the inner codec and `steps` its history. */
  datatype Pipe = Pipe(
    k: nat, writing: Option<Half>, queue: seq<Token>,
    busy: bool, inner: State, steps: seq<Step>, held: Option<Half>,
    taken: nat, want: bool, out: seq<Message>)

  const START := Pipe(0, None, [], false, INIT, [], None, 0, false, [])

  datatype Move =
    | Push                       // the producer pushes what the entry wants and, if it is valid, begins to write it
    | ReadEntry(leave: bool)     // the read loop gets it, and may leave its newline
    | ReadRest                   // the read loop, reading on, gets the newline
    | Reply(s: nat, error: Option<string>, reply: JsonRpcServer.Reply)
    | TakeToken
    | TakeMessage(leave: bool)
    | TakeRest

  /** The holder of `sending` is done; if that was the read loop, so is the read loop. */
  function Release(p: Pipe): Pipe {
    p.(held := None, busy := p.busy && |p.inner.requests| in p.inner.codec.pending)
  }

  function DoPush(entries: seq<Json>, p: Pipe): Option<Pipe> {
    if p.writing.None? && p.k < |entries| then
      var e := entries[p.k];
      Some(if Unmarshal(e).Some? then p.(queue := p.queue + TokensOf(e), writing := Some(Whole))
           else p.(queue := p.queue + TokensOf(e), k := p.k + 1))
    else None
  }

  function DoReadEntry(env: Env, entries: seq<Json>, p: Pipe, leave: bool): Option<Pipe> {
    if p.writing == Some(Whole) && p.k < |entries| && !p.busy && (leave ==> env.lagIn(p.k)) then
      var step, u := Read(Value(entries[p.k])), Unmarshal(entries[p.k]);
      var q := p.(inner := Apply(p.inner, step), steps := p.steps + [step], busy := u.Some? && FromLoop(env, u.value));
      Some(if leave then q.(writing := Some(Newline)) else q.(writing := None, k := p.k + 1))
    else None
  }

  function DoReadRest(p: Pipe): Option<Pipe> {
    if p.writing == Some(Newline) && !p.busy then Some(p.(writing := None, k := p.k + 1)) else None
  }

  /** A request that was read may be answered by its goroutine at any time, or by the read loop if that is
      where it is; either needs `sending`. Without a message the mutex is given back at once. */
  function DoReply(env: Env, p: Pipe, step: Step): Option<Pipe> {
    if p.held.None? && Enabled(p.inner, step) && HandsBack(p.inner.requests[step.s - 1], step.error, step.reply)
       && (FromLoop(env, p.inner.requests[step.s - 1]) ==> p.busy && step.s == |p.inner.requests|)
    then
      var q := p.(inner := Apply(p.inner, step), steps := p.steps + [step]);
      Some(if Sends(p.inner.requests[step.s - 1]) then q.(held := Some(Whole)) else Release(q))
    else None
  }

  function DoTakeToken(p: Pipe): Option<Pipe> {
    if !p.want && p.queue != [] then
      Some(if p.queue[0].Ready? then p.(queue := p.queue[1..], out := p.out + [INVALID_REQUEST])
           else p.(queue := p.queue[1..], want := true))
    else None
  }

  function DoTakeMessage(env: Env, p: Pipe, leave: bool): Option<Pipe> {
    if p.want && p.held == Some(Whole) && p.inner.sent != [] && (leave ==> env.lagOut) then
      var q := p.(want := false, taken := p.taken + 1, out := p.out + [p.inner.sent[|p.inner.sent| - 1].1]);
      Some(if leave then q.(held := Some(Newline)) else Release(q))
    else None
  }

  function DoTakeRest(p: Pipe): Option<Pipe> {
    if p.want && p.held == Some(Newline) then Some(Release(p)) else None
  }

  function Do(env: Env, entries: seq<Json>, p: Pipe, m: Move): Option<Pipe> {
    match m
    case Push => DoPush(entries, p)
    case ReadEntry(leave) => DoReadEntry(env, entries, p, leave)
    case ReadRest => DoReadRest(p)
    case Reply(s, error, reply) => DoReply(env, p, Write(s, error, reply))
    case TakeToken => DoTakeToken(p)
    case TakeMessage(leave) => DoTakeMessage(env, p, leave)
    case TakeRest => DoTakeRest(p)
  }

  /** Where these moves lead, if each was possible. */
  function Play(env: Env, entries: seq<Json>, moves: seq<Move>): Option<Pipe> {
    if moves == [] then Some(START)
    else match Play(env, entries, moves[..|moves| - 1])
      case None => None
      case Some(p) => Do(env, entries, p, moves[|moves| - 1])
  }

  /** Every entry is written and every token served: the batch returns `out`. */
  predicate Finished(entries: seq<Json>, p: Pipe) {
    p.k == |entries| && p.writing.None? && p.queue == [] && !p.want
  }

  /** Nobody can move, and the batch has not returned. */
  ghost predicate Stuck(env: Env, entries: seq<Json>, p: Pipe) {
    !Finished(entries, p) && forall m :: Do(env, entries, p, m).None?
  }

  // ---------------------------------------------------------------- counting

  /** How many messages the valid ones among the first `j` entries make, and how many are waited for. */
  function Made(entries: seq<Json>, j: nat): nat
    requires j <= |entries|
  {
    CountSends(Valid(entries[..j]))
  }

  function Asked(entries: seq<Json>, j: nat): nat
    requires j <= |entries|
  {
    |InnerIds(entries[..j])|
  }

  function Wanted(entries: seq<Json>, j: nat): nat
    requires j <= |entries|
  {
    |WantedIds(entries[..j])|
  }

  lemma {:induction false} CountAppend(a: seq<Token>, b: seq<Token>)
    ensures CountAwaited(a + b) == CountAwaited(a) + CountAwaited(b)
  {
    if b == [] {
      assert a + b == a;
    } else {
      var n := |b| - 1;
      assert (a + b)[..|a| + n] == a + b[..n];
      CountAppend(a, b[..n]);
    }
  }

  lemma CountFirst(q: seq<Token>)
    requires q != []
    ensures CountAwaited(q) == CountAwaited(q[1..]) + if q[0].Awaited? then 1 else 0
  {
    assert q == [q[0]] + q[1..] && [q[0]][..0] == [];
    CountAppend([q[0]], q[1..]);
  }

  /** One more entry. */
  lemma NextEntry(entries: seq<Json>, k: nat)
    requires k < |entries|
    ensures var e, u := entries[k], Unmarshal(entries[k]);
            && Asked(entries, k + 1) == Asked(entries, k) + CountAwaited(TokensOf(e))
            && Wanted(entries, k + 1) == Wanted(entries, k) + |TokensOf(e)|
            && Valid(entries[..k + 1]) == Valid(entries[..k]) + (if u.Some? then [u.value] else [])
            && Inputs(entries[..k + 1]) == Inputs(entries[..k]) + (if u.Some? then [Value(e)] else [])
            && (u.Some? && u.value.id.Some? ==> TokensOf(e) == [Awaited])
            && (u.Some? && u.value.id.None? ==> TokensOf(e) == [])
            && (u.None? ==> TokensOf(e) == [Ready] && Asked(entries, k + 1) == Asked(entries, k))
  {
    hide Unmarshal;
    assert entries[..k + 1][..k] == entries[..k];
    assert CountAwaited([]) == 0;
    assert [Awaited][..0] == [] && [Ready][..0] == [];
    assert CountAwaited([Awaited]) == 1 && CountAwaited([Ready]) == 0;
  }

  // ---------------------------------------------------------------- invariant

  function One(b: bool): nat {
    if b then 1 else 0
  }

  /** How many entries the inner server has read, and how many have had their tokens pushed. */
  function Fed(p: Pipe): nat {
    if p.writing == Some(Newline) then p.k + 1 else p.k
  }

  function Pushed(p: Pipe): nat {
    if p.writing.Some? then p.k + 1 else p.k
  }

  ghost predicate Shape(env: Env, entries: seq<Json>, p: Pipe) {
    && p.k <= |entries|
    && (p.writing.Some? ==> p.k < |entries| && Unmarshal(entries[p.k]).Some?)
    && (p.writing == Some(Newline) ==> env.lagIn(p.k))
    && (p.held == Some(Newline) ==> env.lagOut)
  }

  /** The inner codec is in a run that has read exactly the first `fed` entries. */
  ghost predicate InnerInv(entries: seq<Json>, fed: nat, inner: State, steps: seq<Step>) {
    fed <= |entries| && inner == Run(steps) && Honest(steps) && Reads(steps) == Inputs(entries[..fed])
  }

  ghost predicate TokenInv(entries: seq<Json>, pushed: nat, queue: seq<Token>, want: bool, taken: nat, out: nat) {
    && pushed <= |entries|
    && CountAwaited(queue) + One(want) + taken == Asked(entries, pushed)
    && |queue| + One(want) + out == Wanted(entries, pushed)
  }

  /** All messages sent have been taken, but for the one being written. */
  ghost predicate MessageInv(sent: seq<(nat, Message)>, held: Option<Half>, taken: nat, out: seq<Message>) {
    && |sent| == taken + One(held == Some(Whole))
    && (held == Some(Newline) ==> taken >= 1)
    && taken <= |out|
    && Collected(out, Messages(sent)[..taken], INVALID_REQUEST, |out| - taken)
  }

  /** The read loop is busy exactly while the request it must answer is unanswered or its message is
      being written. */
  ghost predicate LoopInv(env: Env, requests: seq<Request>, pending: map<nat, Option<Json>>, busy: bool,
                          held: Option<Half>)
  {
    && (busy ==> requests != [] && FromLoop(env, requests[|requests| - 1]) && (|requests| in pending || held.Some?))
    && (forall s :: s in pending ==>
          1 <= s <= |requests| && (FromLoop(env, requests[s - 1]) ==> busy && s == |requests|))
  }

  ghost predicate PipeInv(env: Env, entries: seq<Json>, p: Pipe) {
    && Shape(env, entries, p)
    && InnerInv(entries, Fed(p), p.inner, p.steps)
    && TokenInv(entries, Pushed(p), p.queue, p.want, p.taken, |p.out|)
    && MessageInv(p.inner.sent, p.held, p.taken, p.out)
    && LoopInv(env, p.inner.requests, p.inner.codec.pending, p.busy, p.held)
  }

  // ---------------------------------------------------------------- preservation

  lemma MoreSteps(steps: seq<Step>, step: Step)
    requires Honest(steps) && HonestStep(Run(steps), step)
    ensures Run(steps + [step]) == Apply(Run(steps), step) && Honest(steps + [step])
    ensures Reads(steps + [step]) == Reads(steps) + if step.Read? then [step.i] else []
  {
    var more := steps + [step];
    assert more[..|steps|] == steps;
    hide Run;
    hide HonestStep;
    forall k | 0 <= k < |more| ensures HonestStep(Run(more[..k]), more[k]) {
      assert k < |steps| ==> more[..k] == steps[..k] && more[k] == steps[k];
    }
  }

  lemma PushKeepsTokens(entries: seq<Json>, k: nat, queue: seq<Token>, want: bool, taken: nat, out: nat)
    requires k < |entries| && TokenInv(entries, k, queue, want, taken, out)
    ensures TokenInv(entries, k + 1, queue + TokensOf(entries[k]), want, taken, out)
  {
    hide Unmarshal;
    NextEntry(entries, k);
    CountAppend(queue, TokensOf(entries[k]));
    hide CountAwaited;
    hide Asked;
    hide Wanted;
    hide TokensOf;
  }

  /** An entry that is no request is not read by the inner server. */
  lemma InvalidKeepsInner(entries: seq<Json>, k: nat, inner: State, steps: seq<Step>)
    requires k < |entries| && Unmarshal(entries[k]).None? && InnerInv(entries, k, inner, steps)
    ensures InnerInv(entries, k + 1, inner, steps)
  {
    NextEntry(entries, k);
    hide Unmarshal;
    hide Honest;
    hide Run;
    hide Inputs;
    hide Reads;
    assert Inputs(entries[..k]) + [] == Inputs(entries[..k]);
  }

  lemma PushKeepsInv(env: Env, entries: seq<Json>, p: Pipe)
    requires PipeInv(env, entries, p) && DoPush(entries, p).Some?
    ensures PipeInv(env, entries, DoPush(entries, p).value)
  {
    hide Unmarshal;
    hide TokensOf;
    hide InnerInv;
    hide TokenInv;
    hide MessageInv;
    hide LoopInv;
    PushKeepsTokens(entries, p.k, p.queue, p.want, p.taken, |p.out|);
    if Unmarshal(entries[p.k]).None? {
      InvalidKeepsInner(entries, p.k, p.inner, p.steps);
    }
  }

  /** A valid entry is. */
  lemma ValidKeepsInner(entries: seq<Json>, k: nat, inner: State, steps: seq<Step>)
    requires k < |entries| && Unmarshal(entries[k]).Some? && InnerInv(entries, k, inner, steps)
    ensures var step, r := Read(Value(entries[k])), Unmarshal(entries[k]).value;
            var inner' := Apply(inner, step);
            && InnerInv(entries, k + 1, inner', steps + [step])
            && inner'.requests == inner.requests + [r] && inner'.sent == inner.sent
            && inner'.codec.pending == inner.codec.pending[|inner.requests| + 1 := r.id]
  {
    var step := Read(Value(entries[k]));
    assert HonestStep(inner, step);
    MoreSteps(steps, step);
    NextEntry(entries, k);
    ValidIsObject(entries[k]);
    RunKeepsInv(steps);
    hide Unmarshal;
    hide Honest;
    hide HonestStep;
    hide Run;
    hide Inputs;
    hide Reads;
    hide Accept;
  }

  lemma ReadKeepsLoop(env: Env, requests: seq<Request>, pending: map<nat, Option<Json>>, r: Request, held: Option<Half>)
    requires LoopInv(env, requests, pending, false, held)
    ensures LoopInv(env, requests + [r], pending[|requests| + 1 := r.id], FromLoop(env, r), held)
  {
    hide FromLoop;
  }

  lemma ReadEntryKeepsInv(env: Env, entries: seq<Json>, p: Pipe, leave: bool)
    requires PipeInv(env, entries, p) && DoReadEntry(env, entries, p, leave).Some?
    ensures PipeInv(env, entries, DoReadEntry(env, entries, p, leave).value)
  {
    hide Unmarshal;
    hide Apply;
    hide FromLoop;
    hide InnerInv;
    hide TokenInv;
    hide MessageInv;
    hide LoopInv;
    ValidKeepsInner(entries, p.k, p.inner, p.steps);
    ReadKeepsLoop(env, p.inner.requests, p.inner.codec.pending, Unmarshal(entries[p.k]).value, p.held);
  }

  lemma ReadRestKeepsInv(env: Env, entries: seq<Json>, p: Pipe)
    requires PipeInv(env, entries, p) && DoReadRest(p).Some?
    ensures PipeInv(env, entries, DoReadRest(p).value)
  {
    hide Unmarshal;
    hide InnerInv;
    hide TokenInv;
    hide MessageInv;
    hide LoopInv;
  }

  /** What a response does to the inner codec. */
  lemma ReplyKeepsInner(entries: seq<Json>, fed: nat, inner: State, steps: seq<Step>, step: Step)
    requires InnerInv(entries, fed, inner, steps) && Enabled(inner, step) && HonestStep(inner, step)
    ensures var inner' := Apply(inner, step);
            && InnerInv(entries, fed, inner', steps + [step])
            && inner'.requests == inner.requests && inner'.codec.pending == inner.codec.pending - {step.s}
            && (if Sends(inner.requests[step.s - 1])
                then |inner'.sent| == |inner.sent| + 1 && Messages(inner'.sent)[..|inner.sent|] == Messages(inner.sent)
                else inner'.sent == inner.sent)
  {
    RunKeepsInv(steps);
    MoreSteps(steps, step);
    assert Reads(steps) + [] == Reads(steps);
    ReplySends(inner, step);
    hide Reads;
    hide Run;
    hide Inputs;
    hide Honest;
    hide HonestStep;
    hide Sends;
    hide Outgoing;
    hide Messages;
  }

  lemma ReplySends(inner: State, step: Step)
    requires Inv(inner) && Enabled(inner, step) && HonestStep(inner, step)
    ensures var inner' := Apply(inner, step);
            if Sends(inner.requests[step.s - 1])
            then |inner'.sent| == |inner.sent| + 1 && Messages(inner'.sent)[..|inner.sent|] == Messages(inner.sent)
            else inner'.sent == inner.sent
  {
    hide Apply;
    hide Sends;
    hide Messages;
    StepSends(inner, step);
    SendingIff(inner, step);
    hide Sending;
    match Sending(inner, step)
    case None =>
    case Some(m) => MessagesAppend(inner.sent, m);
  }

  lemma SendingIff(inner: State, step: Step)
    requires Inv(inner) && Enabled(inner, step) && HonestStep(inner, step)
    ensures Sending(inner, step).Some? <==> Sends(inner.requests[step.s - 1])
  {
    hide Sends;
    hide Outgoing;
    SendsIff(inner.requests[step.s - 1], step.error, step.reply);
  }

  lemma ReplyKeepsLoop(env: Env, requests: seq<Request>, pending: map<nat, Option<Json>>, busy: bool, s: nat)
    requires LoopInv(env, requests, pending, busy, None) && s in pending
    ensures LoopInv(env, requests, pending - {s}, busy, Some(Whole))
    ensures LoopInv(env, requests, pending - {s}, busy && |requests| in pending - {s}, None)
  {
    hide FromLoop;
  }

  lemma SendKeepsMessages(sent: seq<(nat, Message)>, sent': seq<(nat, Message)>, taken: nat, out: seq<Message>)
    requires MessageInv(sent, None, taken, out)
    requires |sent'| == |sent| + 1 && Messages(sent')[..|sent|] == Messages(sent)
    ensures MessageInv(sent', Some(Whole), taken, out)
  {
    hide Collected;
    hide Messages;
    assert Messages(sent')[..taken] == Messages(sent)[..taken];
  }

  lemma ReplyKeepsInv(env: Env, entries: seq<Json>, p: Pipe, step: Step)
    requires PipeInv(env, entries, p) && DoReply(env, p, step).Some?
    ensures PipeInv(env, entries, DoReply(env, p, step).value)
  {
    hide Unmarshal;
    hide Apply;
    hide FromLoop;
    hide HandsBack;
    hide Sends;
    hide InnerInv;
    hide TokenInv;
    hide MessageInv;
    hide LoopInv;
    ReplyKeepsInner(entries, Fed(p), p.inner, p.steps, step);
    ReplyKeepsLoop(env, p.inner.requests, p.inner.codec.pending, p.busy, step.s);
    var q := DoReply(env, p, step).value;
    if Sends(p.inner.requests[step.s - 1]) {
      SendKeepsMessages(p.inner.sent, q.inner.sent, p.taken, p.out);
    }
  }

  lemma TakeTokenKeepsInv(env: Env, entries: seq<Json>, p: Pipe)
    requires PipeInv(env, entries, p) && DoTakeToken(p).Some?
    ensures PipeInv(env, entries, DoTakeToken(p).value)
  {
    hide CountAwaited;
    hide Asked;
    hide Wanted;
    hide Unmarshal;
    hide InnerInv;
    hide MessageInv;
    hide LoopInv;
    CountFirst(p.queue);
    if p.queue[0].Ready? {
      ErrorKeepsMessages(p.inner.sent, p.held, p.taken, p.out);
    }
  }

  lemma ErrorKeepsMessages(sent: seq<(nat, Message)>, held: Option<Half>, taken: nat, out: seq<Message>)
    requires MessageInv(sent, held, taken, out)
    ensures MessageInv(sent, held, taken, out + [INVALID_REQUEST])
  {
    CollectCopy(out, Messages(sent)[..taken], INVALID_REQUEST, |out| - taken);
    hide Collected;
    hide Messages;
  }

  lemma TakeKeepsMessages(sent: seq<(nat, Message)>, taken: nat, out: seq<Message>)
    requires MessageInv(sent, Some(Whole), taken, out)
    ensures sent != []
    ensures MessageInv(sent, Some(Newline), taken + 1, out + [sent[|sent| - 1].1])
    ensures MessageInv(sent, None, taken + 1, out + [sent[|sent| - 1].1])
  {
    LastMessage(sent);
    hide Messages;
    var ms := Messages(sent);
    assert ms[..taken + 1] == ms[..taken] + [ms[taken]];
    CollectNext(out, ms[..taken], INVALID_REQUEST, |out| - taken, ms[taken]);
    hide Collected;
  }

  lemma LastMessage(sent: seq<(nat, Message)>)
    requires sent != []
    ensures Messages(sent)[|sent| - 1] == sent[|sent| - 1].1
  {
  }

  lemma ReleaseKeepsLoop(env: Env, requests: seq<Request>, pending: map<nat, Option<Json>>, busy: bool,
                         held: Option<Half>)
    requires LoopInv(env, requests, pending, busy, held) && held.Some?
    ensures LoopInv(env, requests, pending, busy && |requests| in pending, None)
    ensures LoopInv(env, requests, pending, busy, Some(Newline))
  {
    hide FromLoop;
  }

  lemma TakeMessageKeepsInv(env: Env, entries: seq<Json>, p: Pipe, leave: bool)
    requires PipeInv(env, entries, p) && DoTakeMessage(env, p, leave).Some?
    ensures PipeInv(env, entries, DoTakeMessage(env, p, leave).value)
  {
    hide CountAwaited;
    hide Asked;
    hide Wanted;
    hide Unmarshal;
    hide InnerInv;
    hide MessageInv;
    hide LoopInv;
    TakeKeepsMessages(p.inner.sent, p.taken, p.out);
    ReleaseKeepsLoop(env, p.inner.requests, p.inner.codec.pending, p.busy, p.held);
  }

  lemma TakeRestKeepsInv(env: Env, entries: seq<Json>, p: Pipe)
    requires PipeInv(env, entries, p) && DoTakeRest(p).Some?
    ensures PipeInv(env, entries, DoTakeRest(p).value)
  {
    hide Unmarshal;
    hide InnerInv;
    hide TokenInv;
    hide LoopInv;
    hide Collected;
    hide MessageInv;
    ReleaseKeepsLoop(env, p.inner.requests, p.inner.codec.pending, p.busy, p.held);
    RestKeepsMessages(p.inner.sent, p.taken, p.out);
  }

  lemma RestKeepsMessages(sent: seq<(nat, Message)>, taken: nat, out: seq<Message>)
    requires MessageInv(sent, Some(Newline), taken, out)
    ensures MessageInv(sent, None, taken, out)
  {
    hide Collected;
  }

  lemma MoveKeepsInv(env: Env, entries: seq<Json>, p: Pipe, m: Move)
    requires PipeInv(env, entries, p) && Do(env, entries, p, m).Some?
    ensures PipeInv(env, entries, Do(env, entries, p, m).value)
  {
    hide PipeInv;
    hide DoPush;
    hide DoReadEntry;
    hide DoReadRest;
    hide DoReply;
    hide DoTakeToken;
    hide DoTakeMessage;
    hide DoTakeRest;
    match m
    case Push => PushKeepsInv(env, entries, p);
    case ReadEntry(leave) => ReadEntryKeepsInv(env, entries, p, leave);
    case ReadRest => ReadRestKeepsInv(env, entries, p);
    case Reply(s, error, reply) => ReplyKeepsInv(env, entries, p, Write(s, error, reply));
    case TakeToken => TakeTokenKeepsInv(env, entries, p);
    case TakeMessage(leave) => TakeMessageKeepsInv(env, entries, p, leave);
    case TakeRest => TakeRestKeepsInv(env, entries, p);
  }

  lemma StartInv(env: Env, entries: seq<Json>)
    ensures PipeInv(env, entries, START)
  {
    CollectNone(INVALID_REQUEST);
    assert entries[..0] == [];
  }

  lemma {:induction false} PlayKeepsInv(env: Env, entries: seq<Json>, moves: seq<Move>)
    requires Play(env, entries, moves).Some?
    ensures PipeInv(env, entries, Play(env, entries, moves).value)
  {
    hide PipeInv;
    hide Do;
    if moves == [] {
      StartInv(env, entries);
    } else {
      var before := moves[..|moves| - 1];
      PlayKeepsInv(env, entries, before);
      MoveKeepsInv(env, entries, Play(env, entries, before).value, moves[|moves| - 1]);
    }
  }

  // ---------------------------------------------------------------- every run ends

  function Weight(entries: seq<Json>, p: Pipe): int {
    10 * (|entries| - p.k) - (match p.writing case None => 0 case Some(h) => if h == Whole then 3 else 9)
    + 2 * |p.queue| + One(p.want) + 4 * |p.inner.codec.pending|
    + (match p.held case None => 0 case Some(h) => if h == Whole then 3 else 2)
  }

  lemma MoveWeighs(env: Env, entries: seq<Json>, p: Pipe, m: Move)
    requires PipeInv(env, entries, p) && Do(env, entries, p, m).Some?
    ensures Weight(entries, Do(env, entries, p, m).value) < Weight(entries, p)
  {
    hide Weight;
    hide PipeInv;
    hide DoPush;
    hide DoReadEntry;
    hide DoReadRest;
    hide DoReply;
    hide DoTakeToken;
    hide DoTakeMessage;
    hide DoTakeRest;
    match m
    case ReadEntry(leave) => ReadWeighs(env, entries, p, leave);
    case Reply(s, error, reply) => ReplyWeighs(env, entries, p, Write(s, error, reply));
    case Push => PushWeighs(entries, p);
    case ReadRest => RestWeighs(entries, p);
    case TakeToken => TakeWeighs(env, entries, p, false);
    case TakeMessage(leave) => TakeWeighs(env, entries, p, leave);
    case TakeRest => TakeWeighs(env, entries, p, false);
  }

  lemma PushWeighs(entries: seq<Json>, p: Pipe)
    requires DoPush(entries, p).Some?
    ensures Weight(entries, DoPush(entries, p).value) < Weight(entries, p)
  {
    hide Unmarshal;
  }

  lemma RestWeighs(entries: seq<Json>, p: Pipe)
    requires DoReadRest(p).Some?
    ensures Weight(entries, DoReadRest(p).value) < Weight(entries, p)
  {
  }

  lemma TakeWeighs(env: Env, entries: seq<Json>, p: Pipe, leave: bool)
    ensures DoTakeToken(p).Some? ==> Weight(entries, DoTakeToken(p).value) < Weight(entries, p)
    ensures DoTakeMessage(env, p, leave).Some? ==>
              Weight(entries, DoTakeMessage(env, p, leave).value) < Weight(entries, p)
    ensures DoTakeRest(p).Some? ==> Weight(entries, DoTakeRest(p).value) < Weight(entries, p)
  {
  }

  lemma ReadWeighs(env: Env, entries: seq<Json>, p: Pipe, leave: bool)
    requires PipeInv(env, entries, p) && DoReadEntry(env, entries, p, leave).Some?
    ensures Weight(entries, DoReadEntry(env, entries, p, leave).value) < Weight(entries, p)
  {
    hide InnerInv;
    hide TokenInv;
    hide MessageInv;
    hide Unmarshal;
    hide FromLoop;
    hide Apply;
    ValidKeepsInner(entries, p.k, p.inner, p.steps);
    NewKey(p.inner.codec.pending, |p.inner.requests| + 1, Unmarshal(entries[p.k]).value.id);
  }

  lemma ReplyWeighs(env: Env, entries: seq<Json>, p: Pipe, step: Step)
    requires PipeInv(env, entries, p) && DoReply(env, p, step).Some?
    ensures Weight(entries, DoReply(env, p, step).value) < Weight(entries, p)
  {
    hide InnerInv;
    hide TokenInv;
    hide MessageInv;
    hide Unmarshal;
    hide FromLoop;
    hide HandsBack;
    hide Sends;
    hide Apply;
    ReplyKeepsInner(entries, Fed(p), p.inner, p.steps, step);
    OldKey(p.inner.codec.pending, step.s);
  }

  lemma NewKey<V>(m: map<nat, V>, k: nat, v: V)
    requires k !in m
    ensures |m[k := v]| == |m| + 1
  {
    assert m[k := v].Keys == m.Keys + {k};
  }

  lemma OldKey<V>(m: map<nat, V>, k: nat)
    requires k in m
    ensures |m - {k}| == |m| - 1
  {
    assert (m - {k}).Keys == m.Keys - {k};
  }

  lemma {:induction false} PlayWeighs(env: Env, entries: seq<Json>, moves: seq<Move>)
    requires Play(env, entries, moves).Some?
    ensures |moves| + Weight(entries, Play(env, entries, moves).value) <= 10 * |entries|
  {
    if moves != [] {
      hide Do;
      hide Weight;
      var before := moves[..|moves| - 1];
      PlayWeighs(env, entries, before);
      PlayKeepsInv(env, entries, before);
      MoveWeighs(env, entries, Play(env, entries, before).value, moves[|moves| - 1]);
    }
  }

  lemma WeightAtLeast(env: Env, entries: seq<Json>, p: Pipe)
    requires Shape(env, entries, p)
    ensures Weight(entries, p) >= 0
  {
    hide Unmarshal;
  }

  /** There is no run of more than ten moves an entry; so a batch that does not return gets stuck. */
  lemma RunsAreFinite(env: Env, entries: seq<Json>, moves: seq<Move>)
    requires Play(env, entries, moves).Some?
    ensures |moves| <= 10 * |entries|
  {
    hide Weight;
    PlayWeighs(env, entries, moves);
    PlayKeepsInv(env, entries, moves);
    WeightAtLeast(env, entries, Play(env, entries, moves).value);
  }

  lemma Extend(env: Env, entries: seq<Json>, moves: seq<Move>, m: Move) returns (run: seq<Move>)
    requires Play(env, entries, moves).Some? && Do(env, entries, Play(env, entries, moves).value, m).Some?
    ensures Play(env, entries, run) == Do(env, entries, Play(env, entries, moves).value, m)
    ensures PipeInv(env, entries, Play(env, entries, run).value)
  {
    hide Do;
    hide PipeInv;
    run := moves + [m];
    assert run[..|moves|] == moves;
    PlayKeepsInv(env, entries, run);
  }

  /** Every run can be taken to a state in which nobody can move. */
  lemma {:induction false} Exhaust(env: Env, entries: seq<Json>, moves: seq<Move>) returns (run: seq<Move>)
    requires Play(env, entries, moves).Some?
    ensures Play(env, entries, run).Some? && forall m :: Do(env, entries, Play(env, entries, run).value, m).None?
    decreases 10 * |entries| + 1 - |moves|
  {
    hide Do;
    var p := Play(env, entries, moves).value;
    RunsAreFinite(env, entries, moves);
    if m :| Do(env, entries, p, m).Some? {
      var more := moves + [m];
      assert more[..|moves|] == moves;
      RunsAreFinite(env, entries, more);
      run := Exhaust(env, entries, more);
    } else {
      run := moves;
    }
  }
}
