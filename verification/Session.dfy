/**
 One client connection: `invoker` with its two mutexes and its `input` goroutine, the two
 directions of the wire, and the server's concurrent calls, as a state machine of atomic steps.

 A step is what one goroutine does while no other can see an intermediate state: a section under
 `mutex`, one codec operation, or one completion of a call by the goroutine that owns it.
 Sequence numbers are unbounded here; the 64-bit counter of the source is taken not to wrap.
 */
module Session {
  import opened Common

  datatype RpcError = RpcError(typ: int, msg: string)

  /** Client-side errors have negative types, errors sent by the server positive ones. */
  type LocalError = e: RpcError | e.typ < 0 witness RpcError(-1, "")
  type ServerError = e: RpcError | e.typ > 0 witness RpcError(1, "")

  const SHUTDOWN: LocalError := RpcError(-1, "connection is shut down")
  const EOF_TEXT := "EOF"
  const UNEXPECTED_EOF_TEXT := "unexpected EOF"

  // ---------------------------------------------------------------- state

  /** Where the goroutine that called `send` for this call is. */
  datatype Stage = Waiting | Sending | Returned

  datatype Verdict = Unset | Fine(reply: Payload) | Failed(err: RpcError)

  /** A `Call` object. `ticket` records the sequence number it was registered under, `signals`
      counts the completions pushed to its `Done` channel. */
  datatype Call = Call(args: Payload, stage: Stage, ticket: Option<nat>, verdict: Verdict, signals: nat)

  datatype Request = Request(seqno: nat, args: Payload)
  datatype Response = Response(seqno: nat, error: Option<ServerError>, reply: Payload)

  /** The holder of `reqMutex` and how far its `send` has come. */
  datatype Sender =
    | Free
    | Locked(c: nat)                                // before the first section under `mutex`
    | Refused(c: nat)                               // found the connection closing or shut down
    | Writing(c: nat, s: nat, emitted: bool)        // inside `WriteRequest`
    | Abandoning(c: nat, s: nat, err: LocalError)    // the write reported an error
    | Aborting(c: nat, err: LocalError)             // has taken the call back from `pending`

  /** The input goroutine. */
  datatype Input =
    | Reading
    | Header(resp: Response)
    | Body(resp: Response, call: Option<nat>)
    | Stopping(err: LocalError, holder: Option<nat>)   // `holder`: the call whose `Error` points to `err` too
    | Ended

  datatype State = State(
    calls: seq<Call>,
    seqno: nat,
    pending: map<nat, nat>,
    closing: bool,
    shutdown: bool,
    sender: Sender,
    input: Input,
    toServer: seq<Request>,
    jobs: seq<Request>,
    toClient: seq<Response>,
    issued: seq<nat>,            // history: which call each sequence number was given to
    answers: seq<Response>)      // history: every response the server wrote

  const INIT := State([], 0, map[], false, false, Free, Reading, [], [], [], [], [])

  // ---------------------------------------------------------------- steps


  datatype Step =
    | Create(args: Payload)
    | Lock(c: nat)
    | Refuse
    | SignalRefused
    | Register
    | Emit
    | WriteOk
    | WriteFail(err: LocalError)
    | Abandon
    | SignalAborted
    | ReadHeader
    | ReadHeaderFail(err: LocalError)
    | Take
    | ReadBodyOk
    | ReadBodyFail(err: LocalError)
    | Terminate
    | Close
    | ServerRead
    | ServerAnswer(k: nat, error: Option<ServerError>, reply: Payload)
    | ServerDrop(k: nat)

  function Finish(call: Call, v: Verdict): Call {
    call.(verdict := v, signals := call.signals + 1)
  }

  function Get(m: map<nat, nat>, s: nat): Option<nat> {
    if s in m then Some(m[s]) else None
  }

  /** The error the pending calls get when `input` stops on `err`. */
  function FinalError(err: LocalError, closing: bool): LocalError {
    if err.msg == EOF_TEXT then
      if closing then SHUTDOWN else err.(msg := UNEXPECTED_EOF_TEXT)
    else err
  }

  /** The error text is replaced in the error object itself. */
  predicate InPlace(err: LocalError, closing: bool) {
    err.msg == EOF_TEXT && !closing
  }

  /** The effect of that on the call that shares the object. */
  function Retext(calls: seq<Call>, holder: Option<nat>, err: LocalError, closing: bool): (r: seq<Call>)
    ensures |r| == |calls|
  {
    if holder.Some? && holder.value < |calls| && InPlace(err, closing)
    then calls[holder.value := calls[holder.value].(verdict := Failed(FinalError(err, closing)))]
    else calls
  }

  /** The loop over `pending`: every call in it is completed, none is removed. */
  function FinishAll(calls: seq<Call>, pending: map<nat, nat>, v: Verdict): seq<Call> {
    seq(|calls|, c requires 0 <= c < |calls| => if c in pending.Values then Finish(calls[c], v) else calls[c])
  }

  /** `send` returns without having completed its call. */
  function Return(st: State, c: nat): State
    requires c < |st.calls|
  {
    st.(sender := Free, calls := st.calls[c := st.calls[c].(stage := Returned)])
  }

  function Answer(r: Response): Verdict {
    if r.error.Some? then Failed(r.error.value) else Fine(r.reply)
  }

  function SenderStep(st: State, step: Step): Option<State> {
    match (step, st.sender)
    case (Lock(c), Free) =>
      if c < |st.calls| && st.calls[c].stage == Waiting
      then Some(st.(sender := Locked(c), calls := st.calls[c := st.calls[c].(stage := Sending)]))
      else None
    case (Refuse, Locked(c)) =>
      if c < |st.calls| && (st.shutdown || st.closing)
      then Some(st.(sender := Refused(c), calls := st.calls[c := st.calls[c].(verdict := Failed(SHUTDOWN))]))
      else None
    case (SignalRefused, Refused(c)) =>
      if c < |st.calls|
      then Some(st.(sender := Free, calls := st.calls[c := st.calls[c].(signals := st.calls[c].signals + 1,
          stage := Returned)]))
      else None
    case (Register, Locked(c)) =>
      if c < |st.calls| && !(st.shutdown || st.closing)
      then Some(st.(sender := Writing(c, st.seqno, false), seqno := st.seqno + 1,
                    pending := st.pending[st.seqno := c], issued := st.issued + [c],
                    calls := st.calls[c := st.calls[c].(ticket := Some(st.seqno))]))
      else None
    case (Emit, Writing(c, s, emitted)) =>
      if c < |st.calls| && !emitted
      then Some(st.(sender := Writing(c, s, true), toServer := st.toServer + [Request(s, st.calls[c].args)]))
      else None
    case (WriteOk, Writing(c, s, emitted)) =>
      if c < |st.calls| && emitted
      then Some(Return(st, c))
      else None
    case (WriteFail(err), Writing(c, s, _)) => Some(st.(sender := Abandoning(c, s, err)))
    case (Abandon, Abandoning(c, s, err)) =>
      if c < |st.calls| then
        match Get(st.pending, s)
        case Some(call) => Some(st.(sender := Aborting(call, err), pending := st.pending - {s}))
        case None => Some(Return(st, c))
      else None
    case (SignalAborted, Aborting(c, err)) =>
      if c < |st.calls|
      then Some(st.(sender := Free, calls := st.calls[c := Finish(st.calls[c], Failed(err)).(stage := Returned)]))
      else None
    case _ => None
  }

  function InputStep(st: State, step: Step): Option<State> {
    match (step, st.input)
    case (ReadHeader, Reading) =>
      if st.toClient != []
      then Some(st.(input := Header(st.toClient[0]), toClient := st.toClient[1..]))
      else None
    case (ReadHeaderFail(err), Reading) => Some(st.(input := Stopping(err, None)))
    case (Take, Header(r)) =>
      Some(st.(input := Body(r, Get(st.pending, r.seqno)), pending := st.pending - {r.seqno}))
    case (ReadBodyOk, Body(r, None)) => Some(st.(input := Reading))
    case (ReadBodyOk, Body(r, Some(c))) =>
      if c < |st.calls|
      then Some(st.(input := Reading, calls := st.calls[c := Finish(st.calls[c], Answer(r))]))
      else None
    case (ReadBodyFail(err), Body(r, None)) => Some(st.(input := Stopping(err, None)))
    case (ReadBodyFail(err), Body(r, Some(c))) =>
      if c < |st.calls|
      then Some(st.(input := Stopping(err, if r.error.Some? then None else Some(c)),
                    calls := st.calls[c := Finish(st.calls[c], if r.error.Some? then Failed(r.error.value)
                        else Failed(err))]))
      else None
    case (Terminate, Stopping(err, holder)) =>
      if st.sender == Free
      then Some(st.(input := Ended, shutdown := true,
                    calls := FinishAll(Retext(st.calls, holder, err, st.closing), st.pending,
                                       Failed(FinalError(err, st.closing)))))
      else None
    case _ => None
  }

  /** The server side and the user's calls. `service` relates arguments to the replies the remote
      method may compute for them. A failed response write emits nothing. */
  function OtherStep(service: (Payload, Payload) -> bool, st: State, step: Step): Option<State> {
    match step
    case Create(args) => Some(st.(calls := st.calls + [Call(args, Waiting, None, Unset, 0)]))
    case Close => Some(st.(closing := true))
    case ServerRead =>
      if st.toServer != []
      then Some(st.(toServer := st.toServer[1..], jobs := st.jobs + [st.toServer[0]]))
      else None
    case ServerAnswer(k, error, reply) =>
      if k < |st.jobs| && (error.Some? || service(st.jobs[k].args, reply))
      then
        var r := Response(st.jobs[k].seqno, error, if error.Some? then "" else reply);
        Some(st.(jobs := st.jobs[..k] + st.jobs[k + 1..], toClient := st.toClient + [r], answers := st.answers + [r]))
      else None
    case ServerDrop(k) =>
      if k < |st.jobs| then Some(st.(jobs := st.jobs[..k] + st.jobs[k + 1..])) else None
    case _ => None
  }

  function Apply(service: (Payload, Payload) -> bool, st: State, step: Step): Option<State> {
    var r := SenderStep(st, step);
    if r.Some? then r else
      var r := InputStep(st, step);
      if r.Some? then r else OtherStep(service, st, step)
  }

  /** The state after a run, if each of its steps was enabled. */
  function Run(service: (Payload, Payload) -> bool, steps: seq<Step>): Option<State> {
    if steps == [] then Some(INIT)
    else match Run(service, steps[..|steps| - 1])
      case None => None
      case Some(st) => Apply(service, st, steps[|steps| - 1])
  }

  // ---------------------------------------------------------------- invariant

  function One(b: bool): nat {
    if b then 1 else 0
  }

  /** How many parties are about to complete call `c`. After shutdown the entries left in
      `pending` no longer count. */
  ghost function Owners(st: State, c: nat): nat
    requires c < |st.calls|
  {
    var call := st.calls[c];
    One(call.stage == Waiting)
    + One((st.sender.Locked? || st.sender.Refused? || st.sender.Aborting?) && st.sender.c == c)
    + One(!st.shutdown && call.ticket.Some? && call.ticket.value in st.pending)
    + One(st.input.Body? && st.input.call == Some(c))
  }

  /** A reply, or an error of a server type, is what the server wrote for this very call. */
  ghost predicate FromServer(st: State, call: Call) {
    && (call.verdict.Fine? ==> call.ticket.Some? && Response(call.ticket.value, None, call.verdict.reply) in st.answers)
    && (call.verdict.Failed? && call.verdict.err.typ >= 0 ==>
          && call.verdict.err.typ > 0 && call.ticket.Some?
          && Response(call.ticket.value, Some(call.verdict.err), "") in st.answers)
  }

  ghost predicate CallInv(service: (Payload, Payload) -> bool, st: State, c: nat)
    requires c < |st.calls|
  {
    var call := st.calls[c];
    && call.signals + Owners(st, c) == 1
    && (call.stage == Waiting ==> call.ticket == None)
    && (call.ticket.Some? ==> call.ticket.value < |st.issued| && st.issued[call.ticket.value] == c)
    && (call.verdict.Fine? ==> service(call.args, call.verdict.reply))
    && FromServer(st, call)
    && (call.signals == 1 ==> call.verdict != Unset)
    && (st.sender == Refused(c) ==> call.verdict != Unset)
    && (st.input.Stopping? && st.input.holder == Some(c) ==>
          call.signals == 1 && call.ticket.Some? && call.verdict == Failed(st.input.err))
    && (call.ticket.None? && call.verdict != Unset ==> call.verdict == Failed(SHUTDOWN))
  }

  ghost predicate TicketInv(st: State) {
    && |st.issued| == st.seqno
    && (forall s :: 0 <= s < |st.issued| ==> st.issued[s] < |st.calls| && st.calls[st.issued[s]].ticket == Some(s))
    && (forall s :: s in st.pending ==> s < |st.issued| && st.pending[s] == st.issued[s])
  }

  ghost predicate SenderInv(st: State) {
    match st.sender
    case Free => true
    case Locked(c) => c < |st.calls| && st.calls[c].stage == Sending && st.calls[c].ticket == None
    case Refused(c) => c < |st.calls| && st.calls[c].stage == Sending && st.calls[c].ticket == None
    case Writing(c, s, _) =>
      && !st.shutdown && c < |st.calls| && st.calls[c].stage == Sending && st.calls[c].ticket == Some(s)
      && s < |st.issued| && st.issued[s] == c
    case Abandoning(c, s, _) =>
      && !st.shutdown && c < |st.calls| && st.calls[c].stage == Sending && st.calls[c].ticket == Some(s)
      && s < |st.issued| && st.issued[s] == c
    case Aborting(c, _) => !st.shutdown && c < |st.calls| && st.calls[c].stage == Sending && st.calls[c].ticket.Some?
  }

  ghost predicate RequestOk(st: State, r: Request) {
    r.seqno < |st.issued| && st.issued[r.seqno] < |st.calls| && r.args == st.calls[st.issued[r.seqno]].args
  }

  ghost predicate ResponseOk(service: (Payload, Payload) -> bool, st: State, r: Response) {
    && r.seqno < |st.issued| && st.issued[r.seqno] < |st.calls|
    && (r.error.None? ==> service(st.calls[st.issued[r.seqno]].args, r.reply))
    && (r.error.Some? ==> r.reply == "")
    && r in st.answers
  }

  ghost predicate WireInv(service: (Payload, Payload) -> bool, st: State) {
    && (forall k :: 0 <= k < |st.toServer| ==> RequestOk(st, st.toServer[k]))
    && (forall k :: 0 <= k < |st.jobs| ==> RequestOk(st, st.jobs[k]))
    && (forall k :: 0 <= k < |st.toClient| ==> ResponseOk(service, st, st.toClient[k]))
  }

  ghost predicate InputInv(service: (Payload, Payload) -> bool, st: State) {
    && (st.input == Ended <==> st.shutdown)
    && (st.input.Header? || st.input.Body? ==> ResponseOk(service, st, st.input.resp))
    && (st.input.Body? && st.input.call.Some? ==> st.input.call.value == st.issued[st.input.resp.seqno])
    && (st.input.Stopping? && st.input.holder.Some? ==> st.input.holder.value < |st.calls|)
  }

  ghost predicate Inv(service: (Payload, Payload) -> bool, st: State) {
    && TicketInv(st) && SenderInv(st) && WireInv(service, st) && InputInv(service, st)
    && (forall c :: 0 <= c < |st.calls| ==> CallInv(service, st, c))
  }

  // ------------------------------------------------- preservation, group by group

  /** Calls keep their arguments and sequence numbers keep their calls. */
  ghost predicate Extends(st: State, st': State) {
    && |st.calls| <= |st'.calls|
    && (forall c :: 0 <= c < |st.calls| ==> st'.calls[c].args == st.calls[c].args)
    && st.issued <= st'.issued && st.answers <= st'.answers
  }

  lemma WireExtends(service: (Payload, Payload) -> bool, st: State, st': State)
    requires Extends(st, st') && WireInv(service, st)
    ensures WireInv(service, st'.(toServer := st.toServer, jobs := st.jobs, toClient := st.toClient))
  {
    var w := st'.(toServer := st.toServer, jobs := st.jobs, toClient := st.toClient);
    forall k | 0 <= k < |st.toServer| ensures RequestOk(w, w.toServer[k]) {
      assert RequestOk(st, st.toServer[k]);
    }
    forall k | 0 <= k < |st.jobs| ensures RequestOk(w, w.jobs[k]) {
      assert RequestOk(st, st.jobs[k]);
    }
    forall k | 0 <= k < |st.toClient| ensures ResponseOk(service, w, w.toClient[k]) {
      assert ResponseOk(service, st, st.toClient[k]);
    }
  }

  lemma InputExtends(service: (Payload, Payload) -> bool, st: State, st': State)
    requires Extends(st, st') && InputInv(service, st) && st'.input == st.input && st'.shutdown == st.shutdown
    ensures InputInv(service, st')
  {
  }

  lemma SenderExtends(st: State, step: Step)
    requires SenderStep(st, step).Some?
    ensures Extends(st, SenderStep(st, step).value)
  {
  }

  lemma SenderKeepsTickets(st: State, step: Step)
    requires TicketInv(st) && SenderInv(st) && SenderStep(st, step).Some?
    ensures TicketInv(SenderStep(st, step).value)
  {
  }

  lemma SenderKeepsSender(st: State, step: Step)
    requires TicketInv(st) && SenderInv(st) && SenderStep(st, step).Some?
    requires forall c :: 0 <= c < |st.calls| && st.calls[c].stage == Waiting ==> st.calls[c].ticket == None
    ensures SenderInv(SenderStep(st, step).value)
  {
  }

  lemma SenderKeepsWire(service: (Payload, Payload) -> bool, st: State, step: Step)
    requires SenderInv(st) && WireInv(service, st) && InputInv(service, st) && SenderStep(st, step).Some?
    ensures WireInv(service, SenderStep(st, step).value)
    ensures InputInv(service, SenderStep(st, step).value)
  {
    var st' := SenderStep(st, step).value;
    SenderExtends(st, step);
    WireExtends(service, st, st');
    InputExtends(service, st, st');
    assert st'.toServer == st.toServer || (step == Emit && st'.calls == st.calls && st'.issued == st.issued);
  }

  lemma SenderKeepsCall(service: (Payload, Payload) -> bool, st: State, step: Step, c: nat)
    requires TicketInv(st) && SenderInv(st) && SenderStep(st, step).Some?
    requires c < |st.calls| && CallInv(service, st, c)
    ensures c < |SenderStep(st, step).value.calls| && CallInv(service, SenderStep(st, step).value, c)
  {
    SenderSameCalls(st, step);
    hide SenderStep;
    hide TicketInv;
    hide SenderInv;
    hide CallInv;
    if step == Register {
      RegisterKeepsCall(service, st, c);
    } else if step == Abandon {
      AbandonKeepsCall(service, st, c);
    } else {
      PlainSenderKeepsCall(service, st, step, c);
    }
  }

  lemma PlainSenderKeepsCall(service: (Payload, Payload) -> bool, st: State, step: Step, c: nat)
    requires SenderInv(st) && SenderStep(st, step).Some? && step != Register && step != Abandon
    requires c < |st.calls| && CallInv(service, st, c)
    ensures CallInv(service, SenderStep(st, step).value, c)
  {
  }

  lemma RegisterKeepsCall(service: (Payload, Payload) -> bool, st: State, c: nat)
    requires TicketInv(st) && SenderInv(st) && SenderStep(st, Register).Some?
    requires c < |st.calls| && CallInv(service, st, c)
    ensures CallInv(service, SenderStep(st, Register).value, c)
  {
  }

  lemma AbandonKeepsCall(service: (Payload, Payload) -> bool, st: State, c: nat)
    requires TicketInv(st) && SenderInv(st) && SenderStep(st, Abandon).Some?
    requires c < |st.calls| && CallInv(service, st, c)
    ensures CallInv(service, SenderStep(st, Abandon).value, c)
  {
    AbandonTicket(st);
    var st' := SenderStep(st, Abandon).value;
    assert st'.input == st.input && st'.shutdown == st.shutdown && st'.issued == st.issued && st'.answers == st.answers;
    assert st'.calls[c] == st.calls[c].(stage := st'.calls[c].stage);
    var s := st.sender.s;
    hide SenderStep;
    hide SenderInv;
    if c != st.sender.c {
      assert st.calls[c].ticket != Some(s);
    }
    hide TicketInv;
  }

  /** The entry a failed `send` takes back, if it is still there, is that of its own call. */
  lemma AbandonTicket(st: State)
    requires TicketInv(st) && SenderInv(st) && SenderStep(st, Abandon).Some?
    ensures var st' := SenderStep(st, Abandon).value;
            && st.sender.Abandoning? && st.sender.c < |st.calls| && st.calls[st.sender.c].ticket == Some(st.sender.s)
            && st.calls[st.sender.c].stage == Sending
            && (if st.sender.s in st.pending
                then st' == st.(sender := Aborting(st.sender.c, st.sender.err), pending := st.pending - {st.sender.s})
                else st' == Return(st, st.sender.c))
  {
  }

  lemma SenderKeepsInv(service: (Payload, Payload) -> bool, st: State, step: Step)
    requires Inv(service, st) && SenderStep(st, step).Some?
    ensures Inv(service, SenderStep(st, step).value)
  {
    hide SenderStep;
    SenderKeepsTickets(st, step);
    assert forall c :: 0 <= c < |st.calls| && st.calls[c].stage == Waiting ==> CallInv(service, st, c);
    SenderKeepsSender(st, step);
    SenderKeepsWire(service, st, step);
    SenderExtends(st, step);
    SenderSameCalls(st, step);
    forall c | 0 <= c < |SenderStep(st, step).value.calls| ensures CallInv(service, SenderStep(st, step).value, c) {
      SenderKeepsCall(service, st, step, c);
    }
  }

  lemma SenderSameCalls(st: State, step: Step)
    requires SenderStep(st, step).Some?
    ensures |SenderStep(st, step).value.calls| == |st.calls|
  {
  }

  lemma FinishAllAt(st: State, calls: seq<Call>, v: Verdict, c: nat)
    requires TicketInv(st) && c < |st.calls| == |calls|
    requires st.calls[c].ticket.Some? ==>
               st.calls[c].ticket.value < |st.issued| && st.issued[st.calls[c].ticket.value] == c
    ensures FinishAll(calls, st.pending, v)[c]
            == if st.calls[c].ticket.Some? && st.calls[c].ticket.value in st.pending
               then Finish(calls[c], v) else calls[c]
  {
    var t := st.calls[c].ticket;
    if c in st.pending.Values {
      var s :| s in st.pending && st.pending[s] == c;
      assert st.issued[s] == c;
    }
    assert t.Some? && t.value in st.pending ==> st.pending[t.value] == c;
  }

  /** Termination, seen by one call: a pending one is completed, and one that shares the error object
      with `input` gets its new text. */
  lemma TerminateAt(service: (Payload, Payload) -> bool, st: State, c: nat)
    requires TicketInv(st) && InputStep(st, Terminate).Some? && !st.shutdown
    requires c < |st.calls| && CallInv(service, st, c)
    ensures |InputStep(st, Terminate).value.calls| == |st.calls|
    ensures var before, after := st.calls[c], InputStep(st, Terminate).value.calls[c];
            var final := Failed(FinalError(st.input.err, st.closing));
            after == if before.ticket.Some? && before.ticket.value in st.pending then Finish(before, final)
                     else if st.input.holder == Some(c)
                         && InPlace(st.input.err, st.closing) then before.(verdict := final)
                     else before
  {
    var calls := Retext(st.calls, st.input.holder, st.input.err, st.closing);
    FinishAllAt(st, calls, Failed(FinalError(st.input.err, st.closing)), c);
  }

  lemma InputExtendsStep(st: State, step: Step)
    requires InputStep(st, step).Some?
    ensures Extends(st, InputStep(st, step).value) && |InputStep(st, step).value.calls| == |st.calls|
  {
  }

  /** Tickets stay, and `pending` only loses entries. */
  ghost predicate SameTickets(st: State, st': State) {
    && |st.calls| <= |st'.calls| && st'.issued == st.issued && st'.seqno == st.seqno
    && (forall c :: 0 <= c < |st.calls| ==> st'.calls[c].ticket == st.calls[c].ticket)
    && (forall s :: s in st'.pending ==> s in st.pending && st'.pending[s] == st.pending[s])
  }

  lemma SameTicketsKeep(st: State, st': State)
    requires TicketInv(st) && SameTickets(st, st')
    ensures TicketInv(st')
  {
  }

  lemma InputKeepsTickets(st: State, step: Step)
    requires TicketInv(st) && InputStep(st, step).Some?
    ensures TicketInv(InputStep(st, step).value)
  {
    hide TicketInv;
    SameTicketsKeep(st, InputStep(st, step).value);
  }

  lemma InputKeepsSender(st: State, step: Step)
    requires SenderInv(st) && InputStep(st, step).Some?
    ensures SenderInv(InputStep(st, step).value)
  {
  }

  lemma InputKeepsWire(service: (Payload, Payload) -> bool, st: State, step: Step)
    requires WireInv(service, st) && TicketInv(st) && InputInv(service, st) && InputStep(st, step).Some?
    ensures WireInv(service, InputStep(st, step).value)
    ensures InputInv(service, InputStep(st, step).value)
  {
    InputExtendsStep(st, step);
    InputQueues(st, step);
    var st' := InputStep(st, step).value;
    var tail := st'.toClient;
    assert Extends(st, st');
    hide Extends;
    WireExtends(service, st, st');
    InputMoves(service, st, step);
    hide InputStep;
    hide ResponseOk;
    hide RequestOk;
    hide TicketInv;
    assert forall k :: 0 <= k < |tail| ==> tail[k] in st.toClient;
  }

  lemma InputQueues(st: State, step: Step)
    requires InputStep(st, step).Some?
    ensures var st' := InputStep(st, step).value;
            && st'.toServer == st.toServer && st'.jobs == st.jobs
            && (st'.toClient == st.toClient || (st.toClient != [] && st'.toClient == st.toClient[1..]))
  {
  }

  /** A response keeps meeting its condition while calls and numbers are only added. */
  lemma ResponseExtends(service: (Payload, Payload) -> bool, st: State, st': State, r: Response)
    requires Extends(st, st') && ResponseOk(service, st, r)
    ensures ResponseOk(service, st', r)
  {
  }

  lemma InputMoves(service: (Payload, Payload) -> bool, st: State, step: Step)
    requires WireInv(service, st) && TicketInv(st) && InputInv(service, st) && InputStep(st, step).Some?
    ensures InputInv(service, InputStep(st, step).value)
  {
    var st' := InputStep(st, step).value;
    InputExtendsStep(st, step);
    if step == ReadHeader {
      ResponseExtends(service, st, st', st.toClient[0]);
    } else if st.input.Header? || st.input.Body? {
      ResponseExtends(service, st, st', st.input.resp);
    }
    hide Extends;
    hide FinishAll;
    hide Retext;
  }

  lemma InputKeepsCall(service: (Payload, Payload) -> bool, st: State, step: Step, c: nat)
    requires TicketInv(st) && InputInv(service, st) && SenderInv(st) && InputStep(st, step).Some?
    requires c < |st.calls| && CallInv(service, st, c)
    ensures c < |InputStep(st, step).value.calls| && CallInv(service, InputStep(st, step).value, c)
  {
    InputExtendsStep(st, step);
    hide InputStep;
    hide TicketInv;
    hide SenderInv;
    hide InputInv;
    hide CallInv;
    if step == Terminate {
      TerminateKeepsCall(service, st, c);
    } else if step == Take {
      TakeKeepsCall(service, st, c);
    } else if step == ReadBodyOk {
      BodyOkKeepsCall(service, st, c);
    } else if step.ReadBodyFail? {
      BodyFailKeepsCall(service, st, step.err, c);
    } else {
      InputSteps(st, step);
      HeaderKeepsCall(service, st, step, c);
    }
  }

  lemma InputSteps(st: State, step: Step)
    requires InputStep(st, step).Some?
    ensures step in {ReadHeader, Take, ReadBodyOk, Terminate} || step.ReadHeaderFail? || step.ReadBodyFail?
  {
  }

  lemma HeaderKeepsCall(service: (Payload, Payload) -> bool, st: State, step: Step, c: nat)
    requires InputInv(service, st) && InputStep(st, step).Some? && (step == ReadHeader || step.ReadHeaderFail?)
    requires c < |st.calls| && CallInv(service, st, c)
    ensures CallInv(service, InputStep(st, step).value, c)
  {
  }

  lemma BodyTicket(service: (Payload, Payload) -> bool, st: State)
    requires TicketInv(st) && InputInv(service, st) && st.input.Body? && st.input.call.Some?
    ensures st.input.call.value < |st.calls| && st.calls[st.input.call.value].ticket == Some(st.input.resp.seqno)
    ensures st.input.resp in st.answers && (st.input.resp.error.Some? ==> st.input.resp.reply == "")
    ensures st.input.resp.error.None? ==> service(st.calls[st.input.call.value].args, st.input.resp.reply)
  {
  }

  lemma BodyOkKeepsCall(service: (Payload, Payload) -> bool, st: State, c: nat)
    requires TicketInv(st) && InputInv(service, st) && InputStep(st, ReadBodyOk).Some?
    requires c < |st.calls| && CallInv(service, st, c)
    ensures CallInv(service, InputStep(st, ReadBodyOk).value, c)
  {
    if st.input.call == Some(c) {
      BodyTicket(service, st);
    }
    hide TicketInv;
    hide InputInv;
    var r := st.input.resp;
    assert r == Response(r.seqno, r.error, r.reply);
  }

  lemma BodyFailKeepsCall(service: (Payload, Payload) -> bool, st: State, err: LocalError, c: nat)
    requires TicketInv(st) && InputInv(service, st) && InputStep(st, ReadBodyFail(err)).Some?
    requires c < |st.calls| && CallInv(service, st, c)
    ensures CallInv(service, InputStep(st, ReadBodyFail(err)).value, c)
  {
    BodyFailAt(st, err, c);
    if st.input.call == Some(c) {
      BodyTicket(service, st);
    }
    hide InputStep;
    hide TicketInv;
    hide InputInv;
    var r := st.input.resp;
    assert r == Response(r.seqno, r.error, r.reply);
  }

  lemma BodyFailAt(st: State, err: LocalError, c: nat)
    requires InputStep(st, ReadBodyFail(err)).Some? && c < |st.calls|
    ensures st.input.Body?
    ensures var r, st' := st.input.resp, InputStep(st, ReadBodyFail(err)).value;
            && |st'.calls| == |st.calls|
            && st' == st.(calls := st'.calls, input := Stopping(err, if r.error.Some? then None else st.input.call))
            && st'.calls[c] == if st.input.call == Some(c)
                               then Finish(st.calls[c], if r.error.Some? then Failed(r.error.value) else Failed(err))
                               else st.calls[c]
  {
  }

  /** `reqMutex` is free when the pending calls are completed, so none of them is also held by a
      sender that may still fail; afterwards the entries left in `pending` own nothing. */
  lemma TerminateKeepsCall(service: (Payload, Payload) -> bool, st: State, c: nat)
    requires TicketInv(st) && InputInv(service, st) && SenderInv(st) && InputStep(st, Terminate).Some?
    requires c < |st.calls| && CallInv(service, st, c)
    ensures CallInv(service, InputStep(st, Terminate).value, c)
  {
    TerminateAt(service, st, c);
    hide InputStep;
    hide FinishAll;
    hide TicketInv;
    TerminateRest(st);
  }

  lemma TerminateRest(st: State)
    requires InputStep(st, Terminate).Some?
    ensures InputStep(st, Terminate).value
            == st.(input := Ended, shutdown := true, calls := InputStep(st, Terminate).value.calls)
    ensures st.input.Stopping? && st.sender == Free
  {
  }

  lemma TakeKeepsCall(service: (Payload, Payload) -> bool, st: State, c: nat)
    requires TicketInv(st) && InputInv(service, st) && InputStep(st, Take).Some?
    requires c < |st.calls| && CallInv(service, st, c)
    ensures CallInv(service, InputStep(st, Take).value, c)
  {
  }

  lemma InputKeepsInv(service: (Payload, Payload) -> bool, st: State, step: Step)
    requires Inv(service, st) && InputStep(st, step).Some?
    ensures Inv(service, InputStep(st, step).value)
  {
    hide InputStep;
    InputKeepsTickets(st, step);
    InputKeepsSender(st, step);
    InputKeepsWire(service, st, step);
    InputExtendsStep(st, step);
    forall c | 0 <= c < |InputStep(st, step).value.calls| ensures CallInv(service, InputStep(st, step).value, c) {
      InputKeepsCall(service, st, step, c);
    }
  }

  lemma OtherKeepsInv(service: (Payload, Payload) -> bool, st: State, step: Step)
    requires Inv(service, st) && OtherStep(service, st, step).Some?
    ensures Inv(service, OtherStep(service, st, step).value)
  {
    var st' := OtherStep(service, st, step).value;
    OtherKeepsRest(service, st, step);
    hide OtherStep;
    hide TicketInv;
    hide SenderInv;
    hide WireInv;
    hide InputInv;
    hide CallInv;
    forall c | 0 <= c < |st'.calls| ensures CallInv(service, st', c) {
      OtherKeepsCall(service, st, step, c);
    }
  }

  lemma OtherKeepsRest(service: (Payload, Payload) -> bool, st: State, step: Step)
    requires TicketInv(st) && SenderInv(st) && WireInv(service, st) && InputInv(service, st)
    requires OtherStep(service, st, step).Some?
    ensures var st' := OtherStep(service, st, step).value;
            TicketInv(st') && SenderInv(st') && WireInv(service, st') && InputInv(service, st')
  {
    var st' := OtherStep(service, st, step).value;
    SameTicketsKeep(st, st');
    WireExtends(service, st, st');
    InputExtends(service, st, st');
    if !step.Create? {
      OtherKeepsWire(service, st, step);
    }
  }

  lemma OtherKeepsCall(service: (Payload, Payload) -> bool, st: State, step: Step, c: nat)
    requires OtherStep(service, st, step).Some? && TicketInv(st) && SenderInv(st) && InputInv(service, st)
    requires c < |OtherStep(service, st, step).value.calls| && (c < |st.calls| ==> CallInv(service, st, c))
    ensures CallInv(service, OtherStep(service, st, step).value, c)
  {
  }

  lemma OtherKeepsWire(service: (Payload, Payload) -> bool, st: State, step: Step)
    requires WireInv(service, st) && OtherStep(service, st, step).Some? && !step.Create?
    ensures WireInv(service, OtherStep(service, st, step).value)
  {
  }

  // ------------------------------------------------- what holds in every run

  lemma {:induction false} RunKeepsInv(service: (Payload, Payload) -> bool, steps: seq<Step>)
    requires Run(service, steps).Some?
    ensures Inv(service, Run(service, steps).value)
  {
    if steps != [] {
      var before, step := steps[..|steps| - 1], steps[|steps| - 1];
      RunKeepsInv(service, before);
      StepKeepsInv(service, Run(service, before).value, step);
    }
  }

  lemma StepKeepsInv(service: (Payload, Payload) -> bool, st: State, step: Step)
    requires Inv(service, st) && Apply(service, st, step).Some?
    ensures Inv(service, Apply(service, st, step).value)
  {
    hide Inv;
    hide SenderStep;
    hide InputStep;
    hide OtherStep;
    if SenderStep(st, step).Some? {
      SenderKeepsInv(service, st, step);
    } else if InputStep(st, step).Some? {
      InputKeepsInv(service, st, step);
    } else {
      OtherKeepsInv(service, st, step);
    }
  }

  /** No call is signalled twice, in any interleaving. */
  lemma SignalledAtMostOnce(service: (Payload, Payload) -> bool, steps: seq<Step>, c: nat)
    requires Run(service, steps).Some? && c < |Run(service, steps).value.calls|
    ensures Run(service, steps).value.calls[c].signals <= 1
  {
    RunKeepsInv(service, steps);
    assert CallInv(service, Run(service, steps).value, c);
  }

  /** Once its `send` has returned and `input` has ended, every call has been signalled exactly
      once and carries a result, although termination leaves its entries in `pending`. */
  lemma SignalledExactlyOnce(service: (Payload, Payload) -> bool, steps: seq<Step>, c: nat)
    requires Run(service, steps).Some? && c < |Run(service, steps).value.calls|
    requires var st := Run(service, steps).value; st.input == Ended && st.calls[c].stage == Returned
    ensures var call := Run(service, steps).value.calls[c]; call.signals == 1 && call.verdict != Unset
  {
    RunKeepsInv(service, steps);
    assert CallInv(service, Run(service, steps).value, c);
  }

  /** A call that ends without error holds a reply computed from its own arguments, and what the
      server wrote for its own sequence number; so does a call that ends with a server's error. */
  lemma OwnReply(service: (Payload, Payload) -> bool, steps: seq<Step>, c: nat)
    requires Run(service, steps).Some? && c < |Run(service, steps).value.calls|
    ensures var call := Run(service, steps).value.calls[c];
            && (call.verdict.Fine? ==> service(call.args, call.verdict.reply))
            && FromServer(Run(service, steps).value, call)
            && (call.ticket.Some? ==> call.ticket.value < |Run(service, steps).value.issued|
                                      && Run(service, steps).value.issued[call.ticket.value] == c)
  {
    RunKeepsInv(service, steps);
    assert CallInv(service, Run(service, steps).value, c);
  }

  // ------------------------------------------------- how each call ends, error by error

  lemma {:induction false} ClosedBy(service: (Payload, Payload) -> bool, steps: seq<Step>)
    requires Run(service, steps).Some?
    ensures var st := Run(service, steps).value;
            (st.closing <==> Step.Close in steps) && (st.shutdown <==> Step.Terminate in steps)
  {
    if steps != [] {
      var n := |steps| - 1;
      var before, step := steps[..n], steps[n];
      assert steps == before + [step];
      ClosedBy(service, before);
      hide Run;
      ClosingSteps(service, Run(service, before).value, step);
      assert Run(service, steps) == Apply(service, Run(service, before).value, step) by {
        OneMore(service, before, step);
      }
    }
  }

  lemma ClosingSteps(service: (Payload, Payload) -> bool, st: State, step: Step)
    requires Apply(service, st, step).Some?
    ensures var after := Apply(service, st, step).value;
            && (after.closing <==> st.closing || step == Step.Close)
            && (after.shutdown <==> st.shutdown || step == Step.Terminate)
  {
  }

  /** The error `input` stops with is the one a read of this run failed with. */
  lemma {:induction false} StoppedBy(service: (Payload, Payload) -> bool, steps: seq<Step>)
    requires Run(service, steps).Some? && Run(service, steps).value.input.Stopping?
    ensures var e := Run(service, steps).value.input.err; ReadHeaderFail(e) in steps || ReadBodyFail(e) in steps
  {
    var n := |steps| - 1;
    var before, step := steps[..n], steps[n];
    assert steps == before + [step];
    var st := Run(service, before).value;
    StopSteps(service, st, step);
    if st.input.Stopping? {
      StoppedBy(service, before);
    }
  }

  lemma StopSteps(service: (Payload, Payload) -> bool, st: State, step: Step)
    requires Apply(service, st, step).Some? && Apply(service, st, step).value.input.Stopping?
    ensures var e := Apply(service, st, step).value.input.err;
            (st.input.Stopping? && st.input.err == e) || step == ReadHeaderFail(e) || step == ReadBodyFail(e)
  {
  }

  /** A call that is pending when `input` ends: shut down if the stream ended after `Close`, an unexpected
      end of the same type if it ended without, and the error of the failing read in every other case. */
  lemma PendingEndsWith(service: (Payload, Payload) -> bool, steps: seq<Step>, c: nat)
    requires Run(service, steps).Some? && Apply(service, Run(service, steps).value, Terminate).Some?
    requires var st := Run(service, steps).value;
             c < |st.calls| && st.calls[c].ticket.Some? && st.calls[c].ticket.value in st.pending
    ensures var st, after := Run(service, steps).value, Apply(service, Run(service, steps).value, Terminate).value;
            && st.input.Stopping? && c < |after.calls| && after.calls[c].signals == 1
            && (ReadHeaderFail(st.input.err) in steps || ReadBodyFail(st.input.err) in steps)
            && after.calls[c].verdict
               == if st.input.err.msg != "EOF" then Failed(st.input.err)
                  else if Step.Close in steps then Failed(RpcError(-1, "connection is shut down"))
                  else Failed(RpcError(st.input.err.typ, "unexpected EOF"))
  {
    RunKeepsInv(service, steps);
    var st := Run(service, steps).value;
    assert CallInv(service, st, c);
    hide Run;
    hide Inv;
    TerminateRest(st);
    TerminateAt(service, st, c);
    StoppedBy(service, steps);
    ClosedBy(service, steps);
  }

  /** A call without a sequence number was refused: it ends with the shutdown error. */
  lemma RefusedEndsWith(service: (Payload, Payload) -> bool, steps: seq<Step>, c: nat)
    requires Run(service, steps).Some? && c < |Run(service, steps).value.calls|
    requires var call := Run(service, steps).value.calls[c]; call.ticket.None? && call.signals == 1
    ensures Run(service, steps).value.calls[c].verdict == Failed(RpcError(-1, "connection is shut down"))
  {
    RunKeepsInv(service, steps);
    assert CallInv(service, Run(service, steps).value, c);
  }

  /** A `send` that holds the mutex refuses its call exactly after `Close` or the end of `input`, and
      registers it otherwise. */
  lemma RefusesIff(service: (Payload, Payload) -> bool, steps: seq<Step>)
    requires Run(service, steps).Some? && Run(service, steps).value.sender.Locked?
    ensures var st := Run(service, steps).value;
            && (SenderStep(st, Refuse).Some? <==> Step.Close in steps || Step.Terminate in steps)
            && (SenderStep(st, Register).Some? <==> !SenderStep(st, Refuse).Some?)
  {
    RunKeepsInv(service, steps);
    ClosedBy(service, steps);
  }

  /** The write of call `c` failed with `e` in this run. */
  ghost predicate WriteFailedOf(service: (Payload, Payload) -> bool, steps: seq<Step>, e: LocalError, c: nat) {
    exists k :: 0 <= k < |steps| && WriteFailedAt(service, steps, k, e, c)
  }

  ghost predicate WriteFailedAt(service: (Payload, Payload) -> bool, steps: seq<Step>, k: nat, e: LocalError, c: nat)
    requires k < |steps|
  {
    && steps[k] == WriteFail(e) && Run(service, steps[..k]).Some?
    && Run(service, steps[..k]).value.sender.Writing? && Run(service, steps[..k]).value.sender.c == c
  }

  lemma WriteFailedLater(service: (Payload, Payload) -> bool, steps: seq<Step>, e: LocalError, c: nat)
    requires steps != []
    requires WriteFailedOf(service, steps[..|steps| - 1], e, c) || WriteFailedAt(service, steps, |steps| - 1, e, c)
    ensures WriteFailedOf(service, steps, e, c)
  {
    hide Run;
    var before := steps[..|steps| - 1];
    if WriteFailedOf(service, before, e, c) {
      var k :| 0 <= k < |before| && WriteFailedAt(service, before, k, e, c);
      assert steps[..k] == before[..k];
      assert WriteFailedAt(service, steps, k, e, c);
    }
  }

  /** A `send` that gives up does so for the error its own write reported. */
  lemma {:induction false} GivesUpFor(service: (Payload, Payload) -> bool, steps: seq<Step>)
    requires Run(service, steps).Some?
    ensures var sender := Run(service, steps).value.sender;
            sender.Abandoning? || sender.Aborting? ==> WriteFailedOf(service, steps, sender.err, sender.c)
  {
    if steps != [] {
      var before, step := steps[..|steps| - 1], steps[|steps| - 1];
      var st := Run(service, before).value;
      GivesUpFor(service, before);
      RunKeepsInv(service, before);
      GiveUpSteps(service, st, step);
      var sender := Run(service, steps).value.sender;
      hide Run;
      hide Inv;
      hide Apply;
      if sender.Abandoning? || sender.Aborting? {
        WriteFailedLater(service, steps, sender.err, sender.c);
      }
    }
  }

  lemma GiveUpSteps(service: (Payload, Payload) -> bool, st: State, step: Step)
    requires TicketInv(st) && SenderInv(st) && Apply(service, st, step).Some?
    ensures var sender := Apply(service, st, step).value.sender;
            sender.Abandoning? || sender.Aborting? ==>
              || ((st.sender.Abandoning? || st.sender.Aborting?)
                  && st.sender.err == sender.err && st.sender.c == sender.c)
              || (step == WriteFail(sender.err) && st.sender.Writing? && st.sender.c == sender.c)
  {
  }

  /** A call that its `send` has taken back ends with the error its own write reported. */
  lemma TakenBackEndsWith(service: (Payload, Payload) -> bool, steps: seq<Step>)
    requires Run(service, steps).Some? && Run(service, steps).value.sender.Aborting?
    ensures var st := Run(service, steps).value;
            var after := Apply(service, st, SignalAborted);
            && WriteFailedOf(service, steps, st.sender.err, st.sender.c)
            && after.Some? && st.sender.c < |after.value.calls|
            && after.value.calls[st.sender.c].verdict == Failed(st.sender.err)
            && after.value.calls[st.sender.c].signals == 1
  {
    RunKeepsInv(service, steps);
    GivesUpFor(service, steps);
    var st := Run(service, steps).value;
    assert CallInv(service, st, st.sender.c);
  }

  /** A call whose response has come: the server's error, whether or not a body follows; else the reply, or
      the error of reading it. */
  lemma AnsweredEndsWith(service: (Payload, Payload) -> bool, steps: seq<Step>, e: LocalError)
    requires Run(service, steps).Some?
    requires var st := Run(service, steps).value; st.input.Body? && st.input.call.Some?
    ensures var st := Run(service, steps).value;
            var r, c := st.input.resp, st.input.call.value;
            var good, bad := Apply(service, st, ReadBodyOk), Apply(service, st, ReadBodyFail(e));
            && c < |st.calls| && st.calls[c].ticket == Some(r.seqno)
            && good.Some? && c < |good.value.calls| && bad.Some? && c < |bad.value.calls|
            && good.value.calls[c].signals == bad.value.calls[c].signals == 1
            && good.value.calls[c].verdict == (if r.error.Some? then Failed(r.error.value) else Fine(r.reply))
            && bad.value.calls[c].verdict == (if r.error.Some? then Failed(r.error.value) else Failed(e))
  {
    RunKeepsInv(service, steps);
    var st := Run(service, steps).value;
    BodyTicket(service, st);
    assert CallInv(service, st, st.input.call.value);
  }

  /** A response whose call is already completed, or has been taken back by the `send` whose write was
      reported as failed, finds nothing in `pending`, and reading its body changes no call at all. */
  lemma LateResponseIsIgnored(service: (Payload, Payload) -> bool, steps: seq<Step>, more: Step)
    requires Run(service, steps).Some? && Run(service, steps).value.input.Header?
    requires var st := Run(service, steps).value;
             && st.input.resp.seqno < |st.issued| && st.issued[st.input.resp.seqno] < |st.calls|
             && var c := st.issued[st.input.resp.seqno];
                st.calls[c].signals == 1 || (st.sender.Aborting? && st.sender.c == c)
    ensures var st := Run(service, steps).value;
            var taken := InputStep(st, Take).value;
            && taken.input == Body(st.input.resp, None) && taken.pending == st.pending
            && (InputStep(taken, more).Some? ==> InputStep(taken, more).value.calls == st.calls)
  {
    RunKeepsInv(service, steps);
    var st := Run(service, steps).value;
    var c := st.issued[st.input.resp.seqno];
    assert CallInv(service, st, c);
    assert st.calls[c].ticket == Some(st.input.resp.seqno);
    assert st.pending - {st.input.resp.seqno} == st.pending;
  }

  /** What a step does to a call that has been signalled: it is never signalled again, and its result
      stays, except that termination may replace the text of an error object the call shares. The
      result changes exactly then, and only its text does. */
  lemma FinishedCallChangesIff(service: (Payload, Payload) -> bool, steps: seq<Step>, step: Step, c: nat)
    requires Run(service, steps).Some? && c < |Run(service, steps).value.calls|
    requires Run(service, steps).value.calls[c].signals == 1
    requires Apply(service, Run(service, steps).value, step).Some?
    ensures var st, after := Run(service, steps).value, Apply(service, Run(service, steps).value, step).value;
            && c < |after.calls| && after.calls[c].signals == 1
            && (after.calls[c].verdict != st.calls[c].verdict
                <==> step == Terminate && !st.closing
                     && exists e: LocalError :: e.msg == EOF_TEXT && FailedReadOf(service, steps, e, c))
            && (after.calls[c].verdict != st.calls[c].verdict ==>
                  && st.calls[c].verdict.Failed? && st.calls[c].verdict.err.msg == EOF_TEXT
                  && after.calls[c].verdict == Failed(st.calls[c].verdict.err.(msg := UNEXPECTED_EOF_TEXT)))
  {
    RunKeepsInv(service, steps);
    var st := Run(service, steps).value;
    FinishedStays(service, st, step, c);
    if step == Terminate {
      TerminateRest(st);
      HolderIsFailedRead(service, steps);
    }
  }

  /** Only at the end of `input`, and only the text of the error it shares. */
  lemma FinishedStays(service: (Payload, Payload) -> bool, st: State, step: Step, c: nat)
    requires TicketInv(st) && SenderInv(st) && c < |st.calls| && CallInv(service, st, c) && st.calls[c].signals == 1
    requires st.input == Ended <==> st.shutdown
    requires Apply(service, st, step).Some?
    ensures var after := Apply(service, st, step).value;
            && c < |after.calls| && after.calls[c].signals == 1
            && (step == Terminate ==> InputStep(st, step).Some?)
            && after.calls[c].verdict
               == if step == Terminate && st.input.holder == Some(c) && InPlace(st.input.err, st.closing)
                  then Failed(FinalError(st.input.err, st.closing)) else st.calls[c].verdict
  {
    if step == Terminate && st.input.Stopping? && InputStep(st, step).Some? {
      TerminateAt(service, st, c);
    }
  }

  /** Some step of the run was the failing read, with `e`, of the body of an error-free response to `c`. */
  ghost predicate FailedReadOf(service: (Payload, Payload) -> bool, steps: seq<Step>, e: LocalError, c: nat) {
    exists k :: 0 <= k < |steps| && FailedReadAt(service, steps, k, e, c)
  }

  ghost predicate FailedReadAt(service: (Payload, Payload) -> bool, steps: seq<Step>, k: nat, e: LocalError, c: nat)
    requires k < |steps|
  {
    && steps[k] == ReadBodyFail(e) && Run(service, steps[..k]).Some?
    && var input := Run(service, steps[..k]).value.input;
       input.Body? && input.resp.error.None? && input.call == Some(c)
  }

  /** The call that shares the error `input` stops with is the one whose body could not be read. */
  lemma {:induction false} HolderIsFailedRead(service: (Payload, Payload) -> bool, steps: seq<Step>)
    requires Run(service, steps).Some?
    ensures forall e, c :: FailedReadOf(service, steps, e, c) ==>
              var input := Run(service, steps).value.input; input == Stopping(e, Some(c)) || input == Ended
    ensures var input := Run(service, steps).value.input;
            input.Stopping? && input.holder.Some? ==> FailedReadOf(service, steps, input.err, input.holder.value)
  {
    if steps != [] {
      var n := |steps| - 1;
      var before, step := steps[..n], steps[n];
      assert Run(service, before).Some? && Run(service, steps) == Apply(service, Run(service, before).value, step);
      HolderIsFailedRead(service, before);
      StoppingSteps(service, Run(service, before).value, step);
      hide Run;
      hide Apply;
      forall e, c | FailedReadOf(service, steps, e, c)
        ensures var input := Run(service, steps).value.input; input == Stopping(e, Some(c)) || input == Ended
      {
        FailedReadSplit(service, steps, e, c);
      }
      var input := Run(service, steps).value.input;
      if input.Stopping? && input.holder.Some? {
        FailedReadSplit(service, steps, input.err, input.holder.value);
      }
    }
  }

  lemma FailedReadSplit(service: (Payload, Payload) -> bool, steps: seq<Step>, e: LocalError, c: nat)
    requires steps != []
    ensures FailedReadOf(service, steps, e, c)
            <==> FailedReadOf(service, steps[..|steps| - 1], e, c) || FailedReadAt(service, steps, |steps| - 1, e, c)
  {
    hide Run;
    var n := |steps| - 1;
    var before := steps[..n];
    assert forall k :: 0 <= k < n ==> steps[..k] == before[..k];
    if FailedReadOf(service, before, e, c) {
      var k :| 0 <= k < n && FailedReadAt(service, before, k, e, c);
      assert FailedReadAt(service, steps, k, e, c);
    }
    if FailedReadOf(service, steps, e, c) {
      var k :| 0 <= k <= n && FailedReadAt(service, steps, k, e, c);
      assert k < n ==> FailedReadAt(service, before, k, e, c);
    }
  }

  lemma StoppingSteps(service: (Payload, Payload) -> bool, st: State, step: Step)
    requires Apply(service, st, step).Some?
    ensures var input := Apply(service, st, step).value.input;
            && (st.input.Stopping? ==> input == st.input || input == Ended)
            && (st.input == Ended ==> input == Ended)
            && (step.ReadBodyFail? ==>
                  && st.input.Body?
                  && input == Stopping(step.err, if st.input.resp.error.Some? then None else st.input.call))
            && (input.Stopping? && input.holder.Some? ==> input == st.input || step.ReadBodyFail?)
  {
  }

  /** Whether a finished call succeeded, and with which reply, is settled for the rest of every run. */
  lemma {:induction false} OutcomeIsSettled(service: (Payload, Payload) -> bool, steps: seq<Step>, more: seq<Step>,
                                            c: nat)
    requires Run(service, steps).Some? && Run(service, steps + more).Some?
    requires c < |Run(service, steps).value.calls| && Run(service, steps).value.calls[c].signals == 1
    ensures var before, after := Run(service, steps).value, Run(service, steps + more).value;
            && c < |after.calls| && after.calls[c].signals == 1
            && (before.calls[c].verdict.Failed? <==> after.calls[c].verdict.Failed?)
            && (before.calls[c].verdict.Fine? ==> after.calls[c].verdict == before.calls[c].verdict)
    decreases |more|
  {
    if more == [] {
      assert steps + more == steps;
    } else {
      var n := |more| - 1;
      var all := steps + more;
      assert all[..|all| - 1] == steps + more[..n] && all[|all| - 1] == more[n];
      assert Run(service, all[..|all| - 1]).Some?;
      assert Run(service, all) == Apply(service, Run(service, all[..|all| - 1]).value, more[n]);
      hide Run;
      hide Apply;
      hide FailedReadOf;
      OutcomeIsSettled(service, steps, more[..n], c);
      FinishedCallChangesIff(service, steps + more[..n], more[n], c);
    }
  }

  /** A `send` inside `WriteRequest` while `input` is about to stop. */
  function MidWrite(args: Payload, e: LocalError): State {
    State([Call(args, Sending, Some(0), Unset, 0)], 1, map[0 := 0], false, false,
          Writing(0, 0, false), Stopping(e, None), [], [], [], [0], [])
  }

  /** A list of states in which each step leads from one to the next is a run. */
  lemma {:induction false} Traced(service: (Payload, Payload) -> bool, steps: seq<Step>, states: seq<State>)
    requires |states| == |steps| + 1 && states[0] == INIT
    requires forall k :: 0 <= k < |steps| ==> Apply(service, states[k], steps[k]) == Some(states[k + 1])
    ensures Run(service, steps) == Some(states[|steps|])
  {
    if steps != [] {
      Traced(service, steps[..|steps| - 1], states[..|steps|]);
    }
  }

  function Called(args: Payload): State {
    INIT.(calls := [Call(args, Waiting, None, Unset, 0)])
  }

  function Locking(args: Payload): State {
    INIT.(calls := [Call(args, Sending, None, Unset, 0)], sender := Locked(0))
  }

  function Registered(args: Payload): State {
    State([Call(args, Sending, Some(0), Unset, 0)], 1, map[0 := 0], false, false,
          Writing(0, 0, false), Reading, [], [], [], [0], [])
  }

  lemma FirstSteps(service: (Payload, Payload) -> bool, args: Payload)
    ensures Apply(service, INIT, Create(args)) == Some(Called(args))
    ensures Apply(service, Called(args), Lock(0)) == Some(Locking(args))
    ensures Apply(service, Locking(args), Register) == Some(Registered(args))
  {
    assert INIT.calls + [Call(args, Waiting, None, Unset, 0)] == Called(args).calls;
    assert Apply(service, Called(args), Lock(0)).value.calls == Locking(args).calls;
    assert Apply(service, Locking(args), Register).value.calls == Registered(args).calls;
    assert Locking(args).issued + [0] == [0] && Locking(args).pending[0 := 0] == map[0 := 0];
  }

  lemma MidWriteIsReachable(service: (Payload, Payload) -> bool, args: Payload, e: LocalError)
    ensures Run(service, [Create(args), Lock(0), Register, ReadHeaderFail(e)]) == Some(MidWrite(args, e))
  {
    FirstSteps(service, args);
    assert Apply(service, Registered(args), ReadHeaderFail(e)) == Some(MidWrite(args, e));
    hide Apply;
    Traced(service, [Create(args), Lock(0), Register, ReadHeaderFail(e)],
           [INIT, Called(args), Locking(args), Registered(args), MidWrite(args, e)]);
  }

  /** A call that is answered, but whose response body could not be read any more. */
  function Cut(args: Payload, reply: Payload, e: LocalError): State {
    State([Call(args, Returned, Some(0), Failed(e), 1)], 1, map[], false, false,
          Free, Stopping(e, Some(0)), [], [], [], [0], [Response(0, None, reply)])
  }

  function CutRun(args: Payload, reply: Payload, e: LocalError): seq<Step> {
    [Create(args), Lock(0), Register, Emit, WriteOk, ServerRead, ServerAnswer(0, None, reply),
     ReadHeader, Take, ReadBodyFail(e)]
  }

  /** The stream may end between the header and the body of a response. The call is signalled with the
      text "EOF", and afterwards, with no `Close`, termination changes that text under its receiver. */
  lemma FinishedCallCanChange(service: (Payload, Payload) -> bool, args: Payload, reply: Payload, e: LocalError)
    requires service(args, reply) && e.msg == EOF_TEXT
    ensures var steps := CutRun(args, reply, e);
            && Run(service, steps) == Some(Cut(args, reply, e))
            && Run(service, steps + [Terminate]).Some?
            && Run(service, steps + [Terminate]).value.calls
               == [Call(args, Returned, Some(0), Failed(e.(msg := UNEXPECTED_EOF_TEXT)), 1)]
  {
    var r, run := Response(0, None, reply), CutRun(args, reply, e);
    var written := Registered(args).(sender := Free, calls := [Call(args, Returned, Some(0), Unset, 0)],
        toServer := [Request(0, args)]);
    var answered := written.(toServer := [], toClient := [r], answers := [r]);
    FirstSteps(service, args);
    WriteSteps(service, args, written);
    ServerSteps(service, written, answered, args, reply);
    AnswerSteps(service, answered, args, reply, e);
    hide Apply;
    Traced(service, run, [INIT, Called(args), Locking(args), Registered(args),
                          Registered(args).(sender := Writing(0, 0, true), toServer := [Request(0, args)]),
                          written, written.(toServer := [], jobs := [Request(0, args)]), answered,
                          answered.(toClient := [], input := Header(r)),
                          answered.(toClient := [], input := Body(r, Some(0)), pending := map[]), Cut(args, reply, e)]);
    OneMore(service, run, Terminate);
    EndOfCut(service, args, reply, e);
  }

  lemma WriteSteps(service: (Payload, Payload) -> bool, args: Payload, written: State)
    requires written == Registered(args).(sender := Free, calls := [Call(args, Returned, Some(0), Unset, 0)],
               toServer := [Request(0, args)])
    ensures var st := Registered(args).(sender := Writing(0, 0, true), toServer := [Request(0, args)]);
            Apply(service, Registered(args), Emit) == Some(st) && Apply(service, st, WriteOk) == Some(written)
  {
    var st := Registered(args).(sender := Writing(0, 0, true), toServer := [Request(0, args)]);
    assert Registered(args).toServer + [Request(0, args)] == st.toServer;
    assert Apply(service, st, WriteOk).value.calls == written.calls;
  }

  lemma ServerSteps(service: (Payload, Payload) -> bool, st: State, answered: State, args: Payload, reply: Payload)
    requires st.toServer == [Request(0, args)] && st.jobs == [] && st.toClient == [] && st.answers == []
               && service(args, reply)
    requires answered == st.(toServer := [], toClient := [Response(0, None, reply)], answers := [Response(0, None,
               reply)])
    ensures var job := st.(toServer := [], jobs := [Request(0, args)]);
            && Apply(service, st, ServerRead) == Some(job)
            && Apply(service, job, ServerAnswer(0, None, reply)) == Some(answered)
  {
    var job := st.(toServer := [], jobs := [Request(0, args)]);
    assert st.jobs + [st.toServer[0]] == job.jobs;
    assert job.jobs[..0] + job.jobs[1..] == st.jobs;
    assert st.toClient + [Response(0, None, reply)] == answered.toClient;
  }

  lemma AnswerSteps(service: (Payload, Payload) -> bool, st: State, args: Payload, reply: Payload, e: LocalError)
    requires st == Cut(args, reply, e).(calls := [Call(args, Returned, Some(0), Unset, 0)], input := Reading,
                                        pending := map[0 := 0], toClient := [Response(0, None, reply)])
    ensures var r := Response(0, None, reply);
            var head := st.(toClient := [], input := Header(r));
            var body := head.(input := Body(r, Some(0)), pending := map[]);
            && Apply(service, st, ReadHeader) == Some(head) && Apply(service, head, Take) == Some(body)
            && Apply(service, body, ReadBodyFail(e)) == Some(Cut(args, reply, e))
  {
    var r := Response(0, None, reply);
    var head := st.(toClient := [], input := Header(r));
    var body := head.(input := Body(r, Some(0)), pending := map[]);
    assert st.toClient[1..] == [];
    assert head.pending - {0} == map[];
    assert Apply(service, body, ReadBodyFail(e)).value.calls == Cut(args, reply, e).calls;
  }

  lemma EndOfCut(service: (Payload, Payload) -> bool, args: Payload, reply: Payload, e: LocalError)
    requires e.msg == EOF_TEXT
    ensures var end := Apply(service, Cut(args, reply, e), Terminate);
            end.Some? && end.value.calls == [Call(args, Returned, Some(0), Failed(e.(msg := UNEXPECTED_EOF_TEXT)), 1)]
  {
  }

  lemma OneMore(service: (Payload, Payload) -> bool, before: seq<Step>, step: Step)
    requires Run(service, before).Some?
    ensures Run(service, before + [step]) == Apply(service, Run(service, before).value, step)
  {
    assert (before + [step])[..|before|] == before;
  }

  /** Why `input` takes `reqMutex` before it completes the pending calls: had it done so in that state,
      the failing write would have completed the same call again. */
  lemma WithoutReqMutex(args: Payload, e: LocalError)
    ensures var st := MidWrite(args, e);
            var unlocked := st.(calls := FinishAll(st.calls, st.pending, Failed(e)), sender := Abandoning(0, 0, e));
            && SenderStep(st, WriteFail(e)) == Some(st.(sender := Abandoning(0, 0, e)))
            && SenderStep(unlocked, Abandon) == Some(unlocked.(sender := Aborting(0, e), pending := map[]))
            && SenderStep(unlocked.(sender := Aborting(0, e), pending := map[]),
                SignalAborted).value.calls[0].signals == 2
  {
    var st := MidWrite(args, e);
    assert st.pending[0] == 0;
    assert 0 in st.pending.Values;
    assert st.pending - {0} == map[];
  }

  // ------------------------------------------------- the invoker object

  /** The fields `invoker.mutex` protects, with the sections that run under it. */
  class Invoker {
    var calls: seq<Call>
    var seqno: nat
    var pending: map<nat, nat>
    var closing: bool
    var shutdown: bool

    /** The machine's state with this object's fields in place. */
    ghost function In(st: State): State
      reads this
    {
      st.(calls := calls, seqno := seqno, pending := pending, closing := closing, shutdown := shutdown)
    }

    /** First section of `send`. */
    method Register(c: nat, ghost st: State) returns (s: Option<nat>)
      requires In(st) == st && st.sender == Locked(c) && c < |calls|
      modifies this
      ensures s.None? ==> SenderStep(st, Step.Refuse) == Some(In(st).(sender := Refused(c)))
      ensures s.Some? ==> SenderStep(st, Step.Register)
                          == Some(In(st).(sender := Writing(c, s.value, false), issued := st.issued + [c]))
    {
      if shutdown || closing {
        calls := calls[c := calls[c].(verdict := Failed(SHUTDOWN))];
        return None;
      }
      s := Some(seqno);
      calls := calls[c := calls[c].(ticket := s)];
      pending := pending[seqno := c];
      seqno := seqno + 1;
    }

    /** Second section of `send`, and the section of `input`. Whoever finds the call here is the only one
        who may complete it: it has not been signalled, and nobody will find it again. */
    method Remove(s: nat, ghost service: (Payload, Payload) -> bool, ghost st: State) returns (c: Option<nat>)
      requires In(st) == st && Inv(service, st)
      modifies this`pending
      ensures st.sender.Abandoning? && st.sender.s == s ==>
                SenderStep(st, Step.Abandon)
                == Some(if c.Some? then In(st).(sender := Aborting(c.value, st.sender.err))
                    else Return(In(st), st.sender.c))
      ensures st.input.Header? && st.input.resp.seqno == s ==>
                InputStep(st, Step.Take) == Some(In(st).(input := Body(st.input.resp, c)))
      ensures c.Some? ==> c.value < |calls| && calls[c.value].ticket == Some(s)
                          && (!shutdown ==> calls[c.value].signals == 0) && c.value !in pending.Values
    {
      c := if s in pending then Some(pending[s]) else None;
      pending := pending - {s};
      if c.Some? {
        PendingIsInjective(st);
        assert CallInv(service, st, c.value);
      } else {
        assert pending == st.pending;
      }
    }

    /** From here on no call is registered. */
    method Close(ghost service: (Payload, Payload) -> bool, ghost st: State) returns (ok: bool)
      requires In(st) == st
      modifies this`closing
      ensures OtherStep(service, st, Step.Close) == Some(In(st)) && ok == !st.closing
      ensures SenderStep(In(st), Step.Register).None?
    {
      ok := !closing;
      closing := true;
    }

    /** The end of `input`, under both mutexes; `holder` is the call whose error pointer is `err` too. */
    method Terminate(err: LocalError, holder: Option<nat>, ghost st: State)
      requires In(st) == st && TicketInv(st) && st.input == Stopping(err, holder) && st.sender == Free
      modifies this`shutdown, this`calls
      ensures InputStep(st, Step.Terminate) == Some(In(st).(input := Ended))
    {
      shutdown := true;
      var final := err;
      if err.msg == EOF_TEXT {
        if closing {
          final := SHUTDOWN;
        } else {
          final := err.(msg := UNEXPECTED_EOF_TEXT);
          if holder.Some? && holder.value < |calls| {
            calls := calls[holder.value := calls[holder.value].(verdict := Failed(final))];
          }
        }
      }
      FinishPending(Failed(final), calls, st);
    }

    method FinishPending(v: Verdict, ghost start: seq<Call>, ghost st: State)
      requires calls == start && |start| == |st.calls| && pending == st.pending && TicketInv(st)
      modifies this`calls
      ensures calls == FinishAll(start, st.pending, v)
    {
      hide FinishAll;
      var todo := pending.Keys;
      ghost var done: map<nat, nat> := map[];
      FinishNone(calls, v);
      while todo != {}
        invariant todo <= pending.Keys && done == map s | s in pending && s !in todo :: pending[s]
        invariant calls == FinishAll(start, done, v) && |calls| == |st.calls|
        decreases |todo|
      {
        var s :| s in todo;
        var c := pending[s];
        assert st.issued[s] < |st.calls|;
        assert c !in done.Values by {
          PendingIsInjective(st);
        }
        FinishOneMore(start, done, s, c, v);
        calls := calls[c := Finish(calls[c], v)];
        todo := todo - {s};
        done := done[s := c];
      }
      assert done == pending;
    }

    static lemma PendingIsInjective(st: State)
      requires TicketInv(st)
      ensures forall s, t :: s in st.pending && t in st.pending && st.pending[s] == st.pending[t] ==> s == t
    {
    }

    static lemma FinishNone(calls: seq<Call>, v: Verdict)
      ensures FinishAll(calls, map[], v) == calls
    {
    }

    static lemma FinishOneMore(calls: seq<Call>, done: map<nat, nat>, s: nat, c: nat, v: Verdict)
      requires c < |calls| && s !in done && c !in done.Values
      ensures var before := FinishAll(calls, done, v);
              FinishAll(calls, done[s := c], v) == before[c := Finish(before[c], v)]
    {
      var more := done[s := c];
      assert more[s] == c;
      forall x ensures x in more.Values <==> x == c || x in done.Values {
        if x in done.Values {
          var t :| t in done && done[t] == x;
          assert more[t] == x;
        }
      }
    }
  }
}
