/**
 A JSON-RPC 2.0 batch (section 6 of the JSON-RPC 2.0 Specification): the producer that feeds the
 entries to an inner server, and the consumer that collects what comes back.
 */
module JsonRpcBatch {
  import opened Common
  import opened JsonRpcServer

  /** What the producer pushes to `replyc` for an entry: a ready-made error, or a note that one more
      response will come from the inner server. */
  datatype Token = Ready | Awaited

  function TokensOf(e: Json): seq<Token> {
    match Unmarshal(e)
    case None => [Ready]
    case Some(r) => if r.id.Some? then [Awaited] else []
  }

  function Tokens(entries: seq<Json>): seq<Token> {
    if entries == [] then [] else Tokens(entries[..|entries| - 1]) + TokensOf(entries[|entries| - 1])
  }

  /** The id a reply to this entry must carry, if there is to be one. */
  function WantedId(e: Json): seq<Json> {
    match Unmarshal(e)
    case None => [Null]
    case Some(r) => if r.id.Some? then [r.id.value] else []
  }

  /** Section 6: one response per entry that is invalid or has an id, none for a notification. */
  function WantedIds(entries: seq<Json>): seq<Json> {
    if entries == [] then [] else WantedIds(entries[..|entries| - 1]) + WantedId(entries[|entries| - 1])
  }

  /** The ids of the entries that the inner server answers. */
  function InnerIds(entries: seq<Json>): seq<Json> {
    if entries == [] then []
    else
      var e := entries[|entries| - 1];
      InnerIds(entries[..|entries| - 1]) + if Unmarshal(e).Some? then WantedId(e) else []
  }

  predicate AllSingle(ms: seq<Message>) {
    forall k :: 0 <= k < |ms| ==> ms[k].Single?
  }

  /** The id of a message; a list has none. */
  function IdIn(m: Message): Json {
    if m.Single? then m.id else Null
  }

  function Ids(ms: seq<Message>): (r: seq<Json>)
    ensures |r| == |ms|
  {
    Map(IdIn, ms)
  }

  function CountAwaited(tokens: seq<Token>): nat {
    if tokens == [] then 0
    else CountAwaited(tokens[..|tokens| - 1]) + if tokens[|tokens| - 1].Awaited? then 1 else 0
  }

  lemma {:induction false} CountAwaitedPrefix(tokens: seq<Token>, k: nat)
    requires k <= |tokens|
    ensures CountAwaited(tokens[..k]) <= CountAwaited(tokens)
    ensures k < |tokens| && tokens[k].Awaited? ==> CountAwaited(tokens[..k]) < CountAwaited(tokens)
  {
    if k < |tokens| {
      var n := |tokens| - 1;
      assert tokens[..n][..k] == tokens[..k];
      CountAwaitedPrefix(tokens[..n], k);
    } else {
      assert tokens[..k] == tokens;
    }
  }

  lemma {:induction false} TokenCounts(entries: seq<Json>)
    ensures |Tokens(entries)| == |WantedIds(entries)| <= |entries|
    ensures CountAwaited(Tokens(entries)) == |InnerIds(entries)| <= |Tokens(entries)|
  {
    hide Unmarshal;
    if entries != [] {
      var before, e := entries[..|entries| - 1], entries[|entries| - 1];
      TokenCounts(before);
      var t := Tokens(before);
      if TokensOf(e) != [] {
        assert (t + TokensOf(e))[..|t|] == t;
      } else {
        assert t + TokensOf(e) == t;
      }
    }
  }

  lemma {:induction false} TokensCollect(entries: seq<Json>)
    ensures |InnerIds(entries)| <= |Tokens(entries)|
    ensures Collected(WantedIds(entries), InnerIds(entries), Null, |Tokens(entries)| - |InnerIds(entries)|)
  {
    hide Unmarshal;
    hide CountAwaited;
    hide Collected;
    TokenCounts(entries);
    if entries == [] {
      CollectNone(Null);
    } else {
      var before, e := entries[..|entries| - 1], entries[|entries| - 1];
      TokensCollect(before);
      OneEntry(e, WantedIds(before), InnerIds(before), |Tokens(before)| - |InnerIds(before)|);
    }
  }

  lemma OneEntry(e: Json, wanted: seq<Json>, inner: seq<Json>, n: nat)
    requires Collected(wanted, inner, Null, n)
    ensures var ids := if Unmarshal(e).Some? then WantedId(e) else [];
            && |TokensOf(e)| >= |ids|
            && Collected(wanted + WantedId(e), inner + ids, Null, n + |TokensOf(e)| - |ids|)
  {
    hide Unmarshal;
    hide Collected;
    match Unmarshal(e)
    case None =>
      CollectCopy(wanted, inner, Null, n);
      assert inner + [] == inner;
    case Some(r) =>
      if r.id.Some? {
        CollectNext(wanted, inner, Null, n, r.id.value);
      } else {
        assert wanted + [] == wanted && inner + [] == inner;
      }
  }

  /** Every token is one wanted id; the awaited ones are those the inner server owes. */
  lemma {:induction false} TokensMatchIds(entries: seq<Json>)
    ensures |Tokens(entries)| == |WantedIds(entries)| <= |entries|
    ensures CountAwaited(Tokens(entries)) == |InnerIds(entries)| <= |Tokens(entries)|
    ensures multiset(WantedIds(entries)) == multiset(InnerIds(entries)) + Nulls(|Tokens(entries)| - |InnerIds(entries)|)
  {
    hide WantedIds;
    hide InnerIds;
    hide Tokens;
    hide CountAwaited;
    hide Copies;
    TokenCounts(entries);
    TokensCollect(entries);
  }

  lemma IdsAppend(ms: seq<Message>, m: Message)
    requires AllSingle(ms) && m.Single?
    ensures AllSingle(ms + [m]) && Ids(ms + [m]) == Ids(ms) + [m.id]
  {
  }

  function Nulls(n: nat): multiset<Json> {
    Copies(Null, n)
  }

  /** `n` times the ready-made error. */
  function Errors(n: nat): multiset<Message> {
    Copies(INVALID_REQUEST, n)
  }

  function Min(a: nat, b: nat): nat {
    if a < b then a else b
  }

  /** The requests the inner server gets. */
  function Valid(entries: seq<Json>): seq<Request> {
    if entries == [] then []
    else
      var u := Unmarshal(entries[|entries| - 1]);
      Valid(entries[..|entries| - 1]) + if u.Some? then [u.value] else []
  }

  lemma {:induction false} ValidIds(entries: seq<Json>)
    ensures Total(IdOf, Valid(entries)) == multiset(InnerIds(entries))
  {
    hide Unmarshal;
    if entries != [] {
      var before := entries[..|entries| - 1];
      ValidIds(before);
      var u := Unmarshal(entries[|entries| - 1]);
      if u.Some? {
        assert (Valid(before) + [u.value])[..|Valid(before)|] == Valid(before);
      } else {
        assert Valid(before) + [] == Valid(before);
      }
    }
  }

  /** The pushing loop. The channel has room for one token per entry, so no push ever waits. */
  method Produce(entries: seq<Json>) returns (tokens: seq<Token>)
    ensures tokens == Tokens(entries) && |tokens| <= |entries|
  {
    tokens := [];
    var k := 0;
    while k < |entries|
      invariant 0 <= k <= |entries| && tokens == Tokens(entries[..k]) && |tokens| <= k
    {
      assert entries[..k + 1][..k] == entries[..k];
      var u := Unmarshal(entries[k]);
      if u.None? {
        tokens := tokens + [Ready];
      } else if u.value.id.Some? {
        tokens := tokens + [Awaited];
      }
      k := k + 1;
    }
    assert entries[..k] == entries;
  }

  /** The collecting loop: an awaited reply is the next message the inner server sends, or an error when
      there will be none. */
  method Consume(tokens: seq<Token>, arrivals: seq<Message>, ended: bool) returns (replies: Option<seq<Message>>)
    ensures replies.None? <==> !ended && |arrivals| < CountAwaited(tokens)
    ensures replies.Some? ==>
              var taken := Min(|arrivals|, CountAwaited(tokens));
              && taken <= |tokens| == |replies.value|
              && multiset(replies.value) == multiset(arrivals[..taken]) + Errors(|tokens| - taken)
  {
    var out: seq<Message> := [];
    var k, next := 0, 0;
    ghost var awaited := 0;
    CollectNone(INVALID_REQUEST);
    hide Collected;
    while k < |tokens|
      invariant 0 <= k <= |tokens| && |out| == k && awaited == CountAwaited(tokens[..k]) <= k
      invariant next == Min(|arrivals|, awaited) && (!ended ==> awaited <= |arrivals|)
      invariant Collected(out, arrivals[..next], INVALID_REQUEST, k - next)
    {
      assert tokens[..k + 1][..k] == tokens[..k];
      CountAwaitedPrefix(tokens, k);
      ghost var taken := arrivals[..next];
      if tokens[k].Ready? {
        CollectCopy(out, taken, INVALID_REQUEST, k - next);
        out := out + [INVALID_REQUEST];
      } else {
        awaited := awaited + 1;
        if next < |arrivals| {
          assert arrivals[..next + 1] == taken + [arrivals[next]];
          CollectNext(out, taken, INVALID_REQUEST, k - next, arrivals[next]);
          out := out + [arrivals[next]];
          next := next + 1;
        } else if ended {
          CollectCopy(out, taken, INVALID_REQUEST, k - next);
          out := out + [INVALID_REQUEST];
        } else {
          return None;
        }
      }
      k := k + 1;
    }
    assert tokens[..k] == tokens;
    CollectedMeans(out, arrivals[..next], k - next);
    replies := Some(out);
  }

  lemma CollectedMeans(out: seq<Message>, taken: seq<Message>, n: nat)
    requires Collected(out, taken, INVALID_REQUEST, n)
    ensures multiset(out) == multiset(taken) + Errors(n)
  {
  }

  /** What the connection gets for a batch: an empty array is an invalid request, a batch of valid
      notifications gets nothing at all, every other batch one list. */
  function Sent(entries: seq<Json>, replies: seq<Message>): Option<Message> {
    if entries == [] then Outgoing(Some(Null), BATCH, Some("Invalid request"), Plain(Null))
    else Outgoing(Some(Null), BATCH, None, Replies(replies))
  }

  lemma BatchSilentIff(entries: seq<Json>, replies: seq<Message>)
    requires |replies| == |WantedIds(entries)|
    ensures Sent(entries, replies).None?
            <==> entries != [] && forall k :: 0 <= k < |entries| ==>
                IsRequestObject(entries[k]) && "id" !in entries[k].fields
    ensures entries == [] ==> Sent(entries, replies) == Some(Single(Null, Some("Invalid request"), None))
    ensures entries != [] && replies != [] ==> Sent(entries, replies) == Some(Many(replies))
  {
    WantedNone(entries);
  }

  lemma {:induction false} WantedNone(entries: seq<Json>)
    ensures WantedIds(entries) == []
            <==> forall k :: 0 <= k < |entries| ==> IsRequestObject(entries[k]) && "id" !in entries[k].fields
  {
    if entries != [] {
      var n := |entries| - 1;
      WantedNone(entries[..n]);
      AcceptsExactlyRequestObjects(entries[n]);
      assert forall k :: 0 <= k < n ==> entries[..n][k] == entries[k];
    }
  }

  // ---------------------------------------------------------------- what the inner server sends

  /** A call of the batch method without params brings the whole process down: its body is never looked
      at, so that it is served by a server that does not exist. */
  predicate BringsDown(r: Request) {
    r.method_ == BATCH && r.params.None?
  }

  /** The entries of which a call of the batch method makes its reply list, if it gets that far. An empty
      array or an object is refused while the body is read. */
  function ListOf(r: Request): Option<seq<Json>> {
    if r.method_ == BATCH && r.params.Some? && r.params.value.Arr? && r.params.value.items != []
    then Some(r.params.value.items) else None
  }

  /** What the server hands to `WriteResponse` for a request: the batch method's own result for a call of
      it, an error if its params were refused, and anything at all for other methods. */
  predicate HandsBack(r: Request, error: Option<string>, reply: Reply) {
    && !BringsDown(r)
    && match ListOf(r)
       case Some(entries) => error.None? && reply.Replies? && |reply.items| == |WantedIds(entries)|
       case None => r.method_ == BATCH ==> error.Some? && reply.Plain?
  }

  /** The response to this request is a message. */
  predicate Sends(r: Request) {
    match ListOf(r)
    case Some(entries) => WantedIds(entries) != []
    case None => r.id.Some?
  }

  lemma SendsIff(r: Request, error: Option<string>, reply: Reply)
    requires HandsBack(r, error, reply)
    ensures Outgoing(r.id, r.method_, error, reply).Some? <==> Sends(r)
  {
    hide WantedIds;
  }

  /** A valid notification. */
  ghost predicate Silent(e: Json) {
    IsRequestObject(e) && "id" !in e.fields
  }

  /** A notification is answered exactly when it calls the batch method by name, with an array that holds
      something other than a valid notification. */
  lemma NotificationAnsweredIff(r: Request, error: Option<string>, reply: Reply)
    requires r.id.None? && HandsBack(r, error, reply)
    ensures Outgoing(r.id, r.method_, error, reply).Some?
            <==> r.method_ == BATCH && r.params.Some? && r.params.value.Arr?
                 && exists k :: 0 <= k < |r.params.value.items| && !Silent(r.params.value.items[k])
  {
    SendsIff(r, error, reply);
    match ListOf(r)
    case Some(entries) => WantedNone(entries);
    case None =>
  }

  function BatchCall(entries: seq<Json>): map<string, Json> {
    map["jsonrpc" := Str("2.0"), "method" := Str(BATCH), "params" := Arr(entries)]
  }

  /** Every response written in the run is one that the server hands back for its request. */
  ghost predicate Honest(steps: seq<Step>) {
    forall k :: 0 <= k < |steps| ==> HonestStep(Run(steps[..k]), steps[k])
  }

  ghost predicate HonestStep(st: State, step: Step) {
    Enabled(st, step) ==> HandsBack(st.requests[step.s - 1], step.error, step.reply)
  }

  lemma HonestPrefix(steps: seq<Step>)
    requires Honest(steps) && steps != []
    ensures Honest(steps[..|steps| - 1]) && HonestStep(Run(steps[..|steps| - 1]), steps[|steps| - 1])
  {
    hide Run;
    var before := steps[..|steps| - 1];
    forall k | 0 <= k < |before| ensures HonestStep(Run(before[..k]), before[k]) {
      assert before[..k] == steps[..k];
    }
  }

  /** How many messages answer request number `s`. */
  function SentFor(sent: seq<(nat, Message)>, s: nat): nat {
    if sent == [] then 0
    else SentFor(sent[..|sent| - 1], s) + if sent[|sent| - 1].0 == s then 1 else 0
  }

  lemma SentForAppend(sent: seq<(nat, Message)>, m: (nat, Message), s: nat)
    ensures SentFor(sent + [m], s) == SentFor(sent, s) + if m.0 == s then 1 else 0
  {
    assert (sent + [m])[..|sent|] == sent;
  }

  lemma {:induction false} SentForNone(sent: seq<(nat, Message)>, s: nat)
    requires forall k :: 0 <= k < |sent| ==> sent[k].0 != s
    ensures SentFor(sent, s) == 0
  {
    if sent != [] {
      SentForNone(sent[..|sent| - 1], s);
    }
  }

  lemma StepSentFor(st: State, step: Step, s: nat)
    requires Inv(st) && HonestStep(st, step) && s >= 1
    ensures SentFor(Apply(st, step).sent, s)
            == SentFor(st.sent, s) + if Enabled(st, step) && step.s == s && Sends(st.requests[s - 1]) then 1 else 0
  {
    StepSends(st, step);
    hide Apply;
    hide Unmarshal;
    hide Sends;
    if Enabled(st, step) {
      SendsIff(st.requests[step.s - 1], step.error, step.reply);
    }
    hide HandsBack;
    hide Outgoing;
    match Sending(st, step)
    case None => assert st.sent + [] == st.sent;
    case Some(m) => SentForAppend(st.sent, m, s);
  }

  /** What a step does to one request. */
  lemma StepPending(st: State, step: Step, s: nat)
    requires Inv(st) && 1 <= s <= |Apply(st, step).requests|
    ensures var st' := Apply(st, step);
            if s <= |st.requests|
            then st'.requests[s - 1] == st.requests[s - 1]
                 && (s in st'.codec.pending <==> s in st.codec.pending && !(Enabled(st, step) && step.s == s))
            else s in st'.codec.pending && !Enabled(st, step)
  {
    hide Unmarshal;
    hide Outgoing;
  }

  lemma SentForFuture(st: State, s: nat)
    requires Inv(st) && s > |st.requests|
    ensures SentFor(st.sent, s) == 0
  {
    SentForNone(st.sent, s);
  }

  /** In every run a request is answered by one message if it is one that sends and has been answered,
      and by none otherwise. */
  lemma {:induction false} SentForEach(steps: seq<Step>, s: nat)
    requires Honest(steps) && 1 <= s <= |Run(steps).requests|
    ensures SentFor(Run(steps).sent, s)
            == if s !in Run(steps).codec.pending && Sends(Run(steps).requests[s - 1]) then 1 else 0
  {
    var before, last := steps[..|steps| - 1], steps[|steps| - 1];
    var st := Run(before);
    assert Run(steps) == Apply(st, last);
    HonestPrefix(steps);
    RunKeepsInv(before);
    StepSentFor(st, last, s);
    StepPending(st, last, s);
    hide Sends;
    hide HonestStep;
    hide Honest;
    hide Run;
    hide Apply;
    if s <= |st.requests| {
      SentForEach(before, s);
    } else {
      SentForFuture(st, s);
    }
  }

  /** In every run a notification that has been answered got a message exactly on that condition. */
  lemma NotificationAnsweredInRun(steps: seq<Step>, s: nat)
    requires Honest(steps) && 1 <= s <= |Run(steps).requests| && s !in Run(steps).codec.pending
    requires Run(steps).requests[s - 1].id.None?
    ensures var r := Run(steps).requests[s - 1];
            SentFor(Run(steps).sent, s) == 1
            <==> r.method_ == BATCH && r.params.Some? && r.params.value.Arr?
                 && exists k :: 0 <= k < |r.params.value.items| && !Silent(r.params.value.items[k])
  {
    var r := Run(steps).requests[s - 1];
    SentForEach(steps, s);
    match ListOf(r)
    case Some(entries) => WantedNone(entries);
    case None =>
  }

  lemma BatchNoteIs()
    ensures var r := Request(BATCH, Some(Arr([Null])), None);
            Unmarshal(Obj(BatchCall([Null]))) == Some(r) && Sends(r)
  {
    hide Unmarshal;
    AcceptsExactlyRequestObjects(Obj(BatchCall([Null])));
    OneWanted();
    hide WantedIds;
  }

  lemma OneWanted()
    ensures WantedIds([Null]) == [Null]
  {
    assert Unmarshal(Null) == None;
    assert WantedIds([Null][..0]) == [];
  }

  /** Such a run: an id-less call of the batch method, with one entry that is no request, is answered. */
  lemma NotificationCanBeAnswered()
    ensures var steps := [Read(Value(Obj(BatchCall([Null])))), Write(1, None, Replies([INVALID_REQUEST]))];
            && Honest(steps) && Run(steps).requests == [Request(BATCH, Some(Arr([Null])), None)]
            && Run(steps).sent == [(1, Many([INVALID_REQUEST]))]
  {
    hide Unmarshal;
    hide Honest;
    hide Run;
    BatchNoteIs();
    var r := Request(BATCH, Some(Arr([Null])), None);
    OneWanted();
    hide WantedIds;
    TwoSteps(Obj(BatchCall([Null])), r, Replies([INVALID_REQUEST]));
  }

  /** A run that reads one object and writes its response. */
  lemma TwoSteps(raw: Json, r: Request, reply: Reply)
    requires raw.Obj? && Unmarshal(raw) == Some(r) && HandsBack(r, None, reply)
    ensures var steps := [Read(Value(raw)), Write(1, None, reply)];
            && Honest(steps) && Run(steps).requests == [r] && Run(steps).codec.pending == map[]
            && Run(steps).sent == match Outgoing(r.id, r.method_, None, reply) case None => [] case Some(m) => [(1, m)]
  {
    var steps := [Read(Value(raw)), Write(1, None, reply)];
    var one := State(Codec(1, map[1 := r.id]), [r], []);
    assert steps[..1] == [steps[0]] && steps[..1][..0] == [];
    assert Run(steps[..1]) == one by {
      assert Run([]) == INIT;
      assert Apply(INIT, steps[0]) == one;
    }
    assert one.codec.pending - {1} == map[];
    hide HandsBack;
    forall k | 0 <= k < |steps| ensures HonestStep(Run(steps[..k]), steps[k]) {
      assert k == 0 || k == 1;
    }
  }

  // ---------------------------------------------------------------- from the inner server to the batch

  /** A call of the batch method by name has an id if and only if its own entries want replies. */
  predicate Matches(r: Request) {
    ListOf(r).Some? ==> (r.id.Some? <==> WantedIds(ListOf(r).value) != [])
  }

  lemma MatchesIff(r: Request)
    ensures Matches(r) <==> (r.id.Some? <==> Sends(r))
  {
    hide WantedIds;
  }

  /** The inner server sends one message for each entry that the batch waits for, and none for the others,
      exactly when each valid entry that calls the batch method by name has an id if and only if its own
      entries want replies. */
  lemma InnerSendsAwaitedIff(entries: seq<Json>, steps: seq<Step>)
    requires Run(steps).requests == Valid(entries) && Run(steps).codec.pending == map[] && Honest(steps)
    ensures (forall k :: 0 <= k < |Valid(entries)| ==>
               SentFor(Run(steps).sent, k + 1) == if Valid(entries)[k].id.Some? then 1 else 0)
            <==> (forall k :: 0 <= k < |Valid(entries)| ==> Matches(Valid(entries)[k]))
  {
    hide Matches;
    hide Sends;
    hide Run;
    hide Honest;
    hide Valid;
    var rs, sent := Valid(entries), Run(steps).sent;
    forall k | 0 <= k < |rs|
      ensures Matches(rs[k]) <==> SentFor(sent, k + 1) == if rs[k].id.Some? then 1 else 0
    {
      SentForEach(steps, k + 1);
      MatchesIff(rs[k]);
    }
  }

  function Mark(r: Request): multiset<Json> {
    if Sends(r) then multiset{Null} else multiset{}
  }

  /** How many of the requests are answered by a message. */
  function CountSends(rs: seq<Request>): nat {
    |Total(Mark, rs)|
  }

  /** The messages of a run, refusals included. */
  function Messages(sent: seq<(nat, Message)>): (r: seq<Message>)
    ensures |r| == |sent|
  {
    if sent == [] then [] else Messages(sent[..|sent| - 1]) + [sent[|sent| - 1].1]
  }

  lemma MessagesAppend(sent: seq<(nat, Message)>, m: (nat, Message))
    ensures Messages(sent + [m]) == Messages(sent) + [m.1]
  {
    assert (sent + [m])[..|sent|] == sent;
  }

  /** The run has read exactly the valid entries, in order. */
  ghost predicate Feeds(entries: seq<Json>, steps: seq<Step>) {
    Reads(steps) == Inputs(entries)
  }

  function Reads(steps: seq<Step>): seq<Input> {
    if steps == [] then []
    else
      var last := steps[|steps| - 1];
      Reads(steps[..|steps| - 1]) + if last.Read? then [last.i] else []
  }

  function Inputs(entries: seq<Json>): seq<Input> {
    if entries == [] then []
    else
      var e := entries[|entries| - 1];
      Inputs(entries[..|entries| - 1]) + if Unmarshal(e).Some? then [Value(e)] else []
  }

  function Requests(inputs: seq<Input>): seq<Request> {
    if inputs == [] then []
    else
      var a := Accept(inputs[|inputs| - 1]);
      Requests(inputs[..|inputs| - 1]) + if a.Taken? then [a.request] else []
  }

  ghost predicate AllTaken(inputs: seq<Input>) {
    forall k :: 0 <= k < |inputs| ==> Accept(inputs[k]).Taken?
  }

  lemma RequestsAppend(inputs: seq<Input>, i: Input)
    ensures Requests(inputs + [i]) == Requests(inputs) + if Accept(i).Taken? then [Accept(i).request] else []
  {
    hide Accept;
    assert (inputs + [i])[..|inputs|] == inputs;
  }

  lemma {:induction false} InputsAccepted(entries: seq<Json>)
    ensures Requests(Inputs(entries)) == Valid(entries) && AllTaken(Inputs(entries))
  {
    hide Unmarshal;
    if entries != [] {
      var before, e := entries[..|entries| - 1], entries[|entries| - 1];
      InputsAccepted(before);
      if Unmarshal(e).Some? {
        ValidIsObject(e);
        RequestsAppend(Inputs(before), Value(e));
      } else {
        assert Inputs(before) + [] == Inputs(before) && Valid(before) + [] == Valid(before);
      }
    }
  }

  lemma ValidIsObject(e: Json)
    requires Unmarshal(e).Some?
    ensures Accept(Value(e)) == Taken(Unmarshal(e).value)
  {
  }

  /** What a run has taken in is what its reads accept, and it refuses nothing if they all are. */
  lemma {:induction false} RunTakes(steps: seq<Step>)
    ensures Run(steps).requests == Requests(Reads(steps))
    ensures AllTaken(Reads(steps)) ==> forall k :: 0 <= k < |Run(steps).sent| ==> Run(steps).sent[k].0 != 0
  {
    hide Accept;
    hide Outgoing;
    if steps != [] {
      var before, last := steps[..|steps| - 1], steps[|steps| - 1];
      RunTakes(before);
      if last.Read? {
        RequestsAppend(Reads(before), last.i);
        if AllTaken(Reads(steps)) {
          assert Reads(steps)[|Reads(before)|] == last.i;
          assert AllTaken(Reads(before)) by {
            forall k | 0 <= k < |Reads(before)| ensures Accept(Reads(before)[k]).Taken? {
              assert Reads(steps)[k] == Reads(before)[k];
            }
          }
        }
      } else {
        assert Reads(before) + [] == Reads(before);
      }
    }
  }

  /** In every run without refusals, the messages sent and those still owed are those the requests make. */
  lemma {:induction false} MessageCount(steps: seq<Step>)
    requires Honest(steps) && AllTaken(Reads(steps))
    ensures var st := Run(steps);
            |st.sent| + |Owed(Mark, st.requests, st.codec.pending, |st.requests|)| == |Total(Mark, st.requests)|
  {
    if steps != [] {
      var before, last := steps[..|steps| - 1], steps[|steps| - 1];
      var st := Run(before);
      HonestPrefix(steps);
      TakenPrefix(steps);
      MessageCount(before);
      RunKeepsInv(before);
      StepOwes(Mark, st, last);
      StepMessages(st, last);
      hide Apply;
      hide Inv;
      hide Owed;
      hide Total;
      hide Honest;
      var st' := Run(steps);
      assert |Owed(Mark, st'.requests, st'.codec.pending, |st'.requests|) + Loss(Mark, st, last)|
             == |Owed(Mark, st.requests, st.codec.pending, |st.requests|) + Gain(Mark, last)|;
    }
  }

  lemma TakenPrefix(steps: seq<Step>)
    requires AllTaken(Reads(steps)) && steps != []
    ensures AllTaken(Reads(steps[..|steps| - 1]))
    ensures var last := steps[|steps| - 1]; last.Read? ==> Accept(last.i).Taken?
  {
    hide Accept;
    var before, last := steps[..|steps| - 1], steps[|steps| - 1];
    var a, b := Reads(before), Reads(steps);
    assert last.Read? ==> b[|a|] == last.i;
    forall k | 0 <= k < |a| ensures Accept(a[k]).Taken? {
      assert b[k] == a[k];
    }
  }

  lemma StepMessages(st: State, step: Step)
    requires Inv(st) && HonestStep(st, step) && (step.Read? ==> Accept(step.i).Taken?)
    ensures |Apply(st, step).sent| == |st.sent| + |Loss(Mark, st, step)|
  {
    StepSends(st, step);
    hide Apply;
    hide Accept;
    if Enabled(st, step) {
      SendsIff(st.requests[step.s - 1], step.error, step.reply);
    }
    hide Sends;
    hide HandsBack;
    hide Outgoing;
  }

  /** The answer to this entry is a message with its id if it has one, and none if it has not. */
  predicate Ordinary(r: Request) {
    match ListOf(r)
    case Some(entries) => r.id.None? && WantedIds(entries) == []
    case None => true
  }

  /** Exactly the ordinary requests are answered as section 5 of the JSON-RPC 2.0 Specification asks. */
  lemma OrdinaryIff(r: Request, error: Option<string>, reply: Reply)
    requires HandsBack(r, error, reply)
    ensures var out := Outgoing(r.id, r.method_, error, reply);
            Ordinary(r) <==> if r.id.Some? then out.Some? && out.value.Single?
                && out.value.id == r.id.value else out.None?
  {
    hide WantedIds;
  }

  ghost predicate AllOrdinary(rs: seq<Request>) {
    forall k :: 0 <= k < |rs| ==> Ordinary(rs[k])
  }

  /** A run over ordinary requests lists no id and sends no list. */
  lemma {:induction false} OrdinaryRun(steps: seq<Step>)
    requires Honest(steps) && AllOrdinary(Run(steps).requests)
    ensures ListedIds(steps) == multiset{}
    ensures forall k :: 0 <= k < |Run(steps).sent| ==> Run(steps).sent[k].1.Single?
  {
    if steps != [] {
      var before, last := steps[..|steps| - 1], steps[|steps| - 1];
      var st := Run(before);
      HonestPrefix(steps);
      assert st.requests <= Run(steps).requests by {
        hide Unmarshal;
        hide Outgoing;
      }
      assert AllOrdinary(st.requests);
      OrdinaryRun(before);
      RunKeepsInv(before);
      OrdinaryStep(st, last);
      StepSends(st, last);
      hide Apply;
      hide Sending;
      hide Honest;
      hide Inv;
    }
  }

  lemma OrdinaryStep(st: State, step: Step)
    requires Inv(st) && HonestStep(st, step) && AllOrdinary(st.requests)
    ensures ByList(st, step) ==> IdOf(st.requests[step.s - 1]) == multiset{}
    ensures Sending(st, step).Some? ==> Sending(st, step).value.1.Single?
  {
    hide Unmarshal;
    if Enabled(st, step) {
      var r := st.requests[step.s - 1];
      assert Ordinary(r);
      OrdinaryIff(r, step.error, step.reply);
      hide Outgoing;
      hide WantedIds;
    }
  }

  lemma {:induction false} SentIdsAreIds(sent: seq<(nat, Message)>)
    requires forall k :: 0 <= k < |sent| ==> sent[k].0 != 0 && sent[k].1.Single?
    ensures AllSingle(Messages(sent)) && multiset(Ids(Messages(sent))) == SentIds(sent)
  {
    if sent != [] {
      var before := sent[..|sent| - 1];
      SentIdsAreIds(before);
      IdsAppend(Messages(before), sent[|sent| - 1].1);
    }
  }

  lemma SinglePermute(a: seq<Message>, b: seq<Message>)
    requires AllSingle(a) && multiset(a) == multiset(b)
    ensures AllSingle(b) && |a| == |b|
  {
    forall k | 0 <= k < |b| ensures b[k].Single? {
      assert b[k] in multiset(b);
    }
    assert |b| == |multiset(b)| == |a|;
  }

  /** The same messages in another order carry the same ids. */
  lemma IdsPermute(a: seq<Message>, b: seq<Message>)
    requires AllSingle(a) && multiset(a) == multiset(b)
    ensures AllSingle(b) && multiset(Ids(a)) == multiset(Ids(b))
  {
    SinglePermute(a, b);
    MapPermute(IdIn, a, b);
  }

  lemma {:induction false} IdsWithErrors(ms: seq<Message>, n: nat) returns (all: seq<Message>)
    requires AllSingle(ms)
    ensures AllSingle(all) && multiset(all) == multiset(ms) + Errors(n)
    ensures multiset(Ids(all)) == multiset(Ids(ms)) + Nulls(n)
  {
    all := ms;
    if n > 0 {
      var before := IdsWithErrors(ms, n - 1);
      IdsAppend(before, INVALID_REQUEST);
      all := before + [INVALID_REQUEST];
    }
  }

  lemma AllDelivered(entries: seq<Json>, steps: seq<Step>)
    requires Feeds(entries, steps) && Honest(steps) && Run(steps).codec.pending == map[]
    ensures Run(steps).requests == Valid(entries) && |Messages(Run(steps).sent)| == CountSends(Valid(entries))
    ensures forall k :: 0 <= k < |Run(steps).sent| ==> Run(steps).sent[k].0 != 0
  {
    hide Run;
    hide Valid;
    InputsAccepted(entries);
    RunTakes(steps);
    MessageCount(steps);
    OwedNothing(Mark, Valid(entries), |Valid(entries)|);
  }

  /** Ordinary entries: the messages and the ready-made errors carry exactly the wanted ids. */
  lemma OrdinaryReplies(entries: seq<Json>, arrivals: seq<Message>, replies: seq<Message>)
    requires AllSingle(arrivals) && multiset(Ids(arrivals)) == multiset(InnerIds(entries))
    requires |arrivals| == |InnerIds(entries)| <= |WantedIds(entries)|
    requires Collected(replies, arrivals, INVALID_REQUEST, |WantedIds(entries)| - |arrivals|)
    ensures AllSingle(replies) && multiset(Ids(replies)) == multiset(WantedIds(entries))
  {
    hide WantedIds;
    hide InnerIds;
    TokensMatchIds(entries);
    var all := IdsWithErrors(arrivals, |WantedIds(entries)| - |arrivals|);
    IdsPermute(all, replies);
  }

  /** A batch that never ends: its one entry calls the batch method by name, with an id and with nothing
      but a notification. The inner server answers it, by sending nothing; the batch waits. */
  lemma BatchCanWaitForEver(note: Json)
    requires Silent(note)
    ensures var e := Obj(BatchCall([note])["id" := Number("1")]);
            var steps := [Read(Value(e)), Write(1, None, Replies([]))];
            && Feeds([e], steps) && Honest(steps) && Run(steps).codec.pending == map[] && Run(steps).sent == []
            && InnerIds([e]) == [Number("1")] && Tokens([e]) == [Awaited]
            && CountSends(Valid([e])) < |InnerIds([e])|
  {
    var e := Obj(BatchCall([note])["id" := Number("1")]);
    var r := Request(BATCH, Some(Arr([note])), Some(Number("1")));
    var steps := [Read(Value(e)), Write(1, None, Replies([]))];
    AcceptsExactlyRequestObjects(e);
    assert Unmarshal(e) == Some(r);
    WantedNone([note]);
    TwoSteps(e, r, Replies([]));
    assert [e][..0] == [] && steps[..1] == [steps[0]] && steps[..1][..0] == [];
    hide Unmarshal;
    assert Reads(steps[..1]) == [Value(e)] && Reads(steps) == [Value(e)] + [];
    assert Inputs([e]) == [] + [Value(e)];
    assert InnerIds([e]) == [] + [Number("1")];
    AllDelivered([e], steps);
  }
}
