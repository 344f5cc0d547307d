/**
 The JSON-RPC 2.0 server codec: which messages are requests, how their ids are traded for internal
 sequence numbers, which responses go out, and how a batch is put together.
 */
module JsonRpcServer {
  import opened Common

  datatype Json =
    | Null
    | Bool(b: bool)
    | Number(text: string)
    | Str(s: string)
    | Arr(items: seq<Json>)
    | Obj(fields: map<string, Json>)

  const BATCH := "JSONMyrpc.Batch"

  // ---------------------------------------------------------------- requests

  /** A `serverRequest` after decoding: an absent id makes a notification. */
  datatype Request = Request(method_: string, params: Option<Json>, id: Option<Json>)

  /** Decoding a member into a Go string: null leaves it empty, anything else is an error. */
  function AsString(o: map<string, Json>, key: string): Option<string> {
    if key !in o || o[key].Null? then Some("")
    else if o[key].Str? then Some(o[key].s)
    else None
  }

  /** `serverRequest.UnmarshalJSON`. */
  function Unmarshal(raw: Json): Option<Request> {
    if !raw.Obj? then None
    else
      var o := raw.fields;
      var version, method_ := AsString(o, "jsonrpc"), AsString(o, "method");
      if version.None? || method_.None? then None
      else if "jsonrpc" !in o || o["jsonrpc"].Null? || "method" !in o || o["method"].Null? then None
      else
        var okID, okParams := "id" in o, "params" in o;
        if (|o| == 3 && !(okID || okParams)) || (|o| == 4 && !(okID && okParams)) || |o| > 4 then None
        else if version.value != "2.0" then None
        else if okParams && !(o["params"].Arr? || o["params"].Obj?) then None
        else if okID && (o["id"].Bool? || o["id"].Obj? || o["id"].Arr?) then None
        else Some(Request(method_.value,
                          if okParams then Some(o["params"]) else None,
                          if okID then Some(o["id"]) else None))
  }

  const NAMES: set<string> := {"jsonrpc", "method", "params", "id"}

  /** A request object in the sense of section 4 of the JSON-RPC 2.0 Specification, with no other
      members than those defined there. */
  ghost predicate IsRequestObject(raw: Json) {
    && raw.Obj?
    && raw.fields.Keys <= NAMES
    && "jsonrpc" in raw.fields && raw.fields["jsonrpc"] == Str("2.0")
    && "method" in raw.fields && raw.fields["method"].Str?
    && ("params" in raw.fields ==> raw.fields["params"].Arr? || raw.fields["params"].Obj?)
    && ("id" in raw.fields ==> raw.fields["id"].Str? || raw.fields["id"].Number? || raw.fields["id"].Null?)
  }

  lemma SubsetSize<K>(a: set<K>, b: set<K>)
    requires a <= b
    ensures |a| <= |b| && (|a| == |b| ==> a == b)
  {
    var rest := b - a;
    assert b == a + rest;
  }

  /** Counting members instead of naming them: with `v` and `m` present, testing `p` and `i` by the
      number of members accepts exactly the sets that hold nothing else. */
  lemma MemberCount<K>(keys: set<K>, v: K, m: K, p: K, i: K)
    requires v != m && v != p && v != i && m != p && m != i && p != i && v in keys && m in keys
    ensures keys <= {v, m, p, i} <==>
            !((|keys| == 3 && !(i in keys || p in keys)) || (|keys| == 4 && !(i in keys && p in keys)) || |keys| > 4)
  {
    var known := {v, m} + (if i in keys then {i} else {}) + (if p in keys then {p} else {});
    assert known <= keys;
    SubsetSize(known, keys);
    assert |known| == 2 + (if i in keys then 1 else 0) + (if p in keys then 1 else 0);
    assert keys <= {v, m, p, i} <==> keys == known;
  }

  /** The decoder accepts exactly the request objects; the others are "bad requests". */
  lemma AcceptsExactlyRequestObjects(raw: Json)
    ensures Unmarshal(raw).Some? <==> IsRequestObject(raw)
    ensures Unmarshal(raw).Some? ==>
              var r := Unmarshal(raw).value;
              && Str(r.method_) == raw.fields["method"]
              && (r.id.None? <==> "id" !in raw.fields) && (r.id.Some? ==> r.id.value == raw.fields["id"])
              && (r.params.None? <==> "params" !in raw.fields)
              && (r.params.Some? ==> r.params.value == raw.fields["params"])
  {
    if raw.Obj? && "jsonrpc" in raw.fields && "method" in raw.fields {
      MemberCount(raw.fields.Keys, "jsonrpc", "method", "params", "id");
      assert |raw.fields| == |raw.fields.Keys|;
    }
  }

  // ---------------------------------------------------------------- the codec

  /** What a `Decode` on the connection yields. */
  datatype Input = Garbage | Value(json: Json)

  /** The value handed to `WriteResponse`: the list a batch call produces, or anything else. */
  datatype Reply = Replies(items: seq<Message>) | Plain(json: Json)

  datatype Message = Single(id: Json, error: Option<string>, result: Option<Reply>) | Many(items: seq<Message>)

  const PARSE_ERROR := Single(Null, Some("Parse error"), None)
  const INVALID_REQUEST := Single(Null, Some("Invalid request"), None)

  datatype Codec = Codec(seqno: nat, pending: map<nat, Option<Json>>)

  datatype Accepted = Refused(notice: Message) | Taken(request: Request)

  /** The front half of `ReadRequestHeader`: an array is a call of the internal batch method. */
  function Accept(i: Input): Accepted {
    match i
    case Garbage => Refused(PARSE_ERROR)
    case Value(json) =>
      if json.Arr? then Taken(Request(BATCH, Some(json), Some(Null)))
      else match Unmarshal(json)
        case None => Refused(INVALID_REQUEST)
        case Some(r) => Taken(r)
  }

  /** The message that `WriteResponse` sends for a request that is still pending, if any. */
  function Outgoing(id: Option<Json>, method_: string, error: Option<string>, reply: Reply): Option<Message> {
    if method_ == BATCH && reply.Replies? then
      if reply.items == [] then None else Some(Many(reply.items))
    else if id.None? then None
    else Some(Single(id.value, error, if error.Some? then None else Some(reply)))
  }

  class ServerCodec {
    var seqno: nat
    var pending: map<nat, Option<Json>>
    var sent: seq<Message>

    constructor ()
      ensures Follows(INIT)
    {
      seqno, pending, sent := 0, map[], [];
    }

    /** This object is where a run of the machine below has got to. */
    ghost predicate Follows(st: State)
      reads this
    {
      && st.codec == Codec(seqno, pending)
      && |sent| == |st.sent| && forall k :: 0 <= k < |sent| ==> sent[k] == st.sent[k].1
    }

    /** Gives a request the next sequence number and keeps its id; a refused one is told so. */
    method ReadRequestHeader(i: Input, ghost st: State) returns (s: Option<nat>, method_: string)
      requires Follows(st)
      modifies this
      ensures Follows(Apply(st, Read(i)))
      ensures match Accept(i)
              case Refused(m) => s.None? && sent == old(sent) + [m] && seqno == old(seqno) && pending == old(pending)
              case Taken(r) =>
                && s == Some(seqno) && seqno == old(seqno) + 1 && method_ == r.method_
                && pending == old(pending)[seqno := r.id] && sent == old(sent)
    {
      method_ := "";
      match i {
        case Garbage =>
          sent := sent + [PARSE_ERROR];
          return None, "";
        case Value(json) =>
          var req;
          if json.Arr? {
            req := Request(BATCH, Some(json), Some(Null));
          } else {
            var u := Unmarshal(json);
            if u.None? {
              sent := sent + [INVALID_REQUEST];
              return None, "";
            }
            req := u.value;
          }
          seqno := seqno + 1;
          pending := pending[seqno := req.id];
          s, method_ := Some(seqno), req.method_;
      }
    }

    /** Answers with the id that was kept for `s`; a notification and an empty batch get nothing. The
        server passes back the method that it read for `s`. */
    method WriteResponse(s: nat, method_: string, error: Option<string>, reply: Reply, ghost st: State)
        returns (ok: bool)
      requires Follows(st)
      modifies this`pending, this`sent
      ensures Inv(st) && (ok ==> 1 <= s <= |st.requests| && method_ == st.requests[s - 1].method_) ==>
                Follows(Apply(st, Write(s, error, reply)))
      ensures ok <==> s in old(pending)
      ensures pending == old(pending) - {s}
      ensures sent == old(sent) + if !ok then [] else
                        match Outgoing(old(pending)[s], method_, error, reply) case None => [] case Some(m) => [m]
    {
      if s !in pending {
        assert pending - {s} == pending;
        return false;
      }
      var id := pending[s];
      pending := pending - {s};
      if method_ == BATCH && reply.Replies? {
        if |reply.items| != 0 {
          sent := sent + [Many(reply.items)];
        }
        return true;
      }
      if id.Some? {
        sent := sent + [Single(id.value, error, if error.Some? then None else Some(reply))];
      }
      return true;
    }
  }

  // ---------------------------------------------------------------- runs

  /** The codec with its history: the requests in the order of their sequence numbers (from 1), and
      the messages sent, each with the sequence number it answers (0 for a refusal). */
  datatype State = State(codec: Codec, requests: seq<Request>, sent: seq<(nat, Message)>)

  const INIT := State(Codec(0, map[]), [], [])

  datatype Step = Read(i: Input) | Write(s: nat, error: Option<string>, reply: Reply)

  function Apply(st: State, step: Step): State {
    match step
    case Read(i) =>
      (match Accept(i)
       case Refused(m) => st.(sent := st.sent + [(0, m)])
       case Taken(r) =>
         var n := st.codec.seqno + 1;
         State(Codec(n, st.codec.pending[n := r.id]), st.requests + [r], st.sent))
    case Write(s, error, reply) =>
      if s !in st.codec.pending || !(1 <= s <= |st.requests|) then st
      else
        var m := Outgoing(st.codec.pending[s], st.requests[s - 1].method_, error, reply);
        st.(codec := st.codec.(pending := st.codec.pending - {s}),
            sent := st.sent + if m.Some? then [(s, m.value)] else [])
  }

  function Run(steps: seq<Step>): State {
    if steps == [] then INIT else Apply(Run(steps[..|steps| - 1]), steps[|steps| - 1])
  }

  /** The sequence numbers that `Write` steps have been made for, among those handed out. */
  function Answered(steps: seq<Step>): set<nat> {
    if steps == [] then {}
    else
      var before, last := steps[..|steps| - 1], steps[|steps| - 1];
      Answered(before) + if last.Write? && 1 <= last.s <= |Run(before).requests| then {last.s} else {}
  }

  /** A message answers request `r`: it is the batch's own list, or it carries the request's id. */
  ghost predicate Answers(r: Request, m: Message) {
    if m.Many? then r.method_ == BATCH && m.items != [] else r.id == Some(m.id)
  }

  ghost predicate Inv(st: State) {
    && st.codec.seqno == |st.requests|
    && (forall s :: s in st.codec.pending ==> 1 <= s <= |st.requests| && st.codec.pending[s] == st.requests[s - 1].id)
    && (forall k :: 0 <= k < |st.sent| && st.sent[k].0 != 0 ==>
          && 1 <= st.sent[k].0 <= |st.requests| && st.sent[k].0 !in st.codec.pending
          && Answers(st.requests[st.sent[k].0 - 1], st.sent[k].1))
    && (forall j, k :: 0 <= j < k < |st.sent| && st.sent[j].0 != 0 ==> st.sent[j].0 != st.sent[k].0)
  }

  lemma ReadKeepsInv(st: State, i: Input)
    requires Inv(st)
    ensures Inv(Apply(st, Read(i)))
  {
  }

  lemma WriteKeepsInv(st: State, s: nat, error: Option<string>, reply: Reply)
    requires Inv(st)
    ensures Inv(Apply(st, Write(s, error, reply)))
  {
  }

  lemma {:induction false} RunKeepsInv(steps: seq<Step>)
    ensures Inv(Run(steps))
  {
    if steps != [] {
      var before, last := steps[..|steps| - 1], steps[|steps| - 1];
      RunKeepsInv(before);
      match last
      case Read(i) => ReadKeepsInv(Run(before), i);
      case Write(s, error, reply) => WriteKeepsInv(Run(before), s, error, reply);
    }
  }

  /** `pending` holds exactly the requests that no response has been written for. */
  lemma {:induction false} PendingIsUnanswered(steps: seq<Step>)
    ensures forall s :: s in Run(steps).codec.pending <==> 1 <= s <= |Run(steps).requests| && s !in Answered(steps)
  {
    RunKeepsInv(steps);
    if steps != [] {
      var before := steps[..|steps| - 1];
      PendingIsUnanswered(before);
      RunKeepsInv(before);
      AnsweredExist(before);
    }
  }

  lemma {:induction false} AnsweredExist(steps: seq<Step>)
    ensures forall s :: s in Answered(steps) ==> 1 <= s <= |Run(steps).requests|
  {
    if steps != [] {
      AnsweredExist(steps[..|steps| - 1]);
    }
  }

  /** In every run, with responses written in any order, a message that answers a request carries that
      request's own id (or is the reply list of a batch). */
  lemma OwnId(steps: seq<Step>, k: nat)
    requires k < |Run(steps).sent| && Run(steps).sent[k].0 != 0
    ensures var st := Run(steps);
            1 <= st.sent[k].0 <= |st.requests| && Answers(st.requests[st.sent[k].0 - 1], st.sent[k].1)
  {
    RunKeepsInv(steps);
  }

  /** No request is answered twice. */
  lemma AnsweredAtMostOnce(steps: seq<Step>, j: nat, k: nat)
    requires j < k < |Run(steps).sent| && Run(steps).sent[j].0 != 0
    ensures Run(steps).sent[j].0 != Run(steps).sent[k].0
  {
    RunKeepsInv(steps);
  }

  // ---------------------------------------------------------------- what the messages say

  /** What the codec makes of what it reads, and what it sends at once: text that is no JSON and an object
      that is no request are answered with an error for the id null, an array is taken as a call of the
      batch method with the id null, and a request is taken as it is. */
  lemma ReadSays(steps: seq<Step>, i: Input)
    ensures var st, after := Run(steps), Run(steps + [Read(i)]);
            match i
            case Garbage =>
              after.requests == st.requests && after.sent == st.sent + [(0, Single(Null, Some("Parse error"), None))]
            case Value(json) =>
              if json.Arr? then
                && after.requests == st.requests + [Request("JSONMyrpc.Batch", Some(json), Some(Null))]
                && after.sent == st.sent
              else if !IsRequestObject(json) then
                && after.requests == st.requests
                && after.sent == st.sent + [(0, Single(Null, Some("Invalid request"), None))]
              else
                var f := json.fields;
                && after.sent == st.sent
                && after.requests
                   == st.requests + [Request(f["method"].s, if "params" in f then Some(f["params"]) else None,
                                             if "id" in f then Some(f["id"]) else None)]
  {
    var more := steps + [Read(i)];
    assert more[..|steps|] == steps;
    if i.Value? {
      AcceptsExactlyRequestObjects(i.json);
    }
    hide Unmarshal;
    hide IsRequestObject;
  }

  /** The message that answers request `r` when the server hands back this error or this reply. */
  ghost predicate Says(r: Request, error: Option<string>, reply: Reply, m: Message) {
    if r.method_ == "JSONMyrpc.Batch" && reply.Replies? then reply.items != [] && m == Many(reply.items)
    else
      && r.id.Some?
      && m == match error
              case None => Single(r.id.value, None, Some(reply))
              case Some(text) => Single(r.id.value, Some(text), None)
  }

  /** A response to a pending request sends one such message, with everything the server handed back, unless
      the request is a notification or the list is empty. */
  lemma WriteSays(steps: seq<Step>, s: nat, error: Option<string>, reply: Reply)
    requires s in Run(steps).codec.pending
    ensures var st, after := Run(steps), Run(steps + [Write(s, error, reply)]);
            && 1 <= s <= |st.requests|
            && var r := st.requests[s - 1];
               if (if r.method_ == "JSONMyrpc.Batch" && reply.Replies? then reply.items == [] else r.id.None?)
               then after.sent == st.sent
               else exists m :: Says(r, error, reply, m) && after.sent == st.sent + [(s, m)]
  {
    RunKeepsInv(steps);
    var step := Write(s, error, reply);
    var more, st := steps + [step], Run(steps);
    assert more[..|steps|] == steps;
    var r := st.requests[s - 1];
    StepSends(st, step);
    hide Apply;
    hide Inv;
    match Sending(st, step)
    case None => assert st.sent + [] == st.sent;
    case Some(m) => assert Says(r, error, reply, m.1);
  }

  /** Step `j` of the run is the response to request `s`. */
  ghost predicate RespondedAt(steps: seq<Step>, j: nat, s: nat)
    requires j < |steps|
  {
    Enabled(Run(steps[..j]), steps[j]) && steps[j].s == s
  }

  /** In every run, every message that answers a request says what the response to that very request said. */
  lemma {:induction false} EveryMessageSays(steps: seq<Step>, k: nat) returns (j: nat)
    requires k < |Run(steps).sent| && Run(steps).sent[k].0 != 0
    ensures var s, m := Run(steps).sent[k].0, Run(steps).sent[k].1;
            && j < |steps| && RespondedAt(steps, j, s) && 1 <= s <= |Run(steps).requests|
            && Says(Run(steps).requests[s - 1], steps[j].error, steps[j].reply, m)
  {
    var n := |steps| - 1;
    var before, last := steps[..n], steps[n];
    var st := Run(before);
    assert Run(steps) == Apply(st, last);
    RunKeepsInv(before);
    RunKeepsInv(steps);
    StepSends(st, last);
    KeepsRequests(st, last);
    hide Run;
    hide Apply;
    if k < |st.sent| {
      j := EveryMessageSays(before, k);
      assert before[..j] == steps[..j];
    } else {
      j := n;
      LastSays(st, last);
    }
  }

  lemma KeepsRequests(st: State, step: Step)
    ensures st.requests <= Apply(st, step).requests
  {
    hide Unmarshal;
    hide Outgoing;
  }

  lemma LastSays(st: State, step: Step)
    requires Inv(st) && Sending(st, step).Some? && Sending(st, step).value.0 != 0
    ensures Enabled(st, step) && Sending(st, step).value.0 == step.s
    ensures Says(st.requests[step.s - 1], step.error, step.reply, Sending(st, step).value.1)
  {
    hide Unmarshal;
  }

  /** A notification (section 4.1 of the JSON-RPC 2.0 Specification) is never answered, unless it
      calls the internal batch method by name. */
  lemma NotificationsStaySilent(steps: seq<Step>, k: nat)
    requires k < |Run(steps).sent| && Run(steps).sent[k].0 != 0
    requires var st := Run(steps);
             1 <= st.sent[k].0 <= |st.requests| && st.requests[st.sent[k].0 - 1].id.None?
    ensures var st := Run(steps);
            st.requests[st.sent[k].0 - 1].method_ == BATCH && st.sent[k].1.Many?
  {
    RunKeepsInv(steps);
  }

  // ---------------------------------------------------------------- conservation

  function IdOf(r: Request): multiset<Json> {
    if r.id.Some? then multiset{r.id.value} else multiset{}
  }

  /** `g` of all requests that came in. */
  function Total(g: Request -> multiset<Json>, requests: seq<Request>): multiset<Json> {
    if requests == [] then multiset{}
    else Total(g, requests[..|requests| - 1]) + g(requests[|requests| - 1])
  }

  /** `g` of those among the first `n` requests that are still to be answered. */
  function Owed(g: Request -> multiset<Json>, requests: seq<Request>, pending: map<nat, Option<Json>>,
                n: nat): multiset<Json>
    requires n <= |requests|
  {
    if n == 0 then multiset{}
    else Owed(g, requests, pending, n - 1) + if n in pending then g(requests[n - 1]) else multiset{}
  }

  /** All ids that went out in answers (refusals have sequence number 0). */
  function SentIds(sent: seq<(nat, Message)>): multiset<Json> {
    if sent == [] then multiset{}
    else
      var m := sent[|sent| - 1];
      SentIds(sent[..|sent| - 1]) + if m.0 != 0 && m.1.Single? then multiset{m.1.id} else multiset{}
  }

  /** The write step answers a request that is pending. */
  predicate Enabled(st: State, step: Step) {
    step.Write? && step.s in st.codec.pending && 1 <= step.s <= |st.requests|
  }

  /** It answers a call of the batch method with a list, in which the id of the call does not occur. */
  predicate ByList(st: State, step: Step) {
    Enabled(st, step) && st.requests[step.s - 1].method_ == BATCH && step.reply.Replies?
  }

  /** The ids of the requests that were answered with a list. */
  function ListedIds(steps: seq<Step>): multiset<Json> {
    if steps == [] then multiset{}
    else
      var before, last := steps[..|steps| - 1], steps[|steps| - 1];
      var st := Run(before);
      ListedIds(before) + if ByList(st, last) then IdOf(st.requests[last.s - 1]) else multiset{}
  }

  lemma {:induction false} OwedSame(g: Request -> multiset<Json>, a: seq<Request>, b: seq<Request>,
                                    p: map<nat, Option<Json>>, q: map<nat, Option<Json>>, n: nat)
    requires n <= |a| && n <= |b| && a[..n] == b[..n] && forall s :: 1 <= s <= n ==> (s in p <==> s in q)
    ensures Owed(g, a, p, n) == Owed(g, b, q, n)
  {
    if n > 0 {
      assert a[n - 1] == a[..n][n - 1] == b[n - 1];
      assert a[..n - 1] == a[..n][..n - 1] == b[..n - 1];
      OwedSame(g, a, b, p, q, n - 1);
    }
  }

  lemma {:induction false} OwedRemove(g: Request -> multiset<Json>, requests: seq<Request>, pending: map<nat,
                                      Option<Json>>, s: nat, n: nat)
    requires 1 <= s <= n <= |requests| && s in pending
    ensures Owed(g, requests, pending, n) == Owed(g, requests, pending - {s}, n) + g(requests[s - 1])
  {
    if s < n {
      OwedRemove(g, requests, pending, s, n - 1);
    } else {
      OwedSame(g, requests, requests, pending, pending - {s}, n - 1);
    }
  }

  lemma {:induction false} OwedNothing(g: Request -> multiset<Json>, requests: seq<Request>, n: nat)
    requires n <= |requests|
    ensures Owed(g, requests, map[], n) == multiset{}
  {
    if n > 0 {
      OwedNothing(g, requests, n - 1);
    }
  }

  /** `g` of the request that a step brings in, and of the one that it answers. */
  function Gain(g: Request -> multiset<Json>, step: Step): multiset<Json> {
    if step.Read? && Accept(step.i).Taken? then g(Accept(step.i).request) else multiset{}
  }

  function Loss(g: Request -> multiset<Json>, st: State, step: Step): multiset<Json> {
    if Enabled(st, step) then g(st.requests[step.s - 1]) else multiset{}
  }

  lemma StepOwes(g: Request -> multiset<Json>, st: State, step: Step)
    requires Inv(st)
    ensures var st' := Apply(st, step);
            && Owed(g, st'.requests, st'.codec.pending, |st'.requests|) + Loss(g, st, step)
               == Owed(g, st.requests, st.codec.pending, |st.requests|) + Gain(g, step)
            && Total(g, st'.requests) == Total(g, st.requests) + Gain(g, step)
  {
    hide Unmarshal;
    var st' := Apply(st, step);
    if step.Read? && Accept(step.i).Taken? {
      var n := |st.requests|;
      assert st'.requests[..n] == st.requests == st.requests[..n];
      OwedSame(g, st.requests, st'.requests, st.codec.pending, st'.codec.pending, n);
    } else if Enabled(st, step) {
      OwedRemove(g, st.requests, st.codec.pending, step.s, |st.requests|);
    }
  }

  /** The message a step sends, if any, with the number it answers. */
  function Sending(st: State, step: Step): Option<(nat, Message)> {
    match step
    case Read(i) => (match Accept(i) case Refused(m) => Some((0, m)) case Taken(_) => None)
    case Write(s, error, reply) =>
      if !Enabled(st, step) then None
      else match Outgoing(st.codec.pending[s], st.requests[s - 1].method_, error, reply)
        case None => None
        case Some(m) => Some((s, m))
  }

  lemma StepSends(st: State, step: Step)
    ensures Apply(st, step).sent == st.sent + match Sending(st, step) case None => [] case Some(m) => [m]
  {
    hide Unmarshal;
    hide Outgoing;
  }

  lemma SentIdsAppend(sent: seq<(nat, Message)>, m: (nat, Message))
    ensures SentIds(sent + [m]) == SentIds(sent) + if m.0 != 0 && m.1.Single? then multiset{m.1.id} else multiset{}
  {
    assert (sent + [m])[..|sent|] == sent;
  }

  lemma StepSendsIds(st: State, step: Step)
    requires Inv(st)
    ensures SentIds(Apply(st, step).sent)
            == SentIds(st.sent) + if ByList(st, step) then multiset{} else Loss(IdOf, st, step)
  {
    StepSends(st, step);
    hide Apply;
    hide Unmarshal;
    hide SentIds;
    match Sending(st, step)
    case None => assert st.sent + [] == st.sent;
    case Some(m) => SentIdsAppend(st.sent, m);
  }

  lemma Account(sent: multiset<Json>, listed: multiset<Json>, owed: multiset<Json>, a: multiset<Json>,
                b: multiset<Json>,
                owed': multiset<Json>, gain: multiset<Json>)
    requires owed' + (a + b) == owed + gain
    ensures (sent + a) + (listed + b) + owed' == (sent + listed + owed) + gain
  {
    assert (sent + a) + (listed + b) + owed' == (sent + listed) + (owed' + (a + b));
  }

  ghost predicate Accounted(st: State, listed: multiset<Json>) {
    SentIds(st.sent) + listed + Owed(IdOf, st.requests, st.codec.pending, |st.requests|) == Total(IdOf, st.requests)
  }

  lemma StepAccounts(st: State, step: Step, listed: multiset<Json>)
    requires Inv(st) && Accounted(st, listed)
    ensures Accounted(Apply(st, step), listed + if ByList(st, step) then Loss(IdOf, st, step) else multiset{})
  {
    StepOwes(IdOf, st, step);
    StepSendsIds(st, step);
    hide Apply;
    hide Inv;
    hide Owed;
    hide Total;
    hide Gain;
    hide SentIds;
    hide Loss;
    var st' := Apply(st, step);
    var loss := Loss(IdOf, st, step);
    var a, b := if ByList(st, step) then multiset{} else loss, if ByList(st, step) then loss else multiset{};
    hide ByList;
    Account(SentIds(st.sent), listed, Owed(IdOf, st.requests, st.codec.pending, |st.requests|), a, b,
            Owed(IdOf, st'.requests, st'.codec.pending, |st'.requests|), Gain(IdOf, step));
  }

  /** In every run every id is accounted for: it was sent out in an answer, its request was answered
      with a list, or it is still owed. None is lost, invented or duplicated. */
  lemma {:induction false} IdsAreAccountedFor(steps: seq<Step>)
    ensures Accounted(Run(steps), ListedIds(steps))
  {
    if steps != [] {
      var before := steps[..|steps| - 1];
      IdsAreAccountedFor(before);
      RunKeepsInv(before);
      StepAccounts(Run(before), steps[|steps| - 1], ListedIds(before));
      hide Accounted;
      hide Apply;
    }
  }

  /** The ids sent and the ids owed together are the ids that came in exactly when no request that has an
      id was answered with a list. */
  lemma IdsAreConserved(steps: seq<Step>)
    ensures var st := Run(steps);
            SentIds(st.sent) + Owed(IdOf, st.requests, st.codec.pending, |st.requests|) == Total(IdOf, st.requests)
            <==> ListedIds(steps) == multiset{}
  {
    IdsAreAccountedFor(steps);
    var st := Run(steps);
    var a, l, o := SentIds(st.sent), ListedIds(steps), Owed(IdOf, st.requests, st.codec.pending, |st.requests|);
    if a + o == Total(IdOf, st.requests) {
      assert a + l + o == a + o + l;
      assert l == (a + o + l) - (a + o);
    }
  }
}
