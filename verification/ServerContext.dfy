/**
 How the server turns one incoming request into a response, on a context taken from a pool.

 `React` is the reference: it names the stages of a request in order and sees no context at all.
 The functions on `Ctx` say what each stage does to the fields of a context, whatever they held
 before; a context is handed out again after `Reset`, which leaves `path` and `errorType` as they
 were. `Context` is the object with the methods that assign those fields.
 */
module ServerContext {
  import opened Common

  /** Every error text that a hook chain, the URI parser or a codec reports is non-empty: the chain
      puts the hook's name in front. Only a service's own error may have an empty text. */
  type Text = s: string | s != "" witness "?"

  type ErrorType = t: int | 1 <= t <= 12 witness 1
  /** What a context's field may hold: also zero, as long as nothing has failed on it. */
  type RawType = t: int | 0 <= t <= 12

  const PRE_READ_REQUEST_HEADER: ErrorType := 1
  const READ_REQUEST_HEADER: ErrorType := 2
  const INVALID_SERVICE_METHOD: ErrorType := 3
  const NOT_FOUND_SERVICE: ErrorType := 4
  const POST_READ_REQUEST_HEADER: ErrorType := 5
  const PRE_READ_REQUEST_BODY: ErrorType := 6
  const READ_REQUEST_BODY: ErrorType := 7
  const POST_READ_REQUEST_BODY: ErrorType := 8
  const SERVICE_PANIC: ErrorType := 9
  const SERVICE: ErrorType := 10
  const PRE_WRITE_RESPONSE: ErrorType := 11
  const WRITE_RESPONSE: ErrorType := 12

  const EOF: Text := "EOF"

  // ---------------------------------------------------------------- environment

  /** What a hook or a service can see of a request. */
  datatype View = View(seqno: nat, method_: string, path: string, query: string, data: map<string, string>)

  /** What a hook does: maybe an error; it may also set the path and the data store. */
  datatype HookOut = HookOut(err: Option<Text>, path: string, data: map<string, string>)
  type Hook = View -> HookOut

  /** A hook that runs before the header is read has no request to look at; in particular it does
      not look at the path. */
  datatype EarlyOut = EarlyOut(err: Option<Text>, path: Option<string>, data: map<string, string>)

  datatype CallOut = Returns(reply: Payload, err: Option<string>) | Panics

  datatype Service = Service(
    preBody: Hook, postBody: Hook, preWrite: Hook,
    call: (View, Payload) -> CallOut)

  datatype Parse = Parse(path: string, query: string, err: Option<Text>)

  datatype Server = Server(
    preHeader: map<string, string> -> EarlyOut,
    parse: string -> Parse,
    postHeader: Hook,
    lookup: string -> Option<Service>,
    preBody: Hook, postBody: Hook, preWrite: Hook)

  /** What the connection delivers for one request, and how its response writes fare. */
  datatype Header = HeaderOk(seqno: nat, method_: string) | HeaderEof | HeaderBad(msg: Text)
  datatype Body = BodyOk(payload: Payload) | BodyBad(msg: Text)
  datatype Traffic = Traffic(header: Header, body: Body, writeErr: Option<Text>, secondWriteOk: bool)

  datatype WireResponse = WireResponse(method_: string, seqno: nat, error: string, body: Option<Payload>)

  // ---------------------------------------------------------------- reference

  datatype Failure = Failure(typ: ErrorType, msg: Text)
  datatype Result = Value(body: Option<Payload>) | Fault(f: Failure)

  datatype Stage =
    | Hangup
    | Reject(f: Failure, view: View, service: Option<Service>)
    | Ready(view: View, target: Service, payload: Payload)

  function Ran(h: HookOut, v: View): View {
    v.(path := h.path, data := h.data)
  }

  /** `first`, then `second` unless `first` failed. */
  function Both(first: Hook, second: Hook): Hook {
    (v: View) => var a := first(v); if a.err.Some? then a else second(Ran(a, v))
  }

  function ReadHeader(srv: Server, w: Traffic): Stage
  {
    var early := srv.preHeader(map[]);
    if early.err.Some? || !w.header.HeaderOk? then Hangup
    else Route(srv, w.header.seqno, w.header.method_, early.data)
  }

  /** From the service method named in the header to the service. */
  function Route(srv: Server, seqno: nat, method_: string, data: map<string, string>): (r: Stage)
    ensures !r.Hangup?
  {
    var p := srv.parse(method_);
    var v := View(seqno, method_, p.path, p.query, data);
    if p.err.Some? then Reject(Failure(INVALID_SERVICE_METHOD, p.err.value), v, None)
    else
      var h := srv.postHeader(v);
      var v := Ran(h, v);
      if h.err.Some? then Reject(Failure(POST_READ_REQUEST_HEADER, h.err.value), v, None)
      else match srv.lookup(v.path)
        case None => Reject(Failure(NOT_FOUND_SERVICE, "can't find service '" + v.path + "'"), v, None)
        case Some(s) => Ready(v, s, "")
  }

  function ReadBody(srv: Server, w: Traffic, v: View, s: Service): Stage
  {
    var a := Both(srv.preBody, s.preBody)(v);
    var v := Ran(a, v);
    if a.err.Some? then Reject(Failure(PRE_READ_REQUEST_BODY, a.err.value), v, Some(s))
    else if w.body.BodyBad? then Reject(Failure(READ_REQUEST_BODY, "ReadRequestBody: " + w.body.msg), v, Some(s))
    else
      var b := Both(s.postBody, srv.postBody)(v);
      var v := Ran(b, v);
      if b.err.Some? then Reject(Failure(POST_READ_REQUEST_BODY, b.err.value), v, Some(s))
      else Ready(v, s, w.body.payload)
  }

  function ReadRequest(srv: Server, w: Traffic): Stage {
    match ReadHeader(srv, w)
    case Ready(v, s, _) => ReadBody(srv, w, v, s)
    case other => other
  }

  /** What the service makes of a request that got through. An error with an empty text does not
      look like one to the rest of the code. */
  function Called(s: Service, v: View, payload: Payload): Result {
    match s.call(v, payload)
    case Panics => Fault(Failure(SERVICE_PANIC, "Service Panic!"))
    case Returns(reply, err) =>
      if err.Some? && err.value != "" then Fault(Failure(SERVICE, err.value)) else Value(Some(reply))
  }

  datatype Reaction = NoAnswer | Answer(seqno: nat, method_: string, results: seq<Result>)

  /** The hooks before the write may still replace the result. */
  function PreWrite(srv: Server, v: View, service: Option<Service>, r: Result): Result {
    var h := if service.Some? then Both(srv.preWrite, service.value.preWrite) else srv.preWrite;
    var out := h(v);
    if out.err.Some? then Fault(Failure(PRE_WRITE_RESPONSE, out.err.value)) else r
  }

  /** What reaches the wire: the result, or after a failed write an error about that write. */
  function Written(w: Traffic, r: Result): seq<Result> {
    if w.writeErr.None? then [r]
    else if w.secondWriteOk then [Fault(Failure(WRITE_RESPONSE, w.writeErr.value))]
    else []
  }

  /** The whole life of one request. */
  function React(srv: Server, w: Traffic): Reaction {
    match ReadRequest(srv, w)
    case Hangup => NoAnswer
    case Reject(f, v, s) => Answer(v.seqno, v.method_, Written(w, PreWrite(srv, v, s, Fault(f))))
    case Ready(v, s, payload) => Answer(v.seqno, v.method_, Written(w, PreWrite(srv, v, Some(s), Called(s, v,
        payload))))
  }

  // ---------------------------------------------------------------- on the wire

  /** Go's `string(t)`: the UTF-8 form of a code point below 128 is that one byte. */
  function Prefix(t: RawType): string {
    [t as char]
  }

  /** The client's `parseResponseError`; `ErrorType` is an int8. */
  function ParseResponseError(s: Text): (int, string) {
    var b := s[0] as int % 256;
    (if b < 128 then b else b - 256, s[1..])
  }

  function ToWire(seqno: nat, method_: string, r: Result): WireResponse {
    match r
    case Value(body) => WireResponse(method_, seqno, "", body)
    case Fault(f) => WireResponse(method_, seqno, Prefix(f.typ) + f.msg, None)
  }

  /** What the client's `input` loop concludes from a response. */
  datatype Seen = SeenValue(body: Option<Payload>) | SeenError(typ: int, msg: string)

  function Conclude(r: WireResponse): Seen {
    if r.error != "" then
      var e := ParseResponseError(r.error);
      SeenError(e.0, e.1)
    else SeenValue(r.body)
  }

  /** Each server error type survives the wire: it is prefixed as one byte and stripped again. The
      types are positive, so a Failover client treats them as final. */
  lemma ErrorSurvives(seqno: nat, method_: string, r: Result)
    ensures Conclude(ToWire(seqno, method_, r))
            == match r case Value(b) => SeenValue(b) case Fault(f) => SeenError(f.typ, f.msg)
    ensures r.Fault? <==> Conclude(ToWire(seqno, method_, r)).SeenError?
  {
    if r.Fault? {
      var e := Prefix(r.f.typ) + r.f.msg;
      assert e[0] == r.f.typ as char && e[1..] == r.f.msg;
    }
  }

  /** Everything that goes wrong with a request, in order: it may be rejected while it is read or
      fail in the service, then a hook may fail, then the write. */
  function Failures(srv: Server, w: Traffic): seq<Failure> {
    var stage := ReadRequest(srv, w);
    if stage.Hangup? then []
    else
      var service := if stage.Reject? then stage.service else Some(stage.target);
      var result := if stage.Reject? then Fault(stage.f) else Called(stage.target, stage.view, stage.payload);
      var hook := if service.Some? then Both(srv.preWrite, service.value.preWrite)(stage.view)
          else srv.preWrite(stage.view);
      (if result.Fault? then [result.f] else [])
      + (if hook.err.Some? then [Failure(PRE_WRITE_RESPONSE, hook.err.value)] else [])
      + (if w.writeErr.Some? then [Failure(WRITE_RESPONSE, w.writeErr.value)] else [])
  }

  /** Whatever stage fails, a client that gets an answer ends with the type and the text of the
      last failing stage, and with the service's reply exactly when none failed. */
  lemma ClientSeesLastFailure(srv: Server, w: Traffic)
    requires React(srv, w).Answer? && React(srv, w).results != []
    ensures var a, fs := React(srv, w), Failures(srv, w);
            var seen := Conclude(ToWire(a.seqno, a.method_, a.results[0]));
            if fs != [] then seen == SeenError(fs[|fs| - 1].typ, fs[|fs| - 1].msg) && seen.typ > 0
            else ReadRequest(srv, w).Ready?
                 && var r := ReadRequest(srv, w);
                    var out := r.target.call(r.view, r.payload);
                    out.Returns? && seen == SeenValue(Some(out.reply))
  {
    var a := React(srv, w);
    ErrorSurvives(a.seqno, a.method_, a.results[0]);
  }

  /** An error returned by the service reaches the client exactly when its text is not empty;
      otherwise the client takes the reply for good. */
  lemma ServiceErrorReachesClient(srv: Server, w: Traffic, reply: Payload, text: string)
    requires ReadRequest(srv, w).Ready? && w.writeErr.None?
    requires var r := ReadRequest(srv, w);
             r.target.call(r.view, r.payload) == Returns(reply, Some(text))
             && Both(srv.preWrite, r.target.preWrite)(r.view).err.None?
    ensures var a := React(srv, w);
            && a.Answer? && |a.results| == 1
            && (Conclude(ToWire(a.seqno, a.method_, a.results[0])) == SeenError(SERVICE, text) <==> text != "")
            && (text == "" ==> Conclude(ToWire(a.seqno, a.method_, a.results[0])) == SeenValue(Some(reply)))
  {
    var a := React(srv, w);
    ErrorSurvives(a.seqno, a.method_, a.results[0]);
  }

  // ---------------------------------------------------------------- what the reference says, hook by hook

  /** The views that the hooks and the service get, one after the other: `v0` after parsing, `v1` after the
      hooks on the header, `v2` and `v3` after those before the body, `v4` and `v5` after those on it. */
  ghost predicate Seen5(srv: Server, w: Traffic, s: Service,
                        v0: View, v1: View, v2: View, v3: View, v4: View, v5: View)
  {
    && w.header.HeaderOk?
    && v0 == View(w.header.seqno, w.header.method_, srv.parse(w.header.method_).path,
                  srv.parse(w.header.method_).query, srv.preHeader(map[]).data)
    && v1 == v0.(path := srv.postHeader(v0).path, data := srv.postHeader(v0).data)
    && v2 == v1.(path := srv.preBody(v1).path, data := srv.preBody(v1).data)
    && v3 == v2.(path := s.preBody(v2).path, data := s.preBody(v2).data)
    && v4 == v3.(path := s.postBody(v3).path, data := s.postBody(v3).data)
    && v5 == v4.(path := srv.postBody(v4).path, data := srv.postBody(v4).data)
  }

  /** Which stage fails a request with which type and text, up to the search for the service. */
  lemma HeaderStages(srv: Server, w: Traffic)
    ensures srv.preHeader(map[]).err.Some? || !w.header.HeaderOk? <==> ReadRequest(srv, w).Hangup?
    ensures srv.preHeader(map[]).err.None? && w.header.HeaderOk? ==>
              var p := srv.parse(w.header.method_);
              var v0 := View(w.header.seqno, w.header.method_, p.path, p.query, srv.preHeader(map[]).data);
              var h := srv.postHeader(v0);
              var v1 := v0.(path := h.path, data := h.data);
              && (p.err.Some? ==> ReadRequest(srv, w) == Reject(Failure(3, p.err.value), v0, None))
              && (p.err.None? && h.err.Some? ==> ReadRequest(srv, w) == Reject(Failure(5, h.err.value), v1, None))
              && (p.err.None? && h.err.None? && srv.lookup(h.path).None? ==>
                    ReadRequest(srv, w) == Reject(Failure(4, "can't find service '" + h.path + "'"), v1, None))
  {
  }

  /** And after it: the server's hooks come first before the body, the service's come first behind it. A
      request that gets through carries the body that was delivered. */
  lemma BodyStages(srv: Server, w: Traffic, s: Service, v0: View, v1: View, v2: View, v3: View, v4: View, v5: View)
    requires srv.preHeader(map[]).err.None? && Seen5(srv, w, s, v0, v1, v2, v3, v4, v5)
    requires srv.parse(w.header.method_).err.None? && srv.postHeader(v0).err.None? && srv.lookup(v1.path) == Some(s)
    ensures var r := ReadRequest(srv, w);
            if srv.preBody(v1).err.Some? then r == Reject(Failure(6, srv.preBody(v1).err.value), v2, Some(s))
            else if s.preBody(v2).err.Some? then r == Reject(Failure(6, s.preBody(v2).err.value), v3, Some(s))
            else if w.body.BodyBad? then r == Reject(Failure(7, "ReadRequestBody: " + w.body.msg), v3, Some(s))
            else if s.postBody(v3).err.Some? then r == Reject(Failure(8, s.postBody(v3).err.value), v4, Some(s))
            else if srv.postBody(v4).err.Some? then r == Reject(Failure(8, srv.postBody(v4).err.value), v5, Some(s))
            else r == Ready(v5, s, w.body.payload)
  {
  }

  /** A request that reaches its service was delivered with this header and this body, and the service is the
      one registered under the path the header's hooks left. */
  lemma ReadyIsDelivered(srv: Server, w: Traffic)
    requires ReadRequest(srv, w).Ready?
    ensures var r := ReadRequest(srv, w);
            && w.body == BodyOk(r.payload)
            && w.header == HeaderOk(r.view.seqno, r.view.method_)
            && var p := srv.parse(w.header.method_);
               var v0 := View(w.header.seqno, w.header.method_, p.path, p.query, srv.preHeader(map[]).data);
               r.view.query == p.query && srv.lookup(srv.postHeader(v0).path) == Some(r.target)
  {
  }

  /** What goes out once there is a result: first the server's hooks, then the service's, may replace it by
      an error; a failed write replaces it by another. */
  lemma WriteStages(srv: Server, w: Traffic, v: View, service: Option<Service>, r: Result)
    ensures var h := srv.preWrite(v);
            var v' := v.(path := h.path, data := h.data);
            var result :=
              if h.err.Some? then Fault(Failure(11, h.err.value))
              else if service.Some? && service.value.preWrite(v').err.Some?
              then Fault(Failure(11, service.value.preWrite(v').err.value))
              else r;
            Written(w, PreWrite(srv, v, service, r))
            == if w.writeErr.None? then [result]
               else if w.secondWriteOk then [Fault(Failure(12, w.writeErr.value))]
               else []
  {
  }

  /** What the client's half and the server's half of the wire look like. */
  lemma WireForm(seqno: nat, method_: string, t: ErrorType, msg: Text, body: Option<Payload>)
    ensures ToWire(seqno, method_, Value(body)) == WireResponse(method_, seqno, "", body)
    ensures ToWire(seqno, method_, Fault(Failure(t, msg))) == WireResponse(method_, seqno, [t as char] + msg, None)
    ensures Conclude(WireResponse(method_, seqno, [t as char] + msg, body)) == SeenError(t, msg)
    ensures Conclude(WireResponse(method_, seqno, "", body)) == SeenValue(body)
  {
    assert ([t as char] + msg)[1..] == msg;
  }

  ghost predicate Neutral(h: Hook) {
    forall v :: h(v) == HookOut(None, v.path, v.data)
  }

  ghost predicate NeutralHooks(srv: Server, s: Service) {
    && Neutral(srv.postHeader) && Neutral(srv.preBody) && Neutral(srv.postBody) && Neutral(srv.preWrite)
    && Neutral(s.preBody) && Neutral(s.postBody) && Neutral(s.preWrite)
  }

  /** From end to end, when every hook accepts: the service found under the path in the header is called once
      with what the header says and with the body that was delivered, and the one answer has the header's
      number and method and says what the service did. */
  lemma EndToEnd(srv: Server, s: Service, seqno: nat, method_: string, body: Payload, second: bool)
    requires NeutralHooks(srv, s) && srv.preHeader(map[]) == EarlyOut(None, None, map[])
    requires srv.parse(method_).err.None? && srv.lookup(srv.parse(method_).path) == Some(s)
    ensures var w := Traffic(HeaderOk(seqno, method_), BodyOk(body), None, second);
            var out := s.call(View(seqno, method_, srv.parse(method_).path, srv.parse(method_).query, map[]), body);
            React(srv, w)
            == Answer(seqno, method_,
                      [match out
                       case Panics => Fault(Failure(9, "Service Panic!"))
                       case Returns(reply, err) =>
                         if err.Some? && err.value != "" then Fault(Failure(10, err.value)) else Value(Some(reply))])
  {
    var w := Traffic(HeaderOk(seqno, method_), BodyOk(body), None, second);
    var v := View(seqno, method_, srv.parse(method_).path, srv.parse(method_).query, map[]);
    BodyStages(srv, w, s, v, v, v, v, v, v);
    hide ReadRequest;
    WriteStages(srv, w, v, Some(s), Called(s, v, body));
  }

  // ---------------------------------------------------------------- stages on a context

  /** The fields of a context. */
  datatype Ctx = Ctx(
    reqSeq: nat, reqMethod: string,
    respSeq: nat, respMethod: string, respError: string,
    service: Option<Service>, path: string, query: string, data: map<string, string>, errorType: RawType)

  const NEW_CTX := Ctx(0, "", 0, "", "", None, "", "", map[], 0)

  function See(c: Ctx): View {
    View(c.reqSeq, c.reqMethod, c.path, c.query, c.data)
  }

  ghost predicate NoResponse(c: Ctx) {
    c.respSeq == 0 && c.respMethod == "" && c.respError == ""
  }

  /** What a new context and a context that was put back have in common. */
  ghost predicate Recycled(c: Ctx) {
    c.reqSeq == 0 && c.reqMethod == "" && NoResponse(c) && c.service.None? && c.query == ""
  }

  /** `getContext`. */
  function Fetch(c: Ctx): Ctx {
    c.(data := map[])
  }

  /** `putContext`. */
  function Reset(c: Ctx): (r: Ctx)
    ensures Recycled(r) && r.path == c.path && r.errorType == c.errorType
  {
    Ctx(0, "", 0, "", "", None, c.path, "", map[], c.errorType)
  }

  function Hooked(h: Hook, c: Ctx): Ctx {
    var out := h(See(c));
    c.(path := out.path, data := out.data)
  }

  /** The hooks before the header is read. */
  function Begin(srv: Server, c: Ctx): (Ctx, Option<Text>) {
    var early := srv.preHeader(c.data);
    var c := c.(data := early.data, path := if early.path.Some? then early.path.value else c.path);
    (if early.err.Some? then c.(errorType := PRE_READ_REQUEST_HEADER) else c, early.err)
  }

  /** The codec reads the header. It may leave a field that it reads as zero unassigned. */
  function TakeHeader(w: Traffic, c: Ctx): (Ctx, Option<Text>) {
    match w.header
    case HeaderEof => (c.(errorType := READ_REQUEST_HEADER), Some(EOF))
    case HeaderBad(msg) =>
      var text: Text := "ReadRequestHeader: " + msg;
      (c.(errorType := READ_REQUEST_HEADER), Some(text))
    case HeaderOk(s, m) =>
      (c.(reqSeq := if s != 0 then s else c.reqSeq, reqMethod := if m != "" then m else c.reqMethod), None)
  }

  /** From the service method to the service. */
  function Resolve(srv: Server, c: Ctx): (Ctx, Option<Text>) {
    var p := srv.parse(c.reqMethod);
    var c := c.(path := p.path, query := p.query);
    if p.err.Some? then (c.(errorType := INVALID_SERVICE_METHOD), p.err)
    else
      var err := srv.postHeader(See(c)).err;
      var c := Hooked(srv.postHeader, c);
      if err.Some? then (c.(errorType := POST_READ_REQUEST_HEADER), err)
      else
        var c := c.(service := srv.lookup(c.path));
        if c.service.None? then (c.(errorType := NOT_FOUND_SERVICE), Some("can't find service '" + c.path + "'"))
        else (c, None)
  }

  /** The body, between its hooks. */
  function TakeBody(srv: Server, w: Traffic, c: Ctx, s: Service): (Ctx, Option<Text>, Payload) {
    var before := Both(srv.preBody, s.preBody);
    var err := before(See(c)).err;
    var c := Hooked(before, c);
    if err.Some? then (c.(errorType := PRE_READ_REQUEST_BODY), err, "")
    else if w.body.BodyBad? then (c.(errorType := READ_REQUEST_BODY), Some("ReadRequestBody: " + w.body.msg), "")
    else
      var after := Both(s.postBody, srv.postBody);
      var err := after(See(c)).err;
      var c := Hooked(after, c);
      if err.Some? then (c.(errorType := POST_READ_REQUEST_BODY), err, "") else (c, None, w.body.payload)
  }

  /** The service's turn: the context, the error text and the reply. */
  function Invoke(c: Ctx, s: Service, payload: Payload): (Ctx, string, Payload) {
    match s.call(See(c), payload)
    case Panics => (c.(errorType := SERVICE_PANIC), "Service Panic!", "")
    case Returns(reply, err) =>
      if err.Some? then (c.(errorType := SERVICE), err.value, reply) else (c, "", reply)
  }

  /** `sendResponse`: the context afterwards and what reached the wire. */
  function Send(srv: Server, w: Traffic, c: Ctx, errmsg: string, reply: Payload): (Ctx, seq<WireResponse>) {
    var c := c.(respMethod := c.reqMethod, respError := if errmsg != "" then errmsg
        else c.respError, respSeq := c.reqSeq);
    var hook := if c.service.Some? then Both(srv.preWrite, c.service.value.preWrite) else srv.preWrite;
    var err := hook(See(c)).err;
    var c := Hooked(hook, c);
    var c := if err.Some? then c.(errorType := PRE_WRITE_RESPONSE, respError := err.value) else c;
    Write(w, c, if errmsg != "" || err.Some? then None else Some(reply))
  }

  /** An error text gets its type in front; a failed write is reported in a second one. */
  function Write(w: Traffic, c: Ctx, body: Option<Payload>): (Ctx, seq<WireResponse>) {
    var c := if c.respError != "" then c.(respError := Prefix(c.errorType) + c.respError) else c;
    if w.writeErr.None? then (c, [WireResponse(c.respMethod, c.respSeq, c.respError, body)])
    else
      var c := c.(errorType := WRITE_RESPONSE, respError := Prefix(WRITE_RESPONSE) + w.writeErr.value);
      (c, if w.secondWriteOk then [WireResponse(c.respMethod, c.respSeq, c.respError, None)] else [])
  }

  // ---------------------------------------------------------------- stages and the reference

  /** Routing gives what the reference says, although the context comes with an old path. */
  lemma ResolveIsRoute(srv: Server, c: Ctx)
    requires c.service.None?
    ensures var r := Resolve(srv, c);
            match Route(srv, c.reqSeq, c.reqMethod, c.data)
            case Hangup => false
            case Reject(f, v, s) => r.1 == Some(f.msg) && r.0.errorType == f.typ && See(r.0) == v && r.0.service == s
            case Ready(v, s, _) => r.1.None? && See(r.0) == v && r.0.service == Some(s)
    ensures NoResponse(c) ==> NoResponse(Resolve(srv, c).0)
  {
  }

  lemma BodyIsReadBody(srv: Server, w: Traffic, c: Ctx, s: Service)
    requires c.service == Some(s)
    ensures var r := TakeBody(srv, w, c, s);
            match ReadBody(srv, w, See(c), s)
            case Hangup => false
            case Reject(f, v, sv) => r.1 == Some(f.msg) && r.0.errorType == f.typ && See(r.0) == v && r.0.service == sv
            case Ready(v, sv, p) => r.1.None? && See(r.0) == v && r.0.service == Some(sv) && sv == s && r.2 == p
    ensures NoResponse(c) ==> NoResponse(TakeBody(srv, w, c, s).0)
  {
  }

  /** What `Send` is asked to report. */
  ghost function Told(c: Ctx, errmsg: string, reply: Payload): Result
    requires errmsg != "" ==> c.errorType >= 1
  {
    if errmsg != "" then Fault(Failure(c.errorType, errmsg)) else Value(Some(reply))
  }

  lemma SendIsWritten(srv: Server, w: Traffic, c: Ctx, errmsg: string, reply: Payload)
    requires c.respError == "" && (errmsg != "" ==> c.errorType >= 1)
    ensures var sent := Send(srv, w, c, errmsg, reply).1;
            var out := Written(w, PreWrite(srv, See(c), c.service, Told(c, errmsg, reply)));
            && |sent| == |out| <= 1
            && forall k :: 0 <= k < |sent| ==> sent[k] == ToWire(c.reqSeq, c.reqMethod, out[k])
  {
  }

  lemma InvokeIsCalled(c: Ctx, s: Service, payload: Payload)
    ensures var r := Invoke(c, s, payload);
            && (r.1 != "" ==> r.0.errorType >= 1) && Told(r.0, r.1, r.2) == Called(s, See(c), payload)
            && r.0 == c.(errorType := r.0.errorType)
  {
  }

  // ---------------------------------------------------------------- one turn, stage by stage

  /** How far a turn of the `ServeConn` loop, with the goroutine it may start, has come. */
  datatype Phase = Got | Begun | Headed | Routed | Fetched | Counted | Answering | Answered | Freed | Finished

  /** The variables of a turn; `sends` counts its calls of `sendResponse`. */
  datatype Local = Local(
    keep: bool, err: Option<Text>, payload: Payload, errmsg: string, reply: Payload,
    sends: nat, sent: seq<WireResponse>)

  const NO_LOCAL := Local(false, None, "", "", "", 0, [])

  datatype Turn = Turn(phase: Phase, ctx: Ctx, local: Local)

  /** The next stage of a turn. */
  function Next(srv: Server, w: Traffic, t: Turn): Turn {
    var c, l := t.ctx, t.local;
    match t.phase
    case Got =>
      var r := Begin(srv, c);
      Turn(if r.1.Some? then Fetched else Begun, r.0, l.(err := r.1))
    case Begun =>
      var r := TakeHeader(w, c);
      if r.1.Some? then Turn(Fetched, r.0, l.(err := r.1)) else Turn(Headed, r.0, l.(keep := true))
    case Headed =>
      var r := Resolve(srv, c);
      Turn(if r.1.Some? then Fetched else Routed, r.0, l.(err := r.1))
    case Routed =>
      if c.service.None? then t else
        var r := TakeBody(srv, w, c, c.service.value);
        Turn(Fetched, r.0, l.(err := r.1, payload := r.2))
    case Fetched => t.(phase := Counted)
    case Counted =>
      if l.err.Some? then
        if l.keep then Turn(Answering, c, l.(errmsg := l.err.value)) else t.(phase := Answered)
      else if c.service.None? then t
      else
        var r := Invoke(c, c.service.value, l.payload);
        Turn(Answering, r.0, l.(errmsg := r.1, reply := r.2))
    case Answering =>
      var r := Send(srv, w, c, l.errmsg, l.reply);
      Turn(Answered, r.0, l.(sends := l.sends + 1, sent := l.sent + r.1))
    case Answered => Turn(Freed, Reset(c), l)
    case Freed => t.(phase := Finished)
    case Finished => t
  }

  /** The answers are those of the reference, from one call of `sendResponse` if there is an answer. */
  ghost predicate AsReference(srv: Server, w: Traffic, l: Local) {
    AsFresh(srv, w, l.sent) && l.sends == if React(srv, w).NoAnswer? then 0 else 1
  }

  ghost predicate AsFresh(srv: Server, w: Traffic, sent: seq<WireResponse>) {
    match React(srv, w)
    case NoAnswer => sent == []
    case Answer(seqno, m, out) =>
      |sent| == |out| <= 1 && forall k :: 0 <= k < |sent| ==> sent[k] == ToWire(seqno, m, out[k])
  }

  /** Context and variables agree with how far the reference has got. */
  ghost predicate ReadSoFar(stage: Stage, t: Turn) {
    match stage
    case Hangup => !t.local.keep && t.local.err.Some?
    case Reject(f, v, s) =>
      t.local.keep && t.local.err == Some(f.msg) && t.ctx.errorType == f.typ && See(t.ctx) == v && t.ctx.service == s
    case Ready(v, s, p) =>
      t.local.keep && t.local.err.None? && See(t.ctx) == v && t.ctx.service == Some(s)
      && (t.phase != Routed ==> t.local.payload == p)
  }

  ghost predicate TurnInv(srv: Server, w: Traffic, t: Turn) {
    && (t.phase.Got? || t.phase.Begun? || t.phase.Headed? || t.phase.Routed? || t.phase.Fetched? || t.phase.Counted? ==>
          NoResponse(t.ctx) && t.local.sends == 0 && t.local.sent == [])
    && match t.phase
       case Got => Recycled(t.ctx) && t.ctx.data == map[] && t.local == NO_LOCAL
       case Begun =>
         && Recycled(t.ctx) && t.local == NO_LOCAL
         && srv.preHeader(map[]).err.None? && t.ctx.data == srv.preHeader(map[]).data
       case Headed =>
         && t.ctx.service.None? && t.local == NO_LOCAL.(keep := true)
         && ReadHeader(srv, w) == Route(srv, t.ctx.reqSeq, t.ctx.reqMethod, t.ctx.data)
       case Routed => ReadHeader(srv, w).Ready? && ReadSoFar(ReadHeader(srv, w), t)
       case Fetched => ReadSoFar(ReadRequest(srv, w), t)
       case Counted => ReadSoFar(ReadRequest(srv, w), t)
       case Answering =>
         && t.ctx.respError == "" && t.local.sends == 0 && t.local.sent == []
         && (t.local.errmsg != "" ==> t.ctx.errorType >= 1)
         && React(srv, w) == Answer(t.ctx.reqSeq, t.ctx.reqMethod,
                                    Written(w, PreWrite(srv, See(t.ctx), t.ctx.service, Told(t.ctx, t.local.errmsg,
                                        t.local.reply))))
       case Answered => AsReference(srv, w, t.local)
       case Freed => AsReference(srv, w, t.local)
       case Finished => AsReference(srv, w, t.local)
  }

  lemma ReadingKeepsInv(srv: Server, w: Traffic, t: Turn)
    requires TurnInv(srv, w, t) && t.phase in {Got, Begun, Headed, Routed}
    ensures TurnInv(srv, w, Next(srv, w, t))
  {
    hide Route;
    hide ReadBody;
    hide Resolve;
    hide TakeBody;
    match t.phase
    case Headed => ResolveIsRoute(srv, t.ctx);
    case Routed => BodyIsReadBody(srv, w, t.ctx, t.ctx.service.value);
    case _ =>
  }

  lemma AnsweringKeepsInv(srv: Server, w: Traffic, t: Turn)
    requires TurnInv(srv, w, t) && t.phase in {Fetched, Counted, Answering}
    ensures TurnInv(srv, w, Next(srv, w, t))
  {
    hide ReadRequest;
    hide Invoke;
    hide Called;
    hide Send;
    hide Written;
    hide PreWrite;
    hide ToWire;
    if t.phase == Answering {
      SendIsWritten(srv, w, t.ctx, t.local.errmsg, t.local.reply);
    } else if t.phase == Counted && t.ctx.service.Some? {
      InvokeIsCalled(t.ctx, t.ctx.service.value, t.local.payload);
    }
  }

  /** Every stage, on a context with whatever was left in it, keeps step with the reference. */
  lemma NextKeepsInv(srv: Server, w: Traffic, t: Turn)
    requires TurnInv(srv, w, t)
    ensures TurnInv(srv, w, Next(srv, w, t))
  {
    if t.phase in {Got, Begun, Headed, Routed} {
      ReadingKeepsInv(srv, w, t);
    } else if t.phase in {Fetched, Counted, Answering} {
      AnsweringKeepsInv(srv, w, t);
    }
  }

  // ---------------------------------------------------------------- the pooled object

  class Context {
    var reqSeq: nat
    var reqMethod: string
    var respSeq: nat
    var respMethod: string
    var respError: string
    var service: Option<Service>
    var path: string
    var query: string
    var data: map<string, string>
    var errorType: RawType

    ghost function Value(): Ctx
      reads this
    {
      Ctx(reqSeq, reqMethod, respSeq, respMethod, respError, service, path, query, data, errorType)
    }

    constructor ()
      ensures Value() == NEW_CTX && Recycled(Value())
    {
      reqSeq, reqMethod, respSeq, respMethod, respError := 0, "", 0, "", "";
      service, path, query, data, errorType := None, "", "", map[], 0;
    }

    method Put()
      modifies this
      ensures Value() == Reset(old(Value())) && Recycled(Value()) && path == old(path) && errorType == old(errorType)
    {
      data, reqMethod, reqSeq, respError, respSeq, respMethod := map[], "", 0, "", 0, "";
      service, query := None, "";
    }

    method RunHook(h: Hook) returns (err: Option<Text>)
      modifies this`path, this`data
      ensures Value() == Hooked(h, old(Value())) && err == h(See(old(Value()))).err
    {
      var out := h(View(reqSeq, reqMethod, path, query, data));
      path, data, err := out.path, out.data, out.err;
    }

    /** `readRequestHeader`: whatever a recycled context still holds, it ends up where the reference does. */
    method ReadRequestHeader(srv: Server, w: Traffic) returns (keepReading: bool, err: Option<Text>)
      requires Recycled(Value()) && data == map[]
      modifies this
      ensures NoResponse(Value())
      ensures match ReadHeader(srv, w)
              case Hangup => !keepReading && err.Some?
              case Reject(f, v, s) => keepReading && err == Some(f.msg) && errorType == f.typ
                  && See(Value()) == v && service == s
              case Ready(v, s, _) => keepReading && err.None? && See(Value()) == v && service == Some(s)
    {
      hide Route;
      var early := srv.preHeader(data);
      data := early.data;
      if early.path.Some? {
        path := early.path.value;
      }
      if early.err.Some? {
        errorType := PRE_READ_REQUEST_HEADER;
        return false, early.err;
      }
      match w.header {
        case HeaderEof =>
          errorType := READ_REQUEST_HEADER;
          return false, Some(EOF);
        case HeaderBad(msg) =>
          errorType := READ_REQUEST_HEADER;
          return false, Some("ReadRequestHeader: " + msg);
        case HeaderOk(s, m) =>
          reqSeq := if s != 0 then s else reqSeq;
          reqMethod := if m != "" then m else reqMethod;
      }
      ResolveIsRoute(srv, Value());
      err := FindService(srv);
      return true, err;
    }

    /** The second half of `readRequestHeader`. */
    method FindService(srv: Server) returns (err: Option<Text>)
      modifies this`path, this`query, this`data, this`service, this`errorType
      ensures (Value(), err) == Resolve(srv, old(Value()))
    {
      var p := srv.parse(reqMethod);
      path, query := p.path, p.query;
      if p.err.Some? {
        errorType := INVALID_SERVICE_METHOD;
        return p.err;
      }
      err := RunHook(srv.postHeader);
      if err.Some? {
        errorType := POST_READ_REQUEST_HEADER;
        return err;
      }
      service := srv.lookup(path);
      if service.None? {
        errorType := NOT_FOUND_SERVICE;
        return Some("can't find service '" + path + "'");
      }
    }

    method ReadRequestBody(srv: Server, w: Traffic, s: Service) returns (err: Option<Text>, payload: Payload)
      requires service == Some(s)
      modifies this`path, this`data, this`errorType
      ensures (Value(), err, payload) == TakeBody(srv, w, old(Value()), s)
      ensures match ReadBody(srv, w, See(old(Value())), s)
              case Hangup => false
              case Reject(f, v, sv) => err == Some(f.msg) && errorType == f.typ && See(Value()) == v && sv == Some(s)
              case Ready(v, sv, p) => err.None? && See(Value()) == v && sv == s && payload == p
    {
      BodyIsReadBody(srv, w, Value(), s);
      hide ReadBody;
      payload := "";
      err := RunHook(srv.preBody);
      if err.None? {
        err := RunHook(s.preBody);
      }
      if err.Some? {
        errorType := PRE_READ_REQUEST_BODY;
        return;
      }
      if w.body.BodyBad? {
        errorType := READ_REQUEST_BODY;
        return Some("ReadRequestBody: " + w.body.msg), "";
      }
      err := RunHook(s.postBody);
      if err.None? {
        err := RunHook(srv.postBody);
      }
      if err.Some? {
        errorType := POST_READ_REQUEST_BODY;
        return;
      }
      payload := w.body.payload;
    }

    /** `sendResponse` with `writeResponse`. An empty `errmsg` means the call succeeded. */
    method SendResponse(srv: Server, w: Traffic, errmsg: string, reply: Payload) returns (sent: seq<WireResponse>)
      requires respError == "" && (errmsg != "" ==> errorType >= 1)
      modifies this
      ensures (Value(), sent) == Send(srv, w, old(Value()), errmsg, reply)
      ensures var c := old(Value());
              var out := Written(w, PreWrite(srv, See(c), c.service, Told(c, errmsg, reply)));
              && |sent| == |out| <= 1
              && forall k :: 0 <= k < |sent| ==> sent[k] == ToWire(c.reqSeq, c.reqMethod, out[k])
    {
      SendIsWritten(srv, w, Value(), errmsg, reply);
      hide Write;
      hide Written;
      hide PreWrite;
      hide ToWire;
      respMethod := reqMethod;
      var body := Some(reply);
      if errmsg != "" {
        respError := errmsg;
        body := None;
      }
      respSeq := reqSeq;
      var err := RunHook(srv.preWrite);
      if err.None? && service.Some? {
        err := RunHook(service.value.preWrite);
      }
      if err.Some? {
        errorType := PRE_WRITE_RESPONSE;
        respError := err.value;
        body := None;
      }
      sent := WriteResponse(w, body);
    }

    /** The end of `writeResponse`: a failed write is reported in a second one. */
    method WriteResponse(w: Traffic, body: Option<Payload>) returns (sent: seq<WireResponse>)
      modifies this`respError, this`errorType
      ensures (Value(), sent) == Write(w, old(Value()), body)
    {
      if |respError| > 0 {
        respError := Prefix(errorType) + respError;
      }
      if w.writeErr.None? {
        return [WireResponse(respMethod, respSeq, respError, body)];
      }
      errorType := WRITE_RESPONSE;
      respError := Prefix(errorType) + w.writeErr.value;
      if w.secondWriteOk {
        return [WireResponse(respMethod, respSeq, respError, None)];
      }
      return [];
    }

    /** `ServeConn` for one request: read it, call the service or reject it, answer, put back. */
    method Serve(srv: Server, w: Traffic) returns (keepReading: bool, sent: seq<WireResponse>)
      requires Recycled(Value())
      modifies this
      ensures Recycled(Value())
      ensures AsFresh(srv, w, sent) && keepReading == React(srv, w).Answer?
    {
      hide ReadHeader;
      hide ReadBody;
      hide PreWrite;
      hide Written;
      hide ToWire;
      hide Send;
      hide TakeBody;
      hide Hooked;
      data := map[];
      sent := [];
      var err;
      keepReading, err := ReadRequestHeader(srv, w);
      var payload := "";
      if err.None? {
        err, payload := ReadRequestBody(srv, w, service.value);
      }
      if err.None? {
        match service.value.call(View(reqSeq, reqMethod, path, query, data), payload) {
          case Panics =>
            errorType := SERVICE_PANIC;
            sent := SendResponse(srv, w, "Service Panic!", "");
          case Returns(reply, e) =>
            if e.Some? {
              errorType := SERVICE;
            }
            sent := SendResponse(srv, w, if e.Some? then e.value else "", reply);
        }
      } else if keepReading {
        sent := SendResponse(srv, w, err.value, "");
      }
      Put();
    }
  }
}
