/**
 The Colfer rpc codec: messages written back to back on a connection, and the reader that finds
 them again through a sliding, growing buffer, whatever pieces the connection delivers.
 */
module ColferStream {
  import opened Common
  import opened ColferSchema
  import opened ColferMessages

  // ------------------------------------------------- what a Colfer type is

  /** The methods of a Colfer type over values `T`: `decode` is `Unmarshal` on a receiver, `ok`
      says which values are receivers, `fits` which values the type can hold. */
  datatype Colferer<!T> = Colferer(
    encode: T -> Bytes,
    decode: (T, Bytes) -> (T, Outcome),
    ok: T -> bool,
    fits: T -> bool,
    blank: T)

  ghost predicate DecodeLaws<T(!new)>(c: Colferer<T>, t: T, p: Bytes, d: Bytes)
  {
    var r := c.decode(t, p);
    && c.ok(r.0)
    && (p == [] ==> r == (t, Eof))
    && (|p| > COLFER_SIZE_MAX ==> r.1 != Eof)
    && (r.1.Done? ==> 1 <= r.1.n <= |p|)
    && (p <= d && r.1 != Eof ==> c.decode(t, d) == r)
    && (p <= d && r.1 == Eof ==> c.decode(r.0, d) == c.decode(t, d))
  }

  ghost predicate Deliverable<T(!new)>(c: Colferer<T>, t: T) {
    c.fits(t) && |c.encode(t)| <= COLFER_SIZE_MAX
  }

  /** The contract a Colfer type must honour for the stream reader to work. */
  ghost predicate Lawful<T(!new)>(c: Colferer<T>) {
    && c.ok(c.blank)
    && (forall t, p, d :: c.ok(t) ==> DecodeLaws(c, t, p, d))
    && (forall t :: Deliverable(c, t) ==> c.decode(c.blank, c.encode(t)) == (t, Done(|c.encode(t)|)))
  }

  /** The Colfer type of a schema. */
  function Message(schema: Schema): Colferer<seq<Value>> {
    Colferer(
      vals => if |vals| == |schema| then Encode(schema, vals) else [],
      (vals: seq<Value>, data: Bytes) =>
        if |vals| == |schema| then
          var r := Unmarshal(schema, vals, data);
          (r.vals, r.outcome)
        else (vals, Eof),
      (vals: seq<Value>) => |vals| == |schema|,
      (vals: seq<Value>) => WellTyped(schema, vals),
      Zeros(schema))
  }

  /** Every generated type is lawful: Header, ColfArgs and ColfReply among them. */
  lemma MessageLawful(schema: Schema)
    ensures Lawful(Message(schema))
  {
    var c := Message(schema);
    forall t, p, d | c.ok(t) ensures DecodeLaws(c, t, p, d) {
      SchemaLaws(schema, t, p, d);
    }
    forall t | Deliverable(c, t) ensures c.decode(c.blank, c.encode(t)) == (t, Done(|c.encode(t)|)) {
      RoundTrip(schema, t, Zeros(schema), []);
      OverlayIsMessage(schema, t, Zeros(schema));
      assert Encode(schema, t) + [] == Encode(schema, t);
    }
  }

  lemma SchemaLaws(schema: Schema, t: seq<Value>, p: Bytes, d: Bytes)
    requires |t| == |schema|
    ensures DecodeLaws(Message(schema), t, p, d)
  {
    if Unmarshal(schema, t, p).outcome != Eof {
      UnmarshalExtends(schema, t, p, p);
      if p <= d {
        UnmarshalExtends(schema, t, p, d);
      }
    } else {
      UnmarshalEofPrefix(schema, t, p, p);
      if p <= d {
        UnmarshalRetry(schema, t, p, d);
      }
    }
  }

  // ------------------------------------------------- the connection

  datatype IoError = EndOfStream | Broken

  /** One piece of input: bytes, and the error that the read finishing them reports. */
  datatype Delivery = Delivery(bytes: Bytes, err: Option<IoError>)

  ghost function Flat(ds: seq<Delivery>): Bytes {
    if ds == [] then [] else ds[0].bytes + Flat(ds[1..])
  }

  /** No read reports an error before everything has been delivered. */
  ghost predicate Clean(ds: seq<Delivery>) {
    forall k :: 0 <= k < |ds| ==> ds[k].err.None?
  }

  class Conn {
    var incoming: seq<Delivery>
    var sent: Bytes
    /** How many more bytes it takes before a write fails. */
    var room: nat

    constructor (incoming: seq<Delivery>, room: nat)
      ensures this.incoming == incoming && sent == [] && this.room == room
    {
      this.incoming, sent, this.room := incoming, [], room;
    }

    ghost function Pending(): Bytes
      reads this
    {
      Flat(incoming)
    }

    /** Fills part of `buf[from:]` with what comes next. The slice must not be empty: a reader
        that asks for nothing would never get on. */
    method Read(buf: array<Byte>, from: nat) returns (n: nat, err: Option<IoError>)
      requires from < buf.Length
      modifies this`incoming, buf
      ensures from + n <= buf.Length && n <= |old(Pending())|
      ensures buf[..from + n] == old(buf[..from]) + old(Pending())[..n]
      ensures Pending() == old(Pending())[n..]
      ensures old(incoming) == [] ==> err == Some(EndOfStream)
      ensures err.None? ==> |Pending()| + |incoming| < |old(Pending())| + |old(incoming)|
      ensures old(Clean(incoming)) ==> Clean(incoming) && (err.Some? ==>
                old(incoming) == [] && err == Some(EndOfStream))
    {
      if incoming == [] {
        return 0, Some(EndOfStream);
      }
      var d := incoming[0];
      var room := buf.Length - from;
      n := if |d.bytes| <= room then |d.bytes| else room;
      PutBytes(buf, from, d.bytes[..n]);
      ghost var rest := Flat(incoming[1..]);
      assert Pending() == d.bytes + rest;
      if |d.bytes| <= room {
        err := d.err;
        incoming := incoming[1..];
      } else {
        err := None;
        incoming := [d.(bytes := d.bytes[n..])] + incoming[1..];
        assert incoming[1..] == old(incoming)[1..];
      }
    }

    /** A write that fails may have sent part of its data. */
    method Write(data: Bytes) returns (ok: bool)
      modifies this`sent, this`room
      ensures ok == (|data| <= old(room))
      ensures sent == old(sent) + data[..Min(|data|, old(room))] && room == old(room) - Min(|data|, old(room))
    {
      ok := |data| <= room;
      var n := Min(|data|, room);
      sent := sent + data[..n];
      room := room - n;
    }
  }

  function Min(a: nat, b: nat): nat {
    if a < b then a else b
  }

  // ------------------------------------------------- the codec

  datatype Result = Ok | Bad(outcome: Outcome) | Io(err: IoError) | Mismatch

  const FIRST_BUFFER: nat := 32 * 1024

  function Pow4(n: nat): nat {
    if n == 0 then 1 else 4 * Pow4(n - 1)
  }

  class Codec {
    const conn: Conn
    var buf: array<Byte>
    var offset: nat
    var i: nat
    /** How often the buffer has been enlarged. */
    ghost var grown: nat

    ghost predicate Valid()
      reads this
    {
      && offset <= i <= buf.Length
      && grown <= 5 && buf.Length == FIRST_BUFFER * Pow4(grown)
    }

    ghost function Buffered(): Bytes
      requires Valid()
      reads this, buf
    {
      buf[offset..i]
    }

    /** Everything not yet consumed: buffered bytes, then bytes still in the connection. */
    ghost function Unread(): Bytes
      requires Valid()
      reads this, buf, conn
    {
      Buffered() + conn.Pending()
    }

    constructor (conn: Conn)
      ensures Valid() && fresh(buf) && this.conn == conn && Unread() == conn.Pending()
      ensures buf.Length == 32768
    {
      this.conn := conn;
      buf := new Byte[FIRST_BUFFER](_ => 0);
      offset, i, grown := 0, 0, 0;
    }

    /** The buffer never exceeds 32 MiB. */
    lemma BufferBound()
      requires Valid()
      ensures buf.Length <= 32 * 1024 * 1024
    {
      Pow4Bound(grown);
    }

    static lemma Pow4Bound(n: nat)
      requires n <= 5
      ensures Pow4(n) <= 1024 && (n == 5 ==> Pow4(n) == 1024)
    {
      assert Pow4(2) == 16;
      assert Pow4(4) == 256;
    }

    /** Makes `buf[i:]` non-empty: slides the data down, or enlarges a buffer it fills. Only data
        that is still incomplete at the full buffer length is enlarged for, so the size limit
        bounds how often that happens. */
    method MakeRoom()
      requires Valid() && (offset == 0 && i == buf.Length ==> buf.Length <= COLFER_SIZE_MAX)
      modifies this, buf
      ensures Valid() && i < buf.Length && Buffered() == old(Buffered())
      ensures buf == old(buf) || fresh(buf)
    {
      if i >= buf.Length {
        if offset == 0 {
          var bigger := new Byte[buf.Length * 4](_ => 0);
          forall k | 0 <= k < buf.Length {
            bigger[k] := buf[k];
          }
          assert grown < 5 by {
            Pow4Bound(grown);
          }
          buf := bigger;
          grown := grown + 1;
          assert Buffered() == old(Buffered());
        } else {
          ghost var data := Buffered();
          forall k | 0 <= k < i - offset {
            buf[k] := buf[offset + k];
          }
          i := i - offset;
          offset := 0;
          assert Buffered() == data;
        }
      }
    }

    /** One `conn.Read` behind the buffered data. */
    method Fill() returns (err: Option<IoError>)
      requires Valid() && (offset == 0 && i == buf.Length ==> buf.Length <= COLFER_SIZE_MAX)
      modifies this, buf, conn`incoming
      ensures Valid() && (buf == old(buf) || fresh(buf))
      ensures Unread() == old(Unread())
      ensures err.None? ==> |conn.Pending()| + |conn.incoming| < |old(conn.Pending())| + |old(conn.incoming)|
      ensures old(Clean(conn.incoming)) ==>
                Clean(conn.incoming) && (err.Some? ==> err == Some(EndOfStream) && Unread() == old(Buffered()))
    {
      hide Flat;
      ghost var p, pending := Buffered(), conn.Pending();
      MakeRoom();
      ghost var at, before := i, buf[..];
      assert buf[offset..i] == p;
      var n;
      n, err := conn.Read(buf, i);
      i := i + n;
      FilledBuffer(before, buf[..], offset, at, n, pending[..n]);
      assert Unread() == p + pending;
      if old(Clean(conn.incoming)) && err.Some? {
        NothingPending(old(conn.incoming));
      }
    }

    static lemma NothingPending(ds: seq<Delivery>)
      ensures ds == [] ==> Flat(ds) == []
    {
    }

    static lemma FilledBuffer(before: Bytes, after: Bytes, offset: nat, i: nat, n: nat, add: Bytes)
      requires offset <= i && i + n <= |before| == |after| && |add| == n
      requires after[..i + n] == before[..i] + add
      ensures after[offset..i + n] == before[offset..i] + add
    {
      assert after[offset..i + n] == after[..i + n][offset..];
    }

    /** Reads one message into receiver `dst`. With a lawful type, this loop over whatever pieces
        arrive does what one `Unmarshal` of the whole unread stream does. */
    method Decode<T(!new)>(v: Colferer<T>, dst: T) returns (out: T, r: Result)
      requires Valid() && Lawful(v) && v.ok(dst)
      modifies this, buf, conn`incoming
      ensures Valid() && v.ok(out) && (buf == old(buf) || fresh(buf))
      ensures r != Mismatch
      ensures r == Ok ==> var s := v.decode(dst, old(Unread()));
                          s.1.Done? && out == s.0 && s.1.n <= |old(Unread())| && Unread() == old(Unread())[s.1.n..]
      ensures r != Ok ==> Unread() == old(Unread())
      ensures r.Bad? ==> !r.outcome.Done? && r.outcome != Eof && v.decode(dst, old(Unread())) == (out, r.outcome)
      ensures old(Clean(conn.incoming)) ==> Clean(conn.incoming)
                                            && (r.Io? <==> v.decode(dst, old(Unread())).1 == Eof)
                                            && (r.Io? ==> r.err == EndOfStream)
    {
      hide Flat;
      hide Clean;
      hide Lawful;
      out := dst;
      ghost var all := Unread();
      while true
        invariant Valid() && v.ok(out) && (buf == old(buf) || fresh(buf))
        invariant Unread() == all && v.decode(out, all) == v.decode(dst, all)
        invariant old(Clean(conn.incoming)) ==> Clean(conn.incoming)
        decreases |conn.Pending()| + |conn.incoming|
      {
        ghost var p := Buffered();
        Attempt(v, out, p, all);
        if offset < i {
          var s := v.decode(out, buf[offset..i]);
          out := s.0;
          match s.1 {
            case Done(n) =>
              offset := offset + n;
              assert Unread() == all[n..];
              return out, Ok;
            case Eof =>
            case Unknown(_) => return out, Bad(s.1);
            case TooBig => return out, Bad(s.1);
          }
        }
        var err := Fill();
        if err.Some? {
          Attempt(v, out, p, all);
          return out, Io(err.value);
        }
      }
    }

    static lemma Attempt<T(!new)>(v: Colferer<T>, t: T, p: Bytes, all: Bytes)
      requires Lawful(v) && v.ok(t)
      ensures DecodeLaws(v, t, p, all)
    {
    }

    /** `ReadRequestHeader` and `ReadResponseHeader`: the reused header is cleared first. */
    method ReadHeader() returns (h: seq<Value>, r: Result)
      requires Valid()
      modifies this, buf, conn`incoming
      ensures Valid() && (buf == old(buf) || fresh(buf)) && |h| == 3
      ensures old(Clean(conn.incoming)) ==> Clean(conn.incoming)
      ensures r != Ok ==> Unread() == old(Unread())
      ensures forall sent, rest :: old(Clean(conn.incoming)) && Deliverable(Message(HEADER), sent)
                                   && old(Unread()) == Encode(HEADER, sent) + rest
                ==> r == Ok && h == sent && Unread() == rest
    {
      hide Lawful;
      hide Clean;
      MessageLawful(HEADER);
      HeaderReceiver();
      h, r := Decode(Message(HEADER), Zeros(HEADER));
      ghost var all := old(Unread());
      forall sent, rest | old(Clean(conn.incoming)) && Deliverable(Message(HEADER), sent)
          && all == Encode(HEADER, sent) + rest
        ensures r == Ok && h == sent && Unread() == rest
      {
        FrontMessage(Message(HEADER), sent, rest);
      }
    }

    static lemma HeaderReceiver()
      ensures Message(HEADER).ok(Zeros(HEADER)) && Message(HEADER).blank == Zeros(HEADER)
      ensures forall h :: Message(HEADER).ok(h) ==> |h| == 3
      ensures forall h :: Deliverable(Message(HEADER), h) ==>
                |h| == |HEADER| && Message(HEADER).encode(h) == Encode(HEADER, h)
    {
    }

    /** A message at the front of the stream is the one that is read, and all of it is consumed. */
    static lemma FrontMessage<T(!new)>(v: Colferer<T>, sent: T, rest: Bytes)
      requires Lawful(v) && Deliverable(v, sent)
      ensures v.decode(v.blank, v.encode(sent) + rest) == (sent, Done(|v.encode(sent)|))
    {
      var e := v.encode(sent);
      assert DecodeLaws(v, v.blank, e, e + rest);
    }

    /** `ReadRequestBody` and `ReadResponseBody`: a target that is not a Colfer type (a nil body
        among them) is refused, and the body stays on the stream. */
    method ReadBody<T(!new)>(target: Option<Colferer<T>>, dst: T) returns (out: T, r: Result)
      requires Valid() && (target.Some? ==> Lawful(target.value) && target.value.ok(dst))
      modifies this, buf, conn`incoming
      ensures Valid() && (buf == old(buf) || fresh(buf))
      ensures old(Clean(conn.incoming)) ==> Clean(conn.incoming)
      ensures r != Ok ==> Unread() == old(Unread())
      ensures target.None? <==> r == Mismatch
      ensures target.Some? && r == Ok ==>
                var s := target.value.decode(dst, old(Unread()));
                s.1.Done? && out == s.0 && s.1.n <= |old(Unread())| && Unread() == old(Unread())[s.1.n..]
      ensures target.Some? && r.Bad? ==> target.value.decode(dst, old(Unread())) == (out, r.outcome)
      ensures target.Some? && dst == target.value.blank ==>
                forall sent, rest :: old(Clean(conn.incoming)) && Deliverable(target.value, sent)
                                     && old(Unread()) == target.value.encode(sent) + rest
                  ==> r == Ok && out == sent && Unread() == rest
    {
      if target.None? {
        return dst, Mismatch;
      }
      hide Clean;
      var v := target.value;
      out, r := Decode(v, dst);
      ghost var all := old(Unread());
      forall sent, rest | dst == v.blank && old(Clean(conn.incoming)) && Deliverable(v, sent)
          && all == v.encode(sent) + rest
        ensures r == Ok && out == sent && Unread() == rest
      {
        FrontMessage(v, sent, rest);
      }
    }

    /** `WriteRequest` and `WriteResponse`: header and body leave in one write. A body that is no Colfer
        type, or a half above the limit, sends nothing; a failing connection sends a part. */
    method Write<T(!new)>(h: Header, target: Option<Colferer<T>>, body: T) returns (ok: bool)
      requires h.Valid()
      modifies conn`sent, conn`room
      ensures var good := target.Some? && |Encode(HEADER, h.Fields())| <= COLFER_SIZE_MAX
                          && |target.value.encode(body)| <= COLFER_SIZE_MAX;
              var bytes := if good then Encode(HEADER, h.Fields()) + target.value.encode(body) else [];
              && (ok <==> good && |bytes| <= old(conn.room))
              && conn.sent == old(conn.sent) + bytes[..Min(|bytes|, old(conn.room))]
              && conn.room == old(conn.room) - Min(|bytes|, old(conn.room))
    {
      hide Encode;
      if target.None? {
        return false;
      }
      var hl, hok := h.MarshalLen();
      var b := target.value.encode(body);
      if !hok || |b| > COLFER_SIZE_MAX {
        return false;
      }
      var out := new Byte[hl + |b|](_ => 0);
      var n := h.MarshalTo(out, 0);
      PutBytes(out, n, b);
      assert out[..] == Encode(HEADER, h.Fields()) + b;
      ok := conn.Write(out[..]);
    }
  }

  // ------------------------------------------------- whole conversations

  datatype Frame<!T> = Frame(header: seq<Value>, body: T)

  /** Both halves respect the size limit, so that `Codec.Write` sends them. */
  ghost predicate Sendable<T(!new)>(v: Colferer<T>, f: Frame<T>) {
    Deliverable(Message(HEADER), f.header) && Deliverable(v, f.body)
  }

  /** The bytes of the frames, back to back. */
  ghost function Wire<T(!new)>(v: Colferer<T>, frames: seq<Frame<T>>): Bytes {
    if frames == [] then []
    else Message(HEADER).encode(frames[0].header) + v.encode(frames[0].body) + Wire(v, frames[1..])
  }

  /** One header and one body: the frame at the front of the stream. */
  method ReadFrame<T(!new)>(c: Codec, v: Colferer<T>, ghost sent: Frame<T>, ghost rest: Bytes) returns (got: Frame<T>)
    requires c.Valid() && Lawful(v) && Clean(c.conn.incoming) && Sendable(v, sent)
    requires c.Unread() == Message(HEADER).encode(sent.header) + (v.encode(sent.body) + rest)
    modifies c, c.buf, c.conn`incoming
    ensures got == sent
    ensures c.Valid() && Clean(c.conn.incoming) && (c.buf == old(c.buf) || fresh(c.buf)) && c.Unread() == rest
  {
    hide Clean;
    LawfulBlank(v);
    hide Lawful;
    Codec.HeaderReceiver();
    hide Message;
    var h, r := c.ReadHeader();
    assert h == sent.header;
    var b;
    b, r := c.ReadBody(Some(v), v.blank);
    got := Frame(h, b);
  }

  /** Successive header and body reads return exactly the frames that were sent, in order, however
      the connection cut their bytes up, and leave what follows them untouched. */
  method ReadBack<T(!new)>(c: Codec, v: Colferer<T>, ghost sent: seq<Frame<T>>, count: nat, ghost tail: Bytes)
      returns (got: seq<Frame<T>>)
    requires c.Valid() && Lawful(v) && Clean(c.conn.incoming)
    requires |sent| == count && (forall k :: 0 <= k < count ==> Sendable(v, sent[k]))
    requires c.Unread() == Wire(v, sent) + tail
    modifies c, c.buf, c.conn`incoming
    ensures got == sent
    ensures c.Valid() && c.Unread() == tail
  {
    hide Lawful;
    hide Clean;
    hide Message;
    hide Codec.Unread;
    got := [];
    assert sent[0..] == sent;
    while |got| < count
      invariant c.Valid() && Clean(c.conn.incoming) && (c.buf == old(c.buf) || fresh(c.buf))
      invariant |got| <= count && got == sent[..|got|]
      invariant c.Unread() == Wire(v, sent[|got|..]) + tail
    {
      ghost var left := sent[|got|..];
      NextFrame(v, left, tail);
      var f := ReadFrame(c, v, left[0], Wire(v, left[1..]) + tail);
      assert left[1..] == sent[|got| + 1..];
      got := got + [f];
    }
  }

  lemma Regroup(a: Bytes, b: Bytes, c: Bytes, d: Bytes)
    ensures (a + b + c) + d == a + (b + (c + d))
  {
  }

  lemma NextFrame<T(!new)>(v: Colferer<T>, frames: seq<Frame<T>>, tail: Bytes)
    requires frames != []
    ensures Wire(v, frames) + tail
            == Message(HEADER).encode(frames[0].header) + (v.encode(frames[0].body) + (Wire(v, frames[1..]) + tail))
  {
    hide Message;
    Regroup(Message(HEADER).encode(frames[0].header), v.encode(frames[0].body), Wire(v, frames[1..]), tail);
  }

  lemma LawfulBlank<T(!new)>(v: Colferer<T>)
    requires Lawful(v)
    ensures v.ok(v.blank)
  {
  }

  // ------------------------------------------------- both ends

  lemma {:induction false} WireSnoc<T(!new)>(v: Colferer<T>, frames: seq<Frame<T>>, f: Frame<T>)
    ensures Wire(v, frames + [f]) == Wire(v, frames) + (Message(HEADER).encode(f.header) + v.encode(f.body))
  {
    hide Message;
    if frames == [] {
      assert frames + [f] == [f];
      assert [f][1..] == [];
      assert Wire(v, []) == [];
    } else {
      assert (frames + [f])[1..] == frames[1..] + [f];
      WireSnoc(v, frames[1..], f);
    }
  }

  method WriteFrame<T(!new)>(c: Codec, v: Colferer<T>, f: Frame<T>) returns (ok: bool)
    requires Sendable(v, f)
    modifies c.conn`sent, c.conn`room
    ensures var bytes := Message(HEADER).encode(f.header) + v.encode(f.body);
            && (ok <==> |bytes| <= old(c.conn.room))
            && (ok ==> c.conn.sent == old(c.conn.sent) + bytes && c.conn.room == old(c.conn.room) - |bytes|)
  {
    HeaderFields(v, f);
    hide Sendable;
    hide Message;
    hide Encode;
    var h := new Header(f.header[0].n, f.header[1].s, f.header[2].s);
    ghost var bytes := Encode(HEADER, f.header) + v.encode(f.body);
    ok := c.Write(h, Some(v), f.body);
    assert bytes[..|bytes|] == bytes;
  }

  /** Writes the frames one after the other. If all writes succeed the connection has sent exactly their
      bytes, back to back; and they do if it takes that many. */
  method WriteFrames<T(!new)>(c: Codec, v: Colferer<T>, frames: seq<Frame<T>>) returns (ok: bool)
    requires forall k :: 0 <= k < |frames| ==> Sendable(v, frames[k])
    modifies c.conn`sent, c.conn`room
    ensures ok ==> c.conn.sent == old(c.conn.sent) + Wire(v, frames)
    ensures ok <==> |Wire(v, frames)| <= old(c.conn.room)
  {
    hide Wire;
    hide Message;
    hide Sendable;
    NoFrames(v);
    var k := 0;
    ok := true;
    while k < |frames|
      invariant 0 <= k <= |frames|
      invariant c.conn.sent == old(c.conn.sent) + Wire(v, frames[..k])
      invariant c.conn.room + |Wire(v, frames[..k])| == old(c.conn.room)
    {
      var f := frames[k];
      assert frames[..k + 1] == frames[..k] + [f];
      WireSnoc(v, frames[..k], f);
      var good := WriteFrame(c, v, f);
      if !good {
        WireGrows(v, frames, k + 1);
        return false;
      }
      k := k + 1;
    }
    assert frames[..k] == frames;
  }

  lemma NoFrames<T(!new)>(v: Colferer<T>)
    ensures Wire(v, []) == []
  {
  }

  lemma HeaderFields<T(!new)>(v: Colferer<T>, f: Frame<T>)
    requires Sendable(v, f)
    ensures |f.header| == 3 && f.header == [Num(f.header[0].n), Str(f.header[1].s), Str(f.header[2].s)]
    ensures 0 <= f.header[0].n < TWO_64
    ensures Message(HEADER).encode(f.header) == Encode(HEADER, f.header)
    ensures |Encode(HEADER, f.header)| <= COLFER_SIZE_MAX && |v.encode(f.body)| <= COLFER_SIZE_MAX
  {
    assert WellTyped(HEADER, f.header);
    assert Fits(HEADER[0], f.header[0]) && Fits(HEADER[1], f.header[1]) && Fits(HEADER[2], f.header[2]);
  }

  lemma {:induction false} WireGrows<T(!new)>(v: Colferer<T>, frames: seq<Frame<T>>, k: nat)
    requires k <= |frames|
    ensures |Wire(v, frames[..k])| <= |Wire(v, frames)|
  {
    hide Wire;
    if k == |frames| {
      assert frames[..k] == frames;
    } else {
      var n := |frames| - 1;
      assert frames[..n][..k] == frames[..k];
      WireGrows(v, frames[..n], k);
      assert frames == frames[..n] + [frames[n]];
      WireSnoc(v, frames[..n], frames[n]);
    }
  }

  /** A conversation in one direction: whatever list of frames one codec writes, and in whatever pieces the
      bytes arrive, a codec at the other end reads exactly those frames in order. */
  method Converse<T(!new)>(writer: Codec, v: Colferer<T>, frames: seq<Frame<T>>, pieces: seq<Delivery>)
      returns (got: seq<Frame<T>>)
    requires Lawful(v) && (forall k :: 0 <= k < |frames| ==> Sendable(v, frames[k]))
    requires |Wire(v, frames)| <= writer.conn.room && writer.conn.sent == []
    requires Clean(pieces) && Flat(pieces) == Wire(v, frames)
    modifies writer.conn`sent, writer.conn`room
    ensures writer.conn.sent == Flat(pieces)
    ensures got == frames
  {
    hide Wire;
    hide Flat;
    hide Clean;
    hide Lawful;
    hide Sendable;
    var ok := WriteFrames(writer, v, frames);
    var conn := new Conn(pieces, 0);
    var reader := new Codec(conn);
    assert reader.Unread() == Wire(v, frames) + [];
    got := ReadBack(reader, v, frames, |frames|, []);
  }
}
