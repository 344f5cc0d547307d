/**
 Colfer serialisation, for any message whose fields are unsigned 64-bit numbers, texts and
 signed 32-bit numbers. The generated Go types of codec/colfer are the instances `HEADER`,
 `ARGS` and `REPLY`; the generated code of each field kind is the same up to its tag.

 Field `k` is written under tag `k` (or `k + 128` for its alternative form), fields that hold
 their zero value are left out, and the byte 0x7f ends the message.
 */
module ColferSchema {

  type Byte = b: int | 0 <= b < 256
  type Bytes = seq<Byte>

  const COLFER_SIZE_MAX: nat := 16 * 1024 * 1024
  const TERMINATOR: Byte := 0x7f
  const TWO_31: int := 0x8000_0000
  const TWO_32: int := 0x1_0000_0000
  const TWO_64: int := 0x1_0000_0000_0000_0000
  /** From this value on a 64-bit number is written as eight bytes. */
  const FIXED_FROM: int := 0x2_0000_0000_0000

  datatype Kind = U64 | Text | I32
  /** A field's value: numbers use `n`, texts use `s`, and the other half stays empty. */
  datatype Value = Value(n: int, s: Bytes)

  function Num(n: int): Value { Value(n, []) }
  function Str(s: Bytes): Value { Value(0, s) }
  const ZERO := Value(0, [])

  type Tag = t: nat | t < 127
  type Schema = s: seq<Kind> | |s| <= 127

  const HEADER: Schema := [U64, Text, Text]
  const ARGS: Schema := [I32, I32]
  const REPLY: Schema := [I32]

  predicate Fits(kind: Kind, v: Value) {
    match kind
    case U64 => 0 <= v.n < TWO_64 && v.s == []
    case Text => v.n == 0 && |v.s| < TWO_32
    case I32 => -TWO_31 <= v.n < TWO_31 && v.s == []
  }

  predicate WellTyped(schema: Schema, vals: seq<Value>) {
    |vals| == |schema| && forall k :: 0 <= k < |vals| ==> Fits(schema[k], vals[k])
  }

  function Zeros(schema: Schema): seq<Value> {
    seq(|schema|, _ => ZERO)
  }

  // ---------------------------------------------------------------- writing

  function Varint(x: nat): (r: Bytes)
    ensures |r| >= 1
  {
    if x < 128 then [x] else [x % 128 + 128] + Varint(x / 128)
  }

  /** Eight bytes, the most significant first. */
  function Fixed8(x: nat): (r: Bytes)
    ensures |r| == 8
  {
    [x / 0x100_0000_0000_0000 % 256, x / 0x1_0000_0000_0000 % 256, x / 0x100_0000_0000 % 256, x / 0x1_0000_0000 % 256,
     x / 0x100_0000 % 256, x / 0x1_0000 % 256, x / 0x100 % 256, x % 256]
  }

  function EncodeField(kind: Kind, tag: Tag, v: Value): Bytes {
    match kind
    case U64 =>
      if v.n >= FIXED_FROM then [tag + 128] + Fixed8(v.n)
      else if v.n > 0 then [tag] + Varint(v.n)
      else []
    case Text =>
      if v.s != [] then [tag] + Varint(|v.s|) + v.s else []
    case I32 =>
      if v.n > 0 then [tag] + Varint(v.n)
      else if v.n < 0 then [tag + 128] + Varint(-v.n)
      else []
  }

  function EncodeFrom(schema: Schema, vals: seq<Value>, k: nat): Bytes
    requires k <= |schema| == |vals|
    decreases |schema| - k
  {
    if k == |schema| then [TERMINATOR]
    else EncodeField(schema[k], k, vals[k]) + EncodeFrom(schema, vals, k + 1)
  }

  function Encode(schema: Schema, vals: seq<Value>): Bytes
    requires |vals| == |schema|
  {
    EncodeFrom(schema, vals, 0)
  }

  // ---------------------------------------------------------------- reading

  datatype Read = Cut | Got(x: nat, next: nat)

  /** Reads a varint at `i`. After `cap` continuation bytes the next byte is taken whole (the
      64-bit form allows eight); a negative `cap` never stops a continuation. */
  function ReadVar(data: Bytes, i: nat, cap: int): (r: Read)
    ensures r.Got? ==> i < r.next <= |data|
    decreases |data| - i
  {
    if i >= |data| then Cut
    else if cap == 0 || data[i] < 128 then Got(data[i], i + 1)
    else match ReadVar(data, i + 1, cap - 1)
      case Cut => Cut
      case Got(x, j) => Got(data[i] - 128 + 128 * x, j)
  }

  function FromFixed8(s: Bytes): nat
    requires |s| == 8
  {
    (s[0] as int) * 0x100_0000_0000_0000 + (s[1] as int) * 0x1_0000_0000_0000 + (s[2] as int) * 0x100_0000_0000
        + (s[3] as int) * 0x1_0000_0000
    + (s[4] as int) * 0x100_0000 + (s[5] as int) * 0x1_0000 + (s[6] as int) * 0x100 + (s[7] as int)
  }

  /** The int32 that has the same low 32 bits as `x`. */
  function ToInt32(x: int): int {
    var m := x % TWO_32;
    if m < TWO_31 then m else m - TWO_32
  }

  /** What one field's reader leaves behind: the field's value, and where the next tag was found
      unless the data ran out. */
  datatype Step = Short(v: Value) | Next(i: nat, tag: Byte, v: Value)

  function NextTag(data: Bytes, i: nat, v: Value): Step {
    if i >= |data| then Short(v) else Next(i + 1, data[i], v)
  }

  /** Reads field number `k`, given the tag byte `tag` that stands just before `data[i]`. */
  function ParseField(kind: Kind, k: Tag, data: Bytes, i: nat, tag: Byte, v: Value): Step {
    if !(tag == k || (tag == k + 128 && kind != Text)) then Next(i, tag, v)
    else if kind == U64 && tag == k + 128 then
      if i + 8 >= |data| then Short(v)
      else NextTag(data, i + 8, Num(FromFixed8(data[i..i + 8])))
    else
      match ReadVar(data, i, if kind == U64 then 8 else -1)
      case Cut => Short(v)
      case Got(x, j) =>
        match kind
        case U64 => NextTag(data, j, Num(x))
        case I32 => NextTag(data, j, Num(ToInt32(if tag == k then x else 0 - x)))
        case Text =>
          var to := j + x % TWO_32;
          if to >= |data| then Short(v) else NextTag(data, to, Str(data[j..to]))
  }

  datatype Outcome = Done(n: nat) | Eof | Unknown(at: nat) | TooBig
  datatype Parsed = Parsed(vals: seq<Value>, outcome: Outcome)

  function ParseFrom(schema: Schema, k: nat, data: Bytes, i: nat, tag: Byte, vals: seq<Value>): (r: Parsed)
    requires k <= |schema| == |vals| && 1 <= i
    ensures |r.vals| == |schema|
    decreases |schema| - k
  {
    if k == |schema| then Parsed(vals, if tag == TERMINATOR then Done(i) else Unknown(i - 1))
    else match ParseField(schema[k], k, data, i, tag, vals[k])
      case Short(v) => Parsed(vals[k := v], Eof)
      case Next(j, t, v) => ParseFrom(schema, k + 1, data, j, t, vals[k := v])
  }

  function ParseWhole(schema: Schema, vals: seq<Value>, data: Bytes): (r: Parsed)
    requires |vals| == |schema|
    ensures |r.vals| == |schema|
  {
    if data == [] then Parsed(vals, Eof) else ParseFrom(schema, 0, data, 1, data[0], vals)
  }

  /** The generated `Unmarshal`: `vals` are the receiver's fields before the call. */
  function Unmarshal(schema: Schema, vals: seq<Value>, data: Bytes): (r: Parsed)
    requires |vals| == |schema|
    ensures |r.vals| == |schema|
  {
    if |data| > COLFER_SIZE_MAX then
      var r := ParseWhole(schema, vals, data[..COLFER_SIZE_MAX]);
      if r.outcome == Eof then r.(outcome := TooBig) else r
    else ParseWhole(schema, vals, data)
  }

  // ------------------------------------------------- stability under extension

  lemma {:induction false} ReadVarExtends(p: Bytes, d: Bytes, i: nat, cap: int)
    requires p <= d && ReadVar(p, i, cap).Got?
    ensures ReadVar(d, i, cap) == ReadVar(p, i, cap)
    decreases |p| - i
  {
    if !(cap == 0 || p[i] < 128) {
      ReadVarExtends(p, d, i + 1, cap - 1);
    }
  }

  lemma FieldExtends(kind: Kind, k: Tag, p: Bytes, d: Bytes, i: nat, tag: Byte, v: Value)
    requires p <= d && ParseField(kind, k, p, i, tag, v).Next?
    ensures ParseField(kind, k, d, i, tag, v) == ParseField(kind, k, p, i, tag, v)
    ensures i <= |p| ==> ParseField(kind, k, p, i, tag, v).i <= |p|
  {
    var cap := if kind == U64 then 8 else -1;
    if ReadVar(p, i, cap).Got? {
      ReadVarExtends(p, d, i, cap);
      var r := ReadVar(p, i, cap);
      if r.next + r.x % TWO_32 < |p| {
        assert p[r.next..r.next + r.x % TWO_32] == d[r.next..r.next + r.x % TWO_32];
      }
    }
    if i + 8 < |p| {
      assert p[i..i + 8] == d[i..i + 8];
    }
  }

  lemma {:induction false} ParseFromExtends(schema: Schema, k: nat, p: Bytes, d: Bytes, i: nat, tag: Byte,
                                            vals: seq<Value>)
    requires k <= |schema| == |vals| && 1 <= i <= |p| && p <= d
    requires ParseFrom(schema, k, p, i, tag, vals).outcome != Eof
    ensures ParseFrom(schema, k, d, i, tag, vals) == ParseFrom(schema, k, p, i, tag, vals)
    ensures var o := ParseFrom(schema, k, p, i, tag, vals).outcome;
            (o.Done? && 1 <= o.n <= |p|) || (o.Unknown? && o.at < |p|)
    decreases |schema| - k
  {
    if k < |schema| {
      FieldExtends(schema[k], k, p, d, i, tag, vals[k]);
      var s := ParseField(schema[k], k, p, i, tag, vals[k]);
      ParseFromExtends(schema, k + 1, p, d, s.i, s.tag, vals[k := s.v]);
    }
  }

  lemma WholeExtends(schema: Schema, vals: seq<Value>, p: Bytes, d: Bytes)
    requires |vals| == |schema| && p <= d && ParseWhole(schema, vals, p).outcome != Eof
    ensures ParseWhole(schema, vals, d) == ParseWhole(schema, vals, p)
    ensures var o := ParseWhole(schema, vals, p).outcome;
            (o.Done? && 1 <= o.n <= |p|) || (o.Unknown? && o.at < |p|)
  {
    ParseFromExtends(schema, 0, p, d, 1, p[0], vals);
  }

  /** A verdict other than EOF is final: no further byte changes it or the fields read. */
  lemma UnmarshalExtends(schema: Schema, vals: seq<Value>, p: Bytes, d: Bytes)
    requires |vals| == |schema| && p <= d && Unmarshal(schema, vals, p).outcome != Eof
    ensures Unmarshal(schema, vals, d) == Unmarshal(schema, vals, p)
    ensures var o := Unmarshal(schema, vals, p).outcome;
            (o.Done? ==> 1 <= o.n <= |p|) && (o.Unknown? ==> o.at < |p|)
  {
    var p', d' := p, d;
    if |p| > COLFER_SIZE_MAX {
      p' := p[..COLFER_SIZE_MAX];
    }
    if |d| > COLFER_SIZE_MAX {
      d' := d[..COLFER_SIZE_MAX];
    }
    assert p' <= d';
    if ParseWhole(schema, vals, p').outcome != Eof {
      WholeExtends(schema, vals, p', d');
    } else {
      assert p' == d';
    }
  }

  /** EOF is never the verdict on data above the size limit, and on shorter data it is also the
      verdict on every prefix. */
  lemma UnmarshalEofPrefix(schema: Schema, vals: seq<Value>, p: Bytes, d: Bytes)
    requires |vals| == |schema| && p <= d && Unmarshal(schema, vals, d).outcome == Eof
    ensures |d| <= COLFER_SIZE_MAX
    ensures Unmarshal(schema, vals, p).outcome == Eof
  {
    if Unmarshal(schema, vals, p).outcome != Eof {
      UnmarshalExtends(schema, vals, p, d);
    }
  }

  // ------------------------------------------------- retrying after an EOF

  lemma FieldRetry(kind: Kind, k: Tag, p: Bytes, d: Bytes, i: nat, tag: Byte, v: Value)
    requires p <= d
    ensures ParseField(kind, k, d, i, tag, ParseField(kind, k, p, i, tag, v).v) == ParseField(kind, k, d, i, tag, v)
  {
    var cap := if kind == U64 then 8 else -1;
    if ReadVar(p, i, cap).Got? {
      ReadVarExtends(p, d, i, cap);
    }
    if ParseField(kind, k, p, i, tag, v).Next? {
      FieldExtends(kind, k, p, d, i, tag, v);
    }
  }

  lemma {:induction false} ParseFromKeepsEarlier(schema: Schema, k: nat, data: Bytes, i: nat, tag: Byte,
                                                 vals: seq<Value>, m: nat)
    requires m < k <= |schema| == |vals| && 1 <= i
    ensures ParseFrom(schema, k, data, i, tag, vals).vals[m] == vals[m]
    decreases |schema| - k
  {
    if k < |schema| {
      var s := ParseField(schema[k], k, data, i, tag, vals[k]);
      if s.Next? && 1 <= s.i {
        ParseFromKeepsEarlier(schema, k + 1, data, s.i, s.tag, vals[k := s.v], m);
      }
    }
  }

  lemma {:induction false} ParseFromRetry(schema: Schema, k: nat, p: Bytes, d: Bytes, i: nat, tag: Byte,
                                          vals: seq<Value>)
    requires k <= |schema| == |vals| && 1 <= i && p <= d
    requires ParseFrom(schema, k, p, i, tag, vals).outcome == Eof
    ensures ParseFrom(schema, k, d, i, tag, ParseFrom(schema, k, p, i, tag, vals).vals)
            == ParseFrom(schema, k, d, i, tag, vals)
    decreases |schema| - k
  {
    var dirty := ParseFrom(schema, k, p, i, tag, vals).vals;
    var s := ParseField(schema[k], k, p, i, tag, vals[k]);
    FieldRetry(schema[k], k, p, d, i, tag, vals[k]);
    if s.Next? {
      ParseFromKeepsEarlier(schema, k + 1, p, s.i, s.tag, vals[k := s.v], k);
      FieldExtends(schema[k], k, p, d, i, tag, vals[k]);
      ParseFromRetry(schema, k + 1, p, d, s.i, s.tag, vals[k := s.v]);
      assert dirty[k := s.v] == dirty;
    } else {
      assert dirty[k] == s.v;
      match ParseField(schema[k], k, d, i, tag, vals[k])
      case Short(v) => assert dirty[k := v] == vals[k := v];
      case Next(_, _, v) => assert dirty[k := v] == vals[k := v];
    }
  }

  /** Parsing again into a receiver that an EOF attempt on fewer bytes has partly filled gives
      what parsing into the untouched receiver gives. */
  lemma UnmarshalRetry(schema: Schema, vals: seq<Value>, p: Bytes, d: Bytes)
    requires |vals| == |schema| && p <= d && Unmarshal(schema, vals, p).outcome == Eof
    ensures Unmarshal(schema, Unmarshal(schema, vals, p).vals, d) == Unmarshal(schema, vals, d)
  {
    var d' := if |d| > COLFER_SIZE_MAX then d[..COLFER_SIZE_MAX] else d;
    assert p <= d';
    if p != [] {
      ParseFromRetry(schema, 0, p, d', 1, p[0], vals);
    }
  }

  // ------------------------------------------------- round trip

  function Pow128(n: nat): (r: nat)
    ensures r >= 1
  {
    if n == 0 then 1 else 128 * Pow128(n - 1)
  }

  lemma {:induction false} VarintLength(x: nat, n: nat)
    requires n >= 1 && x < Pow128(n)
    ensures |Varint(x)| <= n
  {
    if x >= 128 {
      assert x < 128 * Pow128(n - 1);
      VarintLength(x / 128, n - 1);
    }
  }

  lemma {:induction false} VarintAtLeast(x: nat, n: nat)
    requires x >= Pow128(n)
    ensures |Varint(x)| > n
  {
    if n > 0 {
      assert x >= 128 * Pow128(n - 1) >= 128;
      VarintAtLeast(x / 128, n - 1);
    }
  }

  /** The eight-byte form is used exactly where a varint would need eight bytes or more, so no 64-bit
      number takes more than nine bytes with its tag. */
  lemma FixedExactlyWhenNotLonger(tag: Tag, x: nat)
    requires x < TWO_64
    ensures x >= FIXED_FROM <==> |Varint(x)| >= 8
    ensures |EncodeField(U64, tag, Num(x))| <= 9
  {
    assert Pow128(7) == FIXED_FROM by {
      assert Pow128(3) == 2097152;
      assert Pow128(5) == 2097152 * 16384;
    }
    if x >= FIXED_FROM {
      VarintAtLeast(x, 7);
    } else {
      VarintLength(x, 7);
    }
  }

  /** `data` holds `part` at index `i`. */
  ghost predicate Holds(data: Bytes, i: nat, part: Bytes) {
    i + |part| <= |data| && forall j :: 0 <= j < |part| ==> part[j] == data[i + j]
  }

  lemma HoldsSplit(data: Bytes, i: nat, a: Bytes, b: Bytes)
    requires Holds(data, i, a + b)
    ensures Holds(data, i, a) && Holds(data, i + |a|, b)
  {
    forall j | 0 <= j < |a| ensures a[j] == data[i + j] {
      assert (a + b)[j] == a[j];
    }
    forall j | 0 <= j < |b| ensures b[j] == data[i + |a| + j] {
      assert (a + b)[|a| + j] == b[j];
    }
  }

  lemma {:induction false} ReadVarBack(data: Bytes, i: nat, x: nat, cap: int)
    requires Holds(data, i, Varint(x)) && (cap < 0 || |Varint(x)| <= cap + 1)
    ensures ReadVar(data, i, cap) == Got(x, i + |Varint(x)|)
    decreases x
  {
    assert data[i] == Varint(x)[0];
    if x >= 128 {
      HoldsSplit(data, i, [x % 128 + 128], Varint(x / 128));
      ReadVarBack(data, i + 1, x / 128, cap - 1);
    }
  }

  lemma Fixed8Back(x: nat)
    requires x < TWO_64
    ensures FromFixed8(Fixed8(x)) == x
  {
    assert x / 0x1_0000 == x / 0x100 / 256;
    assert x / 0x100_0000 == x / 0x1_0000 / 256;
    assert x / 0x1_0000_0000 == x / 0x100_0000 / 256;
    assert x / 0x100_0000_0000 == x / 0x1_0000_0000 / 256;
    assert x / 0x1_0000_0000_0000 == x / 0x100_0000_0000 / 256;
    assert x / 0x100_0000_0000_0000 == x / 0x1_0000_0000_0000 / 256 < 256;
  }

  lemma U64Back(k: Tag, n: nat, data: Bytes, i: nat, v: Value)
    requires 0 < n < TWO_64
    requires Holds(data, i, EncodeField(U64, k, Num(n))) && i + |EncodeField(U64, k, Num(n))| < |data|
    ensures var j := i + |EncodeField(U64, k, Num(n))|;
            ParseField(U64, k, data, i + 1, data[i], v) == NextTag(data, j, Num(n))
  {
    assert data[i] == EncodeField(U64, k, Num(n))[0];
    if n >= FIXED_FROM {
      HoldsSplit(data, i, [k + 128], Fixed8(n));
      Fixed8Back(n);
      assert data[i + 1..i + 9] == Fixed8(n);
    } else {
      HoldsSplit(data, i, [k], Varint(n));
      assert Pow128(7) == FIXED_FROM by {
        assert Pow128(3) == 2097152;
        assert Pow128(5) == 2097152 * 16384;
      }
      VarintLength(n, 7);
      ReadVarBack(data, i + 1, n, 8);
    }
  }

  lemma I32Back(k: Tag, n: int, data: Bytes, i: nat, v: Value)
    requires -TWO_31 <= n < TWO_31 && n != 0
    requires Holds(data, i, EncodeField(I32, k, Num(n)))
    ensures var j := i + |EncodeField(I32, k, Num(n))|;
            ParseField(I32, k, data, i + 1, data[i], v) == NextTag(data, j, Num(n))
  {
    var m := if n > 0 then n else -n;
    var head: Bytes := [if n > 0 then k else k + 128];
    assert EncodeField(I32, k, Num(n)) == head + Varint(m);
    hide Varint;
    hide ReadVar;
    HoldsSplit(data, i, head, Varint(m));
    assert data[i] == head[0];
    ReadVarBack(data, i + 1, m, -1);
    assert ToInt32(n) == n;
  }

  lemma TextBack(k: Tag, s: Bytes, data: Bytes, i: nat, v: Value)
    requires 0 < |s| < TWO_32
    requires Holds(data, i, EncodeField(Text, k, Str(s))) && i + |EncodeField(Text, k, Str(s))| < |data|
    ensures var j := i + |EncodeField(Text, k, Str(s))|;
            ParseField(Text, k, data, i + 1, data[i], v) == NextTag(data, j, Str(s))
  {
    hide Varint;
    hide ReadVar;
    var tag: Bytes := [k];
    var j := i + 1 + |Varint(|s|)|;
    HoldsSplit(data, i, tag + Varint(|s|), s);
    HoldsSplit(data, i, tag, Varint(|s|));
    assert data[i] == tag[0];
    ReadVarBack(data, i + 1, |s|, -1);
    assert data[j..j + |s|] == s;
  }

  /** Reading back field `k`, whether it is on the wire or was left out. */
  lemma FieldBack(kind: Kind, k: Tag, val: Value, data: Bytes, i: nat, v: Value)
    requires Fits(kind, val) && i < |data| && (val == ZERO ==> data[i] % 128 > k)
    requires Holds(data, i, EncodeField(kind, k, val)) && i + |EncodeField(kind, k, val)| < |data|
    ensures var j := i + |EncodeField(kind, k, val)|;
            ParseField(kind, k, data, i + 1, data[i], v) == Next(j + 1, data[j], if val == ZERO then v else val)
  {
    if val != ZERO {
      match kind
      case U64 => U64Back(k, val.n, data, i, v);
      case I32 => I32Back(k, val.n, data, i, v);
      case Text => TextBack(k, val.s, data, i, v);
    }
  }

  lemma FieldTag(kind: Kind, k: Tag, v: Value)
    requires Fits(kind, v)
    ensures var e := EncodeField(kind, k, v);
            if v == ZERO then e == [] else e != [] && e[0] % 128 == k
  {
  }

  /** The first byte is a tag of field `k` or later, or the terminator. */
  lemma {:induction false} FirstTag(schema: Schema, vals: seq<Value>, k: nat)
    requires WellTyped(schema, vals) && k <= |schema|
    ensures EncodeFrom(schema, vals, k) != [] && EncodeFrom(schema, vals, k)[0] % 128 >= k
    decreases |schema| - k
  {
    if k < |schema| {
      var e := EncodeField(schema[k], k, vals[k]);
      FieldTag(schema[k], k, vals[k]);
      FirstTag(schema, vals, k + 1);
      if e != [] {
        assert (e + EncodeFrom(schema, vals, k + 1))[0] == e[0];
      }
    }
  }

  /** What a receiver holding `dst` ends up with: fields of the message that are zero are not on
      the wire, so the receiver keeps its own. */
  function Overlay(vals: seq<Value>, dst: seq<Value>, k: nat): (r: seq<Value>)
    requires k <= |vals| == |dst|
    ensures |r| == |dst|
    decreases |vals| - k
  {
    if k == |vals| then dst
    else Overlay(vals, if vals[k] == ZERO then dst else dst[k := vals[k]], k + 1)
  }

  lemma {:induction false} OverlayAt(vals: seq<Value>, dst: seq<Value>, k: nat, m: nat)
    requires k <= |vals| == |dst| && m < |vals|
    ensures Overlay(vals, dst, k)[m] == if m < k || vals[m] == ZERO then dst[m] else vals[m]
    decreases |vals| - k
  {
    if k < |vals| {
      OverlayAt(vals, if vals[k] == ZERO then dst else dst[k := vals[k]], k + 1, m);
    }
  }

  lemma StepHolds(schema: Schema, vals: seq<Value>, k: nat, data: Bytes, i: nat)
    requires WellTyped(schema, vals) && k < |schema|
    requires Holds(data, i, EncodeFrom(schema, vals, k))
    ensures var e := EncodeField(schema[k], k, vals[k]);
            && Holds(data, i, e) && Holds(data, i + |e|, EncodeFrom(schema, vals, k + 1))
            && i + |e| < |data|
            && (vals[k] == ZERO ==> e == [] && data[i] % 128 > k)
  {
    hide EncodeField;
    hide Fits;
    var e, rest := EncodeField(schema[k], k, vals[k]), EncodeFrom(schema, vals, k + 1);
    FirstTag(schema, vals, k + 1);
    FieldTag(schema[k], k, vals[k]);
    HoldsSplit(data, i, e, rest);
    assert data[i + |e|] == rest[0];
  }

  /** One step of `ParseFrom` over an encoded field: it moves to the next encoded field at `j`. */
  lemma StepBack(schema: Schema, vals: seq<Value>, dst: seq<Value>, k: nat, data: Bytes, i: nat) returns (j: nat)
    requires WellTyped(schema, vals) && |dst| == |schema| && k < |schema|
    requires Holds(data, i, EncodeFrom(schema, vals, k)) && i < |data|
    ensures j < |data| && Holds(data, j, EncodeFrom(schema, vals, k + 1))
    ensures j + |EncodeFrom(schema, vals, k + 1)| == i + |EncodeFrom(schema, vals, k)|
    ensures ParseFrom(schema, k, data, i + 1, data[i], dst)
            == ParseFrom(schema, k + 1, data, j + 1, data[j], if vals[k] == ZERO then dst else dst[k := vals[k]])
  {
    hide ParseField;
    hide EncodeField;
    j := i + |EncodeField(schema[k], k, vals[k])|;
    StepHolds(schema, vals, k, data, i);
    FieldBack(schema[k], k, vals[k], data, i, dst[k]);
    assert dst[k := dst[k]] == dst;
  }

  lemma {:induction false} ParseFromBack(schema: Schema, vals: seq<Value>, dst: seq<Value>, k: nat, data: Bytes, i: nat)
    requires WellTyped(schema, vals) && |dst| == |schema| && k <= |schema|
    requires Holds(data, i, EncodeFrom(schema, vals, k)) && i < |data|
    ensures ParseFrom(schema, k, data, i + 1, data[i], dst)
            == Parsed(Overlay(vals, dst, k), Done(i + |EncodeFrom(schema, vals, k)|))
    decreases |schema| - k
  {
    hide ParseField;
    hide EncodeField;
    hide Fits;
    if k == |schema| {
      assert data[i] == EncodeFrom(schema, vals, k)[0];
    } else {
      var j := StepBack(schema, vals, dst, k, data, i);
      ParseFromBack(schema, vals, if vals[k] == ZERO then dst else dst[k := vals[k]], k + 1, data, j);
    }
  }

  /** Round trip, whatever the receiver held before and whatever follows on the wire. */
  lemma RoundTrip(schema: Schema, vals: seq<Value>, dst: seq<Value>, suffix: Bytes)
    requires WellTyped(schema, vals) && |dst| == |schema| && |Encode(schema, vals)| <= COLFER_SIZE_MAX
    ensures Unmarshal(schema, dst, Encode(schema, vals) + suffix)
            == Parsed(Overlay(vals, dst, 0), Done(|Encode(schema, vals)|))
  {
    var e := Encode(schema, vals);
    FirstTag(schema, vals, 0);
    assert Holds(e, 0, e);
    ParseFromBack(schema, vals, dst, 0, e, 0);
    assert Unmarshal(schema, dst, e).outcome == Done(|e|);
    UnmarshalExtends(schema, dst, e, e + suffix);
  }

  /** The receiver ends up equal to the message exactly when it held nothing in the fields that
      the message leaves out; a cleared receiver always does. */
  lemma OverlayIsMessage(schema: Schema, vals: seq<Value>, dst: seq<Value>)
    requires |vals| == |schema| == |dst|
    ensures Overlay(vals, dst, 0) == vals
            <==> forall k :: 0 <= k < |vals| && vals[k] == ZERO ==> dst[k] == ZERO
    ensures Overlay(vals, Zeros(schema), 0) == vals
  {
    forall m | 0 <= m < |vals|
      ensures Overlay(vals, dst, 0)[m] == if vals[m] == ZERO then dst[m] else vals[m]
      ensures Overlay(vals, Zeros(schema), 0)[m] == vals[m]
    {
      OverlayAt(vals, dst, 0, m);
      OverlayAt(vals, Zeros(schema), 0, m);
    }
  }

  /** No proper prefix of a message is accepted or rejected: the reader asks for more. */
  lemma ProperPrefixIsEof(schema: Schema, vals: seq<Value>, dst: seq<Value>, p: Bytes)
    requires WellTyped(schema, vals) && |dst| == |schema| && |Encode(schema, vals)| <= COLFER_SIZE_MAX
    requires p < Encode(schema, vals)
    ensures Unmarshal(schema, dst, p).outcome == Eof
  {
    var e := Encode(schema, vals);
    RoundTrip(schema, vals, dst, []);
    assert e + [] == e;
    if Unmarshal(schema, dst, p).outcome != Eof {
      UnmarshalExtends(schema, dst, p, e);
    }
  }

  // ------------------------------------------------- the bytes themselves

  /** Seven bits a byte, the lowest first; the top bit says that another byte follows. */
  lemma {:induction false} VarintBytes(x: nat, i: nat)
    requires i < |Varint(x)|
    ensures Varint(x)[i] % 128 == x / Pow128(i) % 128
    ensures Varint(x)[i] >= 128 <==> i + 1 < |Varint(x)|
  {
    if x >= 128 && i > 0 {
      VarintBytes(x / 128, i - 1);
      assert Varint(x)[i] == Varint(x / 128)[i - 1];
      DivTwice(x, Pow128(i - 1));
    }
  }

  lemma DivTwice(x: nat, m: nat)
    requires m >= 1
    ensures x / 128 / m == x / (128 * m)
  {
    var q := x / 128 / m;
    var r := x / 128 % m;
    assert x == 128 * (m * q + r) + x % 128;
    assert 0 <= 128 * r + x % 128 < 128 * m;
    DivUnique(x, 128 * m, q, 128 * r + x % 128);
  }

  lemma DivUnique(x: nat, d: nat, q: nat, r: nat)
    requires d >= 1 && x == d * q + r && r < d
    ensures x / d == q
  {
    var k := x / d - q;
    assert d * k == r - x % d;
    AtLeastOnce(d, k);
  }

  lemma AtLeastOnce(d: nat, k: int)
    requires d >= 1
    ensures (k >= 1 ==> d * k >= d) && (k <= -1 ==> d * k <= 0 - d)
  {
  }

  /** A 64-bit number under its tag: a varint, or from 2^49 on eight bytes, the most significant first. */
  lemma NumberOnWire(tag: Tag, x: nat)
    ensures EncodeField(U64, tag, Num(x))
            == if x == 0 then []
               else if x < 0x2_0000_0000_0000 then [tag] + Varint(x)
               else [tag + 0x80, x / 0x100_0000_0000_0000 % 256, x / 0x1_0000_0000_0000 % 256,
                     x / 0x100_0000_0000 % 256, x / 0x1_0000_0000 % 256, x / 0x100_0000 % 256,
                     x / 0x1_0000 % 256, x / 0x100 % 256, x % 256]
  {
    hide Varint;
  }

  /** Only fields that are not empty, in the order of their tags, and 0x7f. */
  lemma MessageOnWire(vals: seq<Value>, args: seq<Value>)
    requires |vals| == 3 && |args| == 2
    ensures Encode(HEADER, vals)
            == EncodeField(U64, 0, vals[0]) + EncodeField(Text, 1, vals[1]) + EncodeField(Text, 2, vals[2]) + [0x7f]
    ensures Encode(ARGS, args) == EncodeField(I32, 0, args[0]) + EncodeField(I32, 1, args[1]) + [0x7f]
  {
    hide EncodeField;
    assert EncodeFrom(HEADER, vals, 3) == [0x7f] && EncodeFrom(ARGS, args, 2) == [0x7f];
    assert EncodeFrom(HEADER, vals, 2) == EncodeField(Text, 2, vals[2]) + EncodeFrom(HEADER, vals, 3);
    assert EncodeFrom(HEADER, vals, 1) == EncodeField(Text, 1, vals[1]) + EncodeFrom(HEADER, vals, 2);
    assert EncodeFrom(ARGS, args, 1) == EncodeField(I32, 1, args[1]) + EncodeFrom(ARGS, args, 2);
  }

  /** A text under its tag with its length, and an int32 by its magnitude, the top bit of the tag for a
      negative one. */
  lemma OthersOnWire(tag: Tag, text: Bytes, n: int)
    ensures EncodeField(Text, tag, Str(text)) == if text == [] then [] else [tag] + Varint(|text|) + text
    ensures EncodeField(I32, tag, Num(n))
            == if n > 0 then [tag] + Varint(n) else if n < 0 then [tag + 0x80] + Varint(-n) else []
    ensures COLFER_SIZE_MAX == 16777216
  {
    hide Varint;
  }

  /** Any other first byte is an unknown header at index 0. */
  lemma UnknownFirstByte(vals: seq<Value>, data: Bytes)
    requires |vals| == 3 && data != [] && |data| <= 16777216 && data[0] !in {0x00, 0x80, 0x01, 0x02, 0x7f}
    ensures Unmarshal(HEADER, vals, data) == Parsed(vals, Unknown(0))
  {
    var t := data[0];
    assert ParseField(U64, 0, data, 1, t, vals[0]) == Next(1, t, vals[0]);
    assert ParseField(Text, 1, data, 1, t, vals[1]) == Next(1, t, vals[1]);
    assert ParseField(Text, 2, data, 1, t, vals[2]) == Next(1, t, vals[2]);
    hide ParseField;
    assert vals[0 := vals[0]] == vals && vals[1 := vals[1]] == vals && vals[2 := vals[2]] == vals;
    assert ParseFrom(HEADER, 3, data, 1, t, vals) == Parsed(vals, Unknown(0));
    assert ParseFrom(HEADER, 2, data, 1, t, vals) == ParseFrom(HEADER, 3, data, 1, t, vals);
    assert ParseFrom(HEADER, 1, data, 1, t, vals) == ParseFrom(HEADER, 2, data, 1, t, vals);
  }

  /** The size error is the verdict exactly on data above 16 MiB whose first 16 MiB are incomplete. */
  lemma TooBigIff(schema: Schema, vals: seq<Value>, data: Bytes)
    requires |vals| == |schema|
    ensures Unmarshal(schema, vals, data).outcome == TooBig
            <==> |data| > 16777216 && Unmarshal(schema, vals, data[..16777216]).outcome == Eof
  {
    var d := if |data| > COLFER_SIZE_MAX then data[..COLFER_SIZE_MAX] else data;
    if d != [] {
      NeverTooBig(schema, 0, d, 1, d[0], vals);
    }
  }

  lemma {:induction false} NeverTooBig(schema: Schema, k: nat, data: Bytes, i: nat, tag: Byte, vals: seq<Value>)
    requires k <= |schema| == |vals| && 1 <= i
    ensures ParseFrom(schema, k, data, i, tag, vals).outcome != TooBig
    decreases |schema| - k
  {
    hide ReadVar;
    if k < |schema| {
      var s := ParseField(schema[k], k, data, i, tag, vals[k]);
      if s.Next? && 1 <= s.i {
        NeverTooBig(schema, k + 1, data, s.i, s.tag, vals[k := s.v]);
      }
    }
  }

  // ------------------------------------------------- arbitrary bytes

  lemma {:induction false} ReadVarBound(data: Bytes, i: nat, cap: nat)
    requires ReadVar(data, i, cap).Got?
    ensures ReadVar(data, i, cap).x < 256 * Pow128(cap)
    decreases cap
  {
    if !(cap == 0 || data[i] < 128) {
      ReadVarBound(data, i + 1, cap - 1);
    }
  }

  lemma EightGroups()
    ensures 256 * Pow128(8) == TWO_64
  {
    assert Pow128(4) == 0x1000_0000;
    assert Pow128(6) == 0x400_0000_0000;
  }

  lemma Fixed8Bound(s: Bytes)
    requires |s| == 8
    ensures FromFixed8(s) < TWO_64
  {
  }

  lemma Int32Bound(x: int)
    ensures -TWO_31 <= ToInt32(x) < TWO_31
  {
  }

  lemma FieldFits(kind: Kind, k: Tag, data: Bytes, i: nat, tag: Byte, v: Value)
    requires Fits(kind, v)
    ensures Fits(kind, ParseField(kind, k, data, i, tag, v).v)
  {
    hide FromFixed8;
    hide ToInt32;
    hide ReadVar;
    match kind
    case U64 =>
      if tag == k + 128 {
        if i + 8 < |data| {
          Fixed8Bound(data[i..i + 8]);
        }
      } else if ReadVar(data, i, 8).Got? {
        ReadVarBound(data, i, 8);
        EightGroups();
      }
    case I32 =>
      var r := ReadVar(data, i, -1);
      if r.Got? {
        Int32Bound(if tag == k then r.x else 0 - r.x);
      }
    case Text =>
  }

  lemma {:induction false} ParseFromFits(schema: Schema, k: nat, data: Bytes, i: nat, tag: Byte, vals: seq<Value>)
    requires k <= |schema| && WellTyped(schema, vals) && 1 <= i
    ensures WellTyped(schema, ParseFrom(schema, k, data, i, tag, vals).vals)
    decreases |schema| - k
  {
    hide Fits;
    if k < |schema| {
      var s := ParseField(schema[k], k, data, i, tag, vals[k]);
      FieldFits(schema[k], k, data, i, tag, vals[k]);
      if s.Next? {
        ParseFromFits(schema, k + 1, data, s.i, s.tag, vals[k := s.v]);
      }
    }
  }

  /** Whatever bytes are read, and however the attempt ends, the receiver's fields stay within their
      types, so that they can be written again. */
  lemma UnmarshalWellTyped(schema: Schema, vals: seq<Value>, data: Bytes)
    requires WellTyped(schema, vals)
    ensures WellTyped(schema, Unmarshal(schema, vals, data).vals)
  {
    var d := if |data| > COLFER_SIZE_MAX then data[..COLFER_SIZE_MAX] else data;
    if d != [] {
      ParseFromFits(schema, 0, d, 1, d[0], vals);
    }
  }
}
