/**
 The generated Go types of codec/colfer as objects: `MarshalLen`, `MarshalTo` and `Unmarshal` with
 their loops over bytes, each proved against the schema functions of `ColferSchema`. The
 generator emits one block of code per field; a block of each kind is one method here.
 */
module ColferMessages {
  import opened ColferSchema

  /** `s` with `part` written over it at index `i`. */
  function Patch(s: Bytes, i: nat, part: Bytes): (r: Bytes)
    requires i + |part| <= |s|
    ensures |r| == |s|
  {
    s[..i] + part + s[i + |part|..]
  }

  lemma PatchJoin(s: Bytes, i: nat, a: Bytes, b: Bytes)
    requires i + |a| + |b| <= |s|
    ensures Patch(Patch(s, i, a), i + |a|, b) == Patch(s, i, a + b)
  {
  }

  // ---------------------------------------------------------------- writing

  method PutByte(buf: array<Byte>, i: nat, b: Byte)
    requires i < buf.Length
    modifies buf
    ensures buf[..] == Patch(old(buf[..]), i, [b])
  {
    buf[i] := b;
  }

  method PutVarint(buf: array<Byte>, start: nat, value: nat) returns (i: nat)
    requires start + |Varint(value)| <= buf.Length
    modifies buf
    ensures i == start + |Varint(value)|
    ensures buf[..] == Patch(old(buf[..]), start, Varint(value))
  {
    hide Patch;
    var x := value;
    i := start;
    while x >= 0x80
      invariant start <= i && i + |Varint(x)| == start + |Varint(value)|
      invariant Patch(buf[..], i, Varint(x)) == Patch(old(buf[..]), start, Varint(value))
    {
      PatchJoin(buf[..], i, [x % 128 + 128], Varint(x / 128));
      PutByte(buf, i, x % 128 + 128);
      x := x / 128;
      i := i + 1;
    }
    PutByte(buf, i, x);
    i := i + 1;
  }

  method PutU64(buf: array<Byte>, i: nat, tag: Tag, x: nat) returns (j: nat)
    requires x < TWO_64 && i + |EncodeField(U64, tag, Num(x))| <= buf.Length
    modifies buf
    ensures j == i + |EncodeField(U64, tag, Num(x))|
    ensures buf[..] == Patch(old(buf[..]), i, EncodeField(U64, tag, Num(x)))
  {
    hide Varint;
    hide Fixed8;
    if x >= FIXED_FROM {
      PutByte(buf, i, tag + 128);
      PatchJoin(old(buf[..]), i, [tag + 128], Fixed8(x));
      PutBytes(buf, i + 1, Fixed8(x));
      j := i + 9;
    } else if x != 0 {
      PutByte(buf, i, tag);
      PatchJoin(old(buf[..]), i, [tag], Varint(x));
      j := PutVarint(buf, i + 1, x);
    } else {
      j := i;
    }
  }

  method PutText(buf: array<Byte>, i: nat, tag: Tag, s: Bytes) returns (j: nat)
    requires i + |EncodeField(Text, tag, Str(s))| <= buf.Length
    modifies buf
    ensures j == i + |EncodeField(Text, tag, Str(s))|
    ensures buf[..] == Patch(old(buf[..]), i, EncodeField(Text, tag, Str(s)))
  {
    hide Varint;
    j := i;
    if |s| != 0 {
      PutByte(buf, i, tag);
      PatchJoin(old(buf[..]), i, [tag], Varint(|s|));
      j := PutVarint(buf, i + 1, |s|);
      PatchJoin(old(buf[..]), i, [tag] + Varint(|s|), s);
      PutBytes(buf, j, s);
      j := j + |s|;
    }
  }

  /** Go's `copy(buf[i:], s)` with room for all of `s`. */
  method PutBytes(buf: array<Byte>, i: nat, s: Bytes)
    requires i + |s| <= buf.Length
    modifies buf
    ensures buf[..] == Patch(old(buf[..]), i, s)
  {
    forall k | 0 <= k < |s| {
      buf[i + k] := s[k];
    }
  }

  method PutI32(buf: array<Byte>, i: nat, tag: Tag, v: int) returns (j: nat)
    requires -TWO_31 <= v < TWO_31 && i + |EncodeField(I32, tag, Num(v))| <= buf.Length
    modifies buf
    ensures j == i + |EncodeField(I32, tag, Num(v))|
    ensures buf[..] == Patch(old(buf[..]), i, EncodeField(I32, tag, Num(v)))
  {
    hide Varint;
    j := i;
    if v != 0 {
      var x := Magnitude(v);
      var head: Byte := if v >= 0 then tag else tag + 128;
      PutByte(buf, i, head);
      PatchJoin(old(buf[..]), i, [head], Varint(x));
      j := PutVarint(buf, i + 1, x);
    }
  }

  /** The absolute value of an int32, computed in a uint32: `x = ^x + 1` when negative. */
  function Magnitude(v: int): (x: nat)
    requires -TWO_31 <= v < TWO_31
    ensures x < TWO_32 && x == if v < 0 then -v else v
  {
    var x := v % TWO_32;
    if v < 0 then (TWO_32 - x) % TWO_32 else x
  }

  /** The loop `for x >= 0x80 { x >>= 7; l++ }` that sizes a varint. */
  method SizeVarint(start: nat, value: nat) returns (l: nat)
    ensures l + 1 == start + |Varint(value)|
  {
    var x := value;
    l := start;
    while x >= 0x80
      invariant l + |Varint(x)| == start + |Varint(value)|
    {
      x := x / 128;
      l := l + 1;
    }
  }

  // ---------------------------------------------------------------- reading

  /** Adding to a wrapped accumulator wraps like adding to the full one. */
  lemma WrapAdd(sum: int, add: int, wide: bool)
    ensures var m := if wide then TWO_64 else TWO_32; (sum % m + add) % m == (sum + add) % m
  {
  }

  lemma Regroup(sum: int, scale: int, low: int, rest: int)
    ensures sum + scale * (low + 128 * rest) == (sum + scale * low) + (scale * 128) * rest
  {
  }

  /** The reading loop of a varint into a 64-bit (`wide`) or a 32-bit variable. Or-ing a shifted
      group of seven bits into bits that are still clear is addition, cut to the variable's width. */
  method GetVarint(data: Bytes, start: nat, wide: bool) returns (r: Read)
    ensures ReadVar(data, start, if wide then 8 else -1).Cut? ==> r == Cut
    ensures var full := ReadVar(data, start, if wide then 8 else -1);
            full.Got? ==> r == Got(full.x % (if wide then TWO_64 else TWO_32), full.next)
  {
    var m := if wide then TWO_64 else TWO_32;
    var x, scale, i, shift := 0, 1, start, 0;
    ghost var full := ReadVar(data, start, if wide then 8 else -1);
    ghost var sum := 0;
    while true
      invariant 0 <= shift && shift % 7 == 0 && (wide ==> shift <= 56)
      invariant x == sum % m && start <= i
      invariant var rest := ReadVar(data, i, (if wide then 8 else -1) - shift / 7);
                if rest.Cut? then full == Cut else full.Got? && full.x == sum + scale * rest.x && full.next == rest.next
      decreases |data| - i
    {
      if i >= |data| {
        return Cut;
      }
      var b := data[i];
      ghost var rest := ReadVar(data, i, (if wide then 8 else -1) - shift / 7);
      i := i + 1;
      if (wide && shift == 56) || b < 0x80 {
        WrapAdd(sum, scale * b, wide);
        x := (x + scale * b) % m;
        return Got(x, i);
      }
      ghost var tail := ReadVar(data, i, (if wide then 8 else -1) - shift / 7 - 1);
      if tail.Got? {
        Regroup(sum, scale, b - 128, tail.x);
      }
      WrapAdd(sum, scale * (b - 128), wide);
      x := (x + scale * (b - 128)) % m;
      sum := sum + scale * (b - 128);
      scale := scale * 128;
      shift := shift + 7;
    }
  }

  method GetU64(k: Tag, data: Bytes, i: nat, tag: Byte, v: nat) returns (s: Step)
    ensures s == ParseField(U64, k, data, i, tag, Num(v)) && s.v == Num(s.v.n) && s.v.n >= 0
  {
    if tag == k {
      var r := GetVarint(data, i, true);
      if r.Cut? {
        return Short(Num(v));
      }
      ReadVarBound(data, i, 8);
      EightGroups();
      return NextTag(data, r.next, Num(r.x));
    } else if tag == k + 128 {
      if i + 8 >= |data| {
        return Short(Num(v));
      }
      return NextTag(data, i + 8, Num(FromFixed8(data[i..i + 8])));
    }
    return Next(i, tag, Num(v));
  }

  method GetText(k: Tag, data: Bytes, i: nat, tag: Byte, v: Bytes) returns (s: Step)
    ensures s == ParseField(Text, k, data, i, tag, Str(v)) && s.v == Str(s.v.s)
  {
    if tag == k {
      var r := GetVarint(data, i, false);
      if r.Cut? {
        return Short(Str(v));
      }
      var to := r.next + r.x;
      if to >= |data| {
        return Short(Str(v));
      }
      return Next(to + 1, data[to], Str(data[r.next..to]));
    }
    return Next(i, tag, Str(v));
  }

  lemma WrapInt32(x: int)
    ensures ToInt32(x % TWO_32) == ToInt32(x) && ToInt32(-(x % TWO_32)) == ToInt32(-x)
  {
    var q, m := x / TWO_32, x % TWO_32;
    assert (-m) % TWO_32 == (-m - q * TWO_32) % TWO_32;
    assert -x == -m - q * TWO_32;
  }

  method GetI32(k: Tag, data: Bytes, i: nat, tag: Byte, v: int) returns (s: Step)
    ensures s == ParseField(I32, k, data, i, tag, Num(v))
  {
    if tag == k || tag == k + 128 {
      var r := GetVarint(data, i, false);
      if r.Cut? {
        return Short(Num(v));
      }
      WrapInt32(ReadVar(data, i, -1).x);
      return NextTag(data, r.next, Num(ToInt32(if tag == k then r.x else 0 - r.x)));
    }
    return Next(i, tag, Num(v));
  }

  lemma ParseStep(schema: Schema, k: nat, data: Bytes, i: nat, tag: Byte, vals: seq<Value>, s: Step)
    requires k < |schema| == |vals| && 1 <= i && s == ParseField(schema[k], k, data, i, tag, vals[k])
    ensures s.Next? ==> s.i >= 1
    ensures ParseFrom(schema, k, data, i, tag, vals)
            == if s.Short? then Parsed(vals[k := s.v], Eof)
                else ParseFrom(schema, k + 1, data, s.i, s.tag, vals[k := s.v])
  {
  }

  lemma ParseEnd(schema: Schema, data: Bytes, i: nat, tag: Byte, vals: seq<Value>)
    requires |schema| == |vals| && 1 <= i
    ensures ParseFrom(schema, |schema|, data, i, tag, vals)
            == Parsed(vals, if tag == TERMINATOR then Done(i) else Unknown(i - 1))
  {
  }

  // ---------------------------------------------------------------- the types

  /** The rpc frame header. */
  class Header {
    var seqID: nat
    var method_: Bytes
    var error: Bytes

    ghost predicate Valid()
      reads this
    {
      seqID < TWO_64
    }

    function Fields(): (r: seq<Value>)
      reads this
      ensures Valid() && |method_| < TWO_32 && |error| < TWO_32 ==> WellTyped(HEADER, r)
    {
      [Num(seqID), Str(method_), Str(error)]
    }

    constructor (seqID: nat, method_: Bytes, error: Bytes)
      ensures Fields() == [Num(seqID), Str(method_), Str(error)]
    {
      this.seqID, this.method_, this.error := seqID, method_, error;
    }

    lemma Layout()
      ensures Encode(HEADER, Fields()) == EncodeField(U64, 0, Num(seqID)) + EncodeField(Text, 1, Str(method_))
                                          + EncodeField(Text, 2, Str(error)) + [TERMINATOR]
    {
      var f := Fields();
      assert EncodeFrom(HEADER, f, 3) == [TERMINATOR];
      assert EncodeFrom(HEADER, f, 2) == EncodeField(Text, 2, f[2]) + EncodeFrom(HEADER, f, 3);
      assert EncodeFrom(HEADER, f, 1) == EncodeField(Text, 1, f[1]) + EncodeFrom(HEADER, f, 2);
    }

    /** The exact size of the encoding, and whether it is within the limit. */
    method MarshalLen() returns (l: nat, ok: bool)
      requires Valid()
      ensures l == |Encode(HEADER, Fields())|
      ensures ok == (l <= COLFER_SIZE_MAX)
    {
      Layout();
      l := 1;
      if seqID >= FIXED_FROM {
        l := l + 9;
      } else if seqID != 0 {
        l := SizeVarint(l + 2, seqID);
      }
      if |method_| != 0 {
        l := SizeVarint(l + |method_|, |method_|);
        l := l + 2;
      }
      if |error| != 0 {
        l := SizeVarint(l + |error|, |error|);
        l := l + 2;
      }
      ok := l <= COLFER_SIZE_MAX;
    }

    /** Writes exactly the encoding, into `buf[off:]`; a smaller buffer is a caller's error. */
    method MarshalTo(buf: array<Byte>, off: nat) returns (n: nat)
      requires Valid() && off + |Encode(HEADER, Fields())| <= buf.Length
      modifies buf
      ensures n == |Encode(HEADER, Fields())|
      ensures buf[..] == Patch(old(buf[..]), off, Encode(HEADER, Fields()))
    {
      Layout();
      hide EncodeField;
      hide Patch;
      ghost var a, b, c := EncodeField(U64, 0, Num(seqID)), EncodeField(Text, 1, Str(method_)), EncodeField(Text,
          2, Str(error));
      var i := PutU64(buf, off, 0, seqID);
      PatchJoin(old(buf[..]), off, a, b);
      i := PutText(buf, i, 1, method_);
      PatchJoin(old(buf[..]), off, a + b, c);
      i := PutText(buf, i, 2, error);
      PatchJoin(old(buf[..]), off, a + b + c, [TERMINATOR]);
      PutByte(buf, i, TERMINATOR);
      n := i + 1 - off;
    }

    /** The part of `Unmarshal` below the size check. */
    method Scan(data: Bytes) returns (r: Outcome)
      modifies this
      ensures Parsed(Fields(), r) == ParseWhole(HEADER, old(Fields()), data)
    {
      if |data| == 0 {
        return Eof;
      }
      hide ParseField;
      hide ParseFrom;
      ghost var f := Fields();
      var s := GetU64(0, data, 1, data[0], seqID);
      ParseStep(HEADER, 0, data, 1, data[0], f, s);
      seqID := s.v.n;
      assert Fields() == f[0 := s.v];
      if s.Short? {
        return Eof;
      }
      r := ScanTexts(data, s.i, s.tag);
    }

    /** The two texts and the end, from the tag `tag` that stands just before `data[i]`. */
    method ScanTexts(data: Bytes, i: nat, tag: Byte) returns (r: Outcome)
      requires i >= 1
      modifies this`method_, this`error
      ensures Parsed(Fields(), r) == ParseFrom(HEADER, 1, data, i, tag, old(Fields()))
    {
      hide ParseField;
      hide ParseFrom;
      ghost var f1 := Fields();
      var s := GetText(1, data, i, tag, method_);
      ParseStep(HEADER, 1, data, i, tag, f1, s);
      method_ := s.v.s;
      assert Fields() == f1[1 := s.v];
      if s.Short? {
        return Eof;
      }
      ghost var f2, s2 := Fields(), s;
      s := GetText(2, data, s.i, s.tag, error);
      ParseStep(HEADER, 2, data, s2.i, s2.tag, f2, s);
      error := s.v.s;
      assert Fields() == f2[2 := s.v];
      if s.Short? {
        return Eof;
      }
      ParseEnd(HEADER, data, s.i, s.tag, Fields());
      r := if s.tag != TERMINATOR then Unknown(s.i - 1) else Done(s.i);
    }

    /** Reads a header over the receiver's fields; what it leaves there can be written again. */
    method Unmarshal(data: Bytes) returns (r: Outcome)
      modifies this
      ensures Parsed(Fields(), r) == ColferSchema.Unmarshal(HEADER, old(Fields()), data)
      ensures WellTyped(HEADER, old(Fields())) ==> WellTyped(HEADER, Fields()) && Valid()
    {
      if WellTyped(HEADER, Fields()) {
        UnmarshalWellTyped(HEADER, Fields(), data);
      }
      if |data| > COLFER_SIZE_MAX {
        r := Scan(data[..COLFER_SIZE_MAX]);
        if r == Eof {
          r := TooBig;
        }
      } else {
        r := Scan(data);
      }
    }

    /** A buffer of exactly the right size, or nothing above the limit. */
    method MarshalBinary() returns (data: Bytes, ok: bool)
      requires Valid()
      ensures ok <==> |Encode(HEADER, Fields())| <= COLFER_SIZE_MAX
      ensures data == if ok then Encode(HEADER, Fields()) else []
    {
      hide Encode;
      var l;
      l, ok := MarshalLen();
      data := [];
      if ok {
        var buf := new Byte[l](_ => 0);
        var n := MarshalTo(buf, 0);
        data := buf[..];
      }
    }

    /** Accepts a message only if it is all of `data`: behind a whole message, anything further is
        reported with the place where it starts. */
    method UnmarshalBinary(data: Bytes) returns (r: Outcome, tail: bool)
      modifies this
      ensures Parsed(Fields(), r) == ColferSchema.Unmarshal(HEADER, old(Fields()), data)
      ensures tail <==> r.Done? && r.n != |data|
      ensures forall vals, suffix :: WellTyped(HEADER, vals) && |Encode(HEADER, vals)| <= COLFER_SIZE_MAX
                                     && data == Encode(HEADER, vals) + suffix
                ==> r == Done(|Encode(HEADER, vals)|) && (tail <==> suffix != [])
    {
      ghost var before := Fields();
      r := Unmarshal(data);
      tail := r.Done? && r.n != |data|;
      hide Encode;
      forall vals, suffix | WellTyped(HEADER, vals) && |Encode(HEADER, vals)| <= COLFER_SIZE_MAX
                            && data == Encode(HEADER, vals) + suffix
        ensures r == Done(|Encode(HEADER, vals)|) && (tail <==> suffix != [])
      {
        RoundTrip(HEADER, vals, before, suffix);
      }
    }
  }

  /** The request body of the codec's example service: two 32-bit numbers in sign and magnitude. */
  class ColfArgs {
    var a: int
    var b: int

    ghost predicate Valid()
      reads this
    {
      -TWO_31 <= a < TWO_31 && -TWO_31 <= b < TWO_31
    }

    function Fields(): (r: seq<Value>)
      reads this
      ensures Valid() ==> WellTyped(ARGS, r)
    {
      [Num(a), Num(b)]
    }

    lemma Layout()
      ensures Encode(ARGS, Fields()) == EncodeField(I32, 0, Num(a)) + EncodeField(I32, 1, Num(b)) + [TERMINATOR]
    {
      var f := Fields();
      assert EncodeFrom(ARGS, f, 2) == [TERMINATOR];
      assert EncodeFrom(ARGS, f, 1) == EncodeField(I32, 1, f[1]) + EncodeFrom(ARGS, f, 2);
    }

    /** Never above the limit: at most thirteen bytes. */
    method MarshalLen() returns (l: nat)
      requires Valid()
      ensures l == |Encode(ARGS, Fields())| && l <= 13
    {
      Layout();
      l := 1;
      if a != 0 {
        l := SizeVarint(l + 2, Magnitude(a));
        VarintLength(Magnitude(a), 5);
      }
      if b != 0 {
        l := SizeVarint(l + 2, Magnitude(b));
        VarintLength(Magnitude(b), 5);
      }
    }

    method MarshalTo(buf: array<Byte>, off: nat) returns (n: nat)
      requires Valid() && off + |Encode(ARGS, Fields())| <= buf.Length
      modifies buf
      ensures n == |Encode(ARGS, Fields())|
      ensures buf[..] == Patch(old(buf[..]), off, Encode(ARGS, Fields()))
    {
      Layout();
      hide EncodeField;
      hide Patch;
      ghost var x, y := EncodeField(I32, 0, Num(a)), EncodeField(I32, 1, Num(b));
      var i := PutI32(buf, off, 0, a);
      PatchJoin(old(buf[..]), off, x, y);
      i := PutI32(buf, i, 1, b);
      PatchJoin(old(buf[..]), off, x + y, [TERMINATOR]);
      PutByte(buf, i, TERMINATOR);
      n := i + 1 - off;
    }

    method Scan(data: Bytes) returns (r: Outcome)
      modifies this
      ensures Parsed(Fields(), r) == ParseWhole(ARGS, old(Fields()), data)
    {
      if |data| == 0 {
        return Eof;
      }
      hide ParseField;
      hide ParseFrom;
      ghost var f := Fields();
      var s := GetI32(0, data, 1, data[0], a);
      ParseStep(ARGS, 0, data, 1, data[0], f, s);
      a := s.v.n;
      assert Fields() == f[0 := s.v];
      if s.Short? {
        return Eof;
      }
      ghost var f1, s1 := Fields(), s;
      s := GetI32(1, data, s.i, s.tag, b);
      ParseStep(ARGS, 1, data, s1.i, s1.tag, f1, s);
      b := s.v.n;
      assert Fields() == f1[1 := s.v];
      if s.Short? {
        return Eof;
      }
      ParseEnd(ARGS, data, s.i, s.tag, Fields());
      r := if s.tag != TERMINATOR then Unknown(s.i - 1) else Done(s.i);
    }

    method Unmarshal(data: Bytes) returns (r: Outcome)
      modifies this
      ensures Parsed(Fields(), r) == ColferSchema.Unmarshal(ARGS, old(Fields()), data)
      ensures old(Valid()) ==> Valid()
    {
      if Valid() {
        UnmarshalWellTyped(ARGS, Fields(), data);
      }
      if |data| > COLFER_SIZE_MAX {
        r := Scan(data[..COLFER_SIZE_MAX]);
        if r == Eof {
          r := TooBig;
        }
      } else {
        r := Scan(data);
      }
    }
  }
}
