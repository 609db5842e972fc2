/**
 The wire codecs of integers and booleans, and why a value that its type accepts
 survives the wire: the primitive chosen for a range covers it.
 */
module Codecs {
  import opened Options
  import opened Types

  type Byte = n: nat | n < 256

  function Power(k: nat): (p: nat)
    ensures p >= 1
  {
    if k == 0 then 1 else 256 * Power(k - 1)
  }

  // ----- little-endian buffers -----

  /** The `k` low bytes of `n`, lowest first. */
  function Bytes(n: nat, k: nat): (b: seq<Byte>)
    ensures |b| == k
    decreases k
  {
    if k == 0 then [] else [n % 256] + Bytes(n / 256, k - 1)
  }

  function Number(b: seq<Byte>): nat {
    if b == [] then 0 else b[0] + 256 * Number(b[1..])
  }

  lemma {:induction false} NumberOfBytes(n: nat, k: nat)
    requires n < Power(k)
    ensures Number(Bytes(n, k)) == n
    decreases k
  {
    if k > 0 {
      NumberOfBytes(n / 256, k - 1);
      assert Bytes(n, k)[1..] == Bytes(n / 256, k - 1);
    }
  }

  lemma {:induction false} BytesOfNumber(b: seq<Byte>)
    ensures Number(b) < Power(|b|) && Bytes(Number(b), |b|) == b
  {
    if b != [] {
      BytesOfNumber(b[1..]);
      assert Number(b) / 256 == Number(b[1..]) && Number(b) % 256 == b[0];
      assert b == [b[0]] + b[1..];
    }
  }

  /** Node's integer writes: none, that is an exception, outside the integers of `k` bytes. */
  function WriteUInt(value: int, k: nat): Option<seq<Byte>> {
    if 0 <= value < Power(k) then Some(Bytes(value, k)) else None
  }

  function WriteInt(value: int, k: nat): Option<seq<Byte>> {
    if 0 <= value && 2 * value < Power(k) then Some(Bytes(value, k))
    else if value < 0 && -(2 * value) <= Power(k) then Some(Bytes(value + Power(k), k))
    else None
  }

  /** Node's integer reads, of the first `k` bytes: none, that is an exception, on a shorter buffer. */
  function ReadUInt(b: seq<Byte>, k: nat): Option<int> {
    if |b| < k then None else Some(Number(b[..k]))
  }

  function ReadInt(b: seq<Byte>, k: nat): Option<int> {
    if |b| < k then None
    else
      var n := Number(b[..k]);
      Some(if 2 * n >= Power(k) then n - Power(k) else n)
  }

  lemma UIntRoundTrip(value: int, k: nat)
    requires 0 <= value < Power(k)
    ensures WriteUInt(value, k).Some? && ReadUInt(WriteUInt(value, k).value, k) == Some(value)
  {
    NumberOfBytes(value, k);
    var b := Bytes(value, k);
    assert b[..k] == b;
  }

  lemma IntRoundTrip(value: int, k: nat)
    requires -(2 * value) <= Power(k) && 2 * value < Power(k)
    ensures WriteInt(value, k).Some? && ReadInt(WriteInt(value, k).value, k) == Some(value)
  {
    var n := if value < 0 then value + Power(k) else value;
    assert 0 <= n < Power(k);
    NumberOfBytes(n, k);
    var b := Bytes(n, k);
    assert b[..k] == b;
  }

  /** Every buffer of the right size is what writing its value gives. */
  lemma ReadThenWrite(b: seq<Byte>)
    requires |b| > 0
    ensures ReadUInt(b, |b|).Some? && WriteUInt(ReadUInt(b, |b|).value, |b|) == Some(b)
    ensures ReadInt(b, |b|).Some? && WriteInt(ReadInt(b, |b|).value, |b|) == Some(b)
  {
    assert b[..|b|] == b;
    BytesOfNumber(b);
    EvenPower(|b|);
  }

  /** The lowest byte comes first, read or written. */
  lemma LittleEndian(b0: Byte, b1: Byte, b2: Byte, b3: Byte)
    ensures ReadUInt([b0, b1, b2, b3], 4) == Some(b0 + 0x100 * b1 + 0x1_0000 * b2 + 0x100_0000 * b3)
    ensures WriteUInt(b0 + 0x100 * b1 + 0x1_0000 * b2 + 0x100_0000 * b3, 4) == Some([b0, b1, b2, b3])
  {
    var b: seq<Byte> := [b0, b1, b2, b3];
    assert b[..4] == b;
    var c, d, e := b[1..], b[2..], b[3..];
    assert c[1..] == d && d[1..] == e && e[1..] == [];
    assert Number(e) == b3;
    assert Number(d) == b2 + 256 * Number(e);
    assert Number(c) == b1 + 256 * Number(d);
    assert Number(b) == b0 + 256 * Number(c);
    ReadThenWrite(b);
  }

  /** Negative integers are written in two's complement. */
  lemma TwosComplement(n: int)
    requires 1 <= n <= 128
    ensures WriteInt(-n, 1) == Some([256 - n]) && ReadInt([256 - n], 1) == Some(-n)
    ensures WriteInt(-n, 4) == Some([256 - n, 255, 255, 255]) && ReadInt([256 - n, 255, 255, 255], 4) == Some(-n)
  {
    assert Power(0) == 1 && Power(1) == 256 && Power(2) == 0x1_0000 && Power(3) == 0x100_0000;
    assert Power(4) == 0x1_0000_0000;
    var one: seq<Byte> := [256 - n];
    assert one[..1] == one && one[1..] == [];
    assert Number(one) == 256 - n;
    ReadThenWrite(one);
    LittleEndian(256 - n, 255, 255, 255);
    ReadThenWrite([256 - n, 255, 255, 255]);
  }

  lemma EvenPower(k: nat)
    requires k > 0
    ensures Power(k) % 2 == 0
  {
    assert Power(k) == 256 * Power(k - 1);
  }

  // ----- values -----

  /** A JavaScript value as far as types tell values apart. */
  datatype Value = Integer(n: int) | Fraction | Boolean(b: bool) | String(s: string) | Other | Null | Undefined

  /** `validate` does not throw. */
  predicate Accepts(t: Type, v: Value) {
    match t
    case Range(min, max) => v.Integer? && min <= v.n <= max
    case Text => v.String?
    case Float => v.Integer? || v.Fraction?
    case Bool => v.Boolean?
    case Enum(values) => v.String? && v.s in values
    case Complex => v != Undefined
  }

  /** The primitive of a type. */
  function PrimitiveOf(t: Type): Primitive
    requires Constructible(t)
  {
    match t
    case Range(min, max) => ComputePrimitive(min, max).value
    case Text => STRING
    case Float => FLOAT
    case Bool => BOOL
    case Enum(_) => STRING
    case Complex => JSON
  }

  predicate IsFixed(p: Primitive) { p.BOOL? || p.UINT8? || p.INT8? || p.UINT32? || p.INT32? }

  function Encode(p: Primitive, v: Value): Option<seq<Byte>>
    requires IsFixed(p)
  {
    match p
    case BOOL => if v.Boolean? then WriteUInt(if v.b then 1 else 0, 1) else None
    case UINT8 => if v.Integer? then WriteUInt(v.n, 1) else None
    case INT8 => if v.Integer? then WriteInt(v.n, 1) else None
    case UINT32 => if v.Integer? then WriteUInt(v.n, 4) else None
    case INT32 => if v.Integer? then WriteInt(v.n, 4) else None
  }

  function Decode(p: Primitive, b: seq<Byte>): Option<Value>
    requires IsFixed(p)
  {
    match p
    case BOOL => AsBoolean(ReadUInt(b, 1))
    case UINT8 => AsInteger(ReadUInt(b, 1))
    case INT8 => AsInteger(ReadInt(b, 1))
    case UINT32 => AsInteger(ReadUInt(b, 4))
    case INT32 => AsInteger(ReadInt(b, 4))
  }

  /** A boolean is the byte 1 or 0; any other byte than 0 is read as true. */
  lemma BooleanByte(b: Byte)
    ensures Encode(BOOL, Boolean(true)) == Some([1]) && Encode(BOOL, Boolean(false)) == Some([0])
    ensures Decode(BOOL, [b]) == Some(Boolean(b != 0))
  {
    assert Power(0) == 1 && Power(1) == 256;
    assert Bytes(1, 1) == [1 % 256] + Bytes(1 / 256, 0) && Bytes(0, 1) == [0 % 256] + Bytes(0 / 256, 0);
    assert Bytes(1, 1) == [1] && Bytes(0, 1) == [0];
    assert [b][..1] == [b] && [b][1..] == [];
    assert Number([b]) == b + 256 * Number([b][1..]);
  }

  /** A range accepts its bounds and what lies between them, and stops right outside. */
  lemma RangeBounds(min: int, max: int, n: int)
    requires min < max
    ensures Accepts(Range(min, max), Integer(min)) && Accepts(Range(min, max), Integer(max))
    ensures !Accepts(Range(min, max), Integer(min - 1)) && !Accepts(Range(min, max), Integer(max + 1))
    ensures min < n < max ==> Accepts(Range(min, max), Integer(n))
    ensures !Accepts(Range(min, max), Fraction) && !Accepts(Range(min, max), Null)
  {}

  /** Each type but a range accepts all the values of some kinds, or those it names. */
  lemma KindsAccepted(n: int, b: bool, s: string, values: seq<string>)
    ensures Accepts(Text, String(s)) && !Accepts(Text, Integer(n)) && !Accepts(Text, Boolean(b)) && !Accepts(Text, Null)
    ensures Accepts(Float, Integer(n)) && Accepts(Float, Fraction)
    ensures !Accepts(Float, String(s)) && !Accepts(Float, Null)
    ensures Accepts(Bool, Boolean(b)) && !Accepts(Bool, Integer(n)) && !Accepts(Bool, String(s)) && !Accepts(Bool, Null)
    ensures Accepts(Enum(values), String(s)) <==> exists i :: 0 <= i < |values| && values[i] == s
    ensures !Accepts(Enum(values), Integer(n)) && !Accepts(Enum(values), Null)
    ensures Accepts(Complex, Other) && Accepts(Complex, Null) && !Accepts(Complex, Undefined)
  {}

  function AsInteger(n: Option<int>): Option<Value> {
    match n case Some(v) => Some(Integer(v)) case None => None
  }

  function AsBoolean(n: Option<int>): Option<Value> {
    match n case Some(v) => Some(Boolean(v != 0)) case None => None
  }

  lemma Powers()
    ensures Power(1) == 256 && Power(4) == 4294967296
  {
    assert Power(1) == 256 * Power(0);
    assert Power(2) == 256 * Power(1);
    assert Power(3) == 256 * Power(2);
  }

  /** A value that a range or boolean type accepts is decoded as it was encoded. */
  lemma WireRoundTrip(t: Type, v: Value)
    requires Constructible(t) && (t.Range? || t.Bool?) && Accepts(t, v)
    ensures var p := PrimitiveOf(t); IsFixed(p) && Encode(p, v).Some? && Decode(p, Encode(p, v).value) == Some(v)
  {
    hide Power, WriteUInt, WriteInt, ReadUInt, ReadInt;
    Powers();
    match PrimitiveOf(t) {
      case BOOL => UIntRoundTrip(if v.b then 1 else 0, 1);
      case UINT8 => UIntRoundTrip(v.n, 1);
      case INT8 => IntRoundTrip(v.n, 1);
      case UINT32 => UIntRoundTrip(v.n, 4);
      case INT32 => IntRoundTrip(v.n, 4);
    }
  }

  /** A narrower primitive than the one chosen would lose a value of the range. */
  lemma PrimitiveIsTight(min: int, max: int)
    requires min < max && ComputePrimitive(min, max).Some?
    ensures ComputePrimitive(min, max) == Some(INT8) ==> WriteUInt(min, 1).None?
    ensures ComputePrimitive(min, max) == Some(UINT32) ==> WriteUInt(max, 1).None?
    ensures ComputePrimitive(min, max) == Some(INT32) ==>
      WriteUInt(min, 4).None? && (WriteInt(min, 1).None? || WriteInt(max, 1).None?)
  {
    hide Power, Bytes;
    Powers();
  }

  /** Types that print alike accept the same values, unless a comma hides in an enum value. */
  lemma SameTextSameValues(a: Type, b: Type, v: Value)
    requires Constructible(a) && Constructible(b) && CommaFree(a) && CommaFree(b) && Print(a) == Print(b)
    ensures Accepts(a, v) <==> Accepts(b, v)
  {
    hide Constructible, CommaFree, Print;
    PrintInjective(a, b);
  }

  /** With commas they need not: one accepts a value the other refuses. */
  lemma CommasAcceptMore()
    ensures var a, b := Enum(["a", "b,c"]), Enum(["a,b", "c"]);
            Constructible(a) && Constructible(b) && Print(a) == Print(b) && Accepts(b, String("c"))
              && !Accepts(a, String("c"))
  {
    hide Print, Constructible;
    CommasCollide();
  }
}
