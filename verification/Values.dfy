/** Holder<T>: the four standard parameter types, their byte codecs and copy_data. */
module Values {
  import opened Common

  type byte = b: int | 0 <= b < 256

  type int32 = i: int | -0x8000_0000 <= i < 0x8000_0000

  /** A double, seen only through its eight stored bytes. */
  type word64 = w: seq<byte> | |w| == 8 witness [0, 0, 0, 0, 0, 0, 0, 0]

  datatype Ty = TBool | TInt | TReal | TStr

  datatype Value =
    | BoolV(b: bool)
    | IntV(i: int32)
    | RealV(bits: word64)
    | StrV(s: seq<byte>)

  type Params = map<string, Value>

  function TypeOf(v: Value): Ty {
    match v
    case BoolV(_) => TBool
    case IntV(_) => TInt
    case RealV(_) => TReal
    case StrV(_) => TStr
  }

  function TypesOf(m: Params): map<string, Ty> {
    map k | k in m :: TypeOf(m[k])
  }

  /** The logical reading of a value in a power or exchange condition; a real is unset when it
      is a zero of either sign. */
  predicate IsSet(v: Value) {
    match v
    case BoolV(b) => b
    case IntV(i) => i != 0
    case RealV(w) => w[..7] != [0, 0, 0, 0, 0, 0, 0] || (w[7] != 0 && w[7] != 128)
    case StrV(s) => s != []
  }

  function DefaultOf(ty: Ty): Value {
    match ty
    case TBool => BoolV(false)
    case TInt => IntV(0)
    case TReal => RealV([0, 0, 0, 0, 0, 0, 0, 0])
    case TStr => StrV([])
  }

  /** The default of each type, and a value is unset exactly when it is one of them or a negative zero. */
  lemma UnsetIsDefault(v: Value)
    ensures DefaultOf(TBool) == BoolV(false) && DefaultOf(TInt) == IntV(0) && DefaultOf(TStr) == StrV([])
    ensures DefaultOf(TReal) == RealV([0, 0, 0, 0, 0, 0, 0, 0])
    ensures !IsSet(v) <==> v == DefaultOf(TypeOf(v)) || v == RealV([0, 0, 0, 0, 0, 0, 0, 128])
  {
    if v.RealV? { assert v.bits == v.bits[..7] + [v.bits[7]]; }
  }

  /** Holder::copy_data: the new content and whether it changed. */
  function CopyData(dst: Value, src: Value): Outcome<(Value, bool)> {
    if TypeOf(dst) != TypeOf(src) then Throw(BadCast)
    else if dst == src then Ok((dst, false))
    else Ok((src, true))
  }

  // ----- byte codecs (little-endian host) -----

  function LittleEndian32(n: nat): seq<byte>
    requires n < 0x1_0000_0000
  {
    [n % 256, n / 0x100 % 256, n / 0x1_0000 % 256, n / 0x100_0000]
  }

  function FromLittleEndian32(bs: seq<byte>): (n: nat)
    requires |bs| == 4
    ensures n < 0x1_0000_0000
  {
    bs[0] as int + bs[1] as int * 0x100 + bs[2] as int * 0x1_0000 + bs[3] as int * 0x100_0000
  }

  function ToBytes(v: Value): seq<byte> {
    match v
    case BoolV(b) => [if b then 1 else 0, 0]
    case IntV(i) => LittleEndian32(if i < 0 then i + 0x1_0000_0000 else i)
    case RealV(w) => w
    case StrV(s) => s
  }

  /** from_bytes into a holder of type ty; None is its false. */
  function FromBytes(ty: Ty, bs: seq<byte>): Option<Value> {
    match ty
    case TBool => if |bs| != 1 && |bs| != 2 then None else Some(BoolV(bs[0] != 0))
    case TInt =>
      if |bs| != 4 then None
      else
        var n := FromLittleEndian32(bs);
        Some(IntV(if n < 0x8000_0000 then n else n - 0x1_0000_0000))
    case TReal => if |bs| != 8 then None else Some(RealV(bs))
    case TStr => Some(StrV(bs))
  }

  /** The codecs are inverse to each other. */
  lemma CodecRoundTrip(v: Value)
    ensures FromBytes(TypeOf(v), ToBytes(v)) == Some(v)
  {
    if v.IntV? {
      var n := if v.i < 0 then v.i + 0x1_0000_0000 else v.i;
      assert n / 0x1_0000 == n / 0x100 / 0x100 && n / 0x100_0000 == n / 0x100 / 0x100 / 0x100;
    }
  }

  /** The bytes that stand for a value: an int in two's complement with the low byte first, a bool as a
      byte that is not zero with at most one byte after it, a real and a string as they are stored. */
  predicate Stands(bs: seq<byte>, v: Value) {
    match v
    case BoolV(b) => (|bs| == 1 || |bs| == 2) && (b <==> bs[0] != 0)
    case IntV(i) =>
      |bs| == 4 && bs[0] as int + 0x100 * bs[1] as int + 0x1_0000 * bs[2] as int + 0x100_0000 * bs[3] as int ==
                   if i < 0 then 0x1_0000_0000 + i else i
    case RealV(w) => bs == w
    case StrV(s) => bs == s
  }

  /** from_bytes finds exactly the value of its type that the bytes stand for. */
  lemma DecodesIff(ty: Ty, bs: seq<byte>, v: Value)
    ensures FromBytes(ty, bs) == Some(v) <==> TypeOf(v) == ty && Stands(bs, v)
  {
  }

  /** to_bytes gives bytes that stand for the value; a bool takes two. */
  lemma EncodedStands(v: Value)
    ensures Stands(ToBytes(v), v) && (v.BoolV? ==> ToBytes(v) == [if v.b then 1 else 0, 0])
  {
    if v.IntV? {
      var n := if v.i < 0 then v.i + 0x1_0000_0000 else v.i;
      assert n / 0x1_0000 == n / 0x100 / 0x100 && n / 0x100_0000 == n / 0x100 / 0x100 / 0x100;
    }
  }

  /** Decoding never changes the type. */
  lemma DecodeKeepsType(ty: Ty, bs: seq<byte>)
    ensures FromBytes(ty, bs).Some? ==> TypeOf(FromBytes(ty, bs).value) == ty
  {
  }

  /** Some variables of a block, with values of the types they have there. */
  predicate SomeOf(res: Params, own: Params) {
    forall n <- res :: n in own && TypeOf(res[n]) == TypeOf(own[n])
  }
}
