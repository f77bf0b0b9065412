/**
 * The conversion and equality layer of serde-value (src/misc.rs): the
 * `From<T> for Value` conversions and the comparisons of a `Value` with a
 * native primitive through the projections `as_i64`, `as_u64`, `as_bool`
 * and `as_str`.
 */
module Conversions {
  import opened Results
  import opened Values

  /** The native types that have a `From` conversion into `Value`. */
  datatype NativeType =
    | TBool | TU8 | TU16 | TU32 | TU64 | TI8 | TI16 | TI32 | TI64 | TF32 | TF64
    | TByteSlice | TByteVec | TStr | TString

  /** A native value tagged with its static type (`&[u8]` and `Vec<u8>`, `&str` and `String` stay apart). */
  datatype Native =
    | NBool(b: bool)
    | NU8(u8: uint8)
    | NU16(u16: uint16)
    | NU32(u32: uint32)
    | NU64(u64: uint64)
    | NI8(i8: int8)
    | NI16(i16: int16)
    | NI32(i32: int32)
    | NI64(i64: int64)
    | NF32(f32: bv32)
    | NF64(f64: bv64)
    | NByteSlice(bytes: seq<uint8>)
    | NByteVec(bytes: seq<uint8>)
    | NStr(text: string)
    | NString(text: string)

  function TypeOf(x: Native): NativeType {
    match x
    case NBool(_) => TBool
    case NU8(_) => TU8
    case NU16(_) => TU16
    case NU32(_) => TU32
    case NU64(_) => TU64
    case NI8(_) => TI8
    case NI16(_) => TI16
    case NI32(_) => TI32
    case NI64(_) => TI64
    case NF32(_) => TF32
    case NF64(_) => TF64
    case NByteSlice(_) => TByteSlice
    case NByteVec(_) => TByteVec
    case NStr(_) => TStr
    case NString(_) => TString
  }

  /** The tag of a `Value`, without its payload. */
  datatype Variant =
    | VUnit | VBool | VU8 | VU16 | VU32 | VU64 | VI8 | VI16 | VI32 | VI64
    | VF32 | VF64 | VChar | VString | VBytes | VSeq | VMap

  function VariantOf(v: Value): Variant {
    match v
    case Unit => VUnit
    case Bool(_) => VBool
    case U8(_) => VU8
    case U16(_) => VU16
    case U32(_) => VU32
    case U64(_) => VU64
    case I8(_) => VI8
    case I16(_) => VI16
    case I32(_) => VI32
    case I64(_) => VI64
    case F32(_) => VF32
    case F64(_) => VF64
    case Char(_) => VChar
    case String(_) => VString
    case Bytes(_) => VBytes
    case Seq(_) => VSeq
    case Map(_) => VMap
  }

  /** The one variant each native type is meant to land in: same width, same signedness. */
  function TargetVariant(t: NativeType): Variant {
    match t
    case TBool => VBool
    case TU8 => VU8
    case TU16 => VU16
    case TU32 => VU32
    case TU64 => VU64
    case TI8 => VI8
    case TI16 => VI16
    case TI32 => VI32
    case TI64 => VI64
    case TF32 => VF32
    case TF64 => VF64
    case TByteSlice => VBytes
    case TByteVec => VBytes
    case TStr => VString
    case TString => VString
  }

  /**
   * Reads a value back as a native of type `t` when it sits in that type's
   * variant. It is the inverse a lossless conversion must admit.
   */
  function Recover(v: Value, t: NativeType): (r: Option<Native>)
    ensures r.Some? ==> TypeOf(r.value) == t
  {
    match t
    case TBool => if v.Bool? then Some(NBool(v.b)) else None
    case TU8 => if v.U8? then Some(NU8(v.u8)) else None
    case TU16 => if v.U16? then Some(NU16(v.u16)) else None
    case TU32 => if v.U32? then Some(NU32(v.u32)) else None
    case TU64 => if v.U64? then Some(NU64(v.u64)) else None
    case TI8 => if v.I8? then Some(NI8(v.i8)) else None
    case TI16 => if v.I16? then Some(NI16(v.i16)) else None
    case TI32 => if v.I32? then Some(NI32(v.i32)) else None
    case TI64 => if v.I64? then Some(NI64(v.i64)) else None
    case TF32 => if v.F32? then Some(NF32(v.f32)) else None
    case TF64 => if v.F64? then Some(NF64(v.f64)) else None
    case TByteSlice => if v.Bytes? then Some(NByteSlice(v.bytes)) else None
    case TByteVec => if v.Bytes? then Some(NByteVec(v.bytes)) else None
    case TStr => if v.String? then Some(NStr(v.str)) else None
    case TString => if v.String? then Some(NString(v.str)) else None
  }

  /** Recover succeeds exactly on the values in the type's target variant. */
  lemma RecoverAcceptsTarget(v: Value, t: NativeType)
    ensures Recover(v, t).Some? <==> VariantOf(v) == TargetVariant(t)
  {
  }

  /** `impl From<T> for Value` for every native type T above. */
  function From(x: Native): (r: Value)
    ensures VariantOf(r) == TargetVariant(TypeOf(x))
  {
    match x
    case NBool(b) => Bool(b)
    case NU8(n) => U8(n)
    case NU16(n) => U16(n)
    case NU32(n) => U32(n)
    case NU64(n) => U64(n)
    case NI8(n) => I8(n)
    case NI16(n) => I16(n)
    case NI32(n) => I32(n)
    case NI64(n) => I64(n)
    case NF32(n) => F32(n)
    case NF64(n) => F64(n)
    case NByteSlice(bs) => Bytes(bs)
    case NByteVec(bs) => Bytes(bs)
    case NStr(s) => String(s)
    case NString(s) => String(s)
  }

  /** Reading a converted native back at its own type gives it back: `From` loses nothing. */
  lemma RecoverFrom(x: Native)
    ensures Recover(From(x), TypeOf(x)) == Some(x)
  {
  }

  /** Whatever Recover accepts is exactly what From produces: every value of the target variant is reached. */
  lemma RecoverInvertsFrom(v: Value, t: NativeType, x: Native)
    requires Recover(v, t) == Some(x)
    ensures From(x) == v && TypeOf(x) == t
  {
  }

  /** No two natives of one type convert to the same value. */
  lemma FromInjective(x: Native, y: Native)
    requires TypeOf(x) == TypeOf(y) && From(x) == From(y)
    ensures x == y
  {
    RecoverFrom(x);
    RecoverFrom(y);
    assert Some(x) == Recover(From(x), TypeOf(x)) == Recover(From(y), TypeOf(y)) == Some(y);
  }

  /** `From<&[u8]>` and `From<Vec<u8>>` agree and keep the bytes. */
  lemma ByteConversionsAgree(bs: seq<uint8>)
    ensures From(NByteSlice(bs)) == Bytes(bs)
    ensures From(NByteVec(bs)) == Bytes(bs)
  {
  }

  /** `From<&str>` and `From<String>` agree and keep the text. */
  lemma TextConversionsAgree(s: string)
    ensures From(NStr(s)) == String(s)
    ensures From(NString(s)) == String(s)
  {
  }

  // ---------------------------------------------------------------------
  // Equality against native primitives
  // ---------------------------------------------------------------------

  /**
   * The projections of a `Value` onto the canonical native classes. Their
   * definitions live outside the modelled files, so every property below
   * holds for any choice of them.
   */
  datatype Projections = Projections(
    asI64: Value -> Option<int64>,
    asU64: Value -> Option<uint64>,
    asBool: Value -> Option<bool>,
    asStr: Value -> Option<string>)

  /** `eq_i64`: false without a signed projection, otherwise equality of the projection. */
  function EqI64(p: Projections, v: Value, other: int64): (r: bool)
    ensures r <==> p.asI64(v) == Some(other)
  {
    match p.asI64(v)
    case None => false
    case Some(i) => i == other
  }

  /** `eq_u64` */
  function EqU64(p: Projections, v: Value, other: uint64): (r: bool)
    ensures r <==> p.asU64(v) == Some(other)
  {
    match p.asU64(v)
    case None => false
    case Some(i) => i == other
  }

  /** `eq_bool` */
  function EqBool(p: Projections, v: Value, other: bool): (r: bool)
    ensures r <==> p.asBool(v) == Some(other)
  {
    match p.asBool(v)
    case None => false
    case Some(b) => b == other
  }

  /** `eq_str` */
  function EqStr(p: Projections, v: Value, other: string): (r: bool)
    ensures r <==> p.asStr(v) == Some(other)
  {
    match p.asStr(v)
    case None => false
    case Some(s) => s == other
  }

  /** Rust's `n as i64`: the low 64 bits of `n`, read in two's complement. */
  function CastI64(n: int): (r: int64)
    ensures (r - n) % 0x1_0000_0000_0000_0000 == 0
  {
    var m := n % 0x1_0000_0000_0000_0000;
    if m < 0x8000_0000_0000_0000 then m else m - 0x1_0000_0000_0000_0000
  }

  /** Rust's `n as u64`: the low 64 bits of `n`. */
  function CastU64(n: int): (r: uint64)
    ensures (r - n) % 0x1_0000_0000_0000_0000 == 0
  {
    n % 0x1_0000_0000_0000_0000
  }

  /** Widening a signed integer to `i64` and an unsigned one to `u64` loses nothing. */
  lemma CastLossless(n: int)
    ensures -0x8000_0000_0000_0000 <= n < 0x8000_0000_0000_0000 ==> CastI64(n) == n
    ensures 0 <= n < 0x1_0000_0000_0000_0000 ==> CastU64(n) == n
  {
  }

  /** The primitives a `Value` can be compared with; floats are not modelled. */
  datatype Operand =
    | OI8(i8: int8)
    | OI16(i16: int16)
    | OI32(i32: int32)
    | OI64(i64: int64)
    | OU8(u8: uint8)
    | OU16(u16: uint16)
    | OU32(u32: uint32)
    | OU64(u64: uint64)
    | OBool(b: bool)
    | OStrSlice(text: string)  // str
    | OStrRef(text: string)    // &str
    | OString(text: string)    // String

  predicate IsSigned(x: Operand) { x.OI8? || x.OI16? || x.OI32? || x.OI64? }

  predicate IsUnsigned(x: Operand) { x.OU8? || x.OU16? || x.OU32? || x.OU64? }

  predicate IsText(x: Operand) { x.OStrSlice? || x.OStrRef? || x.OString? }

  /** The mathematical integer an integer operand holds. */
  function IntOf(x: Operand): int
    requires IsSigned(x) || IsUnsigned(x)
  {
    match x
    case OI8(n) => n
    case OI16(n) => n
    case OI32(n) => n
    case OI64(n) => n
    case OU8(n) => n
    case OU16(n) => n
    case OU32(n) => n
    case OU64(n) => n
  }

  /**
   * `value == other` for every `impl PartialEq<T> for Value`: integers are
   * widened with `as` and compared through the 64-bit projections, whatever
   * variant the value uses to store them.
   */
  function ValueEq(p: Projections, v: Value, x: Operand): (r: bool)
    ensures IsSigned(x) ==> (r <==> p.asI64(v).Some? && p.asI64(v).value == IntOf(x))
    ensures IsUnsigned(x) ==> (r <==> p.asU64(v).Some? && p.asU64(v).value == IntOf(x))
    ensures x.OBool? ==> (r <==> p.asBool(v) == Some(x.b))
    ensures IsText(x) ==> (r <==> p.asStr(v) == Some(x.text))
  {
    match x
    case OI8(n) => CastLossless(n); EqI64(p, v, CastI64(n))
    case OI16(n) => CastLossless(n); EqI64(p, v, CastI64(n))
    case OI32(n) => CastLossless(n); EqI64(p, v, CastI64(n))
    case OI64(n) => CastLossless(n); EqI64(p, v, CastI64(n))
    case OU8(n) => CastLossless(n); EqU64(p, v, CastU64(n))
    case OU16(n) => CastLossless(n); EqU64(p, v, CastU64(n))
    case OU32(n) => CastLossless(n); EqU64(p, v, CastU64(n))
    case OU64(n) => CastLossless(n); EqU64(p, v, CastU64(n))
    case OBool(b) => EqBool(p, v, b)
    case OStrSlice(s) => EqStr(p, v, s)
    case OStrRef(s) => EqStr(p, v, s)
    case OString(s) => EqStr(p, v, s)
  }

  /** `other == value` for every `impl PartialEq<Value> for T`: the same helper with the arguments swapped. */
  function PrimitiveEq(p: Projections, x: Operand, v: Value): (r: bool)
    ensures r == ValueEq(p, v, x)
  {
    match x
    case OI8(n) => EqI64(p, v, CastI64(n))
    case OI16(n) => EqI64(p, v, CastI64(n))
    case OI32(n) => EqI64(p, v, CastI64(n))
    case OI64(n) => EqI64(p, v, CastI64(n))
    case OU8(n) => EqU64(p, v, CastU64(n))
    case OU16(n) => EqU64(p, v, CastU64(n))
    case OU32(n) => EqU64(p, v, CastU64(n))
    case OU64(n) => EqU64(p, v, CastU64(n))
    case OBool(b) => EqBool(p, v, b)
    case OStrSlice(s) => EqStr(p, v, s)
    case OStrRef(s) => EqStr(p, v, s)
    case OString(s) => EqStr(p, v, s)
  }

  /** Comparing with `str`, `&str` or `String` holding the same text gives the same answer. */
  lemma TextComparisonsAgree(p: Projections, v: Value, s: string)
    ensures ValueEq(p, v, OStrSlice(s)) == ValueEq(p, v, OStrRef(s)) == ValueEq(p, v, OString(s)) == EqStr(p, v, s)
  {
  }

  /** The width of an integer operand does not matter: only its mathematical value does. */
  lemma OperandWidthIrrelevant(p: Projections, v: Value, x: Operand, y: Operand)
    requires (IsSigned(x) && IsSigned(y)) || (IsUnsigned(x) && IsUnsigned(y))
    requires IntOf(x) == IntOf(y)
    ensures ValueEq(p, v, x) == ValueEq(p, v, y)
  {
  }

  /**
   * Only the projection an operand's class goes through decides its
   * comparison: two values with the same signed projection equal the same
   * signed natives, and likewise for unsigned, bool and text operands.
   */
  lemma SameProjectionSameAnswer(p: Projections, v1: Value, v2: Value, x: Operand)
    requires IsSigned(x) ==> p.asI64(v1) == p.asI64(v2)
    requires IsUnsigned(x) ==> p.asU64(v1) == p.asU64(v2)
    requires x.OBool? ==> p.asBool(v1) == p.asBool(v2)
    requires IsText(x) ==> p.asStr(v1) == p.asStr(v2)
    ensures ValueEq(p, v1, x) == ValueEq(p, v2, x)
  {
  }

  /**
   * Projection equality is looser than structural equality: `I32(5)` and
   * `U8(5)` differ as values, yet both equal the native `5` whenever their
   * signed projections are `Some(5)`.
   */
  lemma ProjectionEqualityIsLooser(p: Projections)
    requires p.asI64(I32(5)) == Some(5) && p.asI64(U8(5)) == Some(5)
    ensures I32(5) != U8(5)
    ensures ValueEq(p, I32(5), OI32(5)) && ValueEq(p, U8(5), OI32(5))
  {
  }
}
