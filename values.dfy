/**
 * The dynamic value tree of serde-value. Integer payloads are kept at the
 * width of their variant; floating-point payloads are opaque bit patterns
 * (no floating-point arithmetic or comparison is modelled).
 */
module Values {

  type uint8 = n: int | 0 <= n < 0x100
  type uint16 = n: int | 0 <= n < 0x1_0000
  type uint32 = n: int | 0 <= n < 0x1_0000_0000
  type uint64 = n: int | 0 <= n < 0x1_0000_0000_0000_0000
  type int8 = n: int | -0x80 <= n < 0x80
  type int16 = n: int | -0x8000 <= n < 0x8000
  type int32 = n: int | -0x8000_0000 <= n < 0x8000_0000
  type int64 = n: int | -0x8000_0000_0000_0000 <= n < 0x8000_0000_0000_0000

  datatype Value =
    | Unit
    | Bool(b: bool)
    | U8(u8: uint8)
    | U16(u16: uint16)
    | U32(u32: uint32)
    | U64(u64: uint64)
    | I8(i8: int8)
    | I16(i16: int16)
    | I32(i32: int32)
    | I64(i64: int64)
    | F32(f32: bv32)
    | F64(f64: bv64)
    | Char(c: char)
    | String(str: string)
    | Bytes(bytes: seq<uint8>)
    | Seq(items: seq<Value>)
    | Map(entries: map<Value, Value>)
}
