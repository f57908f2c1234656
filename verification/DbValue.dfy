/** Typed values (table/db_value.h, include/pdb.h). Strings are their UTF-8 bytes, float and
    double are their IEEE bit patterns. */
module DbValue {
  import opened Coding

  datatype FieldType =
    TBool | TInt8 | TInt16 | TInt32 | TInt64 | TDateTime | TFloat | TDouble | TString | TBlob

  datatype DBVal =
    | Null
    | Bool(b: bool)
    | Int8(i8: Int8)
    | Int16(i16: Int16)
    | Int32(i32: Int32)
    | Int64(i64: Int64)
    | DateTime(ts: Int64)
    | Float(f32: UInt32)
    | Double(f64: UInt64)
    | String(bytes: Bytes)
    | Blob(bytes: Bytes)

  type Row = seq<DBVal>

  const DEVID_INDEX := 0
  const TSTAMP_INDEX := 1

  const MICROSECONDS_PER_DAY := 86_400_000_000

  /** Microseconds since 1970 (util/date_time.h): the first one, and the last one of 30 December
      2999. The number of days up to the year 3000 is one too small there, because 366 days are
      taken away for a year of 365. */
  const MIN_MICROSECOND := 0
  const MAX_MICROSECOND := 376199 * MICROSECONDS_PER_DAY - 1

  predicate HasType(v: DBVal, t: FieldType) {
    match t
    case TBool => v.Bool?
    case TInt8 => v.Int8?
    case TInt16 => v.Int16?
    case TInt32 => v.Int32?
    case TInt64 => v.Int64?
    case TDateTime => v.DateTime?
    case TFloat => v.Float?
    case TDouble => v.Double?
    case TString => v.String?
    case TBlob => v.Blob?
  }

  /** dataLen_ of a string or blob is an int32_t. */
  predicate Storable(v: DBVal, t: FieldType) {
    HasType(v, t) && (v.String? || v.Blob? ==> |v.bytes| < 0x8000_0000)
  }

  predicate IsIntType(t: FieldType) { t in {TInt8, TInt16, TInt32, TInt64, TDateTime} }

  /** The value sign-extended to 64 bits, as the integer builders and aggregates read it. */
  function IntOf(v: DBVal): Int64 {
    match v
    case Int8(i) => i
    case Int16(i) => i
    case Int32(i) => i
    case Int64(i) => i
    case DateTime(i) => i
    case _ => 0
  }

  /** Device and time of a row. */
  function RowDev(row: Row): Int64 { if |row| > DEVID_INDEX then IntOf(row[DEVID_INDEX]) else 0 }
  function RowTs(row: Row): Int64 { if |row| > TSTAMP_INDEX then IntOf(row[TSTAMP_INDEX]) else 0 }

  /** The integer cast to the width of the field type. */
  function MakeInt(t: FieldType, x: Int64): DBVal {
    match t
    case TInt8 => Int8(Signed(x, 0x100))
    case TInt16 => Int16(Signed(x, 0x1_0000))
    case TInt32 => Int32(Signed(x, P32))
    case TInt64 => Int64(x)
    case TDateTime => DateTime(x)
    case _ => Null
  }

  lemma MakeIntOf(t: FieldType, v: DBVal)
    requires IsIntType(t) && HasType(v, t)
    ensures MakeInt(t, IntOf(v)) == v
  {
  }
}
