/**
 * The Total Commander content-plugin interface as the plugin sees it: field
 * types, result codes, field descriptors and the values that cross the
 * host's buffers. Numeric codes are those of the interface's header
 * contentplug.h.
 */
module ContentPlugin {

  /** A C++ `int` / `__int32` value. */
  type Int32 = x: int | -0x8000_0000 <= x < 0x8000_0000

  /** A wide-character file name as the host passes it. */
  type Path = string

  /** The semantic type a field declares (ft_numeric_32, ft_string, ft_stringw). */
  datatype FieldType = Numeric32 | String | StringW

  /** The ft_* code the host receives for a field type; all are positive. */
  function TypeCode(t: FieldType): (c: int)
    ensures c > 0
  {
    match t
    case Numeric32 => 1
    case String => 8
    case StringW => 11
  }

  const FT_NOMOREFIELDS: int := 0
  const FT_NOSUCHFIELD: int := -1
  const FT_FILEERROR: int := -2
  const FT_FIELDEMPTY: int := -3
  const FT_SETSUCCESS: int := 0

  /** contflags_edit: the host may edit the field. */
  const CONTFLAGS_EDIT: bv32 := 1

  /** One row of the field table (`m_Fields`). */
  datatype Field = Field(name: string, fieldType: FieldType, unit: string, multChoice: string, flag: bv32)

  /** What a successful read writes into the host's buffer. */
  datatype Value = Number(n: Int32) | Text(s: string)

  /** The outcome of a read: the code returned and, on success, the value written. */
  datatype GetResult = Success(fieldType: FieldType, value: Value) | FieldEmpty | FileError | NoSuchField

  /** The int a read returns to the host; only a success is positive. */
  function GetCode(r: GetResult): (c: int)
    ensures c > 0 <==> r.Success?
    ensures r.FieldEmpty? <==> c == FT_FIELDEMPTY
    ensures r.FileError? <==> c == FT_FILEERROR
    ensures r.NoSuchField? <==> c == FT_NOSUCHFIELD
  {
    match r
    case Success(t, _) => TypeCode(t)
    case FieldEmpty => FT_FIELDEMPTY
    case FileError => FT_FILEERROR
    case NoSuchField => FT_NOSUCHFIELD
  }

  /** The outcome of a write. */
  datatype SetResult = SetSuccess | SetFileError | SetNoSuchField

  function SetCode(r: SetResult): (c: int)
    ensures c == FT_SETSUCCESS <==> r.SetSuccess?
    ensures c == FT_FILEERROR <==> r.SetFileError?
    ensures c == FT_NOSUCHFIELD <==> r.SetNoSuchField?
  {
    match r
    case SetSuccess => FT_SETSUCCESS
    case SetFileError => FT_FILEERROR
    case SetNoSuchField => FT_NOSUCHFIELD
  }

  /**
   * The buffer a write hands over. The plugin reads the same bytes either as a
   * wide string or as an `__int32`, depending on the field index alone.
   */
  datatype SetBuffer = SetBuffer(asText: string, asInt32: Int32)
}
