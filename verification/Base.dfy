/** Machine integers, identifiers and error values shared by every module. */
module Base {

  newtype byte = x: int | 0 <= x < 0x100

  type u16 = x: int | 0 <= x < 0x1_0000

  type u32 = x: int | 0 <= x < 0x1_0000_0000

  type i32 = x: int | -0x8000_0000 <= x < 0x8000_0000

  /** A non-zero 32-bit object identifier; 1 is always the display. */
  type ObjectId = x: int | 0 < x < 0x1_0000_0000 witness 1

  /** A raw file descriptor. */
  type Fd = i32

  const DISPLAY: ObjectId := 1

  datatype Option<+T> = None | Some(value: T)

  /** What the code is compiled for: the native byte order, and whether integer overflow panics
      (as it does in a debug build) or wraps (as it does in a release build). */
  datatype Target = Target(bigEndian: bool, overflowChecks: bool)

  datatype Error =
    | UnexpectedEof
    | PacketTooLong(actual: nat, maximum: nat)
    | PacketTooShort(actual: nat, minimum: nat)
    | FieldOutOfBounds(actual: nat, maximum: nat)
    | FdOutOfBounds(total: nat)
    | StringMisplacedNul(found: Option<nat>, expected: nat)
    | StringInvalidUtf8(data: seq<byte>)
    | IncompleteRead(readBytes: nat, totalBytes: nat, readFds: nat, totalFds: nat)
    | ZeroObjectId
    | NoEventHandler(objectId: ObjectId)
    | ConnectionDeleted

  /** How a fallible call ends: with a value, with an error, or with a panic. */
  datatype Result<+T> = Ok(value: T) | Err(error: Error) | Panic

  predicate Distinct<T(==)>(s: seq<T>)
  {
    forall i, j :: 0 <= i < j < |s| ==> s[i] != s[j]
  }

  /** The first place where something stands in a sequence. */
  function IndexOf<T(==)>(s: seq<T>, x: T): (i: nat)
    requires x in s
    ensures i < |s| && s[i] == x
  {
    if s[0] == x then 0 else 1 + IndexOf(s[1..], x)
  }
}
