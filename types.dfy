/** Machine integer widths, byte strings and the fixed-size arrays the
    library passes around (`src/types.rs`), plus the error enum
    (`src/error.rs`) and the Option/Result wrappers used by every layer. */
module Types {

  type u8 = x: int | 0 <= x < 0x100
  type u32 = x: int | 0 <= x < 0x1_0000_0000
  type u64 = x: int | 0 <= x < 0x1_0000_0000_0000_0000

  const U32_MAX: u32 := 0xFFFF_FFFF

  /** An owned or borrowed byte slice (`Bytes`, `&[u8]`, `Vec<u8>`). */
  type Bytes = seq<u8>

  /** `[u8; 4]` */
  type U8a4 = s: Bytes | |s| == 4 witness [0, 0, 0, 0]

  /** A 4-byte big-endian table id. */
  type TableId = U8a4

  /** A 4-byte big-endian unix time in seconds. */
  type Timestamp = U8a4

  /** `[u8; 2]`: the key of an item of the info table. */
  type ItemId = s: Bytes | |s| == 2 witness [0, 0]

  datatype Option<+T> = None | Some(value: T)

  /** What the storage engine reports for a write (`rocksdb::Error`). */
  datatype Status = OK | IOError

  /** `crate::error::Error` */
  datatype Error =
    | ExceededLimitError(currentId: u32, maxId: u32)
    | InconsistentTtlEnabled(currentTtl: bool, wantedTtl: bool)
    | ErrorPtr(shared: Error)
    | RocksdbError(status: Status)

  datatype Result<+T> = Ok(value: T) | Err(error: Error)

  /** The `?` conversion of an engine status into the library's `Result`. */
  function FromStatus(s: Status): (r: Result<()>)
    ensures r.Ok? <==> s.OK?
    ensures r.Err? ==> r.error == RocksdbError(s)
  {
    if s.OK? then Ok(()) else Err(RocksdbError(s))
  }

  /** Taking one more element of a sequence appends that element. */
  lemma TakeSnoc<T>(t: seq<T>, i: nat)
    requires i < |t|
    ensures t[..i + 1] == t[..i] + [t[i]]
  {
  }
}
