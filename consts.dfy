/** Layout constants and the reserved table ids (`src/consts.rs`). */
module Consts {
  import opened Types

  const TABLE_ID_LEN: nat := 4

  /** Length of the timestamp that frames every value of a TTL table
      (the `Timestamp` type is four bytes). */
  const TIMESTAMP_LEN: nat := 4

  /** Key length the userland anchor is padded past: keys of up to this many
      bytes sort below the anchor. */
  const MAX_USERLAND_KEY_LEN: nat := 4

  /** 1024, big-endian. */
  const MIN_USERLAND_TABLE_ID: TableId := [0, 0, 4, 0]

  /** 4294967294, big-endian. */
  const MAX_USERLAND_TABLE_ID: TableId := [255, 255, 255, 254]

  /** The info table (system items such as the WAL placeholder). */
  const INFO_TABLE_ID: TableId := [0, 0, 0, 0]

  /** Maps table names to table ids. */
  const NAME_TO_ID_TABLE_ID: TableId := [0, 0, 0, 1]

  /** Maps table ids to table names. */
  const ID_TO_NAME_TABLE_ID: TableId := [0, 0, 0, 2]

  /** The info-table item written at open so that the write-ahead log is
      never empty. */
  const PLACEHOLDER_ITEM_ID: ItemId := [0, 0]

  /** The info-table item holding the persisted TTL flag. The constant's value
      is not among the repository's constants; the model only relies on it
      differing from the placeholder item. */
  const TTL_ITEM_ID: ItemId := [0, 1]
}
