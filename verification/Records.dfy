/** The records that travel between the client, the server and the cache. */
module Records {
  import opened Prelude

  const ITEMS_KEY := "SN|ItemsKey"
  const USER_PREFERENCES := "SN|UserPreferences"
  const SF_EXTENSION := "SF|Extension"

  // A Go string is a sequence of bytes: each char of a string below stands for
  // one byte. Timestamps are int64 values that are only compared and copied.
  datatype EncryptedItem = EncryptedItem(
    uuid: string,
    itemsKeyId: string,
    content: string,
    contentType: string,
    encItemKey: string,
    createdAt: string,
    updatedAt: string,
    duplicateOf: Option<string>,
    createdAtTimestamp: int,
    updatedAtTimestamp: int,
    deleted: bool)

  datatype ConflictType =
    | SyncConflict | UuidConflict | ContentTypeError | ContentError
    | ReadOnlyError | UuidError | InvalidServerItem | UnknownConflict

  datatype ConflictedItem = ConflictedItem(
    serverItem: EncryptedItem, unsavedItem: EncryptedItem, kind: ConflictType)

  datatype SessionItemsKey = SessionItemsKey(
    uuid: string,
    itemsKey: string,
    version: string,
    isDefault: bool,
    createdAt: string,
    updatedAt: string,
    createdAtTimestamp: int,
    updatedAtTimestamp: int,
    deleted: bool)

  function Uuid(e: EncryptedItem): string { e.uuid }

  function UpdatedStamp(e: EncryptedItem): int { e.updatedAtTimestamp }

  function KeyUuid(k: SessionItemsKey): string { k.uuid }

  function KeyStamp(k: SessionItemsKey): int { k.updatedAtTimestamp }

  /** The types whose deletion is never pushed and never applied. */
  predicate IsProtectedType(contentType: string) {
    contentType == ITEMS_KEY || contentType == USER_PREFERENCES
  }

  predicate HasPrefix(s: string, prefix: string) {
    prefix <= s
  }
}
