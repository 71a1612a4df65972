/** Decrypted items and item encryption, as the sync code uses them. */
module Vault {
  import opened Records

  datatype Reference = Reference(uuid: string, contentType: string, referenceType: string)

  // The JSON of an item's content is abstract apart from its reference list.
  datatype Content = Content(kind: string, body: string, references: seq<Reference>)

  datatype Item = Item(
    uuid: string, itemsKeyId: string, contentType: string, content: Content,
    createdAt: string, updatedAt: string, duplicateOf: string,
    createdAtTimestamp: int, updatedAtTimestamp: int, deleted: bool)

  // What stops an operation: an error return or a panic of the program.
  datatype Fault =
    | ItemIsDeleted | NoItemsKeyId | NoItemsKey | BadEnvelope | BadCipherText | BadKey | EmptyPlainKey
    | NoItemsKeyUuid | UnknownType | BadContent | BadTime | ItemsKeyIsNoItem | NoEncItemKey
    | NotFound | NotDefaultKey | UnhandledConflict

  datatype Result<+T> = Ok(value: T) | Err(fault: Fault)

  /** The text of the first key with an identifier; empty when there is none. */
  function KeyText(uuid: string, keys: seq<SessionItemsKey>): string {
    if keys == [] then ""
    else if keys[0].uuid == uuid then keys[0].itemsKey
    else KeyText(uuid, keys[1..])
  }

  lemma {:induction false} KeyTextIsFirst(uuid: string, keys: seq<SessionItemsKey>, i: nat)
    requires i <= |keys| && forall j :: 0 <= j < i ==> keys[j].uuid != uuid
    ensures i == |keys| ==> KeyText(uuid, keys) == ""
    ensures i < |keys| && keys[i].uuid == uuid ==> KeyText(uuid, keys) == keys[i].itemsKey
  {
    if i > 0 {
      KeyTextIsFirst(uuid, keys[1..], i - 1);
    }
  }

  /**
   Encryption of one item under a key, with the n-th draw of random bytes, and decryption
   with the keys of a session. A well-formed item has times and content that can be read back.
   */
  datatype Cipher = Cipher(
    encrypt: (Item, SessionItemsKey, nat) -> Result<EncryptedItem>,
    decrypt: (EncryptedItem, seq<SessionItemsKey>) -> Result<Item>,
    wellFormed: Item -> bool)

  ghost predicate EncryptKeepsFields(c: Cipher) {
    forall item, key, n :: c.encrypt(item, key, n).Ok? ==>
      var e := c.encrypt(item, key, n).value;
      && e.uuid == item.uuid && e.contentType == item.contentType && e.itemsKeyId == key.uuid
      && e.createdAt == item.createdAt && e.updatedAt == item.updatedAt
      && e.createdAtTimestamp == item.createdAtTimestamp && e.updatedAtTimestamp == item.updatedAtTimestamp
      && e.deleted == item.deleted && e.duplicateOf.None?
  }

  ghost predicate DecryptKeepsFields(c: Cipher) {
    forall e, keys :: c.decrypt(e, keys).Ok? ==>
      var item := c.decrypt(e, keys).value;
      && item.uuid == e.uuid && item.contentType == e.contentType && item.content.kind == e.contentType
      && item.createdAtTimestamp == e.createdAtTimestamp && item.updatedAtTimestamp == e.updatedAtTimestamp
      && c.wellFormed(item)
      && !e.deleted && !item.deleted && e.contentType != ITEMS_KEY
  }

  ghost predicate IgnoresStamp(c: Cipher) {
    forall e, keys, stamp :: c.decrypt(e, keys).Ok? ==>
      var e' := e.(updatedAtTimestamp := stamp);
      c.decrypt(e', keys).Ok? && c.decrypt(e', keys).value.content == c.decrypt(e, keys).value.content
  }

  /** Decrypting what was encrypted under a key the session resolves gives the content back. */
  ghost predicate RoundTrips(c: Cipher) {
    forall item, key, n, keys ::
      && c.encrypt(item, key, n).Ok?
      && !item.deleted && item.contentType != ITEMS_KEY && item.content.kind == item.contentType
      && c.wellFormed(item)
      && key.itemsKey != "" && KeyText(key.uuid, keys) == key.itemsKey
      ==>
      var e := c.encrypt(item, key, n).value;
      c.decrypt(e, keys).Ok? && c.decrypt(e, keys).value.content == item.content
  }

  /** An item stays well formed when only its identifier or its references change. */
  ghost predicate FormIsStable(c: Cipher) {
    && (forall item, uuid :: c.wellFormed(item) ==> c.wellFormed(item.(uuid := uuid)))
    && (forall item, refs :: c.wellFormed(item) ==>
          c.wellFormed(item.(content := item.content.(references := refs))))
  }

  ghost predicate Lawful(c: Cipher) {
    EncryptKeepsFields(c) && DecryptKeepsFields(c) && IgnoresStamp(c) && RoundTrips(c) && FormIsStable(c)
  }
}
