/**
 The two-layer envelope: content is sealed under a random item key, and the item key under
 an items key; each layer is written as four fields joined by colons.
 */
module Envelope {
  import opened Prelude
  import opened Records
  import opened Text
  import opened Vault

  const KEY_SIZE := 32
  const NONCE_SIZE := 24

  type Byte = b: int | 0 <= b < 256

  // ---- Hexadecimal text, section 8 of RFC 4648

  const HEX_DIGITS := "0123456789abcdef"

  function HexValue(c: char): Option<int> {
    if '0' <= c <= '9' then Some(c as int - '0' as int)
    else if 'a' <= c <= 'f' then Some(c as int - 'a' as int + 10)
    else if 'A' <= c <= 'F' then Some(c as int - 'A' as int + 10)
    else None
  }

  lemma HexValueOfDigit(n: nat)
    requires n < 16
    ensures HexValue(HEX_DIGITS[n]) == Some(n)
  {
  }

  function HexEncode(bytes: seq<Byte>): string {
    if bytes == [] then "" else [HEX_DIGITS[bytes[0] / 16], HEX_DIGITS[bytes[0] % 16]] + HexEncode(bytes[1..])
  }

  function HexPair(high: char, low: char): Option<Byte> {
    match (HexValue(high), HexValue(low))
    case (Some(h), Some(l)) => Some(16 * h + l)
    case _ => None
  }

  function HexDecode(s: string): Option<seq<Byte>> {
    if s == "" then Some([])
    else if |s| == 1 then None
    else match (HexPair(s[0], s[1]), HexDecode(s[2..]))
      case (Some(b), Some(rest)) => Some([b] + rest)
      case _ => None
  }

  lemma HexPairOfByte(b: Byte)
    ensures HexPair(HEX_DIGITS[b / 16], HEX_DIGITS[b % 16]) == Some(b)
    ensures HEX_DIGITS[b / 16] != ':' && HEX_DIGITS[b % 16] != ':'
  {
    HexValueOfDigit(b / 16);
    HexValueOfDigit(b % 16);
  }

  /** Encoding is undone by decoding, and writes no colon. */
  lemma {:induction false} HexRoundTrip(bytes: seq<Byte>)
    ensures HexDecode(HexEncode(bytes)) == Some(bytes)
    ensures |HexEncode(bytes)| == 2 * |bytes|
    ensures ':' !in HexEncode(bytes)
  {
    if bytes != [] {
      HexRoundTrip(bytes[1..]);
      HexPairOfByte(bytes[0]);
      var s := HexEncode(bytes);
      assert s[2..] == HexEncode(bytes[1..]);
      assert [bytes[0]] + bytes[1..] == bytes;
      hide HexPair;
    }
  }

  /** Pairs of hexadecimal digits, in either case. */
  predicate IsHex(s: string) {
    |s| % 2 == 0 && forall i :: 0 <= i < |s| ==> s[i] in "0123456789abcdefABCDEF"
  }

  lemma DigitsHaveValues(c: char)
    ensures HexValue(c).Some? <==> c in "0123456789abcdefABCDEF"
  {
    assert forall d: char :: d in "0123456789abcdefABCDEF" <==> '0' <= d <= '9' || 'a' <= d <= 'f' || 'A' <= d <= 'F';
  }

  /** Exactly pairs of digits are decoded, each to one byte. */
  lemma {:induction false} HexDecodesExactly(s: string)
    ensures HexDecode(s).Some? <==> IsHex(s)
    ensures HexDecode(s).Some? ==> |s| == 2 * |HexDecode(s).value|
  {
    if |s| >= 2 {
      HexDecodesExactly(s[2..]);
      TwoDigits(s[0], s[1], s[2..]);
      assert s == [s[0], s[1]] + s[2..];
      hide HexPair, IsHex;
    }
  }

  lemma TwoDigits(high: char, low: char, rest: string)
    ensures IsHex([high, low] + rest) <==> HexPair(high, low).Some? && IsHex(rest)
  {
    var s := [high, low] + rest;
    DigitsHaveValues(high);
    DigitsHaveValues(low);
    assert forall i :: 0 <= i < |rest| ==> rest[i] == s[i + 2];
    hide HexValue;
    if IsHex(s) {
      assert s[0] in "0123456789abcdefABCDEF" && s[1] in "0123456789abcdefABCDEF";
    }
  }

  /** Decoding into a buffer of a fixed size: what is not written stays zero. */
  function DecodePadded(s: string, size: nat): Option<seq<Byte>> {
    match HexDecode(s)
    case None => None
    case Some(bytes) =>
      if |bytes| > size then None else Some(bytes + seq(size - |bytes|, _ => 0))
  }

  /** What is decoded of the whole is what is decoded so far and what is decoded of the rest. */
  predicate Agrees(whole: Option<seq<Byte>>, front: seq<Byte>, back: Option<seq<Byte>>) {
    && whole.Some? == back.Some?
    && (whole.Some? ==> whole.value == front + back.value)
  }

  lemma AgreesStep(text: string, i: nat, front: seq<Byte>)
    requires 2 * i + 1 < |text| && Agrees(HexDecode(text), front, HexDecode(text[2 * i..]))
    ensures var pair := HexPair(text[2 * i], text[2 * i + 1]);
      if pair.None? then HexDecode(text).None?
      else
        && Agrees(HexDecode(text), front + [pair.value], HexDecode(text[2 * (i + 1)..]))
        && (HexDecode(text).Some? ==> |HexDecode(text).value| > |front|)
  {
    assert text[2 * i..][2..] == text[2 * (i + 1)..];
    hide HexPair;
  }

  method HexDecodeBytes(text: string, noBytes: nat) returns (dn: array<Byte>, ok: bool)
    ensures fresh(dn) && dn.Length == noBytes
    ensures ok <==> DecodePadded(text, noBytes).Some?
    ensures ok ==> dn[..] == DecodePadded(text, noBytes).value
  {
    dn := new Byte[noBytes](_ => 0);
    var i, j := 0, 1;
    assert text[0..] == text;
    while j < |text|
      invariant j == 2 * i + 1 && 0 <= i <= noBytes && 2 * i <= |text|
      invariant forall k :: i <= k < noBytes ==> dn[k] == 0
      invariant Agrees(HexDecode(text), dn[..i], HexDecode(text[2 * i..]))
    {
      AgreesStep(text, i, dn[..i]);
      hide HexDecode, HexValue;
      var a, b := HexValue(text[j - 1]), HexValue(text[j]);
      if a.None? || b.None? || i >= noBytes {
        return dn, false;
      }
      ghost var front := dn[..i];
      dn[i] := 16 * a.value + b.value;
      assert dn[..i + 1] == front + [dn[i]];
      i, j := i + 1, j + 2;
    }
    ok := |text| % 2 == 0;
    if ok {
      assert text[2 * i..] == "";
      assert dn[..] == dn[..i] + seq(noBytes - i, _ => 0);
    }
  }

  // ---- The primitives, and what is assumed of them

  datatype Primitives = Primitives(
    seal: (seq<Byte>, seq<Byte>, string, string) -> seq<Byte>,          // key, nonce, plain text, authenticated data
    open: (seq<Byte>, seq<Byte>, seq<Byte>, string) -> Option<string>,
    base64: seq<Byte> -> string,
    unbase64: string -> Option<seq<Byte>>,
    authData: (string, string) -> seq<Byte>,                            // content type, identifier
    marshal: Content -> string,
    marshalKey: (string, string, bool) -> string,                       // key text, version, whether default
    parse: (string, string) -> Option<Content>,                         // content type, text
    layout: string -> Option<string>)                                   // a time, read and printed again

  ghost predicate Sound(p: Primitives) {
    && (forall key, nonce, text, ad :: p.open(key, nonce, p.seal(key, nonce, text, ad), ad) == Some(text))
    && (forall bytes :: p.unbase64(p.base64(bytes)) == Some(bytes))
    && (forall bytes :: ':' !in p.base64(bytes))
    && (forall kind, text :: p.parse(kind, text).Some? ==>
          var c := p.parse(kind, text).value;
          c.kind == kind && p.parse(kind, p.marshal(c)) == Some(c))
    && (forall c: Content, refs :: p.parse(c.kind, p.marshal(c)) == Some(c) ==>
          p.parse(c.kind, p.marshal(c.(references := refs))) == Some(c.(references := refs)))
    && (forall t :: p.layout(t).Some? ==> p.layout(p.layout(t).value) == p.layout(t))
  }

  // ---- Strings

  function EncryptString(p: Primitives, plainText: string, key: string, nonce: string, ad: string): Result<string> {
    match (DecodePadded(key, KEY_SIZE), DecodePadded(nonce, NONCE_SIZE))
    case (Some(k), Some(n)) =>
      if nonce == "" then Err(BadKey) else Ok(p.base64(p.seal(k, n, plainText, ad)))
    case _ => Err(BadKey)
  }

  /** Text that a key or a nonce of so many bytes can be read from. */
  predicate Fits(text: string, bytes: nat) {
    IsHex(text) && |text| <= 2 * bytes
  }

  /** What comes of sealing a text: the base64 text of what a key of 32 bytes and a nonce of 24 seal. */
  ghost predicate IsSealed(p: Primitives, plainText: string, key: string, nonce: string, ad: string, sealed: string) {
    exists k: seq<Byte>, n: seq<Byte> ::
      && |k| == 32 && IsPadded(key, k) && |n| == 24 && IsPadded(nonce, n)
      && sealed == p.base64(p.seal(k, n, plainText, ad))
  }

  /** The bytes of a hexadecimal text, and zeros after them. */
  ghost predicate IsPadded(text: string, bytes: seq<Byte>) {
    && HexDecode(text).Some? && HexDecode(text).value <= bytes
    && forall i :: |HexDecode(text).value| <= i < |bytes| ==> bytes[i] == 0
  }

  lemma EncryptsExactly(p: Primitives, plainText: string, key: string, nonce: string, ad: string)
    ensures var r := EncryptString(p, plainText, key, nonce, ad);
      && (r.Ok? <==> Fits(key, 32) && Fits(nonce, 24) && nonce != "")
      && (r.Ok? ==> IsSealed(p, plainText, key, nonce, ad, r.value))
  {
    HexDecodesExactly(key);
    HexDecodesExactly(nonce);
    hide HexDecode, IsHex;
  }

  function DecryptCipherText(p: Primitives, cipherText: string, key: string, nonce: string,
                          ad: string): Result<string>
  {
    match p.unbase64(cipherText)
    case None => Err(BadCipherText)
    case Some(bytes) =>
      match (DecodePadded(key, KEY_SIZE), DecodePadded(nonce, NONCE_SIZE))
      case (Some(k), Some(n)) =>
        (match p.open(k, n, bytes, ad)
         case None => Err(BadCipherText)
         case Some(text) => Ok(text))
      case _ => Err(BadKey)
  }

  function Format(nonce: string, cipherText: string, ad: string): string {
    "004" + ":" + (nonce + ":" + (cipherText + ":" + ad))
  }

  datatype Fields = Fields(version: string, nonce: string, cipherText: string, ad: string)

  /** With fewer than four fields the program panics; further ones are dropped. */
  function SplitContent(text: string): Option<Fields> {
    var parts := Split(text, ':');
    if |parts| < 4 then None else Some(Fields(parts[0], parts[1], parts[2], parts[3]))
  }

  /** The fields come back exactly when none of them contains a colon. */
  lemma SplitUndoesFormat(nonce: string, cipherText: string, ad: string)
    ensures SplitContent(Format(nonce, cipherText, ad)) == Some(Fields("004", nonce, cipherText, ad))
      <==> ':' !in nonce && ':' !in cipherText && ':' !in ad
  {
    var inner := nonce + ":" + (cipherText + ":" + ad);
    SplitFirst("004", ':', inner);
    if ':' !in nonce && ':' !in cipherText && ':' !in ad {
      SplitFirst(nonce, ':', cipherText + ":" + ad);
      SplitFirst(cipherText, ':', ad);
      SplitWhole(ad, ':');
    } else {
      SplitParts(Format(nonce, cipherText, ad), ':');
    }
  }

  // ---- Items

  // The random bytes one encryption draws: an item key of 64 bytes, of whose hexadecimal
  // text a part is used, and two nonces.
  datatype RawDraw = Draw(itemKey: seq<Byte>, nonce: seq<Byte>, keyNonce: seq<Byte>)

  const ZERO_DRAW := Draw(seq(64, _ => 0), seq(NONCE_SIZE, _ => 0), seq(NONCE_SIZE, _ => 0))

  type Draw = d: RawDraw | |d.itemKey| == 64 && |d.nonce| == |d.keyNonce| == NONCE_SIZE witness ZERO_DRAW

  function GenerateItemKey(draw: Draw, chars: nat): (key: string)
    requires chars <= 128
    ensures |key| == chars
  {
    HexRoundTrip(draw.itemKey);
    HexEncode(draw.itemKey)[..chars]
  }

  /** Seals a text under an item key and the item key under another key. */
  function SealBoth(p: Primitives, text: string, itemKey: string, key: string,
                    nonce: seq<Byte>, keyNonce: seq<Byte>, ad: string): Result<(string, string)>
  {
    var n, kn := HexEncode(nonce), HexEncode(keyNonce);
    match (EncryptString(p, text, itemKey, n, ad), EncryptString(p, itemKey, key, kn, ad))
    case (Ok(content), Ok(encItemKey)) => Ok((Format(n, content, ad), Format(kn, encItemKey, ad)))
    case _ => Err(BadKey)
  }

  function AuthText(p: Primitives, contentType: string, uuid: string): string {
    p.base64(p.authData(contentType, uuid))
  }

  function EncryptItem(p: Primitives, item: Item, key: SessionItemsKey, draw: Draw): Result<EncryptedItem> {
    if key.uuid == "" then Err(NoItemsKeyUuid)
    else
      match SealBoth(p, p.marshal(item.content), GenerateItemKey(draw, 64), key.itemsKey,
                     draw.nonce, draw.nonce, AuthText(p, item.contentType, item.uuid))
      case Err(fault) => Err(fault)
      case Ok((content, encItemKey)) =>
        Ok(EncryptedItem(item.uuid, key.uuid, content, item.contentType, encItemKey,
                         item.createdAt, item.updatedAt, None,
                         item.createdAtTimestamp, item.updatedAtTimestamp, item.deleted))
  }

  /** An items key is sealed under the master key; it names no items key itself. */
  function EncryptItemsKey(p: Primitives, key: SessionItemsKey, masterKey: string, isNew: bool,
                          draw: Draw): Result<EncryptedItem>
  {
    if key.createdAtTimestamp == 0 then Err(BadTime)
    else if key.itemsKey == "" then Err(EmptyPlainKey)
    else
      match SealBoth(p, p.marshalKey(key.itemsKey, key.version, key.isDefault), GenerateItemKey(draw, 64), masterKey,
                     draw.nonce, draw.keyNonce, AuthText(p, ITEMS_KEY, key.uuid))
      case Err(fault) => Err(fault)
      case Ok((content, encItemKey)) =>
        if key.uuid == "" then Err(NoItemsKeyUuid)
        else Ok(EncryptedItem(key.uuid, "", content, ITEMS_KEY, encItemKey, key.createdAt,
                              if isNew then "" else key.updatedAt, None, key.createdAtTimestamp,
                              if isNew then 0 else key.updatedAtTimestamp, key.deleted))
  }

  datatype DecryptedItem = DecryptedItem(
    uuid: string, itemsKeyId: string, content: string, contentType: string, duplicateOf: string,
    createdAt: string, updatedAt: string, createdAtTimestamp: int, updatedAtTimestamp: int, deleted: bool)

  function EncryptDecrypted(p: Primitives, item: DecryptedItem, key: SessionItemsKey,
                          draw: Draw): Result<EncryptedItem>
  {
    if key.uuid == "" then Err(NoItemsKeyUuid)
    else
      match SealBoth(p, item.content, GenerateItemKey(draw, 32), key.itemsKey,
                     draw.nonce, draw.keyNonce, AuthText(p, item.contentType, item.uuid))
      case Err(fault) => Err(fault)
      case Ok((content, encItemKey)) =>
        Ok(EncryptedItem(item.uuid, key.uuid, content, item.contentType, encItemKey,
                         item.createdAt, item.updatedAt, None,
                         item.createdAtTimestamp, item.updatedAtTimestamp, item.deleted))
  }

  function DecryptItemOnly(p: Primitives, e: EncryptedItem, key: string): Result<string> {
    match SplitContent(e.encItemKey)
    case None => Err(BadEnvelope)
    case Some(outer) =>
      match DecryptCipherText(p, outer.cipherText, key, outer.nonce, outer.ad)
      case Err(fault) => Err(fault)
      case Ok(itemKey) =>
        match SplitContent(e.content)
        case None => Err(BadEnvelope)
        case Some(inner) => DecryptCipherText(p, inner.cipherText, itemKey, inner.nonce, inner.ad)
  }

  /** The key an item is decrypted with: a given key, the master key, or one of the session. */
  function KeyFor(e: EncryptedItem, masterKey: string, sessionKeys: seq<SessionItemsKey>,
                  given: seq<SessionItemsKey>): Result<string>
  {
    if KeyText(e.itemsKeyId, given) != "" then Ok(KeyText(e.itemsKeyId, given))
    else if e.contentType == ITEMS_KEY then Ok(masterKey)
    else if e.itemsKeyId == "" then Err(NoItemsKeyId)
    else if KeyText(e.itemsKeyId, sessionKeys) == "" then Err(NoItemsKey)
    else Ok(KeyText(e.itemsKeyId, sessionKeys))
  }

  function DecryptItem(p: Primitives, e: EncryptedItem, masterKey: string, sessionKeys: seq<SessionItemsKey>,
                       given: seq<SessionItemsKey>): Result<DecryptedItem>
  {
    if e.deleted then Err(ItemIsDeleted)
    else
      match KeyFor(e, masterKey, sessionKeys, given)
      case Err(fault) => Err(fault)
      case Ok(key) =>
        match DecryptItemOnly(p, e, key)
        case Err(fault) => Err(fault)
        case Ok(content) =>
          Ok(DecryptedItem(e.uuid, e.itemsKeyId, content, e.contentType,
                           if e.duplicateOf.Some? then e.duplicateOf.value else "",
                           e.createdAt, e.updatedAt, e.createdAtTimestamp, e.updatedAtTimestamp, e.deleted))
  }

  function ReEncryptItem(p: Primitives, e: EncryptedItem, masterKey: string, sessionKeys: seq<SessionItemsKey>,
                         oldKey: SessionItemsKey, newKey: SessionItemsKey, draw: Draw): Result<EncryptedItem>
  {
    match DecryptItem(p, e, masterKey, sessionKeys, [oldKey])
    case Err(fault) => Err(fault)
    case Ok(item) => EncryptDecrypted(p, item, newKey, draw)
  }

  function ParseItem(p: Primitives, d: DecryptedItem): Result<Item> {
    if d.contentType == ITEMS_KEY then Err(ItemsKeyIsNoItem)
    else
      match (p.layout(d.createdAt), p.layout(d.updatedAt), p.parse(d.contentType, d.content))
      case (Some(createdAt), Some(updatedAt), Some(content)) =>
        Ok(Item(d.uuid, d.itemsKeyId, d.contentType, content, createdAt, updatedAt, d.duplicateOf,
                d.createdAtTimestamp, d.updatedAtTimestamp, d.deleted))
      case (None, _, _) => Err(BadTime)
      case (_, None, _) => Err(BadTime)
      case _ => Err(BadContent)
  }

  // ---- Round trips

  lemma StringRoundTrip(p: Primitives, plainText: string, key: string, nonce: string, ad: string)
    requires Sound(p) && EncryptString(p, plainText, key, nonce, ad).Ok?
    ensures var c := EncryptString(p, plainText, key, nonce, ad).value;
      DecryptCipherText(p, c, key, nonce, ad) == Ok(plainText) && ':' !in c
  {
  }

  /** Both layers open again under the key that sealed the outer one. */
  lemma SealBothOpens(p: Primitives, e: EncryptedItem, text: string, itemKey: string, key: string,
                      nonce: seq<Byte>, keyNonce: seq<Byte>, ad: string)
    requires Sound(p) && ':' !in ad
    requires SealBoth(p, text, itemKey, key, nonce, keyNonce, ad) == Ok((e.content, e.encItemKey))
    ensures DecryptItemOnly(p, e, key) == Ok(text)
  {
    var n, kn := HexEncode(nonce), HexEncode(keyNonce);
    HexRoundTrip(nonce);
    HexRoundTrip(keyNonce);
    StringRoundTrip(p, text, itemKey, n, ad);
    StringRoundTrip(p, itemKey, key, kn, ad);
    hide EncryptString, DecryptCipherText, Format, SplitContent, HexEncode;
    SplitUndoesFormat(n, EncryptString(p, text, itemKey, n, ad).value, ad);
    SplitUndoesFormat(kn, EncryptString(p, itemKey, key, kn, ad).value, ad);
  }

  /** A text is taken apart exactly when it has three colons or more. */
  lemma TakenApartExactly(text: string)
    ensures SplitContent(text).Some? <==> Count(text, ':') >= 3
  {
    SplitCount(text, ':');
  }

  // ---- When encryption succeeds, and what it writes

  lemma RandomFits(draw: Draw, chars: nat)
    requires chars in {32, 64}
    ensures Fits(GenerateItemKey(draw, chars), 32)
    ensures Fits(HexEncode(draw.nonce), 24) && HexEncode(draw.nonce) != ""
    ensures Fits(HexEncode(draw.keyNonce), 24) && HexEncode(draw.keyNonce) != ""
  {
    HexRoundTrip(draw.itemKey);
    HexRoundTrip(draw.nonce);
    HexRoundTrip(draw.keyNonce);
    HexDecodesExactly(HexEncode(draw.itemKey));
    HexDecodesExactly(HexEncode(draw.nonce));
    HexDecodesExactly(HexEncode(draw.keyNonce));
    hide HexEncode, HexDecode;
  }

  /** Sealing both layers under a random item key fails only for an outer key that does not fit 32 bytes. */
  lemma SealsExactly(p: Primitives, text: string, draw: Draw, chars: nat, key: string,
                     nonce: seq<Byte>, keyNonce: seq<Byte>, ad: string)
    requires chars in {32, 64} && nonce in {draw.nonce, draw.keyNonce} && keyNonce in {draw.nonce, draw.keyNonce}
    ensures SealBoth(p, text, GenerateItemKey(draw, chars), key, nonce, keyNonce, ad).Ok? <==> Fits(key, 32)
  {
    var itemKey := GenerateItemKey(draw, chars);
    RandomFits(draw, chars);
    EncryptsExactly(p, text, itemKey, HexEncode(nonce), ad);
    EncryptsExactly(p, itemKey, key, HexEncode(keyNonce), ad);
    hide EncryptString, GenerateItemKey, HexEncode, Format, IsHex, IsSealed;
  }

  /** An item can be encrypted exactly under a key that has an identifier and a text that fits 32 bytes. */
  lemma EncryptItemSucceeds(p: Primitives, item: Item, key: SessionItemsKey, draw: Draw)
    ensures EncryptItem(p, item, key, draw).Ok? <==>
      key.uuid != "" && IsHex(key.itemsKey) && |key.itemsKey| <= 64
  {
    SealsExactly(p, p.marshal(item.content), draw, 64, key.itemsKey, draw.nonce, draw.nonce,
                 AuthText(p, item.contentType, item.uuid));
    hide SealBoth, GenerateItemKey, IsHex;
  }

  lemma EncryptDecryptedSucceeds(p: Primitives, item: DecryptedItem, key: SessionItemsKey, draw: Draw)
    ensures EncryptDecrypted(p, item, key, draw).Ok? <==>
      key.uuid != "" && IsHex(key.itemsKey) && |key.itemsKey| <= 64
  {
    SealsExactly(p, item.content, draw, 32, key.itemsKey, draw.nonce, draw.keyNonce,
                 AuthText(p, item.contentType, item.uuid));
    hide SealBoth, GenerateItemKey, IsHex;
  }

  lemma EncryptItemsKeySucceeds(p: Primitives, key: SessionItemsKey, masterKey: string, isNew: bool, draw: Draw)
    ensures EncryptItemsKey(p, key, masterKey, isNew, draw).Ok? <==>
      && key.uuid != "" && key.itemsKey != "" && key.createdAtTimestamp != 0
      && IsHex(masterKey) && |masterKey| <= 64
  {
    SealsExactly(p, p.marshalKey(key.itemsKey, key.version, key.isDefault), draw, 64, masterKey,
                 draw.nonce, draw.keyNonce, AuthText(p, ITEMS_KEY, key.uuid));
    hide SealBoth, GenerateItemKey, IsHex;
  }

  /** One layer as it is written: version 004, the nonce, what was sealed, and what authenticates it. */
  ghost predicate IsLayer(p: Primitives, layer: string, text: string, key: string, nonce: seq<Byte>, ad: string) {
    var fields := SplitContent(layer);
    && fields.Some? && fields.value.version == "004"
    && HexDecode(fields.value.nonce) == Some(nonce) && fields.value.ad == ad
    && IsSealed(p, text, key, fields.value.nonce, ad, fields.value.cipherText)
  }

  lemma LayersAreSealed(p: Primitives, layers: (string, string), text: string, itemKey: string, key: string,
                        nonce: seq<Byte>, keyNonce: seq<Byte>, ad: string)
    requires Sound(p) && ':' !in ad
    requires SealBoth(p, text, itemKey, key, nonce, keyNonce, ad) == Ok(layers)
    ensures IsLayer(p, layers.0, text, itemKey, nonce, ad)
    ensures IsLayer(p, layers.1, itemKey, key, keyNonce, ad)
  {
    var n, kn := HexEncode(nonce), HexEncode(keyNonce);
    HexRoundTrip(nonce);
    HexRoundTrip(keyNonce);
    EncryptsExactly(p, text, itemKey, n, ad);
    EncryptsExactly(p, itemKey, key, kn, ad);
    StringRoundTrip(p, text, itemKey, n, ad);
    StringRoundTrip(p, itemKey, key, kn, ad);
    hide EncryptString, DecryptCipherText, Format, SplitContent, HexEncode, HexDecode, IsSealed, Fits;
    SplitUndoesFormat(n, EncryptString(p, text, itemKey, n, ad).value, ad);
    SplitUndoesFormat(kn, EncryptString(p, itemKey, key, kn, ad).value, ad);
  }

  /** The start of the encoded text is the encoding of the start. */
  lemma {:induction false} HalfEncoded(bytes: seq<Byte>, n: nat)
    requires n <= |bytes|
    ensures 2 * n <= |HexEncode(bytes)| && HexEncode(bytes)[..2 * n] == HexEncode(bytes[..n])
  {
    if n > 0 {
      HalfEncoded(bytes[1..], n - 1);
      assert bytes[..n][1..] == bytes[1..][..n - 1];
    }
  }

  /**
   The content is sealed under 32 random bytes and these under the items key, and both layers are
   authenticated with the type and the identifier of the item; they share one nonce.
   */
  lemma ItemLayers(p: Primitives, item: Item, key: SessionItemsKey, draw: Draw)
    requires Sound(p) && EncryptItem(p, item, key, draw).Ok?
    ensures var e := EncryptItem(p, item, key, draw).value;
      var itemKey, ad := HexEncode(draw.itemKey[..32]), p.base64(p.authData(item.contentType, item.uuid));
      && IsLayer(p, e.content, p.marshal(item.content), itemKey, draw.nonce, ad)
      && IsLayer(p, e.encItemKey, itemKey, key.itemsKey, draw.nonce, ad)
  {
    var e := EncryptItem(p, item, key, draw).value;
    HalfEncoded(draw.itemKey, 32);
    hide SealBoth, HexEncode, IsLayer;
    LayersAreSealed(p, (e.content, e.encItemKey), p.marshal(item.content), GenerateItemKey(draw, 64),
                    key.itemsKey, draw.nonce, draw.nonce, AuthText(p, item.contentType, item.uuid));
  }

  /** A decrypted item is sealed again under 16 random bytes, with a nonce for each layer. */
  lemma DecryptedLayers(p: Primitives, item: DecryptedItem, key: SessionItemsKey, draw: Draw)
    requires Sound(p) && EncryptDecrypted(p, item, key, draw).Ok?
    ensures var e := EncryptDecrypted(p, item, key, draw).value;
      var itemKey, ad := HexEncode(draw.itemKey[..16]), p.base64(p.authData(item.contentType, item.uuid));
      && IsLayer(p, e.content, item.content, itemKey, draw.nonce, ad)
      && IsLayer(p, e.encItemKey, itemKey, key.itemsKey, draw.keyNonce, ad)
  {
    var e := EncryptDecrypted(p, item, key, draw).value;
    HalfEncoded(draw.itemKey, 16);
    hide SealBoth, HexEncode, IsLayer;
    LayersAreSealed(p, (e.content, e.encItemKey), item.content, GenerateItemKey(draw, 32),
                    key.itemsKey, draw.nonce, draw.keyNonce, AuthText(p, item.contentType, item.uuid));
  }

  /** An items key is sealed like an item, under the master key and with a nonce for each layer. */
  lemma ItemsKeyLayers(p: Primitives, key: SessionItemsKey, masterKey: string, isNew: bool, draw: Draw)
    requires Sound(p) && EncryptItemsKey(p, key, masterKey, isNew, draw).Ok?
    ensures var e := EncryptItemsKey(p, key, masterKey, isNew, draw).value;
      var itemKey, ad := HexEncode(draw.itemKey[..32]), p.base64(p.authData("SN|ItemsKey", key.uuid));
      && IsLayer(p, e.content, p.marshalKey(key.itemsKey, key.version, key.isDefault), itemKey, draw.nonce, ad)
      && IsLayer(p, e.encItemKey, itemKey, masterKey, draw.keyNonce, ad)
  {
    var e := EncryptItemsKey(p, key, masterKey, isNew, draw).value;
    HalfEncoded(draw.itemKey, 32);
    hide SealBoth, HexEncode, IsLayer;
    LayersAreSealed(p, (e.content, e.encItemKey), p.marshalKey(key.itemsKey, key.version, key.isDefault),
                    GenerateItemKey(draw, 64), masterKey, draw.nonce, draw.keyNonce, AuthText(p, ITEMS_KEY, key.uuid));
  }

  lemma EncryptItemOpens(p: Primitives, item: Item, key: SessionItemsKey, draw: Draw)
    requires Sound(p) && EncryptItem(p, item, key, draw).Ok?
    ensures DecryptItemOnly(p, EncryptItem(p, item, key, draw).value, key.itemsKey) == Ok(p.marshal(item.content))
  {
    hide SealBoth, DecryptItemOnly, GenerateItemKey;
    SealBothOpens(p, EncryptItem(p, item, key, draw).value, p.marshal(item.content), GenerateItemKey(draw, 64),
                  key.itemsKey, draw.nonce, draw.nonce, AuthText(p, item.contentType, item.uuid));
  }

  lemma EncryptDecryptedOpens(p: Primitives, item: DecryptedItem, key: SessionItemsKey, draw: Draw)
    requires Sound(p) && EncryptDecrypted(p, item, key, draw).Ok?
    ensures DecryptItemOnly(p, EncryptDecrypted(p, item, key, draw).value, key.itemsKey) == Ok(item.content)
  {
    hide SealBoth, DecryptItemOnly, GenerateItemKey;
    SealBothOpens(p, EncryptDecrypted(p, item, key, draw).value, item.content, GenerateItemKey(draw, 32),
                  key.itemsKey, draw.nonce, draw.keyNonce, AuthText(p, item.contentType, item.uuid));
  }

  /** The master key opens an encrypted items key. */
  lemma ItemsKeyRoundTrip(p: Primitives, key: SessionItemsKey, masterKey: string, isNew: bool, draw: Draw,
                          sessionKeys: seq<SessionItemsKey>)
    requires Sound(p) && EncryptItemsKey(p, key, masterKey, isNew, draw).Ok? && !key.deleted
    ensures var e := EncryptItemsKey(p, key, masterKey, isNew, draw).value;
      DecryptItem(p, e, masterKey, sessionKeys, [])
      == Ok(DecryptedItem(key.uuid, "", p.marshalKey(key.itemsKey, key.version, key.isDefault), "SN|ItemsKey", "",
                          key.createdAt, if isNew then "" else key.updatedAt,
                          key.createdAtTimestamp, if isNew then 0 else key.updatedAtTimestamp, false))
  {
    hide SealBoth, DecryptItemOnly, GenerateItemKey;
    SealBothOpens(p, EncryptItemsKey(p, key, masterKey, isNew, draw).value,
                  p.marshalKey(key.itemsKey, key.version, key.isDefault), GenerateItemKey(draw, 64), masterKey,
                  draw.nonce, draw.keyNonce, AuthText(p, ITEMS_KEY, key.uuid));
  }

  /** The key that decryption picks for an identifier is the one the item was encrypted with. */
  predicate Resolves(key: SessionItemsKey, contentType: string, sessionKeys: seq<SessionItemsKey>,
                     given: seq<SessionItemsKey>)
  {
    && key.itemsKey != ""
    && (if KeyText(key.uuid, given) != "" then KeyText(key.uuid, given) == key.itemsKey
        else contentType != ITEMS_KEY && KeyText(key.uuid, sessionKeys) == key.itemsKey)
  }

  /** Decrypting an encrypted item gives back its marshalled content and its fields. */
  lemma ItemRoundTrip(p: Primitives, item: Item, key: SessionItemsKey, draw: Draw, masterKey: string,
                      sessionKeys: seq<SessionItemsKey>, given: seq<SessionItemsKey>)
    requires Sound(p) && EncryptItem(p, item, key, draw).Ok? && !item.deleted
    requires Resolves(key, item.contentType, sessionKeys, given)
    ensures DecryptItem(p, EncryptItem(p, item, key, draw).value, masterKey, sessionKeys, given)
      == Ok(DecryptedItem(item.uuid, key.uuid, p.marshal(item.content), item.contentType, "", item.createdAt,
                          item.updatedAt, item.createdAtTimestamp, item.updatedAtTimestamp, false))
  {
    EncryptItemOpens(p, item, key, draw);
    hide SealBoth, DecryptItemOnly, GenerateItemKey;
  }

  /**
   What can be decrypted: never a deleted item; and others only if some key is given for them, they
   are items keys, for which the master key serves, or the session has the key they name.
   */
  lemma DecryptsOnlyWithKey(p: Primitives, e: EncryptedItem, masterKey: string, sessionKeys: seq<SessionItemsKey>,
                            given: seq<SessionItemsKey>)
    requires DecryptItem(p, e, masterKey, sessionKeys, given).Ok?
    ensures !e.deleted
    ensures var content := DecryptItem(p, e, masterKey, sessionKeys, given).value.content;
      if KeyText(e.itemsKeyId, given) != "" then DecryptItemOnly(p, e, KeyText(e.itemsKeyId, given)) == Ok(content)
      else if e.contentType == "SN|ItemsKey" then DecryptItemOnly(p, e, masterKey) == Ok(content)
      else e.itemsKeyId != "" && DecryptItemOnly(p, e, KeyText(e.itemsKeyId, sessionKeys)) == Ok(content)
  {
  }

  /** Exactly an item that is no items key and whose times and content can be read is parsed, with all its fields. */
  lemma ParsesExactly(p: Primitives, d: DecryptedItem)
    ensures var r := ParseItem(p, d);
      && (r.Ok? <==> d.contentType != "SN|ItemsKey" && p.layout(d.createdAt).Some? && p.layout(d.updatedAt).Some?
                     && p.parse(d.contentType, d.content).Some?)
      && (r.Ok? ==>
            && Some(r.value.createdAt) == p.layout(d.createdAt) && Some(r.value.updatedAt) == p.layout(d.updatedAt)
            && Some(r.value.content) == p.parse(d.contentType, d.content)
            && r.value.uuid == d.uuid && r.value.itemsKeyId == d.itemsKeyId && r.value.contentType == d.contentType
            && r.value.duplicateOf == d.duplicateOf && r.value.deleted == d.deleted
            && r.value.createdAtTimestamp == d.createdAtTimestamp
            && r.value.updatedAtTimestamp == d.updatedAtTimestamp)
  {
  }

  /** Re-encrypting under another key keeps the content, the identity, the type and the times. */
  lemma ReEncryptPreserves(p: Primitives, e: EncryptedItem, masterKey: string, sessionKeys: seq<SessionItemsKey>,
                           oldKey: SessionItemsKey, newKey: SessionItemsKey, draw: Draw)
    requires Sound(p) && newKey.itemsKey != ""
    requires ReEncryptItem(p, e, masterKey, sessionKeys, oldKey, newKey, draw).Ok?
    ensures var o := ReEncryptItem(p, e, masterKey, sessionKeys, oldKey, newKey, draw).value;
      var before := DecryptItem(p, e, masterKey, sessionKeys, [oldKey]);
      && before.Ok? && o.itemsKeyId == newKey.uuid
      && DecryptItem(p, o, masterKey, sessionKeys, [newKey])
         == Ok(before.value.(itemsKeyId := newKey.uuid, duplicateOf := ""))
  {
    EncryptDecryptedOpens(p, DecryptItem(p, e, masterKey, sessionKeys, [oldKey]).value, newKey, draw);
    hide SealBoth, DecryptItemOnly, GenerateItemKey;
  }

  // ---- The envelope as a cipher for the sync code

  predicate WellFormed(p: Primitives, item: Item) {
    && p.layout(item.createdAt).Some? && p.layout(item.updatedAt).Some?
    && item.content.kind == item.contentType
    && p.parse(item.contentType, p.marshal(item.content)) == Some(item.content)
  }

  function DecryptAndParse(p: Primitives, masterKey: string, e: EncryptedItem,
                          keys: seq<SessionItemsKey>): Result<Item>
  {
    match DecryptItem(p, e, masterKey, keys, [])
    case Err(fault) => Err(fault)
    case Ok(d) => ParseItem(p, d)
  }

  function EnvelopeCipher(p: Primitives, masterKey: string, draws: nat -> Draw): Cipher {
    Cipher((item: Item, key: SessionItemsKey, n: nat) => EncryptItem(p, item, key, draws(n)),
           (e: EncryptedItem, keys: seq<SessionItemsKey>) => DecryptAndParse(p, masterKey, e, keys),
           (item: Item) => WellFormed(p, item))
  }

  /** The laws that the proofs about conflicts rest on hold of the envelope. */
  lemma EnvelopeIsLawful(p: Primitives, masterKey: string, draws: nat -> Draw)
    requires Sound(p)
    ensures Lawful(EnvelopeCipher(p, masterKey, draws))
  {
    var c := EnvelopeCipher(p, masterKey, draws);
    assert EncryptKeepsFields(c) by {
      EncryptionKeepsFields(p);
      hide EncryptItem;
    }
    assert DecryptKeepsFields(c) by {
      hide DecryptItemOnly;
    }
    assert IgnoresStamp(c) by {
      StampIsNotSealed(p, masterKey);
    }
    assert FormIsStable(c);
    forall item, key, n, keys |
      && c.encrypt(item, key, n).Ok? && !item.deleted && item.contentType != ITEMS_KEY
      && item.content.kind == item.contentType && c.wellFormed(item)
      && key.itemsKey != "" && KeyText(key.uuid, keys) == key.itemsKey
      ensures var e := c.encrypt(item, key, n).value;
        c.decrypt(e, keys).Ok? && c.decrypt(e, keys).value.content == item.content
    {
      ItemRoundTrip(p, item, key, draws(n), masterKey, keys, []);
    }
  }

  /** Under this cipher everything can be encrypted exactly if the key has an identifier and fits 32 bytes. */
  lemma EnvelopeEncrypts(p: Primitives, masterKey: string, draws: nat -> Draw, key: SessionItemsKey)
    ensures (forall item, n :: EnvelopeCipher(p, masterKey, draws).encrypt(item, key, n).Ok?) <==>
      key.uuid != "" && IsHex(key.itemsKey) && |key.itemsKey| <= 64
  {
    hide EncryptItem, IsHex;
    var c := EnvelopeCipher(p, masterKey, draws);
    forall item, n ensures c.encrypt(item, key, n).Ok? <==>
      key.uuid != "" && IsHex(key.itemsKey) && |key.itemsKey| <= 64
    {
      EncryptItemSucceeds(p, item, key, draws(n));
    }
    var any := Item("", "", "", Content("", "", []), "", "", "", 0, 0, false);
    assert c.encrypt(any, key, 0).Ok? <==> key.uuid != "" && IsHex(key.itemsKey) && |key.itemsKey| <= 64;
  }

  lemma EncryptionKeepsFields(p: Primitives)
    ensures forall item, key, draw :: EncryptItem(p, item, key, draw).Ok? ==>
      var e := EncryptItem(p, item, key, draw).value;
      && e.uuid == item.uuid && e.contentType == item.contentType && e.itemsKeyId == key.uuid
      && e.createdAt == item.createdAt && e.updatedAt == item.updatedAt
      && e.createdAtTimestamp == item.createdAtTimestamp && e.updatedAtTimestamp == item.updatedAtTimestamp
      && e.deleted == item.deleted && e.duplicateOf.None?
  {
  }

  lemma StampIsNotSealed(p: Primitives, masterKey: string)
    ensures forall e, keys, stamp :: DecryptAndParse(p, masterKey, e, keys).Ok? ==>
      var e' := e.(updatedAtTimestamp := stamp);
      && DecryptAndParse(p, masterKey, e', keys).Ok?
      && DecryptAndParse(p, masterKey, e', keys).value.content == DecryptAndParse(p, masterKey, e, keys).value.content
  {
    forall e: EncryptedItem, key, stamp
      ensures DecryptItemOnly(p, e.(updatedAtTimestamp := stamp), key) == DecryptItemOnly(p, e, key)
    {
    }
    hide DecryptItemOnly;
  }
}
