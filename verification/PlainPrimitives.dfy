/**
 Primitives that meet every assumption of the envelope, so that its theorems are not empty:
 sealing only spells a text in bytes, and hexadecimal text stands in for base64 and JSON.
 */
module PlainPrimitives {
  import opened Prelude
  import opened Text
  import opened Vault
  import opened Envelope

  // ---- Text as bytes, three for each character

  function BytesOf(s: string): seq<Byte> {
    if s == "" then []
    else
      var c := s[0] as int;
      [c / 65536, c / 256 % 256, c % 256] + BytesOf(s[1..])
  }

  function CharOf(high: Byte, middle: Byte, low: Byte): Option<char> {
    var c := 65536 * high + 256 * middle + low;
    if c < 0xD800 || 0xE000 <= c < 0x11_0000 then Some(c as char) else None
  }

  function TextOf(bytes: seq<Byte>): Option<string> {
    if bytes == [] then Some("")
    else if |bytes| < 3 then None
    else
      match (CharOf(bytes[0], bytes[1], bytes[2]), TextOf(bytes[3..]))
      case (Some(c), Some(rest)) => Some([c] + rest)
      case _ => None
  }

  lemma CharOfBytes(c: char)
    ensures var n := c as int; 0 <= n / 65536 < 256 && CharOf(n / 65536, n / 256 % 256, n % 256) == Some(c)
  {
    var n := c as int;
    assert n == 65536 * (n / 65536) + 256 * (n / 256 % 256) + n % 256;
  }

  lemma {:induction false} TextOfBytes(s: string)
    ensures TextOf(BytesOf(s)) == Some(s)
  {
    if s != "" {
      CharOfBytes(s[0]);
      TextOfBytes(s[1..]);
      assert BytesOf(s)[3..] == BytesOf(s[1..]);
      assert [s[0]] + s[1..] == s;
    }
  }

  // ---- Content as fields of hexadecimal text

  function Quoted(s: string): string {
    HexEncode(BytesOf(s))
  }

  function Unquoted(field: string): Option<string> {
    match HexDecode(field)
    case None => None
    case Some(bytes) => TextOf(bytes)
  }

  lemma QuotedBack(s: string)
    ensures Unquoted(Quoted(s)) == Some(s) && ':' !in Quoted(s)
  {
    HexRoundTrip(BytesOf(s));
    TextOfBytes(s);
  }

  function ReferenceFields(refs: seq<Reference>): seq<string> {
    if refs == [] then []
    else [Quoted(refs[0].uuid), Quoted(refs[0].contentType), Quoted(refs[0].referenceType)] + ReferenceFields(refs[1..])
  }

  function ReferencesOf(fields: seq<string>): Option<seq<Reference>> {
    if fields == [] then Some([])
    else if |fields| < 3 then None
    else
      match (Unquoted(fields[0]), Unquoted(fields[1]), Unquoted(fields[2]), ReferencesOf(fields[3..]))
      case (Some(uuid), Some(contentType), Some(referenceType), Some(rest)) =>
        Some([Reference(uuid, contentType, referenceType)] + rest)
      case _ => None
  }

  lemma {:induction false} ReferencesBack(refs: seq<Reference>)
    ensures ReferencesOf(ReferenceFields(refs)) == Some(refs)
  {
    if refs != [] {
      var r := refs[0];
      QuotedBack(r.uuid);
      QuotedBack(r.contentType);
      QuotedBack(r.referenceType);
      ReferencesBack(refs[1..]);
      assert ReferenceFields(refs)[3..] == ReferenceFields(refs[1..]);
      assert [r] + refs[1..] == refs;
    }
  }

  function Joined(fields: seq<string>): string
    requires fields != []
  {
    if |fields| == 1 then fields[0] else fields[0] + [':'] + Joined(fields[1..])
  }

  lemma {:induction false} SplitJoined(fields: seq<string>)
    requires fields != [] && forall i :: 0 <= i < |fields| ==> ':' !in fields[i]
    ensures Split(Joined(fields), ':') == fields
  {
    if |fields| == 1 {
      SplitWhole(fields[0], ':');
    } else {
      SplitFirst(fields[0], ':', Joined(fields[1..]));
      SplitJoined(fields[1..]);
      assert [fields[0]] + fields[1..] == fields;
    }
  }

  function Fields(c: Content): seq<string> {
    [Quoted(c.kind), Quoted(c.body)] + ReferenceFields(c.references)
  }

  lemma {:induction false} ReferenceFieldsPlain(refs: seq<Reference>)
    ensures forall i :: 0 <= i < |ReferenceFields(refs)| ==> ':' !in ReferenceFields(refs)[i]
  {
    if refs != [] {
      QuotedBack(refs[0].uuid);
      QuotedBack(refs[0].contentType);
      QuotedBack(refs[0].referenceType);
      ReferenceFieldsPlain(refs[1..]);
    }
  }

  function Parsed(kind: string, text: string): Option<Content> {
    var fields := Split(text, ':');
    if |fields| < 2 then None
    else
      match (Unquoted(fields[0]), Unquoted(fields[1]), ReferencesOf(fields[2..]))
      case (Some(k), Some(body), Some(refs)) => if k == kind then Some(Content(kind, body, refs)) else None
      case _ => None
  }

  lemma ParsedBack(c: Content)
    ensures Parsed(c.kind, Joined(Fields(c))) == Some(c)
  {
    QuotedBack(c.kind);
    QuotedBack(c.body);
    ReferencesBack(c.references);
    ReferenceFieldsPlain(c.references);
    SplitJoined(Fields(c));
    assert Fields(c)[2..] == ReferenceFields(c.references);
  }

  // ---- The primitives

  const PLAIN := Primitives(
    (key: seq<Byte>, nonce: seq<Byte>, text: string, ad: string) => BytesOf(text),
    (key: seq<Byte>, nonce: seq<Byte>, bytes: seq<Byte>, ad: string) => TextOf(bytes),
    HexEncode, HexDecode,
    (contentType: string, uuid: string) => BytesOf(contentType + uuid),
    (c: Content) => Joined(Fields(c)),
    (key: string, version: string, isDefault: bool) => key + version,
    Parsed,
    (t: string) => Some(t))

  /** They are sound, and every content can be parsed back. */
  lemma PlainIsSound()
    ensures Sound(PLAIN)
    ensures forall c: Content :: PLAIN.parse(c.kind, PLAIN.marshal(c)) == Some(c)
  {
    forall text ensures TextOf(BytesOf(text)) == Some(text) {
      TextOfBytes(text);
    }
    forall bytes ensures HexDecode(HexEncode(bytes)) == Some(bytes) && ':' !in HexEncode(bytes) {
      HexRoundTrip(bytes);
    }
    forall c: Content ensures Parsed(c.kind, Joined(Fields(c))) == Some(c) {
      ParsedBack(c);
    }
  }
}
