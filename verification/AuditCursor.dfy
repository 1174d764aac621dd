/** The opaque cursor of the batch audit: a compact JSON object in URL-safe Base64. */
module AuditCursor {
  import opened Wrappers
  import opened Timestamps
  import Base64

  datatype Cursor = Cursor(createdAt: Timestamp, documentId: string)

  datatype CursorError = TooLarge | NotBase64 | NotPayload | BadTimestamp | NotTimezoneAware | BadDocumentId

  const MAX_CURSOR_SIZE := 2048
  const CREATED_AT := "{\"created_at\":\""
  const ID := "\",\"id\":\""
  const END := "\"}"

  // ----- document ids -----

  predicate IsHex(c: char) {
    '0' <= c <= '9' || 'a' <= c <= 'f' || 'A' <= c <= 'F'
  }

  /** The canonical 8-4-4-4-12 form in which `str(uuid4())` is stored. */
  predicate IsUuid(s: string) {
    |s| == 36 && forall i :: 0 <= i < 36 ==> if i in {8, 13, 18, 23} then s[i] == '-' else IsHex(s[i])
  }

  // ----- the payload -----

  function Payload(createdAt: Timestamp, documentId: string): string {
    CREATED_AT + (IsoFormat(createdAt) + (ID + (documentId + END)))
  }

  function Skip(s: string, prefix: string): Option<string> {
    if prefix <= s then Some(s[|prefix|..]) else None
  }

  /** A JSON string's characters up to its closing quote, which is left unread. */
  function StringLength(s: string): (n: nat)
    ensures n <= |s| && Plain(s[..n])
  {
    if s == "" || !Plain(s[..1]) then 0
    else
      var n := 1 + StringLength(s[1..]);
      assert s[..n] == s[..1] + s[1..][..n - 1];
      n
  }

  /** The two fields of a payload in the encoder's layout. */
  function ParsePayload(s: string): Option<(string, string)> {
    match Skip(s, CREATED_AT)
    case None => None
    case Some(afterKey) =>
      var n := StringLength(afterKey);
      match Skip(afterKey[n..], ID)
      case None => None
      case Some(afterId) =>
        var m := StringLength(afterId);
        if afterId[m..] == END then Some((afterKey[..n], afterId[..m])) else None
  }

  lemma SkipPrefix(prefix: string, rest: string)
    ensures Skip(prefix + rest, prefix) == Some(rest)
  {
  }

  lemma {:induction false} StringEnds(text: string, rest: string)
    requires Plain(text) && rest != "" && rest[0] == '"'
    ensures StringLength(text + rest) == |text|
  {
    var s := text + rest;
    if text == "" {
      assert s[..1][0] == '"';
    } else {
      StringEnds(text[1..], rest);
      assert s[1..] == text[1..] + rest;
      assert s[..1] == [text[0]];
    }
  }

  lemma PayloadParses(createdAt: Timestamp, documentId: string)
    requires Plain(documentId)
    ensures ParsePayload(Payload(createdAt, documentId)) == Some((IsoFormat(createdAt), documentId))
  {
    var iso := IsoFormat(createdAt);
    IsoIsPlain(createdAt);
    var afterIso := ID + (documentId + END);
    SkipPrefix(CREATED_AT, iso + afterIso);
    StringEnds(iso, afterIso);
    assert (iso + afterIso)[..|iso|] == iso && (iso + afterIso)[|iso|..] == afterIso;
    SkipPrefix(ID, documentId + END);
    StringEnds(documentId, END);
    assert (documentId + END)[..|documentId|] == documentId && (documentId + END)[|documentId|..] == END;
  }

  lemma UuidIsPlain(s: string)
    requires IsUuid(s)
    ensures Plain(s)
  {
    forall i | 0 <= i < |s| ensures ' ' <= s[i] <= '~' && s[i] != '"' && s[i] != '\\' {
      assert i in {8, 13, 18, 23} || IsHex(s[i]);
    }
  }

  // ----- ASCII -----

  predicate Ascii(s: string) {
    forall i :: 0 <= i < |s| ==> s[i] as int < 128
  }

  function ToBytes(s: string): seq<Base64.Byte>
    requires Ascii(s)
  {
    seq(|s|, i requires 0 <= i < |s| => Base64.ByteOf(s[i] as int))
  }

  function FromBytes(bytes: seq<Base64.Byte>): string {
    seq(|bytes|, i requires 0 <= i < |bytes| => Base64.ByteValue(bytes[i]) as char)
  }

  lemma BytesRoundTrip(s: string)
    requires Ascii(s)
    ensures FromBytes(ToBytes(s)) == s
  {
    forall i | 0 <= i < |s| ensures FromBytes(ToBytes(s))[i] == s[i] {
      Base64.ByteValueInverts(s[i] as int);
    }
  }

  // ----- the cursor -----

  lemma PayloadIsAscii(createdAt: Timestamp, documentId: string)
    requires IsUuid(documentId)
    ensures Ascii(Payload(createdAt, documentId)) && |Payload(createdAt, documentId)| <= 110
  {
    IsoIsPlain(createdAt);
    UuidIsPlain(documentId);
    assert Ascii(IsoFormat(createdAt)) && Ascii(documentId);
    assert Ascii(CREATED_AT) && Ascii(ID) && Ascii(END);
  }

  function Encode(createdAt: Timestamp, documentId: string): string
    requires IsUuid(documentId)
  {
    PayloadIsAscii(createdAt, documentId);
    Base64.Encode(ToBytes(Payload(createdAt, documentId)))
  }

  /** Anything accepted is small enough and holds a valid aware timestamp and a document id. */
  function Decode(cursor: string): (r: Result<Cursor, CursorError>)
    ensures r.Ok? ==> |cursor| <= MAX_CURSOR_SIZE && Valid(r.value.createdAt) && IsUuid(r.value.documentId)
    ensures |cursor| > MAX_CURSOR_SIZE ==> r == Err(TooLarge)
  {
    if |cursor| > MAX_CURSOR_SIZE then Err(TooLarge)
    else
      match Base64.Decode(cursor)
      case None => Err(NotBase64)
      case Some(bytes) =>
        match ParsePayload(FromBytes(bytes))
        case None => Err(NotPayload)
        case Some(fields) =>
          match FromIsoFormat(fields.0)
          case Malformed => Err(BadTimestamp)
          case Naive => Err(NotTimezoneAware)
          case Aware(createdAt) => if IsUuid(fields.1) then Ok(Cursor(createdAt, fields.1)) else Err(BadDocumentId)
  }

  /** Decoding inverts encoding for every aware timestamp and document id, so distinct positions never share
      a cursor, and no cursor the service hands out is too large for it to take back. */
  lemma CursorRoundTrip(createdAt: Timestamp, documentId: string)
    requires Valid(createdAt) && IsUuid(documentId)
    ensures Decode(Encode(createdAt, documentId)) == Ok(Cursor(createdAt, documentId))
    ensures |Encode(createdAt, documentId)| <= 148
    ensures var bytes := Base64.Decode(Encode(createdAt, documentId));
            bytes.Some? && FromBytes(bytes.value) ==
              "{\"created_at\":\"" + (IsoFormat(createdAt) + ("\",\"id\":\"" + (documentId + "\"}")))
  {
    var payload := Payload(createdAt, documentId);
    PayloadIsAscii(createdAt, documentId);
    Base64.RoundTrip(ToBytes(payload));
    BytesRoundTrip(payload);
    UuidIsPlain(documentId);
    PayloadParses(createdAt, documentId);
    IsoRoundTrip(createdAt);
  }
}
