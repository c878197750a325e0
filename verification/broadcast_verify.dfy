/** The server's broadcast-key check: a client key is accepted when, with
    surrounding whitespace removed, it equals the configured key. */
module BroadcastVerify {
  import opened Wrappers
  import opened Text

  /** The `key` field of the posted JSON body: absent (or `null`), a string,
      or some other JSON value. */
  datatype KeyField = Absent | Text(text: string) | NotText

  /** The JSON reply and its status code. */
  datatype Reply = Reply(status: int, valid: Option<bool>, message: string)

  const VerifiedMessage: string := "Broadcast key verified"
  const MisconfiguredMessage: string := "Server misconfigured - no broadcast key set"
  const MismatchMessage: string := "Invalid broadcast key. Please check and try again."
  const BadRequestMessage: string := "Failed to process request. Please try again."

  /** The client key, trimmed, when it is a string. */
  function NormalizedKey(key: KeyField): Option<string> {
    if key.Text? then Some(Trim(key.text)) else None
  }

  /** `POST /api/broadcast/verify`. `body` is the `key` field, or `None` when
      the body is not JSON or is JSON `null` (any other JSON value without a
      `key` gives `Some(Absent)`); `serverKey` is the `BROADCAST_KEY`
      setting. Logging the key's first three characters throws for a key that
      is not a string, before the server key is looked at. */
  function Verify(body: Option<KeyField>, serverKey: Option<string>): (r: Reply)
    ensures body.None? || body.value.NotText? ==> r == Reply(400, None, BadRequestMessage)
    ensures body.Some? && !body.value.NotText? && (serverKey.None? || serverKey.value == []) ==>
              r == Reply(500, None, MisconfiguredMessage)
    ensures r.status == 200 <==>
              && body.Some? && body.value.Text?
              && serverKey.Some? && serverKey.value != []
              && Trim(body.value.text) == Trim(serverKey.value)
    ensures r.status == 200 ==> r == Reply(200, Some(true), VerifiedMessage)
    ensures r.status == 401 <==>
              && body.Some? && !body.value.NotText?
              && serverKey.Some? && serverKey.value != []
              && NormalizedKey(body.value) != Some(Trim(serverKey.value))
    ensures r.status == 401 ==> r == Reply(401, Some(false), MismatchMessage)
  {
    match body
    case None => Reply(400, None, BadRequestMessage)
    case Some(key) =>
      if key.NotText? then Reply(400, None, BadRequestMessage)
      else if serverKey.None? || serverKey.value == [] then Reply(500, None, MisconfiguredMessage)
      else if NormalizedKey(key) == Some(Trim(serverKey.value)) then Reply(200, Some(true), VerifiedMessage)
      else Reply(401, Some(false), MismatchMessage)
  }

  /** Whitespace around either key does not change the verdict. */
  lemma PaddingIsIgnored(a: string, key: string, b: string, c: string, serverKey: string, d: string)
    requires AllWhitespace(a) && AllWhitespace(b) && AllWhitespace(c) && AllWhitespace(d)
    requires serverKey != []
    ensures Verify(Some(Text(a + key + b)), Some(c + serverKey + d)) == Verify(Some(Text(key)), Some(serverKey))
  {
    TrimIgnoresPadding(a, key, b);
    TrimIgnoresPadding(c, serverKey, d);
  }

  /** A missing or empty server key refuses every key with 500. */
  lemma UnconfiguredRefusesAll(key: string)
    ensures Verify(Some(Text(key)), None).status == 500
    ensures Verify(Some(Text(key)), Some("")).status == 500
  {
  }

  /** A body without a key is a mismatch, not a bad request. */
  lemma AbsentKeyIsMismatch(serverKey: string)
    requires serverKey != []
    ensures Verify(Some(Absent), Some(serverKey)).status == 401
  {
  }

  /** A configured key made of whitespace only trims to nothing, so a blank
      client key matches it. */
  lemma BlankServerKeyAcceptsBlank(serverKey: string, key: string)
    requires serverKey != [] && AllWhitespace(serverKey) && AllWhitespace(key)
    ensures Verify(Some(Text(key)), Some(serverKey)).status == 200
  {
    BlankIffAllWhitespace(serverKey);
    BlankIffAllWhitespace(key);
  }

  /** Trimming touches only the ends: between keys that neither start nor
      end with whitespace the comparison is exact, so case and inner
      whitespace count. */
  lemma ExactInside(key: string, serverKey: string)
    requires Unpadded(key) && Unpadded(serverKey) && serverKey != []
    ensures Verify(Some(Text(key)), Some(serverKey)).status == 200 <==> key == serverKey
  {
    TrimUnpadded(key);
    TrimUnpadded(serverKey);
    MatchIffTrimmedEqual(key, serverKey);
  }

  /** With a configured key the verdict is the comparison of the trimmed keys. */
  lemma MatchIffTrimmedEqual(key: string, serverKey: string)
    requires serverKey != []
    ensures Verify(Some(Text(key)), Some(serverKey)).status == 200 <==> Trim(key) == Trim(serverKey)
  {
  }
}
