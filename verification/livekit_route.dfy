/** The server's live-stream token endpoint: it checks the query and the
    server settings, then describes the access token it signs. Signing is
    left to the LiveKit library; the model returns what is signed. */
module LivekitRoute {
  import opened Wrappers

  /** The permissions granted in the token. */
  datatype Grant = Grant(room: string, roomJoin: bool, canPublish: bool, canSubscribe: bool, canPublishData: bool)

  /** The token's holder and lifetime. */
  datatype TokenOptions = TokenOptions(identity: string, name: string, ttl: string)

  /** The reply: a token made of these parts, or `{ error }` with its status. */
  datatype Reply = Token(options: TokenOptions, grant: Grant) | Rejected(status: int, error: string)

  const MissingParamsMessage: string := "Missing room or username"
  const MisconfiguredMessage: string := "Server misconfigured"

  /** A query parameter or setting that is missing or empty: `!value`. */
  predicate Blank(value: Option<string>) {
    value.None? || value.value == []
  }

  /** `GET /api/livekit?room=…&username=…&host=…` with the `LIVEKIT_API_KEY`
      and `LIVEKIT_API_SECRET` settings. */
  function TokenRequest(
    room: Option<string>, username: Option<string>, host: Option<string>,
    apiKey: Option<string>, apiSecret: Option<string>): (r: Reply)
    ensures Blank(room) || Blank(username) ==> r == Rejected(400, MissingParamsMessage)
    ensures !Blank(room) && !Blank(username) && (Blank(apiKey) || Blank(apiSecret)) ==>
              r == Rejected(500, MisconfiguredMessage)
    ensures r.Token? <==> !Blank(room) && !Blank(username) && !Blank(apiKey) && !Blank(apiSecret)
    ensures r.Token? ==>
              && r.options == TokenOptions(username.value, username.value, "24h")
              && r.grant.room == room.value
              && r.grant.roomJoin && r.grant.canSubscribe && r.grant.canPublishData
              && (r.grant.canPublish <==> host == Some("true"))
  {
    var isHost := host == Some("true");
    if Blank(room) || Blank(username) then Rejected(400, MissingParamsMessage)
    else if Blank(apiKey) || Blank(apiSecret) then Rejected(500, MisconfiguredMessage)
    else
      Token(TokenOptions(username.value, username.value, "24h"),
            Grant(room.value, true, isHost, true, true))
  }

  /** A host and a viewer of the same room under the same name get the same
      token but for the right to publish, which only the host has. */
  lemma HostOnlyAddsPublishing(room: string, username: string, host: Option<string>, apiKey: string, apiSecret: string)
    requires room != [] && username != [] && apiKey != [] && apiSecret != []
    requires host != Some("true")
    ensures var asHost := TokenRequest(Some(room), Some(username), Some("true"), Some(apiKey), Some(apiSecret));
            var asViewer := TokenRequest(Some(room), Some(username), host, Some(apiKey), Some(apiSecret));
            && asHost.Token? && asViewer.Token?
            && asHost.grant.canPublish && !asViewer.grant.canPublish
            && asHost == asViewer.(grant := asViewer.grant.(canPublish := true))
  {
  }

  /** The parameters are checked before the settings: a bad query is a 400
      even on a server without credentials. */
  lemma QueryCheckedFirst(room: Option<string>, username: Option<string>, host: Option<string>)
    requires Blank(room) || Blank(username)
    ensures TokenRequest(room, username, host, None, None).Rejected?
    ensures TokenRequest(room, username, host, None, None).status == 400
  {
  }

  /** Only the exact string `true` makes a host. */
  lemma OnlyExactTrueHosts(room: string, username: string, apiKey: string, apiSecret: string)
    requires room != [] && username != [] && apiKey != [] && apiSecret != []
    ensures !TokenRequest(Some(room), Some(username), Some("True"), Some(apiKey), Some(apiSecret)).grant.canPublish
    ensures !TokenRequest(Some(room), Some(username), Some("1"), Some(apiKey), Some(apiSecret)).grant.canPublish
    ensures !TokenRequest(Some(room), Some(username), None, Some(apiKey), Some(apiSecret)).grant.canPublish
  {
    assert "True" != "true";
  }
}
