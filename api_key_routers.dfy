/**
 * The endpoints of app/api_keys/routers.py: the API-key guard, the issuance
 * endpoint's argument shaping and the usage listing. Decoding the bearer token
 * into the caller's uid is the parameter `uidOfToken`.
 */
module ApiKeyRouters {
  import opened Common
  import opened Json
  import opened ApiKeyModels

  const BearerPrefix: string := "Bearer "

  predicate StartsWith(s: string, prefix: string) {
    |prefix| <= |s| && s[..|prefix|] == prefix
  }

  /** The token of an authorization header: the header without a leading "Bearer ", else the whole header. */
  function BearerToken(authorization: string): (token: string)
    ensures StartsWith(authorization, BearerPrefix) ==> BearerPrefix + token == authorization
    ensures !StartsWith(authorization, BearerPrefix) ==> token == authorization
  {
    if StartsWith(authorization, BearerPrefix) then authorization[|BearerPrefix|..] else authorization
  }

  /** Prefixing a token with "Bearer " and stripping it again gives the token back. */
  lemma BearerTokenRoundTrip(token: string)
    ensures BearerToken(BearerPrefix + token) == token
  {
    assert (BearerPrefix + token)[..|BearerPrefix|] == BearerPrefix;
  }

  /** The two ways the guard rejects a request; both are 403. */
  datatype GuardError = MissingApiKey | WrongRevokedOrExpired {
    function StatusCode(): int {
      403
    }

    function Detail(): string {
      match this
      case MissingApiKey => "An API key must be passed as query or header"
      case WrongRevokedOrExpired => "Wrong, revoked, or expired API key."
    }
  }

  /** A query or header credential counts as passed when it is present and non-empty. */
  predicate Passed(credential: Option<string>) {
    credential.Some? && credential.value != ""
  }

  /** `query_param or header_param`: the query credential when passed, the header credential otherwise. */
  function PresentedKey(query: Option<string>, header: Option<string>): (key: string)
    requires Passed(query) || Passed(header)
    ensures key != ""
    ensures Passed(query) ==> key == query.value
    ensures !Passed(query) ==> key == header.value
  {
    if Passed(query) then query.value else header.value
  }

  /**
   * The guard's answer for a snapshot of the table: missing credential, the
   * validation dictionary unchanged, or one uniform rejection for an unknown,
   * revoked or expired key.
   */
  function GuardDecision(rows: map<Digest, ApiKey>, hash: string -> Digest,
                         query: Option<string>, header: Option<string>, now: Timestamp): (r: Result<KeyInfo, GuardError>)
    ensures r == Err(MissingApiKey) <==> !Passed(query) && !Passed(header)
    ensures Passed(query) || Passed(header) ==>
      var digest := hash(PresentedKey(query, header));
      && (r.Ok? <==> digest in rows && IsValid(rows[digest], now))
      && (r.Ok? ==> r.value == Projection(rows[digest]))
      && (r.Err? ==> r.error == WrongRevokedOrExpired)
  {
    if !Passed(query) && !Passed(header) then Err(MissingApiKey)
    else
      match Validation(rows, hash, PresentedKey(query, header), now)
      case Some(keyInfo) => Ok(keyInfo)
      case None => Err(WrongRevokedOrExpired)
  }

  /** With a query credential passed, the header credential plays no part. */
  lemma QueryCredentialWins(rows: map<Digest, ApiKey>, hash: string -> Digest, query: Option<string>,
                            header1: Option<string>, header2: Option<string>, now: Timestamp)
    requires Passed(query)
    ensures GuardDecision(rows, hash, query, header1, now) == GuardDecision(rows, hash, query, header2, now)
  {
  }

  /** Without a credential the decision does not depend on the table. */
  lemma MissingCredentialIgnoresTable(rows1: map<Digest, ApiKey>, rows2: map<Digest, ApiKey>, hash: string -> Digest,
                                      query: Option<string>, header: Option<string>, now: Timestamp)
    requires !Passed(query) && !Passed(header)
    ensures GuardDecision(rows1, hash, query, header, now) == GuardDecision(rows2, hash, query, header, now)
  {
  }

  /**
   * `api_key_security`: rejects before consulting the table when no credential
   * is passed; otherwise validates the presented key, whose successful
   * validation queues exactly one usage update.
   */
  method ApiKeySecurity(table: ApiKeyTable, query: Option<string>, header: Option<string>, now: Timestamp)
    returns (r: Result<KeyInfo, GuardError>)
    modifies table`pending
    ensures r == GuardDecision(table.rows, table.hash, query, header, now)
    ensures !Passed(query) && !Passed(header) ==> table.pending == old(table.pending)
    ensures Passed(query) || Passed(header) ==>
      table.pending == old(table.pending) + (if r.Ok? then [PresentedKey(query, header)] else [])
  {
    if !Passed(query) && !Passed(header) {
      return Err(MissingApiKey);
    }
    var keyInfo := table.CheckKey(PresentedKey(query, header), now);
    if keyInfo.Some? {
      return Ok(keyInfo.value);
    } else {
      return Err(WrongRevokedOrExpired);
    }
  }

  /** Every issued key carries exactly this role list. */
  const IssuedRoles: seq<string> := ["admin"]

  /** `config or {}`: the given configuration when it is truthy, else the empty object. */
  function ConfigOrEmpty(config: Option<JsonValue>): (c: JsonValue)
    ensures config.Some? && Truthy(config.value) ==> c == config.value
    ensures !(config.Some? && Truthy(config.value)) ==> c == EmptyObject
  {
    if config.Some? && Truthy(config.value) then config.value else EmptyObject
  }

  /** The stored configuration is never falsy unless it is `{}`. */
  lemma ConfigOrEmptyTruthyOrEmpty(config: Option<JsonValue>)
    ensures Truthy(ConfigOrEmpty(config)) || ConfigOrEmpty(config) == EmptyObject
  {
  }

  /**
   * `get_new_api_key`: issues a key for the uid in the caller's bearer token
   * with `never_expires` passed through, roles ["admin"] and `config or {}`,
   * and answers with the plaintext that `create_key` returned.
   */
  method GetNewApiKey(table: ApiKeyTable, authorization: string, uidOfToken: string -> string,
                      name: string, config: Option<JsonValue>, neverExpires: bool,
                      plaintext: string, now: Timestamp, ttlHours: int) returns (r: Result<string, CreateError>)
    requires table.Valid()
    modifies table`rows
    ensures table.Valid()
    ensures table.hash(plaintext) in old(table.rows) ==> r == Err(DuplicateApiKey) && table.rows == old(table.rows)
    ensures table.hash(plaintext) !in old(table.rows) ==>
      && r == Ok(plaintext)
      && table.rows == old(table.rows)[table.hash(plaintext) :=
           NewApiKey(table.hash(plaintext), name, uidOfToken(BearerToken(authorization)), neverExpires,
                     IssuedRoles, ConfigOrEmpty(config), now, ttlHours)]
  {
    var token := BearerToken(authorization);
    var uid := uidOfToken(token);
    r := table.CreateKey(name, uid, neverExpires, IssuedRoles, ConfigOrEmpty(config), plaintext, now, ttlHours);
  }

  /** One entry of the usage listing: every stored field except `is_active`. */
  datatype UsageLog = UsageLog(
    apiKey: Digest,
    name: string,
    userUid: string,
    neverExpire: bool,
    expirationTime: Timestamp,
    lastQueryDate: Timestamp,
    totalQueries: int,
    iamRoles: seq<string>,
    config: JsonValue)

  function ToUsageLog(k: ApiKey): UsageLog {
    UsageLog(k.apiKey, k.name, k.userUid, k.neverExpire, k.expirationTime, k.lastQueryDate, k.totalQueries, k.iamRoles, k.config)
  }

  /** A stored row that the listing's `config: dict | None` field refuses makes the whole listing fail. */
  datatype ListingError = InvalidStoredConfig {
    function StatusCode(): int {
      500
    }
  }

  /** A row of `userUid` whose configuration no usage log can hold. */
  predicate HasUnlistableRow(rows: map<Digest, ApiKey>, userUid: string) {
    exists d :: d in rows && rows[d].userUid == userUid && !IsObjectOrNull(rows[d].config)
  }

  /**
   * `get_api_key_usage_logs`: one entry per stored key of the caller, copied
   * field by field from its row, each key once, newest use first; it fails
   * when one of the caller's rows holds a configuration that is neither an
   * object nor null.
   */
  method GetApiKeyUsageLogs(table: ApiKeyTable, authorization: string, uidOfToken: string -> string)
    returns (r: Result<seq<UsageLog>, ListingError>)
    requires table.Valid()
    ensures var uid := uidOfToken(BearerToken(authorization));
      r.Err? <==> HasUnlistableRow(table.rows, uid)
    ensures r.Ok? ==> var logs, uid := r.value, uidOfToken(BearerToken(authorization));
      && |logs| == |OwnedBy(table.rows, uid)|
      && (forall i :: 0 <= i < |logs| ==>
            && logs[i].apiKey in table.rows
            && logs[i] == ToUsageLog(table.rows[logs[i].apiKey])
            && logs[i].userUid == uid)
      && (forall d :: d in table.rows && table.rows[d].userUid == uid ==> ToUsageLog(table.rows[d]) in logs)
      && (forall i, j :: 0 <= i < j < |logs| ==> logs[i].lastQueryDate >= logs[j].lastQueryDate)
  {
    var token := BearerToken(authorization);
    var uid := uidOfToken(token);
    var keys := table.GetUsageStatus(uid);
    if i :| 0 <= i < |keys| && !IsObjectOrNull(keys[i].config) {
      assert keys[i] in multiset(keys);
      OwnedByMember(table.rows, uid, keys[i]);
      return Err(InvalidStoredConfig);
    }
    forall d | d in table.rows && table.rows[d].userUid == uid
      ensures IsObjectOrNull(table.rows[d].config)
    {
      assert table.rows[d] in multiset(keys);
    }
    var logs := seq(|keys|, i requires 0 <= i < |keys| => ToUsageLog(keys[i]));
    assert |keys| == |multiset(keys)| == |multiset(OwnedBy(table.rows, uid))| == |OwnedBy(table.rows, uid)|;
    forall i | 0 <= i < |logs|
      ensures logs[i].apiKey in table.rows && logs[i] == ToUsageLog(table.rows[logs[i].apiKey]) && logs[i].userUid == uid
    {
      assert keys[i] in multiset(keys);
      OwnedByMember(table.rows, uid, keys[i]);
    }
    forall d | d in table.rows && table.rows[d].userUid == uid
      ensures ToUsageLog(table.rows[d]) in logs
    {
      assert table.rows[d] in multiset(keys);
      var i :| 0 <= i < |keys| && keys[i] == table.rows[d];
      assert logs[i] == ToUsageLog(table.rows[d]);
    }
    return Ok(logs);
  }
}
