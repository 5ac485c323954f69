/**
 * The API-key table of app/api_keys/models.py: issuance, validation, the usage
 * update handed off by a successful validation, and the per-owner listing.
 * The SHA-256 digest is the table's `hash` function, the fresh key and the clock
 * are parameters of the operations that use them.
 */
module ApiKeyModels {
  import opened Common
  import opened Json

  /** The hex digest under which a key is stored; the plaintext key itself is never stored. */
  type Digest = string

  /** An instant, in whole seconds. */
  type Timestamp = int

  const SecondsPerHour: int := 3600

  /** One row of the `api_keys` table. */
  datatype ApiKey = ApiKey(
    apiKey: Digest,
    name: string,
    userUid: string,
    isActive: bool,
    neverExpire: bool,
    expirationTime: Timestamp,
    lastQueryDate: Timestamp,
    totalQueries: int,
    iamRoles: seq<string>,
    config: JsonValue)

  /** The dictionary that a successful validation answers with. */
  datatype KeyInfo = KeyInfo(
    userUid: string,
    isActive: bool,
    iamRoles: seq<string>,
    config: JsonValue,
    lastQueryDate: Timestamp)

  /** Committing a second row with an existing digest fails. */
  datatype CreateError = DuplicateApiKey

  /** The validity predicate: active, and either never expiring or expiring strictly after `now`. */
  predicate IsValid(k: ApiKey, now: Timestamp) {
    k.isActive && (k.neverExpire || k.expirationTime > now)
  }

  /** The row a new key gets: active, unused, stamped `now`, expiring `ttlHours` hours later. */
  function NewApiKey(digest: Digest, name: string, userUid: string, neverExpire: bool,
                     iamRoles: seq<string>, config: JsonValue, now: Timestamp, ttlHours: int): (k: ApiKey)
    ensures k.apiKey == digest && k.name == name && k.userUid == userUid && k.iamRoles == iamRoles && k.config == config
    ensures k.isActive && k.neverExpire == neverExpire && k.expirationTime == now + ttlHours * SecondsPerHour
    ensures k.totalQueries == 0 && k.lastQueryDate == now
    ensures forall t :: IsValid(k, t) <==> neverExpire || t < now + ttlHours * SecondsPerHour
  {
    ApiKey(digest, name, userUid, true, neverExpire, now + ttlHours * SecondsPerHour, now, 0, iamRoles, config)
  }

  /** The fields of a row that validation reports. */
  function Projection(k: ApiKey): KeyInfo {
    KeyInfo(k.userUid, k.isActive, k.iamRoles, k.config, k.lastQueryDate)
  }

  /** What validating `apiKey` at `now` answers: the projection of the valid row stored under its digest, if any. */
  function Validation(rows: map<Digest, ApiKey>, hash: string -> Digest, apiKey: string, now: Timestamp): Option<KeyInfo> {
    if hash(apiKey) in rows && IsValid(rows[hash(apiKey)], now) then Some(Projection(rows[hash(apiKey)])) else None
  }

  /**
   * Validation fails in exactly three cases: no row under the digest, a row
   * that may expire and whose expiry is not strictly after `now`, or an
   * inactive row.
   */
  lemma ValidationRejects(rows: map<Digest, ApiKey>, hash: string -> Digest, apiKey: string, now: Timestamp)
    ensures Validation(rows, hash, apiKey, now).None? <==>
      || hash(apiKey) !in rows
      || (!rows[hash(apiKey)].neverExpire && rows[hash(apiKey)].expirationTime <= now)
      || !rows[hash(apiKey)].isActive
  {
  }

  /** One usage update: the row under `digest`, if there is one, counts one more query and is stamped `now`. */
  function UsageApplied(rows: map<Digest, ApiKey>, digest: Digest, now: Timestamp): (r: map<Digest, ApiKey>)
    ensures r.Keys == rows.Keys
    ensures forall d :: d in rows && d != digest ==> r[d] == rows[d]
    ensures digest in rows ==>
      && r[digest].totalQueries == rows[digest].totalQueries + 1
      && r[digest].lastQueryDate == now
      && r[digest].(totalQueries := rows[digest].totalQueries, lastQueryDate := rows[digest].lastQueryDate) == rows[digest]
  {
    if digest in rows then
      rows[digest := rows[digest].(totalQueries := rows[digest].totalQueries + 1, lastQueryDate := now)]
    else rows
  }

  /** The usage updates for the plaintext keys `keys`, applied in order at `now`. */
  function UsageAppliedAll(rows: map<Digest, ApiKey>, hash: string -> Digest, keys: seq<string>, now: Timestamp): (r: map<Digest, ApiKey>)
    ensures r.Keys == rows.Keys
    decreases |keys|
  {
    if keys == [] then rows
    else UsageApplied(UsageAppliedAll(rows, hash, keys[..|keys| - 1], now), hash(keys[|keys| - 1]), now)
  }

  /** How many of `keys` hash to `digest`. */
  function Hits(hash: string -> Digest, keys: seq<string>, digest: Digest): nat
    decreases |keys|
  {
    if keys == [] then 0
    else Hits(hash, keys[..|keys| - 1], digest) + (if hash(keys[|keys| - 1]) == digest then 1 else 0)
  }

  /**
   * Applying a batch of usage updates adds to each row's counter exactly the
   * number of updates aimed at it, stamps the rows it touched, and changes no
   * other field and no set of keys.
   */
  lemma {:induction false} UsageAppliedAllCounts(rows: map<Digest, ApiKey>, hash: string -> Digest, keys: seq<string>, now: Timestamp, d: Digest)
    requires d in rows
    ensures var r := UsageAppliedAll(rows, hash, keys, now);
      && r[d].totalQueries == rows[d].totalQueries + Hits(hash, keys, d)
      && r[d].lastQueryDate == (if Hits(hash, keys, d) == 0 then rows[d].lastQueryDate else now)
      && r[d].(totalQueries := rows[d].totalQueries, lastQueryDate := rows[d].lastQueryDate) == rows[d]
    decreases |keys|
  {
    if keys != [] {
      UsageAppliedAllCounts(rows, hash, keys[..|keys| - 1], now, d);
    }
  }

  /** The usage updates never change whether a key is valid. */
  lemma {:induction false} UsageAppliedAllKeepsValidity(rows: map<Digest, ApiKey>, hash: string -> Digest, keys: seq<string>, now: Timestamp, apiKey: string, t: Timestamp)
    ensures Validation(UsageAppliedAll(rows, hash, keys, now), hash, apiKey, t).Some? == Validation(rows, hash, apiKey, t).Some?
  {
    if hash(apiKey) in rows {
      UsageAppliedAllCounts(rows, hash, keys, now, hash(apiKey));
    }
  }

  /** Newest use first. */
  predicate MostRecentFirst(keys: seq<ApiKey>) {
    forall i, j :: 0 <= i < j < |keys| ==> keys[i].lastQueryDate >= keys[j].lastQueryDate
  }

  /** The rows owned by `userUid`. */
  function OwnedBy(rows: map<Digest, ApiKey>, userUid: string): set<ApiKey> {
    set d | d in rows && rows[d].userUid == userUid :: rows[d]
  }

  /** Places `k` before the first row used no later than it. */
  function InsertByRecency(keys: seq<ApiKey>, k: ApiKey): (r: seq<ApiKey>)
    ensures multiset(r) == multiset(keys) + multiset{k}
    ensures forall x :: x in r ==> x == k || x in keys
    decreases |keys|
  {
    if keys == [] || keys[0].lastQueryDate <= k.lastQueryDate then [k] + keys
    else
      assert keys == [keys[0]] + keys[1..];
      [keys[0]] + InsertByRecency(keys[1..], k)
  }

  /** Inserting into a listing that is newest first keeps it newest first. */
  lemma {:induction false} InsertByRecencySorted(keys: seq<ApiKey>, k: ApiKey)
    requires MostRecentFirst(keys)
    ensures MostRecentFirst(InsertByRecency(keys, k))
    decreases |keys|
  {
    if keys != [] && keys[0].lastQueryDate > k.lastQueryDate {
      var rest := InsertByRecency(keys[1..], k);
      InsertByRecencySorted(keys[1..], k);
      forall x | x in rest
        ensures x.lastQueryDate <= keys[0].lastQueryDate
      {
        if x != k {
          var i :| 0 <= i < |keys[1..]| && keys[1..][i] == x;
          assert keys[i + 1] == x;
        }
      }
      var r := [keys[0]] + rest;
      forall i, j | 0 <= i < j < |r|
        ensures r[i].lastQueryDate >= r[j].lastQueryDate
      {
        if i > 0 {
          assert r[i] == rest[i - 1] && r[j] == rest[j - 1];
        } else {
          assert r[j] in rest;
        }
      }
    }
  }

  /** The API-key table with its queue of handed-off usage updates. */
  class ApiKeyTable {
    /** `hash_api_key`: the digest of a plaintext key. */
    const hash: string -> Digest
    var rows: map<Digest, ApiKey>
    /** Plaintext keys whose usage update a successful validation handed off and that has not run yet. */
    var pending: seq<string>

    /** Every row is stored under its own digest. */
    ghost predicate Valid()
      reads this
    {
      forall d :: d in rows ==> rows[d].apiKey == d
    }

    constructor (hash: string -> Digest)
      ensures this.hash == hash && rows == map[] && pending == [] && Valid()
    {
      this.hash := hash;
      rows := map[];
      pending := [];
    }

    /** `create_key`: stores the new row under the digest of `plaintext` and hands the plaintext back. */
    method CreateKey(name: string, userUid: string, neverExpire: bool, iamRoles: seq<string>, config: JsonValue,
                     plaintext: string, now: Timestamp, ttlHours: int) returns (r: Result<string, CreateError>)
      requires Valid()
      modifies this`rows
      ensures Valid()
      ensures hash(plaintext) in old(rows) ==> r == Err(DuplicateApiKey) && rows == old(rows)
      ensures hash(plaintext) !in old(rows) ==>
        && r == Ok(plaintext)
        && rows == old(rows)[hash(plaintext) := NewApiKey(hash(plaintext), name, userUid, neverExpire, iamRoles, config, now, ttlHours)]
    {
      var digest := hash(plaintext);
      if digest in rows {
        return Err(DuplicateApiKey);
      }
      rows := rows[digest := NewApiKey(digest, name, userUid, neverExpire, iamRoles, config, now, ttlHours)];
      return Ok(plaintext);
    }

    /**
     * `check_key`: looks up the unexpired row under the digest, rejects it when
     * inactive, and on success queues one usage update without touching the rows.
     */
    method CheckKey(apiKey: string, now: Timestamp) returns (r: Option<KeyInfo>)
      modifies this`pending
      ensures r == Validation(rows, hash, apiKey, now)
      ensures pending == old(pending) + (if r.Some? then [apiKey] else [])
    {
      var digest := hash(apiKey);
      if digest !in rows || !(rows[digest].neverExpire || rows[digest].expirationTime > now) {
        return None;
      }
      var response := Projection(rows[digest]);
      if !response.isActive {
        return None;
      }
      pending := pending + [apiKey];
      return Some(response);
    }

    /** `_update_usage`: one more query on the row of `apiKey`, stamped `now`; nothing for an unknown key. */
    method UpdateUsage(apiKey: string, now: Timestamp)
      requires Valid()
      modifies this`rows
      ensures Valid()
      ensures rows == UsageApplied(old(rows), hash(apiKey), now)
    {
      var digest := hash(apiKey);
      if digest in rows {
        var row := rows[digest];
        rows := rows[digest := row.(totalQueries := row.totalQueries + 1, lastQueryDate := now)];
      }
    }

    /** Runs every handed-off usage update, oldest first, and empties the queue. */
    method RunPendingUpdates(now: Timestamp)
      requires Valid()
      modifies this`rows, this`pending
      ensures Valid() && pending == []
      ensures rows == UsageAppliedAll(old(rows), hash, old(pending), now)
    {
      var i := 0;
      while i < |pending|
        invariant 0 <= i <= |pending|
        invariant pending == old(pending)
        invariant Valid()
        invariant rows == UsageAppliedAll(old(rows), hash, pending[..i], now)
      {
        assert pending[..i + 1][..i] == pending[..i];
        UpdateUsage(pending[i], now);
        i := i + 1;
      }
      assert pending[..i] == pending;
      pending := [];
    }

    /** `get_usage_status`: every row of `userUid`, each once, newest use first. */
    method GetUsageStatus(userUid: string) returns (keys: seq<ApiKey>)
      requires Valid()
      ensures multiset(keys) == multiset(OwnedBy(rows, userUid))
      ensures MostRecentFirst(keys)
    {
      keys := [];
      var todo := rows.Keys;
      while todo != {}
        invariant todo <= rows.Keys
        invariant multiset(keys) == multiset(set d | d in rows && d !in todo && rows[d].userUid == userUid :: rows[d])
        invariant MostRecentFirst(keys)
        decreases |todo|
      {
        var d :| d in todo;
        ghost var done := set e | e in rows && e !in todo && rows[e].userUid == userUid :: rows[e];
        todo := todo - {d};
        if rows[d].userUid == userUid {
          assert rows[d] !in done;
          assert (set e | e in rows && e !in todo && rows[e].userUid == userUid :: rows[e]) == done + {rows[d]};
          InsertByRecencySorted(keys, rows[d]);
          keys := InsertByRecency(keys, rows[d]);
        } else {
          assert (set e | e in rows && e !in todo && rows[e].userUid == userUid :: rows[e]) == done;
        }
      }
      assert (set d | d in rows && d !in todo && rows[d].userUid == userUid :: rows[d]) == OwnedBy(rows, userUid);
    }
  }

  /** A row listed for `userUid` is one of its stored rows, under its own digest. */
  lemma OwnedByMember(rows: map<Digest, ApiKey>, userUid: string, k: ApiKey)
    requires forall d :: d in rows ==> rows[d].apiKey == d
    requires k in OwnedBy(rows, userUid)
    ensures k.apiKey in rows && rows[k.apiKey] == k && k.userUid == userUid
  {
    var d :| d in rows && rows[d].userUid == userUid && rows[d] == k;
  }

  /**
   * Issuing a key and then validating its plaintext succeeds exactly while the
   * key has not expired, and reports what was given at issuance.
   */
  lemma IssueThenValidate(rows: map<Digest, ApiKey>, hash: string -> Digest, plaintext: string,
                          name: string, userUid: string, neverExpire: bool, iamRoles: seq<string>, config: JsonValue,
                          issuedAt: Timestamp, ttlHours: int, now: Timestamp)
    ensures var stored := rows[hash(plaintext) := NewApiKey(hash(plaintext), name, userUid, neverExpire, iamRoles, config, issuedAt, ttlHours)];
      Validation(stored, hash, plaintext, now) ==
        if neverExpire || now < issuedAt + ttlHours * SecondsPerHour
        then Some(KeyInfo(userUid, true, iamRoles, config, issuedAt))
        else None
  {
  }
}
