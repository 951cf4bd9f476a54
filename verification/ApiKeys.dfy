/**
 Developer API keys (developer.service.ts): creation, rotation, revocation, validation and the
 expiry sweep. Key `i` is the i-th row created; rows are never deleted. The hash of a new key is
 an input; SHA-256 is the function `hash`.
 */
module ApiKeys {
  import opened Wrappers
  import opened Calendar

  const PREFIX := "chioma_sk_"
  const DEFAULT_EXPIRATION_DAYS := 90

  datatype KeyStatus = Active | Expired | Revoked

  datatype ApiKey = ApiKey(
    user: nat, name: string, hash: string, expiresAt: Option<int>, isRotated: bool, previousKeyHash: Option<string>,
    rotatedAt: Option<int>, status: KeyStatus)

  datatype Rotation = Rotation(apiKey: nat, user: nat, oldKeyHash: string, newKeyHash: string)

  datatype Db = Db(keys: seq<ApiKey>, history: seq<Rotation>)

  datatype Error = KeyNotFound | KeyNotActive

  predicate IsExpired(k: ApiKey, now: int) {
    k.expiresAt.Some? && now > k.expiresAt.value
  }

  function Expiration(expiresAt: Option<int>, now: int): Option<int> {
    if expiresAt.Some? then expiresAt else Some(now + DEFAULT_EXPIRATION_DAYS * DAY_MS)
  }

  /** `getKey`: the row exists and belongs to the user. */
  predicate Owns(db: Db, user: nat, id: nat) {
    id < |db.keys| && db.keys[id].user == user
  }

  function Created(db: Db, user: nat, name: string, hash: string, expiresAt: Option<int>, now: int): Db {
    db.(keys := db.keys + [ApiKey(user, name, hash, Expiration(expiresAt, now), false, None, None, Active)])
  }

  function Updated(db: Db, user: nat, id: nat, name: Option<string>, expiresAt: Option<int>): Result<Db, Error> {
    if !Owns(db, user, id) then Err(KeyNotFound)
    else
      var k := db.keys[id];
      Ok(db.(keys := db.keys[id := k.(name := if name.Some? && name.value != "" then name.value else k.name,
                                      expiresAt := if expiresAt.Some? then expiresAt else k.expiresAt)]))
  }

  function Rotated(db: Db, user: nat, id: nat, hash: string, expiresAt: Option<int>, now: int): Result<Db, Error> {
    if !Owns(db, user, id) then Err(KeyNotFound)
    else if db.keys[id].status != Active then Err(KeyNotActive)
    else
      var k := db.keys[id];
      var successor := ApiKey(user, k.name, hash, Expiration(expiresAt, now), true, Some(k.hash), Some(now), Active);
      Ok(Db(db.keys[id := k.(status := Expired, rotatedAt := Some(now))] + [successor],
            db.history + [Rotation(|db.keys|, user, k.hash, hash)]))
  }

  function RevokedKey(db: Db, user: nat, id: nat): Result<Db, Error> {
    if !Owns(db, user, id) then Err(KeyNotFound)
    else Ok(db.(keys := db.keys[id := db.keys[id].(status := Revoked)]))
  }

  /** The first key with this hash. */
  function FindHash(keys: seq<ApiKey>, h: string): (r: Option<nat>)
    ensures r.Some? ==> r.value < |keys| && keys[r.value].hash == h && forall i :: 0 <= i < r.value ==>
            keys[i].hash != h
    ensures r.None? ==> forall i :: 0 <= i < |keys| ==> keys[i].hash != h
  {
    if keys == [] then None
    else
      var found := FindHash(keys[..|keys| - 1], h);
      if found.Some? then found else if keys[|keys| - 1].hash == h then Some(|keys| - 1) else None
  }

  /** The key that a raw key names, if it has the prefix and is known. */
  function Named(db: Db, raw: string, hash: string -> string): Option<nat> {
    if PREFIX <= raw then FindHash(db.keys, hash(raw)) else None
  }

  function Validated(db: Db, raw: string, hash: string -> string, now: int): Option<nat> {
    var id := Named(db, raw, hash);
    if id.Some? && db.keys[id.value].status == Active && !IsExpired(db.keys[id.value], now) then id else None
  }

  function AfterValidate(db: Db, raw: string, hash: string -> string, now: int): Db {
    var id := Named(db, raw, hash);
    if id.Some? && db.keys[id.value].status == Active && IsExpired(db.keys[id.value], now) then
      db.(keys := db.keys[id.value := db.keys[id.value].(status := Expired)])
    else db
  }

  function Swept(k: ApiKey, now: int): ApiKey {
    if k.status == Active && IsExpired(k, now) then k.(status := Expired) else k
  }

  function SweptAll(keys: seq<ApiKey>, now: int): (r: seq<ApiKey>)
    ensures |r| == |keys| && forall i :: 0 <= i < |keys| ==> r[i] == Swept(keys[i], now)
  {
    seq(|keys|, i requires 0 <= i < |keys| => Swept(keys[i], now))
  }

  function Expiring(keys: seq<ApiKey>, now: int): set<nat> {
    set i: nat | i < |keys| && keys[i].status == Active && IsExpired(keys[i], now)
  }

  /** The service over its two tables. */
  class DeveloperService {
    var keys: seq<ApiKey>
    var history: seq<Rotation>
    const hash: string -> string

    function Value(): Db
      reads this
    {
      Db(keys, history)
    }

    constructor (hash: string -> string)
      ensures Value() == Db([], []) && this.hash == hash
    {
      keys, history, this.hash := [], [], hash;
    }

    method CreateKey(user: nat, name: string, keyHash: string, expiresAt: Option<int>, now: int) returns (id: nat)
      modifies this
      ensures Value() == Created(old(Value()), user, name, keyHash, expiresAt, now) && id == old(|keys|)
    {
      var expiration := if expiresAt.Some? then expiresAt.value else now + DEFAULT_EXPIRATION_DAYS * DAY_MS;
      id := |keys|;
      keys := keys + [ApiKey(user, name, keyHash, Some(expiration), false, None, None, Active)];
    }

    method GetKey(user: nat, id: nat) returns (r: Result<ApiKey, Error>)
      ensures r == if Owns(Value(), user, id) then Ok(keys[id]) else Err(KeyNotFound)
    {
      if id < |keys| && keys[id].user == user {
        r := Ok(keys[id]);
      } else {
        r := Err(KeyNotFound);
      }
    }

    method UpdateKey(user: nat, id: nat, name: Option<string>, expiresAt: Option<int>) returns (r: Result<(), Error>)
      modifies this
      ensures match Updated(old(Value()), user, id, name, expiresAt)
              case Ok(db) => r == Ok(()) && Value() == db
              case Err(e) => r == Err(e) && Value() == old(Value())
    {
      var found := GetKey(user, id);
      if found.Err? {
        return Err(found.error);
      }
      var key := found.value;
      if name.Some? && name.value != "" {
        key := key.(name := name.value);
      }
      if expiresAt.Some? {
        key := key.(expiresAt := expiresAt);
      }
      keys := keys[id := key];
      r := Ok(());
    }

    method RotateKey(user: nat, id: nat, keyHash: string, expiresAt: Option<int>, now: int)
      returns (r: Result<nat, Error>)
      modifies this
      ensures match Rotated(old(Value()), user, id, keyHash, expiresAt, now)
              case Ok(db) => r == Ok(old(|keys|)) && Value() == db
              case Err(e) => r == Err(e) && Value() == old(Value())
    {
      var found := GetKey(user, id);
      if found.Err? {
        return Err(found.error);
      }
      var oldKey := found.value;
      if oldKey.status != Active {
        return Err(KeyNotActive);
      }
      var expiration := if expiresAt.Some? then expiresAt.value else now + DEFAULT_EXPIRATION_DAYS * DAY_MS;
      var newId := |keys|;
      keys := keys + [ApiKey(user, oldKey.name, keyHash, Some(expiration), true, Some(oldKey.hash), Some(now), Active)];
      history := history + [Rotation(newId, user, oldKey.hash, keyHash)];
      keys := keys[id := oldKey.(status := Expired, rotatedAt := Some(now))];
      r := Ok(newId);
    }

    method RevokeKey(user: nat, id: nat) returns (r: Result<(), Error>)
      modifies this
      ensures match RevokedKey(old(Value()), user, id)
              case Ok(db) => r == Ok(()) && Value() == db
              case Err(e) => r == Err(e) && Value() == old(Value())
    {
      var found := GetKey(user, id);
      if found.Err? {
        return Err(found.error);
      }
      keys := keys[id := found.value.(status := Revoked)];
      r := Ok(());
    }

    method ValidateKey(raw: string, now: int) returns (id: Option<nat>)
      modifies this
      ensures id == Validated(old(Value()), raw, hash, now)
      ensures Value() == AfterValidate(old(Value()), raw, hash, now)
    {
      if !(PREFIX <= raw) {
        return None;
      }
      id := FindHash(keys, hash(raw));
      if id.None? || keys[id.value].status != Active {
        return None;
      }
      var key := keys[id.value];
      if IsExpired(key, now) {
        keys := keys[id.value := key.(status := Expired)];
        return None;
      }
    }

    method DeactivateExpiredKeys(now: int) returns (affected: nat)
      modifies this
      ensures affected == |Expiring(old(keys), now)|
      ensures Value() == old(Value()).(keys := SweptAll(old(keys), now))
    {
      affected := |Expiring(keys, now)|;
      keys := SweptAll(keys, now);
    }
  }

  // ---- Chains ---------------------------------------------------------------------------

  /** Key `j` was made by rotating key `i`. */
  ghost predicate Links(keys: seq<ApiKey>, i: nat, j: nat) {
    i < |keys| && j < |keys| && keys[j].previousKeyHash == Some(keys[i].hash)
  }

  ghost predicate UniqueHashes(keys: seq<ApiKey>) {
    forall i, j :: 0 <= i < j < |keys| ==> keys[i].hash != keys[j].hash
  }

  /** A rotated key has an earlier predecessor of the same user, and that one is not active any more. */
  ghost predicate LinkedBack(keys: seq<ApiKey>, j: nat)
    requires j < |keys|
  {
    && (keys[j].isRotated <==> keys[j].previousKeyHash.Some?)
    && (keys[j].previousKeyHash.Some?
        ==> var p := FindHash(keys, keys[j].previousKeyHash.value);
            p.Some? && p.value < j && keys[p.value].user == keys[j].user && keys[p.value].status != Active)
  }

  ghost predicate OneSuccessor(keys: seq<ApiKey>) {
    forall j, k :: 0 <= j < k < |keys| && keys[j].previousKeyHash.Some? ==>
      keys[j].previousKeyHash != keys[k].previousKeyHash
  }

  /** One history record per link, in the order of the rotations. */
  function HistoryOf(keys: seq<ApiKey>): seq<Rotation> {
    if keys == [] then []
    else
      var last := |keys| - 1;
      HistoryOf(keys[..last])
      + match keys[last].previousKeyHash
        case None => []
        case Some(h) => [Rotation(last, keys[last].user, h, keys[last].hash)]
  }

  ghost predicate Inv(db: Db) {
    && UniqueHashes(db.keys) && OneSuccessor(db.keys) && db.history == HistoryOf(db.keys)
    && forall j :: 0 <= j < |db.keys| ==> LinkedBack(db.keys, j)
  }

  // ---- Every operation keeps the chains --------------------------------------------------

  lemma FindHashIs(keys: seq<ApiKey>, i: nat)
    requires UniqueHashes(keys) && i < |keys|
    ensures FindHash(keys, keys[i].hash) == Some(i)
  {
  }

  /** What a change of status, name or expiry leaves alone. */
  ghost predicate SameLinks(k: ApiKey, k': ApiKey) {
    && k'.user == k.user && k'.hash == k.hash && k'.previousKeyHash == k.previousKeyHash && k'.isRotated == k.isRotated
    && (k.status != Active ==> k'.status != Active) && (k.status == Revoked ==> k'.status == Revoked)
  }

  ghost predicate SameLinksAll(keys: seq<ApiKey>, keys': seq<ApiKey>) {
    |keys'| == |keys| && forall i :: 0 <= i < |keys| ==> SameLinks(keys[i], keys'[i])
  }

  lemma {:induction false} SameHistory(keys: seq<ApiKey>, keys': seq<ApiKey>)
    requires SameLinksAll(keys, keys')
    ensures HistoryOf(keys') == HistoryOf(keys)
  {
    if keys != [] {
      SameHistory(keys[..|keys| - 1], keys'[..|keys| - 1]);
    }
  }

  lemma {:induction false} SameFind(keys: seq<ApiKey>, keys': seq<ApiKey>, h: string)
    requires SameLinksAll(keys, keys')
    ensures FindHash(keys', h) == FindHash(keys, h)
  {
    if keys != [] {
      SameFind(keys[..|keys| - 1], keys'[..|keys| - 1], h);
    }
  }

  lemma SameLinksKeepInv(db: Db, keys: seq<ApiKey>)
    requires Inv(db) && SameLinksAll(db.keys, keys)
    ensures Inv(db.(keys := keys))
  {
    SameHistory(db.keys, keys);
    forall j | 0 <= j < |keys| ensures LinkedBack(keys, j) {
      assert LinkedBack(db.keys, j) && SameLinks(db.keys[j], keys[j]);
      if keys[j].previousKeyHash.Some? {
        SameFind(db.keys, keys, keys[j].previousKeyHash.value);
      }
    }
  }

  lemma FindEarlier(keys: seq<ApiKey>, k: ApiKey, h: string)
    ensures FindHash(keys, h).Some? ==> FindHash(keys + [k], h) == FindHash(keys, h)
  {
    assert (keys + [k])[..|keys|] == keys;
  }

  lemma AppendKeepsInv(db: Db, k: ApiKey)
    requires Inv(db) && FindHash(db.keys, k.hash) == None && (k.isRotated <==> k.previousKeyHash.Some?)
    requires k.previousKeyHash.Some?
             ==> && (forall j :: 0 <= j < |db.keys| ==> db.keys[j].previousKeyHash != k.previousKeyHash)
                 && var p := FindHash(db.keys, k.previousKeyHash.value);
                    p.Some? && db.keys[p.value].user == k.user && db.keys[p.value].status != Active
    ensures Inv(Db(db.keys + [k], HistoryOf(db.keys + [k])))
  {
    var keys := db.keys + [k];
    forall j | 0 <= j < |keys| ensures LinkedBack(keys, j) {
      assert j < |db.keys| ==> LinkedBack(db.keys, j) && keys[j] == db.keys[j];
      if keys[j].previousKeyHash.Some? {
        FindEarlier(db.keys, k, keys[j].previousKeyHash.value);
      }
    }
  }

  lemma AppendHistory(keys: seq<ApiKey>, k: ApiKey)
    ensures HistoryOf(keys + [k])
            == HistoryOf(keys)
               + match k.previousKeyHash
                 case None => []
                 case Some(h) => [Rotation(|keys|, k.user, h, k.hash)]
  {
    assert (keys + [k])[..|keys|] == keys;
  }

  /** An active key has no successor yet. */
  lemma ActiveHasNoSuccessor(db: Db, id: nat, j: nat)
    requires Inv(db) && id < |db.keys| && j < |db.keys| && db.keys[id].status == Active
    ensures db.keys[j].previousKeyHash != Some(db.keys[id].hash)
  {
    assert LinkedBack(db.keys, j);
    FindHashIs(db.keys, id);
  }

  lemma RotateKeepsInv(db: Db, user: nat, id: nat, hash: string, expiresAt: Option<int>, now: int)
    requires Inv(db) && FindHash(db.keys, hash) == None && Rotated(db, user, id, hash, expiresAt, now).Ok?
    ensures Inv(Rotated(db, user, id, hash, expiresAt, now).value)
  {
    var k := db.keys[id];
    var keys := db.keys[id := k.(status := Expired, rotatedAt := Some(now))];
    var successor := ApiKey(user, k.name, hash, Expiration(expiresAt, now), true, Some(k.hash), Some(now), Active);
    SameLinksKeepInv(db, keys);
    SameFind(db.keys, keys, hash);
    forall j | 0 <= j < |keys| ensures keys[j].previousKeyHash != successor.previousKeyHash {
      ActiveHasNoSuccessor(db, id, j);
    }
    FindHashIs(keys, id);
    AppendKeepsInv(db.(keys := keys), successor);
    AppendHistory(keys, successor);
  }

  lemma CreateKeepsInv(db: Db, user: nat, name: string, hash: string, expiresAt: Option<int>, now: int)
    requires Inv(db) && FindHash(db.keys, hash) == None
    ensures Inv(Created(db, user, name, hash, expiresAt, now))
  {
    var k := ApiKey(user, name, hash, Expiration(expiresAt, now), false, None, None, Active);
    AppendKeepsInv(db, k);
    AppendHistory(db.keys, k);
  }

  // ---- Runs -----------------------------------------------------------------------------

  datatype Event =
    | Create(user: nat, name: string, hash: string, expiresAt: Option<int>)
    | Update(user: nat, id: nat, newName: Option<string>, newExpiresAt: Option<int>)
    | Rotate(user: nat, id: nat, hash: string, expiresAt: Option<int>)
    | Revoke(user: nat, id: nat)
    | Validate(raw: string)
    | Sweep

  function ValueOr(r: Result<Db, Error>, db: Db): Db {
    if r.Ok? then r.value else db
  }

  function After(db: Db, e: Event, sha: string -> string, now: int): Db {
    match e
    case Create(user, name, hash, expiresAt) => Created(db, user, name, hash, expiresAt, now)
    case Update(user, id, name, expiresAt) => ValueOr(Updated(db, user, id, name, expiresAt), db)
    case Rotate(user, id, hash, expiresAt) => ValueOr(Rotated(db, user, id, hash, expiresAt, now), db)
    case Revoke(user, id) => ValueOr(RevokedKey(db, user, id), db)
    case Validate(raw) => AfterValidate(db, raw, sha, now)
    case Sweep => db.(keys := SweptAll(db.keys, now))
  }

  /** The random bytes of a new key give it a hash that no key has. */
  predicate FreshHash(db: Db, e: Event) {
    e.Create? || e.Rotate? ==> FindHash(db.keys, e.hash) == None
  }

  datatype Timestamped = Timestamped(event: Event, now: int)

  function Play(db: Db, events: seq<Timestamped>, sha: string -> string): Db {
    if events == [] then db
    else
      var last := events[|events| - 1];
      After(Play(db, events[..|events| - 1], sha), last.event, sha, last.now)
  }

  ghost predicate FreshHashes(db: Db, events: seq<Timestamped>, sha: string -> string) {
    forall i :: 0 <= i < |events| ==> FreshHash(Play(db, events[..i], sha), events[i].event)
  }

  /** The rows a step finds keep their links, and none of them becomes active. */
  lemma StepKeepsRows(db: Db, e: Event, sha: string -> string, now: int, i: nat)
    requires i < |db.keys|
    ensures |After(db, e, sha, now).keys| >= |db.keys| && SameLinks(db.keys[i], After(db, e, sha, now).keys[i])
  {
  }

  /** A step that makes no key changes no link and no history. */
  lemma OtherStepsKeepLinks(db: Db, e: Event, sha: string -> string, now: int)
    requires !e.Create? && !e.Rotate?
    ensures After(db, e, sha, now) == db.(keys := After(db, e, sha, now).keys)
    ensures SameLinksAll(db.keys, After(db, e, sha, now).keys)
  {
  }

  lemma StepKeepsInv(db: Db, e: Event, sha: string -> string, now: int)
    requires Inv(db) && FreshHash(db, e)
    ensures Inv(After(db, e, sha, now))
  {
    match e
    case Create(user, name, hash, expiresAt) => CreateKeepsInv(db, user, name, hash, expiresAt, now);
    case Rotate(user, id, hash, expiresAt) =>
      if Rotated(db, user, id, hash, expiresAt, now).Ok? {
        RotateKeepsInv(db, user, id, hash, expiresAt, now);
      }
    case _ =>
      OtherStepsKeepLinks(db, e, sha, now);
      SameLinksKeepInv(db, After(db, e, sha, now).keys);
  }

  lemma {:induction false} RunKeepsInv(db: Db, events: seq<Timestamped>, sha: string -> string)
    requires Inv(db) && FreshHashes(db, events, sha)
    ensures Inv(Play(db, events, sha))
  {
    if events != [] {
      var before := events[..|events| - 1];
      assert forall i :: 0 <= i < |before| ==> before[..i] == events[..i];
      RunKeepsInv(db, before, sha);
      StepKeepsInv(Play(db, before, sha), events[|events| - 1].event, sha, events[|events| - 1].now);
    }
  }

  /** Over any run no key returns to ACTIVE and a REVOKED key stays so; owner, hash and link never change. */
  lemma {:induction false} RunKeepsRows(db: Db, events: seq<Timestamped>, sha: string -> string, i: nat)
    requires i < |db.keys|
    ensures |Play(db, events, sha).keys| >= |db.keys| && SameLinks(db.keys[i], Play(db, events, sha).keys[i])
  {
    if events != [] {
      var before := events[..|events| - 1];
      RunKeepsRows(db, before, sha, i);
      StepKeepsRows(Play(db, before, sha), events[|events| - 1].event, sha, events[|events| - 1].now, i);
    }
  }

  // ---- What the invariant means ---------------------------------------------------------

  /** The keys from the first one created down to key `j`, each made by rotating the one before. */
  function Chain(keys: seq<ApiKey>, j: nat): (c: seq<nat>)
    requires j < |keys|
    ensures c != [] && c[|c| - 1] == j
    decreases j
  {
    match keys[j].previousKeyHash
    case None => [j]
    case Some(h) =>
      var p := FindHash(keys, h);
      if p.Some? && p.value < j then Chain(keys, p.value) + [j] else [j]
  }

  ghost predicate InOneUser(keys: seq<ApiKey>, c: seq<nat>, user: nat) {
    forall k :: 0 <= k < |c| ==> c[k] < |keys| && keys[c[k]].user == user
  }

  /** Key by key upwards through the links, every key but the last inactive. */
  ghost predicate Linked(keys: seq<ApiKey>, c: seq<nat>) {
    forall k :: 0 <= k < |c| - 1 ==> c[k] < c[k + 1] && Links(keys, c[k], c[k + 1]) && keys[c[k]].status != Active
  }

  lemma ExtendLinked(keys: seq<ApiKey>, c: seq<nat>, j: nat)
    requires c != [] && Linked(keys, c) && c[|c| - 1] < j && Links(keys, c[|c| - 1], j)
             && keys[c[|c| - 1]].status != Active
    ensures Linked(keys, c + [j])
  {
    var d := c + [j];
    assert forall k :: 0 <= k < |c| ==> d[k] == c[k];
  }

  /** A chain goes up in creation order within one user through the links, and only its last key may be active. */
  lemma {:induction false} ChainIsLinear(db: Db, j: nat)
    requires Inv(db) && j < |db.keys|
    ensures InOneUser(db.keys, Chain(db.keys, j), db.keys[j].user) && Linked(db.keys, Chain(db.keys, j))
    ensures db.keys[Chain(db.keys, j)[0]].previousKeyHash == None
    decreases j
  {
    assert LinkedBack(db.keys, j);
    if db.keys[j].previousKeyHash.Some? {
      var p := FindHash(db.keys, db.keys[j].previousKeyHash.value).value;
      ChainIsLinear(db, p);
      ExtendLinked(db.keys, Chain(db.keys, p), j);
    }
  }

  ghost predicate IsTail(keys: seq<ApiKey>, i: nat) {
    forall j: nat :: !Links(keys, i, j)
  }

  /** Two links from one key go to one key. */
  lemma SuccessorIsUnique(db: Db, i: nat, j: nat, k: nat)
    requires Inv(db) && Links(db.keys, i, j) && Links(db.keys, i, k)
    ensures j == k
  {
  }

  /** Different chains are disjoint: a key lies in the chain of one tail only. */
  lemma {:induction false} ChainsAreDisjoint(db: Db, t: nat, u: nat, p: nat, q: nat)
    requires Inv(db) && t < |db.keys| && u < |db.keys| && IsTail(db.keys, t) && IsTail(db.keys, u)
    requires p < |Chain(db.keys, t)| && q < |Chain(db.keys, u)| && Chain(db.keys, t)[p] == Chain(db.keys, u)[q]
    ensures t == u
    decreases |Chain(db.keys, t)| - p
  {
    var c, d := Chain(db.keys, t), Chain(db.keys, u);
    ChainIsLinear(db, t);
    ChainIsLinear(db, u);
    assert p < |c| - 1 ==> Links(db.keys, c[p], c[p + 1]);
    assert q < |d| - 1 ==> Links(db.keys, d[q], d[q + 1]);
    if p < |c| - 1 {
      SuccessorIsUnique(db, c[p], c[p + 1], d[q + 1]);
      ChainsAreDisjoint(db, t, u, p + 1, q + 1);
    }
  }

  /** Every key lies in the chain of some tail. */
  lemma {:induction false} EveryKeyHasATail(db: Db, i: nat) returns (t: nat, p: nat)
    requires Inv(db) && i < |db.keys|
    ensures t < |db.keys| && IsTail(db.keys, t) && p < |Chain(db.keys, t)| && Chain(db.keys, t)[p] == i
    decreases |db.keys| - i
  {
    if IsTail(db.keys, i) {
      t, p := i, |Chain(db.keys, i)| - 1;
    } else {
      var j: nat :| Links(db.keys, i, j);
      assert LinkedBack(db.keys, j);
      FindHashIs(db.keys, i);
      t, p := EveryKeyHasATail(db, j);
      ChainIsLinear(db, t);
      assert p > 0;
      p := p - 1;
    }
  }

  /** The history holds one record for each link and none else. */
  lemma {:induction false} OneRecordPerLink(keys: seq<ApiKey>, r: Rotation)
    ensures multiset(HistoryOf(keys))[r]
            == if && r.apiKey < |keys| && keys[r.apiKey].previousKeyHash == Some(r.oldKeyHash)
                  && keys[r.apiKey].user == r.user && keys[r.apiKey].hash == r.newKeyHash
               then 1 else 0
  {
    if keys != [] {
      var last := |keys| - 1;
      var before, record := keys[..last], HistoryOf(keys)[|HistoryOf(keys[..last])|..];
      OneRecordPerLink(before, r);
      assert r.apiKey < last ==> before[r.apiKey] == keys[r.apiKey];
      assert HistoryOf(keys) == HistoryOf(before) + record;
    }
  }

  /**
   `validateKey` accepts a key if and only if it carries the prefix and the hash of an unexpired active
   key, which is a chain's tail.
   */
  lemma AcceptsOnlyTails(db: Db, raw: string, sha: string -> string, now: int, i: nat)
    requires Inv(db) && i < |db.keys|
    ensures Validated(db, raw, sha, now) == Some(i)
            <==> "chioma_sk_" <= raw && db.keys[i].hash == sha(raw) && db.keys[i].status == Active
                 && !IsExpired(db.keys[i], now)
    ensures Validated(db, raw, sha, now) == Some(i) ==> IsTail(db.keys, i)
  {
    FindHashIs(db.keys, i);
    if db.keys[i].status == Active {
      forall j: nat | j < |db.keys| ensures !Links(db.keys, i, j) {
        ActiveHasNoSuccessor(db, i, j);
      }
    }
  }

  /** The sweep changes no answer of `validateKey` at the same or a later instant. */
  lemma SweepChangesNoAnswer(db: Db, raw: string, sha: string -> string, swept: int, now: int)
    requires swept <= now
    ensures Validated(After(db, Sweep, sha, swept), raw, sha, now) == Validated(db, raw, sha, now)
  {
    SameFind(db.keys, SweptAll(db.keys, swept), sha(raw));
  }

  /** The sweep marks exactly the active keys past their expiry, changes nothing else, and leaves none to mark. */
  lemma SweepMarksExactly(db: Db, sha: string -> string, now: int, i: nat)
    requires i < |db.keys|
    ensures var after := After(db, Sweep, sha, now);
            && |after.keys| == |db.keys| && after.history == db.history
            && (db.keys[i].status == Active && db.keys[i].expiresAt.Some? && db.keys[i].expiresAt.value < now ==>
                  after.keys[i] == db.keys[i].(status := Expired) && i in Expiring(db.keys, now))
            && (db.keys[i].status != Active || db.keys[i].expiresAt.None? || now <= db.keys[i].expiresAt.value ==>
                  after.keys[i] == db.keys[i] && i !in Expiring(db.keys, now))
            && Expiring(after.keys, now) == {}
  {
  }

  /** The empty tables, with which every service begins, meet the invariant. */
  lemma EmptyTablesMeetInv()
    ensures Inv(Db([], []))
  {
  }

  /** From the rotation on, and after any further operations, the old key is refused. */
  lemma RotatedKeyIsRefused(
    db: Db, user: nat, id: nat, hash: string, expiresAt: Option<int>, rotated: int, events: seq<Timestamped>,
    sha: string -> string, raw: string, now: int)
    requires Inv(db) && FindHash(db.keys, hash) == None && Rotated(db, user, id, hash, expiresAt, rotated).Ok?
    requires sha(raw) == db.keys[id].hash
    requires FreshHashes(Rotated(db, user, id, hash, expiresAt, rotated).value, events, sha)
    ensures Validated(Play(Rotated(db, user, id, hash, expiresAt, rotated).value, events, sha), raw, sha, now) == None
  {
    var after := Rotated(db, user, id, hash, expiresAt, rotated).value;
    var later := Play(after, events, sha);
    RotateKeepsInv(db, user, id, hash, expiresAt, rotated);
    RunKeepsInv(after, events, sha);
    RunKeepsRows(after, events, sha, id);
    FindHashIs(later.keys, id);
  }

  // ---- Which keys work ----------------------------------------------------------------------

  /** A revoked key is refused at once and after any further operations. */
  lemma RevokedKeyIsRefused(
    db: Db, user: nat, id: nat, events: seq<Timestamped>, sha: string -> string, raw: string, now: int)
    requires Inv(db) && Owns(db, user, id) && sha(raw) == db.keys[id].hash
    requires RevokedKey(db, user, id).Ok? && FreshHashes(RevokedKey(db, user, id).value, events, sha)
    ensures Validated(Play(RevokedKey(db, user, id).value, events, sha), raw, sha, now) == None
  {
    var after := RevokedKey(db, user, id).value;
    var later := Play(after, events, sha);
    SameLinksKeepInv(db, after.keys);
    RunKeepsInv(after, events, sha);
    RunKeepsRows(after, events, sha, id);
    FindHashIs(later.keys, id);
  }

  /**
   A new key works at every instant up to its expiry, which is the one asked for or 90 days away, and not
   after it.
   */
  lemma CreatedKeyWorks(
    db: Db, user: nat, name: string, hash: string, expiresAt: Option<int>, created: int,
    sha: string -> string, raw: string, now: int)
    requires FindHash(db.keys, hash) == None && PREFIX <= raw && sha(raw) == hash
    ensures var after := Created(db, user, name, hash, expiresAt, created);
            && |after.keys| == |db.keys| + 1 && after.keys[..|db.keys|] == db.keys
            && after.keys[|db.keys|].user == user && after.keys[|db.keys|].name == name
            && (Validated(after, raw, sha, now) == Some(|db.keys|)
                <==> now <= if expiresAt.Some? then expiresAt.value else created + 90 * DAY_MS)
  {
    var k := Created(db, user, name, hash, expiresAt, created).keys[|db.keys|];
    assert (db.keys + [k])[..|db.keys|] == db.keys;
  }

  /** So does the successor that a rotation makes; it keeps the name and the owner. */
  lemma SuccessorWorks(
    db: Db, user: nat, id: nat, hash: string, expiresAt: Option<int>, rotated: int,
    sha: string -> string, raw: string, now: int)
    requires Inv(db) && FindHash(db.keys, hash) == None && PREFIX <= raw && sha(raw) == hash
    requires Rotated(db, user, id, hash, expiresAt, rotated).Ok?
    ensures var after := Rotated(db, user, id, hash, expiresAt, rotated).value;
            && id < |db.keys| && |after.keys| == |db.keys| + 1
            && after.keys[|db.keys|].user == db.keys[id].user && after.keys[|db.keys|].name == db.keys[id].name
            && Links(after.keys, id, |db.keys|)
            && (Validated(after, raw, sha, now) == Some(|db.keys|)
                <==> now <= if expiresAt.Some? then expiresAt.value else rotated + 90 * DAY_MS)
  {
    RotateKeepsInv(db, user, id, hash, expiresAt, rotated);
    FindHashIs(Rotated(db, user, id, hash, expiresAt, rotated).value.keys, |db.keys|);
  }

  /** Rotation succeeds exactly on the user's own active key; updates and revocation exactly on the user's own key. */
  lemma OwnKeysOnly(db: Db, user: nat, id: nat, hash: string, expiresAt: Option<int>, name: Option<string>, now: int)
    ensures Rotated(db, user, id, hash, expiresAt, now).Ok?
            <==> id < |db.keys| && db.keys[id].user == user && db.keys[id].status == Active
    ensures Updated(db, user, id, name, expiresAt).Ok? <==> id < |db.keys| && db.keys[id].user == user
    ensures RevokedKey(db, user, id).Ok? <==> id < |db.keys| && db.keys[id].user == user
    ensures Rotated(db, user, id, hash, expiresAt, now) == Err(KeyNotActive)
            <==> id < |db.keys| && db.keys[id].user == user && db.keys[id].status != Active
  {
  }

  /**
   An update sets the new expiry, which decides how long the key works from then on, and a non-empty name;
   nothing else changes.
   */
  lemma UpdateMovesExpiry(
    db: Db, user: nat, id: nat, name: Option<string>, expiresAt: Option<int>,
    sha: string -> string, raw: string, now: int)
    requires Inv(db) && Owns(db, user, id) && PREFIX <= raw && sha(raw) == db.keys[id].hash
    requires Updated(db, user, id, name, expiresAt).Ok?
    ensures var after := Updated(db, user, id, name, expiresAt).value;
            && |after.keys| == |db.keys| && after.history == db.history
            && (forall i :: 0 <= i < |db.keys| && i != id ==> after.keys[i] == db.keys[i])
            && (name.Some? && name.value != "" ==> after.keys[id].name == name.value)
            && (name.None? || name.value == "" ==> after.keys[id].name == db.keys[id].name)
            && (expiresAt.Some? ==> (Validated(after, raw, sha, now) == Some(id)
                                     <==> db.keys[id].status == Active && now <= expiresAt.value))
            && (expiresAt.None? ==> Validated(after, raw, sha, now) == Validated(db, raw, sha, now))
  {
    var after := Updated(db, user, id, name, expiresAt).value;
    SameLinksKeepInv(db, after.keys);
    FindHashIs(db.keys, id);
    FindHashIs(after.keys, id);
  }

  /** Validation marks a key as expired exactly when it finds the key active past its expiry; no other key changes. */
  lemma ValidationMarksExpired(db: Db, raw: string, sha: string -> string, now: int, i: nat)
    requires Inv(db) && i < |db.keys|
    ensures var after := AfterValidate(db, raw, sha, now);
            && |after.keys| == |db.keys| && after.history == db.history
            && (after.keys[i] != db.keys[i]
                <==> && PREFIX <= raw && db.keys[i].hash == sha(raw) && db.keys[i].status == Active
                     && db.keys[i].expiresAt.Some? && db.keys[i].expiresAt.value < now)
            && (after.keys[i] != db.keys[i] ==> after.keys[i] == db.keys[i].(status := Expired))
  {
    FindHashIs(db.keys, i);
  }
}
