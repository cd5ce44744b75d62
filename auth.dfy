/** The API-key registry: sign-in challenges kept in memory per public key,
    and one key record per public key in the `api_key` table. SHA-256 and the
    ed25519 signature check are parameters of the service; the random parts
    (the uuid of a nonce, the hex of a key's random bytes) and the clock are
    inputs of the operations. */
module ApiKeys {
  import opened Wrappers

  /** How long a challenge stays valid, in milliseconds. */
  const ChallengeTtl: int := 60000
  const NoncePrefix: string := "silk_"
  const KeyPrefix: string := "sw_"

  datatype Challenge = Challenge(nonce: string, expiresAt: int)

  /** An `api_key` row; `revokedAt` is `None` while the key is live. */
  datatype ApiKeyRecord = ApiKeyRecord(pubkey: string, keyHash: string, createdAt: int, revokedAt: Option<int>)

  datatype AuthError =
    | NoValidChallenge   // no challenge, or an expired one
    | SignatureFailed
    | KeyNotFound
    | DuplicateKeyHash   // the flush violates the unique key hash

  function Nonce(uuid: string): string {
    NoncePrefix + uuid
  }

  /** Different uuids give different nonces. */
  lemma NonceInjective(u1: string, u2: string)
    requires u1 != u2
    ensures Nonce(u1) != Nonce(u2)
  {
    assert Nonce(u1)[|NoncePrefix|..] == u1;
    assert Nonce(u2)[|NoncePrefix|..] == u2;
  }

  /** `challenges.get(pubkey)` holds a challenge that has not expired. */
  predicate Live(challenges: map<string, Challenge>, pubkey: string, now: int) {
    pubkey in challenges && now <= challenges[pubkey].expiresAt
  }

  // ---- The table ----

  /** The two columns a row is looked up by. */
  datatype Column = PubkeyColumn | KeyHashColumn

  function Field(row: ApiKeyRecord, c: Column): string {
    match c
    case PubkeyColumn => row.pubkey
    case KeyHashColumn => row.keyHash
  }

  /** `findOne({ pubkey })` and `findOne({ keyHash })`: the first row whose
      column holds the value. */
  function FindOne(keys: seq<ApiKeyRecord>, c: Column, v: string): (r: Option<nat>)
    ensures r.None? <==> forall k :: 0 <= k < |keys| ==> Field(keys[k], c) != v
    ensures r.Some? ==>
      && r.value < |keys| && Field(keys[r.value], c) == v
      && forall k :: 0 <= k < r.value ==> Field(keys[k], c) != v
  {
    if keys == [] then None
    else if Field(keys[0], c) == v then Some(0)
    else
      match FindOne(keys[1..], c, v)
      case None => None
      case Some(j) => Some(j + 1)
  }

  /** The table's unique constraints on `pubkey` and `keyHash`. */
  ghost predicate Unique(keys: seq<ApiKeyRecord>) {
    forall i, j :: 0 <= i < j < |keys| ==>
      keys[i].pubkey != keys[j].pubkey && keys[i].keyHash != keys[j].keyHash
  }

  /** Writing `keyHash` for `pubkey` would clash with another row's hash. */
  predicate Collides(keys: seq<ApiKeyRecord>, pubkey: string, keyHash: string) {
    exists k :: 0 <= k < |keys| && keys[k].keyHash == keyHash && keys[k].pubkey != pubkey
  }

  /** The record of `pubkey` updated with the new hash and un-revoked, or a
      new record when there is none. */
  function Issue(keys: seq<ApiKeyRecord>, pubkey: string, keyHash: string, now: int): (r: seq<ApiKeyRecord>)
    ensures |r| == |keys| || |r| == |keys| + 1
    ensures |r| == |keys| + 1 <==> forall k :: 0 <= k < |keys| ==> keys[k].pubkey != pubkey
    ensures exists k :: 0 <= k < |r| && r[k] == ApiKeyRecord(pubkey, keyHash, now, None)
    ensures forall k :: 0 <= k < |keys| && keys[k].pubkey != pubkey ==> r[k] == keys[k]
  {
    match FindOne(keys, PubkeyColumn, pubkey)
    case Some(i) =>
      var r := keys[i := keys[i].(keyHash := keyHash, createdAt := now, revokedAt := None)];
      assert r[i] == ApiKeyRecord(pubkey, keyHash, now, None);
      r
    case None =>
      var r := keys + [ApiKeyRecord(pubkey, keyHash, now, None)];
      assert r[|keys|] == ApiKeyRecord(pubkey, keyHash, now, None);
      r
  }

  /** `validateKey` on the hash of a key. */
  function Validate(keys: seq<ApiKeyRecord>, keyHash: string): (r: Option<string>)
    ensures (forall k :: 0 <= k < |keys| ==> keys[k].keyHash != keyHash) ==> r.None?
    ensures r.Some? ==>
      exists k :: 0 <= k < |keys| && keys[k].keyHash == keyHash && keys[k].revokedAt.None? && keys[k].pubkey == r.value
  {
    match FindOne(keys, KeyHashColumn, keyHash)
    case None => None
    case Some(i) => if keys[i].revokedAt.Some? then None else Some(keys[i].pubkey)
  }

  /** `revokeKey` on the hash of a key. */
  function Revoke(keys: seq<ApiKeyRecord>, keyHash: string, now: int): (r: Result<seq<ApiKeyRecord>, AuthError>)
    ensures r.Err? <==> forall k :: 0 <= k < |keys| ==> keys[k].keyHash != keyHash
    ensures r.Err? ==> r.error == KeyNotFound
    ensures r.Ok? ==> |r.value| == |keys|
    ensures r.Ok? ==>
      exists i :: 0 <= i < |keys| && keys[i].keyHash == keyHash
        && (forall k :: 0 <= k < i ==> keys[k].keyHash != keyHash)
        && r.value == keys[i := keys[i].(revokedAt := Some(now))]
  {
    match FindOne(keys, KeyHashColumn, keyHash)
    case None => Err(KeyNotFound)
    case Some(i) => Ok(keys[i := keys[i].(revokedAt := Some(now))])
  }

  // ---- What the table promises ----

  lemma FirstAt(keys: seq<ApiKeyRecord>, c: Column, v: string, i: nat)
    requires i < |keys| && Field(keys[i], c) == v
    requires forall k :: 0 <= k < i ==> Field(keys[k], c) != v
    ensures FindOne(keys, c, v) == Some(i)
  {
  }

  /** With unique hashes, a key is valid exactly when its row is not revoked. */
  lemma ValidateRow(keys: seq<ApiKeyRecord>, k: nat)
    requires Unique(keys) && k < |keys|
    ensures Validate(keys, keys[k].keyHash) == if keys[k].revokedAt.Some? then None else Some(keys[k].pubkey)
  {
    FirstAt(keys, KeyHashColumn, keys[k].keyHash, k);
  }

  /** Issuing keeps the constraints when the flush succeeds, leaves exactly
      one row for the public key, and leaves every other row as it was. */
  lemma IssueKeepsUnique(keys: seq<ApiKeyRecord>, pubkey: string, keyHash: string, now: int)
    requires Unique(keys) && !Collides(keys, pubkey, keyHash)
    ensures var r := Issue(keys, pubkey, keyHash, now);
      && Unique(r)
      && (exists k :: 0 <= k < |r| && r[k] == ApiKeyRecord(pubkey, keyHash, now, None))
      && (forall k :: 0 <= k < |r| && r[k].pubkey != pubkey ==> k < |keys| && r[k] == keys[k])
      && (|r| == |keys| || |r| == |keys| + 1)
      && (forall k :: 0 <= k < |keys| && keys[k].pubkey != pubkey ==> r[k] == keys[k])
  {
    var r := Issue(keys, pubkey, keyHash, now);
    match FindOne(keys, PubkeyColumn, pubkey)
    case Some(i) =>
      assert r[i] == ApiKeyRecord(pubkey, keyHash, now, None);
      forall a, b | 0 <= a < b < |r|
        ensures r[a].pubkey != r[b].pubkey && r[a].keyHash != r[b].keyHash
      {
        if a == i {
          assert keys[b].pubkey != pubkey;
        } else if b == i {
          assert keys[a].pubkey != pubkey;
        }
      }
    case None =>
      assert r[|keys|] == ApiKeyRecord(pubkey, keyHash, now, None);
      forall a, b | 0 <= a < b < |r|
        ensures r[a].pubkey != r[b].pubkey && r[a].keyHash != r[b].keyHash
      {
        if b == |keys| {
          assert keys[a].pubkey != pubkey;
        }
      }
  }

  /** After a successful issue, the new key validates to the public key. */
  lemma IssueThenValidate(keys: seq<ApiKeyRecord>, pubkey: string, keyHash: string, now: int)
    requires Unique(keys) && !Collides(keys, pubkey, keyHash)
    ensures Validate(Issue(keys, pubkey, keyHash, now), keyHash) == Some(pubkey)
  {
    IssueKeepsUnique(keys, pubkey, keyHash, now);
    var r := Issue(keys, pubkey, keyHash, now);
    var k :| 0 <= k < |r| && r[k] == ApiKeyRecord(pubkey, keyHash, now, None);
    ValidateRow(r, k);
  }

  /** Issuing a key for one public key leaves every other public key's key
      as valid, or as invalid, as it was. */
  lemma IssueKeepsOthers(keys: seq<ApiKeyRecord>, pubkey: string, keyHash: string, now: int, k: nat)
    requires Unique(keys) && !Collides(keys, pubkey, keyHash)
    requires k < |keys| && keys[k].pubkey != pubkey
    ensures Validate(Issue(keys, pubkey, keyHash, now), keys[k].keyHash) == Validate(keys, keys[k].keyHash)
  {
    IssueKeepsUnique(keys, pubkey, keyHash, now);
    var r := Issue(keys, pubkey, keyHash, now);
    ValidateRow(keys, k);
    ValidateRow(r, k);
  }

  /** After a revoke, the key no longer validates. */
  lemma RevokeThenValidate(keys: seq<ApiKeyRecord>, keyHash: string, now: int)
    requires Revoke(keys, keyHash, now).Ok?
    ensures Validate(Revoke(keys, keyHash, now).value, keyHash).None?
  {
    var i := FindOne(keys, KeyHashColumn, keyHash).value;
    var r := Revoke(keys, keyHash, now).value;
    assert forall k :: 0 <= k < i ==> r[k] == keys[k];
    FirstAt(r, KeyHashColumn, keyHash, i);
  }

  /** Revoking one key leaves every other key as valid, or as invalid, as
      it was. */
  lemma RevokeKeepsOthers(keys: seq<ApiKeyRecord>, keyHash: string, now: int, k: nat)
    requires Unique(keys) && k < |keys| && keys[k].keyHash != keyHash
    requires Revoke(keys, keyHash, now).Ok?
    ensures Validate(Revoke(keys, keyHash, now).value, keys[k].keyHash) == Validate(keys, keys[k].keyHash)
  {
    var r := Revoke(keys, keyHash, now).value;
    RevokeSameColumns(keys, keyHash, now);
    SameColumnsKeep(keys, r, keys[k].pubkey, keyHash);
    ValidateRow(keys, k);
    ValidateRow(r, k);
  }

  /** Two tables with the same public keys and key hashes, row by row. */
  ghost predicate SameColumns(a: seq<ApiKeyRecord>, b: seq<ApiKeyRecord>) {
    |a| == |b| && forall j :: 0 <= j < |a| ==> a[j].pubkey == b[j].pubkey && a[j].keyHash == b[j].keyHash
  }

  lemma SameColumnsKeep(a: seq<ApiKeyRecord>, b: seq<ApiKeyRecord>, pubkey: string, keyHash: string)
    requires SameColumns(a, b)
    ensures Unique(a) ==> Unique(b)
    ensures Collides(b, pubkey, keyHash) ==> Collides(a, pubkey, keyHash)
  {
    if Collides(b, pubkey, keyHash) {
      var k :| 0 <= k < |b| && b[k].keyHash == keyHash && b[k].pubkey != pubkey;
      assert a[k].keyHash == keyHash && a[k].pubkey != pubkey;
    }
  }

  /** A revoke changes no public key and no key hash. */
  lemma RevokeSameColumns(keys: seq<ApiKeyRecord>, keyHash: string, now: int)
    requires Revoke(keys, keyHash, now).Ok?
    ensures SameColumns(keys, Revoke(keys, keyHash, now).value)
  {
  }

  /** Re-issuing for the owner of a revoked key makes the new key valid
      again, while the revoked key stays invalid. */
  lemma ReissueAfterRevoke(keys: seq<ApiKeyRecord>, k: nat, newHash: string, t1: int, t2: int)
    requires Unique(keys) && k < |keys|
    requires newHash != keys[k].keyHash && !Collides(keys, keys[k].pubkey, newHash)
    ensures var revoked := Revoke(keys, keys[k].keyHash, t1);
      && revoked.Ok?
      && var reissued := Issue(revoked.value, keys[k].pubkey, newHash, t2);
      && Validate(reissued, newHash) == Some(keys[k].pubkey)
      && Validate(reissued, keys[k].keyHash).None?
  {
    var oldHash := keys[k].keyHash;
    var p := keys[k].pubkey;
    ValidateRow(keys, k);
    var revoked := Revoke(keys, oldHash, t1).value;
    RevokeSameColumns(keys, oldHash, t1);
    SameColumnsKeep(keys, revoked, p, newHash);
    IssueThenValidate(revoked, p, newHash, t2);
    var reissued := Issue(revoked, p, newHash, t2);
    FirstAt(revoked, PubkeyColumn, p, k);
    assert forall j :: 0 <= j < |reissued| ==> reissued[j].keyHash != oldHash;
  }

  // ---- The service ----

  class AuthService {
    /** The in-memory challenge map, keyed by public key. */
    var challenges: map<string, Challenge>
    /** The `api_key` table. */
    var keys: seq<ApiKeyRecord>
    /** SHA-256 of a string, as lower-case hex. */
    const sha256: string -> string
    /** The detached ed25519 check of (message, signature, public key). */
    const verify: (string, string, string) -> bool

    ghost predicate Valid()
      reads this
    {
      Unique(keys)
    }

    constructor (sha256: string -> string, verify: (string, string, string) -> bool)
      ensures Valid() && challenges == map[] && keys == []
      ensures this.sha256 == sha256 && this.verify == verify
    {
      this.sha256 := sha256;
      this.verify := verify;
      challenges := map[];
      keys := [];
    }

    /** `generateChallenge(pubkey)`: a fresh nonce replaces any earlier
        challenge of the public key. */
    method GenerateChallenge(pubkey: string, uuid: string, now: int) returns (nonce: string)
      modifies this
      ensures nonce == Nonce(uuid) && nonce[..|NoncePrefix|] == NoncePrefix
      ensures challenges == old(challenges)[pubkey := Challenge(nonce, now + ChallengeTtl)]
      ensures keys == old(keys)
    {
      nonce := NoncePrefix + uuid;
      challenges := challenges[pubkey := Challenge(nonce, now + ChallengeTtl)];
    }

    /** `verifyAndIssueKey(pubkey, signature)`; `entropy` is the hex of the
        32 random bytes of the new key. */
    method VerifyAndIssueKey(pubkey: string, signature: string, now: int, entropy: string)
      returns (r: Result<string, AuthError>)
      requires Valid()
      modifies this
      ensures Valid()
      ensures !Live(old(challenges), pubkey, now) ==>
        r == Err(NoValidChallenge) && challenges == old(challenges) && keys == old(keys)
      ensures Live(old(challenges), pubkey, now) ==> challenges == old(challenges) - {pubkey}
      ensures Live(old(challenges), pubkey, now) && !verify(old(challenges)[pubkey].nonce, signature, pubkey) ==>
        r == Err(SignatureFailed) && keys == old(keys)
      ensures Live(old(challenges), pubkey, now) && verify(old(challenges)[pubkey].nonce, signature, pubkey) ==>
        var rawKey := KeyPrefix + entropy;
        if Collides(old(keys), pubkey, sha256(rawKey)) then r == Err(DuplicateKeyHash) && keys == old(keys)
        else r == Ok(rawKey) && keys == Issue(old(keys), pubkey, sha256(rawKey), now)
    {
      if pubkey !in challenges || now > challenges[pubkey].expiresAt {
        return Err(NoValidChallenge);
      }
      var entry := challenges[pubkey];
      challenges := challenges - {pubkey};
      if !verify(entry.nonce, signature, pubkey) {
        return Err(SignatureFailed);
      }
      var rawKey := KeyPrefix + entropy;
      var keyHash := sha256(rawKey);
      if Collides(keys, pubkey, keyHash) {
        // the flush fails on the unique key hash; nothing is written
        return Err(DuplicateKeyHash);
      }
      IssueKeepsUnique(keys, pubkey, keyHash, now);
      var found := FindOne(keys, PubkeyColumn, pubkey);
      if found.Some? {
        var i := found.value;
        keys := keys[i := keys[i].(keyHash := keyHash, createdAt := now, revokedAt := None)];
      } else {
        keys := keys + [ApiKeyRecord(pubkey, keyHash, now, None)];
      }
      return Ok(rawKey);
    }

    /** `validateKey(rawKey)`: the owner of a live key, nothing otherwise. */
    method ValidateKey(rawKey: string) returns (r: Option<string>)
      ensures r == Validate(keys, sha256(rawKey))
    {
      var found := FindOne(keys, KeyHashColumn, sha256(rawKey));
      if found.None? || keys[found.value].revokedAt.Some? {
        return None;
      }
      return Some(keys[found.value].pubkey);
    }

    /** `revokeKey(rawKey)`. */
    method RevokeKey(rawKey: string, now: int) returns (r: Result<(), AuthError>)
      requires Valid()
      modifies this
      ensures Valid()
      ensures challenges == old(challenges)
      ensures match Revoke(old(keys), sha256(rawKey), now)
        case Err(e) => r == Err(e) && keys == old(keys)
        case Ok(k) => r == Ok(()) && keys == k
    {
      var found := FindOne(keys, KeyHashColumn, sha256(rawKey));
      if found.None? {
        return Err(KeyNotFound);
      }
      var i := found.value;
      assert forall j :: 0 <= j < |keys| ==>
        keys[i := keys[i].(revokedAt := Some(now))][j].pubkey == keys[j].pubkey &&
        keys[i := keys[i].(revokedAt := Some(now))][j].keyHash == keys[j].keyHash;
      keys := keys[i := keys[i].(revokedAt := Some(now))];
      return Ok(());
    }
  }
}
