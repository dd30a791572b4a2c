/**
 * Stored secrets (packages/crypto/src/envelope.ts, packages/crypto/src/secret-store.ts), over a symbolic cipher:
 * a box opens with the key and the context it was sealed with, and with nothing else.
 */
module SecretStore {
  import opened Prelude

  type Bytes = seq<int>

  const KEY_BYTES := 32
  const CURRENT_KEY_VERSION := 1
  const ALGORITHM := "aes-256-gcm"

  /** A key is drawn at random, or derived from a master key for one version of the derivation. */
  datatype Key = Random(bytes: Bytes) | Derived(master: Bytes, version: int)

  /** Ciphertext, initialisation vector and authentication tag together; altered, they are no box at all. */
  datatype Box<T> = Sealed(key: Key, content: T, aad: Option<string>) | Altered

  datatype Error = BadMasterKey | UnsupportedAlgorithm | DecryptionError | SecretNotFound

  datatype EncryptedSecret = EncryptedSecret(payload: Box<Bytes>, wrappedDek: Box<Key>, keyVersion: int,
                                             algorithm: string)

  datatype SecretRecord = SecretRecord(secret: EncryptedSecret, aad: Option<string>)

  // ---------------------------------------------------------------------------
  // The envelope
  // ---------------------------------------------------------------------------

  function DeriveKek(masterKey: Bytes, keyVersion: int): Result<Key, Error> {
    if |masterKey| != KEY_BYTES then Err(BadMasterKey) else Ok(Derived(masterKey, keyVersion))
  }

  function Open<T>(key: Key, box: Box<T>, aad: Option<string>): Result<T, Error> {
    if box.Sealed? && box.key == key && box.aad == aad then Ok(box.content) else Err(DecryptionError)
  }

  /** An empty context is no context. */
  function Context(aad: Option<string>): Option<string> {
    if aad == Some("") then None else aad
  }

  function EncryptSecret(masterKey: Bytes, plaintext: Bytes, aad: Option<string>, keyVersion: int,
                         dek: Key): Result<EncryptedSecret, Error> {
    match DeriveKek(masterKey, keyVersion)
    case Err(e) => Err(e)
    case Ok(kek) =>
      Ok(EncryptedSecret(Sealed(dek, plaintext, Context(aad)), Sealed(kek, dek, None), keyVersion, ALGORITHM))
  }

  function DecryptSecret(masterKey: Bytes, secret: EncryptedSecret, aad: Option<string>): Result<Bytes, Error> {
    if secret.algorithm != ALGORITHM then Err(UnsupportedAlgorithm)
    else match DeriveKek(masterKey, secret.keyVersion)
      case Err(e) => Err(e)
      case Ok(kek) =>
        match Open(kek, secret.wrappedDek, None)
        case Err(e) => Err(e)
        case Ok(dek) => Open(dek, secret.payload, Context(aad))
  }

  function RewrapSecret(currentMasterKey: Bytes, newMasterKey: Bytes, secret: EncryptedSecret,
                        newKeyVersion: int): Result<EncryptedSecret, Error> {
    match DeriveKek(currentMasterKey, secret.keyVersion)
    case Err(e) => Err(e)
    case Ok(oldKek) =>
      match DeriveKek(newMasterKey, newKeyVersion)
      case Err(e) => Err(e)
      case Ok(newKek) =>
        match Open(oldKek, secret.wrappedDek, None)
        case Err(e) => Err(e)
        case Ok(dek) => Ok(secret.(wrappedDek := Sealed(newKek, dek, None), keyVersion := newKeyVersion))
  }

  predicate Blank(aad: Option<string>) {
    aad == None || aad == Some("")
  }

  /** What was encrypted comes back with the same key and context, and with no other; an empty context is like none. */
  lemma OpensIff(masterKey: Bytes, plaintext: Bytes, aad: Option<string>, keyVersion: int, dek: Key, otherKey: Bytes,
                 otherAad: Option<string>)
    requires |masterKey| == KEY_BYTES
    ensures var secret := EncryptSecret(masterKey, plaintext, aad, keyVersion, dek);
            && secret.Ok?
            && (DecryptSecret(otherKey, secret.value, otherAad).Ok?
                <==> otherKey == masterKey && (otherAad == aad || (Blank(otherAad) && Blank(aad))))
            && DecryptSecret(masterKey, secret.value, aad) == Ok(plaintext)
  {
  }

  /** What decrypts to a text is what encrypting that text gives, with some key of its own: nothing else is taken. */
  lemma DecryptsIffEncrypted(masterKey: Bytes, secret: EncryptedSecret, aad: Option<string>, plaintext: Bytes)
    ensures DecryptSecret(masterKey, secret, aad) == Ok(plaintext) <==>
      exists dek :: EncryptSecret(masterKey, plaintext, aad, secret.keyVersion, dek) == Ok(secret)
  {
    if DecryptSecret(masterKey, secret, aad) == Ok(plaintext) {
      var dek := Open(DeriveKek(masterKey, secret.keyVersion).value, secret.wrappedDek, None).value;
      assert EncryptSecret(masterKey, plaintext, aad, secret.keyVersion, dek) == Ok(secret);
    }
  }

  /**
   * Rewrapping leaves the payload, and what decrypting it gives, good or bad, as they were; only the key is another.
   */
  lemma RewrapKeepsMeaning(currentKey: Bytes, newKey: Bytes, secret: EncryptedSecret, newKeyVersion: int,
                           aad: Option<string>)
    requires RewrapSecret(currentKey, newKey, secret, newKeyVersion).Ok?
    ensures var next := RewrapSecret(currentKey, newKey, secret, newKeyVersion).value;
            && next.payload == secret.payload && next.algorithm == secret.algorithm && next.keyVersion == newKeyVersion
            && DecryptSecret(newKey, next, aad) == DecryptSecret(currentKey, secret, aad)
            && (currentKey != newKey ==> DecryptSecret(currentKey, next, aad).Err?)
  {
  }

  /** What can be read can be rewrapped, to any key of the right length. */
  lemma ReadableCanBeRewrapped(currentKey: Bytes, newKey: Bytes, secret: EncryptedSecret, aad: Option<string>)
    requires DecryptSecret(currentKey, secret, aad).Ok? && |newKey| == KEY_BYTES
    ensures RewrapSecret(currentKey, newKey, secret, CURRENT_KEY_VERSION).Ok?
  {
  }

  // ---------------------------------------------------------------------------
  // The rows
  // ---------------------------------------------------------------------------

  /** The n-th secret stored has reference n. */
  class SecretRepository {
    var rows: map<nat, SecretRecord>
    var order: seq<nat>
    var sequence: nat

    ghost predicate Valid()
      reads this
    {
      && Distinct(order)
      && (forall id :: id in order <==> id in rows)
      && (forall id :: id in rows ==> id <= sequence)
    }

    constructor ()
      ensures Valid() && rows == map[] && order == []
    {
      rows, order, sequence := map[], [], 0;
    }

    method Insert(record: SecretRecord) returns (id: nat)
      requires Valid()
      modifies this
      ensures Valid() && id !in old(rows) && rows == old(rows)[id := record] && order == old(order) + [id]
    {
      sequence := sequence + 1;
      id := sequence;
      assert id !in order by { assert id !in rows; }
      rows := rows[id := record];
      order := order + [id];
    }

    method DeleteById(id: nat)
      requires Valid()
      modifies this
      ensures Valid() && rows == old(rows) - {id}
    {
      rows := rows - {id};
      order := Without(order, id);
      WithoutDistinct(old(order), id);
    }

    method UpdateWrapping(id: nat, wrappedDek: Box<Key>, keyVersion: int)
      requires Valid()
      modifies this`rows
      ensures Valid()
      ensures rows == if id in old(rows) then old(rows)[id := Rewrapped(old(rows)[id], wrappedDek, keyVersion)]
        else old(rows)
    {
      if id in rows {
        rows := rows[id := Rewrapped(rows[id], wrappedDek, keyVersion)];
      }
    }
  }

  function Rewrapped(record: SecretRecord, wrappedDek: Box<Key>, keyVersion: int): SecretRecord {
    record.(secret := record.secret.(wrappedDek := wrappedDek, keyVersion := keyVersion))
  }

  function Without(s: seq<nat>, x: nat): (r: seq<nat>)
    ensures forall y :: y in r <==> y in s && y != x
  {
    if s == [] then [] else (if s[0] == x then [] else [s[0]]) + Without(s[1..], x)
  }

  lemma {:induction false} WithoutDistinct(s: seq<nat>, x: nat)
    requires Distinct(s)
    ensures Distinct(Without(s, x))
  {
    if s != [] {
      WithoutDistinct(s[1..], x);
      assert s[0] !in s[1..];
      var rest := Without(s[1..], x);
      assert forall j :: 0 <= j < |rest| ==> rest[j] in rest;
    }
  }

  // ---------------------------------------------------------------------------
  // The store
  // ---------------------------------------------------------------------------

  /** What reading a reference gives under a key. */
  function Read(rows: map<nat, SecretRecord>, id: nat, masterKey: Bytes): Result<Bytes, Error> {
    if id !in rows then Err(SecretNotFound) else DecryptSecret(masterKey, rows[id].secret, rows[id].aad)
  }

  function Unwrapped(rows: map<nat, SecretRecord>, id: nat, oldKey: Bytes,
                     newKey: Bytes): Result<EncryptedSecret, Error>
    requires id in rows
  {
    RewrapSecret(oldKey, newKey, rows[id].secret, CURRENT_KEY_VERSION)
  }

  predicate IsRewrapped(before: map<nat, SecretRecord>, after: map<nat, SecretRecord>, id: nat, oldKey: Bytes,
                        newKey: Bytes)
    requires id in before && id in after
  {
    var next := Unwrapped(before, id, oldKey, newKey);
    next.Ok? && after[id] == SecretRecord(next.value, before[id].aad)
  }

  /** The rows when the first k, in order, are rewrapped and the others untouched. */
  ghost predicate RewrappedUpTo(before: map<nat, SecretRecord>, after: map<nat, SecretRecord>, order: seq<nat>, k: nat,
                                oldKey: Bytes, newKey: Bytes)
    requires k <= |order|
  {
    && after.Keys == before.Keys
    && (forall i :: 0 <= i < |order| ==> order[i] in before)
    && (forall i :: 0 <= i < k ==> IsRewrapped(before, after, order[i], oldKey, newKey))
    && (forall i :: k <= i < |order| ==> after[order[i]] == before[order[i]])
  }

  class DatabaseSecretStore {
    const repository: SecretRepository
    const masterKey: Bytes

    constructor (repository: SecretRepository, masterKey: Bytes)
      ensures this.repository == repository && this.masterKey == masterKey
    {
      this.repository, this.masterKey := repository, masterKey;
    }

    /** Stores material under a random data key, and returns its reference. */
    method Put(material: Bytes, aad: Option<string>, dek: Key) returns (r: Result<nat, Error>)
      requires repository.Valid()
      modifies repository
      ensures repository.Valid()
      ensures r.Ok? <==> |masterKey| == KEY_BYTES
      ensures r.Err? ==> repository.rows == old(repository.rows)
      ensures r.Ok? ==>
        r.value !in old(repository.rows) && repository.rows.Keys == old(repository.rows.Keys) + {r.value}
      ensures r.Ok? ==> Read(repository.rows, r.value, masterKey) == Ok(material)
      ensures forall id :: id in old(repository.rows) ==> repository.rows[id] == old(repository.rows[id])
    {
      var encrypted := EncryptSecret(masterKey, material, aad, CURRENT_KEY_VERSION, dek);
      if encrypted.Err? {
        return Err(encrypted.error);
      }
      OpensIff(masterKey, material, aad, CURRENT_KEY_VERSION, dek, masterKey, aad);
      var id := repository.Insert(SecretRecord(encrypted.value, aad));
      r := Ok(id);
    }

    method Get(ref: nat) returns (r: Result<Bytes, Error>)
      ensures r == Read(repository.rows, ref, masterKey)
    {
      if ref !in repository.rows {
        return Err(SecretNotFound);
      }
      var record := repository.rows[ref];
      r := DecryptSecret(masterKey, record.secret, record.aad);
    }

    method Delete(ref: nat)
      requires repository.Valid()
      modifies repository
      ensures repository.Valid()
      ensures forall id, key ::
        Read(repository.rows, id, key) == if id == ref then Err(SecretNotFound) else Read(old(repository.rows), id, key)
    {
      repository.DeleteById(ref);
    }

    /** Rewraps every secret, one row after the other; `done` rows when it ends, or when one fails. */
    method Rewrap(newMasterKey: Bytes) returns (r: Result<nat, Error>, ghost done: nat)
      requires repository.Valid()
      modifies repository
      ensures repository.Valid() && repository.order == old(repository.order)
      ensures done <= |repository.order|
      ensures RewrappedUpTo(old(repository.rows), repository.rows, repository.order, done, masterKey, newMasterKey)
      ensures r.Ok? <==> done == |repository.order|
      ensures r.Ok? ==> r.value == done
      ensures r.Err? ==>
        Unwrapped(old(repository.rows), repository.order[done], masterKey, newMasterKey) == Err(r.error)
    {
      var order, snapshot := repository.order, repository.rows;
      var k := 0;
      while k < |order|
        invariant 0 <= k <= |order|
        invariant repository.Valid() && repository.order == order
        invariant RewrappedUpTo(snapshot, repository.rows, order, k, masterKey, newMasterKey)
      {
        var id := order[k];
        var record := snapshot[id];
        var next := RewrapSecret(masterKey, newMasterKey, record.secret, CURRENT_KEY_VERSION);
        if next.Err? {
          return Err(next.error), k;
        }
        ghost var rows := repository.rows;
        repository.UpdateWrapping(id, next.value.wrappedDek, next.value.keyVersion);
        OneMoreRewrapped(snapshot, rows, repository.rows, order, k, masterKey, newMasterKey);
        k := k + 1;
      }
      return Ok(k), k;
    }
  }

  lemma OneMoreRewrapped(before: map<nat, SecretRecord>, rows: map<nat, SecretRecord>, after: map<nat, SecretRecord>,
                         order: seq<nat>, k: nat, oldKey: Bytes, newKey: Bytes)
    requires Distinct(order) && k < |order|
    requires RewrappedUpTo(before, rows, order, k, oldKey, newKey)
    requires Unwrapped(before, order[k], oldKey, newKey).Ok?
    requires var next := Unwrapped(before, order[k], oldKey, newKey).value;
             after == rows[order[k] := Rewrapped(rows[order[k]], next.wrappedDek, next.keyVersion)]
    ensures RewrappedUpTo(before, after, order, k + 1, oldKey, newKey)
  {
  }

  // ---------------------------------------------------------------------------
  // Nothing is lost on the way
  // ---------------------------------------------------------------------------

  /**
   * At every point of a rewrap each secret still gives what it gave: under the new key when its row has been done,
   * under the old one when not; and its payload and context are as they were.
   */
  lemma ReadableThroughout(before: map<nat, SecretRecord>, after: map<nat, SecretRecord>, order: seq<nat>, k: nat,
                           oldKey: Bytes, newKey: Bytes, i: nat)
    requires k <= |order| && i < |order| && RewrappedUpTo(before, after, order, k, oldKey, newKey)
    ensures Read(after, order[i], if i < k then newKey else oldKey) == Read(before, order[i], oldKey)
    ensures after[order[i]].secret.payload == before[order[i]].secret.payload
      && after[order[i]].aad == before[order[i]].aad
    ensures i < k && oldKey != newKey ==> Read(after, order[i], oldKey).Err?
  {
    if i < k {
      RewrapKeepsMeaning(oldKey, newKey, before[order[i]].secret, CURRENT_KEY_VERSION, before[order[i]].aad);
    }
  }

  /** When every secret can be read, a rewrap to a key of the right length goes through to the end. */
  lemma RewrapGoesThrough(before: map<nat, SecretRecord>, order: seq<nat>, k: nat, oldKey: Bytes, newKey: Bytes)
    requires k < |order| && order[k] in before && Read(before, order[k], oldKey).Ok? && |newKey| == KEY_BYTES
    ensures Unwrapped(before, order[k], oldKey, newKey).Ok?
  {
    ReadableCanBeRewrapped(oldKey, newKey, before[order[k]].secret, before[order[k]].aad);
  }

  /**
   * A rewrap that got any row done, whether it stopped there or not, cannot be run again from the store it was run
   * from: to whatever key, it fails at the first row and changes nothing.
   */
  lemma RewrapIsNotRepeated(before: map<nat, SecretRecord>, between: map<nat, SecretRecord>,
                            after: map<nat, SecretRecord>, order: seq<nat>, k: nat, done: nat, oldKey: Bytes,
                            newKey: Bytes, other: Bytes)
    requires 0 < k <= |order| && oldKey != newKey && forall id :: id in between ==> id in order
    requires RewrappedUpTo(before, between, order, k, oldKey, newKey)
    requires done <= |order| && RewrappedUpTo(between, after, order, done, oldKey, other)
    ensures Unwrapped(between, order[0], oldKey, other).Err?
    ensures done == 0 && after == between
  {
    DoneIsNotRewrapped(before, between, order[0], oldKey, newKey, other);
    if done > 0 {
      assert false;
    }
    forall id | id in between ensures after[id] == between[id] {
      var i :| 0 <= i < |order| && order[i] == id;
    }
  }

  lemma DoneIsNotRewrapped(before: map<nat, SecretRecord>, between: map<nat, SecretRecord>, id: nat,
                           oldKey: Bytes, newKey: Bytes, other: Bytes)
    requires id in before && id in between && oldKey != newKey && IsRewrapped(before, between, id, oldKey, newKey)
    ensures Unwrapped(between, id, oldKey, other).Err?
  {
  }
}
