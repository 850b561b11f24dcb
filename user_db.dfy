/** The mock user database shared by the account pages (the `mockUserDB`
    storage key): a JavaScript `Map` from email to record, stored as its
    list of entries. A `Map` keeps its keys unique and remembers the order
    in which they were first set. */
module UserDb {
  import opened Common

  datatype Role = Admin | Student | Visitor

  /** One stored account. `joinDate` and `lastLogin` (milliseconds) are
      written only by the user list, never by registration. */
  datatype DbRecord = DbRecord(
    name: string, role: Role, password: string, phone: Option<string>,
    address: Option<string>, joinDate: Option<int>, lastLogin: Option<int>)

  datatype Entry = Entry(email: string, rec: DbRecord)

  predicate KeysUnique(db: seq<Entry>)
  {
    forall i, j :: 0 <= i < j < |db| ==> db[i].email != db[j].email
  }

  /** `map.has(key)`. */
  predicate Has(db: seq<Entry>, key: string)
  {
    exists i :: 0 <= i < |db| && db[i].email == key
  }

  /** Position of the first entry with the key. */
  function IndexOfKey(db: seq<Entry>, key: string): (r: Option<nat>)
    ensures r.None? <==> !Has(db, key)
    ensures r.Some? ==>
      r.value < |db| && db[r.value].email == key && (forall i :: 0 <= i < r.value ==> db[i].email != key)
  {
    if db == [] then None
    else if db[0].email == key then Some(0)
    else
      var k := IndexOfKey(db[1..], key);
      if k.None? then
        assert forall i :: 1 <= i < |db| ==> db[i].email == db[1..][i - 1].email;
        None
      else Some(k.value + 1)
  }

  /** `map.get(key)`. */
  function Get(db: seq<Entry>, key: string): (r: Option<DbRecord>)
    ensures r.None? <==> !Has(db, key)
    ensures r.Some? ==> exists i :: 0 <= i < |db| && db[i] == Entry(key, r.value)
  {
    var k := IndexOfKey(db, key);
    if k.None? then None else Some(db[k.value].rec)
  }

  /** `map.set(key, rec)`: replaces the record in place when the key is
      present, otherwise appends a new entry. */
  function Set(db: seq<Entry>, key: string, rec: DbRecord): (r: seq<Entry>)
    ensures Has(db, key) ==> |r| == |db|
    ensures !Has(db, key) ==> r == db + [Entry(key, rec)]
  {
    var k := IndexOfKey(db, key);
    if k.None? then db + [Entry(key, rec)] else db[k.value := Entry(key, rec)]
  }

  /** The stored value of the `mockUserDB` key; `None` when the key is
      absent. */
  class UserStore {
    var entries: Option<seq<Entry>>

    constructor (saved: Option<seq<Entry>>)
      ensures entries == saved
    {
      entries := saved;
    }
  }

  // -----------------------------------------------------------------------
  // Properties

  /** `set` keeps keys unique, makes `get` return the new record, and leaves
      every other key's record as it was. */
  lemma SetGet(db: seq<Entry>, key: string, rec: DbRecord, other: string)
    requires KeysUnique(db)
    ensures KeysUnique(Set(db, key, rec))
    ensures Get(Set(db, key, rec), key) == Some(rec)
    ensures other != key ==> Get(Set(db, key, rec), other) == Get(db, other)
    ensures Has(Set(db, key, rec), other) <==> Has(db, other) || other == key
  {
    SetReads(db, key, rec, other);
    SetKeys(db, key, rec, other);
  }

  /** After `set`, the key reads as the new record and every other key as
      before. */
  lemma SetReads(db: seq<Entry>, key: string, rec: DbRecord, other: string)
    requires KeysUnique(db)
    ensures KeysUnique(Set(db, key, rec))
    ensures Get(Set(db, key, rec), key) == Some(rec)
    ensures other != key ==> Get(Set(db, key, rec), other) == Get(db, other)
  {
    var r := Set(db, key, rec);
    var k := IndexOfKey(db, key);
    var at := if k.Some? then k.value else |db|;
    assert forall i :: 0 <= i < |db| && i != at ==> r[i] == db[i];
    assert r[at] == Entry(key, rec);
    GetAt(r, at);
    if other != key && Has(db, other) {
      var j := IndexOfKey(db, other).value;
      GetAt(r, j);
      GetAt(db, j);
    }
  }

  /** After `set`, the keys are the old keys and the one key. */
  lemma SetKeys(db: seq<Entry>, key: string, rec: DbRecord, other: string)
    requires KeysUnique(db)
    ensures Has(Set(db, key, rec), other) <==> Has(db, other) || other == key
  {
    var r := Set(db, key, rec);
    var k := IndexOfKey(db, key);
    if k.Some? {
      assert r[k.value].email == key;
      if Has(db, other) && other != key {
        var j := IndexOfKey(db, other).value;
        assert r[j] == db[j];
      }
      if Has(r, other) {
        var j :| 0 <= j < |r| && r[j].email == other;
        assert db[j].email == other;
      }
    } else {
      assert r[|db|].email == key;
      if Has(db, other) {
        var j := IndexOfKey(db, other).value;
        assert r[j] == db[j];
      }
      var ko := IndexOfKey(r, other);
      if ko.Some? && other != key {
        assert ko.value < |db|;
      }
    }
  }

  /** With unique keys, the entry at position `i` is what `get` returns for
      its key. */
  lemma GetAt(db: seq<Entry>, i: nat)
    requires KeysUnique(db) && i < |db|
    ensures Get(db, db[i].email) == Some(db[i].rec)
  {
    var k := IndexOfKey(db, db[i].email);
    assert k == Some(i);
  }
}
