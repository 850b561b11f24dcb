/** The "clear all student data" utility (clearData.ts): it rewrites the
    user database without the students, drops every pre-enrollment and
    ends a student's session, one storage key after another. */
module ClearData {
  import opened Common
  import opened UserDb
  import Auth = AuthContext
  import CC = CourseContext

  /** A storage key as the utility finds it: absent, holding text that
      `JSON.parse` rejects, or holding a value. */
  datatype Slot<T> = Missing | Unparsable | Stored(value: T)

  datatype ClearResult = ClearResult(success: bool, message: string)

  const SuccessMessage := "All student data has been cleared successfully."
  const FailureMessage := "Failed to clear student data. Please try again."

  /** An entry survives when it is the administrator's email or not a
      student. */
  predicate Survives(e: Entry)
  {
    e.email == Auth.AdminEmail || e.rec.role != Student
  }

  function Kept(db: seq<Entry>): (r: seq<Entry>)
    ensures forall i :: 0 <= i < |r| ==> Survives(r[i]) && r[i] in db
    ensures forall i :: 0 <= i < |db| && Survives(db[i]) ==> db[i] in r
  {
    Filter(db, Survives)
  }

  /** The keys the utility touches. The stored session is read only for its
      role; a stored `null` (`Stored(None)`) has none and makes the role
      lookup throw. */
  class Storage {
    var mockUserDB: Slot<seq<Entry>>
    var preEnrollments: bool
    var user: Slot<Option<Role>>
    var courses: Option<seq<CC.Course>>

    constructor (mockUserDB: Slot<seq<Entry>>, preEnrollments: bool, user: Slot<Option<Role>>, courses: Option<seq<CC.Course>>)
      ensures this.mockUserDB == mockUserDB && this.preEnrollments == preEnrollments
      ensures this.user == user && this.courses == courses
    {
      this.mockUserDB := mockUserDB;
      this.preEnrollments := preEnrollments;
      this.user := user;
      this.courses := courses;
    }

    /** Each step writes before the next may throw, so a failure keeps the
        steps already done. */
    method ClearAllStudentData() returns (r: ClearResult)
      modifies this
      ensures courses == old(courses)
      ensures old(mockUserDB).Unparsable? ==>
        r == ClearResult(false, FailureMessage) && mockUserDB == old(mockUserDB)
        && preEnrollments == old(preEnrollments) && user == old(user)
      ensures !old(mockUserDB).Unparsable? ==>
        && mockUserDB == (if old(mockUserDB).Stored? then Stored(Kept(old(mockUserDB).value)) else Missing)
        && !preEnrollments
        && (old(user).Unparsable? || old(user) == Stored(None) ==>
              r == ClearResult(false, FailureMessage) && user == old(user))
        && (!old(user).Unparsable? && old(user) != Stored(None) ==>
              r == ClearResult(true, SuccessMessage)
              && user == if old(user) == Stored(Some(Student)) then Missing else old(user))
    {
      if mockUserDB.Unparsable? {
        return ClearResult(false, FailureMessage);
      }
      if mockUserDB.Stored? {
        mockUserDB := Stored(Kept(mockUserDB.value));
      }
      preEnrollments := false;
      if user.Unparsable? || user == Stored(None) {
        return ClearResult(false, FailureMessage);
      }
      if user == Stored(Some(Student)) {
        user := Missing;
      }
      r := ClearResult(true, SuccessMessage);
    }
  }

  // -----------------------------------------------------------------------
  // Properties

  /** After the filter, the only student entry left can be the
      administrator's email, and every other entry is kept. */
  lemma KeptEntries(db: seq<Entry>)
    ensures forall i :: 0 <= i < |Kept(db)| && Kept(db)[i].rec.role == Student ==> Kept(db)[i].email == Auth.AdminEmail
    ensures forall i :: 0 <= i < |db| && db[i].rec.role != Student ==> db[i] in Kept(db)
  {
  }

  /** The filter keeps the surviving entries in their original order (it
      distributes over concatenation), keeps keys unique, and a second run
      changes nothing. */
  lemma KeptInOrder(db: seq<Entry>, more: seq<Entry>)
    ensures Kept(db + more) == Kept(db) + Kept(more)
    ensures Kept(Kept(db)) == Kept(db)
  {
    FilterConcat(db, more, Survives);
    FilterIdempotent(db, Survives);
  }

  lemma {:induction false} KeptKeysUnique(db: seq<Entry>)
    requires KeysUnique(db)
    ensures KeysUnique(Kept(db))
  {
    if db != [] {
      KeptKeysUnique(db[1..]);
      var tail := Kept(db[1..]);
      if Survives(db[0]) {
        var r := Kept(db);
        assert r == [db[0]] + tail;
        forall j | 0 < j < |r|
          ensures r[0].email != r[j].email
        {
          assert r[j] == tail[j - 1];
          assert r[j] in db[1..];
          var m :| 0 <= m < |db[1..]| && db[1..][m] == r[j];
          assert db[m + 1] == r[j];
        }
      }
    }
  }

  /** A database with no students is left exactly as it was. */
  lemma NoStudentsUntouched(db: seq<Entry>)
    requires forall i :: 0 <= i < |db| ==> db[i].rec.role != Student
    ensures Kept(db) == db
  {
    FilterAll(db, Survives);
  }
}
