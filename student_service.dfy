/**
 * The in-memory student store of the student API: a hash map from id to
 * student and a `long` counter that hands out ids, starting at 1.
 *
 * The first half states the store as a value (Store) with one function per
 * service operation, and proves what runs of operations do to it; the second
 * half is the service object itself (StudentService), whose methods update
 * its two fields in place and are proved against those functions.
 */
module StudentApi {
  import opened JavaBase

  /** A student record; `id` is null until the service assigns one. */
  datatype Student = Student(id: Option<Long>, name: string, email: string, course: string)

  /** The service's whole state: the map and the next id to hand out. */
  datatype Store = Store(students: map<Long, Student>, currentId: Long)

  /** A new service: empty map, counter at 1. */
  const Initial: Store := Store(map[], 1)

  /** The state after a call and the student the call returned. */
  datatype Outcome = Outcome(store: Store, student: Student)

  // ---------------------------------------------------------------------------
  // The operations, on values

  /** createStudent: stamp the counter's value on the student, advance the counter, put. */
  function Create(st: Store, s: Student): (r: Outcome)
    ensures r.student.id == Some(st.currentId)
    ensures r.student.(id := s.id) == s
    ensures r.store.currentId == Increment(st.currentId)
    ensures Get(r.store, st.currentId) == Some(r.student)
    ensures forall k :: k != st.currentId ==> Get(r.store, k) == Get(st, k)
  {
    var created := s.(id := Some(st.currentId));
    Outcome(Store(st.students[st.currentId := created], Increment(st.currentId)), created)
  }

  /** getStudentById: the mapped student, or null. */
  function Get(st: Store, id: Long): (r: Option<Student>)
    ensures r.Some? <==> id in st.students
    ensures r.Some? ==> r.value == st.students[id]
  {
    if id in st.students then Some(st.students[id]) else None
  }

  /** updateStudent: force the path id onto the student and put it, present or not. */
  function Update(st: Store, id: Long, s: Student): (r: Outcome)
    ensures r.student.id == Some(id)
    ensures r.student.(id := s.id) == s
    ensures Get(r.store, id) == Some(r.student)
    ensures forall k :: k != id ==> Get(r.store, k) == Get(st, k)
    ensures r.store.currentId == st.currentId
  {
    var updated := s.(id := Some(id));
    Outcome(st.(students := st.students[id := updated]), updated)
  }

  /** deleteStudent: remove the key; report whether something was removed. */
  function Delete(st: Store, id: Long): (r: (Store, bool))
    ensures r.1 <==> Get(st, id).Some?
    ensures Get(r.0, id) == None
    ensures forall k :: k != id ==> Get(r.0, k) == Get(st, k)
    ensures r.0.currentId == st.currentId
  {
    (st.(students := st.students - {id}), id in st.students)
  }

  // ---------------------------------------------------------------------------
  // Invariants of the store

  /** Every key is below the counter, so the next create cannot hit a stored entry. */
  ghost predicate KeysBelowCounter(st: Store) {
    forall k :: k in st.students ==> k < st.currentId
  }

  /** Every stored student carries its own key as id. */
  ghost predicate IdsMatchKeys(st: Store) {
    forall k :: k in st.students ==> st.students[k].id == Some(k)
  }

  /**
   * With every key below the counter, create inserts a key that was absent,
   * so it adds exactly one entry and loses none; and unless the counter
   * is at Long.MAX_VALUE (where ++ wraps), the invariant still holds.
   */
  lemma CreateIsFresh(st: Store, s: Student)
    requires KeysBelowCounter(st)
    ensures Get(st, st.currentId) == None
    ensures |Create(st, s).store.students| == |st.students| + 1
    ensures st.currentId < LongMax ==> KeysBelowCounter(Create(st, s).store)
  {
  }

  /** At Long.MAX_VALUE the counter wraps to Long.MIN_VALUE and the invariant is lost. */
  lemma CreateAtLongMaxWraps(st: Store, s: Student)
    requires st.currentId == LongMax
    ensures Create(st, s).store.currentId == LongMin
    ensures !KeysBelowCounter(Create(st, s).store)
  {
    assert LongMax in Create(st, s).store.students;
  }

  /** An update at or above the counter breaks the invariant. */
  lemma UpdateAtOrAboveCounterBreaksInvariant(st: Store, id: Long, s: Student)
    requires id >= st.currentId
    ensures !KeysBelowCounter(Update(st, id, s).store)
  {
    assert id in Update(st, id, s).store.students;
  }

  /**
   * Once the counter's value is a key, the next create overwrites that entry:
   * the map does not grow and the student that was there is gone from it.
   */
  lemma CreateOverwritesWhenCounterIsKey(st: Store, s: Student)
    requires IdsMatchKeys(st) && st.currentId in st.students
    ensures |Create(st, s).store.students| == |st.students|
    ensures var lost := st.students[st.currentId];
            lost != Create(st, s).student ==> lost !in Create(st, s).store.students.Values
  {
    var after := Create(st, s);
    var lost := st.students[st.currentId];
    assert after.store.students.Keys == st.students.Keys;
    if lost != after.student {
      forall k | k in after.store.students
        ensures after.store.students[k] != lost
      {
        if k != st.currentId {
          assert after.store.students[k].id == Some(k);
        }
      }
    }
  }

  /**
   * Concretely: on a new service, updateStudent(1, a) followed by
   * createStudent(b) leaves one entry, b with id 1; a is lost.
   */
  lemma UpdateThenCreateLosesStudent(a: Student, b: Student)
    ensures var afterUpdate := Update(Initial, 1, a).store;
            var afterCreate := Create(afterUpdate, b).store;
            && KeysBelowCounter(Initial)
            && !KeysBelowCounter(afterUpdate)
            && Get(afterUpdate, 1) == Some(a.(id := Some(1)))
            && afterCreate.students == map[1 := b.(id := Some(1))]
  {
    var afterUpdate := Update(Initial, 1, a).store;
    assert 1 in afterUpdate.students;
  }

  /** An update below the counter (for instance of an existing student) keeps the invariant. */
  lemma UpdateBelowCounterKeepsInvariant(st: Store, id: Long, s: Student)
    requires KeysBelowCounter(st) && id < st.currentId
    ensures KeysBelowCounter(Update(st, id, s).store)
  {
  }

  /** Delete keeps the invariant, and a second delete of the same id reports false. */
  lemma DeleteTwice(st: Store, id: Long)
    ensures KeysBelowCounter(st) ==> KeysBelowCounter(Delete(st, id).0)
    ensures !Delete(Delete(st, id).0, id).1
    ensures Delete(Delete(st, id).0, id).0 == Delete(st, id).0
  {
  }

  /** Every operation that stores a student stamps it with its key. */
  lemma OperationsKeepIdsMatchKeys(st: Store, id: Long, s: Student)
    requires IdsMatchKeys(st)
    ensures IdsMatchKeys(Create(st, s).store)
    ensures IdsMatchKeys(Update(st, id, s).store)
    ensures IdsMatchKeys(Delete(st, id).0)
  {
  }

  /** keys lists every key of m exactly once. */
  ghost predicate Enumerates(keys: seq<Long>, m: map<Long, Student>) {
    && (forall i :: 0 <= i < |keys| ==> keys[i] in m)
    && (forall k :: k in m ==> k in keys)
    && (forall i, j :: 0 <= i < j < |keys| ==> keys[i] != keys[j])
  }

  /** r holds the values of m, one per key, in some order of the keys. */
  ghost predicate ListsValues(r: seq<Student>, m: map<Long, Student>) {
    exists keys :: Enumerates(keys, m) && |keys| == |r|
                   && forall i :: 0 <= i < |r| ==> r[i] == m[keys[i]]
  }

  // ---------------------------------------------------------------------------
  // Runs of operations

  datatype Op =
    | CreateOp(student: Student)
    | GetOp(id: Long)
    | UpdateOp(id: Long, student: Student)
    | DeleteOp(id: Long)
    | ListOp

  /** The state after one service call. */
  function Apply(st: Store, op: Op): Store {
    match op
    case CreateOp(s) => Create(st, s).store
    case GetOp(_) => st
    case UpdateOp(id, s) => Update(st, id, s).store
    case DeleteOp(id) => Delete(st, id).0
    case ListOp => st
  }

  function Run(st: Store, ops: seq<Op>): Store
    decreases |ops|
  {
    if ops == [] then st else Run(Apply(st, ops[0]), ops[1..])
  }

  /** The number of creates in a run. */
  function Creates(ops: seq<Op>): nat {
    if ops == [] then 0 else (if ops[0].CreateOp? then 1 else 0) + Creates(ops[1..])
  }

  /** Only create moves the counter, by one each time; nothing moves it back. */
  lemma {:induction false} RunAdvancesCounterByCreates(st: Store, ops: seq<Op>)
    requires st.currentId + Creates(ops) <= LongMax
    ensures Run(st, ops).currentId == st.currentId + Creates(ops)
    decreases |ops|
  {
    if ops != [] {
      var next := Apply(st, ops[0]);
      assert next.currentId == st.currentId + (if ops[0].CreateOp? then 1 else 0);
      RunAdvancesCounterByCreates(next, ops[1..]);
    }
  }

  /**
   * Every update in the run targets an id the counter had already passed when
   * that update ran: an id handed out earlier, possibly earlier in the run.
   */
  ghost predicate UpdatesIssued(st: Store, ops: seq<Op>)
    decreases |ops|
  {
    ops == [] ||
    ((ops[0].UpdateOp? ==> ops[0].id < st.currentId) && UpdatesIssued(Apply(st, ops[0]), ops[1..]))
  }

  /**
   * Creates, gets, lists, deletes, and updates of ids already handed out keep
   * every key below the counter; in particular a deleted id is never handed
   * out again.
   */
  lemma {:induction false} RunKeepsKeysBelowCounter(st: Store, ops: seq<Op>)
    requires KeysBelowCounter(st)
    requires UpdatesIssued(st, ops)
    requires st.currentId + Creates(ops) <= LongMax
    ensures KeysBelowCounter(Run(st, ops))
    decreases |ops|
  {
    if ops != [] {
      if ops[0].CreateOp? {
        CreateIsFresh(st, ops[0].student);
      }
      RunKeepsKeysBelowCounter(Apply(st, ops[0]), ops[1..]);
    }
  }

  /** A create after such a run from a new service hands out an id no stored student holds. */
  lemma CreateAfterRunIsFresh(ops: seq<Op>, s: Student)
    requires UpdatesIssued(Initial, ops)
    requires Initial.currentId + Creates(ops) <= LongMax
    ensures Get(Run(Initial, ops), Run(Initial, ops).currentId) == None
    ensures Create(Run(Initial, ops), s).student.id == Some(1 + Creates(ops))
  {
    RunKeepsKeysBelowCounter(Initial, ops);
    RunAdvancesCounterByCreates(Initial, ops);
  }

  /**
   * The lifecycle of one student (create, get, update the created id, list,
   * delete) is such a run: afterwards the store is empty again and the next
   * create hands out id 2, not the deleted id 1.
   */
  lemma LifecycleNeverReusesId(a: Student, b: Student, c: Student)
    ensures var ops := [CreateOp(a), GetOp(1), UpdateOp(1, b), ListOp, DeleteOp(1)];
            && UpdatesIssued(Initial, ops)
            && Run(Initial, ops) == Store(map[], 2)
            && Create(Run(Initial, ops), c).student.id == Some(2)
  {
    var ops := [CreateOp(a), GetOp(1), UpdateOp(1, b), ListOp, DeleteOp(1)];
    var t1 := ops[1..];
    var t2 := t1[1..];
    var t3 := t2[1..];
    var t4 := t3[1..];
    assert t4 == [DeleteOp(1)] && t4[1..] == [];
    var s1 := Apply(Initial, ops[0]);
    var s3 := Apply(s1, t2[0]);
    var s5 := Apply(s3, t4[0]);
    assert s5 == Store(map[], 2);
    assert UpdatesIssued(s3, t4) && UpdatesIssued(s3, t3);
    assert UpdatesIssued(s1, t2) && UpdatesIssued(s1, t1);
    assert Run(s3, t4) == s5 && Run(s3, t3) == s5;
    assert Run(s1, t2) == s5 && Run(s1, t1) == s5;
  }

  // ---------------------------------------------------------------------------
  // The service object

  class StudentService {
    var studentMap: map<Long, Student>
    var currentId: Long

    /** The service's state as a value. */
    function Model(): Store
      reads this
    {
      Store(studentMap, currentId)
    }

    constructor ()
      ensures studentMap == map[] && currentId == 1
      ensures Model() == Initial
    {
      studentMap := map[];
      currentId := 1;
    }

    method CreateStudent(student: Student) returns (r: Student)
      modifies this
      ensures r == student.(id := Some(old(currentId)))
      ensures currentId == Increment(old(currentId))
      ensures studentMap == old(studentMap)[old(currentId) := r]
      ensures Outcome(Model(), r) == Create(old(Model()), student)
    {
      var id := currentId;
      currentId := Increment(currentId);
      r := student.(id := Some(id));
      studentMap := studentMap[id := r];
    }

    /** The map's values as a list, in an order the hash map does not specify. */
    method GetAllStudents() returns (r: seq<Student>)
      ensures |r| == |studentMap|
      ensures ListsValues(r, studentMap)
    {
      r := [];
      var rest := studentMap.Keys;
      ghost var keys: seq<Long> := [];
      ghost var visited: set<Long> := {};
      while rest != {}
        invariant visited + rest == studentMap.Keys && visited !! rest
        invariant |keys| == |r| == |visited|
        invariant forall i :: 0 <= i < |keys| ==> keys[i] in visited && r[i] == studentMap[keys[i]]
        invariant forall k :: k in visited ==> k in keys
        invariant forall i, j :: 0 <= i < j < |keys| ==> keys[i] != keys[j]
        decreases |rest|
      {
        var k :| k in rest;
        r := r + [studentMap[k]];
        keys := keys + [k];
        visited := visited + {k};
        rest := rest - {k};
      }
      assert Enumerates(keys, studentMap);
    }

    method GetStudentById(id: Long) returns (r: Option<Student>)
      ensures id in studentMap ==> r == Some(studentMap[id])
      ensures id !in studentMap ==> r == None
    {
      if id in studentMap {
        r := Some(studentMap[id]);
      } else {
        r := None;
      }
    }

    method UpdateStudent(id: Long, updatedStudent: Student) returns (r: Student)
      modifies this
      ensures r == updatedStudent.(id := Some(id))
      ensures studentMap == old(studentMap)[id := r]
      ensures currentId == old(currentId)
      ensures Outcome(Model(), r) == Update(old(Model()), id, updatedStudent)
    {
      r := updatedStudent.(id := Some(id));
      studentMap := studentMap[id := r];
    }

    method DeleteStudent(id: Long) returns (deleted: bool)
      modifies this
      ensures deleted <==> id in old(studentMap)
      ensures studentMap == old(studentMap) - {id}
      ensures currentId == old(currentId)
      ensures (Model(), deleted) == Delete(old(Model()), id)
    {
      deleted := id in studentMap;
      studentMap := studentMap - {id};
    }
  }
}
