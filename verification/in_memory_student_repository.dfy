/** The in-memory student repository: a map from identifier strings to
    aggregates. Each operation takes the map and returns the new one. */
module InMemoryStudentRepository {
  import opened Wrappers
  import opened Students

  type Store = map<string, Student>

  /** The shape every store built by the operations below keeps: each
      aggregate is valid and filed under its own (trimmed) identifier. */
  predicate WellFormed(store: Store) {
    forall k :: k in store ==> store[k].GetStudentId().GetValue() == k && store[k].Valid()
  }

  /** The key `save` files an aggregate under. */
  function KeyOf(student: Student): string {
    student.GetStudentId().GetValue()
  }

  /** `findById`: the aggregate stored under exactly this key, if any. */
  function FindById(store: Store, studentId: string): (r: Option<Student>)
    ensures r.Some? <==> studentId in store
    ensures r.Some? ==> r.value == store[studentId]
  {
    if studentId in store then Some(store[studentId]) else None
  }

  /** `save`: files the aggregate under its identifier's value, replacing any
      previous entry with that key and leaving every other key alone. */
  function Save(store: Store, student: Student): (r: Store)
    ensures FindById(r, KeyOf(student)) == Some(student)
    ensures r.Keys == store.Keys + {KeyOf(student)}
    ensures forall k :: k in store && k != KeyOf(student) ==> r[k] == store[k]
    ensures WellFormed(store) && student.Valid() ==> WellFormed(r)
  {
    store[KeyOf(student) := student]
  }

  /** `delete`: removes the key; an absent key leaves the store as it was. */
  function Delete(store: Store, studentId: string): (r: Store)
    ensures FindById(r, studentId) == None
    ensures r.Keys == store.Keys - {studentId}
    ensures forall k :: k in r ==> r[k] == store[k]
    ensures studentId !in store ==> r == store
    ensures WellFormed(store) ==> WellFormed(r)
  {
    store - {studentId}
  }

  /** `clear`: the empty store. */
  function Clear(): (r: Store)
    ensures Count(r) == 0
    ensures forall k :: FindById(r, k) == None
  {
    map[]
  }

  /** `count`: the number of stored aggregates. */
  function Count(store: Store): nat {
    |store|
  }

  /** Saving grows the count by one exactly when the key was new; deleting
      shrinks it by one exactly when the key was present. */
  lemma CountAfterUpdates(store: Store, student: Student, studentId: string)
    ensures Count(Save(store, student)) == Count(store) + (if KeyOf(student) in store then 0 else 1)
    ensures Count(Delete(store, studentId)) == Count(store) - (if studentId in store then 1 else 0)
  {
    var saved := Save(store, student);
    if KeyOf(student) in store {
      assert saved.Keys == store.Keys;
    } else {
      assert saved.Keys == store.Keys + {KeyOf(student)};
    }
    var deleted := Delete(store, studentId);
    if studentId in store {
      assert deleted.Keys == store.Keys - {studentId};
    } else {
      assert deleted.Keys == store.Keys;
    }
  }

  /** `findAll`: every stored aggregate once per key. The order of the
      source's insertion-ordered map is not modelled: keys are visited in an
      unspecified order, reported alongside as the ghost `keys`, where
      `all[i]` is the aggregate stored under `keys[i]`. */
  method FindAll(store: Store) returns (all: seq<Student>, ghost keys: seq<string>)
    ensures |all| == Count(store)
    ensures |keys| == |all|
    ensures forall i :: 0 <= i < |keys| ==> keys[i] in store && all[i] == store[keys[i]]
    ensures forall i, j :: 0 <= i < j < |keys| ==> keys[i] != keys[j]
    ensures forall k :: k in store ==> k in keys
    ensures forall k :: k in store ==> store[k] in all
    ensures forall i :: 0 <= i < |all| ==> all[i] in store.Values
  {
    all, keys := [], [];
    var remaining := store.Keys;
    while remaining != {}
      invariant remaining <= store.Keys
      invariant |keys| == |all|
      invariant |all| + |remaining| == |store|
      invariant forall i :: 0 <= i < |keys| ==> keys[i] in store && keys[i] !in remaining && all[i] == store[keys[i]]
      invariant forall i, j :: 0 <= i < j < |keys| ==> keys[i] != keys[j]
      invariant forall k :: k in store && k !in remaining ==> k in keys
      decreases |remaining|
    {
      var k :| k in remaining;
      all, keys := all + [store[k]], keys + [k];
      remaining := remaining - {k};
    }
  }
}
