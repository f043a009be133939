/** Tables kept in ascending order of id, as an ordered map keeps them. */
module Tables {
  import opened Types

  datatype Entry<T> = Entry(id: U64, value: T)

  type Table<T> = seq<Entry<T>>

  function Lookup<T>(t: Table<T>, id: U64): Option<T> {
    if t == [] then None
    else if t[0].id == id then Some(t[0].value)
    else Lookup(t[1..], id)
  }

  function Put<T>(t: Table<T>, id: U64, value: T): Table<T> {
    if t == [] || id < t[0].id then [Entry(id, value)] + t
    else if t[0].id == id then [Entry(id, value)] + t[1..]
    else [t[0]] + Put(t[1..], id, value)
  }

  /** Ids rise along the table. */
  predicate Ascending<T(!new)>(t: Table<T>) {
    forall i, j {:trigger t[i], t[j]} :: 0 <= i < j < |t| ==> t[i].id < t[j].id
  }

  lemma {:induction false} LookupPut<T>(t: Table<T>, id: U64, value: T, k: U64)
    ensures Lookup(Put(t, id, value), k) == if k == id then Some(value) else Lookup(t, k)
  {
    if t != [] && id > t[0].id {
      LookupPut(t[1..], id, value, k);
    }
  }

  lemma {:induction false} PutMembers<T>(t: Table<T>, id: U64, value: T)
    ensures forall e {:trigger e in Put(t, id, value)} :: e in Put(t, id, value) ==> e == Entry(id, value) || e in t
  {
    if t != [] && id > t[0].id {
      PutMembers(t[1..], id, value);
    }
  }

  lemma {:induction false} PutAscends<T(!new)>(t: Table<T>, id: U64, value: T)
    requires Ascending(t)
    ensures Ascending(Put(t, id, value))
  {
    if t != [] && id > t[0].id {
      assert Ascending(t[1..]);
      PutAscends(t[1..], id, value);
      PutMembers(t[1..], id, value);
      var rest := Put(t[1..], id, value);
      forall j | 0 <= j < |rest| ensures t[0].id < rest[j].id {
        assert rest[j] in rest;
        if rest[j] in t[1..] {
          var k :| 0 <= k < |t[1..]| && t[1..][k] == rest[j];
          assert t[k + 1] == rest[j];
        }
      }
    }
  }

  lemma {:induction false} LookupEntry<T(!new)>(t: Table<T>, i: nat)
    requires Ascending(t) && i < |t|
    ensures Lookup(t, t[i].id) == Some(t[i].value)
  {
    if i > 0 {
      assert t[0].id < t[i].id;
      assert Ascending(t[1..]);
      LookupEntry(t[1..], i - 1);
    }
  }

  lemma {:induction false} LookupIsEntry<T>(t: Table<T>, id: U64)
    requires Lookup(t, id).Some?
    ensures Entry(id, Lookup(t, id).value) in t
  {
    if t[0].id != id {
      LookupIsEntry(t[1..], id);
    }
  }

  method Find<T(!new)>(t: Table<T>, id: U64) returns (r: Option<T>)
    ensures r == Lookup(t, id)
  {
    var i := 0;
    while i < |t|
      invariant i <= |t| && Lookup(t, id) == Lookup(t[i..], id)
    {
      if t[i].id == id {
        return Some(t[i].value);
      }
      i := i + 1;
    }
    r := None;
  }
}
