/** The relay's `users` object: a plain JavaScript object keyed by socket id.
    Its string keys keep insertion order (socket ids are never integer-like),
    assigning to an existing key keeps that key's position, and `delete`
    removes the key. */
module Registry {

  /** A socket.io connection id. */
  type Id = string

  ghost predicate Distinct<T>(s: seq<T>) {
    forall i, j :: 0 <= i < j < |s| ==> s[i] != s[j]
  }

  /** `keys` is the object's own-key order, `names` its key-to-value map. */
  datatype Users = Users(keys: seq<Id>, names: map<Id, string>)
  {
    ghost predicate Valid() {
      Distinct(keys) && forall k :: k in keys <==> k in names
    }
  }

  /** `let users = {}` */
  const Empty: Users := Users([], map[])

  /** `Object.values(users)`: the i-th value is the name stored under the i-th key. */
  function Values(u: Users): (r: seq<string>)
    requires forall k :: k in u.keys ==> k in u.names
    ensures |r| == |u.keys|
    ensures forall i :: 0 <= i < |r| ==> r[i] == u.names[u.keys[i]]
    decreases |u.keys|
  {
    if u.keys == [] then []
    else [u.names[u.keys[0]]] + Values(Users(u.keys[1..], u.names))
  }

  /** Position of a present key in the insertion order. */
  function IndexOf(keys: seq<Id>, id: Id): (i: nat)
    requires id in keys
    ensures i < |keys| && keys[i] == id
    ensures forall j :: 0 <= j < i ==> keys[j] != id
  {
    if keys[0] == id then 0 else 1 + IndexOf(keys[1..], id)
  }

  /** `keys` without `id`, the others in their original order. */
  function Remove(keys: seq<Id>, id: Id): (r: seq<Id>)
    ensures forall k :: k in r <==> k in keys && k != id
    ensures Distinct(keys) ==> Distinct(r)
  {
    if keys == [] then []
    else
      var rest := Remove(keys[1..], id);
      assert Distinct(keys) ==> Distinct(keys[1..]) && keys[0] !in rest by {
        if Distinct(keys) {
          assert forall j :: 0 < j < |keys| ==> keys[j] != keys[0];
        }
      }
      (if keys[0] == id then [] else [keys[0]]) + rest
  }

  /** `users[id] = name`: a new key goes last, an existing one keeps its place. */
  function Assign(u: Users, id: Id, name: string): (r: Users)
    requires u.Valid()
    ensures r.Valid()
    ensures id in r.names && r.names[id] == name
    ensures forall k :: k != id ==> (k in r.names <==> k in u.names)
    ensures forall k :: k != id && k in u.names ==> r.names[k] == u.names[k]
  {
    Users(if id in u.names then u.keys else u.keys + [id], u.names[id := name])
  }

  /** `delete users[id]`; deleting an absent key is allowed. */
  function Delete(u: Users, id: Id): (r: Users)
    requires u.Valid()
    ensures r.Valid()
    ensures id !in r.names
    ensures forall k :: k != id ==> (k in r.names <==> k in u.names)
    ensures forall k :: k in r.names ==> r.names[k] == u.names[k]
  {
    Users(Remove(u.keys, id), u.names - {id})
  }

  /** Joins from `ids[i]` with name `ns[i]`, one after another. */
  function JoinAll(u: Users, ids: seq<Id>, ns: seq<string>): (r: Users)
    requires u.Valid() && |ids| == |ns|
    ensures r.Valid()
    decreases |ids|
  {
    if ids == [] then u else JoinAll(Assign(u, ids[0], ns[0]), ids[1..], ns[1..])
  }

  // ---------------------------------------------------------------------------
  // Lemmas

  lemma {:induction false} DistinctCard(keys: seq<Id>)
    requires Distinct(keys)
    ensures |set k | k in keys| == |keys|
  {
    if keys != [] {
      DistinctCard(keys[1..]);
      assert (set k | k in keys) == (set k | k in keys[1..]) + {keys[0]};
      assert keys[0] !in (set k | k in keys[1..]);
    }
  }

  /** The roster has one entry per joined socket id: not per distinct name. */
  lemma RosterLength(u: Users)
    requires u.Valid()
    ensures |Values(u)| == |u.names|
  {
    DistinctCard(u.keys);
    assert u.names.Keys == set k | k in u.keys;
  }

  /** A first join from `id` appends its name to the end of the roster. */
  lemma FirstJoinAppends(u: Users, id: Id, name: string)
    requires u.Valid() && id !in u.names
    ensures Values(Assign(u, id, name)) == Values(u) + [name]
  {
    ValuesSnoc(u.keys, u.names, id, name);
  }

  lemma ValuesSnoc(ks: seq<Id>, names: map<Id, string>, id: Id, name: string)
    requires forall k :: k in ks ==> k in names
    requires id !in ks
    ensures Values(Users(ks + [id], names[id := name])) == Values(Users(ks, names)) + [name]
  {
    var after, before := Values(Users(ks + [id], names[id := name])), Values(Users(ks, names));
    forall j | 0 <= j < |after| ensures after[j] == (before + [name])[j] {
      if j < |before| {
        assert (ks + [id])[j] == ks[j] != id;
      }
    }
  }

  /** A repeated join from `id` overwrites its name in place: same keys, same
      roster length, only the entry at `id`'s position changes. */
  lemma RejoinInPlace(u: Users, id: Id, name: string)
    requires u.Valid() && id in u.names
    ensures Assign(u, id, name).keys == u.keys
    ensures Values(Assign(u, id, name)) == Values(u)[IndexOf(u.keys, id) := name]
  {
    var i, before, after := IndexOf(u.keys, id), Values(u), Values(Assign(u, id, name));
    forall j | 0 <= j < |after| ensures after[j] == before[i := name][j] {
      if j != i {
        assert u.keys[j] != id;
      }
    }
  }

  lemma {:induction false} RemoveAbsent(keys: seq<Id>, id: Id)
    requires id !in keys
    ensures Remove(keys, id) == keys
  {
    if keys != [] {
      RemoveAbsent(keys[1..], id);
      assert keys == [keys[0]] + keys[1..];
    }
  }

  lemma {:induction false} RemoveAt(keys: seq<Id>, id: Id)
    requires Distinct(keys) && id in keys
    ensures Remove(keys, id) == keys[..IndexOf(keys, id)] + keys[IndexOf(keys, id) + 1..]
  {
    if keys[0] == id {
      RemoveAbsent(keys[1..], id);
    } else {
      RemoveAt(keys[1..], id);
      assert keys[..IndexOf(keys, id)] == [keys[0]] + keys[1..][..IndexOf(keys[1..], id)];
    }
  }

  /** Disconnecting a joined id removes exactly its entry; the others keep
      their relative order. */
  lemma DeleteSplices(u: Users, id: Id)
    requires u.Valid() && id in u.names
    ensures Values(Delete(u, id)) == Values(u)[..IndexOf(u.keys, id)] + Values(u)[IndexOf(u.keys, id) + 1..]
  {
    var i := IndexOf(u.keys, id);
    var ks := u.keys[..i] + u.keys[i + 1..];
    RemoveAt(u.keys, id);
    SpliceOmits(u.keys, i);
    ValuesWithout(ks, u.names, id);
    ValuesSplice(u, i);
  }

  lemma SpliceOmits(keys: seq<Id>, i: nat)
    requires Distinct(keys) && i < |keys|
    ensures keys[i] !in keys[..i] + keys[i + 1..]
  {
    var ks := keys[..i] + keys[i + 1..];
    forall j | 0 <= j < |ks| ensures ks[j] != keys[i] {
      if j >= i { assert ks[j] == keys[j + 1]; }
    }
  }

  /** Dropping a name that no key refers to does not change the values. */
  lemma ValuesWithout(ks: seq<Id>, names: map<Id, string>, id: Id)
    requires forall k :: k in ks ==> k in names
    requires id !in ks
    ensures Values(Users(ks, names - {id})) == Values(Users(ks, names))
  {
  }

  lemma ValuesSplice(u: Users, i: nat)
    requires forall k :: k in u.keys ==> k in u.names
    requires i < |u.keys|
    ensures Values(Users(u.keys[..i] + u.keys[i + 1..], u.names)) == Values(u)[..i] + Values(u)[i + 1..]
  {
    var ks := u.keys[..i] + u.keys[i + 1..];
    assert forall k :: k in ks ==> k in u.keys;
    var after, before := Values(Users(ks, u.names)), Values(u);
    forall j | 0 <= j < |after| ensures after[j] == (before[..i] + before[i + 1..])[j] {
      if j >= i {
        assert ks[j] == u.keys[j + 1];
      }
    }
  }

  /** Disconnecting an id that never joined leaves the registry as it was. */
  lemma DeleteAbsent(u: Users, id: Id)
    requires u.Valid() && id !in u.names
    ensures Delete(u, id) == u
  {
    RemoveAbsent(u.keys, id);
    assert u.names - {id} == u.names;
  }

  /** A second disconnect of the same id changes nothing. */
  lemma DeleteIdempotent(u: Users, id: Id)
    requires u.Valid()
    ensures Delete(Delete(u, id), id) == Delete(u, id)
  {
    DeleteAbsent(Delete(u, id), id);
  }

  lemma ConsTail(a: seq<string>, ns: seq<string>)
    requires ns != []
    ensures (a + [ns[0]]) + ns[1..] == a + ns
  {
    assert ns == [ns[0]] + ns[1..];
  }

  /** Joins from distinct new ids list their names in join order, once each,
      whatever the names are (empty and duplicate names included). */
  lemma {:induction false} JoinAllInOrder(u: Users, ids: seq<Id>, ns: seq<string>)
    requires u.Valid() && |ids| == |ns| && Distinct(ids)
    requires forall k :: k in ids ==> k !in u.names
    ensures Values(JoinAll(u, ids, ns)) == Values(u) + ns
    decreases |ids|
  {
    if ids != [] {
      var u' := Assign(u, ids[0], ns[0]);
      FirstJoinAppends(u, ids[0], ns[0]);
      assert forall k :: k in ids[1..] ==> k != ids[0] && k in ids;
      assert forall k :: k in ids[1..] ==> k !in u'.names;
      JoinAllInOrder(u', ids[1..], ns[1..]);
      ConsTail(Values(u), ns);
    }
  }
}
