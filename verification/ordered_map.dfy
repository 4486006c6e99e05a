/** A JavaScript object used as a dictionary with string keys: property
    assignment `o[k] = v` overwrites the value of an existing key in place
    and appends a new key at the end, and `Object.keys(o)` lists the keys in
    the order they were first assigned. */
module OrderedMap {
  import opened Wrappers
  import opened Seqs

  /** The object's own properties, in key order. */
  type Assoc<V> = seq<(string, V)>

  /** `Object.keys(m)`. */
  function Keys<V>(m: Assoc<V>): (ks: seq<string>)
    ensures |ks| == |m|
  {
    seq(|m|, i requires 0 <= i < |m| => m[i].0)
  }

  /** Every key appears once, as in a real object. */
  predicate WellFormed<V>(m: Assoc<V>) {
    forall i, j :: 0 <= i < j < |m| ==> m[i].0 != m[j].0
  }

  /** In a well-formed object a key determines its position. */
  lemma SameKeySamePosition<V>(m: Assoc<V>, a: nat, b: nat)
    requires WellFormed(m)
    requires a < |m| && b < |m| && m[a].0 == m[b].0
    ensures a == b
  {
  }

  /** `m[k]`: the value of key `k`, or `None` for `undefined`. */
  function Lookup<V>(m: Assoc<V>, k: string): (r: Option<V>)
    ensures r.Some? <==> k in Keys(m)
    ensures WellFormed(m) ==> forall i :: 0 <= i < |m| && m[i].0 == k ==> r == Some(m[i].1)
  {
    if |m| == 0 then None
    else
      assert Keys(m) == [m[0].0] + Keys(m[1..]);
      if m[0].0 == k then Some(m[0].1) else Lookup(m[1..], k)
  }

  /** The position of key `k` in a well-formed object that has it. */
  function IndexOf<V>(m: Assoc<V>, k: string): (i: nat)
    requires k in Keys(m)
    ensures i < |m| && m[i].0 == k
  {
    if m[0].0 == k then 0
    else
      assert Keys(m) == [m[0].0] + Keys(m[1..]);
      1 + IndexOf(m[1..], k)
  }

  /** `m[k] = v`. */
  function Put<V>(m: Assoc<V>, k: string, v: V): (r: Assoc<V>)
    requires WellFormed(m)
    ensures WellFormed(r)
    ensures Lookup(r, k) == Some(v)
    ensures forall k' :: k' != k ==> Lookup(r, k') == Lookup(m, k')
    ensures k in Keys(m) ==> Keys(r) == Keys(m)
    ensures k !in Keys(m) ==> Keys(r) == Keys(m) + [k]
    ensures forall i :: 0 <= i < |r| ==> r[i] in m || r[i] == (k, v)
  {
    if k in Keys(m) then
      var r := m[IndexOf(m, k) := (k, v)];
      assert Keys(r) == Keys(m);
      r
    else
      var r := m + [(k, v)];
      assert Keys(r) == Keys(m) + [k];
      assert forall i :: 0 <= i < |m| ==> m[i].0 == Keys(m)[i] != k;
      r
  }

  /** Assigning a new key appends it, with its value, at the end. */
  lemma PutNew<V>(m: Assoc<V>, k: string, v: V)
    requires WellFormed(m)
    requires forall i :: 0 <= i < |m| ==> m[i].0 != k
    ensures Put(m, k, v) == m + [(k, v)]
  {
    if k in Keys(m) {
      var i := IndexOf(m, k);
      assert false;
    }
  }

  /** Assigning the key at position `i` replaces its value there. */
  lemma PutExisting<V>(m: Assoc<V>, k: string, v: V, i: nat)
    requires WellFormed(m)
    requires i < |m| && m[i].0 == k
    ensures Put(m, k, v) == m[i := (k, v)]
  {
    assert Keys(m)[i] == k;
    assert IndexOf(m, k) == i;
  }

  /** The object built by assigning the pairs of `ps` one after another, as
      a loop `o[p.0] = p.1` over `ps` starting from `{}` does. */
  function FromPairs<V>(ps: seq<(string, V)>): (m: Assoc<V>)
    ensures WellFormed(m)
    ensures forall i :: 0 <= i < |m| ==> m[i] in ps
    decreases |ps|
  {
    if |ps| == 0 then []
    else
      var last := ps[|ps| - 1];
      Put(FromPairs(ps[..|ps| - 1]), last.0, last.1)
  }

  /** Some pair of `ps` assigns key `k`. */
  predicate Assigns<V>(ps: seq<(string, V)>, k: string) {
    exists i :: 0 <= i < |ps| && ps[i].0 == k
  }

  /** Pair `i` is the last assignment of its key in `ps`. */
  predicate IsLastAssignment<V>(ps: seq<(string, V)>, i: int)
    requires 0 <= i < |ps|
  {
    forall j :: i < j < |ps| ==> ps[j].0 != ps[i].0
  }

  /** Key `x` is assigned before key `y` is assigned for the first time. */
  predicate AssignedBefore<V>(ps: seq<(string, V)>, x: string, y: string) {
    exists i :: 0 <= i < |ps| && ps[i].0 == x && forall j :: 0 <= j <= i ==> ps[j].0 != y
  }

  /** `Object.keys` of the object built from `ps` lists each key before every
      key whose first assignment comes later. */
  predicate KeysInAssignmentOrder<V>(ps: seq<(string, V)>) {
    var ks := Keys(FromPairs(ps));
    forall a, b :: 0 <= a < b < |ks| ==> AssignedBefore(ps, ks[a], ks[b])
  }

  /** The keys of the object are exactly the keys that were assigned. */
  lemma {:induction false} FromPairsKeys<V>(ps: seq<(string, V)>)
    ensures forall k :: k in Keys(FromPairs(ps)) <==> Assigns(ps, k)
    decreases |ps|
  {
    if |ps| > 0 {
      var prefix := ps[..|ps| - 1];
      FromPairsKeys(prefix);
      forall k | Assigns(prefix, k) ensures Assigns(ps, k) {
        var i :| 0 <= i < |prefix| && prefix[i].0 == k;
        assert ps[i].0 == k;
      }
      forall k | Assigns(ps, k) && k != ps[|ps| - 1].0 ensures Assigns(prefix, k) {
        var i :| 0 <= i < |ps| && ps[i].0 == k;
        assert prefix[i].0 == k;
      }
    }
  }

  /** Last assignment wins: the value of every assigned key is the value of
      its last assignment, and unassigned keys are `undefined`. */
  lemma {:induction false} FromPairsLookup<V>(ps: seq<(string, V)>, k: string)
    ensures Lookup(FromPairs(ps), k).Some? <==> Assigns(ps, k)
    ensures forall i :: 0 <= i < |ps| && ps[i].0 == k && IsLastAssignment(ps, i) ==>
      Lookup(FromPairs(ps), k) == Some(ps[i].1)
    decreases |ps|
  {
    FromPairsKeys(ps);
    if |ps| > 0 {
      var prefix := ps[..|ps| - 1];
      FromPairsLookup(prefix, k);
      forall i | 0 <= i < |ps| && ps[i].0 == k && IsLastAssignment(ps, i)
        ensures Lookup(FromPairs(ps), k) == Some(ps[i].1)
      {
        if i < |ps| - 1 {
          assert prefix[i] == ps[i];
          assert IsLastAssignment(prefix, i);
        }
      }
    }
  }

  /** Keys keep the position of their first assignment: a key listed before
      another in `Object.keys` was assigned before the other one was first
      assigned. */
  lemma {:induction false} FromPairsOrder<V>(ps: seq<(string, V)>)
    ensures KeysInAssignmentOrder(ps)
    decreases |ps|
  {
    if |ps| > 0 {
      var prefix := ps[..|ps| - 1];
      var last := ps[|ps| - 1];
      FromPairsOrder(prefix);
      FromPairsKeys(prefix);
      var ks0 := Keys(FromPairs(prefix));
      var ks := Keys(FromPairs(ps));
      assert ks == ks0 || (ks == ks0 + [last.0] && !Assigns(prefix, last.0));
      forall a, b | 0 <= a < b < |ks| ensures AssignedBefore(ps, ks[a], ks[b]) {
        if b < |ks0| {
          assert ks[a] == ks0[a] && ks[b] == ks0[b];
          AssignedBeforeExtends(prefix, ps, ks0[a], ks0[b]);
        } else {
          assert ks[a] in ks0;
          AssignedBeforeFirst(prefix, ps, ks[a], last.0);
        }
      }
    }
  }

  /** Assigning more pairs keeps an order already established. */
  lemma AssignedBeforeExtends<V>(prefix: seq<(string, V)>, ps: seq<(string, V)>, x: string, y: string)
    requires prefix <= ps
    requires AssignedBefore(prefix, x, y)
    ensures AssignedBefore(ps, x, y)
  {
    var i :| 0 <= i < |prefix| && prefix[i].0 == x && forall j :: 0 <= j <= i ==> prefix[j].0 != y;
    assert ps[i].0 == x;
    assert forall j :: 0 <= j <= i ==> ps[j].0 == prefix[j].0;
  }

  /** A key assigned in `prefix` is assigned before one that `prefix` never
      assigns. */
  lemma AssignedBeforeFirst<V>(prefix: seq<(string, V)>, ps: seq<(string, V)>, x: string, y: string)
    requires prefix <= ps
    requires Assigns(prefix, x) && !Assigns(prefix, y)
    ensures AssignedBefore(ps, x, y)
  {
    var i :| 0 <= i < |prefix| && prefix[i].0 == x;
    assert ps[i].0 == x;
    assert forall j :: 0 <= j <= i ==> ps[j].0 == prefix[j].0;
  }

  /** Assigning the pairs of an object, in order, to `{}` rebuilds it. */
  lemma {:induction false} FromPairsOfObject<V>(m: Assoc<V>)
    requires WellFormed(m)
    ensures FromPairs(m) == m
    decreases |m|
  {
    if |m| > 0 {
      var prefix := m[..|m| - 1];
      var last := m[|m| - 1];
      assert WellFormed(prefix);
      FromPairsOfObject(prefix);
      assert forall i :: 0 <= i < |prefix| ==> prefix[i].0 != last.0;
      PutNew(prefix, last.0, last.1);
      FrontLast(m);
    }
  }
}
