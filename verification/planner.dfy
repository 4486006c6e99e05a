/** The instance planner: for each process type in Procfile key order, as
    many instances as its concurrency count asks for, each with its instance
    name, its command, the next port from the base port on, and the base
    environment with only `PORT` changed. */
module Planner {
  import opened Chars
  import opened Seqs
  import opened Decimal
  import opened JsNumber
  import opened OrderedMap
  import opened Procfile
  import opened Concurrency

  /** Environment variables, name to value. */
  type Env = map<string, string>

  /** The one variable the planner sets. */
  const PortVariable: string := "PORT"

  /** What is needed to start one instance. */
  datatype InstanceSpec = InstanceSpec(name: string, command: string, port: int, env: Env)

  /** No two instances share a name. */
  predicate DistinctNames(specs: seq<InstanceSpec>) {
    forall a, b :: 0 <= a < b < |specs| ==> specs[a].name != specs[b].name
  }

  /** The name of replica `replica` of process type `typeName`: the type
      name, a dash, and the replica number from 0. */
  function InstanceName(typeName: string, replica: nat): string {
    typeName + "-" + NatToString(replica)
  }

  /** The environment of the instance on `port`: every base variable is
      inherited, and `PORT` holds the numeral of the port (a number stored
      in the process environment becomes its string). */
  function PortEnv(base: Env, port: int): (env: Env)
    ensures env.Keys == base.Keys + {PortVariable}
    ensures env[PortVariable] == IntToString(port)
    ensures forall v :: v in base && v != PortVariable ==> env[v] == base[v]
  {
    base[PortVariable := IntToString(port)]
  }

  /** The `count` instances of one process type, the first of which has the
      global index `first`. */
  function Replicas(typeName: string, command: string, count: nat, basePort: int, first: int, base: Env)
    : (specs: seq<InstanceSpec>)
    ensures |specs| == count
  {
    seq(count, j requires 0 <= j < count =>
      InstanceSpec(InstanceName(typeName, j), command, basePort + first + j, PortEnv(base, basePort + first + j)))
  }

  /** The sum of the instance counts of the process types. */
  function TotalInstances(procs: Assoc<string>, conc: Assoc<Number>): nat
    decreases |procs|
  {
    if |procs| == 0 then 0
    else TotalInstances(procs[..|procs| - 1], conc) + ReplicaCount(conc, procs[|procs| - 1].0)
  }

  /** The global index of the first instance of process type `i`. */
  function Offset(procs: Assoc<string>, conc: Assoc<Number>, i: nat): nat
    requires i <= |procs|
  {
    TotalInstances(procs[..i], conc)
  }

  /** Every instance to start, in start order: one per replica of each
      process type, the types in Procfile key order. */
  function Plan(procs: Assoc<string>, conc: Assoc<Number>, basePort: int, base: Env)
    : (plan: seq<InstanceSpec>)
    ensures |plan| == TotalInstances(procs, conc)
    decreases |procs|
  {
    if |procs| == 0 then []
    else
      var prior := Plan(procs[..|procs| - 1], conc, basePort, base);
      var key := procs[|procs| - 1].0;
      prior + Replicas(key, procs[|procs| - 1].1, ReplicaCount(conc, key), basePort, |prior|, base)
  }

  /** Instance `k` listens on `basePort + k`: ports are contiguous from the
      base port and strictly increasing, and each environment differs from
      the base only in `PORT`, which names that instance's port. */
  lemma {:induction false} PlanPorts(procs: Assoc<string>, conc: Assoc<Number>, basePort: int, base: Env)
    ensures forall k :: 0 <= k < |Plan(procs, conc, basePort, base)| ==>
      && Plan(procs, conc, basePort, base)[k].port == basePort + k
      && Plan(procs, conc, basePort, base)[k].env == PortEnv(base, basePort + k)
    decreases |procs|
  {
    if |procs| > 0 {
      var n := |procs|;
      PlanPorts(procs[..n - 1], conc, basePort, base);
      var prior := Plan(procs[..n - 1], conc, basePort, base);
      var last := Replicas(procs[n - 1].0, procs[n - 1].1, ReplicaCount(conc, procs[n - 1].0), basePort, |prior|, base);
      var plan := Plan(procs, conc, basePort, base);
      assert plan == prior + last;
      forall k | 0 <= k < |plan|
        ensures plan[k].port == basePort + k && plan[k].env == PortEnv(base, basePort + k)
      {
        if k < |prior| {
          assert plan[k] == prior[k];
          assert prior[k].port == basePort + k;
          assert prior[k].env == PortEnv(base, basePort + k);
        } else {
          var j := k - |prior|;
          assert plan[k] == last[j];
          assert last[j].port == basePort + |prior| + j;
        }
      }
    }
  }

  /** The plan of all types is the plan of all but the last, followed by
      the replicas of the last, which start at that type's offset. */
  lemma PlanLast(procs: Assoc<string>, conc: Assoc<Number>, basePort: int, base: Env)
    requires |procs| > 0
    ensures var n := |procs|;
      && Offset(procs, conc, n - 1) == |Plan(procs[..n - 1], conc, basePort, base)|
      && Plan(procs, conc, basePort, base)
         == Plan(procs[..n - 1], conc, basePort, base)
            + Replicas(procs[n - 1].0, procs[n - 1].1, ReplicaCount(conc, procs[n - 1].0),
                       basePort, Offset(procs, conc, n - 1), base)
  {
  }

  /** The plan of the first `m` types is the start of the plan of all
      types: adding a type never moves an earlier instance. */
  lemma {:induction false} PlanPrefix(procs: Assoc<string>, conc: Assoc<Number>, basePort: int, base: Env, m: nat)
    requires m <= |procs|
    ensures Plan(procs[..m], conc, basePort, base) <= Plan(procs, conc, basePort, base)
    decreases |procs| - m
  {
    if m < |procs| {
      PlanPrefix(procs, conc, basePort, base, m + 1);
      PlanOneMore(procs, conc, basePort, base, m);
      PrefixTransitive(Plan(procs[..m], conc, basePort, base), Plan(procs[..m + 1], conc, basePort, base),
                       Plan(procs, conc, basePort, base));
    } else {
      TakeAll(procs);
    }
  }

  /** Adding the next type extends the plan. */
  lemma PlanOneMore(procs: Assoc<string>, conc: Assoc<Number>, basePort: int, base: Env, m: nat)
    requires m < |procs|
    ensures Plan(procs[..m], conc, basePort, base) <= Plan(procs[..m + 1], conc, basePort, base)
  {
    PlanLast(procs[..m + 1], conc, basePort, base);
    TakeTake(procs, m, m + 1);
  }

  /** Replica `j` of process type `i` is instance `Offset(i) + j`: types in
      Procfile key order, replicas in order within a type. */
  lemma PlanLayout(procs: Assoc<string>, conc: Assoc<Number>, basePort: int, base: Env, i: nat, j: nat)
    requires i < |procs| && j < ReplicaCount(conc, procs[i].0)
    ensures Offset(procs, conc, i) + j < |Plan(procs, conc, basePort, base)|
    ensures Plan(procs, conc, basePort, base)[Offset(procs, conc, i) + j].name == InstanceName(procs[i].0, j)
    ensures Plan(procs, conc, basePort, base)[Offset(procs, conc, i) + j].command == procs[i].1
  {
    var upto := procs[..i + 1];
    LastTypeLayout(upto, conc, basePort, base, j);
    OffsetInPrefix(procs, conc, i + 1, i);
    assert upto[i] == procs[i];
    PlanPrefix(procs, conc, basePort, base, i + 1);
    PrefixAt(Plan(upto, conc, basePort, base), Plan(procs, conc, basePort, base), Offset(procs, conc, i) + j);
  }

  /** The layout of the last type's replicas, at the end of the plan. */
  lemma LastTypeLayout(procs: Assoc<string>, conc: Assoc<Number>, basePort: int, base: Env, j: nat)
    requires |procs| > 0 && j < ReplicaCount(conc, procs[|procs| - 1].0)
    ensures var i := |procs| - 1;
      && Offset(procs, conc, i) + j < |Plan(procs, conc, basePort, base)|
      && Plan(procs, conc, basePort, base)[Offset(procs, conc, i) + j].name == InstanceName(procs[i].0, j)
      && Plan(procs, conc, basePort, base)[Offset(procs, conc, i) + j].command == procs[i].1
  {
    var i := |procs| - 1;
    PlanLast(procs, conc, basePort, base);
    var replicas := Replicas(procs[i].0, procs[i].1, ReplicaCount(conc, procs[i].0), basePort, Offset(procs, conc, i), base);
    ReplicaAt(procs[i].0, procs[i].1, ReplicaCount(conc, procs[i].0), basePort, Offset(procs, conc, i), base, j);
    AppendRight(Plan(procs[..i], conc, basePort, base), replicas, j);
  }

  /** Replica `j` of one type. */
  lemma ReplicaAt(typeName: string, command: string, count: nat, basePort: int, first: int, base: Env, j: nat)
    requires j < count
    ensures Replicas(typeName, command, count, basePort, first, base)[j]
            == InstanceSpec(InstanceName(typeName, j), command, basePort + first + j, PortEnv(base, basePort + first + j))
  {
  }

  /** Offsets grow with the type index. */
  lemma {:induction false} OffsetMonotone(procs: Assoc<string>, conc: Assoc<Number>, a: nat, b: nat)
    requires a <= b <= |procs|
    ensures Offset(procs, conc, a) <= Offset(procs, conc, b)
    decreases b - a
  {
    if a < b {
      OffsetMonotone(procs, conc, a, b - 1);
      assert procs[..b][..b - 1] == procs[..b - 1];
    }
  }

  /** Every instance is some replica of some process type: each index below
      the total is the offset of one type plus one of its replica numbers. */
  lemma {:induction false} PlanIndex(procs: Assoc<string>, conc: Assoc<Number>, k: nat)
    returns (i: nat, j: nat)
    requires k < TotalInstances(procs, conc)
    ensures i < |procs| && j < ReplicaCount(conc, procs[i].0)
    ensures k == Offset(procs, conc, i) + j
    decreases |procs|
  {
    var n := |procs|;
    var prefix := procs[..n - 1];
    if k < TotalInstances(prefix, conc) {
      i, j := PlanIndex(prefix, conc, k);
      OffsetInPrefix(procs, conc, n - 1, i);
      assert prefix[i] == procs[i];
    } else {
      i, j := n - 1, k - TotalInstances(prefix, conc);
      assert Offset(procs, conc, i) == TotalInstances(prefix, conc);
    }
  }

  /** The offset of a type is the same within any longer prefix of the
      types. */
  lemma OffsetInPrefix(procs: Assoc<string>, conc: Assoc<Number>, m: nat, i: nat)
    requires i <= m <= |procs|
    ensures Offset(procs[..m], conc, i) == Offset(procs, conc, i)
  {
    TakeTake(procs, i, m);
  }

  /** Every planned instance is named after one of the process types. */
  lemma PlanNameAt(procs: Assoc<string>, conc: Assoc<Number>, basePort: int, base: Env, k: nat) returns (i: nat, j: nat)
    requires k < |Plan(procs, conc, basePort, base)|
    ensures i < |procs| && j < ReplicaCount(conc, procs[i].0)
    ensures k == Offset(procs, conc, i) + j
    ensures Plan(procs, conc, basePort, base)[k].name == InstanceName(procs[i].0, j)
  {
    i, j := PlanIndex(procs, conc, k);
    PlanLayout(procs, conc, basePort, base, i, j);
  }

  /** The first dash of an instance name follows the type name. */
  lemma InstanceNameParts(typeName: string, replica: nat)
    requires AllWord(typeName)
    ensures var s := InstanceName(typeName, replica);
      && |s| > |typeName|
      && s[|typeName|] == '-'
      && (forall k :: 0 <= k < |typeName| ==> s[k] != '-')
      && s[..|typeName|] == typeName
      && s[|typeName| + 1..] == NatToString(replica)
  {
    var s := InstanceName(typeName, replica);
    assert forall k :: 0 <= k < |typeName| ==> s[k] == typeName[k];
  }

  /** Type names hold no dash, so an instance name determines its process
      type and replica. */
  lemma InstanceNameInjective(t1: string, j1: nat, t2: string, j2: nat)
    requires AllWord(t1) && AllWord(t2)
    ensures InstanceName(t1, j1) == InstanceName(t2, j2) ==> t1 == t2 && j1 == j2
  {
    InstanceNameParts(t1, j1);
    InstanceNameParts(t2, j2);
    NatToStringInjective(j1, j2);
  }

  /** No two instances of a plan share a name. */
  lemma PlanNamesDistinct(procs: Assoc<string>, conc: Assoc<Number>, basePort: int, base: Env)
    requires WellFormed(procs)
    requires forall i :: 0 <= i < |procs| ==> AllWord(procs[i].0)
    ensures DistinctNames(Plan(procs, conc, basePort, base))
  {
    var plan := Plan(procs, conc, basePort, base);
    forall k1, k2 | 0 <= k1 < k2 < |plan| ensures plan[k1].name != plan[k2].name {
      InstancesNamedApart(procs, conc, basePort, base, k1, k2);
    }
  }

  /** Two different instances of a plan have different names. */
  lemma InstancesNamedApart(procs: Assoc<string>, conc: Assoc<Number>, basePort: int, base: Env, k1: nat, k2: nat)
    requires WellFormed(procs)
    requires forall i :: 0 <= i < |procs| ==> AllWord(procs[i].0)
    requires k1 < k2 < |Plan(procs, conc, basePort, base)|
    ensures Plan(procs, conc, basePort, base)[k1].name != Plan(procs, conc, basePort, base)[k2].name
  {
    var i1, j1 := PlanNameAt(procs, conc, basePort, base, k1);
    var i2, j2 := PlanNameAt(procs, conc, basePort, base, k2);
    ReplicaNamesApart(procs, i1, j1, i2, j2);
  }

  /** Different replicas of the types of a well-formed Procfile have
      different instance names. */
  lemma ReplicaNamesApart(procs: Assoc<string>, i1: nat, j1: nat, i2: nat, j2: nat)
    requires WellFormed(procs)
    requires forall i :: 0 <= i < |procs| ==> AllWord(procs[i].0)
    requires i1 < |procs| && i2 < |procs| && (i1 != i2 || j1 != j2)
    ensures InstanceName(procs[i1].0, j1) != InstanceName(procs[i2].0, j2)
  {
    InstanceNameInjective(procs[i1].0, j1, procs[i2].0, j2);
    if procs[i1].0 == procs[i2].0 {
      SameKeySamePosition(procs, i1, i2);
    }
  }

  /** Concurrency entries for names that are not process types change
      nothing: the plan reads the counts of its own types only. */
  lemma {:induction false} PlanIgnoresOtherNames(procs: Assoc<string>, c1: Assoc<Number>, c2: Assoc<Number>, basePort: int, base: Env)
    requires forall i :: 0 <= i < |procs| ==> Lookup(c1, procs[i].0) == Lookup(c2, procs[i].0)
    ensures Plan(procs, c1, basePort, base) == Plan(procs, c2, basePort, base)
    decreases |procs|
  {
    if |procs| > 0 {
      var prefix := procs[..|procs| - 1];
      PlanIgnoresOtherNames(prefix, c1, c2, basePort, base);
    }
  }
}
