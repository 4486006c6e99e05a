/** The process supervisor: the options record, the working directory of
    the children, the command tokenizer, the registry of running children
    and the color each child gets, and the double loop that starts every
    planned instance. The operating-system spawn itself is replaced by
    recording what would be started. */
module Supervisor {
  import opened Wrappers
  import opened Seqs
  import opened Chars
  import opened Strings
  import opened JsNumber
  import opened OrderedMap
  import opened Concurrency
  import opened Planner

  /** The display colors, cycled in start order. */
  datatype Color = Yellow | Cyan | Magenta | Green | Blue

  /** The palette, in the order colors are handed out. */
  const Palette: seq<Color> := [Yellow, Cyan, Magenta, Green, Blue]

  /** The color of the child started while the registry holds `count`
      children: the palette, cycled. */
  function ColorFor(count: nat): Color
    decreases count
  {
    if count < |Palette| then Palette[count] else ColorFor(count - |Palette|)
  }

  /** Cycling the palette is indexing it by the count modulo its length. */
  lemma {:induction false} ColorForModulo(count: nat)
    ensures ColorFor(count) == Palette[count % |Palette|]
    decreases count
  {
    if count >= |Palette| {
      ColorForModulo(count - |Palette|);
      assert (count - |Palette|) % |Palette| == count % |Palette|;
    }
  }

  /** The options of one run (absent options are `None`; the base port has
      already been read as a number). */
  datatype Options = Options(
    concurrency: Option<string>,
    procfile: Option<string>,
    directory: Option<string>,
    port: int)

  /** The host's path services, which the model does not interpret:
      path normalization, the directory part of a path, and the current
      working directory. */
  datatype Host = Host(normalize: string -> string, dirname: string -> string, cwd: string)

  /** JavaScript truthiness of an optional string: present and non-empty. */
  predicate Truthy(option: Option<string>) {
    option.Some? && option.value != ""
  }

  /** The working directory of every child: the normalized directory option
      if set, else the directory of the Procfile option if set, else the
      current working directory. */
  function WorkingDir(opts: Options, host: Host): string {
    if Truthy(opts.directory) then host.normalize(opts.directory.value)
    else if Truthy(opts.procfile) then host.dirname(opts.procfile.value)
    else host.cwd
  }

  /** The working directory is decided by the first option that is set, in
      the order directory, Procfile, current directory: whatever comes
      later in that order has no influence. */
  lemma WorkingDirPriority(opts: Options, host: Host, other: Options, otherHost: Host)
    ensures Truthy(opts.directory) && other.directory == opts.directory && otherHost.normalize == host.normalize
      ==> WorkingDir(other, otherHost) == WorkingDir(opts, host) == host.normalize(opts.directory.value)
    ensures !Truthy(opts.directory) && !Truthy(other.directory) && Truthy(opts.procfile)
      && other.procfile == opts.procfile && otherHost.dirname == host.dirname
      ==> WorkingDir(other, otherHost) == WorkingDir(opts, host) == host.dirname(opts.procfile.value)
    ensures !Truthy(opts.directory) && !Truthy(opts.procfile) ==> WorkingDir(opts, host) == host.cwd
  {
  }

  /** A command line cut at every single space: the executable and its
      arguments. */
  datatype CommandLine = CommandLine(executable: string, args: seq<string>)

  /** `command.split(' ')`, head and tail. Runs of spaces give empty
      arguments; there is no quoting. */
  function Tokenize(command: string): (c: CommandLine)
    ensures |c.args| == Occurrences(command, {' '})
    ensures NoneIn(c.executable, {' '})
    ensures forall i :: 0 <= i < |c.args| ==> NoneIn(c.args[i], {' '})
  {
    var tokens := Split(command, {' '});
    CommandLine(tokens[0], tokens[1..])
  }

  /** Putting the tokens back together with single spaces gives the
      command line back: the tokenizer loses nothing. */
  lemma TokenizeRoundTrip(command: string)
    ensures var c := Tokenize(command); Join([c.executable] + c.args, ' ') == command
  {
    var tokens := Split(command, {' '});
    assert [tokens[0]] + tokens[1..] == tokens;
    JoinSplit(command, ' ');
  }

  /** Tokens free of spaces, joined with single spaces, are cut back into
      exactly those tokens. */
  lemma TokenizeJoin(executable: string, args: seq<string>)
    requires NoneIn(executable, {' '})
    requires forall i :: 0 <= i < |args| ==> NoneIn(args[i], {' '})
    ensures Tokenize(Join([executable] + args, ' ')) == CommandLine(executable, args)
  {
    var tokens := [executable] + args;
    assert forall i :: 0 <= i < |tokens| ==> NoneIn(tokens[i], {' '}) by {
      forall i | 0 <= i < |tokens| ensures NoneIn(tokens[i], {' '}) {
        if i > 0 { assert tokens[i] == args[i - 1]; }
      }
    }
    SplitJoin(tokens, ' ', {' '});
    assert tokens[1..] == args;
  }

  /** A started child: what was passed to the spawn, and its color. */
  datatype Child = Child(name: string, executable: string, args: seq<string>, cwd: string, env: Env, color: Color)

  /** The running children by instance name. */
  type Registry = map<string, Child>

  /** The child started for an instance in a given working directory and
      shown in a given color: the command is tokenized into executable and
      arguments, and the instance's environment is passed unchanged. */
  function Started(spec: InstanceSpec, cwd: string, color: Color): Child
  {
    var command := Tokenize(spec.command);
    Child(spec.name, command.executable, command.args, cwd, spec.env, color)
  }

  /** Starting one instance: its color is picked by how many children the
      registry holds at that moment. */
  function SpawnProcess(registry: Registry, spec: InstanceSpec, cwd: string): Child
  {
    Started(spec, cwd, ColorFor(|registry|))
  }

  /** A new child is shown in the palette entry indexed by the number of
      registered children modulo the palette size, and is otherwise made
      from its instance alone: its name and environment, the working
      directory, and its command cut at single spaces. */
  lemma SpawnProcessChild(registry: Registry, spec: InstanceSpec, cwd: string)
    ensures var child := SpawnProcess(registry, spec, cwd);
      && child.color == Palette[|registry| % |Palette|]
      && child.name == spec.name && child.env == spec.env && child.cwd == cwd
      && Join([child.executable] + child.args, ' ') == spec.command
      && |child.args| == Occurrences(spec.command, {' '})
  {
    ColorForModulo(|registry|);
    TokenizeRoundTrip(spec.command);
  }

  /** Starting the instances one after another, registering each child
      under its name once it has been started. */
  function SpawnAll(registry: Registry, specs: seq<InstanceSpec>, cwd: string): (r: (seq<Child>, Registry))
    ensures |r.0| == |specs|
    decreases |specs|
  {
    if |specs| == 0 then ([], registry)
    else
      var prior := SpawnAll(registry, specs[..|specs| - 1], cwd);
      var child := SpawnProcess(prior.1, specs[|specs| - 1], cwd);
      (prior.0 + [child], prior.1[specs[|specs| - 1].name := child])
  }

  /** Each child is started from its own instance: same name, same
      environment, the shared working directory, and the instance's command
      cut into executable and arguments. */
  lemma {:induction false} SpawnAllStartAt(registry: Registry, specs: seq<InstanceSpec>, cwd: string, k: nat)
    requires k < |specs|
    ensures SpawnAll(registry, specs, cwd).0[k] == Started(specs[k], cwd, SpawnAll(registry, specs, cwd).0[k].color)
    decreases |specs|
  {
    var n := |specs|;
    if k == n - 1 {
      SpawnAllLast(registry, specs, cwd);
    } else {
      var prefix := specs[..n - 1];
      SpawnAllStartAt(registry, prefix, cwd, k);
      SpawnAllLastColor(registry, specs, cwd);
      AppendLeft(SpawnAll(registry, prefix, cwd).0, [SpawnAll(registry, specs, cwd).0[n - 1]], k);
      assert prefix[k] == specs[k];
    }
  }

  /** The names of a list of instances. */
  function NameSet(specs: seq<InstanceSpec>): (names: set<string>)
    ensures forall k :: 0 <= k < |specs| ==> specs[k].name in names
    decreases |specs|
  {
    if |specs| == 0 then {} else NameSet(specs[..|specs| - 1]) + {specs[|specs| - 1].name}
  }

  /** A name that no instance carries is not among their names. */
  lemma {:induction false} NotInNameSet(specs: seq<InstanceSpec>, name: string)
    requires forall k :: 0 <= k < |specs| ==> specs[k].name != name
    ensures name !in NameSet(specs)
    decreases |specs|
  {
    if |specs| > 0 {
      NotInNameSet(specs[..|specs| - 1], name);
    }
  }

  /** After spawning, the registry's keys are the keys it already held plus
      the names of the instances. */
  lemma {:induction false} SpawnAllRegisters(registry: Registry, specs: seq<InstanceSpec>, cwd: string)
    ensures SpawnAll(registry, specs, cwd).1.Keys == registry.Keys + NameSet(specs)
    decreases |specs|
  {
    if |specs| > 0 {
      var n := |specs|;
      SpawnAllRegisters(registry, specs[..n - 1], cwd);
    }
  }

  /** An entry of the registry whose name no instance carries keeps the child
      it held. */
  lemma {:induction false} SpawnAllKeepsOthers(registry: Registry, specs: seq<InstanceSpec>, cwd: string, name: string)
    requires name in registry && name !in NameSet(specs)
    ensures name in SpawnAll(registry, specs, cwd).1
    ensures SpawnAll(registry, specs, cwd).1[name] == registry[name]
    decreases |specs|
  {
    if |specs| > 0 {
      var n := |specs|;
      assert NameSet(specs) == NameSet(specs[..n - 1]) + {specs[n - 1].name};
      SpawnAllKeepsOthers(registry, specs[..n - 1], cwd, name);
      SpawnAllLast(registry, specs, cwd);
    }
  }

  /** The registry maps the name of an instance to the child started for it,
      unless a later instance reuses that name and overwrites the entry. */
  lemma {:induction false} SpawnAllMapsName(registry: Registry, specs: seq<InstanceSpec>, cwd: string, k: nat)
    requires k < |specs|
    requires forall m :: k < m < |specs| ==> specs[m].name != specs[k].name
    ensures specs[k].name in SpawnAll(registry, specs, cwd).1
    ensures SpawnAll(registry, specs, cwd).1[specs[k].name] == SpawnAll(registry, specs, cwd).0[k]
    decreases |specs|
  {
    var n := |specs|;
    SpawnAllLast(registry, specs, cwd);
    if k < n - 1 {
      var prefix := specs[..n - 1];
      assert prefix[k] == specs[k];
      assert specs[n - 1].name != specs[k].name;
      SpawnAllMapsName(registry, prefix, cwd, k);
      AppendLeft(SpawnAll(registry, prefix, cwd).0, [SpawnAll(registry, specs, cwd).0[n - 1]], k);
    }
  }

  /** No instance is named like a child the registry already holds. */
  predicate FreshNames(specs: seq<InstanceSpec>, registry: Registry) {
    forall k :: 0 <= k < |specs| ==> specs[k].name !in registry
  }

  /** The last instance is started after all the others. */
  lemma SpawnAllLast(registry: Registry, specs: seq<InstanceSpec>, cwd: string)
    requires |specs| > 0
    ensures var prior := SpawnAll(registry, specs[..|specs| - 1], cwd);
      var child := SpawnProcess(prior.1, specs[|specs| - 1], cwd);
      SpawnAll(registry, specs, cwd) == (prior.0 + [child], prior.1[specs[|specs| - 1].name := child])
  {
  }

  /** A name neither registered before nor carried by any instance is not
      registered after. */
  lemma Unregistered(registry: Registry, specs: seq<InstanceSpec>, cwd: string, name: string)
    requires name !in registry && name !in NameSet(specs)
    ensures name !in SpawnAll(registry, specs, cwd).1
  {
    SpawnAllRegisters(registry, specs, cwd);
  }

  /** Dropping the last instance keeps the names distinct and new, and the
      last name is not among the others. */
  lemma PrefixNames(specs: seq<InstanceSpec>, registry: Registry)
    requires |specs| > 0 && DistinctNames(specs) && FreshNames(specs, registry)
    ensures DistinctNames(specs[..|specs| - 1]) && FreshNames(specs[..|specs| - 1], registry)
    ensures specs[|specs| - 1].name !in NameSet(specs[..|specs| - 1])
    ensures specs[|specs| - 1].name !in registry
  {
    var prefix := specs[..|specs| - 1];
    forall k | 0 <= k < |prefix| ensures prefix[k] == specs[k] { }
    NotInNameSet(prefix, specs[|specs| - 1].name);
  }

  /** Each instance's name is new when it is started: held neither by the
      registry nor by an instance before it. */
  predicate NewNames(specs: seq<InstanceSpec>, registry: Registry)
    decreases |specs|
  {
    |specs| == 0 ||
      (var prefix := specs[..|specs| - 1];
       var name := specs[|specs| - 1].name;
       NewNames(prefix, registry) && name !in registry && name !in NameSet(prefix))
  }

  /** Distinct names none of which is registered are new one by one. */
  lemma {:induction false} DistinctNamesAreNew(specs: seq<InstanceSpec>, registry: Registry)
    requires DistinctNames(specs) && FreshNames(specs, registry)
    ensures NewNames(specs, registry)
    decreases |specs|
  {
    if |specs| > 0 {
      PrefixNames(specs, registry);
      DistinctNamesAreNew(specs[..|specs| - 1], registry);
    }
  }

  /** When every name is new as its instance starts, the registry grows by
      one entry per child. */
  lemma {:induction false} SpawnAllSize(registry: Registry, specs: seq<InstanceSpec>, cwd: string)
    requires NewNames(specs, registry)
    ensures |SpawnAll(registry, specs, cwd).1| == |registry| + |specs|
    decreases |specs|
  {
    if |specs| > 0 {
      var prefix := specs[..|specs| - 1];
      SpawnAllSize(registry, prefix, cwd);
      Unregistered(registry, prefix, cwd, specs[|specs| - 1].name);
      SpawnAllLast(registry, specs, cwd);
    }
  }

  /** When every name is new as its instance starts, the `k`-th child sees
      `|registry| + k` entries and gets color `(|registry| + k) mod 5`. */
  lemma {:induction false} SpawnAllColorAt(registry: Registry, specs: seq<InstanceSpec>, cwd: string, k: nat)
    requires NewNames(specs, registry)
    requires k < |specs|
    ensures SpawnAll(registry, specs, cwd).0[k].color == ColorFor(|registry| + k)
    decreases |specs|
  {
    var prefix := specs[..|specs| - 1];
    SpawnAllLastColor(registry, specs, cwd);
    if k == |specs| - 1 {
      SpawnAllSize(registry, prefix, cwd);
    } else {
      SpawnAllColorAt(registry, prefix, cwd, k);
      AppendLeft(SpawnAll(registry, prefix, cwd).0, [SpawnAll(registry, specs, cwd).0[|specs| - 1]], k);
    }
  }

  /** The last child follows the children of the other instances, in the
      color that the size of their registry picks. */
  lemma SpawnAllLastColor(registry: Registry, specs: seq<InstanceSpec>, cwd: string)
    requires |specs| > 0
    ensures var children := SpawnAll(registry, specs, cwd).0;
      children == SpawnAll(registry, specs[..|specs| - 1], cwd).0 + [children[|specs| - 1]]
    ensures SpawnAll(registry, specs, cwd).0[|specs| - 1].color
      == ColorFor(|SpawnAll(registry, specs[..|specs| - 1], cwd).1|)
  {
    SpawnAllLast(registry, specs, cwd);
  }

  /** Starting instances with distinct names from an empty registry: the
      `k`-th child is started from the `k`-th instance in color `k` mod 5. */
  lemma SpawnFromEmpty(specs: seq<InstanceSpec>, cwd: string, k: nat)
    requires DistinctNames(specs)
    requires k < |specs|
    ensures SpawnAll(map[], specs, cwd).0[k] == Started(specs[k], cwd, ColorFor(k))
  {
    ColorFromEmpty(specs, cwd, k);
    SpawnAllStartAt(map[], specs, cwd, k);
  }

  /** From an empty registry, child `k` of instances with distinct names
      gets color `k` mod 5. */
  lemma ColorFromEmpty(specs: seq<InstanceSpec>, cwd: string, k: nat)
    requires DistinctNames(specs)
    requires k < |specs|
    ensures SpawnAll(map[], specs, cwd).0[k].color == ColorFor(k)
  {
    var empty: Registry := map[];
    assert |empty| + k == k;
    DistinctNamesAreNew(specs, empty);
    SpawnAllColorAt(empty, specs, cwd, k);
  }

  /** Starting a plan whose process types are distinct words from an empty
      registry: child `k` runs instance `k` of the plan, on port
      `basePort + k`, in color `k` mod 5. */
  lemma PlanChildAt(procs: Assoc<string>, conc: Assoc<Number>, basePort: int, base: Env, cwd: string, k: nat)
    requires WellFormed(procs)
    requires forall i :: 0 <= i < |procs| ==> AllWord(procs[i].0)
    requires k < |Plan(procs, conc, basePort, base)|
    ensures SpawnAll(map[], Plan(procs, conc, basePort, base), cwd).0[k]
      == Started(Plan(procs, conc, basePort, base)[k], cwd, ColorFor(k))
    ensures Plan(procs, conc, basePort, base)[k].env == PortEnv(base, basePort + k)
  {
    PlanNamesDistinct(procs, conc, basePort, base);
    PlanPorts(procs, conc, basePort, base);
    SpawnFromEmpty(Plan(procs, conc, basePort, base), cwd, k);
  }

  /** Starting one more instance extends the children and the registry by
      that instance alone. */
  lemma SpawnAllSnoc(registry: Registry, specs: seq<InstanceSpec>, spec: InstanceSpec, cwd: string)
    ensures var prior := SpawnAll(registry, specs, cwd);
      var child := SpawnProcess(prior.1, spec, cwd);
      SpawnAll(registry, specs + [spec], cwd) == (prior.0 + [child], prior.1[spec.name := child])
  {
    assert (specs + [spec])[..|specs|] == specs;
  }

  /** The plan for one more process type is the plan so far followed by
      that type's replicas, numbered on from where the plan stopped. */
  lemma PlanSnoc(procs: Assoc<string>, conc: Assoc<Number>, basePort: int, base: Env, i: nat)
    requires i < |procs|
    ensures var prior := Plan(procs[..i], conc, basePort, base);
      Plan(procs[..i + 1], conc, basePort, base)
        == prior + Replicas(procs[i].0, procs[i].1, ReplicaCount(conc, procs[i].0), basePort, |prior|, base)
  {
    assert procs[..i + 1][..i] == procs[..i];
  }

  /** Starting replica `j` of a type after the instances already started
      and its first `j` replicas. */
  lemma SpawnNextReplica(registry: Registry, started: seq<InstanceSpec>, key: string, command: string,
                         count: nat, basePort: int, first: int, base: Env, cwd: string, j: nat, port: int)
    requires j < count && port == basePort + first + j
    ensures var replicas := Replicas(key, command, count, basePort, first, base);
      var prev := SpawnAll(registry, started + replicas[..j], cwd);
      var child := SpawnProcess(prev.1, InstanceSpec(InstanceName(key, j), command, port, PortEnv(base, port)), cwd);
      SpawnAll(registry, started + replicas[..j + 1], cwd) == (prev.0 + [child], prev.1[InstanceName(key, j) := child])
  {
    var replicas := Replicas(key, command, count, basePort, first, base);
    TakeOneMore(started, replicas, j);
    SpawnAllSnoc(registry, started + replicas[..j], replicas[j], cwd);
  }

  /** The inner loop for one process type: it starts the type's replicas
      one by one, numbering ports on from `index`, after the instances
      already started. */
  method SpawnReplicas(key: string, command: string, count: Number, basePort: int, base: Env, cwd: string,
                       ghost registry: Registry, ghost started: seq<InstanceSpec>,
                       children0: seq<Child>, reg0: Registry, index0: int)
    returns (children: seq<Child>, reg: Registry, index: int)
    requires children0 == SpawnAll(registry, started, cwd).0 && reg0 == SpawnAll(registry, started, cwd).1
    ensures var specs := started + Replicas(key, command, Iterations(count), basePort, index0, base);
      children == SpawnAll(registry, specs, cwd).0 && reg == SpawnAll(registry, specs, cwd).1
    ensures index == index0 + Iterations(count)
  {
    ghost var replicas := Replicas(key, command, Iterations(count), basePort, index0, base);
    children, reg, index := children0, reg0, index0;
    var j := 0;
    ghost var done := started;
    AppendNone(started, replicas);
    while count.Num? && j < count.value
      invariant 0 <= j <= Iterations(count)
      invariant index == index0 + j
      invariant done == started + replicas[..j]
      invariant children == SpawnAll(registry, done, cwd).0
      invariant reg == SpawnAll(registry, done, cwd).1
    {
      var port := basePort + index;
      SpawnNextReplica(registry, started, key, command, Iterations(count), basePort, index0, base, cwd, j, port);
      var spec := InstanceSpec(InstanceName(key, j), command, port, PortEnv(base, port));
      var child := SpawnProcess(reg, spec, cwd);
      reg := reg[spec.name := child];
      children := children + [child];
      index := index + 1;
      j := j + 1;
      done := started + replicas[..j];
    }
    assert j == |replicas|;
    TakeAll(replicas);
    assert done == started + replicas;
  }

  /** The loop over the process types and, within each, over its replicas,
      with one running index across all of them: it starts exactly the
      planned instances, in plan order, from the given registry. */
  method SpawnProcesses(procs: Assoc<string>, opts: Options, base: Env, host: Host, registry: Registry)
    returns (children: seq<Child>, reg: Registry)
    ensures (children, reg)
      == SpawnAll(registry, Plan(procs, ParseConcurrency(opts.concurrency), opts.port, base), WorkingDir(opts, host))
  {
    var conc := ParseConcurrency(opts.concurrency);
    var cwd := WorkingDir(opts, host);
    children, reg := [], registry;
    var index := 0;
    var i := 0;
    ghost var planned: seq<InstanceSpec> := [];
    while i < |procs|
      invariant 0 <= i <= |procs|
      invariant planned == Plan(procs[..i], conc, opts.port, base)
      invariant index == |planned|
      invariant children == SpawnAll(registry, planned, cwd).0
      invariant reg == SpawnAll(registry, planned, cwd).1
    {
      var count := ConcurrentCount(conc, procs[i].0);
      assert ReplicaCount(conc, procs[i].0) == Iterations(count);
      PlanSnoc(procs, conc, opts.port, base, i);
      children, reg, index :=
        SpawnReplicas(procs[i].0, procs[i].1, count, opts.port, base, cwd, registry, planned, children, reg, index);
      planned := planned + Replicas(procs[i].0, procs[i].1, Iterations(count), opts.port, |planned|, base);
      i := i + 1;
    }
    assert procs[..i] == procs;
  }
}
