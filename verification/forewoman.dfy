/** The `start` command: find the Procfile, and once its contents have been
    read, parse it and start every planned instance from an empty registry.
    Reading the file is left to the caller, who passes its contents, or
    nothing when the file could not be read. */
module Forewoman {
  import opened Wrappers
  import opened Chars
  import opened Decimal
  import opened JsNumber
  import opened OrderedMap
  import opened Procfile
  import opened Concurrency
  import opened Planner
  import opened Supervisor
  import opened Console

  /** Where the Procfile is looked for: the normalized Procfile option if
      set, else `Procfile` in the current working directory. */
  function ProcfilePath(opts: Options, host: Host): (path: string)
    ensures Truthy(opts.procfile) ==> path == host.normalize(opts.procfile.value)
    ensures !Truthy(opts.procfile) ==>
      |path| >= 9 && path[..|path| - 9] == host.cwd && path[|path| - 9..] == "/Procfile"
  {
    if Truthy(opts.procfile) then host.normalize(opts.procfile.value)
    else host.cwd + "/Procfile"
  }

  /** The children `start` spawns, given the Procfile contents (absent when
      the file could not be read, in which case nothing is started). */
  function Start(contents: Option<string>, opts: Options, base: Env, host: Host): (children: seq<Child>)
    ensures contents.None? ==> children == []
  {
    match contents
    case None => []
    case Some(text) =>
      Launch(ParseProcfile(text), ParseConcurrency(opts.concurrency), opts.port, base, WorkingDir(opts, host))
  }

  /** The children started for parsed process types and counts, from an
      empty registry, all in working directory `cwd`. */
  function Launch(procs: Assoc<string>, conc: Assoc<Number>, basePort: int, base: Env, cwd: string): seq<Child> {
    SpawnAll(map[], Plan(procs, conc, basePort, base), cwd).0
  }

  /** Instance names are a word, a dash and digits, so they hold no `]`. */
  lemma InstanceNameUnbracketed(typeName: string, replica: nat)
    requires AllWord(typeName)
    ensures forall k :: 0 <= k < |InstanceName(typeName, replica)| ==> InstanceName(typeName, replica)[k] != ']'
  {
    var s := InstanceName(typeName, replica);
    var digits := NatToString(replica);
    assert s == typeName + "-" + digits;
    forall k | 0 <= k < |s| ensures s[k] != ']' {
      if k < |typeName| {
        assert s[k] == typeName[k];
      } else if k > |typeName| {
        assert s[k] == digits[k - |typeName| - 1];
      }
    }
  }

  /** The process types of a parsed Procfile are distinct words. */
  predicate ParsedTypes(procs: Assoc<string>) {
    WellFormed(procs) && forall i :: 0 <= i < |procs| ==> AllWord(procs[i].0)
  }

  /** Every parsed Procfile has distinct word process types. */
  lemma ParsedProcfileTypes(text: string)
    ensures ParsedTypes(ParseProcfile(text))
  {
  }

  /** Child `k` of a launch listens on port base + `k`, with `PORT` set to
      it and every other variable inherited, is shown in color number `k`
      mod 5, and runs in the shared working directory. */
  lemma LaunchChildAt(procs: Assoc<string>, conc: Assoc<Number>, basePort: int, base: Env, cwd: string, k: nat)
    requires ParsedTypes(procs)
    requires k < |Launch(procs, conc, basePort, base, cwd)|
    ensures var child := Launch(procs, conc, basePort, base, cwd)[k];
      && child.env == PortEnv(base, basePort + k)
      && child.color == Palette[k % |Palette|]
      && child.cwd == cwd
  {
    PlanChildAt(procs, conc, basePort, base, cwd, k);
    ColorForModulo(k);
  }

  /** The `k`-th child of `start` listens on port base + `k`, with `PORT`
      set to it and every other variable inherited, is shown in color
      number `k` mod 5, and runs in the chosen working directory. */
  lemma StartChildAt(text: string, opts: Options, base: Env, host: Host, k: nat)
    requires k < |Start(Some(text), opts, base, host)|
    ensures var child := Start(Some(text), opts, base, host)[k];
      && child.env == PortEnv(base, opts.port + k)
      && child.color == Palette[k % |Palette|]
      && child.cwd == WorkingDir(opts, host)
  {
    ParsedProcfileTypes(text);
    LaunchChildAt(ParseProcfile(text), ParseConcurrency(opts.concurrency), opts.port, base, WorkingDir(opts, host), k);
  }

  /** What `start` does with a Procfile that could be read: one child per
      planned instance, the `k`-th on port base + `k` with `PORT` set to it
      and every other variable inherited, in color number `k` mod 5, all in
      the same working directory. */
  lemma StartChildren(text: string, opts: Options, base: Env, host: Host)
    ensures var children := Start(Some(text), opts, base, host);
      && |children| == TotalInstances(ParseProcfile(text), ParseConcurrency(opts.concurrency))
      && (forall k :: 0 <= k < |children| ==>
            && children[k].env == PortEnv(base, opts.port + k)
            && children[k].env[PortVariable] == IntToString(opts.port + k)
            && children[k].color == Palette[k % |Palette|]
            && children[k].cwd == WorkingDir(opts, host))
  {
    var children := Start(Some(text), opts, base, host);
    forall k | 0 <= k < |children|
      ensures children[k].env == PortEnv(base, opts.port + k)
      ensures children[k].color == Palette[k % |Palette|]
      ensures children[k].cwd == WorkingDir(opts, host)
    {
      StartChildAt(text, opts, base, host, k);
    }
  }

  /** Replica `j` of process type `i` is child `Offset(i) + j` of a launch:
      it carries the instance name and runs the type's command, cut into
      executable and arguments. */
  lemma LaunchLayout(procs: Assoc<string>, conc: Assoc<Number>, basePort: int, base: Env, cwd: string, i: nat, j: nat)
    requires i < |procs| && j < ReplicaCount(conc, procs[i].0)
    ensures var children := Launch(procs, conc, basePort, base, cwd);
      var k := Offset(procs, conc, i) + j;
      && k < |children|
      && children[k].name == InstanceName(procs[i].0, j)
      && Tokenize(procs[i].1) == CommandLine(children[k].executable, children[k].args)
  {
    var plan := Plan(procs, conc, basePort, base);
    var k := Offset(procs, conc, i) + j;
    PlanLayout(procs, conc, basePort, base, i, j);
    SpawnAllStartAt(map[], plan, cwd, k);
    var child := SpawnAll(map[], plan, cwd).0[k];
    assert child == Started(plan[k], cwd, child.color);
    assert Launch(procs, conc, basePort, base, cwd)[k] == child;
  }

  /** Each declared process type is started as many times as its count
      asks, each replica under its instance name and running the declared
      command. */
  lemma StartLayout(text: string, opts: Options, base: Env, host: Host, i: nat, j: nat)
    requires i < |ParseProcfile(text)|
    requires j < ReplicaCount(ParseConcurrency(opts.concurrency), ParseProcfile(text)[i].0)
    ensures var procs := ParseProcfile(text);
      var children := Start(Some(text), opts, base, host);
      var k := Offset(procs, ParseConcurrency(opts.concurrency), i) + j;
      && k < |children|
      && children[k].name == InstanceName(procs[i].0, j)
      && Tokenize(procs[i].1) == CommandLine(children[k].executable, children[k].args)
  {
    LaunchLayout(ParseProcfile(text), ParseConcurrency(opts.concurrency), opts.port, base, WorkingDir(opts, host), i, j);
  }

  /** No two children of a launch share an instance name. */
  lemma LaunchNamesDistinct(procs: Assoc<string>, conc: Assoc<Number>, basePort: int, base: Env, cwd: string)
    requires ParsedTypes(procs)
    ensures var children := Launch(procs, conc, basePort, base, cwd);
      forall k1, k2 :: 0 <= k1 < k2 < |children| ==> children[k1].name != children[k2].name
  {
    var plan := Plan(procs, conc, basePort, base);
    var children := Launch(procs, conc, basePort, base, cwd);
    PlanNamesDistinct(procs, conc, basePort, base);
    forall k1, k2 | 0 <= k1 < k2 < |children| ensures children[k1].name != children[k2].name {
      SpawnAllStartAt(map[], plan, cwd, k1);
      SpawnAllStartAt(map[], plan, cwd, k2);
    }
  }

  /** No two children of one `start` share an instance name. */
  lemma StartNamesDistinct(text: string, opts: Options, base: Env, host: Host)
    ensures var children := Start(Some(text), opts, base, host);
      forall k1, k2 :: 0 <= k1 < k2 < |children| ==> children[k1].name != children[k2].name
  {
    ParsedProcfileTypes(text);
    LaunchNamesDistinct(ParseProcfile(text), ParseConcurrency(opts.concurrency), opts.port, base, WorkingDir(opts, host));
  }

  /** Every console line of a launched child carries that child's instance
      name as its label. */
  lemma LaunchLabels(procs: Assoc<string>, conc: Assoc<Number>, basePort: int, base: Env, cwd: string, k: nat, event: Event)
    requires ParsedTypes(procs)
    requires k < |Launch(procs, conc, basePort, base, cwd)|
    ensures var child := Launch(procs, conc, basePort, base, cwd)[k];
      LabelOf(Render(child, event).text) == Some(child.name)
  {
    var plan := Plan(procs, conc, basePort, base);
    var child := Launch(procs, conc, basePort, base, cwd)[k];
    SpawnAllStartAt(map[], plan, cwd, k);
    assert child.name == plan[k].name;
    var i, j := PlanNameAt(procs, conc, basePort, base, k);
    InstanceNameUnbracketed(procs[i].0, j);
    var rest := Render(child, event).text[|LinePrefix(child.name)|..];
    assert Render(child, event).text == LinePrefix(child.name) + rest;
    LabelOfPrefix(child.name, rest);
  }

  /** Every console line of a started child carries that child's instance
      name as its label. */
  lemma StartLabels(text: string, opts: Options, base: Env, host: Host, k: nat, event: Event)
    requires k < |Start(Some(text), opts, base, host)|
    ensures var child := Start(Some(text), opts, base, host)[k];
      LabelOf(Render(child, event).text) == Some(child.name)
  {
    ParsedProcfileTypes(text);
    LaunchLabels(ParseProcfile(text), ParseConcurrency(opts.concurrency), opts.port, base, WorkingDir(opts, host), k, event);
  }
}
