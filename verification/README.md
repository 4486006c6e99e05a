# forewoman launcher core, in Dafny

forewoman is a Node.js clone of foreman. `forewoman start` does the following:

- It reads a `Procfile`. Each line `name: command` declares a process type.
- It reads a concurrency option `-c web=2,worker=3`.
- It starts every replica of every process type as a child process.
  - The replicas are named `web-0`, `web-1`, … .
  - Each replica gets its own port, counted up from a base port and passed in `PORT`.
  - All replicas run in one working directory.
  - Each replica shows its output on the console in one of five colours, handed out in turn.

This project models the planning part of that launcher: the behaviour of `lib/cli.js`. Everything that only computes is modelled and proved. The operating-system work is not modelled: reading the file, spawning, and the console stream listeners. Instead, the model records what would be passed to the spawn and what would be written.

The modules follow the file's structure, bottom-up:

| module | what it is |
|---|---|
| `Wrappers`, `Chars`, `Seqs` | `Option`; the character classes `\w`, `\s` and the line terminators; generic sequence facts |
| `Strings` | `String.prototype.split` on a single character or a one-class regular expression, and `join` |
| `Decimal` | how JavaScript prints an integer (`String(n)`, `'' + n`) |
| `JsNumber` | `parseInt` without a radix, as section 19.2.5 of ECMA-262 defines it: leading white space, sign, `0x` prefix, longest digit run, `NaN` |
| `OrderedMap` | a plain object used as a dictionary: assignment overwrites in place and appends new keys; `Object.keys` keeps first-assignment order |
| `Procfile` | `parseProcfile`: split into lines, unanchored regular-expression search per line, assignment into an object |
| `Concurrency` | `parseConcurrencyOpts`, and the instance count of the launcher loop (the looked-up count, or 1 when it is falsy) |
| `Planner` | the instances the double loop of `spawnProcesses` starts: names, commands, ports, environments |
| `Supervisor` | options, `cmdWorkingDir`, the command tokenizer, the colour choice, `spawnProcess`, and the two loops as methods |
| `Console` | the console lines of a child: `[name] chunk` and `[name] exited with code N` |
| `Forewoman` | `cli.start`: the Procfile path and the children started for the read contents |

## Model

| member | source | states |
|---|---|---|
| Strings.Split | lib/cli.js:34 | splitting yields one piece more than there are separators, and no piece holds a separator |
| Strings.JoinSplit | lib/cli.js:133 | joining the pieces of a split with the separator gives the original string back |
| Strings.SplitJoin | lib/cli.js:54 | splitting the join of separator-free pieces gives exactly those pieces back |
| Strings.SplitAtSeparator | lib/cli.js:54 | the pieces of `a + sep + b` are the pieces of `a` followed by those of `b` |
| Decimal.IntToString | lib/cli.js:83 | the printed port has a leading minus exactly for negative numbers and digits otherwise |
| Decimal.DecimalValueOfNatToString | lib/cli.js:116 | the printed replica number reads back as the number |
| Decimal.NatToStringInjective | lib/cli.js:116 | different replica numbers print differently |
| JsNumber.TrimStart | lib/cli.js:60 | `parseInt` drops exactly the leading white space, and what remains does not start with white space |
| JsNumber.DigitRun | lib/cli.js:60 | the digits read are the longest prefix of digits |
| JsNumber.ParseIntOfNumeral | lib/cli.js:60 | `parseInt` reads back the numeral of any integer, whatever follows it that does not extend the numeral: no digit, and no `x` or `X` after a `0` |
| JsNumber.ParseIntRoundTrip | lib/cli.js:60 | `parseInt(String(i))` is `i` for every integer |
| JsNumber.ParseIntSkipsSpace | lib/cli.js:60 | leading white space never changes what `parseInt` reads |
| OrderedMap.Lookup | lib/cli.js:114 | a key has a value exactly when it is among the object's keys, and the value is the one stored under it |
| OrderedMap.Put | lib/cli.js:41 | assignment sets the key's value and leaves every other key alone; an existing key keeps its place, a new key goes last |
| OrderedMap.PutNew | lib/cli.js:41 | assigning a new key appends it with its value |
| OrderedMap.PutExisting | lib/cli.js:41 | assigning an existing key replaces its value where it stands |
| OrderedMap.FromPairsKeys | lib/cli.js:38-42 | the keys of the built object are exactly the assigned keys |
| OrderedMap.FromPairsLookup | lib/cli.js:57-62 | the last assignment of a key wins, and unassigned keys are undefined |
| OrderedMap.FromPairsOrder | lib/cli.js:112-113 | `Object.keys` lists keys in the order of their first assignment |
| OrderedMap.FromPairsOfObject | lib/cli.js:38-42 | assigning the entries of an object in order to `{}` rebuilds it |
| Procfile.MatchAt | lib/cli.js:35 | a match captures a non-empty word run as the name and a non-empty terminator-free command |
| Procfile.ParseProcfile | lib/cli.js:33-45 | the parsed object has distinct keys, each a word run, each with a non-empty terminator-free command |
| Procfile.LineEntryExists | lib/cli.js:35-40 | a line yields an entry exactly when it has a colon after a word character with something after the colon |
| Procfile.LineEntryAtFirstColon | lib/cli.js:35-41 | the entry comes from the first such colon: the whole word run before it, and the rest of the line after at most one white-space character |
| Procfile.NoColonNoEntry | lib/cli.js:39-40 | a line with no such colon yields nothing |
| Procfile.PrefixedDeclaration | lib/cli.js:35 | a declaration behind a prefix such as `# ` is still read: the search is not anchored |
| Procfile.DeclarationLineEntry | lib/cli.js:35 | the line `name: command` yields exactly that name and command |
| Procfile.ParseProcfileAppendLine | lib/cli.js:34-42 | one more line is one more assignment: a non-matching line changes nothing, a matching one is put into the object |
| Procfile.ParseProcfileOneLine | lib/cli.js:34-42 | a one-line Procfile holds that line's entry, if any |
| Procfile.CrLfLikeLf | lib/cli.js:34 | a `\r\n` line ending anywhere in the text parses like a `\n` |
| Procfile.EntriesAppend | lib/cli.js:38-42 | the entries of two runs of lines are the entries of the first run followed by those of the second |
| Procfile.OneDeclaration | lib/cli.js:38-42 | a lone declaration line declares exactly its process type |
| Procfile.AppendNewDeclaration | lib/cli.js:38-42 | a declaration of a new type is appended after the earlier types |
| Procfile.AppendKnownDeclaration | lib/cli.js:38-42 | a declaration of a known type replaces its command in place |
| Procfile.LaterDuplicateOverwrites | lib/cli.js:38-42 | `web: a`, `worker: b`, `web: c` gives `web: c` then `worker: b` |
| Procfile.ProcfileRoundTrip | lib/cli.js:33-45 | formatting an object of valid names and commands as a Procfile and parsing it gives the object back, key order included |
| Concurrency.ParseConcurrency | lib/cli.js:53-64 | the concurrency object has distinct keys |
| Concurrency.ConcurrentCount | lib/cli.js:114 | the count after the fallback to 1 is always truthy |
| Concurrency.ReplicaCountCases | lib/cli.js:114-115 | a missing, `NaN` or zero count starts one instance, a positive count `n` starts `n`, and a negative count starts none |
| Concurrency.SegmentEntryShape | lib/cli.js:58-60 | a segment assigns a count exactly when it holds exactly one `=`; the count is `parseInt` of the text after it |
| Concurrency.SegmentOfCount | lib/cli.js:58-60 | the segment `name=<numeral of n>` assigns `n` to `name` |
| Concurrency.CountOfOption | lib/cli.js:53-64 | the option `name=n` starts `n` instances when `n` is positive, one when it is zero, none when it is negative |
| Concurrency.NoOptionNoCounts | lib/cli.js:54 | an absent or empty option assigns nothing |
| Concurrency.AppendSegment | lib/cli.js:54-62 | one more segment is one more assignment, or nothing when it does not hold exactly one `=` |
| Concurrency.OneSegment | lib/cli.js:54-62 | a single comma-free segment gives its entry, if any |
| Concurrency.InheritedCountAgrees | lib/cli.js:114-115 | the count on a real object differs from the intended one exactly for unassigned names that `Object.prototype` has |
| Concurrency.ConstructorStartsNothing | lib/cli.js:114-115 | a type named `constructor` without a count gets one instance as intended but none as written |
| Concurrency.AbsentCountStartsOne | lib/cli.js:114 | a type without a count starts one instance |
| Planner.PortEnv | lib/cli.js:81-85 | an instance's environment is the base one with `PORT` set to the numeral of its port and nothing else changed |
| Planner.Plan | lib/cli.js:110-123 | the plan holds as many instances as the counts add up to |
| Planner.PlanPorts | lib/cli.js:81-85 | instance `k` listens on base port plus `k`, with `PORT` holding that port |
| Planner.PlanLayout | lib/cli.js:112-120 | replica `j` of type `i` is instance `Offset(i) + j`, named `<type>-<j>` and running the type's command |
| Planner.PlanIndex | lib/cli.js:112-120 | every instance index is the offset of some type plus one of its replica numbers |
| Planner.PlanNameAt | lib/cli.js:116 | every planned instance is named after one of the types |
| Planner.OffsetMonotone | lib/cli.js:112-120 | a later type never starts before an earlier one (types with no instances share an offset) |
| Planner.PlanPrefix | lib/cli.js:112-120 | adding types never moves an earlier instance |
| Planner.InstanceNameInjective | lib/cli.js:116 | an instance name determines its type and replica number |
| Planner.PlanNamesDistinct | lib/cli.js:116-117 | no two planned instances share a name |
| Planner.PlanIgnoresOtherNames | lib/cli.js:114 | counts for names that are not types change nothing |
| Supervisor.ColorForModulo | lib/cli.js:132 | the colour of the child started while `n` children are registered is palette entry `n` modulo the palette size, 5 as in `colorSet` |
| Supervisor.SpawnProcessChild | lib/cli.js:131-139 | a new child is shown in palette entry (number of registered children) mod (palette size), carries its instance's name and environment, runs in the working directory, and its executable and arguments joined with spaces are its command, with one argument per space |
| Supervisor.WorkingDirPriority | lib/cli.js:71-79 | the directory option wins over the Procfile option, which wins over the current directory |
| Supervisor.Tokenize | lib/cli.js:133 | a command with `m` spaces gives `m` arguments, none of which holds a space |
| Supervisor.TokenizeRoundTrip | lib/cli.js:133-135 | the executable and the arguments joined with spaces are the command |
| Supervisor.TokenizeJoin | lib/cli.js:133-135 | space-free tokens joined with spaces are cut back into those tokens |
| Supervisor.SpawnAllStartAt | lib/cli.js:117-119 | each child is started from its own instance |
| Supervisor.SpawnAllRegisters | lib/cli.js:117 | after spawning, the registry's keys are the keys it already held plus the instance names |
| Supervisor.SpawnAllKeepsOthers | lib/cli.js:117-119 | an entry of the registry whose name no instance carries keeps the child it held |
| Supervisor.SpawnAllMapsName | lib/cli.js:117-119 | the registry maps each instance's name to the child started for it, unless a later instance with the same name overwrites the entry |
| Supervisor.SpawnAllSize | lib/cli.js:117 | with new names, the registry grows by one entry per child |
| Supervisor.SpawnAllColorAt | lib/cli.js:132 | with new names, the `k`-th child gets the colour for the registry's initial size plus `k` |
| Supervisor.SpawnFromEmpty | lib/cli.js:117-132 | from an empty registry, for instances with distinct names, child `k` runs instance `k` in colour `k mod 5` |
| Supervisor.PlanChildAt | lib/cli.js:110-139 | starting a plan from an empty registry: child `k` runs instance `k`, on base port plus `k`, in colour `k mod 5` |
| Supervisor.SpawnReplicas | lib/cli.js:115-121 | the inner loop starts the replicas of one type in order and advances the running index by their number |
| Supervisor.SpawnProcesses | lib/cli.js:110-123 | the double loop starts exactly the planned instances in plan order |
| Console.Render | lib/cli.js:141-151 | every console line of a child is in the child's colour and starts with `[name] ` |
| Console.LabelOfPrefix | lib/cli.js:142 | reading the label back off a line gives the child's name |
| Console.RenderStreamsAlike | lib/cli.js:141-147 | standard output and standard error are shown alike |
| Console.ExitCodeReadBack | lib/cli.js:150 | the printed exit code reads back as the code, and `null` as no number |
| Console.ExitLineRoundTrip | lib/cli.js:149-151 | the exit line is exactly the label, `exited with code ` and the printed code; the label reads back as the child's name and the code as the code |
| Forewoman.ProcfilePath | lib/cli.js:298-303 | with a Procfile option the path is that option normalized; without one it is the current directory followed by `/Procfile` |
| Forewoman.Start | lib/cli.js:305-315 | an unreadable Procfile starts nothing |
| Forewoman.StartChildren | lib/cli.js:305-315 | `start` starts one child per planned instance; child `k` is on base port plus `k`, in colour `k mod 5`, in the chosen working directory |
| Forewoman.StartChildAt | lib/cli.js:305-315 | child `k` of `start` has the environment of port base plus `k`, colour `k mod 5` and the chosen working directory |
| Forewoman.LaunchChildAt | lib/cli.js:110-139 | the same for any process types with distinct word names |
| Forewoman.StartLayout | lib/cli.js:110-123 | replica `j` of the `i`-th declared type is child `Offset(i) + j`, named `<type>-<j>` and running the declared command |
| Forewoman.LaunchLayout | lib/cli.js:112-119 | the same for any process types and counts |
| Forewoman.StartNamesDistinct | lib/cli.js:116-117 | no two children of `start` share a name |
| Forewoman.LaunchNamesDistinct | lib/cli.js:116-117 | the same for any process types with distinct word names |
| Forewoman.StartLabels | lib/cli.js:141-151 | every console line of a started child is labelled with that child's name |
| Forewoman.LaunchLabels | lib/cli.js:141-151 | the same for any process types with distinct word names |

### Where the code and the documented intent differ

The model follows the code in each of these cases:

- **Commented lines are declarations.** The Procfile pattern is searched anywhere in a line, not anchored to its start. So `# web: node a.js` still declares `web` (`Procfile.PrefixedDeclaration`).
- **Negative counts start nothing.** `-1 || 1` is `-1`, so the loop body never runs (`Concurrency.CountOfOption`).
- **Non-numeric counts are kept.** `worker=x` stores `NaN` under `worker` rather than leaving it out. `NaN || 1` is 1, so one instance starts either way.
- **Spaces are not collapsed.** The command is cut at every single space: two spaces in a row give an empty argument.
- **The colon may be followed by any white space.** The optional character after the colon is any white-space character, not only a space. It is kept as part of the command when nothing else follows it.

## Left out

- Reading the Procfile: `Start` takes the contents, or `None` when reading failed. The error logging through winston is not modelled.
- Spawning: the child process is replaced by a record of the executable, arguments, working directory and environment handed to `spawn`. The `data` and `exit` listeners become `Console.Render` on an event.
- Rendering colours: the console line carries its colour as a value. Terminal escape codes are not modelled.
- `path.normalize`, `path.dirname` and `process.cwd()`: these are host functions passed in through `Supervisor.Host` and are not interpreted.
- Mutating `process.env`: `procEnvVar` writes `PORT` into the shared environment object just before each spawn. The model gives each child a snapshot of the base environment with `PORT` set. Each spawn copies the environment at that moment, so this is what every child sees. The lasting change to the launcher's own environment is left out.
- Reading `argv` into the options, including `parseInt` of the base port (lib/cli.js:290-295): the options arrive already read, and the base port is an integer. A non-numeric `-p` gives `NaN` ports in the source, which is not modelled.
- `cli.run`, the help text and the other commands (lib/cli.js:163-252): these are outside the launcher core.
- `envFileVar` (lib/cli.js:87-104): it is never called, and it reads files asynchronously.
- Integer-like keys: JavaScript lists keys such as `"1"` or `"42"` before all others, in numeric order. The model keeps first-assignment order for every key.
- Supervisor.SpawnProcesses, Forewoman.Start: the instance count reads only the concurrency option's own entries, not the members every object inherits from `Object.prototype`. A type named `constructor`, `toString`, `valueOf` or `hasOwnProperty` without a count therefore starts once here but never in the source (see ## Findings; the as-written count is `Concurrency.InheritedReplicaCount`).
- `__proto__` as a Procfile type or a concurrency name: assigning to it in the source creates no key, but the model creates one.
- Planner.PlanPorts, Decimal.IntToString: the source adds the base port and the instance index as JavaScript doubles and prints the sum with `String` (lib/cli.js:83). Ports and their numerals are exact only below 2^53: from there on `base + 1 == base`, so two children can get the same `PORT`. From 10^21 on, `String` prints exponent notation such as `1e+21`. The model's integers are unbounded, so neither effect is modelled.
- `JsNumber.ParseInt`: does not model the loss of precision for numerals beyond 2^53, because the model's integers are unbounded. It also does not distinguish `-0` from `0`, since both are falsy.
- Strings are sequences of Unicode scalar values, not of UTF-16 code units. Characters outside the Basic Multilingual Plane are therefore one character here and two in the source.
- The registry of running children is a parameter, not a module-level variable. `Forewoman.Launch` and `Forewoman.Start` begin with the empty registry, which is the first `start` of a process; a later call on a registry that already holds children is covered by the `Supervisor` lemmas, which take any registry.
- The `Buffer` to string conversion of output chunks: chunks arrive as strings.

## Findings

| source | as written | input that shows it | evidently intended | confidence | as-written member | corrected member |
|---|---|---|---|---|---|---|
| lib/cli.js:114-115 | the count lookup reads inherited properties of a plain object; an inherited function is truthy, and the loop comparison with it is false | the Procfile `constructor: node app.js` with no concurrency option | a type without a count starts once, whatever its name | medium; not executed | Concurrency.ConstructorStartsNothing | Concurrency.AbsentCountStartsOne |
