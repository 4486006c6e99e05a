/** The Procfile parser: the text is cut into lines at every line terminator,
    each line is searched, anywhere in the line, for a run of word
    characters, a colon, an optional white-space character and a non-empty
    rest of the line, and every line that matches assigns its rest (the
    command) to its word run (the process type name) in an object. */
module Procfile {
  import opened Wrappers
  import opened Seqs
  import opened Chars
  import opened Strings
  import opened OrderedMap

  /** What group 1 can capture: a non-empty run of word characters. */
  predicate ValidName(name: string) {
    |name| > 0 && AllWord(name)
  }

  /** What group 2 can capture: non-empty, with no line terminator. */
  predicate ValidCommand(cmd: string) {
    |cmd| > 0 && NoLineTerminator(cmd)
  }

  /** End of the greedy run `[\w]+` started at `p`. */
  function WordRunEnd(s: string, p: nat): (e: nat)
    requires p <= |s|
    ensures p <= e <= |s|
    ensures forall k :: p <= k < e ==> IsWordChar(s[k])
    ensures e < |s| ==> !IsWordChar(s[e])
    decreases |s| - p
  {
    if p < |s| && IsWordChar(s[p]) then WordRunEnd(s, p + 1) else p
  }

  /** End of the greedy run of non-terminator characters started at `p`. */
  function TextRunEnd(s: string, p: nat): (e: nat)
    requires p <= |s|
    ensures p <= e <= |s|
    ensures forall k :: p <= k < e ==> !IsLineTerminator(s[k])
    ensures e < |s| ==> IsLineTerminator(s[e])
    decreases |s| - p
  {
    if p < |s| && !IsLineTerminator(s[p]) then TextRunEnd(s, p + 1) else p
  }

  /** The match of the pattern that starts exactly at `p`, with the
      backtracking of a JavaScript regular expression: `[\w]+` takes the
      whole word run (a shorter run would be followed by a word character,
      not by `:`); `\s?` first tries to take one white-space character, and
      gives it back when the command group would otherwise be empty. */
  function MatchAt(s: string, p: nat): (r: Option<(string, string)>)
    requires p <= |s|
    ensures r.Some? ==> ValidName(r.value.0) && ValidCommand(r.value.1)
  {
    if p == |s| || !IsWordChar(s[p]) then None
    else
      var e := WordRunEnd(s, p);
      if e == |s| || s[e] != ':' then None
      else if e + 2 < |s| && IsSpace(s[e + 1]) && !IsLineTerminator(s[e + 2]) then
        Some((s[p..e], s[e + 2..TextRunEnd(s, e + 2)]))
      else if e + 1 < |s| && !IsLineTerminator(s[e + 1]) then
        Some((s[p..e], s[e + 1..TextRunEnd(s, e + 1)]))
      else None
  }

  /** `exec` without the global flag: the leftmost start position, from `p`
      on, at which the pattern matches. */
  function ExecFrom(s: string, p: nat): (r: Option<(string, string)>)
    requires p <= |s|
    ensures r.Some? ==> ValidName(r.value.0) && ValidCommand(r.value.1)
    decreases |s| - p
  {
    if p == |s| then None
    else if MatchAt(s, p).Some? then MatchAt(s, p)
    else ExecFrom(s, p + 1)
  }

  /** The pattern searched in one line, as the pair (name group, command
      group) of its leftmost match. */
  function LineEntry(line: string): (r: Option<(string, string)>)
    ensures r.Some? ==> ValidName(r.value.0) && ValidCommand(r.value.1)
  {
    ExecFrom(line, 0)
  }

  /** The (name, command) pairs of the matching lines, in line order. */
  function Entries(lines: seq<string>): (es: seq<(string, string)>)
    ensures forall i :: 0 <= i < |es| ==> ValidName(es[i].0) && ValidCommand(es[i].1)
    decreases |lines|
  {
    if |lines| == 0 then []
    else
      var prior := Entries(lines[..|lines| - 1]);
      match LineEntry(lines[|lines| - 1])
      case None => prior
      case Some(e) => prior + [e]
  }

  /** `parseProcfile`: the object from process type name to command. */
  function ParseProcfile(text: string): (procs: Assoc<string>)
    ensures WellFormed(procs)
    ensures forall i :: 0 <= i < |procs| ==> ValidName(procs[i].0) && ValidCommand(procs[i].1)
  {
    var es := Entries(Split(text, LineTerminators));
    var procs := FromPairs(es);
    assert forall i :: 0 <= i < |procs| ==> procs[i] in es;
    procs
  }

  // ---------------------------------------------------------------------
  // Which lines match, and what they capture.

  /** A colon directly after a word character with at least one more
      character after it: exactly where an entry can be found. */
  predicate IsEntryColon(s: string, c: int) {
    0 < c < |s| - 1 && IsWordChar(s[c - 1]) && s[c] == ':'
  }

  /** Start of the maximal word run that ends at `c`. */
  function WordRunStart(s: string, c: nat): (b: nat)
    requires c <= |s|
    ensures b <= c
    ensures forall k :: b <= k < c ==> IsWordChar(s[k])
    ensures b == 0 || !IsWordChar(s[b - 1])
  {
    if c > 0 && IsWordChar(s[c - 1]) then WordRunStart(s, c - 1) else c
  }

  /** The command after the entry colon at `c`: the rest of the line, less
      one leading white-space character when something follows it. */
  function CommandAfter(s: string, c: int): string
    requires IsEntryColon(s, c)
  {
    if IsSpace(s[c + 1]) && c + 2 < |s| then s[c + 2..] else s[c + 1..]
  }

  /** A match at any position is a match at an entry colon. */
  lemma MatchAtColon(s: string, p: nat)
    requires p <= |s|
    ensures MatchAt(s, p).Some? ==> IsEntryColon(s, WordRunEnd(s, p))
  {
  }

  /** A word run that stops at a non-word character ends there. */
  lemma {:induction false} WordRunEndAt(s: string, p: nat, e: nat)
    requires p <= e < |s|
    requires forall k :: p <= k < e ==> IsWordChar(s[k])
    requires !IsWordChar(s[e])
    ensures WordRunEnd(s, p) == e
    decreases e - p
  {
    if p < e {
      WordRunEndAt(s, p + 1, e);
    }
  }

  /** A line with no terminator is all command text from any position. */
  lemma {:induction false} TextRunEndAll(s: string, p: nat)
    requires p <= |s|
    requires NoLineTerminator(s)
    ensures TextRunEnd(s, p) == |s|
    decreases |s| - p
  {
    if p < |s| {
      TextRunEndAll(s, p + 1);
    }
  }

  /** No start position before the word run of the first entry colon
      matches. */
  lemma NoMatchBeforeFirstColon(s: string, c: nat, p: nat)
    requires IsEntryColon(s, c)
    requires forall c' :: 0 <= c' < c ==> !IsEntryColon(s, c')
    requires p < WordRunStart(s, c)
    ensures MatchAt(s, p).None?
  {
    var b := WordRunStart(s, c);
    var e := WordRunEnd(s, p);
    MatchAtColon(s, p);
    assert p <= c < e ==> IsWordChar(s[c]);
    WordRunStartMinimal(s, p, c);
  }

  /** The word run ending at `c` reaches back at least to any `p` from which
      every character up to `c` is a word character. */
  lemma {:induction false} WordRunStartMinimal(s: string, p: nat, c: nat)
    requires p <= c <= |s|
    ensures (forall k :: p <= k < c ==> IsWordChar(s[k])) ==> WordRunStart(s, c) <= p
    decreases c - p
  {
    if p < c {
      WordRunStartMinimal(s, p, c - 1);
    }
  }

  /** Scanning from before the run of the first entry colon finds it. */
  lemma {:induction false} ExecReachesFirstColon(s: string, c: nat, p: nat)
    requires IsEntryColon(s, c)
    requires forall c' :: 0 <= c' < c ==> !IsEntryColon(s, c')
    requires p <= WordRunStart(s, c)
    ensures ExecFrom(s, p) == ExecFrom(s, WordRunStart(s, c))
    decreases WordRunStart(s, c) - p
  {
    if p < WordRunStart(s, c) {
      NoMatchBeforeFirstColon(s, c, p);
      ExecReachesFirstColon(s, c, p + 1);
    }
  }

  /** A line without a terminator that has an entry colon yields the entry
      of its FIRST entry colon: the name is the whole word run before that
      colon (whatever precedes the run, such as `# `, is skipped) and the
      command is the rest of the line after at most one white-space
      character. */
  lemma LineEntryAtFirstColon(s: string, c: nat)
    requires NoLineTerminator(s)
    requires IsEntryColon(s, c)
    requires forall c' :: 0 <= c' < c ==> !IsEntryColon(s, c')
    ensures LineEntry(s) == Some((s[WordRunStart(s, c)..c], CommandAfter(s, c)))
  {
    ExecReachesFirstColon(s, c, 0);
    MatchAtRunStart(s, c);
  }

  /** The match that starts at the word run before an entry colon, in a
      line without a terminator. */
  lemma MatchAtRunStart(s: string, c: nat)
    requires NoLineTerminator(s)
    requires IsEntryColon(s, c)
    ensures MatchAt(s, WordRunStart(s, c)) == Some((s[WordRunStart(s, c)..c], CommandAfter(s, c)))
  {
    var b := WordRunStart(s, c);
    assert b < c && IsWordChar(s[b]);
    WordRunEndAt(s, b, c);
    assert !IsLineTerminator(s[c + 1]);
    assert WordRunEnd(s, b) == c;
    if IsSpace(s[c + 1]) && c + 2 < |s| {
      TextRunEndAll(s, c + 2);
      assert !IsLineTerminator(s[c + 2]);
      assert MatchAt(s, b) == Some((s[b..c], s[c + 2..TextRunEnd(s, c + 2)]));
      SliceToEnd(s, c + 2, TextRunEnd(s, c + 2));
    } else {
      TextRunEndAll(s, c + 1);
      assert MatchAt(s, b) == Some((s[b..c], s[c + 1..TextRunEnd(s, c + 1)]));
      SliceToEnd(s, c + 1, TextRunEnd(s, c + 1));
    }
  }

  /** A line with no entry colon yields nothing. */
  lemma {:induction false} NoColonNoEntry(s: string, p: nat)
    requires p <= |s|
    requires forall c :: 0 <= c < |s| ==> !IsEntryColon(s, c)
    ensures ExecFrom(s, p).None?
    decreases |s| - p
  {
    if p < |s| {
      if MatchAt(s, p).Some? {
        MatchAtColon(s, p);
      }
      NoColonNoEntry(s, p + 1);
    }
  }

  /** A line without a terminator yields an entry exactly when it has an
      entry colon. */
  lemma LineEntryExists(s: string)
    requires NoLineTerminator(s)
    ensures LineEntry(s).Some? <==> exists c :: 0 <= c < |s| && IsEntryColon(s, c)
  {
    if c :| 0 <= c < |s| && IsEntryColon(s, c) {
      var first := FirstEntryColon(s, 0);
      LineEntryAtFirstColon(s, first);
    } else {
      NoColonNoEntry(s, 0);
    }
  }

  /** The first entry colon at or after `p`. */
  function FirstEntryColon(s: string, p: nat): (c: nat)
    requires exists c :: p <= c < |s| && IsEntryColon(s, c)
    ensures p <= c < |s| && IsEntryColon(s, c)
    ensures forall c' :: p <= c' < c ==> !IsEntryColon(s, c')
    decreases |s| - p
  {
    if IsEntryColon(s, p) then p else FirstEntryColon(s, p + 1)
  }

  /** A declaration `name: command`, behind any prefix that holds no colon
      and does not end in a word character (a comment marker `# ` is one),
      yields exactly that name and command. */
  lemma PrefixedDeclaration(prefix: string, name: string, cmd: string)
    requires ValidName(name) && ValidCommand(cmd)
    requires NoLineTerminator(prefix)
    requires forall i :: 0 <= i < |prefix| ==> prefix[i] != ':'
    requires |prefix| == 0 || !IsWordChar(prefix[|prefix| - 1])
    ensures LineEntry(prefix + name + ": " + cmd) == Some((name, cmd))
  {
    var s := prefix + name + ": " + cmd;
    var c := |prefix| + |name|;
    DeclarationParts(prefix, name, cmd);
    PrefixedFirstColon(prefix, name, cmd);
    PrefixedNoTerminator(prefix, name, cmd);
    WordRunStartAt(s, |prefix|, c);
    LineEntryAtFirstColon(s, c);
  }

  /** Where the parts of a prefixed declaration line sit in it. */
  lemma DeclarationParts(prefix: string, name: string, cmd: string)
    ensures var s := prefix + name + ": " + cmd;
      var c := |prefix| + |name|;
      && |s| == c + 2 + |cmd|
      && (forall i :: 0 <= i < |prefix| ==> s[i] == prefix[i])
      && (forall i :: |prefix| <= i < c ==> s[i] == name[i - |prefix|])
      && s[c] == ':' && s[c + 1] == ' '
      && (forall i :: c + 2 <= i < |s| ==> s[i] == cmd[i - c - 2])
      && s[|prefix|..c] == name
      && s[c + 2..] == cmd
  {
  }

  /** The colon after the name is the first entry colon of a prefixed
      declaration line. */
  lemma PrefixedFirstColon(prefix: string, name: string, cmd: string)
    requires ValidName(name) && ValidCommand(cmd)
    requires forall i :: 0 <= i < |prefix| ==> prefix[i] != ':'
    ensures var s := prefix + name + ": " + cmd;
      var c := |prefix| + |name|;
      && IsEntryColon(s, c)
      && forall c' :: 0 <= c' < c ==> !IsEntryColon(s, c')
  {
    var s := prefix + name + ": " + cmd;
    var c := |prefix| + |name|;
    DeclarationParts(prefix, name, cmd);
    assert s[c - 1] == name[|name| - 1];
    forall c' | 0 <= c' < c ensures !IsEntryColon(s, c') {
      if c' < |prefix| {
        assert s[c'] == prefix[c'];
      } else {
        assert s[c'] == name[c' - |prefix|];
      }
    }
  }

  /** A prefixed declaration line of terminator-free parts is free of line
      terminators. */
  lemma PrefixedNoTerminator(prefix: string, name: string, cmd: string)
    requires ValidName(name) && ValidCommand(cmd)
    requires NoLineTerminator(prefix)
    ensures NoLineTerminator(prefix + name + ": " + cmd)
  {
    var s := prefix + name + ": " + cmd;
    var c := |prefix| + |name|;
    DeclarationParts(prefix, name, cmd);
    forall i | 0 <= i < |s| ensures !IsLineTerminator(s[i]) {
      if i < |prefix| {
        assert s[i] == prefix[i];
      } else if i < c {
        assert s[i] == name[i - |prefix|];
      } else if i >= c + 2 {
        assert s[i] == cmd[i - c - 2];
      }
    }
  }

  /** The word run ending at `c` starts where a non-word character (or the
      start of the line) precedes it. */
  lemma {:induction false} WordRunStartAt(s: string, b: nat, c: nat)
    requires b <= c <= |s|
    requires forall k :: b <= k < c ==> IsWordChar(s[k])
    requires b == 0 || !IsWordChar(s[b - 1])
    ensures WordRunStart(s, c) == b
    decreases c - b
  {
    if b < c {
      WordRunStartAt(s, b, c - 1);
    }
  }

  /** The canonical declaration `name: command` parses to itself. */
  lemma DeclarationLineEntry(name: string, cmd: string)
    requires ValidName(name) && ValidCommand(cmd)
    ensures LineEntry(DeclarationLine((name, cmd))) == Some((name, cmd))
  {
    PrefixedDeclaration("", name, cmd);
    assert "" + name + ": " + cmd == DeclarationLine((name, cmd));
  }

  /** The line that declares one process type. */
  function DeclarationLine(e: (string, string)): string {
    e.0 + ": " + e.1
  }

  // ---------------------------------------------------------------------
  // Whole Procfiles.

  /** The pieces `split` gives for a text ending in a line that holds no
      terminator: the pieces of the text before it, then the line. */
  lemma SplitLastLine(text: string, sep: char, line: string)
    requires sep in LineTerminators
    requires NoLineTerminator(line)
    ensures Split(text + [sep] + line, LineTerminators) == Split(text, LineTerminators) + [line]
  {
    SplitAtSeparator(text, sep, line, LineTerminators);
    SplitNoSeparator(line, LineTerminators);
  }

  /** Appending a line to a Procfile is one more property assignment: a line
      that does not match changes nothing, and a line that matches assigns
      its command to its name, which (by the contract of `Put`) overwrites
      the command of an earlier declaration of that name in place and
      appends a new name at the end of the key order. */
  lemma ParseProcfileAppendLine(text: string, line: string)
    requires NoLineTerminator(line)
    ensures LineEntry(line).None? ==>
      ParseProcfile(text + "\n" + line) == ParseProcfile(text)
    ensures LineEntry(line).Some? ==>
      ParseProcfile(text + "\n" + line)
      == Put(ParseProcfile(text), LineEntry(line).value.0, LineEntry(line).value.1)
  {
    var lines := Split(text, LineTerminators);
    SplitLastLine(text, '\n', line);
    assert (lines + [line])[..|lines|] == lines;
    var es := Entries(lines);
    if LineEntry(line).Some? {
      assert Entries(lines + [line]) == es + [LineEntry(line).value];
      assert (es + [LineEntry(line).value])[..|es|] == es;
    }
  }

  /** A Procfile of one line holds that line's entry, if any. */
  lemma ParseProcfileOneLine(line: string)
    requires NoLineTerminator(line)
    ensures LineEntry(line).None? ==> ParseProcfile(line) == []
    ensures LineEntry(line).Some? ==> ParseProcfile(line) == [LineEntry(line).value]
  {
    SplitNoSeparator(line, LineTerminators);
    assert [line][..0] == [];
    if LineEntry(line).Some? {
      assert Entries([line]) == [LineEntry(line).value];
      assert [LineEntry(line).value][..0] == [];
    }
  }

  /** Windows line endings behave like Unix ones, wherever they stand: the
      empty piece between `\r` and `\n` never matches. */
  lemma CrLfLikeLf(before: string, after: string)
    ensures ParseProcfile(before + "\r\n" + after) == ParseProcfile(before + "\n" + after)
  {
    var head := Split(before, LineTerminators);
    var tail := Split(after, LineTerminators);
    SplitCrLf(before, after);
    SplitAtSeparator(before, '\n', after, LineTerminators);
    EntriesAppend(head + [""], tail);
    EntriesAppend(head, [""]);
    EntriesAppend(head, tail);
    assert LineEntry("").None?;
    assert Entries([""]) == [];
  }

  /** A carriage return and a line feed cut out an empty piece. */
  lemma SplitCrLf(before: string, after: string)
    ensures Split(before + "\r\n" + after, LineTerminators)
            == Split(before, LineTerminators) + [""] + Split(after, LineTerminators)
  {
    assert before + "\r\n" + after == (before + ['\r']) + ['\n'] + after;
    SplitAtSeparator(before + ['\r'], '\n', after, LineTerminators);
    assert before + ['\r'] + "" == before + ['\r'];
    SplitAtSeparator(before, '\r', "", LineTerminators);
  }

  /** The entries of consecutive runs of lines are the entries of each run,
      in order. */
  lemma {:induction false} EntriesAppend(xs: seq<string>, ys: seq<string>)
    ensures Entries(xs + ys) == Entries(xs) + Entries(ys)
    decreases |ys|
  {
    if |ys| == 0 {
      assert xs + ys == xs;
    } else {
      var n := |ys|;
      var front := ys[..n - 1];
      EntriesAppend(xs, front);
      assert (xs + ys)[..|xs + ys| - 1] == xs + front;
      assert (xs + ys)[|xs + ys| - 1] == ys[n - 1];
    }
  }

  /** A lone declaration line declares exactly its own process type. */
  lemma OneDeclaration(e: (string, string))
    requires ValidName(e.0) && ValidCommand(e.1)
    ensures ParseProcfile(DeclarationLine(e)) == [e]
  {
    DeclarationLineEntry(e.0, e.1);
    DeclarationLineClean(e);
    ParseProcfileOneLine(DeclarationLine(e));
  }

  /** A declaration line of a type not declared so far is appended after
      the types declared before it. */
  lemma AppendNewDeclaration(text: string, e: (string, string))
    requires ValidName(e.0) && ValidCommand(e.1)
    requires forall i :: 0 <= i < |ParseProcfile(text)| ==> ParseProcfile(text)[i].0 != e.0
    ensures ParseProcfile(text + "\n" + DeclarationLine(e)) == ParseProcfile(text) + [e]
  {
    DeclarationLineEntry(e.0, e.1);
    DeclarationLineClean(e);
    ParseProcfileAppendLine(text, DeclarationLine(e));
    PutNew(ParseProcfile(text), e.0, e.1);
  }

  /** A declaration line of a type already declared, at position `i`,
      replaces that type's command where it stands. */
  lemma AppendKnownDeclaration(text: string, e: (string, string), i: nat)
    requires ValidName(e.0) && ValidCommand(e.1)
    requires i < |ParseProcfile(text)| && ParseProcfile(text)[i].0 == e.0
    ensures ParseProcfile(text + "\n" + DeclarationLine(e)) == ParseProcfile(text)[i := e]
  {
    DeclarationLineEntry(e.0, e.1);
    DeclarationLineClean(e);
    ParseProcfileAppendLine(text, DeclarationLine(e));
    PutExisting(ParseProcfile(text), e.0, e.1, i);
  }

  /** A later declaration of a name overwrites its command, but the name
      keeps the position of its first declaration:
      `web: a`, `worker: b`, `web: c` gives `[web: c, worker: b]`. */
  lemma LaterDuplicateOverwrites(web: string, worker: string, a: string, b: string, c: string)
    requires ValidName(web) && ValidName(worker) && web != worker
    requires ValidCommand(a) && ValidCommand(b) && ValidCommand(c)
    ensures ParseProcfile(DeclarationLine((web, a)) + "\n" + DeclarationLine((worker, b))
                          + "\n" + DeclarationLine((web, c)))
            == [(web, c), (worker, b)]
  {
    var two := DeclarationLine((web, a)) + "\n" + DeclarationLine((worker, b));
    TwoDeclarations(web, worker, a, b);
    AppendKnownDeclaration(two, (web, c), 0);
  }

  /** The first two lines of `LaterDuplicateOverwrites`. */
  lemma TwoDeclarations(web: string, worker: string, a: string, b: string)
    requires ValidName(web) && ValidName(worker) && web != worker
    requires ValidCommand(a) && ValidCommand(b)
    ensures ParseProcfile(DeclarationLine((web, a)) + "\n" + DeclarationLine((worker, b)))
            == [(web, a), (worker, b)]
  {
    OneDeclaration((web, a));
    AppendNewDeclaration(DeclarationLine((web, a)), (worker, b));
  }

  /** The Procfile that declares each process type of `procs` on its own
      line, in order. */
  function Format(procs: Assoc<string>): string
  {
    if |procs| == 0 then "" else Join(DeclarationLines(procs), '\n')
  }

  /** One declaration line per process type. */
  function DeclarationLines(procs: Assoc<string>): (lines: seq<string>)
    ensures |lines| == |procs|
  {
    seq(|procs|, i requires 0 <= i < |procs| => DeclarationLine(procs[i]))
  }

  /** Every declaration line of valid names and commands yields its own
      entry. */
  lemma {:induction false} EntriesOfDeclarations(procs: Assoc<string>)
    requires forall i :: 0 <= i < |procs| ==> ValidName(procs[i].0) && ValidCommand(procs[i].1)
    ensures Entries(DeclarationLines(procs)) == procs
    decreases |procs|
  {
    if |procs| > 0 {
      var n := |procs|;
      var lines := DeclarationLines(procs);
      assert lines[..n - 1] == DeclarationLines(procs[..n - 1]);
      EntriesOfDeclarations(procs[..n - 1]);
      DeclarationLineEntry(procs[n - 1].0, procs[n - 1].1);
      assert procs[..n - 1] + [procs[n - 1]] == procs;
    }
  }

  /** A declaration line holds no line terminator. */
  lemma DeclarationLineClean(e: (string, string))
    requires ValidName(e.0) && ValidCommand(e.1)
    ensures NoneIn(DeclarationLine(e), LineTerminators)
  {
    var line := DeclarationLine(e);
    forall i | 0 <= i < |line| ensures line[i] !in LineTerminators {
      if i < |e.0| {
        assert line[i] == e.0[i];
      } else if i >= |e.0| + 2 {
        assert line[i] == e.1[i - |e.0| - 2];
      }
    }
  }

  /** Formatting an object of valid names and commands as a Procfile and
      parsing it back gives the same object, key order included. */
  lemma ProcfileRoundTrip(procs: Assoc<string>)
    requires WellFormed(procs)
    requires forall i :: 0 <= i < |procs| ==> ValidName(procs[i].0) && ValidCommand(procs[i].1)
    ensures ParseProcfile(Format(procs)) == procs
  {
    if |procs| == 0 {
      assert Split("", LineTerminators) == [""];
      assert [""][..0] == [];
      assert LineEntry("").None?;
    } else {
      var lines := DeclarationLines(procs);
      forall i | 0 <= i < |lines| ensures NoneIn(lines[i], LineTerminators) {
        DeclarationLineClean(procs[i]);
      }
      SplitJoin(lines, '\n', LineTerminators);
      EntriesOfDeclarations(procs);
      FromPairsOfObject(procs);
    }
  }
}
