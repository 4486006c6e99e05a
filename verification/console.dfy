/** The console output of a running child: every chunk the child writes to
    standard output or standard error, and its exit, becomes one console
    line labelled with the instance name in brackets and shown in the
    child's color. */
module Console {
  import opened Wrappers
  import opened Chars
  import opened Decimal
  import opened JsNumber
  import opened Supervisor

  /** What a running child reports. The exit code is absent when the child
      was ended by a signal. */
  datatype Event = Stdout(chunk: string) | Stderr(chunk: string) | Exit(code: Option<int>)

  /** One line written to the console, before the color is rendered. */
  datatype Line = Line(color: Color, text: string)

  /** The label in front of every line of a child. */
  function LinePrefix(name: string): string {
    "[" + name + "] "
  }

  /** The words in front of the exit code. */
  const ExitPhrase: string := "exited with code "

  /** The exit code as string concatenation prints it: the numeral of the
      code, or `null` when there is none. */
  function ExitCodeText(code: Option<int>): (s: string)
    ensures |s| >= 1
  {
    match code
    case Some(c) => IntToString(c)
    case None => "null"
  }

  /** The console line for one event of a child. */
  function Render(child: Child, event: Event): (line: Line)
    ensures line.color == child.color
    ensures |line.text| >= |LinePrefix(child.name)| && line.text[..|LinePrefix(child.name)|] == LinePrefix(child.name)
  {
    var text := match event
      case Stdout(chunk) => LinePrefix(child.name) + chunk
      case Stderr(chunk) => LinePrefix(child.name) + chunk
      case Exit(code) => LinePrefix(child.name) + ExitPhrase + ExitCodeText(code);
    assert text[..|LinePrefix(child.name)|] == LinePrefix(child.name);
    Line(child.color, text)
  }

  /** Position of the first `]` at or after `from`, if any. */
  function CloseBracket(text: string, from: nat): (r: Option<nat>)
    requires from <= |text|
    ensures r.Some? ==> from <= r.value < |text| && text[r.value] == ']'
    ensures r.Some? ==> forall k :: from <= k < r.value ==> text[k] != ']'
    ensures r.None? ==> forall k :: from <= k < |text| ==> text[k] != ']'
    decreases |text| - from
  {
    if from == |text| then None
    else if text[from] == ']' then Some(from)
    else CloseBracket(text, from + 1)
  }

  /** The label a console line starts with: the text between an opening
      `[` in front and the first `]`. */
  function LabelOf(text: string): (found: Option<string>)
    ensures found.Some? ==>
      (|text| >= |found.value| + 2 && text[0] == '['
       && text[1..|found.value| + 1] == found.value && text[|found.value| + 1] == ']')
  {
    if |text| == 0 || text[0] != '[' then None
    else match CloseBracket(text, 1)
      case Some(i) => Some(text[1..i])
      case None => None
  }

  /** Reading the label back off a line gives the child's name, whatever
      follows the label, as long as the name holds no `]` (instance names
      never do). */
  lemma {:induction false} LabelOfPrefix(name: string, rest: string)
    requires forall k :: 0 <= k < |name| ==> name[k] != ']'
    ensures LabelOf(LinePrefix(name) + rest) == Some(name)
  {
    var text := LinePrefix(name) + rest;
    assert text[0] == '[' && text[|name| + 1] == ']';
    assert forall k :: 1 <= k < |name| + 1 ==> text[k] == name[k - 1];
    var i := CloseBracket(text, 1);
    assert i == Some(|name| + 1);
    assert text[1..|name| + 1] == name;
  }

  /** Standard output and standard error are shown alike. */
  lemma RenderStreamsAlike(child: Child, chunk: string)
    ensures Render(child, Stdout(chunk)) == Render(child, Stderr(chunk))
    ensures Render(child, Stdout(chunk)).text == LinePrefix(child.name) + chunk
  {
  }

  /** The printed exit code reads back as the code; `null` reads as no
      number at all. */
  lemma ExitCodeReadBack(code: Option<int>)
    ensures ParseInt(ExitCodeText(code)) == (match code case Some(c) => Num(c) case None => NaN)
  {
    match code {
      case Some(c) => ParseIntRoundTrip(c);
      case None =>
        var s := ExitCodeText(code);
        assert s == "null";
        assert !IsSpace(s[0]);
        assert TrimStart(s) == s;
        assert DigitRun(s, false) == 0;
    }
  }

  /** The exit line is the label, the exit phrase and the printed code,
      nothing more: it names the child, and the code reads back from its
      end. */
  lemma ExitLineRoundTrip(child: Child, code: Option<int>)
    requires forall k :: 0 <= k < |child.name| ==> child.name[k] != ']'
    ensures var text := Render(child, Exit(code)).text;
      var start := |LinePrefix(child.name)| + |ExitPhrase|;
      && LabelOf(text) == Some(child.name)
      && |text| > start
      && text[|LinePrefix(child.name)|..start] == ExitPhrase
      && text[start..] == ExitCodeText(code)
      && ParseInt(text[start..]) == (match code case Some(c) => Num(c) case None => NaN)
  {
    var prefix := LinePrefix(child.name);
    var text := Render(child, Exit(code)).text;
    assert text == prefix + (ExitPhrase + ExitCodeText(code));
    LabelOfPrefix(child.name, ExitPhrase + ExitCodeText(code));
    var start := |prefix| + |ExitPhrase|;
    assert text[start..] == ExitCodeText(code);
    assert text[|prefix|..start] == ExitPhrase;
    ExitCodeReadBack(code);
  }
}
