/** The concurrency option `name=count,name=count`: split on commas, each
    segment split on `=`, and every segment with exactly two parts assigns
    `parseInt` of its second part to its first part in an object. Then the
    number of instances the launcher starts for one process type. */
module Concurrency {
  import opened Wrappers
  import opened Chars
  import opened Strings
  import opened Decimal
  import opened JsNumber
  import opened OrderedMap

  /** The option text, with an absent option read as the empty string. */
  function OptionText(option: Option<string>): string {
    option.GetOr("")
  }

  /** The entry of one comma segment: present only when splitting on `=`
      gives exactly two parts. Neither part is trimmed. */
  function SegmentEntry(segment: string): Option<(string, Number)> {
    var parts := Split(segment, {'='});
    if |parts| == 2 then Some((parts[0], ParseInt(parts[1]))) else None
  }

  /** The entries of the segments that have one, in segment order. */
  function SegmentEntries(segments: seq<string>): seq<(string, Number)>
    decreases |segments|
  {
    if |segments| == 0 then []
    else
      var prior := SegmentEntries(segments[..|segments| - 1]);
      match SegmentEntry(segments[|segments| - 1])
      case None => prior
      case Some(e) => prior + [e]
  }

  /** The concurrency object built from the option. */
  function ParseConcurrency(option: Option<string>): (conc: Assoc<Number>)
    ensures WellFormed(conc)
  {
    FromPairs(SegmentEntries(Split(OptionText(option), {','})))
  }

  /** `concurrencyOpts[key] || 1`: the looked-up value when it is truthy,
      else 1. */
  function ConcurrentCount(conc: Assoc<Number>, key: string): (n: Number)
    ensures n.Truthy()
  {
    match Lookup(conc, key)
    case Some(v) => if v.Truthy() then v else Num(1)
    case None => Num(1)
  }

  /** How often `for (j = 0; j < n; j++)` runs its body: a comparison with
      `NaN` is false, and a negative bound stops the loop at once. */
  function Iterations(n: Number): nat {
    match n
    case NaN => 0
    case Num(v) => if v < 0 then 0 else v
  }

  /** The number of instances started for process type `key`. */
  function ReplicaCount(conc: Assoc<Number>, key: string): nat {
    Iterations(ConcurrentCount(conc, key))
  }

  /** A missing, `NaN` or zero count starts one instance, a positive count
      that many, and a negative count none. */
  lemma ReplicaCountCases(conc: Assoc<Number>, key: string)
    ensures Lookup(conc, key) in {None, Some(NaN), Some(Num(0))} ==> ReplicaCount(conc, key) == 1
    ensures forall v :: Lookup(conc, key) == Some(Num(v)) && v > 0 ==> ReplicaCount(conc, key) == v
    ensures forall v :: Lookup(conc, key) == Some(Num(v)) && v < 0 ==> ReplicaCount(conc, key) == 0
  {
  }

  /** The own properties of every object inherited from `Object.prototype`;
      each of them is a function, except `__proto__`, which is an object. */
  const InheritedNames: set<string> := {
    "constructor", "toString", "toLocaleString", "valueOf", "hasOwnProperty",
    "isPrototypeOf", "propertyIsEnumerable", "__defineGetter__", "__defineSetter__",
    "__lookupGetter__", "__lookupSetter__", "__proto__"}

  /** The number of instances as the launcher computes it on a real object:
      a key the option did not assign but `Object.prototype` has reads an
      inherited function or object, which is truthy, and comparing the loop
      counter with it is always false, so the loop starts nothing. */
  function InheritedReplicaCount(conc: Assoc<Number>, key: string): (n: nat)
    ensures Lookup(conc, key).None? && key in InheritedNames ==> n == 0
  {
    if Lookup(conc, key).None? && key in InheritedNames then 0 else ReplicaCount(conc, key)
  }

  /** The inherited lookup agrees with the intended count on every name an
      option assigns and on every name `Object.prototype` lacks. */
  lemma InheritedCountAgrees(conc: Assoc<Number>, key: string)
    ensures InheritedReplicaCount(conc, key) == ReplicaCount(conc, key)
            <==> Lookup(conc, key).Some? || key !in InheritedNames
  {
    ReplicaCountCases(conc, key);
  }

  /** A process type named `constructor`, with no concurrency option, is
      started once by the intended count and never by the inherited one. */
  lemma ConstructorStartsNothing()
    ensures ReplicaCount(ParseConcurrency(None), "constructor") == 1
    ensures InheritedReplicaCount(ParseConcurrency(None), "constructor") == 0
  {
    NoOptionNoCounts(None);
  }

  /** A name without a count starts one instance. */
  lemma AbsentCountStartsOne(option: Option<string>, key: string)
    requires Lookup(ParseConcurrency(option), key).None?
    ensures ReplicaCount(ParseConcurrency(option), key) == 1
  {
  }

  /** A segment has an entry exactly when it holds exactly one `=`; the entry
      is then the text before the `=` and `parseInt` of the text after it. */
  lemma SegmentEntryShape(segment: string)
    ensures SegmentEntry(segment).Some? <==> Occurrences(segment, {'='}) == 1
    ensures SegmentEntry(segment).Some? ==>
      exists value :: NoneIn(value, {'='})
        && segment == SegmentEntry(segment).value.0 + "=" + value
        && SegmentEntry(segment).value.1 == ParseInt(value)
  {
    var parts := Split(segment, {'='});
    if |parts| == 2 {
      JoinSplit(segment, '=');
      assert Join(parts[1..], '=') == parts[1];
      assert segment == parts[0] + "=" + parts[1];
    }
  }

  /** The segment `name=<numeral of n>` assigns `n` to `name`. */
  lemma SegmentOfCount(name: string, n: int)
    requires NoneIn(name, {'='})
    ensures SegmentEntry(name + "=" + IntToString(n)) == Some((name, Num(n)))
  {
    var numeral := IntToString(n);
    assert NoneIn(numeral, {'='}) by {
      if n < 0 {
        assert forall i :: 1 <= i < |numeral| ==> numeral[i] == NatToString(-n)[i - 1];
      }
    }
    assert Join([name, numeral], '=') == name + "=" + numeral;
    SplitJoin([name, numeral], '=', {'='});
    ParseIntRoundTrip(n);
  }

  /** A numeral holds no comma. */
  lemma NumeralCommaFree(n: int)
    ensures NoneIn(IntToString(n), {','})
  {
    var numeral := IntToString(n);
    if n < 0 {
      assert forall i :: 1 <= i < |numeral| ==> numeral[i] == NatToString(-n)[i - 1];
    }
  }

  /** The option `name=<numeral of n>` starts `n` instances of `name` when
      `n` is positive, one when it is zero, and none when it is negative. */
  lemma CountOfOption(name: string, n: int)
    requires NoneIn(name, {'='}) && NoneIn(name, {','})
    ensures ReplicaCount(ParseConcurrency(Some(name + "=" + IntToString(n))), name)
            == if n > 0 then n else if n == 0 then 1 else 0
  {
    var segment := name + "=" + IntToString(n);
    SegmentOfCount(name, n);
    SegmentCommaFree(name, n);
    OneSegment(segment);
    var conc := [(name, Num(n))];
    assert Lookup(conc, name) == Some(Num(n));
  }

  /** The segment `name=<numeral of n>` has no comma when `name` has none. */
  lemma SegmentCommaFree(name: string, n: int)
    requires NoneIn(name, {','})
    ensures NoneIn(name + "=" + IntToString(n), {','})
  {
    var segment := name + "=" + IntToString(n);
    NumeralCommaFree(n);
    forall i | 0 <= i < |segment| ensures segment[i] != ',' {
      if i < |name| {
        assert segment[i] == name[i];
      } else if i > |name| {
        assert segment[i] == IntToString(n)[i - |name| - 1];
      }
    }
  }

  /** An absent or empty option gives an empty object. */
  lemma NoOptionNoCounts(option: Option<string>)
    requires option.None? || option == Some("")
    ensures ParseConcurrency(option) == []
  {
    assert OptionText(option) == "";
    assert Split("", {','}) == [""];
    assert Split("", {'='}) == [""];
    assert [""][..0] == [];
  }

  /** Appending a segment to the option is one more property assignment: a
      segment without exactly one `=` changes nothing, and any other segment
      assigns its count to its name, overwriting an earlier count for that
      name. */
  lemma AppendSegment(text: string, segment: string)
    requires NoneIn(segment, {','})
    ensures SegmentEntry(segment).None? ==>
      ParseConcurrency(Some(text + "," + segment)) == ParseConcurrency(Some(text))
    ensures SegmentEntry(segment).Some? ==>
      ParseConcurrency(Some(text + "," + segment))
      == Put(ParseConcurrency(Some(text)), SegmentEntry(segment).value.0, SegmentEntry(segment).value.1)
  {
    var segments := Split(text, {','});
    SplitAtSeparator(text, ',', segment, {','});
    SplitNoSeparator(segment, {','});
    assert Split(text + "," + segment, {','}) == segments + [segment];
    assert (segments + [segment])[..|segments|] == segments;
    var es := SegmentEntries(segments);
    if SegmentEntry(segment).Some? {
      assert SegmentEntries(segments + [segment]) == es + [SegmentEntry(segment).value];
      assert (es + [SegmentEntry(segment).value])[..|es|] == es;
    }
  }

  /** An option of one segment without commas holds that segment's entry,
      if any. */
  lemma OneSegment(segment: string)
    requires NoneIn(segment, {','})
    ensures SegmentEntry(segment).None? ==> ParseConcurrency(Some(segment)) == []
    ensures SegmentEntry(segment).Some? ==> ParseConcurrency(Some(segment)) == [SegmentEntry(segment).value]
  {
    SplitNoSeparator(segment, {','});
    assert [segment][..0] == [];
    if SegmentEntry(segment).Some? {
      assert SegmentEntries([segment]) == [SegmentEntry(segment).value];
      assert [SegmentEntry(segment).value][..0] == [];
    }
  }
}
