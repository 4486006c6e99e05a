/** `String.prototype.split` with a one-character separator, or with a regular
    expression that is a single character class, and its inverse
    `Array.prototype.join`. */
module Strings {
  import opened Seqs

  /** No character of `s` is in `seps`. */
  predicate NoneIn(s: string, seps: set<char>) {
    forall i :: 0 <= i < |s| ==> s[i] !in seps
  }

  /** How many characters of `s` are separators. */
  function Occurrences(s: string, seps: set<char>): nat
  {
    if |s| == 0 then 0
    else (if s[0] in seps then 1 else 0) + Occurrences(s[1..], seps)
  }

  /** `s.split(sep)`: the pieces between separator characters, in order.
      JavaScript never returns an empty array here: splitting "" gives [""],
      and two adjacent separators give an empty piece between them. */
  function Split(s: string, seps: set<char>): (parts: seq<string>)
    ensures |parts| == Occurrences(s, seps) + 1
    ensures forall i :: 0 <= i < |parts| ==> NoneIn(parts[i], seps)
    decreases |s|
  {
    if |s| == 0 then [""]
    else
      var rest := Split(s[1..], seps);
      if s[0] in seps then [""] + rest
      else [[s[0]] + rest[0]] + rest[1..]
  }

  /** `parts.join(sep)`. */
  function Join(parts: seq<string>, sep: char): string
    requires |parts| >= 1
  {
    if |parts| == 1 then parts[0] else parts[0] + [sep] + Join(parts[1..], sep)
  }

  /** Splitting on `c` and joining with `c` gives back the original string. */
  lemma {:induction false} JoinSplit(s: string, c: char)
    ensures Join(Split(s, {c}), c) == s
    decreases |s|
  {
    if |s| > 0 {
      var rest := Split(s[1..], {c});
      JoinSplit(s[1..], c);
      if s[0] == c {
        assert Split(s, {c}) == [""] + rest;
        assert ([""] + rest)[1..] == rest;
        assert s == [c] + s[1..];
      } else {
        var parts := Split(s, {c});
        assert parts == [[s[0]] + rest[0]] + rest[1..];
        if |rest| == 1 {
          assert s == [s[0]] + s[1..];
        } else {
          assert parts[1..] == rest[1..];
          assert Join(rest, c) == rest[0] + [c] + Join(rest[1..], c);
          assert s == [s[0]] + s[1..];
        }
      }
    }
  }

  /** A string with no separator is a single piece. */
  lemma {:induction false} SplitNoSeparator(s: string, seps: set<char>)
    requires NoneIn(s, seps)
    ensures Split(s, seps) == [s]
    decreases |s|
  {
    if |s| > 0 {
      SplitNoSeparator(s[1..], seps);
      assert [s[0]] + s[1..] == s;
    }
  }

  /** The pieces of `[x] + t`: a separator in front opens a new empty piece,
      any other character joins the first piece of `t`. */
  lemma SplitCons(x: char, t: string, seps: set<char>)
    ensures var rest := Split(t, seps);
      Split([x] + t, seps) == if x in seps then [""] + rest else [[x] + rest[0]] + rest[1..]
  {
    assert ([x] + t)[1..] == t;
  }

  /** If the pieces of `v` are those of `u` followed by `right`, the same
      holds after putting one more character in front of both. */
  lemma ConsKeepsSuffix(x: char, u: string, v: string, right: seq<string>, seps: set<char>)
    requires Split(v, seps) == Split(u, seps) + right
    ensures Split([x] + v, seps) == Split([x] + u, seps) + right
  {
    var left := Split(u, seps);
    SplitCons(x, u, seps);
    SplitCons(x, v, seps);
    if x in seps {
      AppendAssociative([""], left, right);
    } else {
      ReplaceHead([x] + left[0], left, right);
    }
  }

  /** Splitting distributes over a separator: the pieces of `a + [c] + b` are
      the pieces of `a` followed by the pieces of `b`. */
  lemma {:induction false} SplitAtSeparator(a: string, c: char, b: string, seps: set<char>)
    requires c in seps
    ensures Split(a + [c] + b, seps) == Split(a, seps) + Split(b, seps)
    decreases |a|
  {
    if |a| == 0 {
      assert a + [c] + b == [c] + b;
      SplitCons(c, b, seps);
    } else {
      var t := a[1..] + [c] + b;
      SplitAtSeparator(a[1..], c, b, seps);
      ConsKeepsSuffix(a[0], a[1..], t, Split(b, seps), seps);
      assert a + [c] + b == [a[0]] + t;
      assert a == [a[0]] + a[1..];
    }
  }

  /** Joining pieces that contain no separator and splitting again gives back
      the same pieces: the converse of `JoinSplit`. */
  lemma {:induction false} SplitJoin(parts: seq<string>, c: char, seps: set<char>)
    requires |parts| >= 1
    requires c in seps
    requires forall i :: 0 <= i < |parts| ==> NoneIn(parts[i], seps)
    ensures Split(Join(parts, c), seps) == parts
    decreases |parts|
  {
    SplitNoSeparator(parts[0], seps);
    if |parts| > 1 {
      SplitJoin(parts[1..], c, seps);
      SplitAtSeparator(parts[0], c, Join(parts[1..], c), seps);
      assert [parts[0]] + parts[1..] == parts;
    }
  }
}
