/** The functions of Go's strings package that the models need, on sequences of characters. */
module Strings {

  predicate HasPrefix(s: string, prefix: string) { |prefix| <= |s| && s[..|prefix|] == prefix }

  lemma FirstOfPrefix(s: string, prefix: string)
    requires prefix != ""
    ensures HasPrefix(s, prefix) ==> s != "" && s[0] == prefix[0]
  {
    if HasPrefix(s, prefix) {
      assert s[..|prefix|][0] == s[0];
    }
  }

  predicate ContainsAt(s: string, sub: string, i: nat) { i + |sub| <= |s| && s[i..i + |sub|] == sub }

  predicate Contains(s: string, sub: string) { exists i: nat :: i <= |s| && ContainsAt(s, sub, i) }

  lemma ContainsIn(s: string, sub: string, i: nat)
    requires ContainsAt(s, sub, i)
    ensures Contains(s, sub)
  {
  }

  /** Slices of a text are slices of its halves. */
  lemma SliceOfConcat(a: string, b: string, i: nat, n: nat)
    ensures i + n <= |a| ==> (a + b)[i..i + n] == a[i..i + n]
    ensures i + n <= |b| ==> (a + b)[|a| + i..|a| + i + n] == b[i..i + n]
  {
  }

  /** The parts of s between its separators. */
  function Split(s: string, sep: char): (parts: seq<string>)
    ensures parts != []
  {
    if s == [] then [[]]
    else if s[0] == sep then [[]] + Split(s[1..], sep)
    else [[s[0]] + Split(s[1..], sep)[0]] + Split(s[1..], sep)[1..]
  }

  function Join(parts: seq<string>, sep: char): string {
    if parts == [] then "" else if |parts| == 1 then parts[0] else parts[0] + [sep] + Join(parts[1..], sep)
  }

  /** The parts of two texts with a separator between them are the parts of the one, then of the other. */
  lemma {:induction false} SplitConcat(s: string, t: string, sep: char)
    ensures Split(s + [sep] + t, sep) == Split(s, sep) + Split(t, sep)
  {
    if s == [] {
      assert s + [sep] + t == [sep] + t;
      assert ([sep] + t)[1..] == t;
    } else {
      assert (s + [sep] + t)[1..] == s[1..] + [sep] + t;
      assert (s + [sep] + t)[0] == s[0];
      SplitConcat(s[1..], t, sep);
    }
  }

  lemma {:induction false} SplitOne(s: string, sep: char)
    requires sep !in s
    ensures Split(s, sep) == [s]
  {
    if s != [] {
      SplitOne(s[1..], sep);
      assert [s[0]] + s[1..] == s;
    }
  }

  /** Splitting undoes joining. */
  lemma {:induction false} SplitJoin(parts: seq<string>, sep: char)
    requires parts != [] && forall i :: 0 <= i < |parts| ==> sep !in parts[i]
    ensures Split(Join(parts, sep), sep) == parts
  {
    SplitOne(parts[0], sep);
    if |parts| > 1 {
      SplitJoin(parts[1..], sep);
      SplitConcat(parts[0], Join(parts[1..], sep), sep);
    }
  }

  lemma {:induction false} PartsHaveNoSeparator(s: string, sep: char)
    ensures forall i :: 0 <= i < |Split(s, sep)| ==> sep !in Split(s, sep)[i]
  {
    if s != [] {
      PartsHaveNoSeparator(s[1..], sep);
    }
  }

  lemma JoinCons(c: char, parts: seq<string>, sep: char)
    requires parts != []
    ensures Join([[c] + parts[0]] + parts[1..], sep) == [c] + Join(parts, sep)
  {
    assert ([[c] + parts[0]] + parts[1..])[1..] == parts[1..];
  }

  /** Joining undoes splitting. */
  lemma {:induction false} JoinSplit(s: string, sep: char)
    ensures Join(Split(s, sep), sep) == s
  {
    if s != [] {
      JoinSplit(s[1..], sep);
      if s[0] == sep {
        assert Split(s, sep)[1..] == Split(s[1..], sep);
      } else {
        JoinCons(s[0], Split(s[1..], sep), sep);
      }
    }
  }
}
