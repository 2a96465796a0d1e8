/**
 * The two backslash rewrites applied to directory paths: the command-line
 * directories have every backslash doubled, and the path handed to the video
 * probe has each doubled pair collapsed back to one.
 */
module Escape {

  const Backslash: char := '\\'

  predicate NoBackslash(s: string) {
    forall i :: 0 <= i < |s| ==> s[i] != Backslash
  }

  /** What doubling writes for one character. */
  function Escaped(c: char): string {
    if c == Backslash then [Backslash, Backslash] else [c]
  }

  /** `s.replace("\\", "\\\\")`: every backslash becomes two. */
  function Double(s: string): string
  {
    if s == [] then [] else Escaped(s[0]) + Double(s[1..])
  }

  /**
   * `s.replace("\\\\", "\\")`: scanning left to right, each pair of adjacent
   * backslashes becomes one; the pairs do not overlap.
   */
  function Collapse(s: string): string
  {
    if s == [] then []
    else if |s| >= 2 && s[0] == Backslash && s[1] == Backslash then [Backslash] + Collapse(s[2..])
    else [s[0]] + Collapse(s[1..])
  }

  /** Escaping one character writes two backslashes for a backslash and the character itself otherwise. */
  lemma EscapedCounts(c: char)
    ensures multiset(Escaped(c))[Backslash] == 2 * multiset([c])[Backslash]
    ensures forall d :: d != Backslash ==> multiset(Escaped(c))[d] == multiset([c])[d]
  {
  }

  /** Doubling keeps every other character and twice as many backslashes. */
  lemma {:induction false} DoubleCounts(s: string)
    ensures multiset(Double(s))[Backslash] == 2 * multiset(s)[Backslash]
    ensures forall c :: c != Backslash ==> multiset(Double(s))[c] == multiset(s)[c]
  {
    if s != [] {
      var tail := s[1..];
      DoubleCounts(tail);
      EscapedCounts(s[0]);
      assert multiset(s) == multiset([s[0]]) + multiset(tail) by {
        assert s == [s[0]] + tail;
      }
      assert multiset(Double(s)) == multiset(Escaped(s[0])) + multiset(Double(tail));
    }
  }

  /** A string without backslashes is left as it is by Collapse. */
  lemma {:induction false} CollapseWithoutBackslash(s: string)
    requires NoBackslash(s)
    ensures Collapse(s) == s
  {
    if s != [] {
      assert NoBackslash(s[1..]);
      CollapseWithoutBackslash(s[1..]);
      assert s == [s[0]] + s[1..];
    }
  }

  /** Collapse reads an escaped character back as that character. */
  lemma CollapseEscaped(c: char, rest: string)
    ensures Collapse(Escaped(c) + rest) == [c] + Collapse(rest)
  {
    var t := Escaped(c) + rest;
    if c == Backslash {
      assert t[2..] == rest;
    } else {
      assert t[1..] == rest;
    }
  }

  /** Collapsing a doubled prefix gives back the prefix and leaves the rest to Collapse. */
  lemma {:induction false} CollapseDoubleAppend(a: string, b: string)
    ensures Collapse(Double(a) + b) == a + Collapse(b)
  {
    if a == [] {
      assert Double(a) + b == b;
    } else {
      var c := a[0];
      var rest := Double(a[1..]) + b;
      calc {
        Collapse(Double(a) + b);
        == { assert Double(a) + b == Escaped(c) + rest; }
        Collapse(Escaped(c) + rest);
        == { CollapseEscaped(c, rest); }
        [c] + Collapse(rest);
        == { CollapseDoubleAppend(a[1..], b); }
        [c] + (a[1..] + Collapse(b));
        == { assert a == [c] + a[1..]; }
        a + Collapse(b);
      }
    }
  }

  /** Collapse exactly undoes Double. */
  lemma CollapseDouble(s: string)
    ensures Collapse(Double(s)) == s
  {
    CollapseDoubleAppend(s, []);
    assert Double(s) + [] == Double(s);
  }

  /**
   * The path the video probe receives: the doubled source directory, a single
   * separator and a listed name collapse to the undoubled directory, the
   * separator and the name.
   */
  lemma ProbePathUndoubled(dir: string, name: string)
    requires NoBackslash(name)
    ensures Collapse(Double(dir) + [Backslash] + name) == dir + [Backslash] + name
  {
    CollapseDoubleAppend(dir, [Backslash] + name);
    assert Double(dir) + [Backslash] + name == Double(dir) + ([Backslash] + name);
    var t := [Backslash] + name;
    assert t[1..] == name;
    CollapseWithoutBackslash(name);
    if name != [] {
      assert Collapse(t) == [Backslash] + Collapse(name);
    } else {
      assert Collapse(t) == [Backslash] + Collapse([]);
    }
  }
}
