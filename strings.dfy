/** The two functions of Go's `strings` package that the tool calls. */
module GoStrings {

  /** strings.HasSuffix */
  predicate HasSuffix(s: string, suffix: string)
  {
    |suffix| <= |s| && s[|s| - |suffix|..] == suffix
  }

  /** Leading occurrences of `c` removed (one half of strings.Trim with a one-character cutset). */
  function TrimLeft(s: string, c: char): (r: string)
  {
    if s != [] && s[0] == c then TrimLeft(s[1..], c) else s
  }

  /** Trailing occurrences of `c` removed (the other half of strings.Trim). */
  function TrimRight(s: string, c: char): (r: string)
  {
    if s != [] && s[|s| - 1] == c then TrimRight(s[..|s| - 1], c) else s
  }

  /** strings.Trim(s, string(c)): every leading and every trailing `c` removed. */
  function Trim(s: string, c: char): (r: string)
  {
    TrimRight(TrimLeft(s, c), c)
  }

  /** TrimLeft drops exactly the leading run of `c`: what is left is a suffix that does not start
      with `c`, and everything dropped was `c`. */
  lemma {:induction false} TrimLeftSpec(s: string, c: char)
    ensures var r := TrimLeft(s, c);
      && |r| <= |s| && r == s[|s| - |r|..]
      && (r == [] || r[0] != c)
      && forall i :: 0 <= i < |s| - |r| ==> s[i] == c
  {
    if s != [] && s[0] == c {
      var t := s[1..];
      TrimLeftSpec(t, c);
      var r := TrimLeft(t, c);
      assert TrimLeft(s, c) == r;
      assert t[|t| - |r|..] == s[|s| - |r|..];
      forall i | 0 <= i < |s| - |r|
        ensures s[i] == c
      {
        if i > 0 {
          assert s[i] == t[i - 1];
        }
      }
    }
  }

  /** TrimRight drops exactly the trailing run of `c`. */
  lemma {:induction false} TrimRightSpec(s: string, c: char)
    ensures var r := TrimRight(s, c);
      && |r| <= |s| && r == s[..|r|]
      && (r == [] || r[|r| - 1] != c)
      && forall i :: |r| <= i < |s| ==> s[i] == c
  {
    if s != [] && s[|s| - 1] == c {
      var t := s[..|s| - 1];
      TrimRightSpec(t, c);
      var r := TrimRight(t, c);
      assert TrimRight(s, c) == r;
      assert t[..|r|] == s[..|r|];
      forall i | |r| <= i < |s|
        ensures s[i] == c
      {
        if i < |s| - 1 {
          assert s[i] == t[i];
        }
      }
    }
  }

  /** The result of Trim is no longer than the input and neither starts nor ends with `c`. */
  lemma TrimSpec(s: string, c: char)
    ensures var r := Trim(s, c);
      && |r| <= |s|
      && (r == [] || (r[0] != c && r[|r| - 1] != c))
  {
    var l := TrimLeft(s, c);
    TrimLeftSpec(s, c);
    TrimRightSpec(l, c);
    var r := TrimRight(l, c);
    if r != [] {
      assert r[0] == l[0];
    }
  }

  /** Trimming the quotes off a quoted path gives the path back, whenever the path does not itself
      begin or end with a quote. */
  lemma {:induction false} TrimQuoted(p: string, c: char)
    requires p == [] || (p[0] != c && p[|p| - 1] != c)
    ensures Trim([c] + p + [c], c) == p
  {
    var s := [c] + p + [c];
    assert s[0] == c && s[1..] == p + [c];
    if p == [] {
      assert TrimLeft(s, c) == TrimLeft([c], c) == TrimLeft([], c) == [];
    } else {
      assert TrimLeft(s, c) == TrimLeft(p + [c], c) == p + [c];
      assert (p + [c])[..|p|] == p;
      assert TrimRight(p + [c], c) == TrimRight(p, c) == p;
    }
  }

  /** A string without the character at either end is left as it is. */
  lemma TrimUnquoted(s: string, c: char)
    requires s == [] || (s[0] != c && s[|s| - 1] != c)
    ensures Trim(s, c) == s
  {
  }
}
