/** How a new net gets a name that no other net has, so that a saved circuit can refer to nets by name. */
module NetNames {
  import opened Graph
  import opened TemplateSpec

  function Suffixed(name: string, n: nat): string {
    name + "_" + NatText(n)
  }

  /** The name itself if it is free, else the first free one of name_2, name_3 and so on. */
  ghost predicate FirstFree(taken: seq<string>, name: string, unique: string) {
    && unique !in taken
    && (unique == name || (name in taken && exists n :: SuffixIs(taken, name, unique, n)))
  }

  ghost predicate SuffixIs(taken: seq<string>, name: string, unique: string, n: nat) {
    n >= 2 && unique == name + "_" + NatText(n) && forall m: nat :: 2 <= m < n ==> name + "_" + NatText(m) in taken
  }

  lemma SuffixedIsInjective(name: string, m: nat, n: nat)
    requires Suffixed(name, m) == Suffixed(name, n)
    ensures m == n
  {
    var head := name + "_";
    assert Suffixed(name, m)[|head|..] == NatText(m) && Suffixed(name, n)[|head|..] == NatText(n);
    NatTextValue(m);
    NatTextValue(n);
  }

  ghost function Candidates(name: string, n: nat): (s: seq<string>)
    ensures |s| == n && forall m {:trigger s[m]} :: 0 <= m < n ==> s[m] == Suffixed(name, m + 2)
  {
    seq(n, m requires 0 <= m < n => Suffixed(name, m + 2))
  }

  lemma {:induction false} AtMostLength<T>(s: seq<T>)
    ensures |set x | x in s| <= |s|
  {
    if s != [] {
      AtMostLength(s[1..]);
      assert (set x | x in s) == {s[0]} + (set x | x in s[1..]);
    }
  }

  /** Only as many candidates can be taken as there are names, so the search ends. */
  lemma TakenIsBounded(taken: seq<string>, name: string, n: nat)
    requires n >= 2 && forall m :: 2 <= m < n ==> Suffixed(name, m) in taken
    ensures n - 2 <= |taken|
  {
    var s := Candidates(name, n - 2);
    forall i, j | 0 <= i < j < |s| ensures s[i] != s[j] {
      if s[i] == s[j] {
        SuffixedIsInjective(name, i + 2, j + 2);
      }
    }
    DistinctCardinality(s, set x | x in taken);
    AtMostLength(taken);
  }

  /** The loop of the original, with the search for a name among those taken. */
  method UniqueName(taken: seq<string>, name: string) returns (unique: string)
    ensures FirstFree(taken, name, unique)
  {
    unique := name;
    var suffix := 2;
    while unique in taken
      invariant suffix >= 2 && forall m :: 2 <= m < suffix - 1 ==> Suffixed(name, m) in taken
      invariant if suffix == 2 then unique == name else name in taken && unique == Suffixed(name, suffix - 1)
      decreases |taken| + 3 - suffix
    {
      TakenIsBounded(taken, name, suffix);
      unique := Suffixed(name, suffix);
      suffix := suffix + 1;
    }
    if unique != name {
      forall m: nat | 2 <= m < suffix - 1 ensures name + "_" + NatText(m) in taken {
        assert Suffixed(name, m) in taken;
      }
      assert SuffixIs(taken, name, unique, suffix - 1);
    }
  }

  /** Names stay distinct, and the name given is the only one that this rule allows. */
  lemma NewNameIsDistinct(taken: seq<string>, name: string, unique: string, other: string)
    requires Distinct(taken) && FirstFree(taken, name, unique) && FirstFree(taken, name, other)
    ensures Distinct(taken + [unique]) && unique == other
  {
    if unique != name && other != name {
      var m: nat :| SuffixIs(taken, name, unique, m);
      var n: nat :| SuffixIs(taken, name, other, n);
      assert m < n ==> name + "_" + NatText(m) in taken;
      assert n < m ==> name + "_" + NatText(n) in taken;
    }
  }
}
