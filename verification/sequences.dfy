/** Facts about sequences and sets that several components use. */
module Sequences {

  lemma SubsetSize<T>(a: set<T>, b: set<T>)
    requires a <= b
    ensures |a| <= |b|
  {
    assert b == a + (b - a);
  }

  lemma Twice<T>(s: seq<T>, j: nat, k: nat)
    requires j < k < |s| && s[j] == s[k]
    ensures multiset(s)[s[j]] >= 2
  {
    assert s == s[..k] + [s[k]] + s[k + 1..];
    assert s[j] in s[..k];
  }

  lemma {:induction false} Once<T>(s: seq<T>, x: T)
    requires forall j, k | 0 <= j < k < |s| :: s[j] != s[k]
    ensures multiset(s)[x] <= 1
  {
    if s != [] {
      Once(s[1..], x);
      assert s == [s[0]] + s[1..];
      assert forall k | 0 <= k < |s| - 1 :: s[1..][k] == s[k + 1];
    }
  }

  /** For any finite set of strings there are as many fresh ones as wanted. */
  lemma FreshStrings(used: set<string>, count: nat) returns (names: seq<string>)
    ensures |names| == count
    ensures forall i | 0 <= i < count :: names[i] !in used
    ensures forall i, j | 0 <= i < j < count :: names[i] != names[j]
  {
    var longest := Longest(used);
    names := seq(count, i requires 0 <= i => seq(longest + 1 + i, _ => 'x'));
    forall i, j | 0 <= i < j < count ensures names[i] != names[j] {
      assert |names[i]| != |names[j]|;
    }
  }

  lemma {:induction false} Longest(used: set<string>) returns (n: nat)
    ensures forall s | s in used :: |s| <= n
    decreases |used|
  {
    if used == {} {
      n := 0;
    } else {
      var s :| s in used;
      n := Longest(used - {s});
      if n < |s| { n := |s|; }
    }
  }
}
