/** Finite sequences used as the program's vectors: duplicate-freedom, concatenation of blocks,
    order-preserving filtering, and the arbitrary reorderings done by sorts and shuffles. */
module Seqs {

  /** The set of elements of a vector. */
  ghost function Elems(s: seq<nat>): set<nat> { set x | x in s }

  ghost predicate NoDup(s: seq<nat>) {
    forall i, j :: 0 <= i < j < |s| ==> s[i] != s[j]
  }

  ghost predicate Bounded(s: seq<nat>, n: nat) {
    forall i :: 0 <= i < |s| ==> s[i] < n
  }

  ghost predicate Ascending(s: seq<nat>) {
    forall i, j :: 0 <= i < j < |s| ==> s[i] < s[j]
  }

  /** Concatenation of a list of blocks. */
  ghost function Flat(bs: seq<seq<nat>>): seq<nat> {
    if bs == [] then [] else Flat(bs[..|bs| - 1]) + bs[|bs| - 1]
  }

  /** The elements whose flag is set, in order. */
  ghost function Filter(s: seq<nat>, flag: seq<bool>): seq<nat>
    requires Bounded(s, |flag|)
  {
    if s == [] then []
    else
      var rest := Filter(s[..|s| - 1], flag);
      if flag[s[|s| - 1]] then rest + [s[|s| - 1]] else rest
  }

  lemma FlatAppend(bs: seq<seq<nat>>, b: seq<nat>)
    ensures Flat(bs + [b]) == Flat(bs) + b
  {}

  lemma {:induction false} FlatPrefix(bs: seq<seq<nat>>, k: nat)
    requires k <= |bs|
    ensures Flat(bs[..k]) <= Flat(bs)
    decreases |bs| - k
  {
    if k == |bs| {
      assert bs[..k] == bs;
    } else {
      FlatPrefix(bs, k + 1);
      assert bs[..k + 1][..k] == bs[..k];
    }
  }

  /** A block occupies a contiguous stretch of the concatenation. */
  lemma FlatBlock(bs: seq<seq<nat>>, k: nat)
    requires k < |bs|
    ensures |Flat(bs[..k])| + |bs[k]| <= |Flat(bs)|
    ensures Flat(bs[..k + 1]) == Flat(bs[..k]) + bs[k]
    ensures Flat(bs)[|Flat(bs[..k])|..|Flat(bs[..k])| + |bs[k]|] == bs[k]
  {
    assert bs[..k + 1][..k] == bs[..k];
    FlatPrefix(bs, k + 1);
    var e := |Flat(bs[..k])|;
    assert Flat(bs)[..e + |bs[k]|] == Flat(bs[..k]) + bs[k];
    assert Flat(bs)[e..e + |bs[k]|] == Flat(bs)[..e + |bs[k]|][e..];
  }

  /** The block an element of the concatenation comes from. */
  lemma {:induction false} FlatFind(bs: seq<seq<nat>>, x: nat) returns (k: nat)
    requires x in Flat(bs)
    ensures k < |bs| && x in bs[k]
  {
    k := |bs| - 1;
    if x !in bs[k] { k := FlatFind(bs[..k], x); }
  }

  lemma FlatContains(bs: seq<seq<nat>>, k: nat, x: nat)
    requires k < |bs| && x in bs[k]
    ensures x in Flat(bs)
  {}

  lemma {:induction false} FilterAll(s: seq<nat>, flag: seq<bool>)
    requires Bounded(s, |flag|)
    requires forall x :: x in s ==> flag[x]
    ensures Filter(s, flag) == s
  {
    if s != [] {
      var front, last := s[..|s| - 1], s[|s| - 1];
      assert s == front + [last] && last in s;
      FilterAll(front, flag);
    }
  }

  lemma {:induction false} FilterMember(s: seq<nat>, flag: seq<bool>, x: nat)
    requires Bounded(s, |flag|)
    ensures x in Filter(s, flag) <==> x in s && flag[x]
    ensures |Filter(s, flag)| <= |s|
  {
    if s != [] { FilterMember(s[..|s| - 1], flag, x); }
  }

  lemma {:induction false} FilterNoDup(s: seq<nat>, flag: seq<bool>)
    requires Bounded(s, |flag|) && NoDup(s)
    ensures NoDup(Filter(s, flag))
  {
    if s != [] {
      var front := s[..|s| - 1];
      FilterNoDup(front, flag);
      FilterMember(front, flag, s[|s| - 1]);
    }
  }

  /** The elements whose flag is not set, in order. */
  ghost function Missing(s: seq<nat>, flag: seq<bool>): seq<nat>
    requires Bounded(s, |flag|)
  {
    if s == [] then []
    else
      var rest := Missing(s[..|s| - 1], flag);
      if flag[s[|s| - 1]] then rest else rest + [s[|s| - 1]]
  }

  lemma {:induction false} MissingMember(s: seq<nat>, flag: seq<bool>, x: nat)
    requires Bounded(s, |flag|)
    ensures x in Missing(s, flag) <==> x in s && !flag[x]
  {
    if s != [] { MissingMember(s[..|s| - 1], flag, x); }
  }

  lemma {:induction false} MissingNoDup(s: seq<nat>, flag: seq<bool>)
    requires Bounded(s, |flag|) && NoDup(s)
    ensures NoDup(Missing(s, flag))
  {
    if s != [] {
      var front := s[..|s| - 1];
      MissingNoDup(front, flag);
      MissingMember(front, flag, s[|s| - 1]);
    }
  }

  lemma {:induction false} MissingAll(s: seq<nat>, flag: seq<bool>)
    requires Bounded(s, |flag|)
    ensures (forall x :: x in s ==> !flag[x]) ==> Missing(s, flag) == s
    ensures (forall x :: x in s ==> flag[x]) ==> Missing(s, flag) == []
  {
    if s != [] {
      MissingAll(s[..|s| - 1], flag);
      assert forall x :: x in s[..|s| - 1] ==> x in s;
    }
  }

  lemma {:induction false} MissingAppend(s: seq<nat>, t: seq<nat>, flag: seq<bool>)
    requires Bounded(s, |flag|) && Bounded(t, |flag|)
    ensures Missing(s + t, flag) == Missing(s, flag) + Missing(t, flag)
  {
    if t == [] {
      assert s + t == s;
    } else {
      var front := t[..|t| - 1];
      MissingAppend(s, front, flag);
      assert (s + t)[..|s + t| - 1] == s + front;
    }
  }

  lemma MissingOne(x: nat, flag: seq<bool>)
    requires x < |flag|
    ensures Missing([x], flag) == if flag[x] then [] else [x]
  {
    assert [x][..0] == [];
  }

  /** The flags and a set that tell the same say the same of the missing elements. */
  lemma {:induction false} MissingAmong(s: seq<nat>, flag: seq<bool>, vs: set<nat>)
    requires Bounded(s, |flag|) && forall x :: x in s ==> (!flag[x] <==> x in vs)
    ensures Missing(s, flag) == Among(s, vs)
  {
    if s != [] {
      assert forall x :: x in s[..|s| - 1] ==> x in s;
      MissingAmong(s[..|s| - 1], flag, vs);
    }
  }

  lemma {:induction false} MissingSame(s: seq<nat>, flag: seq<bool>, base: seq<bool>)
    requires Bounded(s, |flag|) && Bounded(s, |base|) && forall x :: x in s ==> flag[x] == base[x]
    ensures Missing(s, flag) == Missing(s, base)
  {
    if s != [] {
      assert forall x :: x in s[..|s| - 1] ==> x in s;
      MissingSame(s[..|s| - 1], flag, base);
    }
  }

  /** The elements that are in vs, in order. */
  ghost function Among(s: seq<nat>, vs: set<nat>): seq<nat> {
    if s == [] then []
    else
      var rest := Among(s[..|s| - 1], vs);
      if s[|s| - 1] in vs then rest + [s[|s| - 1]] else rest
  }

  lemma {:induction false} FilterAmong(s: seq<nat>, flag: seq<bool>, vs: set<nat>)
    requires Bounded(s, |flag|) && forall x :: x in s ==> (flag[x] <==> x in vs)
    ensures Filter(s, flag) == Among(s, vs)
  {
    if s != [] {
      assert forall x :: x in s[..|s| - 1] ==> x in s;
      FilterAmong(s[..|s| - 1], flag, vs);
    }
  }

  lemma {:induction false} AmongMember(s: seq<nat>, vs: set<nat>, x: nat)
    ensures x in Among(s, vs) <==> x in s && x in vs
  {
    if s != [] { AmongMember(s[..|s| - 1], vs, x); }
  }

  /** The members of vs below n, ascending. */
  ghost function InOrder(vs: set<nat>, n: nat): (s: seq<nat>)
    ensures Ascending(s) && Bounded(s, n) && forall v :: v in s <==> v in vs && 0 <= v < n
  {
    if n == 0 then [] else InOrder(vs, n - 1) + if n - 1 in vs then [n - 1] else []
  }

  /** Appends the members of `group` that are not flagged, and flags them. */
  method PushMissing(group: seq<nat>, list0: seq<nat>, flag0: seq<bool>) returns (list: seq<nat>, flag: seq<bool>)
    requires Bounded(group, |flag0|) && NoDup(group)
    ensures list == list0 + Missing(group, flag0)
    ensures |flag| == |flag0| && forall x :: 0 <= x < |flag| ==> (flag[x] <==> flag0[x] || x in group)
  {
    list, flag := list0, flag0;
    for m := 0 to |group|
      invariant list == list0 + Missing(group[..m], flag0)
      invariant |flag| == |flag0| && forall x :: 0 <= x < |flag| ==> (flag[x] <==> flag0[x] || x in group[..m])
    {
      assert group[..m + 1] == group[..m] + [group[m]] && group[..m + 1][..m] == group[..m];
      if !flag[group[m]] {
        list := list + [group[m]];
        flag := flag[group[m] := true];
      }
    }
    assert group[..|group|] == group;
  }

  lemma FilterStep(s: seq<nat>, flag: seq<bool>, i: nat)
    requires i < |s| && Bounded(s, |flag|)
    ensures Filter(s[..i + 1], flag) == Filter(s[..i], flag) + (if flag[s[i]] then [s[i]] else [])
  {
    assert s[..i + 1][..i] == s[..i];
  }

  lemma ElemsAppend(s: seq<nat>, t: seq<nat>)
    ensures Elems(s + t) == Elems(s) + Elems(t)
  {}

  /** A duplicate-free vector has as many entries as its set has elements. */
  lemma {:induction false} NoDupSize(s: seq<nat>)
    requires NoDup(s)
    ensures |Elems(s)| == |s|
  {
    if s != [] {
      var front := s[..|s| - 1];
      NoDupSize(front);
      assert Elems(s) == Elems(front) + {s[|s| - 1]};
    }
  }

  lemma {:induction false} ElemsSize(s: seq<nat>)
    ensures |Elems(s)| <= |s|
  {
    if s != [] {
      ElemsSize(s[..|s| - 1]);
      assert Elems(s) == Elems(s[..|s| - 1]) + {s[|s| - 1]};
    }
  }

  lemma SubsetSize(a: set<nat>, b: set<nat>)
    requires a <= b
    ensures |a| <= |b|
  {
    assert b == a + (b - a);
  }

  ghost predicate Permutation(s: seq<nat>, t: seq<nat>) {
    multiset(s) == multiset(t)
  }

  lemma PermutationFacts(s: seq<nat>, t: seq<nat>)
    requires Permutation(s, t)
    ensures |s| == |t| && Elems(s) == Elems(t)
    ensures NoDup(s) ==> NoDup(t)
  {
    assert |s| == |multiset(s)| == |multiset(t)| == |t|;
    forall x ensures x in s <==> x in t { assert x in s <==> x in multiset(s); }
    if NoDup(s) {
      NoDupSize(s);
      if !NoDup(t) {
        var i, j :| 0 <= i < j < |t| && t[i] == t[j];
        var u := t[..j] + t[j + 1..];
        assert Elems(t) == Elems(u) by {
          forall x | x in t ensures x in u {
            var k :| 0 <= k < |t| && t[k] == x;
            if k < j { assert u[k] == x; } else if k > j { assert u[k - 1] == x; } else { assert u[i] == x; }
          }
        }
        ElemsSize(u);
      }
    }
  }

  function Swap(s: seq<nat>, i: nat, j: nat): seq<nat>
    requires i < |s| && j < |s|
  {
    s[i := s[j]][j := s[i]]
  }

  /** Every draw picks the entry swapped into the next place from the right. */
  function Shuffled(s: seq<nat>, draws: nat -> nat): seq<nat>
    decreases |s|
  {
    if |s| <= 1 then s
    else
      var k := |s| - 1;
      var u := Swap(s, k, draws(k) % |s|);
      Shuffled(u[..k], draws) + [u[k]]
  }

  lemma SwapPermutes(s: seq<nat>, i: nat, j: nat)
    requires i < |s| && j < |s|
    ensures Permutation(s, Swap(s, i, j)) && |Swap(s, i, j)| == |s| && Swap(s, i, j)[i] == s[j]
  {}

  /** Every order that a comparison sort or std::shuffle can leave is some choice of draws. */
  lemma {:induction false} ShuffleReaches(s: seq<nat>, t: seq<nat>) returns (draws: nat -> nat)
    requires Permutation(s, t)
    ensures Shuffled(s, draws) == t
    decreases |s|
  {
    hide Swap, Permutation, Shuffled;
    SameLength(s, t);
    if |s| <= 1 {
      draws := _ => 0;
      ShuffledNone(s, t, draws);
    } else {
      var k := |s| - 1;
      var j := PlaceOf(s, t, k);
      var u := Swap(s, k, j);
      SwapPermutes(s, k, j);
      Rearranged(s, u, t);
      LastOff(u, t);
      var rest := ShuffleReaches(u[..k], t[..k]);
      draws := i => if i == k then j else rest(i);
      SameDraws(u[..k], draws, rest);
      ShuffledNext(s, draws, j);
      assert t == t[..k] + [t[k]];
    }
  }

  lemma ShuffledNone(s: seq<nat>, t: seq<nat>, draws: nat -> nat)
    requires Permutation(s, t) && |s| == |t| <= 1
    ensures Shuffled(s, draws) == t
  {
    if |s| == 1 {
      assert s == [s[0]] && t == [t[0]];
      assert s[0] in multiset(t);
    }
  }

  lemma ShuffledNext(s: seq<nat>, draws: nat -> nat, j: nat)
    requires |s| > 1 && j < |s| && draws(|s| - 1) == j
    ensures |Swap(s, |s| - 1, j)| == |s|
    ensures Shuffled(s, draws) == Shuffled(Swap(s, |s| - 1, j)[..|s| - 1], draws) + [Swap(s, |s| - 1, j)[|s| - 1]]
  {
    assert j % |s| == j;
  }

  lemma SameLength(s: seq<nat>, t: seq<nat>)
    requires Permutation(s, t)
    ensures |s| == |t|
  {
    assert |s| == |multiset(s)| == |multiset(t)| == |t|;
  }

  lemma PlaceOf(s: seq<nat>, t: seq<nat>, k: nat) returns (j: nat)
    requires Permutation(s, t) && k < |t|
    ensures j < |s| && s[j] == t[k]
  {
    assert t[k] in multiset(t);
    assert t[k] in s;
    j :| 0 <= j < |s| && s[j] == t[k];
  }

  lemma Rearranged(s: seq<nat>, t: seq<nat>, u: seq<nat>)
    requires Permutation(s, t) && Permutation(s, u)
    ensures Permutation(t, u)
  {}

  lemma LastOff(s: seq<nat>, t: seq<nat>)
    requires Permutation(s, t) && s != [] && t != [] && s[|s| - 1] == t[|t| - 1]
    ensures Permutation(s[..|s| - 1], t[..|t| - 1])
  {
    assert s == s[..|s| - 1] + [s[|s| - 1]] && t == t[..|t| - 1] + [t[|t| - 1]];
    assert multiset(s[..|s| - 1]) == multiset(s) - multiset{s[|s| - 1]};
  }

  lemma {:induction false} SameDraws(s: seq<nat>, draws: nat -> nat, draws': nat -> nat)
    requires forall i: nat :: i < |s| ==> draws(i) == draws'(i)
    ensures Shuffled(s, draws) == Shuffled(s, draws')
    decreases |s|
  {
    if |s| > 1 { SameDraws(Swap(s, |s| - 1, draws(|s| - 1) % |s|)[..|s| - 1], draws, draws'); }
  }

  /** Any reordering of a vector. */
  method Permute(s: seq<nat>, draws: nat -> nat) returns (t: seq<nat>)
    ensures t == Shuffled(s, draws) && Permutation(s, t)
    ensures |s| == |t| && Elems(s) == Elems(t) && (NoDup(s) ==> NoDup(t))
  {
    t := s;
    var i := |s|;
    assert t[..i] == s && t[i..] == [];
    while i > 1
      invariant |t| == |s| && 0 <= i <= |s|
      invariant Shuffled(t[..i], draws) + t[i..] == Shuffled(s, draws)
      invariant Permutation(s, t)
    {
      i := i - 1;
      var j := draws(i) % (i + 1);
      SwapPermutes(t, i, j);
      SwapFront(t, i, j, draws);
      t := t[i := t[j]][j := t[i]];
    }
    assert t == t[..i] + t[i..];
    PermutationFacts(s, t);
  }

  lemma SwapFront(t: seq<nat>, i: nat, j: nat, draws: nat -> nat)
    requires 0 < i < |t| && j == draws(i) % (i + 1)
    ensures var u := Swap(t, i, j);
            |u| == |t| && Shuffled(t[..i + 1], draws) + t[i + 1..] == Shuffled(u[..i], draws) + u[i..]
  {
    var u := Swap(t, i, j);
    assert Swap(t[..i + 1], i, j)[..i] == u[..i] && Swap(t[..i + 1], i, j)[i] == u[i];
    assert u[i..] == [u[i]] + t[i + 1..];
  }

  ghost function Reversed(s: seq<nat>): seq<nat> {
    seq(|s|, i requires 0 <= i < |s| => s[|s| - 1 - i])
  }

  method Reverse(s: seq<nat>) returns (t: seq<nat>)
    ensures t == Reversed(s)
    ensures Elems(t) == Elems(s) && (NoDup(s) ==> NoDup(t))
  {
    t := [];
    for i := 0 to |s|
      invariant |t| == i && forall k :: 0 <= k < i ==> t[k] == s[|s| - 1 - k]
    {
      t := t + [s[|s| - 1 - i]];
    }
    forall x | x in s ensures x in t {
      var k :| 0 <= k < |s| && s[k] == x;
      assert t[|s| - 1 - k] == x;
    }
  }
}
