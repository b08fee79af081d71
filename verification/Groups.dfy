/** Variable groups: a group number for every variable (0 for none) and the members of every group. */
module Groups {
  import opened Seqs

  /** A group table read for n variables: what lies beyond it is in no group. */
  function Padded(table: seq<nat>, n: nat): (r: seq<nat>)
    ensures n <= |r| && |table| <= |r|
    ensures forall v :: 0 <= v < |r| ==> r[v] == if v < |table| then table[v] else 0
  {
    if |table| < n then table + seq(n - |table|, _ => 0) else table
  }

  datatype Grouping = Grouping(var2group: seq<nat>, groups: seq<seq<nat>>) {

    /** What is kept or dropped as one: the group of v, or v alone. */
    function Unit(v: nat): seq<nat> {
      if v < |var2group| && 0 < var2group[v] < |groups| then groups[var2group[v]] else [v]
    }

    /** The two tables tell the same story about the first n variables. */
    ghost predicate Consistent(n: nat) {
      && n <= |var2group|
      && (forall v :: 0 <= v < n && var2group[v] != 0 ==> var2group[v] < |groups| && v in groups[var2group[v]])
      && (forall g, v {:trigger v in groups[g]} :: 0 < g < |groups| && v in groups[g] ==> v < n && var2group[v] == g)
      && (forall g :: 0 < g < |groups| ==> NoDup(groups[g]))
    }

    ghost predicate Closed(vs: set<nat>) {
      forall v, w {:trigger v in vs, w in Unit(v)} :: v in vs && w in Unit(v) ==> w in vs
    }

    /** All members of the units of vs. */
    ghost function Closure(vs: set<nat>): set<nat> {
      set v, w | v in vs && w in Unit(v) :: w
    }

    /** The units of the entries of s, each where its first entry is. */
    ghost function Listing(s: seq<nat>): seq<seq<nat>> {
      if s == [] then []
      else
        var front, v := Listing(s[..|s| - 1]), s[|s| - 1];
        if v in Flat(front) then front else front + [Unit(v)]
    }

    /** A list of whole, pairwise disjoint units. */
    ghost predicate UnitList(n: nat, units: seq<seq<nat>>) {
      && (forall k :: 0 <= k < |units| ==> IsUnit(n, units[k]))
      && NoDup(Flat(units))
    }

    ghost predicate IsUnit(n: nat, u: seq<nat>) {
      |u| > 0 && u[0] < n && u == Unit(u[0])
    }

    lemma UnitFacts(n: nat, v: nat)
      requires Consistent(n) && v < n
      ensures v in Unit(v) && IsUnit(n, Unit(v)) && NoDup(Unit(v)) && Bounded(Unit(v), n)
      ensures forall w :: w in Unit(v) ==> Unit(w) == Unit(v)
      ensures var2group[v] != 0 ==> var2group[v] < |groups| && Unit(v) == groups[var2group[v]]
    {
      var u := Unit(v);
      var g := var2group[v];
      if g == 0 {
        assert u == [v];
      } else {
        assert u == groups[g] && v in u;
        forall w | w in u ensures w < n && Unit(w) == u { assert w in groups[g]; }
        assert forall i :: 0 <= i < |u| ==> u[i] in u;
      }
    }

    /** A closure that meets a unit contains it. */
    lemma UnitInClosure(n: nat, vs: set<nat>, v: nat, w: nat)
      requires Consistent(n) && v < n && (forall x :: x in vs ==> x < n) && w in Unit(v) && w in Closure(vs)
      ensures v in Closure(vs) && (forall y :: y in Unit(v) ==> y in Closure(vs))
    {
      var x :| x in vs && w in Unit(x);
      UnitFacts(n, x);
      UnitFacts(n, v);
      assert Unit(x) == Unit(v);
    }

    lemma InClosure(n: nat, vs: set<nat>, w: nat) returns (v: nat)
      requires Consistent(n) && (forall x :: x in vs ==> x < n) && w in Closure(vs)
      ensures v in vs && w in Unit(v) && w < n && Unit(w) == Unit(v)
    {
      v :| v in vs && w in Unit(v);
      UnitFacts(n, v);
      assert w in Unit(v);
    }

    lemma ClosureContains(n: nat, vs: set<nat>)
      requires Consistent(n) && forall v :: v in vs ==> v < n
      ensures vs <= Closure(vs)
    {
      forall v | v in vs ensures v in Closure(vs) { UnitFacts(n, v); }
    }

    lemma ClosureBounded(n: nat, vs: set<nat>)
      requires Consistent(n) && forall v :: v in vs ==> v < n
      ensures forall w :: w in Closure(vs) ==> w < n
    {
      forall w | w in Closure(vs) ensures w < n { var v := InClosure(n, vs, w); }
    }

    lemma ClosureClosed(n: nat, vs: set<nat>)
      requires Consistent(n) && forall v :: v in vs ==> v < n
      ensures Closed(Closure(vs))
    {
      forall w, x | w in Closure(vs) && x in Unit(w) ensures x in Closure(vs) {
        var v := InClosure(n, vs, w);
        assert x in Unit(v);
      }
    }

    lemma ClosureOfClosed(n: nat, vs: set<nat>)
      requires Consistent(n) && (forall v :: v in vs ==> v < n) && Closed(vs)
      ensures Closure(vs) == vs
    {
      ClosureContains(n, vs);
    }

    lemma ClosureMono(vs: set<nat>, ws: set<nat>)
      requires vs <= ws
      ensures Closure(vs) <= Closure(ws)
    {}

    lemma ClosureAdd(n: nat, vs: set<nat>, v: nat)
      requires Consistent(n) && v < n && forall w :: w in vs ==> w < n
      ensures Closure(vs + {v}) == Closure(vs) + Elems(Unit(v))
      ensures v in Closure(vs) ==> Closure(vs + {v}) == Closure(vs)
      ensures v !in Closure(vs) ==> Elems(Unit(v)) !! Closure(vs)
    {
      ClosureUnion(vs, v);
      if v in Closure(vs) {
        UnitFacts(n, v);
        UnitInClosure(n, vs, v, v);
      } else if w :| w in Unit(v) && w in Closure(vs) {
        UnitInClosure(n, vs, v, w);
      }
    }

    lemma ClosureUnion(vs: set<nat>, v: nat)
      ensures Closure(vs + {v}) == Closure(vs) + Elems(Unit(v))
    {}

    lemma ListingNext(s: seq<nat>, v: nat)
      ensures var front := Listing(s);
              Flat(Listing(s + [v])) == if v in Flat(front) then Flat(front) else Flat(front) + Unit(v)
    {
      assert (s + [v])[..|s|] == s;
      FlatAppend(Listing(s), Unit(v));
    }

    /** The listed units are made of the variables of the groups of s. */
    lemma {:induction false} ListingClosure(n: nat, s: seq<nat>)
      requires Consistent(n) && Bounded(s, n)
      ensures Elems(Flat(Listing(s))) == Closure(Elems(s))
    {
      hide Consistent, Unit, Flat;
      if s == [] {
        NoClosure();
      } else {
        var front, v := s[..|s| - 1], s[|s| - 1];
        ListingClosure(n, front);
        ListingNext(front, v);
        assert s == front + [v];
        ElemsAppend(front, [v]);
        ElemsAppend(Flat(Listing(front)), Unit(v));
        ClosureAdd(n, Elems(front), v);
      }
    }

    /** Appending what is not yet flagged of a unit lists the next entry. */
    lemma ListedNext(n: nat, s: seq<nat>, v: nat, list: seq<nat>, flag: seq<bool>, base: seq<bool>)
      requires Consistent(n) && Bounded(s, n) && v < n && |flag| == |base| == n && Bounded(Flat(Listing(s)), n)
      requires list == Missing(Flat(Listing(s)), base)
      requires forall x :: 0 <= x < n ==> (flag[x] <==> base[x] || x in list)
      ensures Bounded(Unit(v), n) && Bounded(Flat(Listing(s + [v])), n)
      ensures list + Missing(Unit(v), flag) == Missing(Flat(Listing(s + [v])), base)
    {
      hide Consistent, Unit, Listing, Flat, Closure, NoDup, Missing;
      var listed, u := Flat(Listing(s)), Unit(v);
      UnitFacts(n, v);
      ListingNext(s, v);
      UnitListed(n, s, v);
      forall x: nat ensures x in list <==> x in listed && !base[x] { MissingMember(listed, base, x); }
      if v in listed {
        forall x | x in u ensures flag[x] {}
        MissingAll(u, flag);
      } else {
        forall x | x in u ensures flag[x] == base[x] {}
        MissingSame(u, flag, base);
        MissingAppend(listed, u, base);
      }
    }

    /** A list of units holds a unit as a whole or nothing of it. */
    lemma UnitListed(n: nat, s: seq<nat>, v: nat)
      requires Consistent(n) && Bounded(s, n) && v < n
      ensures forall x :: x in Unit(v) ==> (x in Flat(Listing(s)) <==> v in Flat(Listing(s)))
    {
      hide Consistent, Unit, Listing, Flat, Closure;
      var vs := Elems(s);
      ListingClosure(n, s);
      UnitFacts(n, v);
      assert forall x :: x in Flat(Listing(s)) <==> x in Elems(Flat(Listing(s)));
      forall x | x in Unit(v) ensures x in Closure(vs) <==> v in Closure(vs) {
        if x in Closure(vs) { UnitInClosure(n, vs, v, x); }
        if v in Closure(vs) { UnitInClosure(n, vs, v, v); }
      }
    }

    lemma NoClosure()
      ensures Elems(Flat(Listing([]))) == Closure(Elems([]))
    {}

    lemma UnitListPrefix(n: nat, units: seq<seq<nat>>, k: nat)
      requires UnitList(n, units) && k <= |units|
      ensures UnitList(n, units[..k])
    {
      FlatPrefix(units, k);
    }

    lemma UnitListBounded(n: nat, units: seq<seq<nat>>)
      requires Consistent(n) && UnitList(n, units)
      ensures Bounded(Flat(units), n) && Closed(Elems(Flat(units)))
    {
      var s := Flat(units);
      forall x: nat | x in s ensures x < n && forall w :: w in Unit(x) ==> w in s {
        var k := FlatFind(units, x);
        UnitFacts(n, units[k][0]);
        forall w | w in Unit(x) ensures w in s { FlatContains(units, k, w); }
      }
      assert forall i :: 0 <= i < |s| ==> s[i] in s;
    }
  }
}
