/** The simple form of the backward round: walk through the units from the last to the first and keep a
    unit only if the kept and the still untested ones do not determine it without it. */
module Minimisation {
  import opened Seqs
  import opened Logic
  import opened Groups

  /** `undecided` are the units whose test ended without an answer; those are kept. */
  ghost function Minimise(f: Formula, units: seq<seq<nat>>, indep: seq<nat>, undecided: set<seq<nat>>): seq<nat> {
    if units == [] then indep
    else
      var rest, u := units[..|units| - 1], units[|units| - 1];
      if u in undecided || !Supports(f, Elems(Flat(rest)) + Elems(indep), Elems(u)) then
        Minimise(f, rest, indep + u, undecided)
      else
        Minimise(f, rest, indep, undecided)
  }

  /** The result extends what was kept by some of the untested units. */
  lemma {:induction false} MinimiseKeeps(f: Formula, units: seq<seq<nat>>, indep: seq<nat>, undecided: set<seq<nat>>)
    ensures indep <= Minimise(f, units, indep, undecided)
    ensures Elems(Minimise(f, units, indep, undecided)) <= Elems(Flat(units)) + Elems(indep)
  {
    if units != [] {
      var rest, u := units[..|units| - 1], units[|units| - 1];
      MinimiseKeeps(f, rest, indep + u, undecided);
      MinimiseKeeps(f, rest, indep, undecided);
    }
  }

  /** The result is what was kept so far followed by whole units, in the order they were tested. */
  lemma {:induction false} MinimiseWholeUnits(f: Formula, units: seq<seq<nat>>, indep: seq<nat>, undecided: set<seq<nat>>)
    returns (kept: seq<seq<nat>>)
    ensures Minimise(f, units, indep, undecided) == indep + Flat(kept)
    ensures forall k :: 0 <= k < |kept| ==> kept[k] in units
    decreases |units|
  {
    kept := [];
    if units != [] {
      var rest, u := units[..|units| - 1], units[|units| - 1];
      if u in undecided || !Supports(f, Elems(Flat(rest)) + Elems(indep), Elems(u)) {
        var more := MinimiseWholeUnits(f, rest, indep + u, undecided);
        kept := [u] + more;
        FlatPrepend(u, more);
      } else {
        kept := MinimiseWholeUnits(f, rest, indep, undecided);
      }
    }
  }

  lemma {:induction false} FlatPrepend(b: seq<nat>, bs: seq<seq<nat>>)
    ensures Flat([b] + bs) == b + Flat(bs)
  {
    if bs == [] {
      assert [b] + bs == [b];
    } else {
      var front := bs[..|bs| - 1];
      FlatPrepend(b, front);
      assert ([b] + bs)[..|bs|] == [b] + front;
    }
  }

  lemma {:induction false} MinimiseNoDup(f: Formula, units: seq<seq<nat>>, indep: seq<nat>, undecided: set<seq<nat>>)
    requires NoDup(Flat(units) + indep)
    ensures NoDup(Minimise(f, units, indep, undecided))
  {
    if units == [] {
      assert Flat(units) + indep == indep;
    } else {
      var rest, u := units[..|units| - 1], units[|units| - 1];
      var s := Flat(units) + indep;
      var k, l := |Flat(rest)|, |u|;
      assert s[..k] == Flat(rest) && s[k..k + l] == u && s[k + l..] == indep;
      NoDupMove(Flat(rest), u, indep);
      MinimiseNoDup(f, rest, indep + u, undecided);
      MinimiseNoDup(f, rest, indep, undecided);
    }
  }

  lemma NoDupMove(x: seq<nat>, u: seq<nat>, y: seq<nat>)
    requires NoDup(x + u + y)
    ensures NoDup(x + (y + u)) && NoDup(x + y)
  {
    var s := x + u + y;
    assert forall i :: 0 <= i < |x| ==> s[i] == x[i];
    assert forall i :: 0 <= i < |u| ==> s[|x| + i] == u[i];
    assert forall i :: 0 <= i < |y| ==> s[|x| + |u| + i] == y[i];
    PermutationFacts(s, x + (y + u));
    var t := x + (y + u);
    assert x + y == t[..|x| + |y|];
  }

  /** The result determines everything it started from. */
  lemma {:induction false} MinimiseSupports(f: Formula, units: seq<seq<nat>>, indep: seq<nat>, undecided: set<seq<nat>>)
    ensures Supports(f, Elems(Minimise(f, units, indep, undecided)), Elems(Flat(units)) + Elems(indep))
  {
    if units == [] {
      SupportsSelf(f, Elems(indep), Elems(Flat(units)) + Elems(indep));
    } else {
      var rest, u := units[..|units| - 1], units[|units| - 1];
      var c, all := Elems(Flat(rest)) + Elems(indep), Elems(Flat(units)) + Elems(indep);
      assert all == c + Elems(u);
      if u in undecided || !Supports(f, c, Elems(u)) {
        MinimiseSupports(f, rest, indep + u, undecided);
        assert Elems(Flat(rest)) + Elems(indep + u) == all;
      } else {
        MinimiseSupports(f, rest, indep, undecided);
        SupportsTrans(f, Elems(Minimise(f, units, indep, undecided)), c, Elems(u));
      }
    }
  }

  /** No decided unit of the result is determined by the rest of the result. */
  lemma {:induction false} MinimiseNecessary(
      f: Formula, units: seq<seq<nat>>, indep: seq<nat>, undecided: set<seq<nat>>, k: nat)
    requires NoDup(Flat(units) + indep) && k < |units| && units[k] !in undecided
    requires units[k] != [] && units[k][0] in Minimise(f, units, indep, undecided)
    ensures !Supports(f, Elems(Minimise(f, units, indep, undecided)) - Elems(units[k]), Elems(units[k]))
  {
    var last := |units| - 1;
    var rest, u := units[..last], units[last];
    var c, result := Elems(Flat(rest)) + Elems(indep), Minimise(f, units, indep, undecided);
    NoDupMove(Flat(rest), u, indep);
    if k == last {
      MinimiseKeeps(f, rest, indep, undecided);
      LastUnitApart(Flat(rest), u, indep);
      assert !Supports(f, c, Elems(u));
      MinimiseKeeps(f, rest, indep + u, undecided);
      assert Elems(result) - Elems(u) <= c;
      if Supports(f, Elems(result) - Elems(u), Elems(u)) { SupportsMono(f, Elems(result) - Elems(u), c, Elems(u)); }
    } else if u in undecided || !Supports(f, c, Elems(u)) {
      MinimiseNecessary(f, rest, indep + u, undecided, k);
    } else {
      MinimiseNecessary(f, rest, indep, undecided, k);
    }
  }

  lemma LastUnitApart(x: seq<nat>, u: seq<nat>, y: seq<nat>)
    requires NoDup(x + u + y) && u != []
    ensures u[0] !in Elems(x) + Elems(y)
  {
    var s := x + u + y;
    assert s[|x|] == u[0];
    forall i | 0 <= i < |x| ensures x[i] != u[0] { assert s[i] == x[i]; }
    forall i | 0 <= i < |y| ensures y[i] != u[0] { assert s[|x| + |u| + i] == y[i]; }
  }

  /** Minimality over group sub-collections: when every test was answered, no closed proper subset of the
      result determines all the variables the round started from. */
  lemma MinimiseMinimal(f: Formula, g: Grouping, n: nat, units: seq<seq<nat>>, smaller: set<nat>)
    requires g.Consistent(n) && g.UnitList(n, units) && g.Closed(smaller)
    requires smaller < Elems(Minimise(f, units, [], {}))
    ensures !Supports(f, smaller, Elems(Flat(units)))
  {
    var result := Minimise(f, units, [], {});
    var v :| v in result && v !in smaller;
    MinimiseKeeps(f, units, [], {});
    assert v in Elems(result) && v in Elems(Flat(units));
    var k := FlatFind(units, v);
    var u := units[k];
    g.UnitFacts(n, u[0]);
    assert Flat(units) + [] == Flat(units);
    forall w | w in u ensures w !in smaller { assert v in g.Unit(w); }
    MinimiseClosed(f, g, n, units, {});
    assert v in Elems(result) && u[0] in g.Unit(v);
    assert u[0] in Elems(result);
    MinimiseNecessary(f, units, [], {}, k);
    forall w | w in Elems(u) ensures w in Elems(Flat(units)) { FlatContains(units, k, w); }
    if Supports(f, smaller, Elems(Flat(units))) {
      SupportsMono(f, smaller, Elems(result) - Elems(u), Elems(u));
    }
  }

  /** Whole groups are kept or dropped. */
  lemma MinimiseClosed(f: Formula, g: Grouping, n: nat, units: seq<seq<nat>>, undecided: set<seq<nat>>)
    requires g.Consistent(n) && g.UnitList(n, units)
    ensures g.Closed(Elems(Minimise(f, units, [], undecided)))
  {
    var kept := MinimiseWholeUnits(f, units, [], undecided);
    forall v, w | v in Flat(kept) && w in g.Unit(v) ensures w in Flat(kept) {
      var k := FlatFind(kept, v);
      var j :| 0 <= j < |units| && units[j] == kept[k];
      g.UnitFacts(n, units[j][0]);
      FlatContains(kept, k, w);
    }
  }

  // ---- the assertions of the loop ----

  /** The same walk when only the variables `has` have an indicator: before every test each variable that is assumed equal
      needs one. None when the walk stops for want of an indicator. */
  ghost function Checked(f: Formula, units: seq<seq<nat>>, indep: seq<nat>, undecided: set<seq<nat>>, has: set<nat>): Option<seq<nat>> {
    if units == [] then Some(indep)
    else
      var rest, u := units[..|units| - 1], units[|units| - 1];
      if !(Elems(Flat(rest)) + Elems(indep) <= has) then None
      else if u in undecided || !Supports(f, Elems(Flat(rest)) + Elems(indep), Elems(u)) then
        Checked(f, rest, indep + u, undecided, has)
      else
        Checked(f, rest, indep, undecided, has)
  }

  /** A walk that is not stopped computes the same. */
  lemma {:induction false} CheckedMinimises(f: Formula, units: seq<seq<nat>>, indep: seq<nat>, undecided: set<seq<nat>>, has: set<nat>)
    ensures var r := Checked(f, units, indep, undecided, has);
            r.Some? ==> r.value == Minimise(f, units, indep, undecided)
  {
    if units != [] {
      var rest, u := units[..|units| - 1], units[|units| - 1];
      CheckedMinimises(f, rest, indep + u, undecided, has);
      CheckedMinimises(f, rest, indep, undecided, has);
    }
  }

  /** With an indicator for everything it starts from, the walk is not stopped. */
  lemma {:induction false} CheckedServed(f: Formula, units: seq<seq<nat>>, indep: seq<nat>, undecided: set<seq<nat>>, has: set<nat>)
    requires Elems(Flat(units)) + Elems(indep) <= has
    ensures Checked(f, units, indep, undecided, has).Some?
  {
    if units != [] {
      var rest, u := units[..|units| - 1], units[|units| - 1];
      ElemsAppend(Flat(rest), u);
      ElemsAppend(indep, u);
      CheckedServed(f, rest, indep + u, undecided, has);
      CheckedServed(f, rest, indep, undecided, has);
    }
  }

  lemma CheckedNothing(f: Formula, undecided: set<seq<nat>>, has: set<nat>)
    ensures Checked(f, [], [], undecided, has) == Some([])
  {}

  /** The walk is stopped exactly when a unit other than the one tested first lacks an indicator, or the one tested first
      does, is kept, and is followed by another test. */
  lemma CheckedExact(f: Formula, units: seq<seq<nat>>, undecided: set<seq<nat>>, has: set<nat>)
    requires units != []
    ensures var rest, u := units[..|units| - 1], units[|units| - 1];
            Checked(f, units, [], undecided, has).None? <==>
              || !(Elems(Flat(rest)) <= has)
              || (rest != [] && !(Elems(u) <= has) && (u in undecided || !Supports(f, Elems(Flat(rest)), Elems(u))))
  {
    var rest, u := units[..|units| - 1], units[|units| - 1];
    assert Elems([]) == {} && Elems(Flat(rest)) + {} == Elems(Flat(rest)) && [] + u == u;
    if Elems(Flat(rest)) <= has {
      CheckedServed(f, rest, [], undecided, has);
      if Elems(u) <= has { CheckedServed(f, rest, u, undecided, has); }
    }
  }

  lemma {:induction false} MinimiseSameModels(f: Formula, g: Formula, units: seq<seq<nat>>, indep: seq<nat>, undecided: set<seq<nat>>)
    requires SameModels(f, g) && f.n == g.n
    ensures Minimise(f, units, indep, undecided) == Minimise(g, units, indep, undecided)
  {
    if units != [] {
      var rest, u := units[..|units| - 1], units[|units| - 1];
      SupportsSameModels(f, g, Elems(Flat(rest)) + Elems(indep), Elems(u));
      MinimiseSameModels(f, g, rest, indep + u, undecided);
      MinimiseSameModels(f, g, rest, indep, undecided);
    }
  }

  lemma {:induction false} CheckedSameModels(f: Formula, g: Formula, units: seq<seq<nat>>, indep: seq<nat>, undecided: set<seq<nat>>,
                                             has: set<nat>)
    requires SameModels(f, g) && f.n == g.n
    ensures Checked(f, units, indep, undecided, has) == Checked(g, units, indep, undecided, has)
  {
    if units != [] {
      var rest, u := units[..|units| - 1], units[|units| - 1];
      SupportsSameModels(f, g, Elems(Flat(rest)) + Elems(indep), Elems(u));
      CheckedSameModels(f, g, rest, indep + u, undecided, has);
      CheckedSameModels(f, g, rest, indep, undecided, has);
    }
  }
}
