/** The contract of the SAT solver the program calls. The program only relies on these contracts;
    the bodies are a brute-force solver with a budget, which shows the contracts can be met. */
module Sat {
  import opened Logic

  datatype LBool = True | False | Undef

  /** What the program asks of the solver besides satisfiability, and what it was told. */
  datatype Event =
    | Simplified
    | Probed(l: Lit)
    | FixedLits(zero: seq<Lit>)
    | EqualLits(pairs: seq<(Lit, Lit)>)
    | Implied(assumptions: seq<Lit>, lits: seq<Lit>)

  /** A query without an answer has used up its limit. */
  function Cost(ret: LBool, limit: nat): nat { if ret == Undef then limit else 0 }

  /** Between two states of a solver every query without an answer took `limit` conflicts. */
  ghost predicate Charged(limit: nat, undefs0: nat, conflicts0: nat, undefs: nat, conflicts: nat) {
    undefs0 <= undefs && conflicts0 <= conflicts && (undefs - undefs0) * limit <= conflicts - conflicts0
  }

  lemma ChargedNothing(limit: nat, undefs: nat, conflicts: nat)
    ensures Charged(limit, undefs, conflicts, undefs, conflicts)
  {}

  lemma ChargedOne(limit: nat, ret: LBool, undefs0: nat, conflicts0: nat, undefs: nat, conflicts: nat)
    requires undefs == undefs0 + (if ret == Undef then 1 else 0) && conflicts >= conflicts0 + Cost(ret, limit)
    ensures Charged(limit, undefs0, conflicts0, undefs, conflicts)
  {}

  lemma ChargedMore(limit: nat, undefs0: nat, conflicts0: nat, undefs1: nat, conflicts1: nat, undefs: nat, conflicts: nat)
    requires Charged(limit, undefs0, conflicts0, undefs1, conflicts1) && Charged(limit, undefs1, conflicts1, undefs, conflicts)
    ensures Charged(limit, undefs0, conflicts0, undefs, conflicts)
  {
    assert (undefs - undefs0) * limit == (undefs1 - undefs0) * limit + (undefs - undefs1) * limit;
  }

  lemma ChargedLater(limit: nat, undefs0: nat, conflicts0: nat, conflicts1: nat, undefs: nat, conflicts: nat)
    requires Charged(limit, undefs0, conflicts1, undefs, conflicts) && conflicts0 <= conflicts1
    ensures Charged(limit, undefs0, conflicts0, undefs, conflicts)
  {}

  lemma ChargedFor(count: nat, limit: nat, undefs0: nat, conflicts0: nat, undefs: nat, conflicts: nat)
    requires Charged(limit, undefs0, conflicts0, undefs, conflicts) && count <= undefs - undefs0
    ensures count * limit <= conflicts - conflicts0
  {
    assert count * limit <= (undefs - undefs0) * limit;
  }

  /** Clauses as one token list, `None` (lit_Undef) ending every clause. */
  function Flatten(cs: seq<Clause>): seq<Option<Lit>> {
    if cs == [] then []
    else Flatten(cs[..|cs| - 1]) + Tokens(cs[|cs| - 1]) + [None]
  }

  function Tokens(c: Clause): seq<Option<Lit>> {
    seq(|c|, i requires 0 <= i < |c| => Some(c[i]))
  }

  /** The clauses of v xor w == rhs. */
  function XorOf(v: nat, w: nat, rhs: bool): seq<Clause> {
    [[Lit(v, false), Lit(w, !rhs)], [Lit(v, true), Lit(w, rhs)]]
  }

  lemma XorMeans(v: nat, w: nat, rhs: bool, a: Assignment)
    requires v < |a| && w < |a|
    ensures Constraints(XorOf(v, w, rhs), [], a) <==> (a[v] != a[w]) == rhs
  {
    var c, d := XorOf(v, w, rhs)[0], XorOf(v, w, rhs)[1];
    assert ClauseTrue(c, a) <==> LitTrue(c[0], a) || LitTrue(c[1], a);
    assert ClauseTrue(d, a) <==> LitTrue(d[0], a) || LitTrue(d[1], a);
  }

  /** The two literals are equal in every model. */
  ghost predicate EntailsEqual(f: Formula, l: Lit, k: Lit) {
    forall a :: Satisfies(f, a) ==> LitTrue(l, a) == LitTrue(k, a)
  }

  class SatSolver {
    var nVars: nat
    var clauses: seq<Clause>
    var bnns: seq<Option<Bnn>>
    var okay: bool
    var model: Assignment
    var budget: nat
    var sumConflicts: nat
    ghost var calls: nat
    ghost var undefs: nat
    ghost var history: seq<Event>

    constructor ()
      ensures Valid() && okay && Theory() == Formula(0, [], []) && calls == 0 && undefs == 0 && sumConflicts == 0 && history == []
    {
      nVars, clauses, bnns, okay, model, budget, sumConflicts := 0, [], [], true, [], 0, 0;
      calls, undefs, history := 0, 0, [];
    }

    function Theory(): Formula
      reads this`nVars, this`clauses, this`bnns
    {
      Formula(nVars, clauses, bnns)
    }

    ghost predicate Valid()
      reads this`nVars, this`clauses, this`bnns, this`okay
    {
      && WellFormed(Theory())
      && (!okay ==> forall a :: !Satisfies(Theory(), a))
    }

    method NewVars(k: nat)
      requires Valid()
      modifies `nVars
      ensures Valid() && nVars == old(nVars) + k
    {
      ghost var before := Theory();
      nVars := nVars + k;
      forall a ensures Satisfies(Theory(), a) ==> |a| == nVars && Satisfies(before, a[..before.n]) {
        if |a| == nVars { ConstraintsPrefix(before, a); }
      }
    }

    method NewVar()
      requires Valid()
      modifies `nVars
      ensures Valid() && nVars == old(nVars) + 1
    {
      NewVars(1);
    }

    method AddClause(c: Clause) returns (ok: bool)
      requires Valid() && LitsBelow(c, nVars)
      modifies `clauses, `okay
      ensures Valid() && clauses == old(clauses) + [c]
      ensures ok == okay && (okay ==> old(okay))
      ensures (exists a :: Satisfies(Theory(), a)) ==> okay
    {
      AddingConstrains(Theory(), c);
      clauses := clauses + [c];
      if c == [] {
        okay := false;
        forall a ensures !Satisfies(Theory(), a) {
          assert clauses[|clauses| - 1] == c && !ClauseTrue(c, a);
        }
      }
      ok := okay;
    }

    /** v xor w == rhs. */
    method AddXorClause(v: nat, w: nat, rhs: bool)
      requires Valid() && v < nVars && w < nVars
      modifies `clauses, `okay
      ensures Valid() && clauses == old(clauses) + XorOf(v, w, rhs)
    {
      var _ := AddClause([Lit(v, false), Lit(w, !rhs)]);
      var _ := AddClause([Lit(v, true), Lit(w, rhs)]);
    }

    method AddBnnClause(lits: seq<Lit>, cutoff: int, out: Option<Lit>)
      requires Valid() && BnnBelow(Some(Bnn(lits, cutoff, out)), nVars)
      modifies `bnns
      ensures Valid() && bnns == old(bnns) + [Some(Bnn(lits, cutoff, out))]
    {
      ghost var before := Theory();
      bnns := bnns + [Some(Bnn(lits, cutoff, out))];
      forall a | Satisfies(Theory(), a) ensures Satisfies(before, a) {
        assert forall i :: 0 <= i < |before.bnns| ==> bnns[i] == before.bnns[i];
      }
    }

    method GetAllIrredClauses() returns (flat: seq<Option<Lit>>)
      ensures flat == Flatten(clauses)
    {
      flat := Flatten(clauses);
    }

    method SetMaxConfl(confl: nat)
      modifies `budget
      ensures budget == confl
    {
      budget := confl;
    }

    /** True with a model, False when there is none, Undef when the budget ran out. */
    method Solve(assumptions: seq<Lit>) returns (ret: LBool)
      modifies `model, `sumConflicts, `calls, `undefs
      ensures calls == old(calls) + 1 && sumConflicts >= old(sumConflicts) + Cost(ret, budget)
      ensures undefs == old(undefs) + if ret == Undef then 1 else 0
      ensures ret == True ==> Satisfies(Theory(), model) && AllTrue(assumptions, model)
      ensures ret == False ==> forall a :: Satisfies(Theory(), a) ==> !AllTrue(assumptions, a)
    {
      calls := calls + 1;
      var left;
      ret, model, left := Search(assumptions, [], budget);
      sumConflicts := sumConflicts + (budget - left);
      if ret == Undef { undefs := undefs + 1; }
      if ret == False {
        forall a | Satisfies(Theory(), a) ensures !AllTrue(assumptions, a) { assert [] <= a; }
      }
    }

    /** Without assumptions a False answer settles the whole problem. */
    method SolveAll() returns (ret: LBool)
      requires Valid()
      modifies `model, `sumConflicts, `calls, `undefs, `okay
      ensures Valid() && calls == old(calls) + 1 && sumConflicts >= old(sumConflicts) + Cost(ret, budget)
      ensures undefs == old(undefs) + if ret == Undef then 1 else 0
      ensures ret == True ==> Satisfies(Theory(), model)
      ensures okay == (old(okay) && ret != False)
    {
      ghost var f := Theory();
      ret := Solve([]);
      if ret == False {
        forall a ensures !Satisfies(f, a) { if Satisfies(f, a) { assert AllTrue([], a); } }
        okay := false;
      }
    }

    /** Inprocessing without variable elimination: the constraints change, their models do not. */
    method Simplify() returns (ret: LBool)
      requires Valid()
      modifies `clauses, `bnns, `okay, `model, `sumConflicts, `history
      ensures Valid() && SameModels(old(Theory()), Theory())
      ensures (okay ==> old(okay)) && (ret == False ==> !okay)
      ensures sumConflicts >= old(sumConflicts) && history == old(history) + [Simplified]
    {
      history := history + [Simplified];
      ret := if okay then Undef else False;
    }

    /** Tries one literal by propagation; what that fixes holds in all models. */
    method Probe(l: Lit) returns (ret: LBool)
      requires Valid()
      modifies `clauses, `bnns, `okay, `model, `sumConflicts, `history
      ensures Valid() && SameModels(old(Theory()), Theory())
      ensures (okay ==> old(okay)) && (ret == False ==> !okay)
      ensures sumConflicts >= old(sumConflicts) && history == old(history) + [Probed(l)]
    {
      history := history + [Probed(l)];
      ret := if okay then Undef else False;
    }

    method Search(assumptions: seq<Lit>, prefix: Assignment, fuel: nat)
      returns (ret: LBool, m: Assignment, left: nat)
      requires |prefix| <= nVars
      ensures left <= fuel && (ret == Undef ==> left == 0)
      ensures ret == True ==> Satisfies(Theory(), m) && AllTrue(assumptions, m)
      ensures ret == False ==> forall a :: prefix <= a && Satisfies(Theory(), a) ==> !AllTrue(assumptions, a)
      decreases nVars - |prefix|
    {
      m, left := prefix, fuel;
      if fuel == 0 {
        ret := Undef;
      } else if |prefix| == nVars {
        left := fuel - 1;
        ret := if Satisfies(Theory(), prefix) && AllTrue(assumptions, prefix) then True else False;
        assert forall a :: prefix <= a && |a| == nVars ==> a == prefix;
      } else {
        ret, m, left := Search(assumptions, prefix + [false], fuel - 1);
        if ret == False {
          ret, m, left := Search(assumptions, prefix + [true], left);
          if ret == False {
            forall a | prefix <= a && Satisfies(Theory(), a) ensures !AllTrue(assumptions, a) {
              var bit := a[|prefix|];
              assert bit == true || bit == false;
              assert prefix + [bit] <= a;
            }
          }
        }
      }
    }

    method GetModel() returns (m: Assignment)
      ensures m == model
    {
      m := model;
    }

    /** Literals that follow from the constraints and the assumptions; ok is false on a conflict. */
    method ImpliedBy(assumptions: seq<Lit>) returns (ok: bool, out: seq<Lit>)
      modifies `history
      ensures history == old(history) + [Implied(assumptions, if ok then out else [])]
      ensures ok ==> forall i, a :: 0 <= i < |out| && Satisfies(Theory(), a) && AllTrue(assumptions, a) ==> LitTrue(out[i], a)
    {
      ok, out := true, [];
      for v := 0 to nVars
        invariant history == old(history)
        invariant forall i, a :: 0 <= i < |out| && Satisfies(Theory(), a) && AllTrue(assumptions, a) ==> LitTrue(out[i], a)
      {
        var r, m, left := Search(assumptions + [Lit(v, false)], [], budget);
        if r == False {
          forall a | Satisfies(Theory(), a) && AllTrue(assumptions, a) ensures LitTrue(Lit(v, true), a) {
            assert [] <= a;
            AllTrueAppend(assumptions, [Lit(v, false)], a);
            assert AllTrue([Lit(v, false)], a) <==> LitTrue(Lit(v, false), a);
          }
          out := out + [Lit(v, true)];
        }
      }
      history := history + [Implied(assumptions, out)];
    }

    /** Literals fixed at decision level zero: entailed, and all unit clauses are among them. */
    method GetZeroAssignedLits() returns (out: seq<Lit>)
      requires Valid()
      modifies `history
      ensures history == old(history) + [FixedLits(out)]
      ensures forall i :: 0 <= i < |out| ==> out[i].v < nVars && Entails(Theory(), out[i])
      ensures forall i :: 0 <= i < |clauses| && |clauses[i]| == 1 ==> clauses[i][0] in out
    {
      out := [];
      for k := 0 to |clauses|
        invariant forall i :: 0 <= i < |out| ==> out[i].v < nVars && Entails(Theory(), out[i])
        invariant forall i :: 0 <= i < k && |clauses[i]| == 1 ==> clauses[i][0] in out
      {
        if |clauses[k]| == 1 {
          forall a | Satisfies(Theory(), a) ensures LitTrue(clauses[k][0], a) { assert ClauseTrue(clauses[k], a); }
          assert LitsBelow(clauses[k], nVars);
          out := out + [clauses[k][0]];
        }
      }
      history := history + [FixedLits(out)];
    }

    /** Pairs of literals on different variables that are equal in every model. */
    method GetAllBinaryXors() returns (out: seq<(Lit, Lit)>)
      requires Valid()
      modifies `history
      ensures history == old(history) + [EqualLits(out)]
      ensures forall i :: 0 <= i < |out| ==>
                out[i].0.v < nVars && out[i].1.v < nVars && out[i].0.v != out[i].1.v
                && EntailsEqual(Theory(), out[i].0, out[i].1)
    {
      out := [];
      for i := 0 to |clauses|
        invariant forall p :: 0 <= p < |out| ==> IsBinaryXor(out[p])
      {
        for j := 0 to |clauses|
          invariant forall p :: 0 <= p < |out| ==> IsBinaryXor(out[p])
        {
          var c, d := clauses[i], clauses[j];
          if |c| == 2 && |d| == 2 && c[0].v != c[1].v
             && d == [Lit(c[0].v, !c[0].sign), Lit(c[1].v, !c[1].sign)]
          {
            var pair := (c[0], Lit(c[1].v, !c[1].sign));
            assert LitsBelow(c, nVars);
            forall a | Satisfies(Theory(), a) ensures LitTrue(pair.0, a) == LitTrue(pair.1, a) {
              assert ClauseTrue(c, a) && ClauseTrue(d, a);
            }
            out := out + [pair];
          }
        }
      }
      history := history + [EqualLits(out)];
    }

    ghost predicate IsBinaryXor(p: (Lit, Lit))
      reads this
    {
      p.0.v < nVars && p.1.v < nVars && p.0.v != p.1.v && EntailsEqual(Theory(), p.0, p.1)
    }
  }

  /** Adding a clause only removes models. */
  lemma AddingConstrains(f: Formula, c: Clause)
    ensures forall a :: Satisfies(f.(clauses := f.clauses + [c]), a) <==> Satisfies(f, a) && ClauseTrue(c, a)
  {
    var g := f.(clauses := f.clauses + [c]);
    forall a ensures Satisfies(g, a) <==> Satisfies(f, a) && ClauseTrue(c, a) {
      assert g.clauses[|f.clauses|] == c;
      assert forall i :: 0 <= i < |f.clauses| ==> g.clauses[i] == f.clauses[i];
    }
  }
}
