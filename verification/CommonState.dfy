/** The state shared by all rounds (struct Common) and the steps that build the doubled problem. */
module CommonState {
  import opened Seqs
  import opened Logic
  import opened Doubling
  import opened Sat
  import opened Groups

  lemma {:induction false} FlattenPrefix(cs: seq<Clause>, c: nat)
    requires c <= |cs|
    ensures Flatten(cs[..c]) <= Flatten(cs)
    decreases |cs| - c
  {
    if c == |cs| {
      assert cs[..c] == cs;
    } else {
      FlattenPrefix(cs, c + 1);
      assert cs[..c + 1][..c] == cs[..c];
    }
  }

  /** Where the tokens of clause c lie in the flattened list. */
  lemma FlattenAt(cs: seq<Clause>, c: nat)
    requires c < |cs|
    ensures Flatten(cs[..c + 1]) == Flatten(cs[..c]) + Tokens(cs[c]) + [None]
    ensures |Flatten(cs[..c])| + |cs[c]| < |Flatten(cs)|
    ensures forall p :: 0 <= p < |cs[c]| ==> Flatten(cs)[|Flatten(cs[..c])| + p] == Some(cs[c][p])
    ensures Flatten(cs)[|Flatten(cs[..c])| + |cs[c]|] == None
  {
    assert cs[..c + 1][..c] == cs[..c];
    FlattenPrefix(cs, c + 1);
    var upTo := Flatten(cs[..c]) + Tokens(cs[c]) + [None];
    forall i | 0 <= i < |upTo| ensures Flatten(cs)[i] == upTo[i] {}
  }

  /** Reading token i = |Flatten(cs[..c])| + p: the next literal of clause c, or its end. */
  lemma NextToken(cs: seq<Clause>, c: nat, p: nat)
    requires c <= |cs| && (c == |cs| ==> p == 0) && (c < |cs| ==> p <= |cs[c]|)
    requires |Flatten(cs[..c])| + p < |Flatten(cs)|
    ensures c < |cs|
    ensures Flatten(cs)[|Flatten(cs[..c])| + p] == if p < |cs[c]| then Some(cs[c][p]) else None
    ensures |Flatten(cs[..c + 1])| == |Flatten(cs[..c])| + |cs[c]| + 1
  {
    assert c < |cs| by { assert cs[..|cs|] == cs; }
    FlattenAt(cs, c);
  }

  lemma LastToken(cs: seq<Clause>, c: nat, p: nat)
    requires c <= |cs| && (c == |cs| ==> p == 0) && (c < |cs| ==> p <= |cs[c]|)
    requires |Flatten(cs[..c])| + p == |Flatten(cs)|
    ensures c == |cs|
  {
    if c < |cs| { FlattenAt(cs, c); }
  }

  /** After i tokens, `clauses` holds the copies of the first c clauses and `cl` that of p literals of the next. */
  ghost predicate Copying(cs: seq<Clause>, n: nat, i: nat, c: nat, p: nat, cl: Clause, clauses: seq<Clause>) {
    && c <= |cs| && (c == |cs| ==> p == 0) && (c < |cs| ==> p <= |cs[c]|)
    && i == |Flatten(cs[..c])| + p
    && cl == (if c < |cs| then ShiftLits(cs[c][..p], n) else [])
    && clauses == cs + ShiftClauses(cs[..c], n)
  }

  lemma ShiftNext(cs: seq<Clause>, c: nat, n: nat)
    requires c < |cs| && LitsBelow(cs[c], n)
    ensures ShiftClauses(cs[..c + 1], n) == ShiftClauses(cs[..c], n) + [ShiftLits(cs[c], n)]
    ensures LitsBelow(ShiftLits(cs[c], n), 2 * n)
  {}

  lemma NextIndicator(s: seq<nat>, n: nat, k: nat)
    requires k < |s| && Bounded(s, n)
    ensures AllIndicatorClauses(s[..k + 1], n) == AllIndicatorClauses(s[..k], n) + IndicatorClauses(s[k], n, 2 * n + k)
    ensures IndicatorMap(s[..k + 1], n) == IndicatorMap(s[..k], n)[s[k] := Some(2 * n + k)]
  {
    assert s[..k + 1][..k] == s[..k];
  }

  /** How a round or a run ends: it gets through, or it comes to a look-up outside the group table, to a variable without
      an indicator, to a scratch array that is still marked, or to a sampling variable listed twice. Outside group mode
      the model does not follow a round beyond a variable with a group number (`Mixed`). */
  datatype Status = Finished | BadTable | GroupSplit | SeenDirty | Repeated | Mixed

  /** The variables with an indicator. */
  ghost function Having(ind: seq<Option<nat>>): set<nat> { set v | 0 <= v < |ind| && ind[v].Some? }

  /** How many conflicts a query may take: in the forward and backward rounds, in the guess rounds, and in the backbone. */
  datatype Limits = Limits(backward: nat, guess: nat, backbone: nat)

  class Common {
    const solver: SatSolver
    const limits: Limits
    var groupIndep: bool
    var samplingSet: seq<nat>
    var otherSamplingSet: seq<nat>
    var emptyOccs: seq<nat>
    var var2varGroup: seq<nat>
    var varGroups: seq<seq<nat>>
    var seen: seq<bool>
    var origNumVars: nat
    var varToIndic: seq<Option<nat>>
    var indicToVar: seq<Option<nat>>

    /** The problem before it was duplicated. */
    ghost var original: Formula

    /** The limits the program starts with. */
    constructor (s: SatSolver)
      ensures solver == s && limits == Limits(500, 1000, 10000)
      ensures groupIndep && samplingSet == [] && emptyOccs == [] && seen == []
    {
      solver, limits := s, Limits(500, 1000, 10000);
      groupIndep, samplingSet, otherSamplingSet, emptyOccs := true, [], [], [];
      var2varGroup, varGroups, seen, origNumVars, varToIndic, indicToVar := [], [], [], 0, [], [];
    }

    /** Other limits, as the options set them. */
    constructor WithLimits(s: SatSolver, l: Limits)
      ensures solver == s && limits == l
      ensures groupIndep && samplingSet == [] && emptyOccs == [] && seen == []
    {
      solver, limits := s, l;
      groupIndep, samplingSet, otherSamplingSet, emptyOccs := true, [], [], [];
      var2varGroup, varGroups, seen, origNumVars, varToIndic, indicToVar := [], [], [], 0, [], [];
    }

    /** The groups the rounds work with: none outside group mode. */
    function GroupsFor(n: nat): Grouping
      reads this`groupIndep, this`var2varGroup, this`varGroups
    {
      if groupIndep then Grouping(Padded(var2varGroup, n), varGroups) else Grouping(Padded([], n), [])
    }

    function Grouped(): Grouping
      reads this`groupIndep, this`var2varGroup, this`varGroups, this`origNumVars
    {
      GroupsFor(origNumVars)
    }

    ghost predicate Clean()
      reads this`seen
    {
      Unmarked(seen)
    }

    /** The group tables describe the variables. */
    ghost predicate GroupsOk()
      reads this`groupIndep, this`var2varGroup, this`varGroups, this`origNumVars
    {
      Grouped().Consistent(origNumVars)
    }

    /** In group mode the group number of every one of vs can be read. */
    ghost predicate InTable(vs: set<nat>)
      reads this`groupIndep, this`var2varGroup
    {
      groupIndep ==> forall v :: v in vs ==> v < |var2varGroup|
    }

    /** The solver holds the doubled problem. */
    ghost predicate Paired()
      reads this`original, this`origNumVars, this`varToIndic, solver`nVars, solver`clauses, solver`bnns
    {
      original.n == origNumVars && Doubles(original, solver.Theory(), varToIndic)
    }

    /** Every variable a round may have to assume equal has an indicator. */
    ghost predicate Indicated(vs: set<nat>)
      reads this`varToIndic
    {
      forall v :: v in vs ==> v < |varToIndic| && varToIndic[v].Some?
    }

    /** The group number of every one of vs can be read whatever the mode, and outside group mode it is 0. */
    ghost predicate Readable(vs: set<nat>)
      reads this`groupIndep, this`var2varGroup
    {
      forall v :: v in vs ==> v < |var2varGroup| && (groupIndep || var2varGroup[v] == 0)
    }

    /** Every variable a round may come to has an indicator and can be looked up. */
    ghost predicate Served(vs: set<nat>)
      reads this`varToIndic, this`groupIndep, this`var2varGroup
    {
      Indicated(vs) && InTable(vs)
    }

    /** What the lookup in the group tables says about the unit of v. */
    lemma Lookup(v: nat)
      requires GroupsOk() && v < origNumVars && InTable({v})
      ensures groupIndep ==> v < |var2varGroup|
      ensures if groupIndep && var2varGroup[v] != 0
              then var2varGroup[v] < |varGroups| && Grouped().Unit(v) == varGroups[var2varGroup[v]]
              else Grouped().Unit(v) == [v]
      ensures InTable(Elems(Grouped().Unit(v)))
      ensures Grouped().var2group[v] == if groupIndep then var2varGroup[v] else 0
    {
      var g := Grouped();
      assert v in {v};
      g.UnitFacts(origNumVars, v);
      if groupIndep && var2varGroup[v] != 0 {
        forall w | w in g.Unit(v) ensures w < |var2varGroup| { assert w in g.groups[g.var2group[v]]; }
      }
    }

    /** The same where the mode is not asked for. */
    lemma LookupAnyway(v: nat)
      requires GroupsOk() && v < origNumVars && Readable({v})
      ensures v < |var2varGroup| && Grouped().var2group[v] == var2varGroup[v]
      ensures if var2varGroup[v] != 0
              then var2varGroup[v] < |varGroups| && Grouped().Unit(v) == varGroups[var2varGroup[v]]
              else Grouped().Unit(v) == [v]
    {
      assert v in {v};
      Lookup(v);
    }

    predicate InVariableGroup(v: nat)
      requires v < |var2varGroup|
      reads this`var2varGroup
    {
      var2varGroup[v] != 0
    }

    function GetGroupIdx(v: nat): nat
      requires v < |var2varGroup|
      reads this`var2varGroup
    {
      var2varGroup[v]
    }

    method UpdateSamplingSet(unknown: seq<nat>, unknownSet: seq<bool>, indep: seq<nat>)
      requires Bounded(unknown, |unknownSet|)
      modifies `samplingSet, `otherSamplingSet
      ensures samplingSet == Filter(unknown, unknownSet) + indep
      ensures otherSamplingSet == old(samplingSet)
    {
      otherSamplingSet := [];
      for i := 0 to |unknown|
        invariant otherSamplingSet == Filter(unknown[..i], unknownSet)
        invariant samplingSet == old(samplingSet)
      {
        FilterStep(unknown, unknownSet, i);
        if unknownSet[unknown[i]] { otherSamplingSet := otherSamplingSet + [unknown[i]]; }
      }
      assert unknown[..|unknown|] == unknown;
      for i := 0 to |indep|
        invariant otherSamplingSet == Filter(unknown, unknownSet) + indep[..i]
        invariant samplingSet == old(samplingSet)
      {
        otherSamplingSet := otherSamplingSet + [indep[i]];
      }
      samplingSet, otherSamplingSet := otherSamplingSet, samplingSet;
    }

    /** Without a given sampling set every variable not fixed at level zero is sampled. */
    method StartWithCleanSamplingSet() returns (ghost zero: seq<Lit>)
      requires solver.Valid()
      modifies `samplingSet, `seen, solver`history
      ensures solver.history == old(solver.history) + [FixedLits(zero)]
      ensures |seen| == solver.nVars && Clean()
      ensures Ascending(samplingSet) && Bounded(samplingSet, solver.nVars)
      ensures forall v :: v in samplingSet <==> 0 <= v < solver.nVars && !exists k :: 0 <= k < |zero| && zero[k].v == v
      ensures forall k :: 0 <= k < |zero| ==> Entails(solver.Theory(), zero[k])
      ensures forall i :: 0 <= i < |solver.clauses| && |solver.clauses[i]| == 1 ==> solver.clauses[i][0] in zero
      ensures forall v :: 0 <= v < solver.nVars ==> Determines(solver.Theory(), Elems(samplingSet), v)
    {
      seen := seq(solver.nVars, _ => false);
      samplingSet := [];
      var fixed := solver.GetZeroAssignedLits();
      zero := fixed;
      for i := 0 to |fixed|
        invariant solver.history == old(solver.history) + [FixedLits(zero)]
        invariant samplingSet == [] && |seen| == solver.nVars
        invariant forall v :: 0 <= v < |seen| ==> (seen[v] <==> exists k :: 0 <= k < i && fixed[k].v == v)
      {
        seen := seen[fixed[i].v := true];
      }
      ghost var wasFixed := seen;
      for i := 0 to solver.nVars
        invariant solver.history == old(solver.history) + [FixedLits(zero)]
        invariant seen == wasFixed && Ascending(samplingSet) && Bounded(samplingSet, i)
        invariant forall v :: v in samplingSet <==> 0 <= v < i && !seen[v]
      {
        if !seen[i] { samplingSet := samplingSet + [i]; }
      }
      ghost var sampled := samplingSet;
      for i := 0 to |fixed|
        invariant solver.history == old(solver.history) + [FixedLits(zero)]
        invariant samplingSet == sampled && |seen| == solver.nVars
        invariant forall v :: 0 <= v < |seen| && seen[v] ==> exists k :: i <= k < |fixed| && fixed[k].v == v
      {
        seen := seen[fixed[i].v := false];
      }
      forall v | 0 <= v < solver.nVars ensures Determines(solver.Theory(), Elems(samplingSet), v) {
        if wasFixed[v] {
          var k :| 0 <= k < |fixed| && fixed[k].v == v;
          assert Entails(solver.Theory(), fixed[k]);
        } else {
          assert v in Elems(samplingSet);
        }
      }
    }

    /** Cuts the flattened clause list back into clauses and adds a renamed copy of each. */
    method DuplicateClauses(cnf: seq<Option<Lit>>, ghost cs: seq<Clause>)
      requires solver.Valid() && solver.nVars == 2 * origNumVars && cnf == Flatten(cs) && solver.clauses == cs
      requires forall i :: 0 <= i < |cs| ==> LitsBelow(cs[i], origNumVars)
      modifies solver`nVars, solver`clauses, solver`bnns, solver`okay
      ensures solver.Valid() && solver.nVars == old(solver.nVars) && solver.bnns == old(solver.bnns)
      ensures solver.clauses == cs + ShiftClauses(cs, origNumVars)
    {
      var n := origNumVars;
      var cl: Clause := [];
      ghost var c, p := 0, 0;
      for i := 0 to |cnf|
        invariant solver.Valid() && solver.nVars == 2 * n && solver.bnns == old(solver.bnns)
        invariant Copying(cs, n, i, c, p, cl, solver.clauses)
      {
        NextToken(cs, c, p);
        cl := CopyToken(cnf[i], cl, i, cs, c, p);
        if cnf[i].Some? { p := p + 1; } else { c, p := c + 1, 0; }
      }
      LastToken(cs, c, p);
      assert cs[..c] == cs;
    }

    /** One token: a renamed literal for the clause being built, or its end. */
    method CopyToken(token: Option<Lit>, cl0: Clause, ghost i: nat, ghost cs: seq<Clause>, ghost c: nat, ghost p: nat)
      returns (cl: Clause)
      requires solver.Valid() && solver.nVars == 2 * origNumVars && Copying(cs, origNumVars, i, c, p, cl0, solver.clauses)
      requires c < |cs| && token == if p < |cs[c]| then Some(cs[c][p]) else None
      requires |Flatten(cs[..c + 1])| == |Flatten(cs[..c])| + |cs[c]| + 1
      requires LitsBelow(cs[c], origNumVars)
      modifies solver`nVars, solver`clauses, solver`bnns, solver`okay
      ensures solver.Valid() && solver.nVars == old(solver.nVars) && solver.bnns == old(solver.bnns)
      ensures token.Some? ==> Copying(cs, origNumVars, i + 1, c, p + 1, cl, solver.clauses)
      ensures token.None? ==> Copying(cs, origNumVars, i + 1, c + 1, 0, cl, solver.clauses)
    {
      match token
      case Some(l) =>
        cl := cl0 + [Lit(l.v + origNumVars, l.sign)];
      case None =>
        assert cs[c][..p] == cs[c];
        ShiftNext(cs, c, origNumVars);
        var _ := solver.AddClause(cl0);
        cl := [];
    }

    /** Adds the shifted copy of one threshold constraint. */
    method CopyBnn(b: Bnn)
      requires solver.Valid() && solver.nVars == 2 * origNumVars && BnnBelow(Some(b), origNumVars)
      modifies solver`bnns
      ensures solver.Valid() && solver.bnns == old(solver.bnns) + [Some(ShiftBnn(b, origNumVars))]
    {
      var lits: seq<Lit> := [];
      for k := 0 to |b.lits|
        invariant lits == ShiftLits(b.lits[..k], origNumVars)
      {
        lits := lits + [Lit(b.lits[k].v + origNumVars, b.lits[k].sign)];
      }
      assert b.lits[..|b.lits|] == b.lits;
      if b.out.None? {
        solver.AddBnnClause(lits, b.cutoff, None);
      } else {
        solver.AddBnnClause(lits, b.cutoff, Some(Lit(b.out.value.v + origNumVars, b.out.value.sign)));
      }
    }

    /** Adds a renamed copy of every threshold constraint that is not NULL. */
    method DuplicateBnns(bnns: seq<Option<Bnn>>)
      requires solver.Valid() && solver.nVars == 2 * origNumVars && solver.bnns == bnns
      requires forall i :: 0 <= i < |bnns| ==> BnnBelow(bnns[i], origNumVars)
      modifies solver`nVars, solver`clauses, solver`bnns, solver`okay
      ensures solver.Valid() && solver.nVars == old(solver.nVars) && solver.clauses == old(solver.clauses)
      ensures solver.bnns == bnns + ShiftBnns(bnns, origNumVars)
    {
      var n := origNumVars;
      for i := 0 to |bnns|
        invariant solver.Valid() && solver.nVars == 2 * n && solver.clauses == old(solver.clauses)
        invariant solver.bnns == bnns + ShiftBnns(bnns[..i], n)
      {
        assert bnns[..i + 1][..i] == bnns[..i];
        match bnns[i]
        case None =>
        case Some(b) => CopyBnn(b);
      }
      assert bnns[..|bnns|] == bnns;
    }

    /** Puts the copy of every constraint over the variables n .. 2n into the solver. */
    method DuplicateProblem()
      requires solver.Valid() && origNumVars == solver.nVars
      modifies solver`nVars, solver`clauses, solver`bnns, solver`okay
      ensures solver.Valid() && solver.Theory() == Duplicated(old(solver.Theory()))
    {
      var cnf := solver.GetAllIrredClauses();
      solver.NewVars(origNumVars);
      DuplicateClauses(cnf, solver.clauses);
      DuplicateBnns(solver.bnns);
    }

    method TieIndicator(v: nat, indicator: nat)
      requires solver.Valid() && v < origNumVars && indicator < solver.nVars && 2 * origNumVars <= solver.nVars
      modifies solver`nVars, solver`clauses, solver`bnns, solver`okay
      ensures solver.Valid() && solver.nVars == old(solver.nVars) && solver.bnns == old(solver.bnns)
      ensures solver.clauses == old(solver.clauses) + IndicatorClauses(v, origNumVars, indicator)
    {
      var b := v + origNumVars;
      var _ := solver.AddClause([Lit(v, false), Lit(b, true), Lit(indicator, false)]);
      var _ := solver.AddClause([Lit(v, true), Lit(b, false), Lit(indicator, false)]);
      var _ := solver.AddClause([Lit(v, false), Lit(b, false), Lit(indicator, true)]);
      var _ := solver.AddClause([Lit(v, true), Lit(b, true), Lit(indicator, true)]);
    }

    /** Gives every sampling variable an indicator and the four clauses that tie it to the two copies. */
    method AddFixedClauses()
      requires solver.Valid() && solver.nVars == 2 * origNumVars && Bounded(samplingSet, origNumVars)
      modifies this`varToIndic, this`indicToVar, solver`nVars, solver`clauses, solver`bnns, solver`okay
      ensures solver.Valid()
      ensures solver.nVars == old(solver.nVars) + |samplingSet| && solver.bnns == old(solver.bnns)
      ensures solver.clauses == old(solver.clauses) + AllIndicatorClauses(samplingSet, origNumVars)
      ensures varToIndic == IndicatorMap(samplingSet, origNumVars)
      ensures |indicToVar| == solver.nVars
      ensures forall i :: 0 <= i < |indicToVar| ==>
                indicToVar[i] == if i < 2 * origNumVars then None else Some(samplingSet[i - 2 * origNumVars])
    {
      hide IndicatorClauses;
      var n := origNumVars;
      varToIndic := seq(n, _ => None);
      indicToVar := seq(solver.nVars, _ => None);
      ghost var first := solver.clauses;
      assert samplingSet[..0] == [];
      for k := 0 to |samplingSet|
        invariant solver.Valid() && solver.nVars == 2 * n + k && solver.bnns == old(solver.bnns)
        invariant solver.clauses == first + AllIndicatorClauses(samplingSet[..k], n)
        invariant varToIndic == IndicatorMap(samplingSet[..k], n)
        invariant |indicToVar| == solver.nVars
        invariant forall i :: 0 <= i < |indicToVar| ==>
                    indicToVar[i] == if i < 2 * n then None else Some(samplingSet[i - 2 * n])
      {
        NextIndicator(samplingSet, n, k);
        AddIndicator(samplingSet[k]);
      }
      assert samplingSet[..|samplingSet|] == samplingSet;
    }

    /** A new indicator variable for v, its table entries, and its clauses. */
    method AddIndicator(v: nat)
      requires solver.Valid() && v < origNumVars == |varToIndic| && 2 * origNumVars <= solver.nVars == |indicToVar|
      modifies this`varToIndic, this`indicToVar, solver`nVars, solver`clauses, solver`bnns, solver`okay
      ensures solver.Valid() && solver.nVars == old(solver.nVars) + 1 && solver.bnns == old(solver.bnns)
      ensures solver.clauses == old(solver.clauses) + IndicatorClauses(v, origNumVars, old(solver.nVars))
      ensures varToIndic == old(varToIndic)[v := Some(old(solver.nVars))]
      ensures indicToVar == old(indicToVar) + [Some(v)]
    {
      solver.NewVar();
      var indicator := solver.nVars - 1;
      varToIndic := varToIndic[v := Some(indicator)];
      indicToVar := indicToVar + [Some(v)];
      TieIndicator(v, indicator);
    }

    /** One query of a round: v true and its copy false, on top of the assumptions that the copies agree on
        `assumed`. A definite answer settles whether `assumed` determines v. */
    method Ask(assumptions0: seq<Lit>, v: nat, ghost assumed: seq<nat>) returns (ret: LBool, assumptions: seq<Lit>)
      requires Paired() && v < origNumVars
      requires HasIndicators(varToIndic, assumed) && assumptions0 == Equal(varToIndic, assumed)
      modifies solver`model, solver`sumConflicts, solver`calls, solver`undefs, solver`budget
      ensures assumptions == assumptions0 + Differs(v, origNumVars)
      ensures Paired()
      ensures ret == False ==> Determines(original, Elems(assumed), v)
      ensures ret == True ==> !Determines(original, Elems(assumed), v)
      ensures solver.calls == old(solver.calls) + 1
      ensures solver.undefs == old(solver.undefs) + if ret == Undef then 1 else 0
      ensures Charged(limits.backward, old(solver.undefs), old(solver.sumConflicts), solver.undefs, solver.sumConflicts)
    {
      assumptions := assumptions0 + [Lit(v, false)];
      assumptions := assumptions + [Lit(v + origNumVars, true)];
      assert assumptions == assumptions0 + Differs(v, origNumVars);
      solver.SetMaxConfl(limits.backward);
      ghost var d := solver.Theory();
      ret := solver.Solve(assumptions);
      ChargedOne(limits.backward, ret, old(solver.undefs), old(solver.sumConflicts), solver.undefs, solver.sumConflicts);
      assert solver.Theory() == d;
      PadoaExact(original, d, varToIndic, assumed, v);
    }
  }

  // ---- the scratch array `seen`, indexed by indicators ----

  ghost predicate Unmarked(seen: seq<bool>) {
    forall i :: 0 <= i < |seen| ==> !seen[i]
  }

  /** `inv` inverts `ind`, and every indicator has a place in a scratch array of the given size. */
  ghost predicate Inverts(inv: seq<Option<nat>>, ind: seq<Option<nat>>, size: nat) {
    forall v {:trigger ind[v]} :: 0 <= v < |ind| && ind[v].Some? ==>
      ind[v].value < size && ind[v].value < |inv| && inv[ind[v].value] == Some(v)
  }

  /** Exactly the indicators of vs are marked. */
  ghost predicate Marks(seen: seq<bool>, ind: seq<Option<nat>>, inv: seq<Option<nat>>, vs: set<nat>) {
    && (forall v {:trigger v in vs} :: v in vs ==> v < |ind| && ind[v].Some?)
    && (forall i {:trigger seen[i]} :: 0 <= i < |seen| ==>
          (seen[i] <==> i < |inv| && inv[i].Some? && inv[i].value in vs && inv[i].value < |ind| && ind[inv[i].value] == Some(i)))
  }

  lemma MarkOne(seen: seq<bool>, ind: seq<Option<nat>>, inv: seq<Option<nat>>, vs: set<nat>, v: nat)
    requires Inverts(inv, ind, |seen|) && Marks(seen, ind, inv, vs) && v < |ind| && ind[v].Some?
    ensures seen[ind[v].value] <==> v in vs
    ensures Marks(seen[ind[v].value := true], ind, inv, vs + {v})
    ensures Marks(seen[ind[v].value := false], ind, inv, vs - {v})
  {}

  lemma NothingMarked(seen: seq<bool>, ind: seq<Option<nat>>, inv: seq<Option<nat>>, vs: set<nat>)
    requires Inverts(inv, ind, |seen|) && Marks(seen, ind, inv, vs)
    ensures Unmarked(seen) <==> vs == {}
  {
    if vs != {} {
      var v :| v in vs;
      assert seen[ind[v].value];
    }
  }

  /** Every recorded indicator is the indicator of its variable. */
  ghost predicate Records(inv: seq<Option<nat>>, ind: seq<Option<nat>>) {
    forall i {:trigger inv[i]} :: 0 <= i < |inv| && inv[i].Some? ==> inv[i].value < |ind| && ind[inv[i].value] == Some(i)
  }

  /** Assumes v equal and marks its indicator. */
  method AssumeOne(c: Common, v: nat, assumptions0: seq<Lit>, ghost assumed0: seq<nat>)
    returns (assumptions: seq<Lit>, ghost assumed: seq<nat>)
    requires v < |c.varToIndic| && c.varToIndic[v].Some? && Inverts(c.indicToVar, c.varToIndic, |c.seen|)
    requires Marks(c.seen, c.varToIndic, c.indicToVar, Elems(assumed0))
    requires HasIndicators(c.varToIndic, assumed0) && assumptions0 == Equal(c.varToIndic, assumed0)
    modifies c`seen
    ensures |c.seen| == old(|c.seen|) && assumed == assumed0 + [v]
    ensures Marks(c.seen, c.varToIndic, c.indicToVar, Elems(assumed))
    ensures HasIndicators(c.varToIndic, assumed) && assumptions == Equal(c.varToIndic, assumed)
  {
    var indicator := c.varToIndic[v].value;
    MarkOne(c.seen, c.varToIndic, c.indicToVar, Elems(assumed0), v);
    assumed := assumed0 + [v];
    assert Elems(assumed) == Elems(assumed0) + {v};
    c.seen := c.seen[indicator := true];
    assumptions := assumptions0 + [Lit(indicator, true)];
  }

  /** Members of a group that can be looked up can be looked up themselves. */
  lemma ClosureInTable(c: Common, vs: set<nat>)
    requires c.GroupsOk() && (forall v :: v in vs ==> v < c.origNumVars) && c.InTable(vs)
    ensures c.InTable(c.Grouped().Closure(vs))
  {
    forall w | c.groupIndep && w in c.Grouped().Closure(vs) ensures w < |c.var2varGroup| {
      var v := c.Grouped().InClosure(c.origNumVars, vs, w);
      c.Lookup(v);
      assert w in c.Grouped().Unit(v);
      assert w in Elems(c.Grouped().Unit(v));
    }
  }

  /** The entry assertion of a round: nothing is marked. */
  method SeenClean(c: Common) returns (ok: bool)
    ensures ok <==> Unmarked(c.seen)
  {
    for i := 0 to |c.seen|
      invariant forall k :: 0 <= k < i ==> !c.seen[k]
    {
      if c.seen[i] { return false; }
    }
    return true;
  }

  /** Outside group mode every variable stands for itself. */
  lemma NoGroups(c: Common, vs: set<nat>)
    requires !c.groupIndep
    ensures c.Grouped().Closure(vs) == vs && c.Grouped().Closed(vs)
  {
    forall v, w | w in c.Grouped().Unit(v) ensures w == v {}
    forall v | v in vs ensures v in c.Grouped().Closure(vs) { assert v in c.Grouped().Unit(v); }
  }

  lemma IndicatorsOf(ind: seq<Option<nat>>, s: seq<nat>)
    ensures HasIndicators(ind, s) <==> Elems(s) <= Having(ind)
  {
    assert forall i :: 0 <= i < |s| ==> s[i] in Elems(s);
  }
}
