/** The forward round: a window of the variables is guessed to be independent, and the others are tested,
    group by group, against the guess and what was found independent so far. */
module Forward {
  import opened Seqs
  import opened Logic
  import opened Doubling
  import opened Sat
  import opened Groups
  import opened CommonState

  /** The variables at positions lo .. hi. */
  ghost function Window(unknown: seq<nat>, lo: nat, hi: nat): set<nat> {
    set i | lo <= i < hi && i < |unknown| :: unknown[i]
  }

  lemma WindowNext(unknown: seq<nat>, lo: nat, i: nat)
    requires lo <= i < |unknown|
    ensures Window(unknown, lo, i + 1) == Window(unknown, lo, i) + {unknown[i]}
  {}

  /** Guesses the unit of v: marks its indicators and sets its guess flags. A member without an indicator would be
      marked outside the scratch array. */
  method GuessUnit(c: Common, v: nat, guessSet0: seq<bool>, ghost vs: set<nat>) returns (status: Status, guessSet: seq<bool>)
    requires c.GroupsOk() && v < c.origNumVars && |guessSet0| == |c.varToIndic| == c.origNumVars
    requires Inverts(c.indicToVar, c.varToIndic, |c.seen|)
    requires Marks(c.seen, c.varToIndic, c.indicToVar, vs)
    modifies c`seen
    ensures |c.seen| == old(|c.seen|)
    ensures status == if !c.InTable({v}) then BadTable
                      else if HasIndicators(c.varToIndic, c.Grouped().Unit(v)) then Finished
                      else GroupSplit
    ensures status == Finished ==>
              && Marks(c.seen, c.varToIndic, c.indicToVar, vs + Elems(c.Grouped().Unit(v)))
              && |guessSet| == |guessSet0|
              && forall w :: 0 <= w < |guessSet| ==> (guessSet[w] <==> guessSet0[w] || w in c.Grouped().Unit(v))
  {
    hide Grouping.Consistent, Grouping.Unit;
    guessSet := guessSet0;
    if c.groupIndep && v >= |c.var2varGroup| {
      assert v in {v};
      return BadTable, guessSet;
    }
    c.Lookup(v);
    c.Grouped().UnitFacts(c.origNumVars, v);
    var ok;
    if c.groupIndep && c.InVariableGroup(v) {
      ok, guessSet := GuessMembers(c, c.varGroups[c.var2varGroup[v]], guessSet0, vs);
    } else {
      ok, guessSet := GuessMembers(c, [v], guessSet0, vs);
    }
    status := if ok then Finished else GroupSplit;
  }

  method GuessMembers(c: Common, members: seq<nat>, guessSet0: seq<bool>, ghost vs: set<nat>) returns (ok: bool, guessSet: seq<bool>)
    requires Inverts(c.indicToVar, c.varToIndic, |c.seen|)
    requires Bounded(members, |guessSet0|) && |guessSet0| == |c.varToIndic|
    requires Marks(c.seen, c.varToIndic, c.indicToVar, vs)
    modifies c`seen
    ensures |c.seen| == old(|c.seen|) && (ok <==> HasIndicators(c.varToIndic, members))
    ensures ok ==>
              && Marks(c.seen, c.varToIndic, c.indicToVar, vs + Elems(members))
              && |guessSet| == |guessSet0|
              && forall w :: 0 <= w < |guessSet| ==> (guessSet[w] <==> guessSet0[w] || w in members)
  {
    guessSet := guessSet0;
    ghost var ws := vs;
    for m := 0 to |members|
      invariant |c.seen| == old(|c.seen|) && |guessSet| == |guessSet0| && HasIndicators(c.varToIndic, members[..m])
      invariant ws == vs + Elems(members[..m]) && Marks(c.seen, c.varToIndic, c.indicToVar, ws)
      invariant forall w :: 0 <= w < |guessSet| ==> (guessSet[w] <==> guessSet0[w] || w in members[..m])
    {
      if c.varToIndic[members[m]].None? { return false, guessSet; }
      MarkOne(c.seen, c.varToIndic, c.indicToVar, ws, members[m]);
      assert members[..m + 1] == members[..m] + [members[m]];
      ElemsAppend(members[..m], [members[m]]);
      ws := ws + {members[m]};
      c.seen := c.seen[c.varToIndic[members[m]].value := true];
      guessSet := guessSet[members[m] := true];
    }
    assert members[..|members|] == members;
    ok := true;
  }

  /** How a round that needs the variables vs may end: it can look all of them up and has an indicator for each, or one
      of them is beyond the table, or without an indicator. */
  ghost predicate MayEnd(status: Status, c: Common, vs: set<nat>)
    reads c`groupIndep, c`var2varGroup, c`varToIndic
  {
    && (status == Finished || status == BadTable || status == GroupSplit)
    && (c.Served(vs) ==> status == Finished)
    && (status == BadTable ==> !c.InTable(vs))
    && (status == GroupSplit ==> !c.Indicated(vs))
  }

  /** Guesses the window with its groups and takes the window itself out of the unknown variables. It gets through exactly
      when the groups of the window can be looked up and all of it has indicators. */
  method SetGuessForwardRound(c: Common, unknown: seq<nat>, unknownSet0: seq<bool>, lo: nat, hi: nat)
    returns (status: Status, unknownSet: seq<bool>, guessSet: seq<bool>)
    requires lo <= hi && c.GroupsOk() && Bounded(unknown, c.origNumVars)
    requires |unknownSet0| == |c.varToIndic| == c.origNumVars && forall v :: v in unknown ==> unknownSet0[v]
    requires Inverts(c.indicToVar, c.varToIndic, |c.seen|) && HasIndicators(c.varToIndic, unknown)
    modifies c`seen
    ensures |c.seen| == old(|c.seen|)
    ensures MayEnd(status, c, c.Grouped().Closure(Window(unknown, lo, hi)))
    ensures status == Finished ==> c.Served(c.Grouped().Closure(Window(unknown, lo, hi)))
    ensures status == Finished ==> c.Clean() && |unknownSet| == |guessSet| == c.origNumVars
    ensures status == Finished ==>
              var w := Window(unknown, lo, hi);
              forall v :: 0 <= v < c.origNumVars ==>
                (guessSet[v] <==> v in c.Grouped().Closure(w)) && (unknownSet[v] <==> unknownSet0[v] && v !in w)
  {
    hide MayEnd, Grouping.Closure, Grouping.Unit, Grouping.Consistent;
    ghost var g, n := c.Grouped(), c.origNumVars;
    c.seen := seq(|c.seen|, _ => false);
    unknownSet, guessSet := unknownSet0, seq(c.origNumVars, _ => false);
    var i := lo;
    NothingGuessed(c, unknown, lo);
    while i < hi && i < |unknown|
      invariant lo <= i <= hi && |c.seen| == old(|c.seen|)
      invariant Guessing(c.seen, c.varToIndic, c.indicToVar, Window(unknown, lo, i), g.Closure(Window(unknown, lo, i)),
                         unknownSet0, unknownSet, guessSet)
      invariant c.Served(g.Closure(Window(unknown, lo, i)))
    {
      status, unknownSet, guessSet := GuessEntry(c, unknown, unknownSet0, lo, i, unknownSet, guessSet);
      if status != Finished {
        WindowFails(c, unknown, lo, i, hi, status);
        return;
      }
      i := i + 1;
    }
    WindowEnd(unknown, lo, i, hi);
    c.seen := seq(|c.seen|, _ => false);
    status := Finished;
    WindowServed(c, g.Closure(Window(unknown, lo, hi)));
  }

  lemma NothingGuessed(c: Common, unknown: seq<nat>, lo: nat)
    ensures Window(unknown, lo, lo) == {} && c.Grouped().Closure({}) == {} && c.Served({})
  {}

  lemma WindowServed(c: Common, vs: set<nat>)
    requires c.Served(vs)
    ensures MayEnd(Finished, c, vs)
  {}

  /** What an entry fails at, the window fails at. */
  lemma WindowFails(c: Common, unknown: seq<nat>, lo: nat, i: nat, hi: nat, status: Status)
    requires c.GroupsOk() && Bounded(unknown, c.origNumVars) && lo <= i < hi && i < |unknown|
    requires (status == BadTable && !c.InTable({unknown[i]}))
             || (status == GroupSplit && !HasIndicators(c.varToIndic, c.Grouped().Unit(unknown[i])))
    ensures MayEnd(status, c, c.Grouped().Closure(Window(unknown, lo, hi)))
    ensures !c.Served(c.Grouped().Closure(Window(unknown, lo, hi)))
  {
    var v, g, w := unknown[i], c.Grouped(), Window(unknown, lo, hi);
    WindowHas(unknown, lo, i, hi);
    g.UnitFacts(c.origNumVars, v);
    assert v in g.Closure(w);
    if status == GroupSplit {
      var k :| 0 <= k < |g.Unit(v)| && !(g.Unit(v)[k] < |c.varToIndic| && c.varToIndic[g.Unit(v)[k]].Some?);
      assert g.Unit(v)[k] in g.Unit(v) && g.Unit(v)[k] in g.Closure(w);
    }
  }

  /** The flags and marks after the window variables `w`, with `closed` the members of their units, were guessed. */
  ghost predicate Guessing(seen: seq<bool>, ind: seq<Option<nat>>, inv: seq<Option<nat>>, w: set<nat>, closed: set<nat>,
                           unknownSet0: seq<bool>, unknownSet: seq<bool>, guessSet: seq<bool>)
  {
    && |unknownSet| == |guessSet| == |unknownSet0|
    && Marks(seen, ind, inv, closed)
    && (forall v :: 0 <= v < |guessSet| ==> (guessSet[v] <==> v in closed))
    && (forall v :: 0 <= v < |unknownSet| ==> (unknownSet[v] <==> unknownSet0[v] && v !in w))
  }

  method GuessEntry(c: Common, unknown: seq<nat>, ghost unknownSet0: seq<bool>, ghost lo: nat, i: nat,
                    unknownSet1: seq<bool>, guessSet1: seq<bool>)
    returns (status: Status, unknownSet: seq<bool>, guessSet: seq<bool>)
    requires c.GroupsOk() && Bounded(unknown, c.origNumVars) && lo <= i < |unknown| && HasIndicators(c.varToIndic, unknown)
    requires |unknownSet0| == |c.varToIndic| == c.origNumVars && forall v :: v in unknown ==> unknownSet0[v]
    requires Inverts(c.indicToVar, c.varToIndic, |c.seen|)
    requires c.Served(c.Grouped().Closure(Window(unknown, lo, i)))
    requires Guessing(c.seen, c.varToIndic, c.indicToVar, Window(unknown, lo, i),
                      c.Grouped().Closure(Window(unknown, lo, i)), unknownSet0, unknownSet1, guessSet1)
    modifies c`seen
    ensures |c.seen| == old(|c.seen|)
    ensures status == Finished
            || (status == BadTable && !c.InTable({unknown[i]}))
            || (status == GroupSplit && !HasIndicators(c.varToIndic, c.Grouped().Unit(unknown[i])))
    ensures status == Finished ==> c.Served(c.Grouped().Closure(Window(unknown, lo, i + 1)))
    ensures status == Finished ==>
              Guessing(c.seen, c.varToIndic, c.indicToVar, Window(unknown, lo, i + 1),
                       c.Grouped().Closure(Window(unknown, lo, i + 1)), unknownSet0, unknownSet, guessSet)
  {
    hide Window, Grouping.Closure;
    var v := unknown[i];
    ghost var g, w := c.Grouped(), Window(unknown, lo, i);
    ghost var closed, closed' := g.Closure(w), g.Closure(w + {v});
    NextInWindow(c, unknown, lo, i);
    MarkOne(c.seen, c.varToIndic, c.indicToVar, closed, v);
    status, unknownSet, guessSet := Finished, unknownSet1, guessSet1;
    if unknownSet[v] {
      unknownSet := unknownSet[v := false];
      if !c.seen[c.varToIndic[v].value] {
        status, guessSet := GuessUnit(c, v, guessSet, closed);
        if status != Finished { return; }
        UnitServed(c, closed, v);
      }
    }
    assert c.Grouped() == g;
    assert Guessing(c.seen, c.varToIndic, c.indicToVar, w + {v}, closed', unknownSet0, unknownSet, guessSet);
  }

  lemma UnitServed(c: Common, vs: set<nat>, v: nat)
    requires c.GroupsOk() && v < c.origNumVars && c.Served(vs) && c.InTable({v}) && HasIndicators(c.varToIndic, c.Grouped().Unit(v))
    ensures c.Served(vs + Elems(c.Grouped().Unit(v)))
  {
    c.Lookup(v);
    IndicatorsOf(c.varToIndic, c.Grouped().Unit(v));
  }

  lemma NextInWindow(c: Common, unknown: seq<nat>, lo: nat, i: nat)
    requires c.GroupsOk() && Bounded(unknown, c.origNumVars) && lo <= i < |unknown|
    ensures var v, w, g := unknown[i], Window(unknown, lo, i), c.Grouped();
            && Window(unknown, lo, i + 1) == w + {v}
            && g.Closure(w + {v}) == g.Closure(w) + Elems(g.Unit(v))
            && (v in w ==> v in g.Closure(w))
            && (v in g.Closure(w) ==> g.Closure(w + {v}) == g.Closure(w))
  {
    WindowNext(unknown, lo, i);
    c.Grouped().ClosureAdd(c.origNumVars, Window(unknown, lo, i), unknown[i]);
    c.Grouped().UnitFacts(c.origNumVars, unknown[i]);
  }

  lemma WindowEnd(unknown: seq<nat>, lo: nat, i: nat, hi: nat)
    requires lo <= i <= hi && (i == hi || i >= |unknown|)
    ensures Window(unknown, lo, i) == Window(unknown, lo, hi)
  {}

  /** The unit of a window variable has indicators. */
  lemma EntryIndicated(c: Common, unknown: seq<nat>, lo: nat, i: nat, hi: nat)
    requires c.GroupsOk() && lo <= i < hi && i < |unknown| && unknown[i] < c.origNumVars
    requires c.Served(c.Grouped().Closure(Window(unknown, lo, hi)))
    ensures var v := unknown[i];
            HasIndicators(c.varToIndic, c.Grouped().Unit(v)) && v < |c.varToIndic| && c.varToIndic[v].Some? && c.InTable({v})
  {
    var v, g, w := unknown[i], c.Grouped(), Window(unknown, lo, hi);
    WindowHas(unknown, lo, i, hi);
    g.UnitFacts(c.origNumVars, v);
    forall x | x in g.Unit(v) ensures x in g.Closure(w) {}
    IndicatorsOf(c.varToIndic, g.Unit(v));
  }

  /** Assumes the unit of v equal and marks its indicators. */
  method AssumeUnit(c: Common, v: nat, assumptions0: seq<Lit>, ghost assumed0: seq<nat>)
    returns (assumptions: seq<Lit>, ghost assumed: seq<nat>)
    requires c.GroupsOk() && v < c.origNumVars && c.InTable({v})
    requires Inverts(c.indicToVar, c.varToIndic, |c.seen|) && HasIndicators(c.varToIndic, c.Grouped().Unit(v))
    requires Marks(c.seen, c.varToIndic, c.indicToVar, Elems(assumed0))
    requires HasIndicators(c.varToIndic, assumed0) && assumptions0 == Equal(c.varToIndic, assumed0)
    modifies c`seen
    ensures |c.seen| == old(|c.seen|)
    ensures assumed == assumed0 + c.Grouped().Unit(v)
    ensures Marks(c.seen, c.varToIndic, c.indicToVar, Elems(assumed))
    ensures HasIndicators(c.varToIndic, assumed) && assumptions == Equal(c.varToIndic, assumed)
  {
    c.Lookup(v);
    c.Grouped().UnitFacts(c.origNumVars, v);
    if c.groupIndep && c.InVariableGroup(v) {
      assumptions, assumed := AssumeMembers(c, c.varGroups[c.var2varGroup[v]], assumptions0, assumed0);
    } else {
      assumptions, assumed := AssumeMembers(c, [v], assumptions0, assumed0);
    }
  }

  method AssumeMembers(c: Common, members: seq<nat>, assumptions0: seq<Lit>, ghost assumed0: seq<nat>)
    returns (assumptions: seq<Lit>, ghost assumed: seq<nat>)
    requires Inverts(c.indicToVar, c.varToIndic, |c.seen|) && HasIndicators(c.varToIndic, members)
    requires Marks(c.seen, c.varToIndic, c.indicToVar, Elems(assumed0))
    requires HasIndicators(c.varToIndic, assumed0) && assumptions0 == Equal(c.varToIndic, assumed0)
    modifies c`seen
    ensures |c.seen| == old(|c.seen|) && assumed == assumed0 + members
    ensures Marks(c.seen, c.varToIndic, c.indicToVar, Elems(assumed))
    ensures HasIndicators(c.varToIndic, assumed) && assumptions == Equal(c.varToIndic, assumed)
  {
    assumptions, assumed := assumptions0, assumed0;
    for m := 0 to |members|
      invariant |c.seen| == old(|c.seen|) && assumed == assumed0 + members[..m]
      invariant Marks(c.seen, c.varToIndic, c.indicToVar, Elems(assumed))
      invariant HasIndicators(c.varToIndic, assumed) && assumptions == Equal(c.varToIndic, assumed)
    {
      assumptions, assumed := AssumeOne(c, members[m], assumptions, assumed);
      assert members[..m + 1] == members[..m] + [members[m]];
    }
    assert members[..|members|] == members;
  }

  /** The assumptions "equal" for the guessed units that meet the window. The scratch array is left clean
      exactly when all of them are listed in `unknown`. */
  method FillAssumptionsForward(c: Common, unknown: seq<nat>, lo: nat, hi: nat, guessSet: seq<bool>)
    returns (assumptions: seq<Lit>, ghost assumed: seq<nat>)
    requires lo <= hi && c.GroupsOk() && c.Clean() && Bounded(unknown, c.origNumVars) && |guessSet| == c.origNumVars
    requires Inverts(c.indicToVar, c.varToIndic, |c.seen|)
    requires c.Served(c.Grouped().Closure(Window(unknown, lo, hi))) && HasIndicators(c.varToIndic, unknown)
    requires forall v :: v in Window(unknown, lo, hi) ==> v < |guessSet| && guessSet[v]
    modifies c`seen
    ensures |c.seen| == old(|c.seen|)
    ensures HasIndicators(c.varToIndic, assumed) && assumptions == Equal(c.varToIndic, assumed)
    ensures Elems(assumed) == c.Grouped().Closure(Window(unknown, lo, hi))
    ensures Marks(c.seen, c.varToIndic, c.indicToVar, c.Grouped().Closure(Window(unknown, lo, hi)) - Elems(unknown))
    ensures c.Clean() <==> c.Grouped().Closure(Window(unknown, lo, hi)) <= Elems(unknown)
  {
    hide *;
    ghost var g := c.Grouped();
    assumptions, assumed := [], [];
    var i := lo;
    NothingAssumed(c, unknown, lo);
    while i < hi && i < |unknown|
      invariant lo <= i <= hi && |c.seen| == old(|c.seen|)
      invariant Elems(assumed) == g.Closure(Window(unknown, lo, i))
      invariant Marks(c.seen, c.varToIndic, c.indicToVar, Elems(assumed))
      invariant HasIndicators(c.varToIndic, assumed) && assumptions == Equal(c.varToIndic, assumed)
    {
      WindowHas(unknown, lo, i, hi);
      if guessSet[unknown[i]] {
        assumptions, assumed := AssumeEntry(c, unknown, lo, i, hi, assumptions, assumed);
      }
      i := i + 1;
    }
    WindowEnd(unknown, lo, i, hi);
    ClearSeen(c, unknown, Elems(assumed));
  }

  lemma NothingAssumed(c: Common, unknown: seq<nat>, lo: nat)
    requires c.Clean()
    ensures Elems([]) == c.Grouped().Closure(Window(unknown, lo, lo)) && Marks(c.seen, c.varToIndic, c.indicToVar, Elems([]))
    ensures HasIndicators(c.varToIndic, []) && Equal(c.varToIndic, []) == []
  {}

  /** Assumes the unit of a window entry unless an earlier entry brought it in. */
  method AssumeEntry(c: Common, unknown: seq<nat>, ghost lo: nat, i: nat, ghost hi: nat,
                     assumptions0: seq<Lit>, ghost assumed0: seq<nat>)
    returns (assumptions: seq<Lit>, ghost assumed: seq<nat>)
    requires c.GroupsOk() && Bounded(unknown, c.origNumVars) && lo <= i < |unknown| && i < hi
    requires Inverts(c.indicToVar, c.varToIndic, |c.seen|)
    requires c.Served(c.Grouped().Closure(Window(unknown, lo, hi)))
    requires Elems(assumed0) == c.Grouped().Closure(Window(unknown, lo, i))
    requires Marks(c.seen, c.varToIndic, c.indicToVar, Elems(assumed0))
    requires HasIndicators(c.varToIndic, assumed0) && assumptions0 == Equal(c.varToIndic, assumed0)
    modifies c`seen
    ensures |c.seen| == old(|c.seen|)
    ensures Elems(assumed) == c.Grouped().Closure(Window(unknown, lo, i + 1))
    ensures Marks(c.seen, c.varToIndic, c.indicToVar, Elems(assumed))
    ensures HasIndicators(c.varToIndic, assumed) && assumptions == Equal(c.varToIndic, assumed)
  {
    var v := unknown[i];
    NextInWindow(c, unknown, lo, i);
    EntryIndicated(c, unknown, lo, i, hi);
    MarkOne(c.seen, c.varToIndic, c.indicToVar, Elems(assumed0), v);
    assumptions, assumed := assumptions0, assumed0;
    if !c.seen[c.varToIndic[v].value] {
      ElemsAppend(assumed, c.Grouped().Unit(v));
      assumptions, assumed := AssumeUnit(c, v, assumptions, assumed);
    }
  }

  lemma WindowHas(unknown: seq<nat>, lo: nat, i: nat, hi: nat)
    requires lo <= i < hi && i < |unknown|
    ensures unknown[i] in Window(unknown, lo, hi)
  {}

  /** Clears the marks of the listed variables, and of no others. */
  method ClearSeen(c: Common, unknown: seq<nat>, ghost vs: set<nat>)
    requires Inverts(c.indicToVar, c.varToIndic, |c.seen|) && HasIndicators(c.varToIndic, unknown)
    requires Marks(c.seen, c.varToIndic, c.indicToVar, vs)
    modifies c`seen
    ensures |c.seen| == old(|c.seen|) && Marks(c.seen, c.varToIndic, c.indicToVar, vs - Elems(unknown))
    ensures c.Clean() <==> vs <= Elems(unknown)
  {
    ghost var marked := vs;
    for i := 0 to |unknown|
      invariant |c.seen| == old(|c.seen|) && marked == vs - Elems(unknown[..i])
      invariant Marks(c.seen, c.varToIndic, c.indicToVar, marked)
    {
      MarkOne(c.seen, c.varToIndic, c.indicToVar, marked, unknown[i]);
      assert Elems(unknown[..i + 1]) == Elems(unknown[..i]) + {unknown[i]} by { assert unknown[..i + 1] == unknown[..i] + [unknown[i]]; }
      c.seen := c.seen[c.varToIndic[unknown[i]].value := false];
      marked := marked - {unknown[i]};
    }
    assert unknown[..|unknown|] == unknown;
    NothingMarked(c.seen, c.varToIndic, c.indicToVar, marked);
  }

  // ---- the testing loop ----

  /** What stays fixed during the loop: the sampling set `s` with the members of its units `reach`, and the
      window `w` with the members of its units `guess`. */
  datatype Setting = Setting(f: Formula, g: Grouping, n: nat, ind: seq<Option<nat>>,
                             s: set<nat>, reach: set<nat>, w: set<nat>, guess: set<nat>)

  ghost predicate SettingOk(t: Setting) {
    && t.g.Consistent(t.n) && |t.ind| == t.n
    && t.w <= t.s && (forall v :: v in t.s ==> v < t.n)
    && (forall v, x {:trigger v in t.s, x in t.g.Unit(v)} :: v in t.s && x in t.g.Unit(v) ==> x in t.reach)
    && (forall v, x {:trigger v in t.w, x in t.g.Unit(v)} :: v in t.w && x in t.g.Unit(v) ==> x in t.guess)
    && t.g.Closed(t.guess)
    && (forall v :: v in t.reach ==> v < t.n)
    && (forall v :: v in t.guess ==> v < t.n && t.ind[v].Some?)
    && (forall v {:trigger t.g.var2group[v]} :: v in t.guess && t.g.var2group[v] == 0 ==> v in t.w)
  }

  ghost predicate Fixed(c: Common, t: Setting, guessSet: seq<bool>)
    reads c
  {
    && c.GroupsOk() && c.original == t.f && c.Grouped() == t.g && c.origNumVars == t.n && c.varToIndic == t.ind
    && SettingOk(t) && c.InTable(t.guess)
    && Inverts(c.indicToVar, c.varToIndic, |c.seen|) && Marks(c.seen, c.varToIndic, c.indicToVar, t.guess - t.s)
    && |guessSet| == t.n && forall v :: 0 <= v < t.n ==> (guessSet[v] <==> v in t.guess)
  }

  lemma ClosureSingle(g: Grouping, n: nat, w: set<nat>, v: nat)
    requires g.Consistent(n) && (forall x :: x in w ==> x < n) && v < n && g.var2group[v] == 0 && v in g.Closure(w)
    ensures v in w
  {
    var y := g.InClosure(n, w, v);
    assert g.Unit(v) == [v];
    g.UnitFacts(n, y);
  }

  lemma SettingHolds(t: Setting)
    requires t.g.Consistent(t.n) && |t.ind| == t.n && t.w <= t.s
    requires t.reach == t.g.Closure(t.s) && t.guess == t.g.Closure(t.w)
    requires forall v :: v in t.s ==> v < t.n
    requires forall v :: v in t.guess ==> v < |t.ind| && t.ind[v].Some?
    ensures SettingOk(t)
  {
    t.g.ClosureClosed(t.n, t.w);
    t.g.ClosureBounded(t.n, t.w);
    t.g.ClosureBounded(t.n, t.s);
    forall v | v in t.guess && t.g.var2group[v] == 0 ensures v in t.w { ClosureSingle(t.g, t.n, t.w, v); }
  }

  /** Which variables are still to be tried. */
  ghost predicate Trying(t: Setting, unknownSet: seq<bool>, tried: seq<bool>, pick: seq<nat>) {
    && |unknownSet| == |tried| == t.n && Bounded(pick, t.n)
    && (forall v {:trigger unknownSet[v]} :: 0 <= v < t.n ==> (unknownSet[v] <==> v in t.s && v !in t.w && !tried[v]))
    && (forall v {:trigger tried[v]} :: 0 <= v < t.n && tried[v] ==> v !in t.guess && v in t.reach)
    && (forall v, x {:trigger tried[v], x in t.g.Unit(v)} :: 0 <= v < t.n && tried[v] && x in t.g.Unit(v) ==> x < t.n && tried[x])
    && (forall v {:trigger v in pick} :: v in t.s ==> v in pick || (v < t.n && tried[v]) || v in t.w || v in t.guess)
  }

  /** What is pushed for a variable without an indicator: a literal of no variable of the solver. */
  const VAR_UNDEF: nat := 0xfff_ffff

  /** The assumptions "the copies agree on each of vs", for variables that may lack an indicator. */
  function Assuming(ind: seq<Option<nat>>, vs: seq<nat>): (ls: seq<Lit>)
    requires Bounded(vs, |ind|)
  {
    seq(|vs|, i requires 0 <= i < |vs| => Lit(if ind[vs[i]].Some? then ind[vs[i]].value else VAR_UNDEF, true))
  }

  lemma AssumingEqual(ind: seq<Option<nat>>, vs: seq<nat>)
    requires HasIndicators(ind, vs)
    ensures Bounded(vs, |ind|) && Assuming(ind, vs) == Equal(ind, vs)
  {}

  /** Every tried variable is pending, independent, or determined by the guess and the independent ones;
      the assumptions are the indicators of just those. */
  ghost predicate Found(t: Setting, tried: seq<bool>, pending: seq<nat>, indep: seq<nat>, assumed: seq<nat>, assumptions: seq<Lit>) {
    && |tried| == t.n
    && NoDup(indep) && t.g.Closed(Elems(indep)) && (forall v :: v in indep ==> v < t.n && tried[v])
    && Bounded(assumed, |t.ind|) && assumptions == Assuming(t.ind, assumed)
    && Elems(assumed) == t.guess + Elems(indep)
    && Pending(t, tried, pending, indep)
    && (forall v :: 0 <= v < t.n && tried[v] && v !in pending && v !in indep ==> Determines(t.f, Elems(assumed), v))
  }

  /** The units of the variables in `found`, one after the other. */
  ghost function UnitsOf(g: Grouping, found: seq<nat>): set<nat> {
    if found == [] then {} else UnitsOf(g, found[..|found| - 1]) + Elems(g.Unit(found[|found| - 1]))
  }

  /** At each of the variables in `found` the guess and the units found before it left the variable open, or the
      query was not answered. */
  ghost predicate FoundOpen(t: Setting, found: seq<nat>, undecided: set<nat>) {
    forall k {:trigger OpenAt(t, found, undecided, k)} :: 0 <= k < |found| ==> OpenAt(t, found, undecided, k)
  }

  ghost predicate OpenAt(t: Setting, found: seq<nat>, undecided: set<nat>, k: nat)
    requires k < |found|
  {
    found[k] in undecided || !Determines(t.f, t.guess + UnitsOf(t.g, found[..k]), found[k])
  }

  /** The independent variables are units none of which was determined when it was found, up to unanswered queries. */
  ghost predicate Earned(t: Setting, independent: set<nat>, unanswered: int) {
    exists found: seq<nat>, undecided: set<nat> ::
      independent == UnitsOf(t.g, found) && |undecided| <= unanswered && FoundOpen(t, found, undecided)
  }

  lemma EarnedNothing(t: Setting)
    ensures Earned(t, {}, 0)
  {
    assert UnitsOf(t.g, []) == {} && FoundOpen(t, [], {});
  }

  lemma OpenNext(t: Setting, found: seq<nat>, undecided: set<nat>, v: nat, more: set<nat>)
    requires FoundOpen(t, found, undecided) && undecided <= more
    requires v in more || !Determines(t.f, t.guess + UnitsOf(t.g, found), v)
    ensures FoundOpen(t, found + [v], more) && UnitsOf(t.g, found + [v]) == UnitsOf(t.g, found) + Elems(t.g.Unit(v))
  {
    var all := found + [v];
    assert all[..|found|] == found;
    forall k | 0 <= k < |all| ensures OpenAt(t, all, more, k) {
      if k < |found| { assert all[..k] == found[..k] && all[k] == found[k] && OpenAt(t, found, undecided, k); }
    }
  }

  lemma EarnedStep(t: Setting, independent: set<nat>, unanswered: int, v: nat, open: bool)
    requires Earned(t, independent, unanswered) && (open ==> !Determines(t.f, t.guess + independent, v))
    ensures Earned(t, independent + Elems(t.g.Unit(v)), unanswered + if open then 0 else 1)
  {
    hide FoundOpen, UnitsOf, Determines;
    var found: seq<nat>, undecided: set<nat> :|
      independent == UnitsOf(t.g, found) && |undecided| <= unanswered && FoundOpen(t, found, undecided);
    var more := undecided + if open then {} else {v};
    assert |more| <= |undecided| + if open then 0 else 1;
    OpenNext(t, found, undecided, v, more);
  }

  lemma EarnedMore(t: Setting, independent: set<nat>, few: int, many: int)
    requires Earned(t, independent, few) && few <= many
    ensures Earned(t, independent, many)
  {}

  lemma EarnedSameModels(t: Setting, t0: Setting, independent: set<nat>, unanswered: int)
    requires Earned(t, independent, unanswered) && t0 == t.(f := t0.f) && SameModels(t0.f, t.f) && t0.f.n == t.f.n
    ensures Earned(t0, independent, unanswered)
  {
    var found: seq<nat>, undecided: set<nat> :|
      independent == UnitsOf(t.g, found) && |undecided| <= unanswered && FoundOpen(t, found, undecided);
    forall k | 0 <= k < |found| ensures OpenAt(t0, found, undecided, k) {
      assert OpenAt(t, found, undecided, k);
      var known := t.guess + UnitsOf(t.g, found[..k]);
      if Determines(t0.f, known, found[k]) { DeterminesSameModels(t0.f, t.f, known, found[k]); }
    }
    assert FoundOpen(t0, found, undecided);
  }

  lemma SettledSameModels(t: Setting, t0: Setting, tests: int, independent: set<nat>)
    requires Settled(t, tests, independent) && t0 == t.(f := t0.f) && SameModels(t0.f, t.f) && t0.f.n == t.f.n
    ensures Settled(t0, tests, independent)
  {
    var tested: set<nat> :| |tested| == tests && tested <= t.reach - t.guess && Supports(t.f, t.guess + independent, tested);
    SupportsSameModels(t.f, t0.f, t.guess + independent, tested);
  }

  /** The members still to be tested of one tried unit. */
  ghost predicate Pending(t: Setting, tried: seq<bool>, pending: seq<nat>, indep: seq<nat>) {
    && NoDup(pending)
    && (forall v :: v in pending ==> v < t.n && v < |tried| && tried[v] && v !in indep)
    && (forall v, x {:trigger v in pending, x in pending} :: v in pending && x in pending ==> x in t.g.Unit(v))
  }

  /** The next candidate from the back that was neither tried nor guessed. */
  method SelectVar(pick0: seq<nat>, tried: seq<bool>, unknownSet: seq<bool>, guessSet: seq<bool>)
    returns (testVar: Option<nat>, pick: seq<nat>)
    requires Bounded(pick0, |tried|) && |tried| == |unknownSet| == |guessSet|
    ensures pick <= pick0
    ensures forall v :: v in pick0 && v !in pick ==> tried[v] || !unknownSet[v] || guessSet[v]
    ensures testVar.None? ==> pick == []
    ensures testVar.Some? ==>
              testVar.value in pick && testVar.value < |tried|
              && !tried[testVar.value] && unknownSet[testVar.value] && !guessSet[testVar.value]
  {
    testVar, pick := None, pick0;
    var i := |pick|;
    while i > 0
      invariant i == |pick| && pick <= pick0 && testVar == None
      invariant forall v :: v in pick0 && v !in pick ==> tried[v] || !unknownSet[v] || guessSet[v]
    {
      i := i - 1;
      var v := pick[i];
      assert v == pick0[i] && pick == pick[..i] + [v];
      if !tried[v] && unknownSet[v] && !guessSet[v] {
        testVar := Some(v);
        break;
      } else {
        pick := pick[..|pick| - 1];
      }
    }
  }

  /** Marks the unit of the tested variable as tried and no longer unknown; none of it was guessed. */
  method MarkTried(c: Common, v: nat, guessSet: seq<bool>, unknownSet0: seq<bool>, tried0: seq<bool>)
    returns (unknownSet: seq<bool>, tried: seq<bool>)
    requires c.GroupsOk() && v < c.origNumVars && c.InTable({v}) && |guessSet| == |unknownSet0| == |tried0| == c.origNumVars
    requires (forall x :: x in c.Grouped().Unit(v) && x < |guessSet| ==> !guessSet[x])
    ensures |unknownSet| == |tried| == c.origNumVars
    ensures forall x :: 0 <= x < |tried| ==> (tried[x] <==> tried0[x] || x in c.Grouped().Unit(v))
    ensures forall x :: 0 <= x < |tried| ==> (unknownSet[x] <==> unknownSet0[x] && x !in c.Grouped().Unit(v))
  {
    c.Lookup(v);
    c.Grouped().UnitFacts(c.origNumVars, v);
    if c.groupIndep && c.InVariableGroup(v) {
      unknownSet, tried := MarkAllTried(c.varGroups[c.GetGroupIdx(v)], guessSet, unknownSet0, tried0);
    } else {
      assert !guessSet[v];
      unknownSet, tried := unknownSet0[v := false], tried0[v := true];
    }
  }

  method MarkAllTried(group: seq<nat>, guessSet: seq<bool>, unknownSet0: seq<bool>, tried0: seq<bool>)
    returns (unknownSet: seq<bool>, tried: seq<bool>)
    requires |guessSet| == |unknownSet0| == |tried0| && Bounded(group, |tried0|)
    requires forall x :: x in group && x < |guessSet| ==> !guessSet[x]
    ensures |unknownSet| == |tried| == |tried0|
    ensures forall x :: 0 <= x < |tried| ==> (tried[x] <==> tried0[x] || x in group)
    ensures forall x :: 0 <= x < |tried| ==> (unknownSet[x] <==> unknownSet0[x] && x !in group)
  {
    unknownSet, tried := unknownSet0, tried0;
    for m := 0 to |group|
      invariant |unknownSet| == |tried| == |tried0|
      invariant forall x :: 0 <= x < |tried| ==> (tried[x] <==> tried0[x] || x in group[..m])
      invariant forall x :: 0 <= x < |tried| ==> (unknownSet[x] <==> unknownSet0[x] && x !in group[..m])
    {
      assert group[..m + 1] == group[..m] + [group[m]] && group[m] in group;
      unknownSet := unknownSet[group[m] := false];
      assert !guessSet[group[m]];
      tried := tried[group[m] := true];
    }
    assert group[..|group|] == group;
  }

  /** The rest of the group of a freshly picked variable. */
  method OthersInGroup(c: Common, v: nat) returns (others: seq<nat>)
    requires c.GroupsOk() && v < c.origNumVars && c.InTable({v})
    ensures NoDup(others) && forall x :: x in others <==> x in c.Grouped().Unit(v) && x != v
    ensures !c.groupIndep ==> others == []
  {
    c.Lookup(v);
    c.Grouped().UnitFacts(c.origNumVars, v);
    others := [];
    if c.groupIndep && c.InVariableGroup(v) {
      var group := c.varGroups[c.GetGroupIdx(v)];
      for m := 0 to |group|
        invariant NoDup(others) && forall x :: x in others <==> x in group[..m] && x != v
      {
        assert group[..m + 1] == group[..m] + [group[m]] && group[m] !in group[..m];
        if group[m] != v { others := others + [group[m]]; }
      }
      assert group[..|group|] == group;
    }
  }

  lemma MarkAgain(t: Setting, unknownSet: seq<bool>, tried: seq<bool>, pick: seq<nat>, v: nat,
                  unknownSet': seq<bool>, tried': seq<bool>)
    requires Trying(t, unknownSet, tried, pick) && v < t.n && tried[v] && |unknownSet'| == |tried'| == t.n
    requires forall x :: 0 <= x < t.n ==> (tried'[x] <==> tried[x] || x in t.g.Unit(v))
    requires forall x :: 0 <= x < t.n ==> (unknownSet'[x] <==> unknownSet[x] && x !in t.g.Unit(v))
    ensures unknownSet' == unknownSet && tried' == tried
  {}

  lemma MarkFresh(t: Setting, unknownSet: seq<bool>, tried: seq<bool>, pick0: seq<nat>, pick: seq<nat>, v: nat,
                  unknownSet': seq<bool>, tried': seq<bool>)
    requires SettingOk(t) && Trying(t, unknownSet, tried, pick0) && v < t.n && unknownSet[v] && v !in t.guess
    requires pick <= pick0 && forall x :: x in pick0 && x !in pick ==> tried[x] || !unknownSet[x] || x in t.guess
    requires |unknownSet'| == |tried'| == t.n
    requires forall x :: 0 <= x < t.n ==> (tried'[x] <==> tried[x] || x in t.g.Unit(v))
    requires forall x :: 0 <= x < t.n ==> (unknownSet'[x] <==> unknownSet[x] && x !in t.g.Unit(v))
    ensures Trying(t, unknownSet', tried', pick)
    ensures forall x :: x in t.g.Unit(v) ==> x < t.n && !tried[x]
  {
    t.g.UnitFacts(t.n, v);
    forall x | x in t.g.Unit(v) ensures x < t.n && !tried[x] && x !in t.guess && x in t.reach {
      assert v in t.g.Unit(x) && v in t.s;
    }
    forall x, y | 0 <= x < t.n && tried'[x] && y in t.g.Unit(x) ensures y < t.n && tried'[y] {
      if x in t.g.Unit(v) { assert t.g.Unit(x) == t.g.Unit(v); }
    }
  }

  lemma FoundFresh(t: Setting, tried: seq<bool>, tried': seq<bool>, indep: seq<nat>, assumed: seq<nat>, assumptions: seq<Lit>,
                   v: nat, others: seq<nat>)
    requires t.g.Consistent(t.n) && v < t.n && Found(t, tried, [], indep, assumed, assumptions) && |tried'| == t.n
    requires forall x :: 0 <= x < t.n ==> (tried'[x] <==> tried[x] || x in t.g.Unit(v))
    requires forall x :: x in t.g.Unit(v) ==> x < t.n && !tried[x]
    requires NoDup(others) && forall x :: x in others <==> x in t.g.Unit(v) && x != v
    ensures Found(t, tried', others + [v], indep, assumed, assumptions)
  {
    t.g.UnitFacts(t.n, v);
    var pending := others + [v];
    assert forall x :: x in pending <==> x in t.g.Unit(v);
    forall x, y | x in pending && y in pending ensures y in t.g.Unit(x) {}
  }

  /** In group mode the tried variables are in the table. */
  ghost predicate TriedInTable(c: Common, tried: seq<bool>)
    reads c`groupIndep, c`var2varGroup
  {
    c.groupIndep ==> forall v :: 0 <= v < |tried| && tried[v] ==> v < |c.var2varGroup|
  }

  /** Picks the variable to test: the next member of the group under test, or a picked candidate. */
  method NextTest(c: Common, ghost t: Setting, unknownSet0: seq<bool>, tried0: seq<bool>, guessSet: seq<bool>, pick0: seq<nat>,
                  testGroup0: seq<nat>, ghost indep: seq<nat>, ghost assumed: seq<nat>, ghost assumptions: seq<Lit>)
    returns (status: Status, testVar: Option<nat>, unknownSet: seq<bool>, tried: seq<bool>, pick: seq<nat>, testGroup: seq<nat>)
    requires MidForward(c, t, guessSet, unknownSet0, tried0, pick0, testGroup0, indep, assumed, assumptions)
    ensures c.Paired() && Fixed(c, t, guessSet)
    ensures status == Finished || (status == BadTable && !c.InTable(t.s))
    ensures status == Finished ==>
              Trying(t, unknownSet, tried, pick) && TriedInTable(c, tried) && (!c.groupIndep ==> testGroup == [])
    ensures status == Finished && testVar.None? ==>
              && testGroup == [] && pick == [] && tried == tried0 && testGroup0 == []
              && MidForward(c, t, guessSet, unknownSet, tried, pick, testGroup, indep, assumed, assumptions)
    ensures status == Finished && testVar.Some? ==>
              && testVar.value < t.n && Found(t, tried, testGroup + [testVar.value], indep, assumed, assumptions)
              && (forall v :: 0 <= v < t.n && tried0[v] ==> tried[v])
              && (forall v :: v in testGroup + [testVar.value] ==> v in testGroup0 || (v < t.n && !tried0[v]))
  {
    status, testVar, unknownSet, tried, pick, testGroup := Finished, None, unknownSet0, tried0, pick0, testGroup0;
    if c.groupIndep && testGroup != [] {
      testVar := Some(testGroup[|testGroup| - 1]);
      testGroup := testGroup[..|testGroup| - 1];
      assert testGroup + [testVar.value] == testGroup0 && testVar.value in testGroup0;
      TriedMember(c, t, guessSet, unknownSet, tried, pick, testVar.value);
      unknownSet, tried := MarkTried(c, testVar.value, guessSet, unknownSet, tried);
      MarkAgain(t, unknownSet0, tried0, pick0, testVar.value, unknownSet, tried);
    } else {
      assert testGroup == [];
      status, testVar, unknownSet, tried, pick, testGroup :=
        PickTest(c, t, unknownSet, tried, guessSet, pick, indep, assumed, assumptions);
    }
  }

  lemma TriedMember(c: Common, t: Setting, guessSet: seq<bool>, unknownSet: seq<bool>, tried: seq<bool>, pick: seq<nat>, v: nat)
    requires Fixed(c, t, guessSet) && Trying(t, unknownSet, tried, pick) && TriedInTable(c, tried) && v < t.n && tried[v]
    ensures c.InTable({v}) && forall x :: x in t.g.Unit(v) && x < |guessSet| ==> !guessSet[x]
  {}

  /** Picks a fresh candidate and queues the rest of its group. */
  method PickTest(c: Common, ghost t: Setting, unknownSet0: seq<bool>, tried0: seq<bool>, guessSet: seq<bool>, pick0: seq<nat>,
                  ghost indep: seq<nat>, ghost assumed: seq<nat>, ghost assumptions: seq<Lit>)
    returns (status: Status, testVar: Option<nat>, unknownSet: seq<bool>, tried: seq<bool>, pick: seq<nat>, testGroup: seq<nat>)
    requires Fixed(c, t, guessSet) && Trying(t, unknownSet0, tried0, pick0) && Found(t, tried0, [], indep, assumed, assumptions)
    requires TriedInTable(c, tried0)
    ensures status == Finished || (status == BadTable && !c.InTable(t.s))
    ensures status == Finished ==>
              Trying(t, unknownSet, tried, pick) && TriedInTable(c, tried) && (!c.groupIndep ==> testGroup == [])
    ensures status == Finished && testVar.None? ==> testGroup == [] && pick == [] && tried == tried0
    ensures status == Finished && testVar.Some? ==>
              && testVar.value < t.n && Found(t, tried, testGroup + [testVar.value], indep, assumed, assumptions)
              && (forall v :: 0 <= v < t.n && tried0[v] ==> tried[v])
              && (forall v :: v in testGroup + [testVar.value] ==> v < t.n && !tried0[v])
  {
    status, unknownSet, tried, testGroup := Finished, unknownSet0, tried0, [];
    testVar, pick := SelectVar(pick0, tried, unknownSet, guessSet);
    if testVar.Some? {
      assert testVar.value in t.s && testVar.value !in t.guess;
      if c.groupIndep && testVar.value >= |c.var2varGroup| { return BadTable, testVar, unknownSet, tried, pick, testGroup; }
      FreshUnit(c, t, guessSet, testVar.value);
      testGroup := OthersInGroup(c, testVar.value);
      assert unknownSet[testVar.value];
      unknownSet, tried := MarkTried(c, testVar.value, guessSet, unknownSet, tried);
      MarkFresh(t, unknownSet0, tried0, pick0, pick, testVar.value, unknownSet, tried);
      FoundFresh(t, tried0, tried, indep, assumed, assumptions, testVar.value, testGroup);
    }
  }

  lemma FreshUnit(c: Common, t: Setting, guessSet: seq<bool>, v: nat)
    requires Fixed(c, t, guessSet) && v in t.s && v !in t.guess && (c.groupIndep ==> v < |c.var2varGroup|)
    ensures v < t.n && v in t.reach && c.InTable({v}) && c.InTable(Elems(t.g.Unit(v)))
    ensures forall x :: x in t.g.Unit(v) && x < |guessSet| ==> !guessSet[x]
  {
    t.g.UnitFacts(t.n, v);
    c.Lookup(v);
    forall x | x in t.g.Unit(v) && x < |guessSet| ensures !guessSet[x] { assert v in t.g.Unit(x); }
  }

  lemma KeepTested(t: Setting, tried: seq<bool>, pending: seq<nat>, indep: seq<nat>, assumed: seq<nat>, assumptions: seq<Lit>, v: nat)
    requires t.g.Consistent(t.n) && v < t.n && Found(t, tried, pending, indep, assumed, assumptions) && v in pending
    requires Bounded(t.g.Unit(v), |t.ind|) && (forall x :: x in t.g.Unit(v) ==> x < t.n && tried[x])
    ensures Found(t, tried, [], indep + t.g.Unit(v), assumed + t.g.Unit(v),
                  assumptions + Assuming(t.ind, t.g.Unit(v)))
  {
    var u := t.g.Unit(v);
    t.g.UnitFacts(t.n, v);
    var indep', assumed' := indep + u, assumed + u;
    forall x | x in u ensures x !in indep {
      assert v in t.g.Unit(x);
      assert x in Elems(indep) ==> v in Elems(indep);
    }
    assert NoDup(indep') by { ApartNoDup(indep, u); }
    ElemsAppend(indep, u);
    ElemsAppend(assumed, u);
    forall x, y | x in Elems(indep') && y in t.g.Unit(x) ensures y in Elems(indep') {
      if x in u { assert t.g.Unit(x) == u; } else { assert x in Elems(indep); }
    }
    forall x | 0 <= x < t.n && tried[x] && x !in indep' ensures Determines(t.f, Elems(assumed'), x) {
      assert x in pending ==> x in t.g.Unit(v);
      DeterminesMono(t.f, Elems(assumed), Elems(assumed'), x);
    }
  }

  lemma ApartNoDup(s: seq<nat>, u: seq<nat>)
    requires NoDup(s) && NoDup(u) && forall x :: x in u ==> x !in s
    ensures NoDup(s + u)
  {
    forall i, j | 0 <= i < |s| && 0 <= j < |u| ensures s[i] != u[j] { assert u[j] in u && s[i] in s; }
  }

  lemma DropTested(t: Setting, tried: seq<bool>, testGroup: seq<nat>, indep: seq<nat>, assumed: seq<nat>, assumptions: seq<Lit>, v: nat)
    requires v < t.n && Found(t, tried, testGroup + [v], indep, assumed, assumptions) && Determines(t.f, Elems(assumed), v)
    ensures Found(t, tried, testGroup, indep, assumed, assumptions)
  {
    forall x | x in testGroup ensures x in testGroup + [v] {}
    assert NoDup(testGroup) by { assert forall i :: 0 <= i < |testGroup| ==> (testGroup + [v])[i] == testGroup[i]; }
  }

  /** The tried variables are whole units that can be reached. */
  ghost predicate TriedWhole(t: Setting, tried: seq<bool>) {
    && |tried| == t.n
    && (forall v, x :: 0 <= v < t.n && tried[v] && x in t.g.Unit(v) ==> x < t.n && tried[x])
    && (forall v :: 0 <= v < t.n && tried[v] ==> v in t.reach && v !in t.guess)
  }

  /** The tested variable with its unit: what can be looked up and assumed. */
  lemma TestedUnit(c: Common, t: Setting, guessSet: seq<bool>, tried: seq<bool>, pending: seq<nat>, indep: seq<nat>,
                   assumed: seq<nat>, assumptions: seq<Lit>, v: nat)
    requires Fixed(c, t, guessSet) && v < t.n && v in pending && Found(t, tried, pending, indep, assumed, assumptions)
    requires TriedWhole(t, tried) && TriedInTable(c, tried)
    ensures Bounded(assumed, |t.ind|) && assumptions == Assuming(t.ind, assumed) && Elems(assumed) == t.guess + Elems(indep)
    ensures HasIndicators(t.ind, assumed) ==> assumptions == Equal(t.ind, assumed)
    ensures Bounded(t.g.Unit(v), |t.ind|) && (forall x :: x in t.g.Unit(v) ==> x < t.n && tried[x]) && c.InTable({v})
    ensures v in t.reach && (t.ind[v].Some? ==> t.ind[v].value < |c.seen| && !c.seen[t.ind[v].value])
  {
    t.g.UnitFacts(t.n, v);
    if HasIndicators(t.ind, assumed) { AssumingEqual(t.ind, assumed); }
    if t.ind[v].Some? { MarkOne(c.seen, c.varToIndic, c.indicToVar, t.guess - t.s, v); }
  }

  /** A variable that is assumed without having an indicator is one of those that can be reached. */
  lemma MissingAssumed(t: Setting, tried: seq<bool>, pending: seq<nat>, indep: seq<nat>, assumed: seq<nat>, assumptions: seq<Lit>)
    requires SettingOk(t) && TriedWhole(t, tried) && Found(t, tried, pending, indep, assumed, assumptions)
    requires !HasIndicators(t.ind, assumed)
    ensures !(t.reach <= Having(t.ind))
  {
    var i :| 0 <= i < |assumed| && !(assumed[i] < |t.ind| && t.ind[assumed[i]].Some?);
    assert assumed[i] in Elems(assumed) && assumed[i] !in t.guess;
    assert assumed[i] in Elems(indep) && assumed[i] in indep;
  }

  /** Tests one variable and updates what is independent and assumed. The query is about variables of the solver as long
      as everything assumed has an indicator (`intact`); the tested variable is asserted to have one when it is kept. */
  method TestForward(c: Common, ghost t: Setting, testVar: nat, guessSet: seq<bool>, ghost tried: seq<bool>,
                     testGroup0: seq<nat>, indep0: seq<nat>, assumptions0: seq<Lit>, intact0: bool, ghost assumed0: seq<nat>)
    returns (status: Status, testGroup: seq<nat>, indep: seq<nat>, assumptions: seq<Lit>, intact: bool, ghost assumed: seq<nat>)
    requires c.Paired() && Fixed(c, t, guessSet) && testVar < t.n && TriedWhole(t, tried) && TriedInTable(c, tried)
    requires Found(t, tried, testGroup0 + [testVar], indep0, assumed0, assumptions0)
    requires intact0 <==> HasIndicators(t.ind, assumed0)
    modifies c.solver`model, c.solver`sumConflicts, c.solver`calls, c.solver`undefs, c.solver`budget
    ensures c.Paired() && old(c.solver.calls) <= c.solver.calls <= old(c.solver.calls) + 1
    ensures status == Finished || (status == GroupSplit && !(t.reach <= Having(t.ind)))
    ensures status == Finished ==>
              && Found(t, tried, testGroup, indep, assumed, assumptions) && testGroup <= testGroup0
              && c.solver.calls == old(c.solver.calls) + 1
              && (indep == indep0 || indep == indep0 + t.g.Unit(testVar))
              && (intact <==> HasIndicators(t.ind, assumed))
    ensures Charged(c.limits.backward, old(c.solver.undefs), old(c.solver.sumConflicts), c.solver.undefs, c.solver.sumConflicts)
    ensures status == Finished && indep != indep0 && c.solver.undefs == old(c.solver.undefs) ==>
              !Determines(t.f, t.guess + Elems(indep0), testVar)
  {
    hide Charged, Found, SettingOk, TriedWhole, TriedInTable, Grouping.Unit, Marks, Inverts, Assuming;
    status, testGroup, indep, assumed, intact, assumptions := Finished, testGroup0, indep0, assumed0, intact0, assumptions0;
    ChargedNothing(c.limits.backward, c.solver.undefs, c.solver.sumConflicts);
    if !intact0 {
      MissingAssumed(t, tried, testGroup0 + [testVar], indep0, assumed0, assumptions0);
      status := GroupSplit;
      return;
    }
    var lastIndep := true;
    var ret;
    TestedUnit(c, t, guessSet, tried, testGroup0 + [testVar], indep0, assumed0, assumptions0, testVar);
    ret, assumptions := c.Ask(assumptions0, testVar, assumed0);
    if ret == Undef || ret == True {
      KeepWhole(t, tried, testGroup0, indep0, assumed0, assumptions0, testVar);
      testGroup, indep := KeepIndependent(c, testVar, testGroup0, indep0);
      lastIndep := true;
    } else {
      lastIndep := false;
    }
    assumptions := assumptions[..|assumptions| - 1];
    assumptions := assumptions[..|assumptions| - 1];
    assert assumptions == assumptions0;
    if lastIndep {
      if c.varToIndic[testVar].None? {
        status := GroupSplit;
        return;
      }
      assert !c.seen[c.varToIndic[testVar].value];
      assumptions, intact := AssumeFound(c, testVar, assumptions);
      assumed := assumed0 + t.g.Unit(testVar);
      BothIndicated(t.ind, assumed0, t.g.Unit(testVar));
    } else {
      DropTested(t, tried, testGroup0, indep0, assumed0, assumptions0, testVar);
    }
  }

  lemma BothIndicated(ind: seq<Option<nat>>, s: seq<nat>, t: seq<nat>)
    ensures HasIndicators(ind, s + t) <==> HasIndicators(ind, s) && HasIndicators(ind, t)
  {
    IndicatorsOf(ind, s);
    IndicatorsOf(ind, t);
    IndicatorsOf(ind, s + t);
    ElemsAppend(s, t);
  }

  /** An independent variable is kept with its group, whose other members need no test any more. */
  method KeepIndependent(c: Common, testVar: nat, testGroup0: seq<nat>, indep0: seq<nat>) returns (testGroup: seq<nat>, indep: seq<nat>)
    requires c.GroupsOk() && testVar < c.origNumVars && c.InTable({testVar})
    ensures indep == indep0 + c.Grouped().Unit(testVar)
    ensures testGroup == if c.Grouped().var2group[testVar] != 0 then [] else testGroup0
  {
    c.Lookup(testVar);
    testGroup, indep := testGroup0, indep0;
    if c.groupIndep && c.InVariableGroup(testVar) {
      var group := c.varGroups[c.GetGroupIdx(testVar)];
      for m := 0 to |group|
        invariant indep == indep0 + group[..m]
      {
        indep := indep + [group[m]];
      }
      assert group[..|group|] == group;
      testGroup := [];
    } else {
      indep := indep + [testVar];
    }
  }

  /** After that nothing of the unit is pending. */
  lemma KeepWhole(t: Setting, tried: seq<bool>, testGroup: seq<nat>, indep: seq<nat>, assumed: seq<nat>,
                  assumptions: seq<Lit>, v: nat)
    requires t.g.Consistent(t.n) && v < t.n && Found(t, tried, testGroup + [v], indep, assumed, assumptions)
    requires Bounded(t.g.Unit(v), |t.ind|) && (forall x :: x in t.g.Unit(v) ==> x < t.n && tried[x])
    ensures Found(t, tried, if t.g.var2group[v] != 0 then [] else testGroup, indep + t.g.Unit(v), assumed + t.g.Unit(v),
                  assumptions + Assuming(t.ind, t.g.Unit(v)))
  {
    assert v in testGroup + [v];
    KeepTested(t, tried, testGroup + [v], indep, assumed, assumptions, v);
    if t.g.var2group[v] == 0 { SinglePending(testGroup, v); }
  }

  lemma SinglePending(testGroup: seq<nat>, v: nat)
    requires NoDup(testGroup + [v]) && forall x :: x in testGroup + [v] ==> x in [v]
    ensures testGroup == []
  {
    var s := testGroup + [v];
    NoDupSize(s);
    SubsetSize(Elems(s), {v});
  }

  /** Adds the indicators of the tested unit to the assumptions. That the members of a group have one is not asserted. */
  method AssumeFound(c: Common, v: nat, assumptions0: seq<Lit>) returns (assumptions: seq<Lit>, whole: bool)
    requires c.GroupsOk() && v < c.origNumVars && c.InTable({v}) && Bounded(c.Grouped().Unit(v), |c.varToIndic|)
    requires v < |c.varToIndic| && c.varToIndic[v].Some?
    ensures assumptions == assumptions0 + Assuming(c.varToIndic, c.Grouped().Unit(v))
    ensures whole <==> HasIndicators(c.varToIndic, c.Grouped().Unit(v))
  {
    c.Lookup(v);
    c.Grouped().UnitFacts(c.origNumVars, v);
    assumptions, whole := assumptions0, true;
    if c.groupIndep && c.InVariableGroup(v) {
      var group := c.varGroups[c.GetGroupIdx(v)];
      for m := 0 to |group|
        invariant assumptions == assumptions0 + Assuming(c.varToIndic, group[..m]) && (whole <==> HasIndicators(c.varToIndic, group[..m]))
      {
        var ass := c.varToIndic[group[m]];
        whole := whole && ass.Some?;
        assumptions := assumptions + [Lit(if ass.Some? then ass.value else VAR_UNDEF, true)];
      }
      assert group[..|group|] == group;
    } else {
      assert c.Grouped().Unit(v)[0] == v;
      assumptions := assumptions + [Lit(c.varToIndic[v].value, true)];
    }
  }

  // ---- the result ----

  /** The flags are the flags at the start plus the listed variables. */
  ghost predicate Tracks(list: seq<nat>, flag: seq<bool>, base: seq<bool>) {
    NoDup(list) && |flag| == |base| && forall x :: 0 <= x < |base| ==> (flag[x] <==> base[x] || x in list)
  }

  lemma PushTracks(list: seq<nat>, flag: seq<bool>, base: seq<bool>, members: seq<nat>, flag': seq<bool>)
    requires Tracks(list, flag, base) && Bounded(members, |base|) && NoDup(members) && |flag'| == |flag|
    requires forall x :: 0 <= x < |flag| ==> (flag'[x] <==> flag[x] || x in members)
    ensures Tracks(list + Missing(members, flag), flag', base)
    ensures forall x :: x in list + Missing(members, flag) <==> x in list || (x in members && !base[x])
  {
    var more := Missing(members, flag);
    MissingNoDup(members, flag);
    forall x: nat | true ensures x in more <==> x in members && !base[x] && x !in list {
      MissingMember(members, flag, x);
    }
    ApartNoDup(list, more);
    assert forall x :: x in list + more <==> x in list || x in more;
  }

  /** Lists the guessed variables that are not marked unknown. */
  method CollectGuess(c: Common, guessSet: seq<bool>, unknownSet0: seq<bool>, ghost guess: set<nat>, ghost reach: set<nat>)
    returns (unknown: seq<nat>, unknownSet: seq<bool>)
    requires c.GroupsOk() && |guessSet| == |unknownSet0| == c.origNumVars
    requires c.InTable(reach) && guess <= reach && forall v :: 0 <= v < c.origNumVars ==> (guessSet[v] <==> v in guess)
    requires c.Grouped().Closed(guess) && forall v :: v in guess ==> v < c.origNumVars
    requires forall v :: 0 <= v < c.origNumVars && guessSet[v] && c.Grouped().var2group[v] == 0 ==> !unknownSet0[v]
    ensures Listed(c.Grouped(), InOrder(guess, c.origNumVars), unknown, unknownSet0)
    ensures Tracks(unknown, unknownSet, unknownSet0)
    ensures forall x :: x in unknown <==> 0 <= x < |guessSet| && guessSet[x] && !unknownSet0[x]
  {
    hide Seqs.Missing, Grouping.Unit, Grouping.Consistent, Grouping.Listing, Flat, Listed, Tracks, NoDup, Grouping.Closed;
    unknown, unknownSet := [], unknownSet0;
    NoneListed(c.Grouped(), unknownSet0);
    TracksNothing(unknownSet0);
    for v := 0 to c.origNumVars
      invariant |unknownSet| == c.origNumVars
      invariant Listed(c.Grouped(), InOrder(guess, v), unknown, unknownSet0) && Tracks(unknown, unknownSet, unknownSet0)
    {
      assert InOrder(guess, v + 1) == if v in guess then InOrder(guess, v) + [v] else InOrder(guess, v);
      if guessSet[v] {
        ghost var list, flag := unknown, unknownSet;
        SingleFresh(c, InOrder(guess, v), v, unknown, unknownSet, unknownSet0);
        LeftNext(c.Grouped(), c.origNumVars, InOrder(guess, v), v, unknown, unknownSet, unknownSet0);
        unknown, unknownSet := PushUnit(c, v, unknown, unknownSet);
        PushTracks(list, flag, unknownSet0, c.Grouped().Unit(v), unknownSet);
      }
    }
    LeftOfGuess(c, guess, unknown, unknownSet0);
  }

  /** A variable outside the groups is not flagged before its turn comes. */
  lemma SingleFresh(c: Common, s: seq<nat>, v: nat, list: seq<nat>, flag: seq<bool>, base: seq<bool>)
    requires c.GroupsOk() && v < c.origNumVars && Bounded(s, v) && |base| == c.origNumVars
    requires Listed(c.Grouped(), s, list, base) && Tracks(list, flag, base)
    ensures c.Grouped().var2group[v] == 0 && !base[v] ==> !flag[v]
  {
    hide Grouping.Listing, Flat, Seqs.Missing;
    var g, n := c.Grouped(), c.origNumVars;
    if v in list && g.var2group[v] == 0 {
      MissingMember(Flat(g.Listing(s)), base, v);
      g.ListingClosure(n, s);
      assert v in Elems(Flat(g.Listing(s)));
      ClosureSingle(g, n, Elems(s), v);
    }
  }

  lemma LeftOfGuess(c: Common, guess: set<nat>, list: seq<nat>, base: seq<bool>)
    requires c.GroupsOk() && |base| == c.origNumVars && c.Grouped().Closed(guess) && (forall v :: v in guess ==> v < c.origNumVars)
    requires Listed(c.Grouped(), InOrder(guess, c.origNumVars), list, base)
    ensures forall x :: x in list <==> x in guess && x < |base| && !base[x]
  {
    hide Grouping.Listing, Flat, Seqs.Missing, Grouping.Unit, Grouping.Consistent, Grouping.Closed;
    var g, n, s := c.Grouped(), c.origNumVars, InOrder(guess, c.origNumVars);
    g.ListingClosure(n, s);
    assert Elems(s) == guess;
    g.ClosureOfClosed(n, guess);
    forall x: nat ensures x in list <==> x in guess && x < |base| && !base[x] {
      MissingMember(Flat(g.Listing(s)), base, x);
      assert x in Flat(g.Listing(s)) <==> x in Elems(Flat(g.Listing(s)));
    }
  }

  /** What the listed units hold of the variables that are not flagged at the start. */
  ghost predicate Listed(g: Grouping, s: seq<nat>, list: seq<nat>, base: seq<bool>) {
    Bounded(Flat(g.Listing(s)), |base|) && list == Seqs.Missing(Flat(g.Listing(s)), base)
  }

  lemma NoneListed(g: Grouping, base: seq<bool>)
    ensures Listed(g, [], [], base)
  {}

  lemma LeftNext(g: Grouping, n: nat, s: seq<nat>, v: nat, list: seq<nat>, flag: seq<bool>, base: seq<bool>)
    requires g.Consistent(n) && Bounded(s, n) && v < n && |base| == n && Listed(g, s, list, base) && Tracks(list, flag, base)
    ensures Bounded(g.Unit(v), n) && Listed(g, s + [v], list + Seqs.Missing(g.Unit(v), flag), base)
  {
    hide Grouping.Consistent, Grouping.Unit, Grouping.Listing, Flat, Seqs.Missing;
    g.ListedNext(n, s, v, list, flag, base);
  }

  /** A variable that is listed already adds nothing. */
  lemma LeftAgain(g: Grouping, n: nat, s: seq<nat>, v: nat, list: seq<nat>, base: seq<bool>)
    requires g.Consistent(n) && Listed(g, s, list, base) && v in list
    ensures Listed(g, s + [v], list, base)
  {
    MissingMember(Flat(g.Listing(s)), base, v);
    g.ListingNext(s, v);
  }

  /** Lists a variable with the rest of its group, as far as it is not flagged. */
  method PushUnit(c: Common, v: nat, unknown0: seq<nat>, unknownSet0: seq<bool>) returns (unknown: seq<nat>, unknownSet: seq<bool>)
    requires c.GroupsOk() && v < c.origNumVars && c.InTable({v}) && |unknownSet0| == c.origNumVars
    requires c.Grouped().var2group[v] == 0 ==> !unknownSet0[v]
    ensures Bounded(c.Grouped().Unit(v), |unknownSet0|) && NoDup(c.Grouped().Unit(v))
    ensures unknown == unknown0 + Seqs.Missing(c.Grouped().Unit(v), unknownSet0) && |unknownSet| == |unknownSet0|
    ensures forall x :: 0 <= x < |unknownSet| ==> (unknownSet[x] <==> unknownSet0[x] || x in c.Grouped().Unit(v))
  {
    hide Seqs.Missing;
    c.Lookup(v);
    c.Grouped().UnitFacts(c.origNumVars, v);
    if c.groupIndep && c.InVariableGroup(v) {
      var group := c.varGroups[c.GetGroupIdx(v)];
      unknown, unknownSet := PushMissing(group, unknown0, unknownSet0);
    } else {
      MissingOne(v, unknownSet0);
      unknown := unknown0 + [v];
      unknownSet := unknownSet0[v := true];
    }
  }

  /** Lists the guess and then the independent variables. */
  method CollectForward(c: Common, guessSet: seq<bool>, unknownSet0: seq<bool>, indep: seq<nat>, ghost guess: set<nat>)
    returns (unknown: seq<nat>, unknownSet: seq<bool>)
    requires c.GroupsOk() && |guessSet| == |unknownSet0| == c.origNumVars
    requires c.InTable(Elems(indep) + guess) && forall v :: 0 <= v < c.origNumVars ==> (guessSet[v] <==> v in guess)
    requires c.Grouped().Closed(guess) && forall v :: v in guess ==> v < c.origNumVars
    requires forall v :: 0 <= v < c.origNumVars && guessSet[v] && c.Grouped().var2group[v] == 0 ==> !unknownSet0[v]
    requires c.Grouped().Closed(Elems(indep)) && forall v :: v in indep ==> v < c.origNumVars && !unknownSet0[v] && v !in guess
    ensures NoDup(unknown) && Bounded(unknown, |unknownSet|) && |unknownSet| == c.origNumVars
    ensures Bounded(Flat(c.Grouped().Listing(InOrder(guess, c.origNumVars))), |unknownSet0|)
    ensures unknown == Seqs.Missing(Flat(c.Grouped().Listing(InOrder(guess, c.origNumVars))), unknownSet0)
                       + Flat(c.Grouped().Listing(indep))
    ensures forall x :: x in unknown <==> (0 <= x < |guessSet| && guessSet[x] && !unknownSet0[x]) || x in indep
    ensures forall x :: x in unknown ==> x < |unknownSet| && unknownSet[x]
  {
    hide Seqs.Missing, Grouping.Unit, Grouping.Consistent, Grouping.Listing, Flat, NoDup, Grouping.Closed;
    unknown, unknownSet := CollectGuess(c, guessSet, unknownSet0, guess, Elems(indep) + guess);
    ghost var first := unknown;
    assert forall v :: v in indep ==> !unknownSet[v];
    unknown, unknownSet := CollectIndep(c, unknown, unknownSet, indep);
    forall i | 0 <= i < |unknown| ensures unknown[i] < c.origNumVars { assert unknown[i] in unknown; }
  }

  /** Appends the independent variables unit by unit. */
  method CollectIndep(c: Common, unknown0: seq<nat>, unknownSet0: seq<bool>, indep: seq<nat>)
    returns (unknown: seq<nat>, unknownSet: seq<bool>)
    requires c.GroupsOk() && |unknownSet0| == c.origNumVars && c.InTable(Elems(indep))
    requires c.Grouped().Closed(Elems(indep)) && forall v :: v in indep ==> v < c.origNumVars && !unknownSet0[v]
    requires NoDup(unknown0) && forall x :: x in unknown0 ==> x < |unknownSet0| && unknownSet0[x]
    ensures unknown == unknown0 + Flat(c.Grouped().Listing(indep)) && NoDup(unknown) && |unknownSet| == |unknownSet0|
    ensures forall x :: x in unknown <==> x in unknown0 || x in indep
    ensures forall x :: 0 <= x < |unknownSet| ==> (unknownSet[x] <==> unknownSet0[x] || x in indep)
  {
    hide Seqs.Missing, Grouping.Unit, Grouping.Consistent, Listed, Tracks, NoDup, Grouping.Closed;
    unknown, unknownSet := unknown0, unknownSet0;
    ghost var more: seq<nat> := [];
    NoneListed(c.Grouped(), unknownSet0);
    TracksNothing(unknownSet0);
    assert forall i :: 0 <= i < |indep| ==> indep[i] in indep;
    for k := 0 to |indep|
      invariant unknown == unknown0 + more && |unknownSet| == |unknownSet0|
      invariant Listed(c.Grouped(), indep[..k], more, unknownSet0) && Tracks(more, unknownSet, unknownSet0)
    {
      var v := indep[k];
      assert indep[..k + 1] == indep[..k] + [v] && v in indep;
      assert v in Elems(indep);
      if !unknownSet[v] {
        LeftNext(c.Grouped(), c.origNumVars, indep[..k], v, more, unknownSet, unknownSet0);
        ghost var flag := unknownSet;
        unknown, unknownSet := PushUnit(c, v, unknown, unknownSet);
        PushTracks(more, flag, unknownSet0, c.Grouped().Unit(v), unknownSet);
        more := more + Seqs.Missing(c.Grouped().Unit(v), flag);
      } else {
        FlaggedListed(more, unknownSet, unknownSet0, v);
        LeftAgain(c.Grouped(), c.origNumVars, indep[..k], v, more, unknownSet0);
      }
    }
    assert indep[..|indep|] == indep;
    AllListed(c, indep, more, unknownSet0);
    TrackedApart(unknown0, more, unknownSet, unknownSet0);
  }

  lemma FlaggedListed(list: seq<nat>, flag: seq<bool>, base: seq<bool>, v: nat)
    requires Tracks(list, flag, base) && v < |base| && flag[v] && !base[v]
    ensures v in list
  {}

  lemma TrackedApart(first: seq<nat>, list: seq<nat>, flag: seq<bool>, base: seq<bool>)
    requires Tracks(list, flag, base) && NoDup(first)
    requires (forall x :: x in first ==> x < |base| && base[x]) && forall x :: x in list ==> x < |base| && !base[x]
    ensures NoDup(first + list) && forall x :: 0 <= x < |base| ==> (flag[x] <==> base[x] || x in list)
  {
    ApartNoDup(first, list);
  }

  lemma TracksNothing(base: seq<bool>)
    ensures Tracks([], base, base)
  {}

  lemma AllListed(c: Common, indep: seq<nat>, unknown: seq<nat>, base: seq<bool>)
    requires c.GroupsOk() && Bounded(indep, c.origNumVars) && c.Grouped().Closed(Elems(indep))
    requires Listed(c.Grouped(), indep, unknown, base) && forall v :: v in indep ==> v < |base| && !base[v]
    ensures unknown == Flat(c.Grouped().Listing(indep)) && forall x :: x in unknown <==> x in indep
  {
    hide Grouping.Unit, Grouping.Consistent, Grouping.Listing, Flat;
    var g, n := c.Grouped(), c.origNumVars;
    g.ListingClosure(n, indep);
    g.ClosureOfClosed(n, Elems(indep));
    assert forall x :: x in Flat(g.Listing(indep)) <==> x in Elems(Flat(g.Listing(indep)));
    MissingAll(Flat(g.Listing(indep)), base);
  }

  /** What the round leaves: of the guess, the window and what was not sampled, and the independent units. */
  ghost predicate ForwardResult(t: Setting, indep: set<nat>, result: set<nat>) {
    && t.g.Closed(indep) && indep !! t.guess && indep <= t.reach
    && forall v :: v in result <==> (v in t.guess && (v in t.w || v !in t.s)) || v in indep
  }

  /** Everything before the loop: the guess, its assumptions, and the candidates. */
  method StartForward(c: Common, lo: nat, hi: nat, draws: nat -> nat)
    returns (status: Status, unknownSet: seq<bool>, guessSet: seq<bool>, tried: seq<bool>, pick: seq<nat>, assumptions: seq<Lit>,
             ghost assumed: seq<nat>, ghost t: Setting)
    requires lo <= hi && c.Paired() && c.GroupsOk() && c.Clean() && Bounded(c.samplingSet, c.origNumVars)
    requires Inverts(c.indicToVar, c.varToIndic, |c.seen|) && Elems(c.samplingSet) <= Having(c.varToIndic)
    modifies c`seen
    ensures |c.seen| == old(|c.seen|)
    ensures MayEnd(status, c, c.Grouped().Closure(Window(Reversed(c.samplingSet), lo, hi)))
    ensures status == Finished ==> c.Served(c.Grouped().Closure(Window(Reversed(c.samplingSet), lo, hi)))
    ensures status == Finished ==>
              && RoundSetting(t, c.original, c.Grouped(), c.origNumVars, Elems(c.samplingSet), Window(Reversed(c.samplingSet), lo, hi))
              && t.ind == c.varToIndic
              && MidForward(c, t, guessSet, unknownSet, tried, pick, [], [], assumed, assumptions)
              && HasIndicators(t.ind, assumed)
              && (Unmarked(c.seen) <==> t.guess <= t.s)
  {
    hide RoundSetting, SettingOk, MidForward, Trying, Found, MayEnd, Marks, Having;
    var unknown;
    unknown, pick, unknownSet := StartLists(c, draws);
    IndicatorsOf(c.varToIndic, unknown);
    status, unknownSet, guessSet, assumptions, assumed := GuessAndAssume(c, unknown, unknownSet, lo, hi);
    tried := seq(c.origNumVars, _ => false);
    t := Setting(c.original, c.Grouped(), c.origNumVars, c.varToIndic, {}, {}, {}, {});
    if status != Finished { return; }
    WindowListed(unknown, lo, hi);
    t := MakeSetting(c, Window(unknown, lo, hi));
    AssumingEqual(t.ind, assumed);
    NothingTried(t, c.samplingSet, unknownSet, tried, pick, assumed, assumptions);
    PackForward(c, t, Window(unknown, lo, hi), guessSet, unknownSet, tried, pick, assumed, assumptions);
  }

  /** The sampling set back to front, the order in which candidates are picked, and the flags of its members. */
  method StartLists(c: Common, draws: nat -> nat) returns (unknown: seq<nat>, pick: seq<nat>, unknownSet: seq<bool>)
    requires Bounded(c.samplingSet, c.origNumVars)
    ensures unknown == Reversed(c.samplingSet) && Elems(unknown) == Elems(c.samplingSet)
    ensures Bounded(unknown, c.origNumVars) && Bounded(pick, c.origNumVars) && |unknownSet| == c.origNumVars
    ensures forall v :: v in pick <==> v in c.samplingSet
    ensures forall v :: 0 <= v < c.origNumVars ==> (unknownSet[v] <==> v in c.samplingSet)
  {
    hide Shuffled;
    unknown := Reverse(c.samplingSet);
    SameElements(unknown, c.samplingSet, c.origNumVars);
    pick := Permute(unknown, draws);
    SameElements(pick, c.samplingSet, c.origNumVars);
    unknownSet := FlagAll(c.samplingSet, c.origNumVars);
  }

  lemma MakeSetting(c: Common, w: set<nat>) returns (t: Setting)
    requires c.GroupsOk() && |c.varToIndic| == c.origNumVars && Bounded(c.samplingSet, c.origNumVars)
    requires c.Served(c.Grouped().Closure(w)) && w <= Elems(c.samplingSet)
    ensures t.f == c.original && t.g == c.Grouped() && t.n == c.origNumVars && t.ind == c.varToIndic
    ensures t.s == Elems(c.samplingSet) && t.w == w
    ensures RoundSetting(t, c.original, c.Grouped(), c.origNumVars, Elems(c.samplingSet), w)
    ensures t.guess == c.Grouped().Closure(w) && c.InTable(t.guess)
  {
    var s := Elems(c.samplingSet);
    t := Setting(c.original, c.Grouped(), c.origNumVars, c.varToIndic, s, c.Grouped().Closure(s), w, c.Grouped().Closure(w));
    SettingHolds(t);
    c.Grouped().ClosureMono(w, s);
  }

  lemma PackForward(c: Common, t: Setting, w: set<nat>, guessSet: seq<bool>, unknownSet: seq<bool>, tried: seq<bool>,
                    pick: seq<nat>, assumed: seq<nat>, assumptions: seq<Lit>)
    requires c.Paired() && c.GroupsOk() && t.ind == c.varToIndic && c.InTable(t.guess) && forall v :: 0 <= v < |tried| ==> !tried[v]
    requires Inverts(c.indicToVar, c.varToIndic, |c.seen|) && Marks(c.seen, c.varToIndic, c.indicToVar, t.guess - t.s)
    requires RoundSetting(t, c.original, c.Grouped(), c.origNumVars, Elems(c.samplingSet), w)
    requires |guessSet| == t.n && forall v :: 0 <= v < t.n ==> (guessSet[v] <==> v in t.guess)
    requires Trying(t, unknownSet, tried, pick) && Found(t, tried, [], [], assumed, assumptions)
    ensures MidForward(c, t, guessSet, unknownSet, tried, pick, [], [], assumed, assumptions)
  {}

  /** The guess and its assumptions. */
  method GuessAndAssume(c: Common, unknown: seq<nat>, unknownSet0: seq<bool>, lo: nat, hi: nat)
    returns (status: Status, unknownSet: seq<bool>, guessSet: seq<bool>, assumptions: seq<Lit>, ghost assumed: seq<nat>)
    requires lo <= hi && c.GroupsOk() && c.Clean() && Bounded(unknown, c.origNumVars) && |c.varToIndic| == c.origNumVars
    requires |unknownSet0| == c.origNumVars && forall v :: v in unknown ==> unknownSet0[v]
    requires Inverts(c.indicToVar, c.varToIndic, |c.seen|) && HasIndicators(c.varToIndic, unknown)
    modifies c`seen
    ensures |c.seen| == old(|c.seen|)
    ensures MayEnd(status, c, c.Grouped().Closure(Window(unknown, lo, hi)))
    ensures status == Finished ==> c.Served(c.Grouped().Closure(Window(unknown, lo, hi)))
    ensures status == Finished ==>
              var w, guess := Window(unknown, lo, hi), c.Grouped().Closure(Window(unknown, lo, hi));
              && |unknownSet| == |guessSet| == c.origNumVars
              && (forall v :: 0 <= v < c.origNumVars ==> (guessSet[v] <==> v in guess))
              && (forall v :: 0 <= v < c.origNumVars ==> (unknownSet[v] <==> unknownSet0[v] && v !in w))
              && HasIndicators(c.varToIndic, assumed) && assumptions == Equal(c.varToIndic, assumed) && Elems(assumed) == guess
              && Marks(c.seen, c.varToIndic, c.indicToVar, guess - Elems(unknown))
              && (Unmarked(c.seen) <==> guess <= Elems(unknown))
  {
    hide *;
    status, unknownSet, guessSet := SetGuessForwardRound(c, unknown, unknownSet0, lo, hi);
    assumptions, assumed := [], [];
    if status == Finished {
      WindowListed(unknown, lo, hi);
      WindowGuessed(c, Window(unknown, lo, hi), unknown, guessSet);
      assumptions, assumed := FillAssumptionsForward(c, unknown, lo, hi, guessSet);
      CleanArray(c);
    }
  }

  lemma CleanArray(c: Common)
    ensures c.Clean() <==> Unmarked(c.seen)
  {}

  lemma WindowGuessed(c: Common, w: set<nat>, unknown: seq<nat>, guessSet: seq<bool>)
    requires c.GroupsOk() && Bounded(unknown, c.origNumVars) && w <= Elems(unknown) && |guessSet| == c.origNumVars
    requires forall v :: 0 <= v < |guessSet| ==> (guessSet[v] <==> v in c.Grouped().Closure(w))
    ensures forall v :: v in w ==> v < |guessSet| && guessSet[v]
  {
    forall v | v in w ensures v < |guessSet| && guessSet[v] { c.Grouped().UnitFacts(c.origNumVars, v); }
  }

  lemma SameElements(s: seq<nat>, r: seq<nat>, n: nat)
    requires Elems(s) == Elems(r) && Bounded(r, n)
    ensures Bounded(s, n) && forall v :: v in s <==> v in r
    ensures forall v :: v in Elems(r) ==> v < n
  {
    assert forall v :: v in s <==> v in Elems(s);
    assert forall v :: v in r <==> v in Elems(r);
    assert forall i :: 0 <= i < |s| ==> s[i] in s;
  }

  lemma WindowListed(unknown: seq<nat>, lo: nat, hi: nat)
    ensures Window(unknown, lo, hi) <= Elems(unknown)
  {}

  lemma NothingTried(t: Setting, s: seq<nat>, unknownSet: seq<bool>, tried: seq<bool>, pick: seq<nat>, assumed: seq<nat>, assumptions: seq<Lit>)
    requires |unknownSet| == |tried| == t.n && Bounded(pick, t.n) && t.s == Elems(s) && (forall v :: v in pick <==> v in s)
    requires forall v :: 0 <= v < t.n ==> !tried[v] && (unknownSet[v] <==> v in s && v !in t.w)
    requires Bounded(assumed, |t.ind|) && assumptions == Assuming(t.ind, assumed) && Elems(assumed) == t.guess
    ensures Trying(t, unknownSet, tried, pick) && Found(t, tried, [], [], assumed, assumptions)
  {
    assert Elems([]) == {} && t.guess + {} == t.guess;
  }

  method FlagAll(s: seq<nat>, n: nat) returns (flag: seq<bool>)
    requires Bounded(s, n)
    ensures |flag| == n && forall v :: 0 <= v < n ==> (flag[v] <==> v in s)
  {
    flag := seq(n, _ => false);
    for i := 0 to |s|
      invariant |flag| == n && forall v :: 0 <= v < n ==> (flag[v] <==> v in s[..i])
    {
      assert s[..i + 1] == s[..i] + [s[i]];
      flag := flag[s[i] := true];
    }
    assert s[..|s|] == s;
  }

  /** What the round leaves and returns when it may test `maxIters` times. */
  ghost predicate Outcome(t: Setting, maxIters: nat, done: bool, independent: set<nat>, result: set<nat>) {
    && ForwardResult(t, independent, result)
    && (done ==> Supports(t.f, t.guess + independent, t.s))
    && (|t.reach - t.guess| < maxIters ==> done)
    && (|t.reach - t.guess| <= maxIters ==> Supports(t.f, t.guess + independent, t.s))
    && (Ungrouped(t) ==> |independent| <= maxIters)
  }

  /** The guess window of the round: entries `group * offset` up to `group * (offset + 1)` from the back. */
  ghost function GuessWindow(s: seq<nat>, group: nat, offset: nat): set<nat> {
    Window(Reversed(s), group * offset, group * (offset + 1))
  }

  /** With offset 0, as the program calls it, these are the last `group` entries. */
  lemma GuessIsTail(s: seq<nat>, group: nat)
    ensures forall v :: v in GuessWindow(s, group, 0) <==> exists i :: 0 <= i < |s| && |s| - group <= i && s[i] == v
  {
    var r := Reversed(s);
    forall v | v in GuessWindow(s, group, 0) ensures exists i :: 0 <= i < |s| && |s| - group <= i && s[i] == v {
      var j :| 0 <= j < group && j < |r| && r[j] == v;
      assert s[|s| - 1 - j] == v;
    }
    forall v | exists i :: 0 <= i < |s| && |s| - group <= i && s[i] == v ensures v in GuessWindow(s, group, 0) {
      var i :| 0 <= i < |s| && |s| - group <= i && s[i] == v;
      assert r[|s| - 1 - i] == v;
    }
  }

  /** The setting of a round on the sampling set s with window w. */
  ghost predicate RoundSetting(t: Setting, f: Formula, g: Grouping, n: nat, s: set<nat>, w: set<nat>) {
    && t.f == f && t.g == g && t.n == n && t.s == s && t.w == w
    && t.guess == g.Closure(w) && t.reach == g.Closure(s) && SettingOk(t)
  }

  /** The forward round. `done` tells whether it ran out of candidates before `maxIters` tests; `t` records the setting it
      ran in. It gets through when its sampling set with its groups can be looked up and has indicators, and not when that
      fails for the window. */
  method ForwardRound(c: Common, maxIters: nat, group: nat, offset: nat, draws: nat -> nat)
    returns (status: Status, done: bool, ghost t: Setting, ghost independent: seq<nat>)
    requires c.Paired() && c.GroupsOk() && c.Clean() && Bounded(c.samplingSet, c.origNumVars)
    requires Inverts(c.indicToVar, c.varToIndic, |c.seen|) && Elems(c.samplingSet) <= Having(c.varToIndic)
    modifies c`samplingSet, c`otherSamplingSet, c`seen
    modifies c.solver`model, c.solver`sumConflicts, c.solver`calls, c.solver`undefs, c.solver`budget
    ensures c.Paired() && |c.seen| == old(|c.seen|)
    ensures MayEnd(status, c, c.Grouped().Closure(Elems(old(c.samplingSet))))
    ensures status == Finished ==> c.Served(c.Grouped().Closure(GuessWindow(old(c.samplingSet), group, offset)))
    ensures status == Finished ==>
              && RoundSetting(t, c.original, c.Grouped(), c.origNumVars, Elems(old(c.samplingSet)),
                              GuessWindow(old(c.samplingSet), group, offset))
              && NoDup(c.samplingSet) && Bounded(c.samplingSet, c.origNumVars)
              && Outcome(t, maxIters, done, Elems(independent), Elems(c.samplingSet))
              && c.samplingSet == ForwardList(c.Grouped(), c.origNumVars, Elems(old(c.samplingSet)),
                                             GuessWindow(old(c.samplingSet), group, offset), independent)
              && (Unmarked(c.seen) <==> t.guess <= t.s)
              && Earned(t, Elems(independent), c.solver.undefs - old(c.solver.undefs))
              && Settled(t, c.solver.calls - old(c.solver.calls), Elems(independent))
    ensures c.solver.calls <= old(c.solver.calls) + maxIters
    ensures status == Finished && !done ==> c.solver.calls == old(c.solver.calls) + maxIters
    ensures Charged(c.limits.backward, old(c.solver.undefs), old(c.solver.sumConflicts), c.solver.undefs, c.solver.sumConflicts)
  {
    WindowOrder(group, offset);
    status, done, t, independent := ForwardWindow(c, maxIters, group * offset, group * (offset + 1), draws);
  }

  method ForwardWindow(c: Common, maxIters: nat, lo: nat, hi: nat, draws: nat -> nat)
    returns (status: Status, done: bool, ghost t: Setting, ghost independent: seq<nat>)
    requires lo <= hi && c.Paired() && c.GroupsOk() && c.Clean() && Bounded(c.samplingSet, c.origNumVars)
    requires Inverts(c.indicToVar, c.varToIndic, |c.seen|) && Elems(c.samplingSet) <= Having(c.varToIndic)
    modifies c`samplingSet, c`otherSamplingSet, c`seen
    modifies c.solver`model, c.solver`sumConflicts, c.solver`calls, c.solver`undefs, c.solver`budget
    ensures c.Paired() && |c.seen| == old(|c.seen|)
    ensures MayEnd(status, c, c.Grouped().Closure(Elems(old(c.samplingSet))))
    ensures status == Finished ==> c.Served(c.Grouped().Closure(Window(Reversed(old(c.samplingSet)), lo, hi)))
    ensures status == Finished ==>
              && RoundSetting(t, c.original, c.Grouped(), c.origNumVars, Elems(old(c.samplingSet)),
                              Window(Reversed(old(c.samplingSet)), lo, hi))
              && NoDup(c.samplingSet) && Bounded(c.samplingSet, c.origNumVars)
              && Outcome(t, maxIters, done, Elems(independent), Elems(c.samplingSet))
              && c.samplingSet == ForwardList(c.Grouped(), c.origNumVars, Elems(old(c.samplingSet)),
                                             Window(Reversed(old(c.samplingSet)), lo, hi), independent)
              && (Unmarked(c.seen) <==> t.guess <= t.s)
              && Earned(t, Elems(independent), c.solver.undefs - old(c.solver.undefs))
              && Settled(t, c.solver.calls - old(c.solver.calls), Elems(independent))
    ensures c.solver.calls <= old(c.solver.calls) + maxIters
    ensures status == Finished && !done ==> c.solver.calls == old(c.solver.calls) + maxIters
    ensures Charged(c.limits.backward, old(c.solver.undefs), old(c.solver.sumConflicts), c.solver.undefs, c.solver.sumConflicts)
  {
    hide Charged, ForwardList, Settled, RoundSetting, MidForward, MayEnd, Outcome, Earned, NoDup, Having, Doubles, SettingOk, Grouping.Consistent;
    var unknownSet, guessSet, tried, pick, assumptions;
    ghost var assumed;
    done, independent := false, [];
    ChargedNothing(c.limits.backward, c.solver.undefs, c.solver.sumConflicts);
    status, unknownSet, guessSet, tried, pick, assumptions, assumed, t := StartForward(c, lo, hi, draws);
    WindowOfSet(c, Reversed(c.samplingSet), c.samplingSet, lo, hi, status);
    if status == Finished {
      ghost var s := c.samplingSet;
      SettingParts(t, c.original, c.Grouped(), c.origNumVars, Elems(s), Window(Reversed(s), lo, hi));
      status, done, independent := RunForward(c, maxIters, t, guessSet, unknownSet, tried, pick, assumptions, assumed);
      LoopMayEnd(c, t, Elems(s), Window(Reversed(s), lo, hi), status);
    }
  }

  /** What the window fails at, the sampling set with its groups fails at. */
  lemma WindowOfSet(c: Common, unknown: seq<nat>, s: seq<nat>, lo: nat, hi: nat, status: Status)
    requires unknown == Reversed(s) && MayEnd(status, c, c.Grouped().Closure(Window(unknown, lo, hi)))
    ensures status != Finished ==> MayEnd(status, c, c.Grouped().Closure(Elems(s)))
  {
    forall v | v in unknown ensures v in s {}
    WindowListed(unknown, lo, hi);
    c.Grouped().ClosureMono(Window(unknown, lo, hi), Elems(s));
  }

  /** What the loop fails at, the sampling set with its groups fails at. */
  lemma LoopMayEnd(c: Common, t: Setting, s: set<nat>, w: set<nat>, status: Status)
    requires RoundSetting(t, c.original, c.Grouped(), c.origNumVars, s, w) && t.ind == c.varToIndic && LoopEnd(status, c, t)
    ensures MayEnd(status, c, c.Grouped().Closure(s))
  {
    hide RoundSetting, SettingOk, Grouping.Closure, Grouping.Unit;
    SampledReach(t, c.original, c.Grouped(), c.origNumVars, s, w);
  }

  lemma SettingParts(t: Setting, f: Formula, g: Grouping, n: nat, s: set<nat>, w: set<nat>)
    requires RoundSetting(t, f, g, n, s, w)
    ensures t.g == g && t.n == n && t.s == s && t.w == w && t.guess == g.Closure(w)
  {}

  lemma SampledReach(t: Setting, f: Formula, g: Grouping, n: nat, s: set<nat>, w: set<nat>)
    requires RoundSetting(t, f, g, n, s, w)
    ensures t.s <= t.reach == g.Closure(s)
  {
    t.g.ClosureContains(t.n, t.s);
  }

  lemma WindowOrder(group: nat, offset: nat)
    ensures 0 <= group * offset <= group * (offset + 1)
  {}

  /** The loop and the new sampling set. */
  method RunForward(c: Common, maxIters: nat, ghost t: Setting, guessSet: seq<bool>, unknownSet0: seq<bool>, tried0: seq<bool>,
                    pick0: seq<nat>, assumptions0: seq<Lit>, ghost assumed0: seq<nat>)
    returns (status: Status, done: bool, ghost independent: seq<nat>)
    requires MidForward(c, t, guessSet, unknownSet0, tried0, pick0, [], [], assumed0, assumptions0) && HasIndicators(t.ind, assumed0)
    requires t.guess == t.g.Closure(t.w)
    modifies c`samplingSet, c`otherSamplingSet
    modifies c.solver`model, c.solver`sumConflicts, c.solver`calls, c.solver`undefs, c.solver`budget
    ensures c.Paired() && LoopEnd(status, c, t)
    ensures status == Finished ==>
              && NoDup(c.samplingSet) && Bounded(c.samplingSet, c.origNumVars)
              && Outcome(t, maxIters, done, Elems(independent), Elems(c.samplingSet)) && c.samplingSet == ForwardList(t.g, t.n, t.s, t.w, independent)
              && Earned(t, Elems(independent), c.solver.undefs - old(c.solver.undefs))
              && Settled(t, c.solver.calls - old(c.solver.calls), Elems(independent))
    ensures c.solver.calls <= old(c.solver.calls) + maxIters
    ensures status == Finished && !done ==> c.solver.calls == old(c.solver.calls) + maxIters
    ensures Charged(c.limits.backward, old(c.solver.undefs), old(c.solver.sumConflicts), c.solver.undefs, c.solver.sumConflicts)
  {
    hide *;
    done, independent := false, [];
    var unknownSet, indep, iter, tried, pick, testGroup, assumptions;
    ghost var assumed;
    status, unknownSet, indep, iter, tried, pick, testGroup, assumed, assumptions :=
      ForwardLoop(c, maxIters, t, guessSet, unknownSet0, tried0, pick0, assumptions0, assumed0);
    if status != Finished { return; }
    done := iter < maxIters;
    independent := indep;
    FinishForward(c, t, guessSet, unknownSet, tried, pick, testGroup, indep, assumed, assumptions);
    PackOutcome(t, maxIters, iter, indep, c.samplingSet);
  }

  lemma PackOutcome(t: Setting, maxIters: nat, iter: nat, indep: seq<nat>, result: seq<nat>)
    requires ForwardResult(t, Elems(indep), Elems(result)) && iter <= maxIters && iter <= |t.reach - t.guess|
    requires iter < maxIters ==> Supports(t.f, t.guess + Elems(indep), t.s)
    requires |t.reach - t.guess| <= maxIters ==> Supports(t.f, t.guess + Elems(indep), t.s)
    requires Ungrouped(t) ==> |indep| <= iter
    ensures Outcome(t, maxIters, iter < maxIters, Elems(indep), Elems(result))
  {
    hide Supports, Ungrouped, ForwardResult;
    ElemsSize(indep);
  }

  /** The loop may come to a sampling variable that the table does not reach, or to a member of a group of sampling
      variables without an indicator. */
  ghost predicate LoopEnd(status: Status, c: Common, t: Setting)
    reads c`groupIndep, c`var2varGroup
  {
    status == Finished || (status == BadTable && !c.InTable(t.s)) || (status == GroupSplit && !(t.reach <= Having(t.ind)))
  }

  /** Tests candidates until none is left or `maxIters` tests were made. */
  method ForwardLoop(c: Common, maxIters: nat, ghost t: Setting, guessSet: seq<bool>, unknownSet0: seq<bool>, tried0: seq<bool>,
                     pick0: seq<nat>, assumptions0: seq<Lit>, ghost assumed0: seq<nat>)
    returns (status: Status, unknownSet: seq<bool>, indep: seq<nat>, iter: nat, tried: seq<bool>, pick: seq<nat>,
             testGroup: seq<nat>, ghost assumed: seq<nat>, assumptions: seq<Lit>)
    requires MidForward(c, t, guessSet, unknownSet0, tried0, pick0, [], [], assumed0, assumptions0) && HasIndicators(t.ind, assumed0)
    modifies c.solver`model, c.solver`sumConflicts, c.solver`calls, c.solver`undefs, c.solver`budget
    ensures c.Paired() && LoopEnd(status, c, t) && c.solver.calls <= old(c.solver.calls) + maxIters
    ensures Charged(c.limits.backward, old(c.solver.undefs), old(c.solver.sumConflicts), c.solver.undefs, c.solver.sumConflicts)
    ensures status == Finished ==>
              && MidForward(c, t, guessSet, unknownSet, tried, pick, testGroup, indep, assumed, assumptions)
              && iter <= maxIters && (iter < maxIters ==> Supports(t.f, t.guess + Elems(indep), t.s))
              && iter <= |t.reach - t.guess|
              && (|t.reach - t.guess| <= maxIters ==> Supports(t.f, t.guess + Elems(indep), t.s))
              && c.solver.calls == old(c.solver.calls) + iter
              && (Ungrouped(t) ==> |indep| <= iter)
              && Earned(t, Elems(indep), c.solver.undefs - old(c.solver.undefs)) && Settled(t, iter, Elems(indep))
  {
    hide Charged;
    EarnedNothing(t);
    ChargedNothing(c.limits.backward, c.solver.undefs, c.solver.sumConflicts);
    unknownSet, tried, pick, assumptions, assumed := unknownSet0, tried0, pick0, assumptions0, assumed0;
    status, testGroup, indep, iter := Finished, [], [], 0;
    var exhausted, intact := false, true;
    ghost var tested: set<nat> := {};
    while iter < maxIters
      invariant iter <= maxIters && !exhausted && status == Finished
      invariant MidForward(c, t, guessSet, unknownSet, tried, pick, testGroup, indep, assumed, assumptions)
      invariant intact <==> HasIndicators(t.ind, assumed)
      invariant Tested(t, tried, testGroup, tested) && |tested| == iter
      invariant c.solver.calls == old(c.solver.calls) + iter
      invariant Ungrouped(t) ==> |indep| <= iter
      invariant Charged(c.limits.backward, old(c.solver.undefs), old(c.solver.sumConflicts), c.solver.undefs, c.solver.sumConflicts)
      invariant Earned(t, Elems(indep), c.solver.undefs - old(c.solver.undefs))
    {
      ghost var undefs, conflicts := c.solver.undefs, c.solver.sumConflicts;
      status, exhausted, unknownSet, indep, tried, pick, testGroup, assumed, assumptions, intact, tested :=
        ForwardStep(c, t, guessSet, unknownSet, tried, pick, testGroup, indep, assumptions, intact, assumed, tested,
                    c.solver.undefs - old(c.solver.undefs));
      ChargedMore(c.limits.backward, old(c.solver.undefs), old(c.solver.sumConflicts), undefs, conflicts,
                  c.solver.undefs, c.solver.sumConflicts);
      if status != Finished { return; }
      if exhausted { break; }
      iter := iter + 1;
    }
    AllSettled(t, unknownSet, tried, pick, testGroup, indep, assumed, assumptions, tested);
    TestedBound(t, unknownSet, tried, pick, testGroup, tested);
    if !exhausted && |t.reach - t.guess| <= maxIters {
      AllTested(t, unknownSet, tried, pick, testGroup, indep, assumed, assumptions, tested);
    }
  }

  /** One turn of the loop: select a variable and test it. */
  method ForwardStep(c: Common, ghost t: Setting, guessSet: seq<bool>, unknownSet0: seq<bool>, tried0: seq<bool>, pick0: seq<nat>,
                     testGroup0: seq<nat>, indep0: seq<nat>, assumptions0: seq<Lit>, intact0: bool, ghost assumed0: seq<nat>,
                     ghost tested0: set<nat>, ghost unanswered: int)
    returns (status: Status, exhausted: bool, unknownSet: seq<bool>, indep: seq<nat>, tried: seq<bool>, pick: seq<nat>,
             testGroup: seq<nat>, ghost assumed: seq<nat>, assumptions: seq<Lit>, intact: bool, ghost tested: set<nat>)
    requires MidForward(c, t, guessSet, unknownSet0, tried0, pick0, testGroup0, indep0, assumed0, assumptions0)
    requires intact0 <==> HasIndicators(t.ind, assumed0)
    requires Tested(t, tried0, testGroup0, tested0) && Earned(t, Elems(indep0), unanswered)
    modifies c.solver`model, c.solver`sumConflicts, c.solver`calls, c.solver`undefs, c.solver`budget
    ensures c.Paired() && LoopEnd(status, c, t) && c.solver.calls <= old(c.solver.calls) + 1
    ensures Charged(c.limits.backward, old(c.solver.undefs), old(c.solver.sumConflicts), c.solver.undefs, c.solver.sumConflicts)
    ensures status == Finished ==>
              && MidForward(c, t, guessSet, unknownSet, tried, pick, testGroup, indep, assumed, assumptions)
              && (intact <==> HasIndicators(t.ind, assumed))
              && Tested(t, tried, testGroup, tested)
              && (exhausted ==> tested == tested0 && indep == indep0 && Supports(t.f, t.guess + Elems(indep), t.s))
              && c.solver.calls == old(c.solver.calls) + (if exhausted then 0 else 1)
              && (!exhausted ==> |tested| == |tested0| + 1 && (Ungrouped(t) ==> |indep| <= |indep0| + 1))
              && Earned(t, Elems(indep), unanswered + c.solver.undefs - old(c.solver.undefs))
  {
    hide *;
    exhausted, indep, assumed, assumptions, intact, tested := false, indep0, assumed0, assumptions0, intact0, tested0;
    var testVar;
    ChargedNothing(c.limits.backward, c.solver.undefs, c.solver.sumConflicts);
    UnpackForward(c, t, guessSet, unknownSet0, tried0, pick0, testGroup0, indep0, assumed0, assumptions0);
    status, testVar, unknownSet, tried, pick, testGroup :=
      NextTest(c, t, unknownSet0, tried0, guessSet, pick0, testGroup0, indep, assumed, assumptions);
    StepEnd(c, t, status);
    if status != Finished { return; }
    if testVar.None? {
      exhausted := true;
      UnpackForward(c, t, guessSet, unknownSet, tried, pick, testGroup, indep, assumed, assumptions);
      ForwardSupports(t, unknownSet, tried, indep, assumed, assumptions);
    } else {
      PendingTest(t, unknownSet, tried, pick, testGroup + [testVar.value], indep, assumed, assumptions, testVar.value);
      tested := NextTested(t, tried0, testGroup0, tried, testGroup, testVar.value, tested);
      ghost var queued := testGroup;
      status, testGroup, indep, assumptions, intact, assumed :=
        StepForward(c, t, testVar.value, guessSet, unknownSet, tried, pick, testGroup, indep, assumptions, intact, assumed, unanswered);
      if status == Finished { FewerPending(t, tried, queued, testGroup, tested); }
    }
  }

  lemma UnpackForward(c: Common, t: Setting, guessSet: seq<bool>, unknownSet: seq<bool>, tried: seq<bool>,
                      pick: seq<nat>, testGroup: seq<nat>, indep: seq<nat>, assumed: seq<nat>, assumptions: seq<Lit>)
    requires MidForward(c, t, guessSet, unknownSet, tried, pick, testGroup, indep, assumed, assumptions)
    ensures SettingOk(t) && Trying(t, unknownSet, tried, pick) && Found(t, tried, testGroup, indep, assumed, assumptions)
    ensures c.Paired() && Fixed(c, t, guessSet) && |tried| == t.n && (!c.groupIndep ==> testGroup == [])
  {}

  lemma FewerPending(t: Setting, tried: seq<bool>, more: seq<nat>, fewer: seq<nat>, tested: set<nat>)
    requires Tested(t, tried, more, tested) && fewer <= more
    ensures Tested(t, tried, fewer, tested)
  {
    assert forall v :: v in fewer ==> v in more;
  }

  lemma StepEnd(c: Common, t: Setting, status: Status)
    requires status == Finished || (status == BadTable && !c.InTable(t.s))
    ensures LoopEnd(status, c, t)
  {}

  lemma PendingTest(t: Setting, unknownSet: seq<bool>, tried: seq<bool>, pick: seq<nat>, pending: seq<nat>, indep: seq<nat>,
                    assumed: seq<nat>, assumptions: seq<Lit>, v: nat)
    requires Trying(t, unknownSet, tried, pick) && Found(t, tried, pending, indep, assumed, assumptions) && v in pending
    ensures |tried| == t.n && v < t.n && tried[v] && NoDup(pending)
  {}

  ghost predicate Ungrouped(t: Setting) {
    forall v :: 0 <= v < t.n ==> t.g.Unit(v) == [v]
  }

  /** One test, keeping the loop's invariant. */
  method StepForward(c: Common, ghost t: Setting, testVar: nat, guessSet: seq<bool>, ghost unknownSet: seq<bool>,
                     ghost tried: seq<bool>, ghost pick: seq<nat>, testGroup0: seq<nat>, indep0: seq<nat>,
                     assumptions0: seq<Lit>, intact0: bool, ghost assumed0: seq<nat>, ghost unanswered: int)
    returns (status: Status, testGroup: seq<nat>, indep: seq<nat>, assumptions: seq<Lit>, intact: bool, ghost assumed: seq<nat>)
    requires Earned(t, Elems(indep0), unanswered)
    requires c.Paired() && Fixed(c, t, guessSet) && testVar < t.n && Trying(t, unknownSet, tried, pick) && TriedInTable(c, tried)
    requires !c.groupIndep ==> testGroup0 == []
    requires Found(t, tried, testGroup0 + [testVar], indep0, assumed0, assumptions0)
    requires intact0 <==> HasIndicators(t.ind, assumed0)
    modifies c.solver`model, c.solver`sumConflicts, c.solver`calls, c.solver`undefs, c.solver`budget
    ensures c.Paired() && LoopEnd(status, c, t) && c.solver.calls <= old(c.solver.calls) + 1
    ensures Charged(c.limits.backward, old(c.solver.undefs), old(c.solver.sumConflicts), c.solver.undefs, c.solver.sumConflicts)
    ensures status == Finished ==>
              && MidForward(c, t, guessSet, unknownSet, tried, pick, testGroup, indep, assumed, assumptions)
              && (intact <==> HasIndicators(t.ind, assumed))
              && testGroup <= testGroup0 && c.solver.calls == old(c.solver.calls) + 1
              && (Ungrouped(t) ==> |indep| <= |indep0| + 1)
              && Earned(t, Elems(indep), unanswered + c.solver.undefs - old(c.solver.undefs))
  {
    status, testGroup, indep, assumptions, intact, assumed :=
      TestForward(c, t, testVar, guessSet, tried, testGroup0, indep0, assumptions0, intact0, assumed0);
    if status == Finished {
      KeepEarned(t, testVar, indep0, indep, unanswered, c.solver.undefs - old(c.solver.undefs));
    }
  }

  lemma KeepEarned(t: Setting, v: nat, indep0: seq<nat>, indep: seq<nat>, unanswered: int, more: nat)
    requires Earned(t, Elems(indep0), unanswered) && (indep == indep0 || indep == indep0 + t.g.Unit(v))
    requires indep != indep0 && more == 0 ==> !Determines(t.f, t.guess + Elems(indep0), v)
    ensures Earned(t, Elems(indep), unanswered + more)
  {
    if indep == indep0 {
      EarnedMore(t, Elems(indep), unanswered, unanswered + more);
    } else {
      EarnedStep(t, Elems(indep0), unanswered, v, more == 0);
      ElemsAppend(indep0, t.g.Unit(v));
      EarnedMore(t, Elems(indep), unanswered + if more == 0 then 0 else 1, unanswered + more);
    }
  }

  /** When no candidate is left, every sampling variable is guessed, independent, or determined. */
  lemma ForwardSupports(t: Setting, unknownSet: seq<bool>, tried: seq<bool>, indep: seq<nat>, assumed: seq<nat>, assumptions: seq<Lit>)
    requires SettingOk(t) && Trying(t, unknownSet, tried, []) && Found(t, tried, [], indep, assumed, assumptions)
    ensures Supports(t.f, t.guess + Elems(indep), t.s)
  {
    forall v | v in t.s ensures Determines(t.f, t.guess + Elems(indep), v) {
      t.g.UnitFacts(t.n, v);
      if v in t.guess || v in indep { SupportsSelf(t.f, t.guess + Elems(indep), {v}); assert v in {v}; }
    }
  }

  lemma TestedBound(t: Setting, unknownSet: seq<bool>, tried: seq<bool>, pick: seq<nat>, pending: seq<nat>, tested: set<nat>)
    requires Trying(t, unknownSet, tried, pick) && Tested(t, tried, pending, tested)
    ensures |tested| <= |t.reach - t.guess| && tested <= t.reach - t.guess
  {
    SubsetSize(tested, t.reach - t.guess);
  }

  /** After as many tests as there are candidates every sampling variable is guessed, independent, or determined, even
      if the loop has not noticed that it is through. */
  lemma AllTested(t: Setting, unknownSet: seq<bool>, tried: seq<bool>, pick: seq<nat>, pending: seq<nat>, indep: seq<nat>,
                  assumed: seq<nat>, assumptions: seq<Lit>, tested: set<nat>)
    requires SettingOk(t) && Trying(t, unknownSet, tried, pick) && Found(t, tried, pending, indep, assumed, assumptions)
    requires Tested(t, tried, pending, tested) && |t.reach - t.guess| <= |tested|
    ensures Supports(t.f, t.guess + Elems(indep), t.s)
  {
    TestedBound(t, unknownSet, tried, pick, pending, tested);
    SubsetOfSize(tested, t.reach - t.guess);
    forall v | v in t.s ensures Determines(t.f, t.guess + Elems(indep), v) {
      t.g.UnitFacts(t.n, v);
      assert v in t.reach;
      assert v in t.guess || v in tested;
    }
  }

  /** As many variables as were asked about are guessed, independent, or determined. */
  ghost predicate Settled(t: Setting, tests: int, independent: set<nat>) {
    exists tested: set<nat> ::
      |tested| == tests && tested <= t.reach - t.guess && Supports(t.f, t.guess + independent, tested)
  }

  lemma AllSettled(t: Setting, unknownSet: seq<bool>, tried: seq<bool>, pick: seq<nat>, pending: seq<nat>, indep: seq<nat>,
                   assumed: seq<nat>, assumptions: seq<Lit>, tested: set<nat>)
    requires SettingOk(t) && Trying(t, unknownSet, tried, pick) && Found(t, tried, pending, indep, assumed, assumptions)
    requires Tested(t, tried, pending, tested)
    ensures Settled(t, |tested|, Elems(indep))
  {
    forall v | v in tested ensures Determines(t.f, t.guess + Elems(indep), v) {
      if v in indep { assert v in t.guess + Elems(indep); }
    }
  }

  lemma SubsetOfSize(a: set<nat>, b: set<nat>)
    requires a <= b && |b| <= |a|
    ensures a == b
  {
    assert b == a + (b - a);
  }

  /** Rebuilds the sampling set from the guess and the independent variables. */
  method FinishForward(c: Common, ghost t: Setting, guessSet: seq<bool>, unknownSet0: seq<bool>, ghost tried: seq<bool>,
                       ghost pick: seq<nat>, ghost testGroup: seq<nat>, indep: seq<nat>, ghost assumed: seq<nat>, ghost assumptions: seq<Lit>)
    requires MidForward(c, t, guessSet, unknownSet0, tried, pick, testGroup, indep, assumed, assumptions)
    requires t.guess == t.g.Closure(t.w)
    modifies c`samplingSet, c`otherSamplingSet
    ensures NoDup(c.samplingSet) && Bounded(c.samplingSet, c.origNumVars)
    ensures ForwardResult(t, Elems(indep), Elems(c.samplingSet)) && c.samplingSet == ForwardList(t.g, t.n, t.s, t.w, indep)
  {
    hide *;
    ReadyToCollect(c, t, guessSet, unknownSet0, tried, pick, testGroup, indep, assumed, assumptions);
    var unknown, unknownSet := CollectForward(c, guessSet, unknownSet0, indep, t.guess);
    GuessListed(t, guessSet, unknownSet0, indep);
    FilterAll(unknown, unknownSet);
    AppendNothing(unknown);
    c.UpdateSamplingSet(unknown, unknownSet, []);
    PackResult(t, guessSet, unknownSet0, indep, unknown);
  }

  lemma AppendNothing(s: seq<nat>)
    ensures s + [] == s
  {}

  lemma ReadyToCollect(c: Common, t: Setting, guessSet: seq<bool>, unknownSet: seq<bool>, tried: seq<bool>, pick: seq<nat>,
                       testGroup: seq<nat>, indep: seq<nat>, assumed: seq<nat>, assumptions: seq<Lit>)
    requires MidForward(c, t, guessSet, unknownSet, tried, pick, testGroup, indep, assumed, assumptions)
    ensures c.GroupsOk() && |guessSet| == |unknownSet| == c.origNumVars == t.n && c.Grouped() == t.g && SettingOk(t)
    ensures c.InTable(Elems(indep) + t.guess) && forall v :: 0 <= v < c.origNumVars ==> (guessSet[v] <==> v in t.guess)
    ensures t.g.Closed(t.guess) && forall v :: v in t.guess ==> v < c.origNumVars
    ensures forall v :: 0 <= v < c.origNumVars && guessSet[v] && t.g.var2group[v] == 0 ==> !unknownSet[v]
    ensures t.g.Closed(Elems(indep)) && forall v :: v in indep ==> v < c.origNumVars && !unknownSet[v] && v !in t.guess
    ensures forall v :: 0 <= v < t.n ==> (guessSet[v] && !unknownSet[v] <==> v in t.guess && (v in t.w || v !in t.s))
    ensures Elems(indep) !! t.guess && Elems(indep) <= t.reach
  {
    hide Marks, Inverts, Grouping.Consistent, Grouping.Unit, Doubles;
    GuessFlags(c, t, guessSet, unknownSet, tried, pick);
    IndepFlags(t, unknownSet, tried, pick, indep);
  }

  lemma PackResult(t: Setting, guessSet: seq<bool>, unknownSet: seq<bool>, indep: seq<nat>, result: seq<nat>)
    requires SettingOk(t) && |guessSet| == |unknownSet| == t.n
    requires t.g.Closed(Elems(indep)) && Elems(indep) !! t.guess && Elems(indep) <= t.reach
    requires forall v :: 0 <= v < t.n ==> (guessSet[v] && !unknownSet[v] <==> v in t.guess && (v in t.w || v !in t.s))
    requires forall v :: v in result <==> (0 <= v < t.n && guessSet[v] && !unknownSet[v]) || v in indep
    ensures ForwardResult(t, Elems(indep), Elems(result))
  {
    hide Grouping.Consistent, Grouping.Unit, Grouping.Closed;
    ResultFlags(t, guessSet, unknownSet, indep, result);
  }

  /** In the order in which the round leaves them: of the guess on s with window w, unit by unit from the smallest variable
      on, the window and what is not in s, and then the independent units as they were found. */
  ghost function ForwardList(g: Grouping, n: nat, s: set<nat>, w: set<nat>, independent: seq<nat>): seq<nat> {
    Among(Flat(g.Listing(InOrder(g.Closure(w), n))), w + (g.Closure(w) - s)) + Flat(g.Listing(independent))
  }

  lemma GuessListed(t: Setting, guessSet: seq<bool>, unknownSet: seq<bool>, indep: seq<nat>)
    requires SettingOk(t) && t.guess == t.g.Closure(t.w) && |guessSet| == |unknownSet| == t.n
    requires forall v :: 0 <= v < t.n ==> (guessSet[v] <==> v in t.guess)
    requires forall v :: 0 <= v < t.n ==> (guessSet[v] && !unknownSet[v] <==> v in t.guess && (v in t.w || v !in t.s))
    ensures var listed := Flat(t.g.Listing(InOrder(t.guess, t.n)));
            && Bounded(listed, |unknownSet|)
            && Seqs.Missing(listed, unknownSet) + Flat(t.g.Listing(indep)) == ForwardList(t.g, t.n, t.s, t.w, indep)
  {
    hide Grouping.Unit, Grouping.Consistent, Grouping.Listing, Flat, Grouping.Closed, Grouping.Closure;
    var s, listed := InOrder(t.guess, t.n), Flat(t.g.Listing(InOrder(t.guess, t.n)));
    t.g.ListingClosure(t.n, s);
    assert Elems(s) == t.guess;
    t.g.ClosureOfClosed(t.n, t.guess);
    assert forall x :: x in listed <==> x in Elems(listed);
    assert forall i :: 0 <= i < |listed| ==> listed[i] in listed;
    MissingAmong(listed, unknownSet, t.w + (t.guess - t.s));
  }

  lemma GuessFlags(c: Common, t: Setting, guessSet: seq<bool>, unknownSet: seq<bool>, tried: seq<bool>, pick: seq<nat>)
    requires Fixed(c, t, guessSet) && Trying(t, unknownSet, tried, pick)
    ensures forall v, x :: 0 <= v < t.n && guessSet[v] && x in t.g.Unit(v) ==> x < t.n && guessSet[x]
    ensures forall v :: 0 <= v < t.n && guessSet[v] && c.Grouped().var2group[v] == 0 ==> !unknownSet[v]
    ensures forall v :: 0 <= v < t.n ==> (guessSet[v] && !unknownSet[v] <==> v in t.guess && (v in t.w || v !in t.s))
  {}

  lemma IndepFlags(t: Setting, unknownSet: seq<bool>, tried: seq<bool>, pick: seq<nat>, indep: seq<nat>)
    requires Trying(t, unknownSet, tried, pick) && forall v :: v in indep ==> v < t.n && tried[v]
    ensures forall v :: v in indep ==> v < t.n && !unknownSet[v]
    ensures Elems(indep) !! t.guess && Elems(indep) <= t.reach
  {}

  lemma ResultFlags(t: Setting, guessSet: seq<bool>, unknownSet: seq<bool>, indep: seq<nat>, result: seq<nat>)
    requires |guessSet| == |unknownSet| == t.n && forall v :: v in t.guess ==> v < t.n
    requires forall v :: 0 <= v < t.n ==> (guessSet[v] && !unknownSet[v] <==> v in t.guess && (v in t.w || v !in t.s))
    requires forall v :: v in result <==> (0 <= v < t.n && guessSet[v] && !unknownSet[v]) || v in indep
    ensures forall v :: v in Elems(result) <==> (v in t.guess && (v in t.w || v !in t.s)) || v in Elems(indep)
  {}

  ghost predicate MidForward(c: Common, t: Setting, guessSet: seq<bool>, unknownSet: seq<bool>, tried: seq<bool>,
                             pick: seq<nat>, testGroup: seq<nat>, indep: seq<nat>, assumed: seq<nat>, assumptions: seq<Lit>)
    reads c, c.solver
  {
    && c.Paired() && Fixed(c, t, guessSet) && Trying(t, unknownSet, tried, pick)
    && TriedInTable(c, tried)
    && (!c.groupIndep ==> testGroup == []) && Found(t, tried, testGroup, indep, assumed, assumptions)
  }

  /** The variables that were asked about: all tried, none pending. */
  ghost predicate Tested(t: Setting, tried: seq<bool>, pending: seq<nat>, tested: set<nat>) {
    forall v :: v in tested ==> v < t.n && v < |tried| && tried[v] && v !in pending
  }

  lemma NextTested(t: Setting, tried0: seq<bool>, testGroup0: seq<nat>, tried: seq<bool>, testGroup: seq<nat>, v: nat, tested: set<nat>)
    returns (tested': set<nat>)
    requires |tried0| == |tried| == t.n && v < t.n && Tested(t, tried0, testGroup0, tested) && tried[v]
    requires NoDup(testGroup + [v])
    requires forall x :: 0 <= x < t.n && tried0[x] ==> tried[x]
    requires forall x :: x in testGroup + [v] ==> x in testGroup0 || (x < t.n && !tried0[x])
    ensures tested' == tested + {v} && v !in tested && Tested(t, tried, testGroup, tested')
  {
    tested' := tested + {v};
    var pending := testGroup + [v];
    assert v in pending;
    forall x | x in tested ensures x !in testGroup && x != v {
      assert x in testGroup ==> x in pending;
    }
    assert v !in testGroup by { assert pending[|testGroup|] == v; assert forall i :: 0 <= i < |testGroup| ==> pending[i] == testGroup[i]; }
  }

  // ---- what the result is good for ----

  /** Up to closure under groups nothing is lost: when the round completes, the groups of what it leaves
      determine every sampling variable it started from. */
  lemma ForwardClosureSupports(t: Setting, indep: set<nat>, result: set<nat>)
    requires SettingOk(t) && t.guess == t.g.Closure(t.w) && ForwardResult(t, indep, result)
    requires Supports(t.f, t.guess + indep, t.s)
    ensures Supports(t.f, t.g.Closure(result), t.s)
  {
    forall v | v in t.guess + indep ensures v in t.g.Closure(result) {
      if v in t.guess {
        var y := t.g.InClosure(t.n, t.w, v);
        t.g.UnitFacts(t.n, y);
        assert y in result;
      } else {
        t.g.UnitFacts(t.n, v);
        assert v in result;
      }
    }
    SupportsMono(t.f, t.guess + indep, t.g.Closure(result), t.s);
  }

  /** The result itself keeps groups whole exactly when the window splits none of them: every sampling
      variable that shares a unit with the window lies in the window. */
  lemma ForwardClosedIff(t: Setting, indep: set<nat>, result: set<nat>)
    requires SettingOk(t) && t.guess == t.g.Closure(t.w) && ForwardResult(t, indep, result)
    ensures t.g.Closed(result) <==> t.guess * t.s <= t.w
  {
    if t.g.Closed(result) {
      forall v | v in t.guess * t.s ensures v in t.w {
        var y := t.g.InClosure(t.n, t.w, v);
        t.g.UnitFacts(t.n, y);
        assert y in result && v in result;
      }
    }
    if t.guess * t.s <= t.w {
      forall v, x | v in result && x in t.g.Unit(v) ensures x in result {
        if v in t.guess { assert x in t.guess; } else { assert x in indep; }
      }
    }
  }

  /** Every assignment of the right length is a model. */
  ghost predicate Unconstrained(f: Formula) { forall a: Assignment :: |a| == f.n ==> Satisfies(f, a) }

  lemma FreeDetermines(f: Formula, vs: set<nat>, v: nat)
    requires Unconstrained(f) && v < f.n
    ensures Determines(f, vs, v) <==> v in vs
  {
    var a: Assignment := seq(f.n, _ => false);
    var b := a[v := true];
    if v !in vs {
      assert Satisfies(f, a) && Satisfies(f, b) && Agree(a, b, vs) && a[v] != b[v];
    }
  }

  /** The result determines the sampling set whenever the window splits no group; and on unconstrained variables only
      then, since the dropped members are not recoverable. */
  lemma ForwardResultExact(t: Setting, indep: set<nat>, result: set<nat>)
    requires SettingOk(t) && t.f.n == t.n && ForwardResult(t, indep, result) && Supports(t.f, t.guess + indep, t.s)
    ensures t.guess * t.s <= t.w ==> Supports(t.f, result, t.s)
    ensures Unconstrained(t.f) ==> (Supports(t.f, result, t.s) <==> t.guess * t.s <= t.w)
  {
    if t.guess * t.s <= t.w { assert result == t.guess + indep; }
    if Unconstrained(t.f) && Supports(t.f, result, t.s) {
      forall v | v in t.guess * t.s ensures v in t.w {
        assert Determines(t.f, result, v);
        FreeDetermines(t.f, result, v);
      }
    }
  }

  /** Two variables in one group. */
  ghost const PAIR := Grouping([1, 1], [[], [0, 1]])

  lemma PairUnits()
    ensures PAIR.Consistent(2) && PAIR.Unit(0) == [0, 1] && PAIR.Unit(1) == [0, 1]
  {
    assert PAIR.groups[1] == [0, 1];
    assert 0 in PAIR.groups[1] && 1 in PAIR.groups[1];
  }

  lemma PairClosure(w: set<nat>)
    requires 1 in w && w <= {0, 1}
    ensures PAIR.Closure(w) == {0, 1}
  {
    PairUnits();
    assert 0 in PAIR.Unit(1) && 1 in PAIR.Unit(1);
    forall v | v in PAIR.Closure(w) ensures v in {0, 1} { var y :| y in w && v in PAIR.Unit(y); }
  }

  lemma PairSetting(f: Formula, s: set<nat>, w: set<nat>)
    requires 1 in w && w <= s <= {0, 1}
    ensures SettingOk(Setting(f, PAIR, 2, [Some(4), Some(5)], s, {0, 1}, w, {0, 1}))
  {
    PairUnits();
    PairMembers();
    assert forall v :: v in s || v in w ==> v in {0, 1};
  }

  lemma PairMembers()
    ensures forall v, x :: v in {0, 1} && x in PAIR.Unit(v) ==> x in {0, 1}
    ensures PAIR.Closed({0, 1})
  {
    PairUnits();
    forall v, x | v in {0, 1} && x in PAIR.Unit(v) ensures x in {0, 1} { assert v == 0 || v == 1; }
  }

  /** Without the closure the result can lose information: two unconstrained variables in one group, a window
      of size one. */
  lemma SplitGroupLoses()
    ensures var t := Setting(Formula(2, [], []), PAIR, 2, [Some(4), Some(5)],
                             {0, 1}, {0, 1}, Window(Reversed([0, 1]), 0, 1), {0, 1});
            && SettingOk(t) && t.guess == t.g.Closure(t.w) && ForwardResult(t, {}, {1})
            && Supports(t.f, t.guess, t.s) && !Supports(t.f, {1}, t.s)
  {
    assert Reversed([0, 1])[0] == 1;
    assert Window(Reversed([0, 1]), 0, 1) == {1} by {
      WindowNext(Reversed([0, 1]), 0, 0);
      assert Window(Reversed([0, 1]), 0, 0) == {};
    }
    var f := Formula(2, [], []);
    PairClosure({1});
    PairSetting(f, {0, 1}, {1});
    assert 0 !in {1};
    ForwardResultExact(Setting(f, PAIR, 2, [Some(4), Some(5)], {0, 1}, {0, 1}, {1}, {0, 1}), {}, {1});
  }

  lemma UngroupedClosure(t: Setting, vs: set<nat>)
    requires Ungrouped(t) && forall v :: v in vs ==> v < t.n
    ensures t.g.Closure(vs) == vs
  {
    forall v ensures v in t.g.Closure(vs) <==> v in vs {
      if v in vs { assert v in t.g.Unit(v); }
    }
  }

  /** The callers ignore the return value; when the tests run out, untried variables are dropped. On ungrouped,
      unconstrained variables the result determines the sampling set exactly when there are tests enough for all
      variables outside the window. */
  lemma BudgetExact(t: Setting, maxIters: nat, done: bool, indep: set<nat>, result: set<nat>)
    requires SettingOk(t) && t.guess == t.g.Closure(t.w) && t.reach == t.g.Closure(t.s) && t.f.n == t.n
    requires Ungrouped(t) && Unconstrained(t.f) && Outcome(t, maxIters, done, indep, result)
    ensures Supports(t.f, result, t.s) <==> |t.s - t.w| <= maxIters
  {
    UngroupedClosure(t, t.w);
    UngroupedClosure(t, t.s);
    if |t.s - t.w| <= maxIters { ForwardResultExact(t, indep, result); }
    if Supports(t.f, result, t.s) {
      forall v | v in t.s - t.w ensures v in indep {
        assert Determines(t.f, result, v);
        FreeDetermines(t.f, result, v);
      }
      SubsetSize(t.s - t.w, indep);
    }
  }
}
