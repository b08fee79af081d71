/** The backward round: the minimal group independent support, computed in place. */
module Backward {
  import opened Seqs
  import opened Logic
  import opened Doubling
  import opened Sat
  import opened Groups
  import opened Minimisation
  import opened CommonState

  /** Flags are uniform on every unit: a unit is unknown as a whole or not at all. */
  ghost predicate Uniform(units: seq<seq<nat>>, flag: seq<bool>) {
    forall k, i :: 0 <= k < |units| && 0 <= i < |units[k]| && units[k][0] < |flag| && units[k][i] < |flag| ==>
      flag[units[k][i]] == flag[units[k][0]]
  }

  /** The compaction after i entries were read and j written: the written part is the filter of the read
      part, the assumptions match it, the unread part is untouched, and `added` marks only read variables. */
  ghost predicate Compacted(ind: seq<Option<nat>>, unknown0: seq<nat>, unknownSet: seq<bool>, indep: seq<nat>,
                            unknown: seq<nat>, i: nat, j: nat, assumptions: seq<Lit>, added: seq<bool>)
  {
    && |unknownSet| == |added| == |ind| && Bounded(unknown0, |ind|)
    && j <= i <= |unknown| == |unknown0|
    && unknown[i..] == unknown0[i..]
    && unknown[..j] == Filter(unknown0[..i], unknownSet)
    && HasIndicators(ind, indep + unknown[..j])
    && assumptions == Equal(ind, indep + unknown[..j])
    && (forall v :: 0 <= v < |added| && added[v] ==> v in unknown0[..i])
  }

  /** A variable that is still unknown has no indicator. */
  ghost predicate Lacking(ind: seq<Option<nat>>, unknown: seq<nat>, flag: seq<bool>) {
    exists v :: v in unknown && v < |flag| && flag[v] && v < |ind| && ind[v].None?
  }

  lemma LackingFilter(ind: seq<Option<nat>>, unknown: seq<nat>, flag: seq<bool>)
    requires Bounded(unknown, |flag|) && Lacking(ind, unknown, flag)
    ensures !(Elems(Filter(unknown, flag)) <= Having(ind))
  {
    var v :| v in unknown && v < |flag| && flag[v] && v < |ind| && ind[v].None?;
    FilterMember(unknown, flag, v);
    assert v in Elems(Filter(unknown, flag));
  }

  /** Compacts `unknown` in place and rebuilds the assumptions: the negated indicators of what is kept,
      then those of what is still unknown, in order. Stops at the assertion that a variable has an indicator exactly when
      one of these has none. */
  method FillAssumptionsBackward(c: Common, unknown0: seq<nat>, unknownSet: seq<bool>, indep: seq<nat>,
                                 ghost units: seq<seq<nat>>)
    returns (ok: bool, assumptions: seq<Lit>, unknown: seq<nat>)
    requires c.GroupsOk() && |unknownSet| == c.origNumVars && |c.varToIndic| == c.origNumVars
    requires Bounded(unknown0, c.origNumVars) && Bounded(indep, c.origNumVars) && c.InTable(Elems(unknown0))
    requires unknown0 == Flat(units) && c.Grouped().UnitList(c.origNumVars, units) && Uniform(units, unknownSet)
    ensures ok <==> Elems(indep) <= Having(c.varToIndic) && Elems(Filter(unknown0, unknownSet)) <= Having(c.varToIndic)
    ensures ok ==> unknown == Filter(unknown0, unknownSet)
    ensures ok ==> HasIndicators(c.varToIndic, indep + unknown) && assumptions == Equal(c.varToIndic, indep + unknown)
  {
    unknown := unknown0;
    ok, assumptions := AssumeKept(c, indep);
    IndicatorsOf(c.varToIndic, indep);
    if !ok { return; }
    var added := seq(c.origNumVars, _ => false);
    var i: nat, j: nat := 0, 0;
    ghost var k: nat := 0;
    assert indep + unknown[..0] == indep;
    while i < |unknown|
      invariant Compacted(c.varToIndic, unknown0, unknownSet, indep, unknown, i, j, assumptions, added)
      invariant AtUnit(unknown0, unknownSet, units, i, k)
      decreases |unknown0| - i
    {
      ok, unknown, i, j, assumptions, added, k :=
        ReadEntry(c, unknown0, unknownSet, indep, units, k, unknown, i, j, assumptions, added);
      if !ok {
        LackingFilter(c.varToIndic, unknown0, unknownSet);
        return;
      }
    }
    unknown := unknown[..j];
    assert unknown0[..i] == unknown0;
    IndicatorsOf(c.varToIndic, indep + unknown);
    ElemsAppend(indep, unknown);
    ok := true;
  }

  /** The loop body of the compaction. */
  method ReadEntry(c: Common, ghost unknown0: seq<nat>, unknownSet: seq<bool>, ghost indep: seq<nat>,
                   ghost units: seq<seq<nat>>, ghost k: nat,
                   unknown: seq<nat>, i: nat, j: nat, assumptions: seq<Lit>, added: seq<bool>)
    returns (ok: bool, unknown': seq<nat>, i': nat, j': nat, assumptions': seq<Lit>, added': seq<bool>, ghost k': nat)
    requires c.GroupsOk() && |unknownSet| == c.origNumVars && c.InTable(Elems(unknown0))
    requires unknown0 == Flat(units) && c.Grouped().UnitList(c.origNumVars, units) && Uniform(units, unknownSet)
    requires Bounded(unknown0, c.origNumVars)
    requires Compacted(c.varToIndic, unknown0, unknownSet, indep, unknown, i, j, assumptions, added)
    requires AtUnit(unknown0, unknownSet, units, i, k) && i < |unknown|
    ensures !ok ==> Lacking(c.varToIndic, unknown0, unknownSet)
    ensures ok ==> Compacted(c.varToIndic, unknown0, unknownSet, indep, unknown', i', j', assumptions', added')
    ensures ok ==> AtUnit(unknown0, unknownSet, units, i', k') && i < i'
  {
    var v := unknown[i];
    assert v == unknown[i..][0] == unknown0[i];
    if !unknownSet[v] {
      k' := AdvanceOff(c, unknown0, unknownSet, units, i, k);
      SkipEntry(c.varToIndic, unknown0, unknownSet, indep, unknown, i, j, assumptions, added);
      ok, unknown', i', j', assumptions', added' := true, unknown, i + 1, j, assumptions, added;
    } else {
      AdvanceOn(c, unknown0, unknownSet, units, i, k);
      k' := k + 1;
      ok, unknown', i', j', assumptions', added' :=
        ReadUnknown(c, unknown0, unknownSet, indep, units, k, unknown, i, j, v, assumptions, added);
    }
  }

  /** A variable that is still unknown is kept, with its group unless that was written already. */
  method ReadUnknown(c: Common, ghost unknown0: seq<nat>, ghost unknownSet: seq<bool>, ghost indep: seq<nat>,
                     ghost units: seq<seq<nat>>, ghost k: nat,
                     unknown: seq<nat>, i: nat, j: nat, v: nat, assumptions: seq<Lit>, added: seq<bool>)
    returns (ok: bool, unknown': seq<nat>, i': nat, j': nat, assumptions': seq<Lit>, added': seq<bool>)
    requires Compacted(c.varToIndic, unknown0, unknownSet, indep, unknown, i, j, assumptions, added)
    requires Uniform(units, unknownSet) && Bounded(unknown0, |unknownSet|) && NoDup(unknown0)
    requires i < |unknown| && v == unknown0[i] && unknownSet[v] && (c.groupIndep ==> v < |c.var2varGroup|) && v !in unknown0[..i]
    requires k < |units| && units[k] != [] && i + |units[k]| <= |unknown0| && unknown0[i..i + |units[k]|] == units[k]
    requires if c.groupIndep && c.var2varGroup[v] != 0
             then c.var2varGroup[v] < |c.varGroups| && units[k] == c.varGroups[c.var2varGroup[v]]
             else units[k] == [v]
    ensures !ok ==> Lacking(c.varToIndic, unknown0, unknownSet)
    ensures ok ==>
              i' == i + |units[k]| && Compacted(c.varToIndic, unknown0, unknownSet, indep, unknown', i', j', assumptions', added')
  {
    ok, unknown', i', j', assumptions', added' := true, unknown, i, j, assumptions, added;
    if c.varToIndic[v].None? { return false, unknown', i', j', assumptions', added'; }
    if c.groupIndep && c.InVariableGroup(v) {
      assert !added[v];
      if !added[v] {
        ok, unknown', i', j', assumptions', added' :=
          KeepGroup(c, unknown0, unknownSet, indep, units, k, unknown, i, j, assumptions, added);
        if !ok { return; }
        i' := i' - 1;
      }
      i' := i' + 1;
    } else {
      unknown', j', assumptions' := KeepEntry(c, unknown0, unknownSet, indep, unknown, i, j, v, assumptions, added);
      i' := i + 1;
    }
  }

  lemma UniformUnit(s: seq<nat>, flag: seq<bool>, units: seq<seq<nat>>, k: nat, i: nat)
    requires Uniform(units, flag) && k < |units| && units[k] != [] && i + |units[k]| <= |s| && Bounded(s, |flag|)
    requires s[i..i + |units[k]|] == units[k] && flag[s[i]]
    ensures forall m :: 0 <= m < |units[k]| ==> units[k][m] < |flag| && flag[units[k][m]]
  {}

  method AssumeKept(c: Common, indep: seq<nat>) returns (ok: bool, assumptions: seq<Lit>)
    requires Bounded(indep, |c.varToIndic|)
    ensures ok <==> HasIndicators(c.varToIndic, indep)
    ensures ok ==> assumptions == Equal(c.varToIndic, indep)
  {
    assumptions := [];
    for p := 0 to |indep|
      invariant HasIndicators(c.varToIndic, indep[..p]) && assumptions == Equal(c.varToIndic, indep[..p])
    {
      if c.varToIndic[indep[p]].None? { return false, assumptions; }
      assumptions := assumptions + [Lit(c.varToIndic[indep[p]].value, true)];
    }
    assert indep[..|indep|] == indep;
    ok := true;
  }

  /** One write of the compaction and the assumption that goes with it. */
  method KeepEntry(c: Common, ghost unknown0: seq<nat>, ghost unknownSet: seq<bool>, ghost indep: seq<nat>,
                   unknown: seq<nat>, ghost i: nat, j: nat, v: nat, assumptions: seq<Lit>, ghost added: seq<bool>)
    returns (unknown': seq<nat>, j': nat, assumptions': seq<Lit>)
    requires Compacted(c.varToIndic, unknown0, unknownSet, indep, unknown, i, j, assumptions, added)
    requires i < |unknown0| && unknownSet[unknown0[i]] && v == unknown0[i] && c.varToIndic[v].Some?
    ensures j' == j + 1 && Compacted(c.varToIndic, unknown0, unknownSet, indep, unknown', i + 1, j', assumptions', added)
  {
    FilterStep(unknown0, unknownSet, i);
    unknown' := unknown[j := v];
    j' := j + 1;
    assert unknown'[..j'] == unknown[..j] + [v];
    assert indep + unknown'[..j'] == (indep + unknown[..j]) + [v];
    assumptions' := assumptions + [Lit(c.varToIndic[v].value, true)];
    assert unknown0[..i + 1] == unknown0[..i] + [v];
    assert unknown'[i + 1..] == unknown[i..][1..] && unknown0[i + 1..] == unknown0[i..][1..];
  }

  lemma SkipEntry(ind: seq<Option<nat>>, unknown0: seq<nat>, unknownSet: seq<bool>, indep: seq<nat>,
                  unknown: seq<nat>, i: nat, j: nat, assumptions: seq<Lit>, added: seq<bool>)
    requires Compacted(ind, unknown0, unknownSet, indep, unknown, i, j, assumptions, added)
    requires i < |unknown0| && !unknownSet[unknown0[i]]
    ensures Compacted(ind, unknown0, unknownSet, indep, unknown, i + 1, j, assumptions, added)
  {
    FilterStep(unknown0, unknownSet, i);
    assert unknown0[..i + 1] == unknown0[..i] + [unknown0[i]];
    assert unknown[i + 1..] == unknown[i..][1..] && unknown0[i + 1..] == unknown0[i..][1..];
  }

  /** Writes a whole group, reading on by as many entries. */
  method KeepGroup(c: Common, ghost unknown0: seq<nat>, ghost unknownSet: seq<bool>, ghost indep: seq<nat>,
                   ghost units: seq<seq<nat>>, ghost k: nat,
                   unknown0': seq<nat>, i0: nat, j0: nat, assumptions0: seq<Lit>, added0: seq<bool>)
    returns (ok: bool, unknown: seq<nat>, i: nat, j: nat, assumptions: seq<Lit>, added: seq<bool>)
    requires Compacted(c.varToIndic, unknown0, unknownSet, indep, unknown0', i0, j0, assumptions0, added0)
    requires k < |units| && units[k] != [] && i0 + |units[k]| <= |unknown0| && unknown0[i0..i0 + |units[k]|] == units[k]
    requires Uniform(units, unknownSet) && Bounded(unknown0, |unknownSet|) && NoDup(unknown0) && unknownSet[unknown0[i0]]
    requires unknown0[i0] < |c.var2varGroup|
    requires c.var2varGroup[unknown0[i0]] < |c.varGroups| && units[k] == c.varGroups[c.var2varGroup[unknown0[i0]]]
    ensures !ok ==> Lacking(c.varToIndic, unknown0, unknownSet)
    ensures ok ==>
              i == i0 + |units[k]| && Compacted(c.varToIndic, unknown0, unknownSet, indep, unknown, i, j, assumptions, added)
  {
    unknown, i, j, assumptions, added := unknown0', i0, j0, assumptions0, added0;
    ghost var unit := units[k];
    UniformUnit(unknown0, unknownSet, units, k, i0);
    assert unknown[i] == unknown0[i];
    var group := c.varGroups[c.var2varGroup[unknown[i]]];
    for m := 0 to |group|
      invariant i == i0 + m
      invariant Compacted(c.varToIndic, unknown0, unknownSet, indep, unknown, i, j, assumptions, added)
    {
      var grpVar := group[m];
      assert unknown0[i0..i0 + |unit|][m] == unknown0[i];
      assert unknown[i] == grpVar;
      if c.varToIndic[grpVar].None? { return false, unknown, i, j, assumptions, added; }
      NotBefore(unknown0, i);
      assert !added[grpVar];
      unknown, j, assumptions := KeepEntry(c, unknown0, unknownSet, indep, unknown, i, j, grpVar, assumptions, added);
      added := added[grpVar := true];
      assert unknown0[..i + 1][i] == grpVar;
      i := i + 1;
    }
    ok := true;
  }

  /** units[..k] have been entered; the entries from i to the end of the last of them are switched off. */
  ghost predicate AtUnit(s: seq<nat>, flag: seq<bool>, units: seq<seq<nat>>, i: nat, k: nat) {
    && k <= |units| && i <= |Flat(units[..k])| <= |s|
    && (forall p :: i <= p < |Flat(units[..k])| ==> s[p] < |flag| && !flag[s[p]])
  }

  /** A switched-off entry is passed by itself. */
  lemma AdvanceOff(c: Common, s: seq<nat>, flag: seq<bool>, units: seq<seq<nat>>, i: nat, k: nat) returns (k': nat)
    requires c.GroupsOk() && s == Flat(units) && c.Grouped().UnitList(c.origNumVars, units) && Uniform(units, flag)
    requires |flag| == c.origNumVars && Bounded(s, |flag|)
    requires AtUnit(s, flag, units, i, k) && i < |s| && !flag[s[i]]
    ensures AtUnit(s, flag, units, i + 1, k')
  {
    hide Grouping.UnitList, Flat;
    k' := k;
    if i == |Flat(units[..k])| {
      EnterUnit(c, s, units, k, i);
      EntryFlags(s, flag, units[k], i);
      assert forall m :: 0 <= m < |units[k]| ==> !flag[units[k][m]];
      k' := k + 1;
    }
  }

  /** A switched-on entry starts a whole unit. */
  lemma AdvanceOn(c: Common, s: seq<nat>, flag: seq<bool>, units: seq<seq<nat>>, i: nat, k: nat)
    requires c.GroupsOk() && c.InTable(Elems(s)) && s == Flat(units) && c.Grouped().UnitList(c.origNumVars, units)
    requires |flag| == c.origNumVars && Bounded(s, |flag|)
    requires AtUnit(s, flag, units, i, k) && i < |s| && flag[s[i]]
    ensures i == |Flat(units[..k])| && k < |units| && s[i] !in s[..i]
    ensures i + |units[k]| <= |s| && s[i..i + |units[k]|] == units[k] && units[k] != [] && s[i] == units[k][0]
    ensures AtUnit(s, flag, units, i + |units[k]|, k + 1)
    ensures c.groupIndep ==> s[i] < |c.var2varGroup|
    ensures if c.groupIndep && c.var2varGroup[s[i]] != 0
            then c.var2varGroup[s[i]] < |c.varGroups| && units[k] == c.varGroups[c.var2varGroup[s[i]]]
            else units[k] == [s[i]]
  {
    EnterUnit(c, s, units, k, i);
    assert s[i] in Elems(s);
    c.Lookup(s[i]);
    NotBefore(s, i);
  }

  lemma EnterUnit(c: Common, s: seq<nat>, units: seq<seq<nat>>, k: nat, i: nat)
    requires c.GroupsOk() && s == Flat(units) && c.Grouped().UnitList(c.origNumVars, units)
    requires k <= |units| && i == |Flat(units[..k])| < |s|
    ensures k < |units| && i + |units[k]| <= |s| && s[i..i + |units[k]|] == units[k]
    ensures units[k] != [] && s[i] == units[k][0] && s[i] < c.origNumVars
    ensures |Flat(units[..k + 1])| == i + |units[k]|
    ensures units[k] == c.Grouped().Unit(s[i])
  {
    hide NoDup, Grouping.Consistent, Grouping.Unit;
    assert k < |units| by { assert units[..|units|] == units; }
    FlatBlock(units, k);
    assert s[i..i + |units[k]|][0] == s[i];
  }

  lemma EntryFlags(s: seq<nat>, flag: seq<bool>, unit: seq<nat>, i: nat)
    requires i + |unit| <= |s| && s[i..i + |unit|] == unit && Bounded(s, |flag|)
    ensures forall m :: 0 <= m < |unit| ==> unit[m] == s[i + m] && unit[m] < |flag|
    ensures (forall m :: 0 <= m < |unit| ==> !flag[unit[m]]) ==> forall p :: i <= p < i + |unit| ==> !flag[s[p]]
  {}

  lemma NotBefore(s: seq<nat>, i: nat)
    requires NoDup(s) && i < |s|
    ensures s[i] !in s[..i]
  {}

  /** How reading the sampling set ends: at a variable that the table does not reach, at a variable outside the groups
      that was read before, or at its end. */
  ghost function Collecting(g: Grouping, grouped: bool, table: seq<nat>, s: seq<nat>): (r: Status)
    ensures r == Finished || r == BadTable || r == Repeated
  {
    if s == [] then Finished
    else
      var front, x := s[..|s| - 1], s[|s| - 1];
      var before := Collecting(g, grouped, table, front);
      if before != Finished then before
      else if grouped && x >= |table| then BadTable
      else if x < |g.var2group| && g.var2group[x] == 0 && x in front then Repeated
      else Finished
  }

  lemma CollectingNext(g: Grouping, grouped: bool, table: seq<nat>, s: seq<nat>, i: nat)
    requires i < |s| && Collecting(g, grouped, table, s[..i]) == Finished
    ensures Collecting(g, grouped, table, s[..i + 1]) ==
              if grouped && s[i] >= |table| then BadTable
              else if s[i] < |g.var2group| && g.var2group[s[i]] == 0 && s[i] in s[..i] then Repeated
              else Finished
  {
    assert s[..i + 1][..i] == s[..i];
  }

  lemma {:induction false} CollectingStops(g: Grouping, grouped: bool, table: seq<nat>, s: seq<nat>, i: nat)
    requires i <= |s| && Collecting(g, grouped, table, s[..i]) != Finished
    ensures Collecting(g, grouped, table, s) == Collecting(g, grouped, table, s[..i])
    decreases |s|
  {
    if i == |s| {
      assert s[..i] == s;
    } else {
      assert s[..|s| - 1][..i] == s[..i];
      CollectingStops(g, grouped, table, s[..|s| - 1], i);
    }
  }

  /** A table that reaches all of a sampling set without repetition is read to the end. */
  lemma {:induction false} CollectingAll(g: Grouping, grouped: bool, table: seq<nat>, s: seq<nat>)
    requires NoDup(s) && (grouped ==> forall v :: v in s ==> v < |table|)
    ensures Collecting(g, grouped, table, s) == Finished
  {
    if s != [] {
      var k := |s| - 1;
      assert forall v :: v in s[..k] ==> v in s;
      CollectingAll(g, grouped, table, s[..k]);
      assert s[k] in s && s[k] !in s[..k];
    }
  }

  /** `unknown` lists whole units once each, and the flags tell what is in it. */
  ghost predicate Listed(g: Grouping, n: nat, unknown: seq<nat>, flag: seq<bool>, units: seq<seq<nat>>) {
    && unknown == Flat(units) && g.UnitList(n, units)
    && |flag| == n && forall v :: 0 <= v < n ==> (flag[v] <==> v in unknown)
  }

  /** The candidates: every sampling variable, with the rest of its group. */
  method CollectUnknown(c: Common) returns (status: Status, unknown: seq<nat>, unknownSet: seq<bool>, ghost units: seq<seq<nat>>)
    requires c.GroupsOk() && Bounded(c.samplingSet, c.origNumVars)
    ensures status == Collecting(c.Grouped(), c.groupIndep, c.var2varGroup, c.samplingSet)
    ensures status == Finished ==> Listed(c.Grouped(), c.origNumVars, unknown, unknownSet, units)
    ensures status == Finished ==> units == c.Grouped().Listing(c.samplingSet) && c.InTable(Elems(c.samplingSet))
    ensures status == Finished ==> Elems(unknown) == c.Grouped().Closure(Elems(c.samplingSet))
  {
    hide Grouping.Consistent, Listed, Grouping.Closure, Grouping.Unit, Collecting;
    var n := c.origNumVars;
    ghost var g, s := c.Grouped(), c.samplingSet;
    unknown, unknownSet, units := [], seq(n, _ => false), [];
    NothingListed(g, c.groupIndep, c.var2varGroup, s, unknownSet);
    for i := 0 to |c.samplingSet|
      invariant Collecting(g, c.groupIndep, c.var2varGroup, s[..i]) == Finished && c.InTable(Elems(s[..i]))
      invariant Listed(g, n, unknown, unknownSet, units) && units == g.Listing(s[..i])
      invariant Elems(unknown) == g.Closure(Elems(s[..i]))
    {
      var x := c.samplingSet[i];
      CollectingNext(g, c.groupIndep, c.var2varGroup, s, i);
      status := if c.groupIndep && x >= |c.var2varGroup| then BadTable else Finished;
      if status == Finished {
        EntryFacts(c, s, i, unknown, unknownSet, units);
        if c.groupIndep && c.InVariableGroup(x) {
          unknown, unknownSet, units := AddGroup(g, n, x, c.varGroups[c.GetGroupIdx(x)], unknown, unknownSet, units);
        } else if unknownSet[x] {
          status := Repeated;
        } else {
          unknown, unknownSet, units := AddSingle(g, n, x, unknown, unknownSet, units);
        }
      }
      if status != Finished {
        CollectingStops(g, c.groupIndep, c.var2varGroup, s, i + 1);
        return;
      }
    }
    assert s[..|s|] == s;
    status := Finished;
  }

  /** What is known when a sampling variable is looked up. */
  lemma EntryFacts(c: Common, s: seq<nat>, i: nat, unknown: seq<nat>, flag: seq<bool>, units: seq<seq<nat>>)
    requires c.GroupsOk() && Bounded(s, c.origNumVars) && i < |s| && c.InTable(Elems(s[..i])) && (c.groupIndep ==> s[i] < |c.var2varGroup|)
    requires Listed(c.Grouped(), c.origNumVars, unknown, flag, units) && units == c.Grouped().Listing(s[..i])
    requires Elems(unknown) == c.Grouped().Closure(Elems(s[..i]))
    ensures var g, x := c.Grouped(), s[i];
            && x < |flag| && (flag[x] <==> x in unknown) && g.Consistent(c.origNumVars) && |g.var2group| >= c.origNumVars
            && c.InTable(Elems(s[..i + 1])) && g.Closure(Elems(s[..i + 1])) == Elems(unknown) + Elems(g.Unit(x))
            && g.Listing(s[..i + 1]) == (if x in unknown then units else units + [g.Unit(x)])
            && (if c.groupIndep && c.var2varGroup[x] != 0
                then c.var2varGroup[x] < |c.varGroups| && c.varGroups[c.var2varGroup[x]] == g.Unit(x) && g.var2group[x] != 0
                else g.Unit(x) == [x] && g.var2group[x] == 0 && (x in unknown <==> x in s[..i]))
  {
    hide Grouping.Closure, Flat, Grouping.Unit, NoDup;
    var g, x := c.Grouped(), s[i];
    assert s[..i + 1] == s[..i] + [x];
    ElemsAppend(s[..i], [x]);
    ClosureNext(g, c.origNumVars, s, i);
    c.Lookup(x);
    if !(c.groupIndep && c.var2varGroup[x] != 0) { SingleListed(g, c.origNumVars, s, i, unknown); }
  }

  lemma NothingListed(g: Grouping, grouped: bool, table: seq<nat>, s: seq<nat>, flag: seq<bool>)
    requires forall v :: 0 <= v < |flag| ==> !flag[v]
    ensures Listed(g, |flag|, [], flag, []) && Elems([]) == g.Closure(Elems(s[..0])) && g.Listing(s[..0]) == []
    ensures Collecting(g, grouped, table, s[..0]) == Finished
  {}

  /** Lists a variable outside the groups. */
  method AddSingle(ghost g: Grouping, ghost n: nat, x: nat, unknown0: seq<nat>, unknownSet0: seq<bool>, ghost units0: seq<seq<nat>>)
    returns (unknown: seq<nat>, unknownSet: seq<bool>, ghost units: seq<seq<nat>>)
    requires g.Consistent(n) && x < n && g.Unit(x) == [x] && x !in unknown0 && Listed(g, n, unknown0, unknownSet0, units0)
    ensures Listed(g, n, unknown, unknownSet, units) && units == units0 + [g.Unit(x)]
    ensures Elems(unknown) == Elems(unknown0) + Elems(g.Unit(x))
  {
    hide Grouping.Consistent, Grouping.UnitList;
    units := AppendUnit(g, n, units0, [x]);
    unknown, unknownSet := unknown0 + [x], unknownSet0[x := true];
    ElemsAppend(unknown0, [x]);
  }

  /** Lists the members of a group that are not listed yet: all of them or none. */
  method AddGroup(ghost g: Grouping, ghost n: nat, ghost x: nat, group: seq<nat>,
                  unknown0: seq<nat>, unknownSet0: seq<bool>, ghost units0: seq<seq<nat>>)
    returns (unknown: seq<nat>, unknownSet: seq<bool>, ghost units: seq<seq<nat>>)
    requires g.Consistent(n) && x < n && group == g.Unit(x) && Listed(g, n, unknown0, unknownSet0, units0)
    ensures Listed(g, n, unknown, unknownSet, units) && units == (if x in unknown0 then units0 else units0 + [g.Unit(x)])
    ensures Elems(unknown) == Elems(unknown0) + Elems(g.Unit(x))
  {
    g.UnitFacts(n, x);
    g.UnitListBounded(n, units0);
    GroupPresence(g, n, unknown0, x);
    unknown, unknownSet := PushMissing(group, unknown0, unknownSet0);
    units := AddedUnit(g, n, x, unknown0, unknownSet0, units0);
    ListedFlags(unknown0, unknownSet0, group, unknown, unknownSet);
  }

  /** All members of the unit are new, or none is. */
  lemma AddedUnit(g: Grouping, n: nat, x: nat, unknown0: seq<nat>, unknownSet0: seq<bool>, units0: seq<seq<nat>>)
    returns (units: seq<seq<nat>>)
    requires g.Consistent(n) && x < n && Bounded(g.Unit(x), n) && Listed(g, n, unknown0, unknownSet0, units0)
    requires forall w :: w in g.Unit(x) ==> (w in unknown0 <==> x in unknown0)
    ensures Flat(units) == unknown0 + Missing(g.Unit(x), unknownSet0) && g.UnitList(n, units)
    ensures units == if x in unknown0 then units0 else units0 + [g.Unit(x)]
  {
    var u := g.Unit(x);
    MissingAll(u, unknownSet0);
    assert forall w :: w in u ==> (unknownSet0[w] <==> x in unknown0);
    units := units0;
    if x in unknown0 {
      assert Missing(u, unknownSet0) == [];
    } else {
      g.UnitFacts(n, x);
      units := AppendUnit(g, n, units0, u);
    }
  }

  lemma ListedFlags(unknown0: seq<nat>, unknownSet0: seq<bool>, group: seq<nat>, unknown: seq<nat>, unknownSet: seq<bool>)
    requires Bounded(group, |unknownSet0|) && |unknownSet| == |unknownSet0| && unknown == unknown0 + Missing(group, unknownSet0)
    requires forall v :: 0 <= v < |unknownSet0| ==> (unknownSet0[v] <==> v in unknown0)
    requires forall v :: 0 <= v < |unknownSet| ==> (unknownSet[v] <==> unknownSet0[v] || v in group)
    ensures forall v :: 0 <= v < |unknownSet| ==> (unknownSet[v] <==> v in unknown)
    ensures Elems(unknown) == Elems(unknown0) + Elems(group)
  {
    forall v: nat | true ensures v in unknown <==> v in unknown0 || v in group {
      MissingMember(group, unknownSet0, v);
      if v in group { assert v < |unknownSet0|; }
    }
  }

  lemma ClosureNext(g: Grouping, n: nat, s: seq<nat>, i: nat)
    requires g.Consistent(n) && i < |s| && s[i] < n
    ensures g.Closure(Elems(s[..i + 1])) == g.Closure(Elems(s[..i])) + Elems(g.Unit(s[i]))
  {
    assert s[..i + 1] == s[..i] + [s[i]];
    assert Elems(s[..i + 1]) == Elems(s[..i]) + {s[i]};
  }

  /** A closed list holds a whole unit or none of it. */
  lemma GroupPresence(g: Grouping, n: nat, unknown: seq<nat>, x: nat)
    requires g.Consistent(n) && x < n && g.Closed(Elems(unknown))
    ensures forall w :: w in g.Unit(x) ==> (w in unknown <==> x in unknown)
  {
    g.UnitFacts(n, x);
    forall w: nat | w in g.Unit(x) ensures w in unknown <==> x in unknown {
      assert x in g.Unit(w);
      assert w in unknown <==> w in Elems(unknown);
      assert x in unknown <==> x in Elems(unknown);
    }
  }

  /** A variable outside the groups is listed exactly when it was read before. */
  lemma SingleListed(g: Grouping, n: nat, s: seq<nat>, i: nat, unknown: seq<nat>)
    requires g.Consistent(n) && Bounded(s, n) && i < |s| && g.var2group[s[i]] == 0
    requires Elems(unknown) == g.Closure(Elems(s[..i]))
    ensures g.Unit(s[i]) == [s[i]] && (s[i] in unknown <==> s[i] in s[..i])
  {
    var x := s[i];
    assert x in unknown <==> x in Elems(unknown);
    if x in s[..i] { assert x in g.Unit(x) && x in Elems(s[..i]); }
    if x in unknown {
      var v :| v in Elems(s[..i]) && x in g.Unit(v);
      var j :| 0 <= j < i && s[j] == v;
      g.UnitFacts(n, v);
      assert v in g.Unit(x);
    }
  }

  lemma AppendUnit(g: Grouping, n: nat, units: seq<seq<nat>>, u: seq<nat>) returns (units': seq<seq<nat>>)
    requires g.Consistent(n) && g.UnitList(n, units) && g.IsUnit(n, u) && u[0] !in Flat(units)
    ensures units' == units + [u] && g.UnitList(n, units') && Flat(units') == Flat(units) + u
  {
    units' := units + [u];
    FlatAppend(units, u);
    g.UnitListBounded(n, units);
    GroupPresence(g, n, Flat(units), u[0]);
    g.UnitFacts(n, u[0]);
    forall i, j | 0 <= i < |Flat(units)| && 0 <= j < |u| ensures Flat(units)[i] != u[j] {
      assert u[j] in u && Flat(units)[i] in Flat(units);
    }
  }

  /** What looking up the group of v comes to where the mode is not asked for. */
  function LookedUp(grouped: bool, table: seq<nat>, v: nat): Status {
    if v >= |table| then BadTable else if !grouped && table[v] != 0 then Mixed else Finished
  }

  /** Takes the last candidate off `unknown`, with the rest of its group. */
  method PopUnit(c: Common, unknown0: seq<nat>, unknownSet0: seq<bool>, ghost units: seq<seq<nat>>)
    returns (status: Status, testVar: Option<nat>, unknown: seq<nat>, unknownSet: seq<bool>)
    requires c.GroupsOk() && Listed(c.Grouped(), c.origNumVars, unknown0, unknownSet0, units) && c.InTable(Elems(unknown0))
    ensures status == if unknown0 == [] then Finished else LookedUp(c.groupIndep, c.var2varGroup, unknown0[|unknown0| - 1])
    ensures status == Finished ==> (testVar.None? <==> units == [])
    ensures status == Finished && testVar.None? ==> unknown == unknown0 && unknownSet == unknownSet0
    ensures status == Finished && testVar.Some? ==>
              && unknown == Flat(units[..|units| - 1]) && c.Readable({testVar.value})
              && testVar.value in units[|units| - 1] && testVar.value !in unknown
              && |unknownSet| == |unknownSet0|
              && forall v :: 0 <= v < |unknownSet| ==> (unknownSet[v] <==> v in unknown || v == testVar.value)
  {
    status, testVar, unknown, unknownSet := Finished, None, unknown0, unknownSet0;
    // The program's loop also passes over candidates that are switched off; here no candidate is.
    if unknown != [] {
      var v := unknown[|unknown| - 1];
      unknown := unknown[..|unknown| - 1];
      SplitLast(unknown0, |unknown0| - 1);
      c.Grouped().UnitListBounded(c.origNumVars, units);
      assert unknownSet[v];
      testVar := Some(v);
      status := LookedUp(c.groupIndep, c.var2varGroup, v);
      if status != Finished { return; }
      ghost var u := units[|units| - 1];
      LastUnit(c, units, v);
      if c.GetGroupIdx(v) != 0 {
        unknown, unknownSet := PopGroup(c, unknown0, u, v, unknown, unknownSet);
      }
    }
  }

  /** Takes off the other members of the group of v, which lie right before it. */
  method PopGroup(c: Common, ghost full: seq<nat>, ghost u: seq<nat>, v: nat, unknown0: seq<nat>, unknownSet0: seq<bool>)
    returns (unknown: seq<nat>, unknownSet: seq<bool>)
    requires v < |c.var2varGroup| && c.var2varGroup[v] < |c.varGroups| && u == c.varGroups[c.var2varGroup[v]]
    requires NoDup(full) && Bounded(full, |unknownSet0|) && 0 < |u| <= |full| && full[|full| - |u|..] == u
    requires unknown0 == full[..|full| - 1] && v == full[|full| - 1]
    requires forall w :: w in u ==> w < |c.var2varGroup| && c.var2varGroup[w] == c.var2varGroup[v]
    requires forall w :: 0 <= w < |unknownSet0| ==> (unknownSet0[w] <==> w in full)
    ensures unknown == full[..|full| - |u|] && |unknownSet| == |unknownSet0|
    ensures forall w :: 0 <= w < |unknownSet| ==> (unknownSet[w] <==> w in unknown || w == v)
  {
    unknown, unknownSet := unknown0, unknownSet0;
    SplitLast(full, |full| - 1);
    assert full[..|full|] == full;
    for i := 1 to |c.varGroups[c.GetGroupIdx(v)]|
      invariant unknown == full[..|full| - i]
      invariant |unknownSet| == |unknownSet0|
      invariant forall w :: 0 <= w < |unknownSet| ==> (unknownSet[w] <==> w in unknown || w == v)
    {
      var v2 := unknown[|unknown| - 1];
      SplitLast(full, |unknown| - 1);
      assert v2 == full[|full| - |u|..][|u| - i - 1] && v2 in u;
      assert c.GetGroupIdx(v2) == c.GetGroupIdx(v) && unknownSet[v2];
      unknownSet := unknownSet[v2 := false];
      unknown := unknown[..|unknown| - 1];
    }
  }

  lemma LastUnit(c: Common, units: seq<seq<nat>>, v: nat)
    requires c.GroupsOk() && c.Grouped().UnitList(c.origNumVars, units) && c.InTable(Elems(Flat(units)))
    requires Flat(units) != [] && v == Flat(units)[|Flat(units)| - 1] && c.Readable({v})
    ensures units != [] && v < c.origNumVars && v < |c.var2varGroup|
    ensures var u := units[|units| - 1];
            && u != [] && Flat(units) == Flat(units[..|units| - 1]) + u && v == u[|u| - 1]
            && (forall w :: w in u ==> w < |c.var2varGroup| && c.var2varGroup[w] == c.var2varGroup[v])
            && (if c.var2varGroup[v] == 0 then u == [v]
                else c.var2varGroup[v] < |c.varGroups| && u == c.varGroups[c.var2varGroup[v]])
  {
    var g, n, u := c.Grouped(), c.origNumVars, units[|units| - 1];
    assert Flat(units) == Flat(units[..|units| - 1]) + u;
    g.UnitFacts(n, u[0]);
    assert v == u[|u| - 1] && v in u && v in Elems(Flat(units));
    c.LookupAnyway(v);
    g.UnitFacts(n, v);
    forall w | w in u ensures w < |c.var2varGroup| && c.var2varGroup[w] == c.var2varGroup[v] {
      assert w in Elems(Flat(units)) && w in g.Unit(v) && w < n;
      c.LookupAnyway(w);
      SameGroup(g, n, v, w);
    }
  }

  lemma SameGroup(g: Grouping, n: nat, v: nat, w: nat)
    requires g.Consistent(n) && v < n && w < n && w in g.Unit(v)
    ensures g.var2group[w] == g.var2group[v]
  {
    g.UnitFacts(n, v);
    if g.var2group[v] != 0 { assert w in g.groups[g.var2group[v]]; }
  }

  lemma SplitLast(s: seq<nat>, k: nat)
    requires NoDup(s) && k < |s|
    ensures s[k] !in s[..k] && forall w :: w in s[..k + 1] <==> w in s[..k] || w == s[k]
  {}

  /** Asks, member by member, whether the assumed variables determine the tested unit; stops at the first
      member for which the answer is not False. */
  method TestUnit(c: Common, assumptions0: seq<Lit>, testVar: nat, ghost assumed: seq<nat>) returns (ret: LBool)
    requires c.Paired() && c.GroupsOk() && testVar < c.origNumVars && c.Readable({testVar})
    requires HasIndicators(c.varToIndic, assumed) && assumptions0 == Equal(c.varToIndic, assumed)
    modifies c.solver`model, c.solver`sumConflicts, c.solver`calls, c.solver`undefs, c.solver`budget
    ensures c.Paired()
    ensures ret == False ==> Supports(c.original, Elems(assumed), Elems(c.Grouped().Unit(testVar)))
    ensures ret == True ==> !Supports(c.original, Elems(assumed), Elems(c.Grouped().Unit(testVar)))
    ensures c.solver.calls <= old(c.solver.calls) + |c.Grouped().Unit(testVar)|
    ensures c.solver.undefs == old(c.solver.undefs) + if ret == Undef then 1 else 0
    ensures Charged(c.limits.backward, old(c.solver.undefs), old(c.solver.sumConflicts), c.solver.undefs, c.solver.sumConflicts)
  {
    ghost var unit := c.Grouped().Unit(testVar);
    c.LookupAnyway(testVar);
    c.Grouped().UnitFacts(c.origNumVars, testVar);
    if c.GetGroupIdx(testVar) != 0 {
      ret := TestGroup(c, assumptions0, c.varGroups[c.GetGroupIdx(testVar)], assumed);
    } else {
      var assumptions;
      ret, assumptions := c.Ask(assumptions0, testVar, assumed);
      assert forall w :: w in Elems(unit) ==> w == testVar;
    }
  }

  method TestGroup(c: Common, assumptions0: seq<Lit>, group: seq<nat>, ghost assumed: seq<nat>) returns (ret: LBool)
    requires c.Paired() && Bounded(group, c.origNumVars) && group != []
    requires HasIndicators(c.varToIndic, assumed) && assumptions0 == Equal(c.varToIndic, assumed)
    modifies c.solver`model, c.solver`sumConflicts, c.solver`calls, c.solver`undefs, c.solver`budget
    ensures c.Paired()
    ensures ret == False ==> Supports(c.original, Elems(assumed), Elems(group))
    ensures ret == True ==> !Supports(c.original, Elems(assumed), Elems(group))
    ensures c.solver.calls <= old(c.solver.calls) + |group|
    ensures c.solver.undefs == old(c.solver.undefs) + if ret == Undef then 1 else 0
    ensures Charged(c.limits.backward, old(c.solver.undefs), old(c.solver.sumConflicts), c.solver.undefs, c.solver.sumConflicts)
  {
    var assumptions := assumptions0;
    ret := Undef;
    var origAssSize := |assumptions|;
    ghost var d := c.solver.Theory();
    ChargedNothing(c.limits.backward, c.solver.undefs, c.solver.sumConflicts);
    for m := 0 to |group|
      invariant assumptions == assumptions0 && c.solver.Theory() == d && (m > 0 ==> ret == False)
      invariant forall k :: 0 <= k < m ==> Determines(c.original, Elems(assumed), group[k])
      invariant c.solver.calls <= old(c.solver.calls) + m && c.solver.undefs == old(c.solver.undefs)
      invariant Charged(c.limits.backward, old(c.solver.undefs), old(c.solver.sumConflicts), c.solver.undefs, c.solver.sumConflicts)
    {
      var v := group[m];
      ghost var undefs, conflicts := c.solver.undefs, c.solver.sumConflicts;
      assert v in Elems(group);
      ret, assumptions := c.Ask(assumptions, v, assumed);
      ChargedMore(c.limits.backward, old(c.solver.undefs), old(c.solver.sumConflicts), undefs, conflicts,
                  c.solver.undefs, c.solver.sumConflicts);
      if ret == Undef || ret == True { break; }
      assumptions := assumptions[..origAssSize];
    }
  }

  lemma PoppedUnit(c: Common, units: seq<seq<nat>>, v: nat)
    requires c.GroupsOk() && c.Grouped().UnitList(c.origNumVars, units) && units != [] && v in units[|units| - 1]
    ensures var u, rest := units[|units| - 1], units[..|units| - 1];
            && v < c.origNumVars && u == c.Grouped().Unit(v) && v in u && u !in rest
            && c.Grouped().UnitList(c.origNumVars, rest)
            && |Flat(units)| == |Flat(rest)| + |u|
            && (forall w :: w in Flat(rest) || w in u ==> w in Flat(units))
  {
    var g, n, last := c.Grouped(), c.origNumVars, |units| - 1;
    var u, rest := units[last], units[..last];
    g.UnitFacts(n, u[0]);
    g.UnitFacts(n, v);
    g.UnitListPrefix(n, units, last);
    if u in rest {
      FlatContains(rest, IndexOf(rest, u), u[0]);
      SharedElement(Flat(rest), u, u[0]);
    }
  }

  ghost function IndexOf(units: seq<seq<nat>>, u: seq<nat>): (k: nat)
    requires u in units
    ensures k < |units| && units[k] == u
  {
    if units[0] == u then 0 else 1 + IndexOf(units[1..], u)
  }

  lemma SharedElement(s: seq<nat>, t: seq<nat>, x: nat)
    requires x in s && x in t
    ensures !NoDup(s + t)
  {
    var i :| 0 <= i < |s| && s[i] == x;
    var j :| 0 <= j < |t| && t[j] == x;
    assert (s + t)[i] == x && (s + t)[|s| + j] == x;
  }

  lemma SwitchedOn(c: Common, units: seq<seq<nat>>, flag: seq<bool>)
    requires c.GroupsOk() && c.Grouped().UnitList(c.origNumVars, units) && |flag| == c.origNumVars
    requires forall v :: 0 <= v < |flag| ==> (flag[v] <==> v in Flat(units))
    ensures Uniform(units, flag) && Bounded(Flat(units), |flag|)
    ensures forall x :: x in Flat(units) ==> x < |flag| && flag[x]
  {
    c.Grouped().UnitListBounded(c.origNumVars, units);
    forall k, i | 0 <= k < |units| && 0 <= i < |units[k]| ensures units[k][i] in Flat(units) {
      FlatContains(units, k, units[k][i]);
    }
    assert forall x :: x in Flat(units) ==> exists i :: 0 <= i < |Flat(units)| && Flat(units)[i] == x;
  }

  /** Without groups every candidate is a unit of its own, in whatever order sorting leaves them. */
  lemma {:induction false} Singles(c: Common, s: seq<nat>) returns (units: seq<seq<nat>>)
    requires c.GroupsOk() && !c.groupIndep && NoDup(s) && Bounded(s, c.origNumVars)
    ensures Flat(units) == s && c.Grouped().UnitList(c.origNumVars, units)
  {
    units := [];
    if s != [] {
      var k := |s| - 1;
      var front := Singles(c, s[..k]);
      FlatAppend(front, [s[k]]);
      units := front + [[s[k]]];
    }
  }

  /** The candidates in the order they are tested (from the back): in group order, or sorted. */
  method StartUnknown(c: Common, draws: nat -> nat)
    returns (status: Status, unknown: seq<nat>, unknownSet: seq<bool>, ghost units: seq<seq<nat>>)
    requires c.GroupsOk() && Bounded(c.samplingSet, c.origNumVars)
    ensures status == Collecting(c.Grouped(), c.groupIndep, c.var2varGroup, c.samplingSet)
    ensures status == Finished ==> Listed(c.Grouped(), c.origNumVars, unknown, unknownSet, units) && c.InTable(Elems(unknown))
    ensures status == Finished ==> Elems(unknown) == c.Grouped().Closure(Elems(c.samplingSet))
    ensures status == Finished && c.groupIndep ==> units == c.Grouped().Listing(c.samplingSet)
  {
    hide Shuffled, Collecting, Grouping.Listing;
    status, unknown, unknownSet, units := CollectUnknown(c);
    if status != Finished { return; }
    ghost var s := Elems(c.samplingSet);
    assert forall v :: v in s ==> v < c.origNumVars;
    ClosureInTable(c, s);
    c.Grouped().UnitListBounded(c.origNumVars, units);
    if !c.groupIndep {
      ghost var listed := unknown;
      unknown := Permute(unknown, draws);
      Reordered(listed, unknown, c.origNumVars);
      units := Singles(c, unknown);
    }
  }

  lemma SameMembers(s: seq<nat>, t: seq<nat>)
    requires Elems(s) == Elems(t)
    ensures forall v :: v in t <==> v in s
  {
    assert forall v :: v in s <==> v in Elems(s);
    assert forall v :: v in t <==> v in Elems(t);
  }

  lemma Reordered(s: seq<nat>, t: seq<nat>, n: nat)
    requires Elems(s) == Elems(t) && Bounded(s, n)
    ensures Bounded(t, n) && forall v :: v in t <==> v in s
  {
    assert forall v :: v in s <==> v in Elems(s);
    assert forall v :: v in t <==> v in Elems(t);
    assert forall i :: 0 <= i < |t| ==> t[i] in t;
  }

  /** Puts the tested variable, with its group, among the independent ones. */
  method KeepUnit(c: Common, testVar: nat, indep0: seq<nat>) returns (indep: seq<nat>)
    requires c.GroupsOk() && testVar < c.origNumVars && c.Readable({testVar})
    ensures indep == indep0 + c.Grouped().Unit(testVar)
  {
    c.LookupAnyway(testVar);
    c.Grouped().UnitFacts(c.origNumVars, testVar);
    indep := indep0;
    if c.InVariableGroup(testVar) {
      var group := c.varGroups[c.GetGroupIdx(testVar)];
      for m := 0 to |group|
        invariant indep == indep0 + group[..m]
      {
        indep := indep + [group[m]];
      }
      assert group[..|group|] == group;
    } else {
      indep := indep + [testVar];
    }
  }

  /** Fills in the assumptions and tests the unit against them, unless an indicator is missing. */
  method TestAgainst(c: Common, testVar: nat, unknown0: seq<nat>, unknownSet: seq<bool>, indep: seq<nat>, ghost left: seq<seq<nat>>)
    returns (ok: bool, ret: LBool, unknown: seq<nat>)
    requires c.Paired() && c.GroupsOk() && testVar < c.origNumVars && Bounded(indep, c.origNumVars)
    requires Listed(c.Grouped(), c.origNumVars, unknown0, unknownSet, left)
    requires c.InTable(Elems(unknown0)) && c.Readable({testVar})
    modifies c.solver`model, c.solver`sumConflicts, c.solver`calls, c.solver`undefs, c.solver`budget
    ensures c.Paired()
    ensures ok <==> Elems(Flat(left)) + Elems(indep) <= Having(c.varToIndic)
    ensures ok ==> unknown == unknown0 && c.solver.undefs == old(c.solver.undefs) + if ret == Undef then 1 else 0
    ensures ok && ret == False ==> Supports(c.original, Elems(Flat(left)) + Elems(indep), Elems(c.Grouped().Unit(testVar)))
    ensures ok && ret == True ==> !Supports(c.original, Elems(Flat(left)) + Elems(indep), Elems(c.Grouped().Unit(testVar)))
    ensures ok ==> c.solver.calls <= old(c.solver.calls) + |c.Grouped().Unit(testVar)|
    ensures !ok ==> c.solver.calls == old(c.solver.calls) && c.solver.undefs == old(c.solver.undefs)
    ensures Charged(c.limits.backward, old(c.solver.undefs), old(c.solver.sumConflicts), c.solver.undefs, c.solver.sumConflicts)
  {
    SwitchedOn(c, left, unknownSet);
    var assumptions;
    ret := Undef;
    FilterAll(unknown0, unknownSet);
    ok, assumptions, unknown := FillAssumptionsBackward(c, unknown0, unknownSet, indep, left);
    ChargedNothing(c.limits.backward, c.solver.undefs, c.solver.sumConflicts);
    if !ok { return; }
    ElemsAppend(indep, unknown);
    assert Elems(Flat(left)) + Elems(indep) == Elems(indep + unknown);
    ret := TestUnit(c, assumptions, testVar, indep + unknown);
  }

  lemma BoundedList(c: Common, unknown: seq<nat>, flag: seq<bool>, units: seq<seq<nat>>)
    requires c.GroupsOk() && Listed(c.Grouped(), c.origNumVars, unknown, flag, units)
    ensures Bounded(unknown, |flag|)
  {
    c.Grouped().UnitListBounded(c.origNumVars, units);
  }

  /** Tests the popped unit against everything kept or still unknown, and keeps it unless the answer is False. */
  method DecideUnit(c: Common, testVar: nat, unknown0: seq<nat>, unknownSet: seq<bool>, indep0: seq<nat>,
                    ghost units: seq<seq<nat>>, ghost before: seq<seq<nat>>, ghost undecided0: set<seq<nat>>)
    returns (ok: bool, unknown: seq<nat>, indep: seq<nat>, ghost undecided: set<seq<nat>>)
    requires c.Paired() && c.GroupsOk() && testVar < c.origNumVars && before != [] && before[|before| - 1] == c.Grouped().Unit(testVar)
    requires before[|before| - 1] !in before[..|before| - 1]
    requires Listed(c.Grouped(), c.origNumVars, unknown0, unknownSet, before[..|before| - 1]) && Bounded(indep0, c.origNumVars)
    requires c.InTable(Elems(unknown0)) && c.Readable({testVar})
    requires Progress(c.original, units, before, indep0, undecided0, Having(c.varToIndic)) && undecided0 !! UnitSet(before)
    modifies c.solver`model, c.solver`sumConflicts, c.solver`calls, c.solver`undefs, c.solver`budget
    ensures c.Paired()
    ensures ok ==> unknown == unknown0 && MidRound(c, units, unknown, unknownSet, before[..|before| - 1], indep, undecided)
    ensures !ok ==> Checked(c.original, units, [], undecided, Having(c.varToIndic)) == None
    ensures |undecided| - |undecided0| <= c.solver.undefs - old(c.solver.undefs)
    ensures Charged(c.limits.backward, old(c.solver.undefs), old(c.solver.sumConflicts), c.solver.undefs, c.solver.sumConflicts)
    ensures c.solver.calls <= old(c.solver.calls) + |c.Grouped().Unit(testVar)|
  {
    hide Progress, MidRound, NoDup, Listed, Checked;
    ghost var left, u := before[..|before| - 1], before[|before| - 1];
    var ret;
    indep, undecided := indep0, undecided0;
    ok, ret, unknown := TestAgainst(c, testVar, unknown0, unknownSet, indep0, left);
    if !ok {
      ProgressStops(c.original, units, before, indep0, undecided0, Having(c.varToIndic));
      return;
    }
    undecided := ProgressStep(c.original, units, before, indep0, undecided0, Having(c.varToIndic), ret);
    if ret == Undef || ret == True {
      indep := KeepUnit(c, testVar, indep);
    }
    BoundedList(c, unknown, unknownSet, left);
    KeptBounded(c, indep0, testVar, indep);
    PackRound(c, units, unknown, unknownSet, left, indep, undecided);
  }

  lemma KeptBounded(c: Common, indep0: seq<nat>, v: nat, indep: seq<nat>)
    requires c.GroupsOk() && v < c.origNumVars && Bounded(indep0, c.origNumVars)
    requires indep == indep0 || indep == indep0 + c.Grouped().Unit(v)
    ensures Bounded(indep, c.origNumVars)
  {
    c.Grouped().UnitFacts(c.origNumVars, v);
  }

  /** What holds between two tests. */
  ghost predicate MidRound(c: Common, units: seq<seq<nat>>, unknown: seq<nat>, unknownSet: seq<bool>,
                           left: seq<seq<nat>>, indep: seq<nat>, undecided: set<seq<nat>>)
    reads c, c.solver
  {
    && c.Paired() && c.GroupsOk() && Bounded(indep, c.origNumVars)
    && Listed(c.Grouped(), c.origNumVars, unknown, unknownSet, left) && Bounded(unknown, |unknownSet|) && c.InTable(Elems(unknown))
    && Progress(c.original, units, left, indep, undecided, Having(c.varToIndic)) && undecided !! UnitSet(left)
  }

  lemma PackRound(c: Common, units: seq<seq<nat>>, unknown: seq<nat>, unknownSet: seq<bool>, left: seq<seq<nat>>,
                  indep: seq<nat>, undecided: set<seq<nat>>)
    requires c.Paired() && c.GroupsOk() && Listed(c.Grouped(), c.origNumVars, unknown, unknownSet, left) && Bounded(unknown, |unknownSet|)
    requires Bounded(indep, c.origNumVars) && c.InTable(Elems(unknown))
    requires Progress(c.original, units, left, indep, undecided, Having(c.varToIndic)) && undecided !! UnitSet(left)
    ensures MidRound(c, units, unknown, unknownSet, left, indep, undecided)
  {}

  lemma NothingDecided(c: Common, units: seq<seq<nat>>, unknown: seq<nat>, unknownSet: seq<bool>)
    requires c.Paired() && c.GroupsOk() && Listed(c.Grouped(), c.origNumVars, unknown, unknownSet, units)
    requires c.InTable(Elems(unknown))
    ensures MidRound(c, units, unknown, unknownSet, units, [], {})
  {
    c.Grouped().UnitListBounded(c.origNumVars, units);
  }

  /** How the round ends. In group mode the assertion on indicators decides, in the order in which the groups are tested;
      outside group mode there is one for every candidate, but the group numbers are looked up all the same. */
  ghost function BackwardEnd(f: Formula, g: Grouping, grouped: bool, table: seq<nat>, has: set<nat>, clean: bool, s: seq<nat>,
                             undecided: set<seq<nat>>): Status
  {
    if !clean then SeenDirty
    else if Collecting(g, grouped, table, s) != Finished then Collecting(g, grouped, table, s)
    else if !grouped then if exists v :: v in s && v >= |table| then BadTable else Finished
    else if Checked(f, g.Listing(s), [], undecided, has).None? then GroupSplit
    else Finished
  }

  /** The backward round. `units` are the groups and single variables it starts from and `undecided` those
      whose test ended without an answer, at most one for every Undef the solver gave, each of which took `limits.backward`
      conflicts. */
  method BackwardRound(c: Common, draws: nat -> nat)
    returns (status: Status, ghost units: seq<seq<nat>>, ghost undecided: set<seq<nat>>)
    requires c.Paired() && c.GroupsOk() && Bounded(c.samplingSet, c.origNumVars)
    requires !c.groupIndep ==> Elems(c.samplingSet) <= Having(c.varToIndic)
    modifies c`samplingSet, c`otherSamplingSet
    modifies c.solver`model, c.solver`sumConflicts, c.solver`calls, c.solver`undefs, c.solver`budget
    ensures c.Paired()
    ensures status != Mixed ==>
              status == BackwardEnd(c.original, c.Grouped(), c.groupIndep, c.var2varGroup, Having(c.varToIndic), Unmarked(c.seen),
                                    old(c.samplingSet), undecided)
    ensures status == Mixed ==>
              !c.groupIndep && exists v :: v in old(c.samplingSet) && v < |c.var2varGroup| && c.var2varGroup[v] != 0
    ensures status == Finished ==>
              && c.Grouped().UnitList(c.origNumVars, units) && (c.groupIndep ==> units == c.Grouped().Listing(old(c.samplingSet)))
              && Elems(Flat(units)) == c.Grouped().Closure(Elems(old(c.samplingSet)))
              && c.samplingSet == Minimise(c.original, units, [], undecided)
    ensures |undecided| <= c.solver.undefs - old(c.solver.undefs)
    ensures |undecided| * c.limits.backward <= c.solver.sumConflicts - old(c.solver.sumConflicts)
    ensures c.solver.calls - old(c.solver.calls) <= |c.Grouped().Closure(Elems(old(c.samplingSet)))|
  {
    hide *;
    var clean := SeenClean(c);
    units, undecided := [], {};
    EndsEarly(c, undecided);
    if !clean { return SeenDirty, units, undecided; }
    ghost var s := c.samplingSet;
    var unknown, unknownSet;
    status, unknown, unknownSet, units := StartUnknown(c, draws);
    if status != Finished { return; }
    NothingDecided(c, units, unknown, unknownSet);
    ListedOnce(c, units, unknown, unknownSet);
    var indep;
    ghost var unknown0 := unknown;
    status, unknown, unknownSet, indep, undecided := DecideAll(c, units, unknown, unknownSet);
    ChargedFor(|undecided|, c.limits.backward, old(c.solver.undefs), old(c.solver.sumConflicts),
               c.solver.undefs, c.solver.sumConflicts);
    EndOfAll(c, s, units, unknown0, undecided, status);
    if status == Finished {
      CheckedMinimises(c.original, units, [], undecided, Having(c.varToIndic));
      NothingLeft(unknown, unknownSet, indep);
      c.UpdateSamplingSet(unknown, unknownSet, indep);
    }
  }

  lemma NothingLeft(unknown: seq<nat>, flag: seq<bool>, indep: seq<nat>)
    requires unknown == []
    ensures Bounded(unknown, |flag|) && Filter(unknown, flag) + indep == indep
  {}

  lemma EndCases(f: Formula, g: Grouping, grouped: bool, table: seq<nat>, has: set<nat>, clean: bool, s: seq<nat>,
                 undecided: set<seq<nat>>)
    ensures var end := BackwardEnd(f, g, grouped, table, has, clean, s, undecided);
            && (end == SeenDirty <==> !clean)
            && (end == GroupSplit ==> Checked(f, g.Listing(s), [], undecided, has).None?)
  {}

  lemma EndsEarly(c: Common, undecided: set<seq<nat>>)
    ensures var early := Collecting(c.Grouped(), c.groupIndep, c.var2varGroup, c.samplingSet);
            var end := BackwardEnd(c.original, c.Grouped(), c.groupIndep, c.var2varGroup, Having(c.varToIndic), Unmarked(c.seen),
                                   c.samplingSet, undecided);
            (!Unmarked(c.seen) ==> end == SeenDirty) && (Unmarked(c.seen) && early != Finished ==> end == early)
  {}

  lemma ListedOnce(c: Common, units: seq<seq<nat>>, unknown: seq<nat>, flag: seq<bool>)
    requires Listed(c.Grouped(), c.origNumVars, unknown, flag, units)
    ensures unknown == Flat(units) && c.Grouped().UnitList(c.origNumVars, units) && |Elems(unknown)| == |unknown|
  {
    NoDupSize(unknown);
  }

  /** What ended the loop is what was bound to. */
  lemma EndOfAll(c: Common, s: seq<nat>, units: seq<seq<nat>>, unknown: seq<nat>, undecided: set<seq<nat>>, status: Status)
    requires c.GroupsOk() && Elems(unknown) == c.Grouped().Closure(Elems(s)) && unknown == Flat(units)
    requires Collecting(c.Grouped(), c.groupIndep, c.var2varGroup, s) == Finished && Unmarked(c.seen)
    requires c.groupIndep ==> units == c.Grouped().Listing(s) && c.InTable(Elems(unknown))
    requires !c.groupIndep ==> Elems(s) <= Having(c.varToIndic)
    requires EndedBy(c, units, unknown, undecided, status)
    ensures status != Mixed ==>
              status == BackwardEnd(c.original, c.Grouped(), c.groupIndep, c.var2varGroup, Having(c.varToIndic), Unmarked(c.seen), s, undecided)
    ensures status == Mixed ==> !c.groupIndep && exists v :: v in s && v < |c.var2varGroup| && c.var2varGroup[v] != 0
  {
    hide Collecting, Checked, Grouping.Listing, Grouping.Closure, Grouping.Unit, Grouping.Consistent, Having, Flat;
    if c.groupIndep {
      forall v | v in unknown ensures LookedUp(true, c.var2varGroup, v) == Finished { assert v in Elems(unknown); }
    } else {
      NoGroups(c, Elems(s));
      SameMembers(s, unknown);
      assert Elems(Flat(units)) + Elems([]) == Elems(s);
      CheckedServed(c.original, units, [], undecided, Having(c.varToIndic));
    }
  }

  /** The loop ends with every unit decided, at a look-up, or at a missing indicator. */
  ghost predicate EndedBy(c: Common, units: seq<seq<nat>>, unknown: seq<nat>, undecided: set<seq<nat>>, status: Status)
    reads c`groupIndep, c`var2varGroup, c`varToIndic, c`original
  {
    match status
    case Finished =>
      && Checked(c.original, units, [], undecided, Having(c.varToIndic)).Some?
      && forall v :: v in unknown ==> LookedUp(c.groupIndep, c.var2varGroup, v) == Finished
    case GroupSplit => Checked(c.original, units, [], undecided, Having(c.varToIndic)).None?
    case BadTable => exists v :: v in unknown && LookedUp(c.groupIndep, c.var2varGroup, v) == BadTable
    case Mixed => exists v :: v in unknown && LookedUp(c.groupIndep, c.var2varGroup, v) == Mixed
    case _ => false
  }

  /** Pops and decides units until none is left. */
  method DecideAll(c: Common, ghost units: seq<seq<nat>>, unknown0: seq<nat>, unknownSet0: seq<bool>)
    returns (status: Status, unknown: seq<nat>, unknownSet: seq<bool>, indep: seq<nat>, ghost undecided: set<seq<nat>>)
    requires MidRound(c, units, unknown0, unknownSet0, units, [], {})
    modifies c`samplingSet, c`otherSamplingSet
    modifies c.solver`model, c.solver`sumConflicts, c.solver`calls, c.solver`undefs, c.solver`budget
    ensures c.Paired() && EndedBy(c, units, unknown0, undecided, status)
    ensures status == Finished ==> unknown == [] && Checked(c.original, units, [], undecided, Having(c.varToIndic)) == Some(indep)
    ensures |undecided| <= c.solver.undefs - old(c.solver.undefs)
    ensures Charged(c.limits.backward, old(c.solver.undefs), old(c.solver.sumConflicts), c.solver.undefs, c.solver.sumConflicts)
    ensures c.solver.calls - old(c.solver.calls) <= |unknown0|
  {
    hide Progress, Charged, Doubles, Checked, Listed, MidRound, Having, Grouping.Consistent, Grouping.Unit, NoDup;
    unknown, unknownSet, indep, undecided := unknown0, unknownSet0, [], {};
    ghost var left := units;
    ChargedNothing(c.limits.backward, c.solver.undefs, c.solver.sumConflicts);
    var iter := 0;
    while true
      invariant MidRound(c, units, unknown, unknownSet, left, indep, undecided)
      invariant |undecided| <= c.solver.undefs - old(c.solver.undefs)
      invariant Charged(c.limits.backward, old(c.solver.undefs), old(c.solver.sumConflicts), c.solver.undefs, c.solver.sumConflicts)
      invariant c.solver.calls - old(c.solver.calls) + |unknown| <= |unknown0|
      invariant forall v :: v in unknown ==> v in unknown0
      invariant forall v :: v in unknown0 && v !in unknown ==> LookedUp(c.groupIndep, c.var2varGroup, v) == Finished
      decreases |left|
    {
      var testVar;
      ghost var before := left;
      UnpackRound(c, units, unknown, unknownSet, left, indep, undecided);
      status, testVar, unknown, unknownSet, left := SelectUnit(c, units, unknown, unknownSet, left, indep, undecided);
      if status != Finished { return; }
      if testVar.None? { break; }
      ghost var undefs, conflicts := c.solver.undefs, c.solver.sumConflicts;
      var ok;
      ok, unknown, indep, undecided := DecideUnit(c, testVar.value, unknown, unknownSet, indep, units, before, undecided);
      ChargedMore(c.limits.backward, old(c.solver.undefs), old(c.solver.sumConflicts), undefs, conflicts,
                  c.solver.undefs, c.solver.sumConflicts);
      if !ok { return GroupSplit, unknown, unknownSet, indep, undecided; }
      iter := iter + 1;
      if iter % 500 == 499 { Publish(c, unknown, unknownSet, indep, units, left, undecided); }
    }
    ProgressDone(c.original, units, indep, undecided, Having(c.varToIndic));
    status := Finished;
  }

  lemma UnpackRound(c: Common, units: seq<seq<nat>>, unknown: seq<nat>, unknownSet: seq<bool>, left: seq<seq<nat>>,
                    indep: seq<nat>, undecided: set<seq<nat>>)
    requires MidRound(c, units, unknown, unknownSet, left, indep, undecided)
    ensures c.Paired() && c.GroupsOk() && Bounded(indep, c.origNumVars) && (left == [] ==> unknown == [])
    ensures Progress(c.original, units, left, indep, undecided, Having(c.varToIndic)) && undecided !! UnitSet(left)
  {}

  lemma ProgressDone(f: Formula, units: seq<seq<nat>>, indep: seq<nat>, undecided: set<seq<nat>>, has: set<nat>)
    requires Progress(f, units, [], indep, undecided, has)
    ensures Checked(f, units, [], undecided, has) == Some(indep)
  {
    assert undecided + {} == undecided;
  }

  /** The intermediate update of the sampling set, which the round itself does not look at. */
  method Publish(c: Common, unknown: seq<nat>, unknownSet: seq<bool>, indep: seq<nat>,
                 ghost units: seq<seq<nat>>, ghost left: seq<seq<nat>>, ghost undecided: set<seq<nat>>)
    requires MidRound(c, units, unknown, unknownSet, left, indep, undecided)
    modifies c`samplingSet, c`otherSamplingSet
    ensures MidRound(c, units, unknown, unknownSet, left, indep, undecided)
    ensures c.samplingSet == Filter(unknown, unknownSet) + indep
  {
    c.UpdateSamplingSet(unknown, unknownSet, indep);
  }

  /** Pops the next unit and switches its tested variable off. */
  method SelectUnit(c: Common, ghost units: seq<seq<nat>>, unknown0: seq<nat>, unknownSet0: seq<bool>,
                    ghost before: seq<seq<nat>>, ghost indep: seq<nat>, ghost undecided: set<seq<nat>>)
    returns (status: Status, testVar: Option<nat>, unknown: seq<nat>, unknownSet: seq<bool>, ghost left: seq<seq<nat>>)
    requires MidRound(c, units, unknown0, unknownSet0, before, indep, undecided)
    ensures status == Finished || status == BadTable || status == Mixed
    ensures status != Finished ==> exists v :: v in unknown0 && LookedUp(c.groupIndep, c.var2varGroup, v) == status
    ensures status == Finished && testVar.None? ==>
              before == [] && left == before && MidRound(c, units, unknown, unknownSet, left, indep, undecided) && unknown == unknown0
    ensures status == Finished && testVar.Some? ==>
              && before != [] && testVar.value < c.origNumVars && left == before[..|before| - 1]
              && before[|before| - 1] == c.Grouped().Unit(testVar.value) && before[|before| - 1] !in left
              && Listed(c.Grouped(), c.origNumVars, unknown, unknownSet, left) && Bounded(unknown, |unknownSet|)
              && |unknown0| == |unknown| + |c.Grouped().Unit(testVar.value)|
              && c.InTable(Elems(unknown)) && c.Readable({testVar.value})
              && (forall v :: v in unknown ==> v in unknown0)
              && (forall v :: v in unknown0 && v !in unknown ==> LookedUp(c.groupIndep, c.var2varGroup, v) == Finished)
  {
    hide Progress;
    left := before;
    status, testVar, unknown, unknownSet := PopUnit(c, unknown0, unknownSet0, before);
    if status != Finished {
      assert unknown0[|unknown0| - 1] in unknown0;
    } else if testVar.Some? {
      left := before[..|before| - 1];
      PoppedUnit(c, before, testVar.value);
      PoppedTables(c, before, unknown0, unknown, testVar.value);
      c.Grouped().UnitListBounded(c.origNumVars, left);
      assert unknownSet[testVar.value];
      unknownSet := unknownSet[testVar.value := false];
    }
  }

  lemma PoppedTables(c: Common, before: seq<seq<nat>>, unknown0: seq<nat>, unknown: seq<nat>, v: nat)
    requires before != [] && unknown0 == Flat(before) && unknown == Flat(before[..|before| - 1]) && before[|before| - 1] == c.Grouped().Unit(v)
    requires c.GroupsOk() && v < c.origNumVars && c.InTable(Elems(unknown0)) && c.Readable({v})
    ensures c.InTable(Elems(unknown)) && unknown <= unknown0 && forall w :: w in unknown ==> w in unknown0
    ensures forall w :: w in unknown0 && w !in unknown ==> LookedUp(c.groupIndep, c.var2varGroup, w) == Finished
  {
    c.LookupAnyway(v);
    assert unknown0 == unknown + c.Grouped().Unit(v);
    forall w | w in unknown0 && w !in unknown ensures LookedUp(c.groupIndep, c.var2varGroup, w) == Finished {
      assert w in c.Grouped().Unit(v) && w in Elems(unknown0);
    }
    assert Elems(unknown) <= Elems(unknown0);
  }

  ghost function UnitSet(units: seq<seq<nat>>): set<seq<nat>> { set u | u in units }

  /** Whatever the still untested units turn out to be, finishing from here ends the same way, with the same result, as
      the walk from the start. */
  ghost predicate Progress(f: Formula, units: seq<seq<nat>>, left: seq<seq<nat>>, indep: seq<nat>, undecided: set<seq<nat>>,
                           has: set<nat>)
  {
    forall extra :: extra <= UnitSet(left) ==>
      Checked(f, units, [], undecided + extra, has) == Checked(f, left, indep, undecided + extra, has)
  }

  lemma ProgressStops(f: Formula, units: seq<seq<nat>>, left: seq<seq<nat>>, indep: seq<nat>, undecided: set<seq<nat>>, has: set<nat>)
    requires left != [] && Progress(f, units, left, indep, undecided, has)
    requires !(Elems(Flat(left[..|left| - 1])) + Elems(indep) <= has)
    ensures Checked(f, units, [], undecided, has) == None
  {
    assert undecided + {} == undecided;
  }

  /** A unit with no answer joins `undecided`; a unit is kept unless the answer is False. */
  lemma ProgressStep(f: Formula, units: seq<seq<nat>>, left: seq<seq<nat>>, indep: seq<nat>, undecided: set<seq<nat>>, has: set<nat>,
                     ret: LBool)
    returns (undecided': set<seq<nat>>)
    requires left != [] && Progress(f, units, left, indep, undecided, has) && undecided !! UnitSet(left)
    requires left[|left| - 1] !in left[..|left| - 1] && Elems(Flat(left[..|left| - 1])) + Elems(indep) <= has
    requires ret == False ==> Supports(f, Elems(Flat(left[..|left| - 1])) + Elems(indep), Elems(left[|left| - 1]))
    requires ret == True ==> !Supports(f, Elems(Flat(left[..|left| - 1])) + Elems(indep), Elems(left[|left| - 1]))
    ensures undecided' !! UnitSet(left[..|left| - 1])
    ensures |undecided'| <= |undecided| + if ret == Undef then 1 else 0
    ensures Progress(f, units, left[..|left| - 1], if ret == False then indep else indep + left[|left| - 1], undecided', has)
  {
    var rest, u := left[..|left| - 1], left[|left| - 1];
    assert left == rest + [u];
    assert UnitSet(left) == UnitSet(rest) + {u};
    undecided' := if ret == Undef then undecided + {u} else undecided;
    forall extra | extra <= UnitSet(rest)
      ensures Checked(f, units, [], undecided' + extra, has)
           == Checked(f, rest, if ret == False then indep else indep + u, undecided' + extra, has)
    {
      if ret == Undef {
        assert undecided' + extra == undecided + (extra + {u});
      } else {
        assert u !in undecided + extra;
      }
    }
  }
}
