/** Shrinking the sampling set before the problem is duplicated: gates, equal and fixed literals, backbone. */
module Simplification {
  import opened Seqs
  import opened Logic
  import opened Sat
  import opened Groups
  import opened CommonState

  // ---- gates ----

  /** The variables add up to `rhs`, modulo 2. */
  datatype XorGate = XorGate(vars: seq<nat>, rhs: bool)

  /** rhs <==> one of the literals. */
  datatype OrGate = OrGate(lits: seq<Lit>, rhs: Lit)

  /** rhs <==> if lhs[0] then lhs[1] else lhs[2]. */
  datatype IteGate = IteGate(lhs: seq<Lit>, rhs: Lit)

  function Parity(vars: seq<nat>, a: Assignment): bool {
    if vars == [] then false
    else
      var last := vars[|vars| - 1];
      Parity(vars[..|vars| - 1], a) != (last < |a| && a[last])
  }

  ghost predicate XorEntailed(f: Formula, x: XorGate) {
    NoDup(x.vars) && forall a :: Satisfies(f, a) ==> Parity(x.vars, a) == x.rhs
  }

  ghost predicate OrEntailed(f: Formula, o: OrGate) {
    && (forall i :: 0 <= i < |o.lits| ==> o.lits[i].v != o.rhs.v)
    && forall a :: Satisfies(f, a) ==> LitTrue(o.rhs, a) == ClauseTrue(o.lits, a)
  }

  ghost predicate IteEntailed(f: Formula, t: IteGate) {
    && |t.lhs| == 3 && (forall i :: 0 <= i < 3 ==> t.lhs[i].v != t.rhs.v)
    && forall a :: Satisfies(f, a) ==>
         LitTrue(t.rhs, a) == if LitTrue(t.lhs[0], a) then LitTrue(t.lhs[1], a) else LitTrue(t.lhs[2], a)
  }

  lemma {:induction false} SameParity(vars: seq<nat>, a: Assignment, b: Assignment)
    requires |a| == |b| && Agree(a, b, Elems(vars))
    ensures Parity(vars, a) == Parity(vars, b)
  {
    if vars != [] {
      var front, last := vars[..|vars| - 1], vars[|vars| - 1];
      assert forall v :: v in Elems(front) ==> v in Elems(vars);
      assert last in Elems(vars);
      SameParity(front, a, b);
    }
  }

  /** Equal parity and agreement on all but one variable force agreement on that one. */
  lemma {:induction false} ParityDetermines(vars: seq<nat>, v: nat, a: Assignment, b: Assignment)
    requires NoDup(vars) && v in vars && |a| == |b| && v < |a|
    requires Agree(a, b, Elems(vars) - {v}) && Parity(vars, a) == Parity(vars, b)
    ensures a[v] == b[v]
  {
    var front, last := vars[..|vars| - 1], vars[|vars| - 1];
    assert vars == front + [last];
    assert last !in front;
    if last == v {
      assert Elems(front) <= Elems(vars) - {v};
      SameParity(front, a, b);
    } else {
      assert v in front && last in Elems(vars) - {v};
      assert Elems(front) - {v} <= Elems(vars) - {v};
      ParityDetermines(front, v, a, b);
    }
  }

  lemma XorDetermines(f: Formula, x: XorGate, v: nat, vs: set<nat>)
    requires XorEntailed(f, x) && v in x.vars && Elems(x.vars) - {v} <= vs
    ensures Determines(f, vs, v)
  {
    forall a, b | Satisfies(f, a) && Satisfies(f, b) && Agree(a, b, vs) && v < f.n ensures a[v] == b[v] {
      assert Agree(a, b, Elems(x.vars) - {v});
      ParityDetermines(x.vars, v, a, b);
    }
  }

  ghost predicate Inputs(ls: seq<Lit>, vs: set<nat>) {
    forall i :: 0 <= i < |ls| ==> ls[i].v in vs
  }

  lemma SameInputs(ls: seq<Lit>, vs: set<nat>, a: Assignment, b: Assignment)
    requires Inputs(ls, vs) && Agree(a, b, vs) && |a| == |b|
    ensures forall i :: 0 <= i < |ls| ==> LitTrue(ls[i], a) == LitTrue(ls[i], b)
    ensures ClauseTrue(ls, a) == ClauseTrue(ls, b)
  {}

  lemma OrDetermines(f: Formula, o: OrGate, vs: set<nat>)
    requires OrEntailed(f, o) && Inputs(o.lits, vs)
    ensures Determines(f, vs, o.rhs.v)
  {
    forall a, b | Satisfies(f, a) && Satisfies(f, b) && Agree(a, b, vs) && o.rhs.v < f.n ensures a[o.rhs.v] == b[o.rhs.v] {
      SameInputs(o.lits, vs, a, b);
      assert LitTrue(o.rhs, a) == LitTrue(o.rhs, b);
    }
  }

  lemma IteDetermines(f: Formula, t: IteGate, vs: set<nat>)
    requires IteEntailed(f, t) && Inputs(t.lhs, vs)
    ensures Determines(f, vs, t.rhs.v)
  {
    forall a, b | Satisfies(f, a) && Satisfies(f, b) && Agree(a, b, vs) && t.rhs.v < f.n ensures a[t.rhs.v] == b[t.rhs.v] {
      SameInputs(t.lhs, vs, a, b);
      assert LitTrue(t.rhs, a) == LitTrue(t.rhs, b);
    }
  }

  // ---- what every removal keeps ----

  ghost function Seen(seen: seq<bool>): set<nat> { set v | 0 <= v < |seen| && seen[v] }

  /** Dropping a variable that the others determine loses nothing. */
  lemma DropDetermined(f: Formula, kept: set<nat>, v: nat, s: set<nat>)
    requires Supports(f, kept, s) && Determines(f, kept - {v}, v)
    ensures Supports(f, kept - {v}, s)
  {
    forall w | w in kept ensures Determines(f, kept - {v}, w) {
      if w != v { SupportsSelf(f, kept - {v}, {w}); assert w in {w}; }
    }
    SupportsTrans(f, kept - {v}, kept, s);
  }

  /** Rebuilds the sampling set from the marks, in ascending order, and clears them. */
  method CollectSeen(c: Common)
    requires forall v :: v in Seen(c.seen) ==> v < c.origNumVars
    modifies c`samplingSet, c`otherSamplingSet, c`seen
    ensures Elems(c.samplingSet) == Seen(old(c.seen)) && Ascending(c.samplingSet)
    ensures |c.seen| == old(|c.seen|) && c.Clean()
  {
    ghost var marked := c.seen;
    c.otherSamplingSet := [];
    var i := 0;
    while i < |c.seen| && i < c.origNumVars
      invariant i <= |c.seen| == |marked| && i <= c.origNumVars == old(c.origNumVars)
      invariant forall v :: 0 <= v < |marked| ==> c.seen[v] == (v >= i && marked[v])
      invariant forall v :: v in c.otherSamplingSet <==> 0 <= v < i && marked[v]
      invariant Ascending(c.otherSamplingSet) && Bounded(c.otherSamplingSet, i)
    {
      if c.seen[i] { c.otherSamplingSet := c.otherSamplingSet + [i]; }
      c.seen := c.seen[i := false];
      i := i + 1;
    }
    forall v | 0 <= v < |marked| && marked[v] ensures v < i { assert v in Seen(marked); }
    c.samplingSet, c.otherSamplingSet := c.otherSamplingSet, c.samplingSet;
  }

  /** Marks the sampling variables. */
  method MarkSampling(c: Common)
    requires c.Clean() && Bounded(c.samplingSet, |c.seen|)
    modifies c`seen
    ensures |c.seen| == old(|c.seen|) && Seen(c.seen) == Elems(c.samplingSet)
  {
    for i := 0 to |c.samplingSet|
      invariant |c.seen| == old(|c.seen|)
      invariant forall v :: 0 <= v < |c.seen| ==> (c.seen[v] <==> v in c.samplingSet[..i])
    {
      assert c.samplingSet[..i + 1] == c.samplingSet[..i] + [c.samplingSet[i]];
      c.seen := c.seen[c.samplingSet[i] := true];
    }
    assert c.samplingSet[..|c.samplingSet|] == c.samplingSet;
    assert forall v :: v in Elems(c.samplingSet) ==> v < |c.seen|;
  }

  ghost predicate MentionsVar(ls: seq<Lit>, v: nat) { exists i :: 0 <= i < |ls| && ls[i].v == v }

  /** Drops the sampling variables that are fixed at decision level zero. */
  method RemoveZeroAssignedLiterals(c: Common) returns (ghost zero: seq<Lit>)
    requires c.solver.Valid() && c.origNumVars <= c.solver.nVars && Bounded(c.samplingSet, c.origNumVars)
    modifies c`samplingSet, c`otherSamplingSet, c`seen, c.solver`history
    ensures c.solver.history == old(c.solver.history) + [FixedLits(zero)]
    ensures |c.seen| == c.solver.nVars && c.Clean() && Ascending(c.samplingSet) && Bounded(c.samplingSet, c.origNumVars)
    ensures forall i :: 0 <= i < |zero| ==> Entails(c.solver.Theory(), zero[i])
    ensures forall i :: 0 <= i < |c.solver.clauses| && |c.solver.clauses[i]| == 1 ==> c.solver.clauses[i][0] in zero
    ensures Elems(c.samplingSet) == Elems(old(c.samplingSet)) - FixedVars(zero)
    ensures Supports(c.solver.Theory(), Elems(c.samplingSet), Elems(old(c.samplingSet)))
  {
    ghost var s := Elems(c.samplingSet);
    c.seen := seq(c.solver.nVars, _ => false);
    MarkSampling(c);
    var zeroAss := c.solver.GetZeroAssignedLits();
    zero := zeroAss;
    for i := 0 to |zeroAss|
      invariant |c.seen| == c.solver.nVars && c.samplingSet == old(c.samplingSet)
      invariant c.solver.history == old(c.solver.history) + [FixedLits(zero)]
      invariant forall v :: 0 <= v < |c.seen| ==> (c.seen[v] <==> v in s && !MentionsVar(zeroAss[..i], v))
    {
      MentionsNext(zeroAss, i);
      c.seen := c.seen[zeroAss[i].v := false];
    }
    assert zeroAss[..|zeroAss|] == zeroAss;
    assert forall v :: v in s ==> v in c.samplingSet && v < c.origNumVars;
    CollectSeen(c);
    forall v: nat | true ensures v in c.samplingSet <==> v in Elems(c.samplingSet) {}
    forall v | v in s ensures Determines(c.solver.Theory(), Elems(c.samplingSet), v) {
      if i :| 0 <= i < |zero| && zero[i].v == v {
        assert Entails(c.solver.Theory(), zero[i]);
      } else {
        assert v in Elems(c.samplingSet);
      }
    }
    assert forall i :: 0 <= i < |c.samplingSet| ==> c.samplingSet[i] in c.samplingSet;
  }

  lemma MentionsNext(ls: seq<Lit>, i: nat)
    requires i < |ls|
    ensures forall v :: MentionsVar(ls[..i + 1], v) <==> MentionsVar(ls[..i], v) || v == ls[i].v
  {}

  /** The variables of s that are dropped for the pairs, taken in order: the first of a pair whose two ends are left. */
  ghost function Equated(pairs: seq<(Lit, Lit)>, s: set<nat>): set<nat> {
    if pairs == [] then {}
    else
      var gone, x := Equated(pairs[..|pairs| - 1], s), pairs[|pairs| - 1];
      if x.0.v in s - gone && x.1.v in s - gone then gone + {x.0.v} else gone
  }

  ghost function FixedVars(zero: seq<Lit>): set<nat> { set l | l in zero :: l.v }

  /** Dropping some variables of a group-closed set leaves it group-closed exactly when every group that loses a member
      loses all of them. */
  lemma StaysClosed(g: Grouping, n: nat, s: set<nat>, dropped: set<nat>)
    requires g.Consistent(n) && g.Closed(s) && forall v :: v in s ==> v < n
    ensures g.Closed(s - dropped) <==> forall v, w :: v in s && v in dropped && w in g.Unit(v) ==> w in dropped
  {
    if g.Closed(s - dropped) {
      forall v, w | v in s && v in dropped && w in g.Unit(v) ensures w in dropped {
        g.UnitFacts(n, v);
        assert w in s && v in g.Unit(w);
        assert w !in dropped ==> w in s - dropped && v in s - dropped;
      }
    }
    if forall v, w :: v in s && v in dropped && w in g.Unit(v) ==> w in dropped {
      forall v, w | v in s - dropped && w in g.Unit(v) ensures w in s - dropped {
        g.UnitFacts(n, v);
        assert w in s && v in g.Unit(w);
      }
    }
  }

  /** Of two sampling variables known to be equal or opposite, drops the first. */
  method RemoveEqLiterals(c: Common) returns (ghost pairs: seq<(Lit, Lit)>)
    requires c.solver.Valid() && c.origNumVars <= c.solver.nVars && Bounded(c.samplingSet, c.origNumVars)
    requires |c.seen| == c.solver.nVars && c.Clean()
    modifies c`samplingSet, c`otherSamplingSet, c`seen, c.solver`history
    ensures c.solver.history == old(c.solver.history) + [EqualLits(pairs)]
    ensures |c.seen| == c.solver.nVars && c.Clean() && Ascending(c.samplingSet) && Bounded(c.samplingSet, c.origNumVars)
    ensures Elems(c.samplingSet) <= Elems(old(c.samplingSet))
    ensures forall i :: 0 <= i < |pairs| ==> EntailsEqual(c.solver.Theory(), pairs[i].0, pairs[i].1)
    ensures forall i :: 0 <= i < |pairs| ==> !(pairs[i].0.v in c.samplingSet && pairs[i].1.v in c.samplingSet)
    ensures Elems(c.samplingSet) == Elems(old(c.samplingSet)) - Equated(pairs, Elems(old(c.samplingSet)))
    ensures Supports(c.solver.Theory(), Elems(c.samplingSet), Elems(old(c.samplingSet)))
  {
    ghost var f, s := c.solver.Theory(), Elems(c.samplingSet);
    MarkSampling(c);
    var eqLits := c.solver.GetAllBinaryXors();
    pairs := eqLits;
    SupportsSelf(f, s, s);
    for i := 0 to |eqLits|
      invariant |c.seen| == c.solver.nVars && c.samplingSet == old(c.samplingSet)
      invariant c.solver.history == old(c.solver.history) + [EqualLits(pairs)]
      invariant Seen(c.seen) <= s && Supports(f, Seen(c.seen), s)
      invariant forall k :: 0 <= k < i ==> !(c.seen[eqLits[k].0.v] && c.seen[eqLits[k].1.v])
      invariant Seen(c.seen) == s - Equated(eqLits[..i], s)
    {
      var (first, second) := eqLits[i];
      assert eqLits[..i + 1][..i] == eqLits[..i];
      assert forall v: nat :: v < |c.seen| ==> (c.seen[v] <==> v in Seen(c.seen));
      if c.seen[second.v] && c.seen[first.v] {
        EqualDetermines(f, first, second, Seen(c.seen) - {first.v});
        DropDetermined(f, Seen(c.seen), first.v, s);
        UnmarkOne(c.seen, first.v);
        c.seen := c.seen[first.v := false];
      }
    }
    ghost var kept := Seen(c.seen);
    assert eqLits[..|eqLits|] == eqLits;
    assert forall v :: v in s ==> v in c.samplingSet && v < c.origNumVars;
    CollectSeen(c);
    forall v: nat | true ensures v in c.samplingSet <==> v in kept { assert v in c.samplingSet <==> v in Elems(c.samplingSet); }
    assert forall i :: 0 <= i < |c.samplingSet| ==> c.samplingSet[i] in c.samplingSet;
  }

  lemma UnmarkOne(seen: seq<bool>, v: nat)
    requires v < |seen|
    ensures Seen(seen[v := false]) == Seen(seen) - {v}
  {}

  lemma EqualDetermines(f: Formula, l: Lit, k: Lit, vs: set<nat>)
    requires EntailsEqual(f, l, k) && k.v in vs && l.v < f.n
    ensures Determines(f, vs, l.v)
  {
    forall a, b | Satisfies(f, a) && Satisfies(f, b) && Agree(a, b, vs) && l.v < f.n ensures a[l.v] == b[l.v] {
      assert LitTrue(l, a) == LitTrue(k, a) && LitTrue(l, b) == LitTrue(k, b);
    }
  }

  /** The entry assertion of the simplification: no variable is listed twice. */
  method CheckNoDuplicateInSamplingSet(c: Common) returns (ok: bool)
    requires c.Clean() && Bounded(c.samplingSet, |c.seen|)
    modifies c`seen
    ensures ok <==> NoDup(c.samplingSet)
    ensures |c.seen| == old(|c.seen|) && (ok ==> c.Clean())
  {
    for i := 0 to |c.samplingSet|
      invariant |c.seen| == old(|c.seen|) && NoDup(c.samplingSet[..i])
      invariant forall v :: 0 <= v < |c.seen| ==> (c.seen[v] <==> v in c.samplingSet[..i])
    {
      assert c.samplingSet[..i + 1] == c.samplingSet[..i] + [c.samplingSet[i]];
      if c.seen[c.samplingSet[i]] {
        return false;
      }
      c.seen := c.seen[c.samplingSet[i] := true];
    }
    assert c.samplingSet[..|c.samplingSet|] == c.samplingSet;
    for i := 0 to |c.samplingSet|
      invariant |c.seen| == old(|c.seen|)
      invariant forall v :: 0 <= v < |c.seen| && c.seen[v] ==> v in c.samplingSet[i..]
    {
      assert c.samplingSet[i..] == [c.samplingSet[i]] + c.samplingSet[i + 1..];
      c.seen := c.seen[c.samplingSet[i] := false];
    }
    return true;
  }

  // ---- removal by gates ----

  datatype GateKind = OrKind | XorKind | IteKind

  /** A gate that could define a variable: its kind and its position in the list of that kind. */
  datatype GateOccurs = GateOccurs(kind: GateKind, at: nat)

  ghost predicate GatesEntailed(f: Formula, xors: seq<XorGate>, ors: seq<OrGate>, ites: seq<IteGate>) {
    && (forall i :: 0 <= i < |xors| ==> XorEntailed(f, xors[i]))
    && (forall i :: 0 <= i < |ors| ==> OrEntailed(f, ors[i]))
    && (forall i :: 0 <= i < |ites| ==> IteEntailed(f, ites[i]))
  }

  /** The gate speaks of variables below n only, is looked at, and defines v. */
  ghost predicate Defines(xors: seq<XorGate>, ors: seq<OrGate>, ites: seq<IteGate>, g: GateOccurs, v: nat, n: nat) {
    match g.kind
    case XorKind => g.at < |xors| && v in xors[g.at].vars && Bounded(xors[g.at].vars, n)
    case OrKind => g.at < |ors| && ors[g.at].rhs.v == v && LitsBelow(ors[g.at].lits, n) && OutputsBelow(ors, g.at, n)
    case IteKind => g.at < |ites| && ites[g.at].rhs.v == v && LitsBelow(ites[g.at].lhs, n)
  }

  ghost predicate VarsSeen(vars: seq<nat>, seen: seq<bool>, n: nat) {
    n <= |seen| && forall i :: 0 <= i < |vars| ==> vars[i] < n && seen[vars[i]]
  }

  ghost predicate LitsSeen(ls: seq<Lit>, seen: seq<bool>, n: nat) {
    n <= |seen| && forall i :: 0 <= i < |ls| ==> ls[i].v < n && seen[ls[i].v]
  }

  /** Inputs and output of the gate are all marked original variables. */
  ghost predicate Live(xors: seq<XorGate>, ors: seq<OrGate>, ites: seq<IteGate>, g: GateOccurs, seen: seq<bool>, n: nat) {
    match g.kind
    case XorKind => g.at < |xors| && VarsSeen(xors[g.at].vars, seen, n)
    case OrKind => g.at < |ors| && LitsSeen([ors[g.at].rhs] + ors[g.at].lits, seen, n)
    case IteKind => g.at < |ites| && LitsSeen([ites[g.at].rhs] + ites[g.at].lhs, seen, n)
  }

  /** The outputs of the OR gates up to position i are original variables. */
  ghost predicate OutputsBelow(ors: seq<OrGate>, i: nat, n: nat)
    requires i < |ors|
  {
    forall j :: 0 <= j <= i ==> ors[j].rhs.v < n
  }

  /** Every live gate the search looks at is recorded at the variables it defines; the OR gates from the
      first one with a foreign output on are not looked at. */
  ghost predicate Considered(xors: seq<XorGate>, ors: seq<OrGate>, ites: seq<IteGate>, g: GateOccurs, v: nat, n: nat) {
    match g.kind
    case XorKind => g.at < |xors| && v in xors[g.at].vars
    case OrKind => g.at < |ors| && ors[g.at].rhs.v == v && OutputsBelow(ors, g.at, n)
    case IteKind => g.at < |ites| && ites[g.at].rhs.v == v
  }

  /** All the variables of the gate are kept. */
  ghost predicate Complete(xors: seq<XorGate>, ors: seq<OrGate>, ites: seq<IteGate>, g: GateOccurs, kept: set<nat>) {
    match g.kind
    case XorKind => g.at < |xors| && Elems(xors[g.at].vars) <= kept
    case OrKind => g.at < |ors| && Inputs([ors[g.at].rhs] + ors[g.at].lits, kept)
    case IteKind => g.at < |ites| && Inputs([ites[g.at].rhs] + ites[g.at].lhs, kept)
  }

  ghost predicate Definable(xors: seq<XorGate>, ors: seq<OrGate>, ites: seq<IteGate>, v: nat, kept: set<nat>, n: nat) {
    exists g :: Considered(xors, ors, ites, g, v, n) && Complete(xors, ors, ites, g, kept)
  }

  /** What is kept when the variables are gone through in order and each that some gate defines from what is left is
      dropped. */
  ghost function Sweep(xors: seq<XorGate>, ors: seq<OrGate>, ites: seq<IteGate>, order: seq<nat>, s: set<nat>, n: nat): set<nat> {
    if order == [] then s
    else
      var kept, v := Sweep(xors, ors, ites, order[..|order| - 1], s, n), order[|order| - 1];
      if Definable(xors, ors, ites, v, kept, n) then kept - {v} else kept
  }

  lemma SweepNext(xors: seq<XorGate>, ors: seq<OrGate>, ites: seq<IteGate>, order: seq<nat>, k: nat, s: set<nat>, n: nat)
    requires k < |order|
    ensures var kept := Sweep(xors, ors, ites, order[..k], s, n);
            Sweep(xors, ors, ites, order[..k + 1], s, n) == if Definable(xors, ors, ites, order[k], kept, n) then kept - {order[k]} else kept
  {
    assert order[..k + 1][..k] == order[..k];
  }

  lemma CompleteMeans(xors: seq<XorGate>, ors: seq<OrGate>, ites: seq<IteGate>, g: GateOccurs, seen: seq<bool>, n: nat)
    requires n <= |seen| && forall v :: v in Seen(seen) ==> v < n
    ensures Complete(xors, ors, ites, g, Seen(seen)) <==> Live(xors, ors, ites, g, seen, n)
  {
    match g.kind
    case XorKind =>
      if g.at < |xors| { VarsComplete(xors[g.at].vars, seen, n); }
    case OrKind =>
    case IteKind =>
  }

  lemma VarsComplete(vars: seq<nat>, seen: seq<bool>, n: nat)
    requires n <= |seen| && forall v :: v in Seen(seen) ==> v < n
    ensures Elems(vars) <= Seen(seen) <==> VarsSeen(vars, seen, n)
  {
    if Elems(vars) <= Seen(seen) {
      forall i | 0 <= i < |vars| ensures vars[i] < n && seen[vars[i]] { assert vars[i] in Elems(vars); }
    }
  }

  method AllSeenVars(vars: seq<nat>, seen: seq<bool>, n: nat) returns (ok: bool)
    requires n <= |seen|
    ensures ok <==> VarsSeen(vars, seen, n)
  {
    for i := 0 to |vars|
      invariant forall k :: 0 <= k < i ==> vars[k] < n && seen[vars[k]]
    {
      if vars[i] >= n || !seen[vars[i]] { return false; }
    }
    return true;
  }

  method AllSeenLits(ls: seq<Lit>, seen: seq<bool>, n: nat) returns (ok: bool)
    requires n <= |seen|
    ensures ok <==> LitsSeen(ls, seen, n)
  {
    for i := 0 to |ls|
      invariant forall k :: 0 <= k < i ==> ls[k].v < n && seen[ls[k].v]
    {
      if ls[i].v >= n || !seen[ls[i].v] { return false; }
    }
    return true;
  }

  lemma SeenCons(l: Lit, ls: seq<Lit>, seen: seq<bool>, n: nat)
    requires n <= |seen|
    ensures LitsSeen([l] + ls, seen, n) <==> l.v < n && seen[l.v] && LitsSeen(ls, seen, n)
  {
    var all := [l] + ls;
    assert all[0] == l && forall i :: 0 <= i < |ls| ==> all[i + 1] == ls[i];
    if LitsSeen(all, seen, n) {
      forall i | 0 <= i < |ls| ensures ls[i].v < n && seen[ls[i].v] { assert all[i + 1] == ls[i]; }
    }
  }

  /** Records a gate at a variable. */
  method Record(occ0: seq<seq<GateOccurs>>, v: nat, g: GateOccurs) returns (occ: seq<seq<GateOccurs>>)
    requires v < |occ0|
    ensures |occ| == |occ0| && g in occ[v]
    ensures forall w, h :: 0 <= w < |occ| ==> (h in occ[w] <==> h in occ0[w] || (w == v && h == g))
  {
    occ := occ0[v := occ0[v] + [g]];
  }

  /** Every recorded gate defines the variable it is recorded at. */
  ghost predicate Occurs(xors: seq<XorGate>, ors: seq<OrGate>, ites: seq<IteGate>, occ: seq<seq<GateOccurs>>, n: nat) {
    |occ| == n && forall v: nat, g :: v < n && g in occ[v] ==> Defines(xors, ors, ites, g, v, n)
  }

  ghost predicate Grows(occ0: seq<seq<GateOccurs>>, occ: seq<seq<GateOccurs>>) {
    |occ| == |occ0| && forall v, g :: 0 <= v < |occ| && g in occ0[v] ==> g in occ[v]
  }

  ghost predicate XorRecorded(vars: seq<nat>, i: nat, occ: seq<seq<GateOccurs>>) {
    forall k :: 0 <= k < |vars| ==> vars[k] < |occ| && GateOccurs(XorKind, i) in occ[vars[k]]
  }

  /** Records the XOR gates over sampling variables at each of their variables. */
  method BuildXorOccurs(xors: seq<XorGate>, ghost ors: seq<OrGate>, ghost ites: seq<IteGate>, occ0: seq<seq<GateOccurs>>,
                        seen: seq<bool>, n: nat)
    returns (occ: seq<seq<GateOccurs>>)
    requires n <= |seen| && Occurs(xors, ors, ites, occ0, n)
    ensures Occurs(xors, ors, ites, occ, n) && Grows(occ0, occ)
    ensures forall i :: 0 <= i < |xors| && VarsSeen(xors[i].vars, seen, n) ==> XorRecorded(xors[i].vars, i, occ)
  {
    occ := occ0;
    for i := 0 to |xors|
      invariant Occurs(xors, ors, ites, occ, n) && Grows(occ0, occ)
      invariant forall j :: 0 <= j < i && VarsSeen(xors[j].vars, seen, n) ==> XorRecorded(xors[j].vars, j, occ)
    {
      var ok := AllSeenVars(xors[i].vars, seen, n);
      if ok {
        occ := RecordXor(xors, ors, ites, occ, i, n);
      }
    }
  }

  method RecordXor(xors: seq<XorGate>, ghost ors: seq<OrGate>, ghost ites: seq<IteGate>, occ0: seq<seq<GateOccurs>>, i: nat, n: nat)
    returns (occ: seq<seq<GateOccurs>>)
    requires i < |xors| && Bounded(xors[i].vars, n) && Occurs(xors, ors, ites, occ0, n)
    ensures Occurs(xors, ors, ites, occ, n) && Grows(occ0, occ)
    ensures XorRecorded(xors[i].vars, i, occ)
  {
    occ := occ0;
    var vars := xors[i].vars;
    for k := 0 to |vars|
      invariant Occurs(xors, ors, ites, occ, n) && Grows(occ0, occ)
      invariant forall j :: 0 <= j < k ==> GateOccurs(XorKind, i) in occ[vars[j]]
    {
      occ := Record(occ, vars[k], GateOccurs(XorKind, i));
    }
  }

  /** Stops at the first gate whose output is not an original variable. */
  method BuildOrOccurs(ghost xors: seq<XorGate>, ors: seq<OrGate>, ghost ites: seq<IteGate>, occ0: seq<seq<GateOccurs>>,
                       seen: seq<bool>, n: nat)
    returns (occ: seq<seq<GateOccurs>>)
    requires n <= |seen| && Occurs(xors, ors, ites, occ0, n)
    ensures Occurs(xors, ors, ites, occ, n) && Grows(occ0, occ)
    ensures forall i :: 0 <= i < |ors| && OutputsBelow(ors, i, n) && LitsSeen([ors[i].rhs] + ors[i].lits, seen, n) ==>
              GateOccurs(OrKind, i) in occ[ors[i].rhs.v]
  {
    occ := occ0;
    for i := 0 to |ors|
      invariant Occurs(xors, ors, ites, occ, n) && Grows(occ0, occ)
      invariant forall j :: 0 <= j < i ==> ors[j].rhs.v < n
      invariant forall j :: 0 <= j < i && LitsSeen([ors[j].rhs] + ors[j].lits, seen, n) ==> GateOccurs(OrKind, j) in occ[ors[j].rhs.v]
    {
      var ok := AllSeenLits(ors[i].lits, seen, n);
      SeenCons(ors[i].rhs, ors[i].lits, seen, n);
      if ors[i].rhs.v >= n { break; }
      if ok && seen[ors[i].rhs.v] {
        occ := Record(occ, ors[i].rhs.v, GateOccurs(OrKind, i));
      }
    }
  }

  method BuildIteOccurs(ghost xors: seq<XorGate>, ghost ors: seq<OrGate>, ites: seq<IteGate>, occ0: seq<seq<GateOccurs>>,
                        seen: seq<bool>, n: nat)
    returns (occ: seq<seq<GateOccurs>>)
    requires n <= |seen| && Occurs(xors, ors, ites, occ0, n)
    ensures Occurs(xors, ors, ites, occ, n) && Grows(occ0, occ)
    ensures forall i :: 0 <= i < |ites| && LitsSeen([ites[i].rhs] + ites[i].lhs, seen, n) ==>
              ites[i].rhs.v < n && GateOccurs(IteKind, i) in occ[ites[i].rhs.v]
  {
    occ := occ0;
    for i := 0 to |ites|
      invariant Occurs(xors, ors, ites, occ, n) && Grows(occ0, occ)
      invariant forall j :: 0 <= j < i && LitsSeen([ites[j].rhs] + ites[j].lhs, seen, n) ==>
                  ites[j].rhs.v < n && GateOccurs(IteKind, j) in occ[ites[j].rhs.v]
    {
      var ok := AllSeenLits(ites[i].lhs, seen, n);
      SeenCons(ites[i].rhs, ites[i].lhs, seen, n);
      if ok && ites[i].rhs.v < n && seen[ites[i].rhs.v] {
        occ := Record(occ, ites[i].rhs.v, GateOccurs(IteKind, i));
      }
    }
  }

  /** Every live considered gate is recorded. */
  ghost predicate AllRecorded(xors: seq<XorGate>, ors: seq<OrGate>, ites: seq<IteGate>, occ: seq<seq<GateOccurs>>, seen: seq<bool>, n: nat) {
    |occ| == n && forall g, v: nat :: Considered(xors, ors, ites, g, v, n) && Live(xors, ors, ites, g, seen, n) ==> v < n && g in occ[v]
  }

  method BuildOccurs(xors: seq<XorGate>, ors: seq<OrGate>, ites: seq<IteGate>, seen: seq<bool>, n: nat)
    returns (occ: seq<seq<GateOccurs>>)
    requires n <= |seen|
    ensures Occurs(xors, ors, ites, occ, n) && AllRecorded(xors, ors, ites, occ, seen, n)
  {
    occ := seq(n, _ => []);
    occ := BuildXorOccurs(xors, ors, ites, occ, seen, n);
    ghost var occ1 := occ;
    occ := BuildOrOccurs(xors, ors, ites, occ, seen, n);
    ghost var occ2 := occ;
    occ := BuildIteOccurs(xors, ors, ites, occ, seen, n);
    forall g, v: nat | Considered(xors, ors, ites, g, v, n) && Live(xors, ors, ites, g, seen, n) ensures v < n && g in occ[v] {
      match g.kind
      case XorKind =>
        assert XorRecorded(xors[g.at].vars, g.at, occ1) && g == GateOccurs(XorKind, g.at);
        assert g in occ1[v] && g in occ2[v];
      case OrKind => assert g == GateOccurs(OrKind, g.at) && g in occ2[v];
      case IteKind => assert g == GateOccurs(IteKind, g.at);
    }
  }

  /** Are all inputs of the gate still in the sampling set? For an XOR that includes the variable itself. */
  method InputsStillSeen(xors: seq<XorGate>, ors: seq<OrGate>, ites: seq<IteGate>, g: GateOccurs, seen: seq<bool>,
                         ghost f: Formula, v: nat, n: nat)
    returns (ok: bool)
    requires n <= |seen| && v < n && Defines(xors, ors, ites, g, v, n) && GatesEntailed(f, xors, ors, ites)
    ensures ok ==> Determines(f, Seen(seen) - {v}, v)
    ensures seen[v] ==> (ok <==> Live(xors, ors, ites, g, seen, n))
  {
    match g.kind
    case XorKind =>
      ok := AllSeenVars(xors[g.at].vars, seen, n);
      if ok {
        assert forall w :: w in Elems(xors[g.at].vars) ==> w in Seen(seen);
        XorDetermines(f, xors[g.at], v, Seen(seen) - {v});
      }
    case OrKind =>
      ok := AllSeenLits(ors[g.at].lits, seen, n);
      SeenCons(ors[g.at].rhs, ors[g.at].lits, seen, n);
      if ok { OrDetermines(f, ors[g.at], Seen(seen) - {v}); }
    case IteKind =>
      ok := AllSeenLits(ites[g.at].lhs, seen, n);
      SeenCons(ites[g.at].rhs, ites[g.at].lhs, seen, n);
      if ok { IteDetermines(f, ites[g.at], Seen(seen) - {v}); }
  }

  /** Unmarks v when one of its gates still has all its inputs; afterwards none of its gates is live. */
  method TryDefine(xors: seq<XorGate>, ors: seq<OrGate>, ites: seq<IteGate>, occ: seq<seq<GateOccurs>>, seen0: seq<bool>,
                   ghost f: Formula, ghost s: set<nat>, v: nat, n: nat)
    returns (seen: seq<bool>)
    requires n <= |seen0| && v < n && seen0[v] && Occurs(xors, ors, ites, occ, n) && GatesEntailed(f, xors, ors, ites)
    requires Supports(f, Seen(seen0), s) && (forall w :: w in Seen(seen0) ==> w < n)
    requires forall g :: Considered(xors, ors, ites, g, v, n) && Live(xors, ors, ites, g, seen0, n) ==> g in occ[v]
    ensures seen == if Definable(xors, ors, ites, v, Seen(seen0), n) then seen0[v := false] else seen0
    ensures Supports(f, Seen(seen), s)
    ensures forall g :: g in occ[v] ==> !Live(xors, ors, ites, g, seen, n)
  {
    seen := seen0;
    for k := 0 to |occ[v]|
      invariant seen == seen0
      invariant forall j :: 0 <= j < k ==> !Live(xors, ors, ites, occ[v][j], seen0, n)
    {
      assert occ[v][k] in occ[v];
      var ok := InputsStillSeen(xors, ors, ites, occ[v][k], seen, f, v, n);
      if ok {
        DefinedBy(xors, ors, ites, occ[v][k], seen0, v, n);
        DropDetermined(f, Seen(seen), v, s);
        UnmarkOne(seen, v);
        seen := seen[v := false];
        forall g | g in occ[v] ensures !Live(xors, ors, ites, g, seen, n) { OutputNeeded(xors, ors, ites, g, seen, v, n); }
        return;
      }
    }
    NotDefinable(xors, ors, ites, occ[v], seen0, v, n);
  }

  lemma DefinedBy(xors: seq<XorGate>, ors: seq<OrGate>, ites: seq<IteGate>, g: GateOccurs, seen: seq<bool>, v: nat, n: nat)
    requires n <= |seen| && (forall w :: w in Seen(seen) ==> w < n)
    requires Defines(xors, ors, ites, g, v, n) && Live(xors, ors, ites, g, seen, n)
    ensures Definable(xors, ors, ites, v, Seen(seen), n)
  {
    CompleteMeans(xors, ors, ites, g, seen, n);
    assert Considered(xors, ors, ites, g, v, n);
  }

  lemma NotDefinable(xors: seq<XorGate>, ors: seq<OrGate>, ites: seq<IteGate>, occ: seq<GateOccurs>, seen: seq<bool>, v: nat, n: nat)
    requires n <= |seen| && (forall w :: w in Seen(seen) ==> w < n)
    requires forall g :: Considered(xors, ors, ites, g, v, n) && Live(xors, ors, ites, g, seen, n) ==> g in occ
    requires forall j :: 0 <= j < |occ| ==> !Live(xors, ors, ites, occ[j], seen, n)
    ensures !Definable(xors, ors, ites, v, Seen(seen), n)
  {
    if g :| Considered(xors, ors, ites, g, v, n) && Complete(xors, ors, ites, g, Seen(seen)) {
      CompleteMeans(xors, ors, ites, g, seen, n);
      assert false;
    }
  }

  /** A gate is not live without the variable it defines. */
  lemma OutputNeeded(xors: seq<XorGate>, ors: seq<OrGate>, ites: seq<IteGate>, g: GateOccurs, seen: seq<bool>, v: nat, n: nat)
    requires n <= |seen| && v < n && !seen[v] && Defines(xors, ors, ites, g, v, n)
    ensures !Live(xors, ors, ites, g, seen, n)
  {
    match g.kind
    case XorKind =>
    case OrKind => SeenCons(ors[g.at].rhs, ors[g.at].lits, seen, n);
    case IteKind => SeenCons(ites[g.at].rhs, ites[g.at].lhs, seen, n);
  }

  lemma LiveShrinks(xors: seq<XorGate>, ors: seq<OrGate>, ites: seq<IteGate>, g: GateOccurs, seen0: seq<bool>, seen: seq<bool>, n: nat)
    requires |seen| == |seen0| && forall v :: 0 <= v < |seen| && seen[v] ==> seen0[v]
    ensures Live(xors, ors, ites, g, seen, n) ==> Live(xors, ors, ites, g, seen0, n)
  {}

  /** No considered gate is left with all its inputs and its output in the set. */
  ghost predicate NoLiveGate(xors: seq<XorGate>, ors: seq<OrGate>, ites: seq<IteGate>, kept: set<nat>, n: nat) {
    && (forall i :: 0 <= i < |xors| && xors[i].vars != [] ==> !(Elems(xors[i].vars) <= kept))
    && (forall i :: 0 <= i < |ors| && OutputsBelow(ors, i, n) ==> !Inputs([ors[i].rhs] + ors[i].lits, kept))
    && (forall i :: 0 <= i < |ites| ==> !Inputs([ites[i].rhs] + ites[i].lhs, kept))
  }

  /** Tries to define each variable in turn. */
  method DefineAll(xors: seq<XorGate>, ors: seq<OrGate>, ites: seq<IteGate>, occ: seq<seq<GateOccurs>>, order: seq<nat>,
                   seen0: seq<bool>, ghost f: Formula, n: nat)
    returns (seen: seq<bool>)
    requires n <= |seen0| && Bounded(order, n) && NoDup(order) && Seen(seen0) == Elems(order)
    requires Occurs(xors, ors, ites, occ, n) && AllRecorded(xors, ors, ites, occ, seen0, n) && GatesEntailed(f, xors, ors, ites)
    ensures |seen| == |seen0| && Seen(seen) <= Elems(order) && Supports(f, Seen(seen), Elems(order))
    ensures Seen(seen) == Sweep(xors, ors, ites, order, Elems(order), n)
    ensures NoLiveGate(xors, ors, ites, Seen(seen), n)
  {
    seen := seen0;
    ghost var s := Elems(order);
    SupportsSelf(f, s, s);
    forall j | 0 <= j < |order| ensures seen[order[j]] { assert order[j] in Elems(order) && order[j] in Seen(seen0); }
    for k := 0 to |order|
      invariant |seen| == |seen0| && Supports(f, Seen(seen), s)
      invariant forall v :: 0 <= v < |seen| && seen[v] ==> seen0[v]
      invariant Seen(seen) == Sweep(xors, ors, ites, order[..k], s, n)
      invariant forall j :: k <= j < |order| ==> seen[order[j]]
      invariant forall j, g :: 0 <= j < k && g in occ[order[j]] ==> !Live(xors, ors, ites, g, seen, n)
    {
      ghost var before := seen;
      SweepNext(xors, ors, ites, order, k, s, n);
      StillRecorded(xors, ors, ites, occ, order, seen0, seen, order[k], n);
      UnmarkOne(seen, order[k]);
      seen := TryDefine(xors, ors, ites, occ, seen, f, s, order[k], n);
      forall j, g | 0 <= j < k && g in occ[order[j]] ensures !Live(xors, ors, ites, g, seen, n) {
        LiveShrinks(xors, ors, ites, g, before, seen, n);
      }
    }
    assert order[..|order|] == order;
    NothingLive(xors, ors, ites, occ, order, seen0, seen, n);
  }

  lemma StillRecorded(xors: seq<XorGate>, ors: seq<OrGate>, ites: seq<IteGate>, occ: seq<seq<GateOccurs>>, order: seq<nat>,
                      seen0: seq<bool>, seen: seq<bool>, v: nat, n: nat)
    requires n <= |seen0| == |seen| && v < n && Bounded(order, n) && Seen(seen0) == Elems(order)
    requires AllRecorded(xors, ors, ites, occ, seen0, n) && forall w :: 0 <= w < |seen| && seen[w] ==> seen0[w]
    ensures forall w :: w in Seen(seen) ==> w < n
    ensures forall g :: Considered(xors, ors, ites, g, v, n) && Live(xors, ors, ites, g, seen, n) ==> g in occ[v]
  {
    forall w | w in Seen(seen) ensures w < n { assert w in Seen(seen0); }
    forall g | Considered(xors, ors, ites, g, v, n) && Live(xors, ors, ites, g, seen, n) ensures g in occ[v] {
      LiveShrinks(xors, ors, ites, g, seen0, seen, n);
    }
  }

  lemma GateDead(xors: seq<XorGate>, ors: seq<OrGate>, ites: seq<IteGate>, occ: seq<seq<GateOccurs>>, order: seq<nat>,
                 seen0: seq<bool>, seen: seq<bool>, n: nat, g: GateOccurs, v: nat)
    requires n <= |seen0| == |seen| && Bounded(order, n) && Seen(seen0) == Elems(order) && |occ| == n
    requires AllRecorded(xors, ors, ites, occ, seen0, n) && (forall v :: 0 <= v < |seen| && seen[v] ==> seen0[v])
    requires forall j, g :: 0 <= j < |order| && g in occ[order[j]] ==> !Live(xors, ors, ites, g, seen, n)
    requires Considered(xors, ors, ites, g, v, n) && (v < n && seen[v] ==> v in Elems(order))
    ensures !(v < n && seen[v] && Live(xors, ors, ites, g, seen, n))
  {
    LiveShrinks(xors, ors, ites, g, seen0, seen, n);
    assert Live(xors, ors, ites, g, seen, n) ==> v < n && g in occ[v];
    if v < n && seen[v] {
      var j :| 0 <= j < |order| && order[j] == v;
      assert forall h :: h in occ[order[j]] ==> !Live(xors, ors, ites, h, seen, n);
    }
  }

  lemma NothingLive(xors: seq<XorGate>, ors: seq<OrGate>, ites: seq<IteGate>, occ: seq<seq<GateOccurs>>, order: seq<nat>,
                    seen0: seq<bool>, seen: seq<bool>, n: nat)
    requires n <= |seen0| == |seen| && Bounded(order, n) && Seen(seen0) == Elems(order) && |occ| == n
    requires AllRecorded(xors, ors, ites, occ, seen0, n) && (forall v :: 0 <= v < |seen| && seen[v] ==> seen0[v])
    requires forall j, g :: 0 <= j < |order| && g in occ[order[j]] ==> !Live(xors, ors, ites, g, seen, n)
    ensures NoLiveGate(xors, ors, ites, Seen(seen), n) && Seen(seen) <= Elems(order)
  {
    forall v | v in Seen(seen) ensures v in Elems(order) && v < n { assert v in Seen(seen0); }
    forall i | 0 <= i < |xors| && xors[i].vars != [] ensures !(Elems(xors[i].vars) <= Seen(seen)) {
      var v := xors[i].vars[0];
      GateDead(xors, ors, ites, occ, order, seen0, seen, n, GateOccurs(XorKind, i), v);
      assert forall k :: 0 <= k < |xors[i].vars| ==> xors[i].vars[k] in Elems(xors[i].vars);
    }
    forall i | 0 <= i < |ors| && OutputsBelow(ors, i, n) ensures !Inputs([ors[i].rhs] + ors[i].lits, Seen(seen)) {
      GateDead(xors, ors, ites, occ, order, seen0, seen, n, GateOccurs(OrKind, i), ors[i].rhs.v);
      InputsLive([ors[i].rhs] + ors[i].lits, seen, n);
    }
    forall i | 0 <= i < |ites| ensures !Inputs([ites[i].rhs] + ites[i].lhs, Seen(seen)) {
      GateDead(xors, ors, ites, occ, order, seen0, seen, n, GateOccurs(IteKind, i), ites[i].rhs.v);
      InputsLive([ites[i].rhs] + ites[i].lhs, seen, n);
    }
  }

  lemma InputsLive(ls: seq<Lit>, seen: seq<bool>, n: nat)
    requires n <= |seen| && ls != [] && forall v :: v in Seen(seen) ==> v < n
    ensures Inputs(ls, Seen(seen)) ==> LitsSeen(ls, seen, n) && seen[ls[0].v]
  {}

  /** Drops every sampling variable that some gate defines from variables still in the set. The gates are
      whatever the solver recovered; `draws` stands for the two orderings by incidence. */
  method RemoveDefinableByGates(c: Common, xors: seq<XorGate>, ors: seq<OrGate>, ites: seq<IteGate>, draws: nat -> nat)
    returns (changed: bool, ghost order: seq<nat>)
    requires c.solver.Valid() && c.origNumVars <= c.solver.nVars && Bounded(c.samplingSet, c.origNumVars)
    requires |c.seen| == c.solver.nVars && c.Clean() && NoDup(c.samplingSet)
    requires GatesEntailed(c.solver.Theory(), xors, ors, ites)
    modifies c`samplingSet, c`otherSamplingSet, c`seen
    ensures |c.seen| == c.solver.nVars && c.Clean() && NoDup(c.samplingSet) && Bounded(c.samplingSet, c.origNumVars)
    ensures Elems(c.samplingSet) <= Elems(old(c.samplingSet))
    ensures changed <==> Elems(c.samplingSet) != Elems(old(c.samplingSet))
    ensures Supports(c.solver.Theory(), Elems(c.samplingSet), Elems(old(c.samplingSet)))
    ensures Permutation(old(c.samplingSet), order)
    ensures Elems(c.samplingSet) == Sweep(xors, ors, ites, order, Elems(old(c.samplingSet)), c.origNumVars)
    ensures NoLiveGate(xors, ors, ites, Elems(c.samplingSet), c.origNumVars)
  {
    hide Shuffled;
    ghost var s, n := Elems(c.samplingSet), c.origNumVars;
    c.samplingSet := Permute(c.samplingSet, draws);
    ListedBelow(c.samplingSet, old(c.samplingSet), n);
    var toClear := c.samplingSet;
    MarkSampling(c);
    var occ := BuildOccurs(xors, ors, ites, c.seen, c.origNumVars);
    c.samplingSet := Permute(c.samplingSet, draws);
    ListedBelow(c.samplingSet, toClear, n);
    order := c.samplingSet;
    c.seen := DefineAll(xors, ors, ites, occ, c.samplingSet, c.seen, c.solver.Theory(), c.origNumVars);
    changed := KeepSeen(c, toClear);
    ListedBelow(c.samplingSet, toClear, n);
  }

  /** Keeps the marked entries of `toClear`, in order, and clears the marks. */
  method KeepSeen(c: Common, toClear: seq<nat>) returns (changed: bool)
    requires NoDup(toClear) && Bounded(toClear, |c.seen|) && Seen(c.seen) <= Elems(toClear)
    requires NoDup(c.samplingSet) && Elems(c.samplingSet) == Elems(toClear)
    modifies c`samplingSet, c`otherSamplingSet, c`seen
    ensures |c.seen| == old(|c.seen|) && c.Clean()
    ensures c.samplingSet == Filter(toClear, old(c.seen)) && Elems(c.samplingSet) == Seen(old(c.seen)) && NoDup(c.samplingSet)
    ensures changed <==> Elems(c.samplingSet) != Elems(toClear)
  {
    ghost var marked := c.seen;
    c.otherSamplingSet := [];
    for i := 0 to |toClear|
      invariant |c.seen| == |marked| && c.samplingSet == old(c.samplingSet)
      invariant c.otherSamplingSet == Filter(toClear[..i], marked)
      invariant forall v :: 0 <= v < |marked| ==> (c.seen[v] <==> marked[v] && v !in toClear[..i])
    {
      FilterStep(toClear, marked, i);
      assert toClear[..i + 1] == toClear[..i] + [toClear[i]] && toClear[i] !in toClear[..i];
      if c.seen[toClear[i]] { c.otherSamplingSet := c.otherSamplingSet + [toClear[i]]; }
      c.seen := c.seen[toClear[i] := false];
    }
    assert toClear[..|toClear|] == toClear;
    FilterSeen(toClear, marked);
    FilterNoDup(toClear, marked);
    forall v | 0 <= v < |marked| && marked[v] ensures v in toClear { assert v in Seen(marked); }
    NoDupSize(c.samplingSet);
    NoDupSize(c.otherSamplingSet);
    SmallerSet(Seen(marked), Elems(toClear));
    changed := |c.samplingSet| > |c.otherSamplingSet|;
    c.samplingSet, c.otherSamplingSet := c.otherSamplingSet, c.samplingSet;
  }

  lemma FilterSeen(s: seq<nat>, flag: seq<bool>)
    requires Bounded(s, |flag|) && Seen(flag) <= Elems(s)
    ensures Elems(Filter(s, flag)) == Seen(flag)
  {
    forall v: nat | true ensures v in Filter(s, flag) <==> v in Seen(flag) {
      FilterMember(s, flag, v);
      assert v in Seen(flag) ==> v in Elems(s);
    }
  }

  lemma SmallerSet(a: set<nat>, b: set<nat>)
    requires a <= b
    ensures |a| <= |b| && (|a| == |b| <==> a == b)
  {
    assert b == a + (b - a);
  }

  lemma ListedBelow(s: seq<nat>, r: seq<nat>, n: nat)
    requires Elems(s) <= Elems(r) && Bounded(r, n)
    ensures Bounded(s, n)
  {
    assert forall v :: v in Elems(r) ==> v < n;
    assert forall i :: 0 <= i < |s| ==> s[i] in Elems(s);
  }

  // ---- backbone ----

  /** Variable v has the same value in all models. */
  ghost predicate Constant(f: Formula, v: nat) {
    forall a, b :: Satisfies(f, a) && Satisfies(f, b) && v < f.n ==> a[v] == b[v]
  }

  /** Some unit clause fixes v. */
  ghost predicate FixedByUnit(cs: seq<Clause>, v: nat) {
    exists k :: 0 <= k < |cs| && |cs[k]| == 1 && cs[k][0].v == v
  }

  lemma UnitMakesConstant(f: Formula, v: nat)
    requires FixedByUnit(f.clauses, v)
    ensures Constant(f, v)
  {
    var k :| 0 <= k < |f.clauses| && |f.clauses[k]| == 1 && f.clauses[k][0].v == v;
    forall a | Satisfies(f, a) && v < f.n ensures a[v] != f.clauses[k][0].sign { assert ClauseTrue(f.clauses[k], a); }
  }

  /** The variables in order are neither fixed at level zero nor empty. */
  ghost predicate Candidates(order: seq<nat>, zero: seq<Lit>, empty: seq<nat>, n: nat) {
    forall v :: v in order <==> 0 <= v < n && !MentionsVar(zero, v) && v !in empty
  }

  /** Solver-facing state of the loop: the models are unchanged, `model` is one of them, and each of the
      first i candidates that is constant is fixed. */
  ghost predicate Backboned(f0: Formula, f: Formula, model: Assignment, enabled: seq<bool>, order: seq<nat>, i: nat) {
    && i <= |order| && SameModels(f0, f) && f0.n == f.n == |enabled| && Satisfies(f0, model)
    && (forall v :: 0 <= v < |enabled| && !enabled[v] ==> !Constant(f0, v))
    && (forall k :: 0 <= k < i ==> (Constant(f0, order[k]) ==> FixedByUnit(f.clauses, order[k])))
  }

  lemma NoLongerConstant(f: Formula, v: nat, m: Assignment, k: Assignment)
    requires Satisfies(f, m) && Satisfies(f, k) && v < f.n && m[v] != k[v]
    ensures !Constant(f, v)
  {}

  /** All models agree with l, so the clause [l] takes none away. */
  lemma AddBackbone(f0: Formula, f: Formula, l: Lit)
    requires SameModels(f0, f) && l.v < f.n && f0.n == f.n
    requires forall a :: Satisfies(f, a) ==> !AllTrue([Lit(l.v, !l.sign)], a)
    ensures SameModels(f0, f.(clauses := f.clauses + [[l]]))
    ensures FixedByUnit(f.clauses + [[l]], l.v)
  {
    AddingConstrains(f, [l]);
    forall a | Satisfies(f, a) ensures ClauseTrue([l], a) {
      assert AllTrue([Lit(l.v, !l.sign)], a) <==> LitTrue(Lit(l.v, !l.sign), a);
      assert LitTrue([l][0], a);
    }
    var cs: seq<Clause> := f.clauses + [[l]];
    assert cs[|f.clauses|] == [l] && [l][0].v == l.v;
  }

  lemma FixedStays(cs: seq<Clause>, more: seq<Clause>, v: nat)
    requires FixedByUnit(cs, v)
    ensures FixedByUnit(cs + more, v)
  {
    var k :| 0 <= k < |cs| && |cs[k]| == 1 && cs[k][0].v == v;
    assert (cs + more)[k] == cs[k];
  }

  datatype Progress = Continue | Stop | Unsat

  /** Marks what is fixed or empty, lists the rest, and unmarks again. */
  method BackboneCandidates(c: Common) returns (order: seq<nat>, ghost zero: seq<Lit>)
    requires c.solver.Valid() && |c.seen| == c.solver.nVars && c.Clean() && Bounded(c.emptyOccs, c.solver.nVars)
    modifies c`seen, c.solver`history
    ensures c.solver.history == old(c.solver.history) + [FixedLits(zero)]
    ensures |c.seen| == c.solver.nVars && c.Clean()
    ensures Candidates(order, zero, c.emptyOccs, c.solver.nVars)
    ensures forall i :: 0 <= i < |c.solver.clauses| && |c.solver.clauses[i]| == 1 ==> c.solver.clauses[i][0] in zero
    ensures forall i :: 0 <= i < |zero| ==> Entails(c.solver.Theory(), zero[i])
  {
    var zeroSet := c.solver.GetZeroAssignedLits();
    zero := zeroSet;
    for i := 0 to |zeroSet|
      invariant c.solver.history == old(c.solver.history) + [FixedLits(zero)]
      invariant |c.seen| == c.solver.nVars
      invariant forall v :: 0 <= v < |c.seen| ==> (c.seen[v] <==> MentionsVar(zeroSet[..i], v))
    {
      MentionsNext(zeroSet, i);
      c.seen := c.seen[zeroSet[i].v := true];
    }
    assert zeroSet[..|zeroSet|] == zeroSet;
    for i := 0 to |c.emptyOccs|
      invariant c.solver.history == old(c.solver.history) + [FixedLits(zero)]
      invariant |c.seen| == c.solver.nVars && c.emptyOccs == old(c.emptyOccs)
      invariant forall v :: 0 <= v < |c.seen| ==> (c.seen[v] <==> MentionsVar(zeroSet, v) || v in c.emptyOccs[..i])
    {
      assert c.emptyOccs[..i + 1] == c.emptyOccs[..i] + [c.emptyOccs[i]];
      c.seen := c.seen[c.emptyOccs[i] := true];
    }
    assert c.emptyOccs[..|c.emptyOccs|] == c.emptyOccs;
    order := [];
    for i := 0 to c.solver.nVars
      invariant forall v :: v in order <==> 0 <= v < i && !c.seen[v]
    {
      if !c.seen[i] { order := order + [i]; }
    }
    for i := 0 to |zeroSet|
      invariant c.solver.history == old(c.solver.history) + [FixedLits(zero)]
      invariant |c.seen| == c.solver.nVars && c.emptyOccs == old(c.emptyOccs)
      invariant forall v :: 0 <= v < |c.seen| && c.seen[v] ==> v in c.emptyOccs || MentionsVar(zeroSet[i..], v)
    {
      MentionsRest(zeroSet, i);
      c.seen := c.seen[zeroSet[i].v := false];
    }
    for i := 0 to |c.emptyOccs|
      invariant c.solver.history == old(c.solver.history) + [FixedLits(zero)]
      invariant |c.seen| == c.solver.nVars && c.emptyOccs == old(c.emptyOccs)
      invariant forall v :: 0 <= v < |c.seen| && c.seen[v] ==> v in c.emptyOccs[i..]
    {
      assert c.emptyOccs[i..] == [c.emptyOccs[i]] + c.emptyOccs[i + 1..];
      c.seen := c.seen[c.emptyOccs[i] := false];
    }
  }

  lemma MentionsRest(ls: seq<Lit>, i: nat)
    requires i < |ls|
    ensures forall v :: MentionsVar(ls[i..], v) ==> MentionsVar(ls[i + 1..], v) || v == ls[i].v
  {}

  /** Tries whether candidate v can take the other value. */
  method BackboneStep(c: Common, v: nat, model: seq<bool>, enabled0: seq<bool>, maxConfl0: int, last0: nat,
                      ghost f0: Formula, ghost order: seq<nat>, ghost i: nat)
    returns (progress: Progress, enabled: seq<bool>, maxConfl: int, last: nat)
    requires c.solver.Valid() && Backboned(f0, c.solver.Theory(), model, enabled0, order, i) && i < |order| && v == order[i]
    requires v < c.solver.nVars && enabled0[v] && last0 <= c.solver.sumConflicts && 0 <= maxConfl0
    modifies c.solver
    ensures c.solver.Valid() && c.solver.nVars == old(c.solver.nVars) && c.solver.history == old(c.solver.history)
    ensures c.solver.calls == old(c.solver.calls) + 1 && last == c.solver.sumConflicts >= old(c.solver.sumConflicts)
    ensures maxConfl == maxConfl0 - (last - last0) - 100
    ensures old(c.solver.undefs) <= c.solver.undefs && (c.solver.undefs > old(c.solver.undefs) ==> maxConfl < 0)
    ensures progress == Continue <==> c.solver.undefs == old(c.solver.undefs) && 0 <= maxConfl && progress != Unsat
    ensures progress != Unsat && old(c.solver.okay) ==> c.solver.okay
    ensures progress == Continue ==> Backboned(f0, c.solver.Theory(), model, enabled, order, i + 1)
    ensures progress != Continue ==> SameModels(f0, c.solver.Theory())
    ensures progress == Unsat ==> !c.solver.okay
  {
    enabled, maxConfl, last := enabled0, maxConfl0, last0;
    var l := Lit(v, !model[v]);
    c.solver.SetMaxConfl(maxConfl);
    ghost var f := c.solver.Theory();
    var ret := c.solver.Solve([Lit(l.v, !l.sign)]);
    assert c.solver.Theory() == f;
    assert last <= c.solver.sumConflicts;
    maxConfl := maxConfl - (c.solver.sumConflicts - last);
    maxConfl := maxConfl - 100;
    last := c.solver.sumConflicts;
    if ret == True {
      var thisModel := c.solver.GetModel();
      assert LitTrue([Lit(l.v, !l.sign)][0], thisModel);
      enabled := DisableDiffering(f0, model, thisModel, enabled);
      NoLongerConstant(f0, v, model, thisModel);
    } else if ret == False {
      AddBackbone(f0, f, l);
      KeepFixed(f0, f, model, enabled, order, i, l);
      var okay := c.solver.AddClause([l]);
      assert c.solver.Theory() == f.(clauses := f.clauses + [[l]]);
      if !okay { progress := Unsat; return; }
    }
    progress := if ret == Undef || maxConfl < 0 then Stop else Continue;
  }

  lemma KeepFixed(f0: Formula, f: Formula, model: Assignment, enabled: seq<bool>, order: seq<nat>, i: nat, l: Lit)
    requires Backboned(f0, f, model, enabled, order, i) && i < |order| && order[i] == l.v
    requires SameModels(f0, f.(clauses := f.clauses + [[l]])) && FixedByUnit(f.clauses + [[l]], l.v)
    ensures Backboned(f0, f.(clauses := f.clauses + [[l]]), model, enabled, order, i + 1)
  {
    forall k | 0 <= k < i + 1 && Constant(f0, order[k]) ensures FixedByUnit(f.clauses + [[l]], order[k]) {
      if k < i { FixedStays(f.clauses, [[l]], order[k]); }
    }
  }

  /** Variables on which two models differ need not be tried. */
  method DisableDiffering(ghost f: Formula, model: seq<bool>, other: seq<bool>, enabled0: seq<bool>) returns (enabled: seq<bool>)
    requires Satisfies(f, model) && Satisfies(f, other) && |enabled0| == f.n
    requires forall v :: 0 <= v < |enabled0| && !enabled0[v] ==> !Constant(f, v)
    ensures |enabled| == |enabled0|
    ensures forall v :: 0 <= v < |enabled| && !enabled[v] ==> !Constant(f, v)
  {
    enabled := enabled0;
    for i := 0 to |other|
      invariant |enabled| == |enabled0|
      invariant forall v :: 0 <= v < |enabled| && !enabled[v] ==> !Constant(f, v)
    {
      if other[i] != model[i] {
        NoLongerConstant(f, i, model, other);
        enabled := enabled[i := false];
      }
    }
  }

  /** Finds the literals that hold in all models and adds them as unit clauses. `order` are the candidates, in the shuffled
      order. If there are any, and no contradiction is found, all of them are settled exactly when every query is answered
      and the limit is not exceeded by the conflicts and 100 for every query after the first. */
  method BackboneSimpl(c: Common, maxConfl0: nat, draws: nat -> nat)
    returns (ok: bool, finished: bool, ghost order: seq<nat>, ghost zero: seq<Lit>)
    requires c.solver.Valid() && |c.seen| == c.solver.nVars && c.Clean() && Bounded(c.emptyOccs, c.solver.nVars)
    modifies c.solver, c`seen
    ensures c.solver.Valid() && c.solver.nVars == old(c.solver.nVars) && |c.seen| == c.solver.nVars && c.Clean()
    ensures SameModels(old(c.solver.Theory()), c.solver.Theory())
    ensures !ok ==> !c.solver.okay
    ensures ok && old(c.solver.okay) ==> c.solver.okay
    ensures c.solver.history == old(c.solver.history) + [FixedLits(zero)] && c.solver.sumConflicts >= old(c.solver.sumConflicts)
    ensures forall i :: 0 <= i < |zero| ==> Entails(old(c.solver.Theory()), zero[i])
    ensures Candidates(order, zero, c.emptyOccs, c.solver.nVars)
    ensures finished ==> forall v :: v in order ==> (FixedByUnit(c.solver.clauses, v) <==> Constant(old(c.solver.Theory()), v))
    ensures order == [] ==> ok && !finished && c.solver.calls == old(c.solver.calls)
    ensures ok && order != [] ==>
              (finished <==> c.solver.undefs == old(c.solver.undefs)
                             && c.solver.sumConflicts + 100 * (c.solver.calls - old(c.solver.calls) - 1) <= maxConfl0)
    ensures ok && order != [] && !finished ==> c.solver.sumConflicts + 100 * (c.solver.calls - old(c.solver.calls) - 1) >= maxConfl0
  {
    hide Shuffled;
    ghost var f0 := c.solver.Theory();
    ok, finished := true, false;
    var varOrder;
    varOrder, zero := BackboneCandidates(c);
    order := varOrder;
    if varOrder == [] { return; }
    varOrder := Permute(varOrder, draws);
    SameMembers(order, varOrder);
    order := varOrder;
    var maxConfl: int := maxConfl0;
    c.solver.SetMaxConfl(maxConfl0);
    maxConfl := maxConfl - c.solver.sumConflicts;
    var last := c.solver.sumConflicts;
    var ret := c.solver.SolveAll();
    assert c.solver.Theory() == f0;
    if ret == False { ok := false; return; }
    if ret == Undef || maxConfl < 0 { return; }
    var model := c.solver.GetModel();
    assert forall i :: 0 <= i < |varOrder| ==> varOrder[i] in varOrder;
    ok, finished := BackboneLoop(c, varOrder, model, maxConfl, last);
  }

  lemma SameMembers(s: seq<nat>, r: seq<nat>)
    requires Elems(s) == Elems(r)
    ensures forall v :: v in s <==> v in r
  {
    assert forall v :: v in s <==> v in Elems(s);
    assert forall v :: v in r <==> v in Elems(r);
  }

  method BackboneLoop(c: Common, order: seq<nat>, model: seq<bool>, maxConfl0: nat, last0: nat) returns (ok: bool, finished: bool)
    requires c.solver.Valid() && order != [] && Bounded(order, c.solver.nVars) && Satisfies(c.solver.Theory(), model)
    requires last0 <= c.solver.sumConflicts
    modifies c.solver
    ensures c.solver.Valid() && c.solver.nVars == old(c.solver.nVars) && SameModels(old(c.solver.Theory()), c.solver.Theory())
    ensures !ok ==> !c.solver.okay
    ensures ok && old(c.solver.okay) ==> c.solver.okay
    ensures finished ==> ok && c.solver.okay
    ensures finished ==> forall v :: v in order ==> (FixedByUnit(c.solver.clauses, v) <==> Constant(old(c.solver.Theory()), v))
    ensures c.solver.history == old(c.solver.history) && c.solver.sumConflicts >= old(c.solver.sumConflicts)
    ensures c.solver.calls > old(c.solver.calls) && c.solver.undefs >= old(c.solver.undefs)
    ensures ok ==> (finished <==> c.solver.undefs == old(c.solver.undefs)
                                  && c.solver.sumConflicts - last0 + 100 * (c.solver.calls - old(c.solver.calls)) <= maxConfl0)
    ensures ok && !finished ==> c.solver.sumConflicts - last0 + 100 * (c.solver.calls - old(c.solver.calls)) > maxConfl0
  {
    ghost var f0 := c.solver.Theory();
    ok, finished := true, false;
    var enabled, maxConfl: int := seq(c.solver.nVars, _ => true), maxConfl0;
    var last: nat := last0;
    for i := 0 to |order|
      invariant c.solver.Valid() && c.solver.nVars == old(c.solver.nVars) && c.solver.history == old(c.solver.history)
      invariant c.solver.undefs == old(c.solver.undefs) && (old(c.solver.okay) ==> c.solver.okay)
      invariant c.solver.sumConflicts >= old(c.solver.sumConflicts) >= last0
      invariant if c.solver.calls == old(c.solver.calls) then i == 0 && last == last0 && enabled == seq(c.solver.nVars, _ => true)
                else c.solver.calls > old(c.solver.calls) && last == c.solver.sumConflicts
      invariant maxConfl == maxConfl0 - (last - last0) - 100 * (c.solver.calls - old(c.solver.calls)) && 0 <= maxConfl
      invariant Backboned(f0, c.solver.Theory(), model, enabled, order, i)
    {
      if enabled[order[i]] {
        var progress;
        progress, enabled, maxConfl, last := BackboneStep(c, order[i], model, enabled, maxConfl, last, f0, order, i);
        if progress == Unsat { ok := false; return; }
        if progress == Stop { return; }
      }
    }
    finished := true;
    assert Satisfies(c.solver.Theory(), model);
    assert c.solver.okay;
    forall v | v in order ensures FixedByUnit(c.solver.clauses, v) <==> Constant(f0, v) {
      if FixedByUnit(c.solver.clauses, v) { UnitMakesConstant(c.solver.Theory(), v); }
    }
  }
}
