/** The stages of a run: simplifying the sampling set, duplicating the problem, and the rounds. */
module Pipeline {
  import opened Seqs
  import opened Logic
  import opened Doubling
  import opened Sat
  import opened Groups
  import opened Minimisation
  import opened CommonState
  import opened Simplification
  import Backward
  import Forward
  import Guess

  /** The switches of the program that matter here. */
  datatype Config = Config(simp: bool, preSimplify: bool, backbone: bool, probe: bool, gaussJordan: bool,
                           guess: bool, forward: bool, forwardGroup: nat, backward: bool)

  // ---- simplifying the sampling set ----

  /** What the solver said while the sampling set was simplified: what it had fixed when the backbone search began, the
      answers of the first removals, the variables that were probed, and the answers of the removals after that. */
  datatype Told = Told(zero: seq<Lit>, first: seq<Event>, probed: seq<nat>, second: seq<Event>)

  function Probes(vs: seq<nat>): seq<Event> {
    seq(|vs|, i requires 0 <= i < |vs| => Probed(Lit(vs[i], false)))
  }

  /** All that the simplification asks of the solver besides satisfiability, in order. */
  function Conversation(conf: Config, told: Told): seq<Event> {
    (if conf.preSimplify then [Event.Simplified] else [])
    + (if conf.backbone then [FixedLits(told.zero)] else [])
    + told.first
    + (if conf.probe then Probes(told.probed) + [Event.Simplified] + told.second else [])
  }

  datatype Removal = Equal | Fixed

  /** The answers are those the removals ask for. */
  ghost predicate Fits(removals: seq<Removal>, told: seq<Event>) {
    |told| == |removals| && forall i :: 0 <= i < |told| ==> if removals[i] == Equal then told[i].EqualLits? else told[i].FixedLits?
  }

  /** What the answers leave of s, taken in order. */
  ghost function After(s: set<nat>, told: seq<Event>): set<nat> {
    if told == [] then s
    else
      var left := After(s, told[..|told| - 1]);
      match told[|told| - 1]
      case EqualLits(pairs) => left - Equated(pairs, left)
      case FixedLits(zero) => left - FixedVars(zero)
      case _ => left
  }

  /** Of the pair 0 = 2 the first end goes; then 1, which is fixed. */
  lemma AfterBoth()
    ensures After({0, 1, 2, 3}, [EqualLits([(Lit(0, false), Lit(2, false))]), FixedLits([Lit(1, true)])]) == {2, 3}
  {
    var pair, s: set<nat> := (Lit(0, false), Lit(2, false)), {0, 1, 2, 3};
    var told := [EqualLits([pair]), FixedLits([Lit(1, true)])];
    var none: seq<(Lit, Lit)> := [];
    assert [pair][..0] == none && Equated([pair], s) == {0};
    assert FixedVars([Lit(1, true)]) == {1};
    assert told[..1] == [EqualLits([pair])] && told[..1][..0] == [];
    assert After(s, told[..1]) == {1, 2, 3};
  }

  /** The simplified sampling set r, as the answers leave it: equal literals first, then fixed ones; with probing, which
      tries all that is left then, once more the other way round. */
  ghost predicate Cleaned(conf: Config, s: seq<nat>, told: Told, r: seq<nat>) {
    var mid := After(Elems(s), told.first);
    && Fits([Equal, Fixed], told.first)
    && (if conf.probe then NoDup(told.probed) && Elems(told.probed) == mid && Fits([Fixed, Equal], told.second) else told.second == [])
    && Elems(r) == After(mid, told.second) && Ascending(r)
  }

  /** The simplification of the sampling set. It stops at the assertion that no variable is listed twice; otherwise it
      fails only when the problem was found unsatisfiable. */
  method Simplify(c: Common, conf: Config, draws: nat -> nat, more: nat -> nat) returns (status: Status, ok: bool, ghost told: Told)
    requires c.solver.Valid() && c.origNumVars == c.solver.nVars == |c.seen| && c.Clean()
    requires Bounded(c.samplingSet, c.origNumVars) && Bounded(c.emptyOccs, c.origNumVars)
    modifies c.solver, c`samplingSet, c`otherSamplingSet, c`seen
    ensures status == if NoDup(old(c.samplingSet)) then Finished else Repeated
    ensures c.solver.Valid() && c.solver.nVars == old(c.solver.nVars) && SameModels(old(c.solver.Theory()), c.solver.Theory())
    ensures Elems(c.samplingSet) <= Elems(old(c.samplingSet)) && Bounded(c.samplingSet, c.origNumVars)
    ensures status == Finished ==> NoDup(c.samplingSet) && (!ok ==> !c.solver.okay)
    ensures Supports(old(c.solver.Theory()), Elems(c.samplingSet), Elems(old(c.samplingSet)))
    ensures c.solver.sumConflicts >= old(c.solver.sumConflicts)
    ensures status == Finished && ok ==>
              && Cleaned(conf, old(c.samplingSet), told, c.samplingSet)
              && c.solver.history == old(c.solver.history) + Conversation(conf, told)
              && |told.first| == 2 && told.first[0].EqualLits? && told.first[1].FixedLits?
              && (conf.probe ==> |told.second| == 2 && told.second[0].FixedLits? && told.second[1].EqualLits?)
  {
    hide *;
    ghost var f0, s0, s, heard := c.solver.Theory(), Elems(c.samplingSet), c.samplingSet, c.solver.history;
    SupportsSelf(f0, s0, s0);
    OwnModels(c);
    told := Told([], [], [], []);
    ok := CheckNoDuplicateInSamplingSet(c);
    if !ok { return Repeated, ok, told; }
    status := Finished;
    ghost var zero, first, finished, order;
    ok, finished, order, zero := SimplifySolver(c, conf, draws);
    if !ok { return; }
    first := Remove(c, [Equal, Fixed], f0, s0);
    AscendingNoDup(c.samplingSet);
    ghost var probed, second := [], [];
    if conf.probe {
      ok, probed, second := ProbeAll(c, f0, s0, more);
      if !ok { return; }
      AscendingNoDup(c.samplingSet);
    } else {
      AfterNothing(Elems(c.samplingSet));
    }
    told := Told(zero, first, probed, second);
    PackCleaned(conf, s, told, c.samplingSet, heard, c.solver.history);
    ok := CheckNoDuplicateInSamplingSet(c);
    assert ok;
  }

  lemma OwnModels(c: Common)
    ensures SameModels(c.solver.Theory(), c.solver.Theory()) && c.solver.Theory().n == c.solver.nVars
  {}

  lemma PackCleaned(conf: Config, s: seq<nat>, told: Told, r: seq<nat>, start: seq<Event>, end: seq<Event>)
    requires Fits([Equal, Fixed], told.first) && Ascending(r) && Elems(r) == After(After(Elems(s), told.first), told.second)
    requires if conf.probe then NoDup(told.probed) && Elems(told.probed) == After(Elems(s), told.first) && Fits([Fixed, Equal], told.second)
             else told.second == []
    requires end == start + (if conf.preSimplify then [Event.Simplified] else []) + (if conf.backbone then [FixedLits(told.zero)] else [])
                    + told.first + if conf.probe then Probes(told.probed) + [Event.Simplified] + told.second else []
    ensures Cleaned(conf, s, told, r) && end == start + Conversation(conf, told)
    ensures |told.first| == 2 && told.first[0].EqualLits? && told.first[1].FixedLits?
    ensures conf.probe ==> |told.second| == 2 && told.second[0].FixedLits? && told.second[1].EqualLits?
  {
    hide After, Ascending, NoDup;
  }

  lemma AfterNothing(s: set<nat>)
    ensures After(s, []) == s
  {}

  lemma AscendingNoDup(s: seq<nat>)
    requires Ascending(s)
    ensures NoDup(s)
  {}

  /** The solver's own simplification and the backbone, or one query with a limit of 1000 to see whether there is a model. */
  method SimplifySolver(c: Common, conf: Config, draws: nat -> nat)
    returns (ok: bool, ghost finished: bool, ghost order: seq<nat>, ghost zero: seq<Lit>)
    requires c.solver.Valid() && c.solver.nVars == |c.seen| && c.Clean() && Bounded(c.emptyOccs, c.solver.nVars)
    modifies c.solver, c`seen
    ensures c.solver.Valid() && c.solver.nVars == old(c.solver.nVars) && SameModels(old(c.solver.Theory()), c.solver.Theory())
    ensures |c.seen| == c.solver.nVars && c.Clean() && (!ok ==> !c.solver.okay)
    ensures c.solver.sumConflicts >= old(c.solver.sumConflicts)
    ensures ok ==>
              c.solver.history == old(c.solver.history) + (if conf.preSimplify then [Event.Simplified] else [])
                                  + if conf.backbone then [FixedLits(zero)] else []
    ensures ok && conf.backbone ==> Candidates(order, zero, c.emptyOccs, c.solver.nVars)
    ensures ok && conf.backbone && finished ==>
              forall v :: v in order ==> (FixedByUnit(c.solver.clauses, v) <==> Constant(old(c.solver.Theory()), v))
    ensures ok && conf.backbone && order != [] ==>
              (finished <==> c.solver.undefs == old(c.solver.undefs)
                             && c.solver.sumConflicts + 100 * (c.solver.calls - old(c.solver.calls) - 1) <= c.limits.backbone)
    ensures ok && conf.backbone && order != [] && !finished ==>
              c.solver.sumConflicts + 100 * (c.solver.calls - old(c.solver.calls) - 1) >= c.limits.backbone
    ensures ok && !conf.backbone ==>
              && c.solver.calls == old(c.solver.calls) + 1
              && Charged(1000, old(c.solver.undefs), old(c.solver.sumConflicts), c.solver.undefs, c.solver.sumConflicts)
  {
    hide Constant, FixedByUnit, Candidates, Entails;
    ghost var f0 := c.solver.Theory();
    ok, finished, order, zero := true, false, [], [];
    if conf.preSimplify {
      var ret := c.solver.Simplify();
      if ret == False { return false, finished, order, zero; }
    }
    ghost var f := c.solver.Theory();
    SameConstants(f0, f);
    if conf.backbone {
      var done;
      ok, done, order, zero := BackboneSimpl(c, c.limits.backbone, draws);
      finished := done;
    } else {
      c.solver.SetMaxConfl(1000);
      ghost var conflicts := c.solver.sumConflicts;
      var ret := c.solver.SolveAll();
      ChargedOne(1000, ret, old(c.solver.undefs), conflicts, c.solver.undefs, c.solver.sumConflicts);
      ChargedLater(1000, old(c.solver.undefs), old(c.solver.sumConflicts), conflicts, c.solver.undefs, c.solver.sumConflicts);
    }
  }

  lemma SameConstants(f: Formula, g: Formula)
    requires SameModels(f, g) && f.n == g.n
    ensures forall v :: Constant(f, v) <==> Constant(g, v)
  {}

  /** Any sequence of removals of equal and of fixed literals keeps a set that determines the first one, and exactly what the
      solver's answers leave. */
  method Remove(c: Common, removals: seq<Removal>, ghost f0: Formula, ghost s0: set<nat>) returns (ghost told: seq<Event>)
    requires c.solver.Valid() && c.origNumVars == c.solver.nVars == |c.seen| && c.Clean() && Bounded(c.samplingSet, c.origNumVars)
    requires SameModels(f0, c.solver.Theory()) && f0.n == c.solver.nVars && Supports(f0, Elems(c.samplingSet), s0)
    modifies c`samplingSet, c`otherSamplingSet, c`seen, c.solver`history
    ensures |c.seen| == c.solver.nVars && c.Clean() && Bounded(c.samplingSet, c.origNumVars)
    ensures removals != [] ==> Ascending(c.samplingSet)
    ensures Elems(c.samplingSet) <= Elems(old(c.samplingSet)) && Supports(f0, Elems(c.samplingSet), s0)
    ensures Fits(removals, told) && c.solver.history == old(c.solver.history) + told
    ensures Elems(c.samplingSet) == After(Elems(old(c.samplingSet)), told)
  {
    hide Equated, FixedVars;
    told := [];
    for i := 0 to |removals|
      invariant |c.seen| == c.solver.nVars && c.Clean() && Bounded(c.samplingSet, c.origNumVars)
      invariant i > 0 ==> Ascending(c.samplingSet)
      invariant Elems(c.samplingSet) <= Elems(old(c.samplingSet)) && Supports(f0, Elems(c.samplingSet), s0)
      invariant Fits(removals[..i], told) && c.solver.history == old(c.solver.history) + told
      invariant Elems(c.samplingSet) == After(Elems(old(c.samplingSet)), told)
    {
      ghost var before := Elems(c.samplingSet);
      ghost var event;
      match removals[i] {
        case Equal =>
          ghost var pairs := RemoveEqLiterals(c);
          event := EqualLits(pairs);
        case Fixed =>
          ghost var zero := RemoveZeroAssignedLiterals(c);
          event := FixedLits(zero);
      }
      BackTo(f0, c.solver.Theory(), Elems(c.samplingSet), before, s0);
      assert (told + [event])[..|told|] == told;
      told := told + [event];
    }
    assert removals[..|removals|] == removals;
  }

  /** Probes every sampling variable, lets the solver simplify, and removes what has become fixed or equal. The variables are
      probed in the order of their incidence, for which `draws` stands. */
  method ProbeAll(c: Common, ghost f0: Formula, ghost s0: set<nat>, draws: nat -> nat)
    returns (ok: bool, ghost probed: seq<nat>, ghost told: seq<Event>)
    requires c.solver.Valid() && c.origNumVars == c.solver.nVars == |c.seen| && c.Clean()
    requires Bounded(c.samplingSet, c.origNumVars) && NoDup(c.samplingSet)
    requires SameModels(f0, c.solver.Theory()) && f0.n == c.solver.nVars && Supports(f0, Elems(c.samplingSet), s0)
    modifies c.solver, c`samplingSet, c`otherSamplingSet, c`seen
    ensures c.solver.Valid() && c.solver.nVars == old(c.solver.nVars) && SameModels(f0, c.solver.Theory())
    ensures |c.seen| == c.solver.nVars && c.Clean() && Bounded(c.samplingSet, c.origNumVars) && NoDup(c.samplingSet)
    ensures Elems(c.samplingSet) <= Elems(old(c.samplingSet)) && Supports(f0, Elems(c.samplingSet), s0)
    ensures !ok ==> !c.solver.okay
    ensures c.solver.sumConflicts >= old(c.solver.sumConflicts)
    ensures Elems(probed) == Elems(old(c.samplingSet)) && NoDup(probed)
    ensures ok ==>
              && Fits([Fixed, Equal], told) && Ascending(c.samplingSet)
              && Elems(c.samplingSet) == After(Elems(old(c.samplingSet)), told)
              && c.solver.history == old(c.solver.history) + (Probes(probed) + [Event.Simplified] + told)
  {
    hide Shuffled, After, Fits;
    ghost var s := c.samplingSet;
    c.samplingSet := Permute(c.samplingSet, draws);
    ListedBelow(c.samplingSet, s, c.origNumVars);
    probed, told := c.samplingSet, [];
    assert Probes(probed[..0]) == [];
    for i := 0 to |c.samplingSet|
      invariant c.solver.Valid() && c.solver.nVars == old(c.solver.nVars) && SameModels(f0, c.solver.Theory())
      invariant c.samplingSet == probed && c.seen == old(c.seen) && c.solver.sumConflicts >= old(c.solver.sumConflicts)
      invariant c.solver.history == old(c.solver.history) + Probes(probed[..i])
    {
      assert Probes(probed[..i + 1]) == Probes(probed[..i]) + [Probed(Lit(probed[i], false))];
      var ret := c.solver.Probe(Lit(c.samplingSet[i], false));
      if ret == False { return false, probed, told; }
    }
    assert probed[..|probed|] == probed;
    var ret := c.solver.Simplify();
    if ret == False { return false, probed, told; }
    told := Remove(c, [Fixed, Equal], f0, s0);
    AscendingNoDup(c.samplingSet);
    ok := true;
  }

  lemma BackTo(f0: Formula, f: Formula, small: set<nat>, mid: set<nat>, s0: set<nat>)
    requires SameModels(f0, f) && f0.n == f.n && Supports(f, small, mid) && Supports(f0, mid, s0)
    ensures Supports(f0, small, s0)
  {
    forall w | w in mid ensures Determines(f0, small, w) { DeterminesSameModels(f, f0, small, w); }
    SupportsTrans(f0, small, mid, s0);
  }

  /** Dropping equal literals can split a group: of the group {0, 1} and the variable 2, equal to 0 in all models, the pair
      0 = 2 drops 0 alone. */
  lemma EqualitySplitsGroup()
    ensures var g, s, f, pair := Grouping([1, 1, 0], [[], [0, 1]]), {0, 1, 2}, Formula(3, XorOf(0, 2, false), []),
                                 (Lit(0, false), Lit(2, false));
            && g.Consistent(3) && g.Closed(s) && EntailsEqual(f, pair.0, pair.1) && !g.Closed(s - Equated([pair], s))
  {
    var g, pair, s: set<nat> := Grouping([1, 1, 0], [[], [0, 1]]), (Lit(0, false), Lit(2, false)), {0, 1, 2};
    OneOfTwo(g);
    var none: seq<(Lit, Lit)> := [];
    assert [pair][..0] == none && Equated([pair], s) == {0};
    assert 1 in s - {0} && 0 in g.Unit(1);
    forall a | Satisfies(Formula(3, XorOf(0, 2, false), []), a) ensures LitTrue(pair.0, a) == LitTrue(pair.1, a) {
      XorMeans(0, 2, false, a);
    }
  }

  /** So can dropping fixed literals: the unit clause x0 drops 0 from the group {0, 1}. */
  lemma FixedLiteralSplitsGroup()
    ensures var g, s, f, l := Grouping([1, 1, 0], [[], [0, 1]]), {0, 1, 2}, Formula(3, [[Lit(0, false)]], []), Lit(0, false);
            g.Consistent(3) && g.Closed(s) && Entails(f, l) && !g.Closed(s - FixedVars([l]))
  {
    var g, s: set<nat> := Grouping([1, 1, 0], [[], [0, 1]]), {0, 1, 2};
    OneOfTwo(g);
    assert FixedVars([Lit(0, false)]) == {0};
    assert 1 in s - {0} && 0 in g.Unit(1);
    var f := Formula(3, [[Lit(0, false)]], []);
    forall a | Satisfies(f, a) ensures LitTrue(Lit(0, false), a) { assert ClauseTrue(f.clauses[0], a); }
  }

  lemma OneOfTwo(g: Grouping)
    requires g == Grouping([1, 1, 0], [[], [0, 1]])
    ensures g.Consistent(3) && g.Closed({0, 1, 2}) && g.Unit(1) == [0, 1]
  {
    assert g.groups[1] == [0, 1];
    assert 0 in g.groups[1] && 1 in g.groups[1];
    forall v, w | v in {0, 1, 2} && w in g.Unit(v) ensures w in {0, 1, 2} { assert v == 0 || v == 1 || v == 2; }
  }

  // ---- the doubled problem ----

  /** The doubled problem `d` is set up for `f0`, the formula the run started with. */
  ghost predicate Ready(f0: Formula, original: Formula, d: Formula, n: nat, ind: seq<Option<nat>>, inv: seq<Option<nat>>,
                        size: nat, g: Grouping)
  {
    && original.n == n && Doubles(original, d, ind) && f0.n == n && SameModels(f0, original)
    && |ind| == n && Inverts(inv, ind, size) && g.Consistent(n)
  }

  ghost predicate Prepared(c: Common, f0: Formula)
    reads c, c.solver
  {
    && c.solver.Valid() && |c.seen| == c.solver.nVars && Bounded(c.samplingSet, c.origNumVars)
    && Ready(f0, c.original, c.solver.Theory(), c.origNumVars, c.varToIndic, c.indicToVar, |c.seen|, c.Grouped())
  }

  lemma Unpack(c: Common, f0: Formula)
    requires Prepared(c, f0)
    ensures c.solver.Valid() && |c.seen| == c.solver.nVars && c.Paired() && c.GroupsOk() && Bounded(c.samplingSet, c.origNumVars)
    ensures |c.varToIndic| == c.origNumVars && Inverts(c.indicToVar, c.varToIndic, |c.seen|)
    ensures f0.n == c.original.n == c.origNumVars && SameModels(f0, c.original)
  {}

  lemma Pack(c: Common, f0: Formula, original: Formula, d: Formula, n: nat, ind: seq<Option<nat>>, inv: seq<Option<nat>>,
             size: nat, g: Grouping)
    requires Ready(f0, original, d, n, ind, inv, size, g)
    requires c.solver.Valid() && size == c.solver.nVars && Bounded(c.samplingSet, n)
    requires original == c.original && d == c.solver.Theory() && n == c.origNumVars && ind == c.varToIndic
    requires inv == c.indicToVar && size == |c.seen| && g == c.Grouped()
    ensures Prepared(c, f0)
  {}

  lemma ReadySameModels(f0: Formula, original: Formula, d: Formula, n: nat, ind: seq<Option<nat>>, inv: seq<Option<nat>>,
                        size: nat, g: Grouping, e: Formula)
    requires Ready(f0, original, d, n, ind, inv, size, g) && SameModels(d, e) && d.n == e.n
    ensures Ready(f0, original, e, n, ind, inv, size, g)
  {
    DoublesSameModels(original, d, e, ind);
  }

  /** Without a model in the doubled problem there is none in the original one. */
  lemma UnsatPair(f: Formula, d: Formula, ind: seq<Option<nat>>)
    requires Doubles(f, d, ind) && forall m :: !Satisfies(d, m)
    ensures forall a :: !Satisfies(f, a)
  {
    forall a ensures !Satisfies(f, a) {
      if Satisfies(f, a) { var m := PairExtends(f, d, ind, a, a); }
    }
  }

  /** A contradiction found by the solver is one of the formula the run started with. */
  lemma OkayMeans(c: Common, f0: Formula)
    requires Prepared(c, f0)
    ensures !c.solver.okay ==> forall a :: !Satisfies(f0, a)
  {
    if !c.solver.okay { UnsatPair(c.original, c.solver.Theory(), c.varToIndic); }
  }

  /** Of a variable listed twice the last indicator counts. */
  lemma TablesMatch(s: seq<nat>, n: nat, inv: seq<Option<nat>>)
    requires Bounded(s, n) && |inv| == 2 * n + |s|
    requires forall i :: 0 <= i < |inv| ==> inv[i] == if i < 2 * n then None else Some(s[i - 2 * n])
    ensures Inverts(inv, IndicatorMap(s, n), |inv|) && (NoDup(s) ==> Records(inv, IndicatorMap(s, n)))
  {
    var ind := IndicatorMap(s, n);
    forall v | 0 <= v < n && ind[v].Some?
      ensures ind[v].value < |inv| && inv[ind[v].value] == Some(v)
    {
      var k := IndicatorIndex(s, n, v);
    }
    if NoDup(s) {
      forall i | 0 <= i < |inv| && inv[i].Some? ensures inv[i].value < |ind| && ind[inv[i].value] == Some(i) {
        var v := s[i - 2 * n];
        assert v in s;
        var k := IndicatorIndex(s, n, v);
      }
    }
  }

  /** The sampled variables are those with an indicator. */
  ghost predicate Sampled(c: Common, s: set<nat>)
    reads c`varToIndic, c`origNumVars
  {
    && |c.varToIndic| == c.origNumVars && (forall v :: v in s ==> v < c.origNumVars)
    && forall v :: 0 <= v < c.origNumVars ==> (c.varToIndic[v].Some? <==> v in s)
  }

  /** Simplifies if asked to, duplicates the problem, and adds the indicators. */
  method PreprocAndDuplicate(c: Common, conf: Config, draws: nat -> nat, more: nat -> nat)
    returns (status: Status, ok: bool, ghost told: Told)
    requires c.solver.Valid() && Bounded(c.samplingSet, c.solver.nVars)
    requires Bounded(c.emptyOccs, c.solver.nVars)
    requires c.GroupsFor(c.solver.nVars).Consistent(c.solver.nVars)
    modifies c, c.solver
    ensures status == if conf.simp && !NoDup(old(c.samplingSet)) then Repeated else Finished
    ensures c.solver.Valid() && c.origNumVars == old(c.solver.nVars)
    ensures c.var2varGroup == old(c.var2varGroup) && c.varGroups == old(c.varGroups)
    ensures c.groupIndep == old(c.groupIndep) && c.emptyOccs == old(c.emptyOccs)
    ensures status == Finished && !ok ==> !c.solver.okay && forall a :: !Satisfies(old(c.solver.Theory()), a)
    ensures status == Finished && ok ==>
              && Prepared(c, old(c.solver.Theory())) && c.Clean() && Sampled(c, Elems(c.samplingSet))
              && c.varToIndic == IndicatorMap(c.samplingSet, c.origNumVars)
              && (NoDup(old(c.samplingSet)) ==> NoDup(c.samplingSet) && Records(c.indicToVar, c.varToIndic))
    ensures Elems(c.samplingSet) <= Elems(old(c.samplingSet)) && Bounded(c.samplingSet, c.origNumVars)
    ensures !conf.simp ==> ok && c.samplingSet == old(c.samplingSet)
    ensures Supports(old(c.solver.Theory()), Elems(c.samplingSet), Elems(old(c.samplingSet)))
    ensures c.solver.sumConflicts >= old(c.solver.sumConflicts)
    ensures status == Finished && ok ==> c.solver.history == old(c.solver.history) + BeforeRounds(conf, told)
    ensures status == Finished && ok && conf.simp ==> Cleaned(conf, old(c.samplingSet), told, c.samplingSet)
  {
    hide *;
    ghost var f0, s0 := c.solver.Theory(), Elems(c.samplingSet);
    SupportsSelf(f0, s0, s0);
    status, ok, told := Finished, true, Told([], [], [], []);
    c.origNumVars := c.solver.nVars;
    c.seen := seq(c.solver.nVars, _ => false);
    Starting(c, f0);
    if conf.simp {
      status, ok, told := Simplify(c, conf, draws, more);
      if status == Finished && !ok { NoModels(c, f0); }
      if status != Finished || !ok { return; }
    }
    ghost var heard := c.solver.history;
    ok := DuplicateAndTie(c, conf.gaussJordan && conf.simp, f0);
    if ok { AllHeard(conf, told, old(c.solver.history), heard, c.solver.history); }
  }

  lemma NoModels(c: Common, f0: Formula)
    requires c.solver.Valid() && !c.solver.okay && SameModels(f0, c.solver.Theory())
    ensures forall a :: !Satisfies(f0, a)
  {}

  /** All that was asked of the solver before the rounds. */
  function BeforeRounds(conf: Config, told: Told): seq<Event> {
    if conf.simp then Conversation(conf, told) + (if conf.gaussJordan then [Event.Simplified] else []) else []
  }

  lemma AllHeard(conf: Config, told: Told, start: seq<Event>, mid: seq<Event>, end: seq<Event>)
    requires mid == start + if conf.simp then Conversation(conf, told) else []
    requires end == mid + if conf.gaussJordan && conf.simp then [Event.Simplified] else []
    ensures end == start + BeforeRounds(conf, told)
  {}

  lemma Starting(c: Common, f0: Formula)
    requires f0 == c.solver.Theory() && c.origNumVars == c.solver.nVars && c.GroupsFor(c.origNumVars).Consistent(c.origNumVars)
    requires c.seen == seq(c.solver.nVars, _ => false)
    ensures SameModels(f0, c.solver.Theory()) && f0.n == c.origNumVars && c.GroupsOk() && c.Clean()
  {}

  /** Both copies of the problem, and the indicators. */
  method DoubleUp(c: Common)
    requires c.solver.Valid() && c.solver.nVars == c.origNumVars && Bounded(c.samplingSet, c.origNumVars)
    modifies c`original, c`varToIndic, c`indicToVar, c.solver`nVars, c.solver`clauses, c.solver`bnns, c.solver`okay
    ensures c.solver.Valid() && WellFormed(c.original) && c.original == old(c.solver.Theory())
    ensures c.solver.Theory() == Doubled(c.original, c.samplingSet) && |c.indicToVar| == c.solver.nVars
    ensures c.varToIndic == IndicatorMap(c.samplingSet, c.origNumVars) && |c.indicToVar| == 2 * c.origNumVars + |c.samplingSet|
    ensures forall i :: 0 <= i < |c.indicToVar| ==>
              c.indicToVar[i] == if i < 2 * c.origNumVars then None else Some(c.samplingSet[i - 2 * c.origNumVars])
  {
    c.original := c.solver.Theory();
    c.DuplicateProblem();
    c.AddFixedClauses();
  }

  /** The part that turns the problem into Padoa's test. */
  method DuplicateAndTie(c: Common, gauss: bool, ghost f0: Formula) returns (ok: bool)
    requires c.solver.Valid() && c.solver.nVars == c.origNumVars && Bounded(c.samplingSet, c.origNumVars)
    requires SameModels(f0, c.solver.Theory()) && f0.n == c.origNumVars && c.GroupsOk()
    modifies c`original, c`varToIndic, c`indicToVar, c`seen, c.solver
    ensures c.solver.Valid() && (!gauss ==> ok) && c.solver.sumConflicts >= old(c.solver.sumConflicts)
    ensures c.solver.history == old(c.solver.history) + if gauss then [Event.Simplified] else []
    ensures !ok ==> !c.solver.okay && forall a :: !Satisfies(f0, a)
    ensures ok ==> Prepared(c, f0) && c.Clean() && Sampled(c, Elems(c.samplingSet))
    ensures ok ==> c.varToIndic == IndicatorMap(c.samplingSet, c.origNumVars)
    ensures ok && NoDup(c.samplingSet) ==> Records(c.indicToVar, c.varToIndic)
  {
    hide Ready, Doubled, IndicatorMap, WellFormed, Satisfies, SameModels, Grouping.Consistent, Sampled;
    DoubleUp(c);
    TiedReady(c, f0);
    ok := true;
    if gauss {
      ok := GaussJordan(c, f0);
      if !ok { return; }
    }
    c.seen := seq(c.solver.nVars, _ => false);
    Pack(c, f0, c.original, c.solver.Theory(), c.origNumVars, c.varToIndic, c.indicToVar, |c.seen|, c.Grouped());
  }

  /** The solver may rewrite the doubled problem and then finds out whether it has a model. */
  method GaussJordan(c: Common, ghost f0: Formula) returns (ok: bool)
    requires c.solver.Valid()
    requires Ready(f0, c.original, c.solver.Theory(), c.origNumVars, c.varToIndic, c.indicToVar, c.solver.nVars, c.Grouped())
    modifies c.solver`clauses, c.solver`bnns, c.solver`okay, c.solver`model, c.solver`sumConflicts, c.solver`history
    ensures c.solver.Valid() && c.solver.sumConflicts >= old(c.solver.sumConflicts)
    ensures c.solver.history == old(c.solver.history) + [Event.Simplified]
    ensures Ready(f0, c.original, c.solver.Theory(), c.origNumVars, c.varToIndic, c.indicToVar, c.solver.nVars, c.Grouped())
    ensures !ok ==> !c.solver.okay && forall a :: !Satisfies(f0, a)
  {
    ghost var d, g := c.solver.Theory(), c.Grouped();
    var ret := c.solver.Simplify();
    ReadySameModels(f0, c.original, d, c.origNumVars, c.varToIndic, c.indicToVar, c.solver.nVars, g, c.solver.Theory());
    ok := ret != False;
    if !ok { UnsatPair(c.original, c.solver.Theory(), c.varToIndic); }
  }

  lemma TiedReady(c: Common, f0: Formula)
    requires WellFormed(c.original) && c.solver.Theory() == Doubled(c.original, c.samplingSet) && c.original.n == c.origNumVars
    requires Bounded(c.samplingSet, c.origNumVars)
    requires SameModels(f0, c.original) && f0.n == c.origNumVars && c.GroupsOk()
    requires c.varToIndic == IndicatorMap(c.samplingSet, c.origNumVars) && |c.indicToVar| == 2 * c.origNumVars + |c.samplingSet|
    requires forall i :: 0 <= i < |c.indicToVar| ==>
               c.indicToVar[i] == if i < 2 * c.origNumVars then None else Some(c.samplingSet[i - 2 * c.origNumVars])
    ensures Ready(f0, c.original, c.solver.Theory(), c.origNumVars, c.varToIndic, c.indicToVar, |c.indicToVar|, c.Grouped())
    ensures Sampled(c, Elems(c.samplingSet)) && (NoDup(c.samplingSet) ==> Records(c.indicToVar, c.varToIndic))
  {
    DoubledDoubles(c.original, c.samplingSet);
    TablesMatch(c.samplingSet, c.origNumVars, c.indicToVar);
  }

  // ---- guess ----

  /** Three rounds with windows from the front, each on what the one before it left. */
  ghost predicate ThreeRounds(rounds: seq<Guess.Round>, ind: seq<Option<nat>>, inv: seq<Option<nat>>, before: seq<nat>, after: seq<nat>) {
    && |rounds| == 3 && rounds[0].before == before && rounds[1].before == rounds[0].after && rounds[2].before == rounds[1].after
    && rounds[2].after == after
    && forall k :: 0 <= k < 3 ==> Guess.RoundOf(rounds[k], ind, inv, Guess.WindowSize(|before|), 0) && Queryable(ind, rounds[k])
  }

  /** Their queries. */
  ghost function Guesses(ind: seq<Option<nat>>, rounds: seq<Guess.Round>): seq<Event>
    requires AllQueryable(ind, rounds)
  {
    if rounds == [] then []
    else
      var last := rounds[|rounds| - 1];
      assert Queryable(ind, last);
      Guesses(ind, rounds[..|rounds| - 1]) + Guess.Queries(ind, last.asked, last.answers)
  }

  ghost predicate Queryable(ind: seq<Option<nat>>, r: Guess.Round) {
    |r.asked| == |r.answers| && forall k :: 0 <= k < |r.asked| ==> HasIndicators(ind, r.asked[k])
  }

  /** The set between round k - 1 and round k. */
  ghost function Between(rounds: seq<Guess.Round>, before: seq<nat>, k: nat): seq<nat>
    requires k <= |rounds|
  {
    if k == 0 then before else rounds[k - 1].after
  }

  /** Round k is one on what the rounds before it left. */
  ghost predicate InTurn(rounds: seq<Guess.Round>, ind: seq<Option<nat>>, inv: seq<Option<nat>>, before: seq<nat>, k: nat)
    requires k < |rounds|
  {
    && Queryable(ind, rounds[k]) && Guess.RoundOf(rounds[k], ind, inv, Guess.WindowSize(|before|), 0)
    && rounds[k].before == Between(rounds, before, k)
  }

  /** The first rounds of three. */
  ghost predicate RoundsSoFar(rounds: seq<Guess.Round>, ind: seq<Option<nat>>, inv: seq<Option<nat>>, before: seq<nat>, left: seq<nat>) {
    && (forall k :: 0 <= k < |rounds| ==> InTurn(rounds, ind, inv, before, k))
    && left == Between(rounds, before, |rounds|)
  }

  lemma NextRound(rounds: seq<Guess.Round>, r: Guess.Round, ind: seq<Option<nat>>, inv: seq<Option<nat>>, before: seq<nat>, left: seq<nat>)
    requires RoundsSoFar(rounds, ind, inv, before, left) && r.before == left
    requires Guess.RoundOf(r, ind, inv, Guess.WindowSize(|before|), 0)
    ensures RoundsSoFar(rounds + [r], ind, inv, before, r.after)
    ensures AllQueryable(ind, rounds) && AllQueryable(ind, rounds + [r]) && Queryable(ind, r)
    ensures Guesses(ind, rounds + [r]) == Guesses(ind, rounds) + Guess.Queries(ind, r.asked, r.answers)
  {
    hide Guess.RoundOf, Guess.WindowSize, Queryable, Guesses, Guess.Queries;
    RoundQueryable(r, ind, inv, Guess.WindowSize(|before|));
    var all := rounds + [r];
    forall k | 0 <= k < |all| ensures InTurn(all, ind, inv, before, k) {
      if k < |rounds| {
        assert InTurn(rounds, ind, inv, before, k);
        assert all[k] == rounds[k] && Between(all, before, k) == Between(rounds, before, k);
      } else {
        assert Between(all, before, k) == Between(rounds, before, k);
      }
    }
    forall k | 0 <= k < |all| ensures Queryable(ind, all[k]) { assert InTurn(all, ind, inv, before, k); }
    forall k | 0 <= k < |rounds| ensures Queryable(ind, rounds[k]) { assert InTurn(rounds, ind, inv, before, k); }
    NextQueries(ind, rounds, r);
  }

  lemma NextQueries(ind: seq<Option<nat>>, rounds: seq<Guess.Round>, r: Guess.Round)
    requires AllQueryable(ind, rounds) && Queryable(ind, r) && AllQueryable(ind, rounds + [r])
    ensures Guesses(ind, rounds + [r]) == Guesses(ind, rounds) + Guess.Queries(ind, r.asked, r.answers)
  {
    hide Guess.Queries;
    assert (rounds + [r])[..|rounds|] == rounds;
  }

  lemma RoundQueryable(r: Guess.Round, ind: seq<Option<nat>>, inv: seq<Option<nat>>, group: nat)
    requires Guess.RoundOf(r, ind, inv, group, 0)
    ensures Queryable(ind, r)
  {}

  /** The solver simplifies once more, then three guess rounds with the same window size. With no more variables than
      the window holds they remove none. */
  method RunGuess(c: Common, ghost f0: Formula, ghost s0: set<nat>, draws: nat -> nat -> nat) returns (ghost rounds: seq<Guess.Round>)
    requires Prepared(c, f0) && c.Clean() && HasIndicators(c.varToIndic, c.samplingSet) && NoDup(c.samplingSet)
    requires Records(c.indicToVar, c.varToIndic) && Supports(f0, Elems(c.samplingSet), s0)
    modifies c`samplingSet, c`otherSamplingSet, c`seen
    modifies c.solver`clauses, c.solver`bnns, c.solver`okay, c.solver`model, c.solver`sumConflicts, c.solver`budget, c.solver`history
    ensures Prepared(c, f0) && c.Clean() && NoDup(c.samplingSet)
    ensures Elems(c.samplingSet) <= Elems(old(c.samplingSet)) && Supports(f0, Elems(c.samplingSet), s0)
    ensures |old(c.samplingSet)| <= 20 ==> Elems(c.samplingSet) == Elems(old(c.samplingSet))
    ensures |rounds| == 3
    ensures forall k :: 0 <= k < 3 ==>
              Guess.RoundOf(rounds[k], c.varToIndic, c.indicToVar,
                            if |old(c.samplingSet)| / 10 > 20 then |old(c.samplingSet)| / 10 else 20, 0)
    ensures ThreeRounds(rounds, c.varToIndic, c.indicToVar, old(c.samplingSet), c.samplingSet)
    ensures c.solver.history == old(c.solver.history) + GuessTalk(true, c.varToIndic, rounds)
    ensures c.solver.sumConflicts >= old(c.solver.sumConflicts)
  {
    hide *;
    SimplifyPrepared(c, f0);
    var size := |c.samplingSet|;
    var guessIndep := Guess.WindowSize(size);
    ghost var s := c.samplingSet;
    rounds := [];
    NoGuesses(c.varToIndic, c.indicToVar, s);
    Windows(size);
    for i := 0 to 3
      invariant Prepared(c, f0) && c.Clean() && HasIndicators(c.varToIndic, c.samplingSet) && NoDup(c.samplingSet)
      invariant Elems(c.samplingSet) <= Elems(s) && Supports(f0, Elems(c.samplingSet), s0)
      invariant size <= 20 ==> |c.samplingSet| <= 20 && Elems(c.samplingSet) == Elems(s)
      invariant AllQueryable(c.varToIndic, rounds)
      invariant |rounds| == i && RoundsSoFar(rounds, c.varToIndic, c.indicToVar, s, c.samplingSet)
      invariant c.solver.history == old(c.solver.history) + ([Event.Simplified] + Guesses(c.varToIndic, rounds))
      invariant c.solver.sumConflicts >= old(c.solver.sumConflicts)
    {
      ghost var left := c.samplingSet;
      ghost var r := GuessOnce(c, f0, s0, guessIndep, draws(i));
      NextRound(rounds, r, c.varToIndic, c.indicToVar, s, left);
      rounds := rounds + [r];
    }
    AllRounds(rounds, c.varToIndic, c.indicToVar, s, c.samplingSet);
    TalkIs(c.varToIndic, rounds);
  }

  lemma NoGuesses(ind: seq<Option<nat>>, inv: seq<Option<nat>>, s: seq<nat>)
    ensures AllQueryable(ind, []) && Guesses(ind, []) == [] && RoundsSoFar([], ind, inv, s, s)
  {}

  lemma Windows(size: nat)
    ensures Guess.WindowSize(size) >= 20
  {}

  lemma AllRounds(rounds: seq<Guess.Round>, ind: seq<Option<nat>>, inv: seq<Option<nat>>, before: seq<nat>, after: seq<nat>)
    requires RoundsSoFar(rounds, ind, inv, before, after) && |rounds| == 3
    ensures ThreeRounds(rounds, ind, inv, before, after) && AllQueryable(ind, rounds)
    ensures forall k :: 0 <= k < 3 ==> Guess.RoundOf(rounds[k], ind, inv, if |before| / 10 > 20 then |before| / 10 else 20, 0)
  {
    hide Guess.RoundOf, Queryable;
    assert InTurn(rounds, ind, inv, before, 0) && InTurn(rounds, ind, inv, before, 1) && InTurn(rounds, ind, inv, before, 2);
  }

  ghost predicate AllQueryable(ind: seq<Option<nat>>, rounds: seq<Guess.Round>) {
    forall k :: 0 <= k < |rounds| ==> Queryable(ind, rounds[k])
  }

  /** What the guess rounds ask of the solver, if they are switched on. */
  ghost function GuessTalk(on: bool, ind: seq<Option<nat>>, rounds: seq<Guess.Round>): seq<Event> {
    if on && AllQueryable(ind, rounds) then [Event.Simplified] + Guesses(ind, rounds) else []
  }

  lemma TalkIs(ind: seq<Option<nat>>, rounds: seq<Guess.Round>)
    requires AllQueryable(ind, rounds)
    ensures GuessTalk(true, ind, rounds) == [Event.Simplified] + Guesses(ind, rounds)
  {}

  method SimplifyPrepared(c: Common, ghost f0: Formula)
    requires Prepared(c, f0)
    modifies c.solver`clauses, c.solver`bnns, c.solver`okay, c.solver`model, c.solver`sumConflicts, c.solver`history
    ensures Prepared(c, f0) && c.solver.sumConflicts >= old(c.solver.sumConflicts)
    ensures c.solver.history == old(c.solver.history) + [Event.Simplified]
  {
    hide Ready;
    ghost var d, n, size, g := c.solver.Theory(), c.origNumVars, |c.seen|, c.Grouped();
    var _ := c.solver.Simplify();
    ReadySameModels(f0, c.original, d, n, c.varToIndic, c.indicToVar, size, g, c.solver.Theory());
  }

  method GuessOnce(c: Common, ghost f0: Formula, ghost s0: set<nat>, group: nat, draws: nat -> nat) returns (ghost r: Guess.Round)
    requires group > 0 && Prepared(c, f0) && c.Clean() && HasIndicators(c.varToIndic, c.samplingSet) && NoDup(c.samplingSet)
    requires Records(c.indicToVar, c.varToIndic) && Supports(f0, Elems(c.samplingSet), s0)
    modifies c`samplingSet, c`otherSamplingSet, c`seen, c.solver`budget, c.solver`history
    ensures Prepared(c, f0) && c.Clean() && HasIndicators(c.varToIndic, c.samplingSet) && NoDup(c.samplingSet)
    ensures Elems(c.samplingSet) <= Elems(old(c.samplingSet)) && Supports(f0, Elems(c.samplingSet), s0)
    ensures |old(c.samplingSet)| <= group ==>
              Elems(c.samplingSet) == Elems(old(c.samplingSet)) && |c.samplingSet| == |old(c.samplingSet)|
    ensures r.before == old(c.samplingSet) && r.after == c.samplingSet
    ensures Guess.RoundOf(r, c.varToIndic, c.indicToVar, group, 0) && Queryable(c.varToIndic, r)
    ensures c.solver.history == old(c.solver.history) + Guess.Queries(c.varToIndic, r.asked, r.answers)
  {
    hide Ready, Guess.RoundOf, Guess.Queries;
    Unpack(c, f0);
    ghost var d, n, size, g, s := c.solver.Theory(), c.origNumVars, |c.seen|, c.Grouped(), c.samplingSet;
    r := Guess.GuessRound(c, group, 0, draws);
    RoundQueryable(r, c.varToIndic, c.indicToVar, group);
    Pack(c, f0, c.original, d, n, c.varToIndic, c.indicToVar, size, g);
    BackTo(f0, c.original, Elems(c.samplingSet), Elems(s), s0);
    forall v | v in c.samplingSet ensures v in s { assert v in Elems(c.samplingSet); }
    SubIndicators(c.varToIndic, s, c.samplingSet);
    if |s| <= group { AllInWindow(r, c.varToIndic, c.indicToVar, group); }
  }

  lemma AllInWindow(r: Guess.Round, ind: seq<Option<nat>>, inv: seq<Option<nat>>, group: nat)
    requires Guess.RoundOf(r, ind, inv, group, 0) && |r.before| <= group && Elems(r.after) <= Elems(r.before)
    requires NoDup(r.before) && NoDup(r.after)
    ensures Elems(r.after) == Elems(r.before) && |r.after| == |r.before|
  {
    hide Guess.Dropped, Guess.Asked;
    Guess.FirstWindowStays(r, ind, inv, group, 0);
    PermutationFacts(r.before, r.order);
    forall v | v in Elems(r.before) ensures v in Elems(r.after) {
      assert v in Elems(r.order);
      var i :| 0 <= i < |r.order| && r.order[i] == v;
      assert group * 0 <= i < Guess.WindowEnd(group, 0, 0);
    }
    NoDupSize(r.before);
    NoDupSize(r.after);
  }

  // ---- forward ----

  /** The forward round on s found the given units independent and left r, after that many tests, so many of them without an
      answer: the setting, the list, which units were found and that no other tested variable matters. */
  ghost predicate Grown(f: Formula, g: Grouping, n: nat, s: seq<nat>, group: nat, t: Forward.Setting, independent: seq<nat>,
                        r: seq<nat>, tests: int, unanswered: int)
  {
    var w := Forward.GuessWindow(s, group, 0);
    && Forward.RoundSetting(t, f, g, n, Elems(s), w) && r == Forward.ForwardList(g, n, Elems(s), w, independent)
    && Forward.ForwardResult(t, Elems(independent), Elems(r))
    && Forward.Earned(t, Elems(independent), unanswered) && Forward.Settled(t, tests, Elems(independent))
    && (tests < 5_000_000 ==> Supports(f, t.guess + Elems(independent), t.s))
  }

  lemma GrownSameModels(f: Formula, f0: Formula, g: Grouping, n: nat, s: seq<nat>, group: nat, t: Forward.Setting,
                        independent: seq<nat>, r: seq<nat>, tests: int, unanswered: int)
    requires Grown(f, g, n, s, group, t, independent, r, tests, unanswered) && SameModels(f0, f) && f0.n == f.n
    ensures Grown(f0, g, n, s, group, t.(f := f0), independent, r, tests, unanswered)
  {
    hide Forward.ForwardList, Forward.GuessWindow;
    var t0 := t.(f := f0);
    Forward.EarnedSameModels(t, t0, Elems(independent), unanswered);
    Forward.SettledSameModels(t, t0, tests, Elems(independent));
    SupportsSameModels(f, f0, t.guess + Elems(independent), t.s);
    assert Forward.SettingOk(t0) && Forward.ForwardResult(t0, Elems(independent), Elems(r));
  }

  /** What the forward round is good for: up to closure under groups, its result determines what it started from. The
      scratch array is clean afterwards exactly when the groups of the window lie in the sampling set. */
  method ForwardCall(c: Common, group: nat, draws: nat -> nat)
    returns (status: Status, ghost t: Forward.Setting, ghost independent: seq<nat>)
    requires c.Paired() && c.GroupsOk() && c.Clean() && Bounded(c.samplingSet, c.origNumVars)
    requires Inverts(c.indicToVar, c.varToIndic, |c.seen|) && Elems(c.samplingSet) <= Having(c.varToIndic)
    modifies c`samplingSet, c`otherSamplingSet, c`seen
    modifies c.solver`model, c.solver`sumConflicts, c.solver`calls, c.solver`undefs, c.solver`budget
    ensures |c.seen| == old(|c.seen|)
    ensures Forward.MayEnd(status, c, c.Grouped().Closure(Elems(old(c.samplingSet))))
    ensures status == Finished ==> c.Served(c.Grouped().Closure(Forward.GuessWindow(old(c.samplingSet), group, 0)))
    ensures status == Finished ==>
              && NoDup(c.samplingSet) && Bounded(c.samplingSet, c.origNumVars)
              && Elems(c.samplingSet) <= c.Grouped().Closure(Elems(old(c.samplingSet)))
              && (|c.Grouped().Closure(Elems(old(c.samplingSet)))| <= 5_000_000 ==>
                    Supports(c.original, c.Grouped().Closure(Elems(c.samplingSet)), Elems(old(c.samplingSet))))
              && (Unmarked(c.seen) <==> WindowInside(c.Grouped(), old(c.samplingSet), group))
    ensures status == Finished ==>
              Grown(c.original, c.Grouped(), c.origNumVars, old(c.samplingSet), group, t, independent, c.samplingSet,
                    c.solver.calls - old(c.solver.calls), c.solver.undefs - old(c.solver.undefs))
    ensures c.solver.calls <= old(c.solver.calls) + 5_000_000
    ensures Charged(c.limits.backward, old(c.solver.undefs), old(c.solver.sumConflicts), c.solver.undefs, c.solver.sumConflicts)
  {
    hide *;
    ghost var s, g, n := c.samplingSet, c.Grouped(), c.origNumVars;
    var done;
    status, done, t, independent := Forward.ForwardRound(c, 5_000_000, group, 0, draws);
    if status == Finished {
      ForwardEffect(c.original, g, n, s, group, t, independent, c.samplingSet, done, c.solver.calls - old(c.solver.calls),
                    c.solver.undefs - old(c.solver.undefs));
    }
  }

  /** The groups of the guess window on s lie in s. */
  ghost predicate WindowInside(g: Grouping, s: seq<nat>, group: nat) {
    g.Closure(Forward.GuessWindow(s, group, 0)) <= Elems(s)
  }

  lemma ForwardEffect(f: Formula, g: Grouping, n: nat, s: seq<nat>, group: nat, t: Forward.Setting, independent: seq<nat>,
                      r: seq<nat>, done: bool, tests: int, unanswered: int)
    requires Forward.RoundSetting(t, f, g, n, Elems(s), Forward.GuessWindow(s, group, 0))
    requires Forward.Outcome(t, 5_000_000, done, Elems(independent), Elems(r)) && (!done ==> tests == 5_000_000)
    requires r == Forward.ForwardList(g, n, Elems(s), Forward.GuessWindow(s, group, 0), independent)
    requires Forward.Earned(t, Elems(independent), unanswered) && Forward.Settled(t, tests, Elems(independent))
    ensures Elems(r) <= g.Closure(Elems(s))
    ensures |g.Closure(Elems(s))| <= 5_000_000 ==> Supports(f, g.Closure(Elems(r)), Elems(s))
    ensures t.guess <= t.s <==> WindowInside(g, s, group)
    ensures Grown(f, g, n, s, group, t, independent, r, tests, unanswered)
  {
    hide Forward.Earned, Forward.Settled, Forward.SettingOk, Forward.ForwardList, Forward.GuessWindow, Supports, Grouping.Closed;
    SubsetSize(t.reach - t.guess, t.reach);
    WindowReach(t, independent, r);
    if |t.reach| <= 5_000_000 { Forward.ForwardClosureSupports(t, Elems(independent), Elems(r)); }
  }

  lemma WindowReach(t: Forward.Setting, independent: seq<nat>, r: seq<nat>)
    requires Forward.SettingOk(t) && t.guess == t.g.Closure(t.w) && t.reach == t.g.Closure(t.s)
    requires Forward.ForwardResult(t, Elems(independent), Elems(r))
    ensures Elems(r) <= t.reach
  {
    t.g.ClosureMono(t.w, t.s);
  }

  /** The forward stage: up to closure under groups the result still determines s0. */
  method ForwardStage(c: Common, ghost f0: Formula, ghost s0: set<nat>, group: nat, draws: nat -> nat)
    returns (status: Status, ghost t: Forward.Setting, ghost independent: seq<nat>)
    requires Prepared(c, f0) && c.Clean() && Supports(f0, Elems(c.samplingSet), s0)
    requires Elems(c.samplingSet) <= Having(c.varToIndic)
    modifies c`samplingSet, c`otherSamplingSet, c`seen
    modifies c.solver`model, c.solver`sumConflicts, c.solver`calls, c.solver`undefs, c.solver`budget
    ensures Forward.MayEnd(status, c, c.Grouped().Closure(Elems(old(c.samplingSet))))
    ensures status == Finished ==> c.Served(c.Grouped().Closure(Forward.GuessWindow(old(c.samplingSet), group, 0)))
    ensures status == Finished ==>
              && Prepared(c, f0) && NoDup(c.samplingSet)
              && Elems(c.samplingSet) <= c.Grouped().Closure(Elems(old(c.samplingSet)))
              && (|c.Grouped().Closure(Elems(old(c.samplingSet)))| <= 5_000_000 ==>
                    Supports(f0, c.Grouped().Closure(Elems(c.samplingSet)), s0))
              && (Unmarked(c.seen) <==> WindowInside(c.Grouped(), old(c.samplingSet), group))
    ensures status == Finished ==>
              Grown(f0, c.Grouped(), c.origNumVars, old(c.samplingSet), group, t, independent, c.samplingSet,
                    c.solver.calls - old(c.solver.calls), c.solver.undefs - old(c.solver.undefs))
    ensures Charged(c.limits.backward, old(c.solver.undefs), old(c.solver.sumConflicts), c.solver.undefs, c.solver.sumConflicts)
  {
    hide Ready, WindowInside, Forward.MayEnd, Grown, Charged;
    Unpack(c, f0);
    ghost var d, n, size, g, s := c.solver.Theory(), c.origNumVars, |c.seen|, c.Grouped(), c.samplingSet;
    status, t, independent := ForwardCall(c, group, draws);
    if status == Finished {
      Pack(c, f0, c.original, d, n, c.varToIndic, c.indicToVar, size, g);
      if |g.Closure(Elems(s))| <= 5_000_000 { BackTo(f0, c.original, g.Closure(Elems(c.samplingSet)), Elems(s), s0); }
      GrownSameModels(c.original, f0, g, n, s, group, t, independent, c.samplingSet,
                      c.solver.calls - old(c.solver.calls), c.solver.undefs - old(c.solver.undefs));
      t := t.(f := f0);
    }
  }

  // ---- backward ----

  /** The backward round with nothing else changed. */
  method BackwardCall(c: Common, ghost f0: Formula, draws: nat -> nat)
    returns (status: Status, ghost units: seq<seq<nat>>, ghost undecided: set<seq<nat>>)
    requires Prepared(c, f0) && (!c.groupIndep ==> Elems(c.samplingSet) <= Having(c.varToIndic))
    modifies c`samplingSet, c`otherSamplingSet
    modifies c.solver`model, c.solver`sumConflicts, c.solver`calls, c.solver`undefs, c.solver`budget
    ensures c.Grouped().Consistent(c.origNumVars) && SameModels(f0, c.original) && f0.n == c.original.n
    ensures status != Mixed ==>
              status == Backward.BackwardEnd(f0, c.Grouped(), c.groupIndep, c.var2varGroup, Having(c.varToIndic), Unmarked(c.seen),
                                             old(c.samplingSet), undecided)
    ensures status == Mixed ==>
              !c.groupIndep && exists v :: v in old(c.samplingSet) && v < |c.var2varGroup| && c.var2varGroup[v] != 0
    ensures status == Finished ==>
              && c.Grouped().UnitList(c.origNumVars, units)
              && Elems(Flat(units)) == c.Grouped().Closure(Elems(old(c.samplingSet)))
              && (c.groupIndep ==> units == c.Grouped().Listing(old(c.samplingSet)))
              && c.samplingSet == Minimise(f0, units, [], undecided)
    ensures |undecided| <= c.solver.undefs - old(c.solver.undefs)
    ensures |undecided| * c.limits.backward <= c.solver.sumConflicts - old(c.solver.sumConflicts)
    ensures c.solver.calls - old(c.solver.calls) <= |c.Grouped().Closure(Elems(old(c.samplingSet)))|
  {
    hide Ready, Backward.BackwardEnd, Minimise;
    Unpack(c, f0);
    ghost var s := c.samplingSet;
    status, units, undecided := Backward.BackwardRound(c, draws);
    MinimiseSameModels(c.original, f0, units, [], undecided);
    EndSameModels(c.original, f0, c.Grouped(), c.groupIndep, c.var2varGroup, Having(c.varToIndic), Unmarked(c.seen), s, undecided);
  }

  lemma EndSameModels(f: Formula, f0: Formula, g: Grouping, grouped: bool, table: seq<nat>, has: set<nat>, clean: bool,
                      s: seq<nat>, undecided: set<seq<nat>>)
    requires SameModels(f0, f) && f0.n == f.n
    ensures Backward.BackwardEnd(f, g, grouped, table, has, clean, s, undecided)
         == Backward.BackwardEnd(f0, g, grouped, table, has, clean, s, undecided)
  {
    CheckedSameModels(f, f0, g.Listing(s), [], undecided, has);
  }

  /** The backward stage: how it ends; and, when it finishes, a subset that determines the closure of what it started from,
      and a minimal one when every query was answered. */
  method BackwardStage(c: Common, ghost f0: Formula, draws: nat -> nat) 
    returns (status: Status, ghost units: seq<seq<nat>>, ghost undecided: set<seq<nat>>)
    requires Prepared(c, f0) && (!c.groupIndep ==> Elems(c.samplingSet) <= Having(c.varToIndic))
    modifies c`samplingSet, c`otherSamplingSet
    modifies c.solver`model, c.solver`sumConflicts, c.solver`calls, c.solver`undefs, c.solver`budget
    ensures status != Mixed ==>
              status == Backward.BackwardEnd(f0, c.Grouped(), c.groupIndep, c.var2varGroup, Having(c.varToIndic), Unmarked(c.seen),
                                             old(c.samplingSet), undecided)
    ensures status == Mixed ==>
              !c.groupIndep && exists v :: v in old(c.samplingSet) && v < |c.var2varGroup| && c.var2varGroup[v] != 0
    ensures status == Finished ==>
              && NoDup(c.samplingSet) && Bounded(c.samplingSet, c.origNumVars)
              && c.Grouped().UnitList(c.origNumVars, units)
              && Elems(Flat(units)) == c.Grouped().Closure(Elems(old(c.samplingSet)))
              && (c.groupIndep ==> units == c.Grouped().Listing(old(c.samplingSet)))
              && c.samplingSet == Minimise(f0, units, [], undecided)
              && IndependentSupport(f0, c.Grouped(), Elems(c.samplingSet), c.Grouped().Closure(Elems(old(c.samplingSet))))
              && (undecided == {} ==>
                    Minimal(f0, c.Grouped(), Elems(c.samplingSet), c.Grouped().Closure(Elems(old(c.samplingSet)))))
    ensures |undecided| <= c.solver.undefs - old(c.solver.undefs)
    ensures |undecided| * c.limits.backward <= c.solver.sumConflicts - old(c.solver.sumConflicts)
    ensures c.solver.calls - old(c.solver.calls) <= |c.Grouped().Closure(Elems(old(c.samplingSet)))|
  {
    hide Backward.BackwardEnd;
    status, units, undecided := BackwardCall(c, f0, draws);
    if status == Finished {
      MinimisedSupport(f0, c.Grouped(), c.origNumVars, units, undecided);
      c.Grouped().UnitListBounded(c.origNumVars, units);
      forall i | 0 <= i < |c.samplingSet| ensures c.samplingSet[i] < c.origNumVars {
        assert c.samplingSet[i] in Elems(c.samplingSet) && c.samplingSet[i] in Elems(Flat(units));
      }
    }
  }

  /** r is a set of whole groups out of s that determines s. */
  ghost predicate IndependentSupport(f: Formula, g: Grouping, r: set<nat>, s: set<nat>) {
    r <= s && g.Closed(r) && Supports(f, r, s)
  }

  /** No smaller collection of whole groups determines s. */
  ghost predicate Minimal(f: Formula, g: Grouping, r: set<nat>, s: set<nat>) {
    forall smaller: set<nat> :: smaller < r && g.Closed(smaller) ==> !Supports(f, smaller, s)
  }

  /** What minimising computes, in the words of the problem statement. */
  lemma MinimisedSupport(f: Formula, g: Grouping, n: nat, units: seq<seq<nat>>, undecided: set<seq<nat>>)
    requires g.Consistent(n) && g.UnitList(n, units)
    ensures var r := Minimise(f, units, [], undecided);
            && NoDup(r) && IndependentSupport(f, g, Elems(r), Elems(Flat(units)))
            && (undecided == {} ==> Minimal(f, g, Elems(r), Elems(Flat(units))))
  {
    assert Flat(units) + [] == Flat(units);
    MinimiseNoDup(f, units, [], undecided);
    MinimiseKeeps(f, units, [], undecided);
    MinimiseSupports(f, units, [], undecided);
    MinimiseClosed(f, g, n, units, undecided);
    if undecided == {} {
      forall smaller: set<nat> | smaller < Elems(Minimise(f, units, [], {})) && g.Closed(smaller)
        ensures !Supports(f, smaller, Elems(Flat(units)))
      {
        MinimiseMinimal(f, g, n, units, smaller);
      }
    }
  }
}
