/** The whole run: what it delivers when it finishes, and when it does not finish. */
module Run {
  import opened Seqs
  import opened Logic
  import opened Counting
  import opened Groups
  import opened CommonState
  import opened Pipeline
  import opened Doubling
  import opened Minimisation

  /** What a run comes through. `ran` is false when the simplification found a contradiction or a repeated variable. What the
      solver said during the simplification, and the sampling set after it; the guess rounds, and the set after them; how
      the forward round ended and what it found; the set at the start of the backward round, the units it went through,
      and those it got no answer about. */
  datatype Trace = Trace(ran: bool, told: Told, simplified: seq<nat>, rounds: seq<Guess.Round>, guessed: seq<nat>,
                         forward: Status, growth: Growth, entering: seq<nat>, units: seq<seq<nat>>, undecided: set<seq<nat>>)

  /** The setting of the forward round, the independent variables it found, and how many tests it made, of which so many got
      no answer. */
  datatype Growth = Growth(setting: Forward.Setting, found: seq<nat>, tests: int, unanswered: int)

  /** In group mode every one of vs is in the table. */
  ghost predicate Reaches(grouped: bool, table: seq<nat>, vs: set<nat>) {
    grouped ==> forall v :: v in vs ==> v < |table|
  }

  /** How the forward round may end on the sampling set `guessed` when s0 has indicators: it gets through if all groups can
      be looked up and lie in s0, and does not if that fails for its window. In between it is a matter of the answers. */
  ghost predicate ForwardEnds(end: Status, g: Grouping, grouped: bool, table: seq<nat>, s0: set<nat>, guessed: seq<nat>, group: nat) {
    var w := Forward.GuessWindow(guessed, group, 0);
    && (end == Finished || end == BadTable || end == GroupSplit)
    && (Reaches(grouped, table, Elems(guessed)) && g.Closure(Elems(guessed)) <= s0 ==> end == Finished)
    && (end == Finished ==> Reaches(grouped, table, w) && g.Closure(w) <= s0)
    && (end == BadTable ==> !Reaches(grouped, table, Elems(guessed)))
    && (end == GroupSplit ==> !(g.Closure(Elems(guessed)) <= s0))
  }

  /** How the rounds end. */
  ghost function Verdict(f: Formula, g: Grouping, grouped: bool, table: seq<nat>, conf: Config, trace: Trace): Status {
    if conf.forward && trace.forward != Finished then trace.forward
    else if !conf.backward then Finished
    else Backward.BackwardEnd(f, g, grouped, table, Elems(trace.simplified),
                              conf.forward ==> WindowInside(g, trace.guessed, conf.forwardGroup), trace.entering, trace.undecided)
  }

  // ---- what is handed on ----

  /** Closed under groups, s lies within the closure of s0 and (unless the forward stage ran out of iterations)
      determines s0. */
  ghost predicate Carries(f: Formula, g: Grouping, s0: set<nat>, s: set<nat>, sure: bool) {
    && g.Closure(s) <= g.Closure(s0)
    && (sure ==> Supports(f, g.Closure(s), s0))
  }

  lemma CarriesSubset(f: Formula, g: Grouping, n: nat, s0: set<nat>, s: set<nat>, sure: bool)
    requires g.Consistent(n) && (forall v :: v in s0 ==> v < n) && s <= s0 && Supports(f, s, s0)
    ensures Carries(f, g, s0, s, sure)
  {
    g.ClosureMono(s, s0);
    g.ClosureContains(n, s);
    SupportsMono(f, s, g.Closure(s), s0);
  }

  lemma CarriesForward(f: Formula, g: Grouping, n: nat, s0: set<nat>, s1: set<nat>, s2: set<nat>, sure: bool)
    requires g.Consistent(n) && (forall v :: v in s1 ==> v < n)
    requires g.Closure(s1) <= g.Closure(s0) && s2 <= g.Closure(s1) && (sure ==> Supports(f, g.Closure(s2), s0))
    ensures Carries(f, g, s0, s2, sure) && g.Closure(s2) <= g.Closure(s1)
  {
    g.ClosureMono(s2, g.Closure(s1));
    g.ClosureBounded(n, s1);
    g.ClosureClosed(n, s1);
    g.ClosureOfClosed(n, g.Closure(s1));
  }

  lemma CarriesBackward(f: Formula, g: Grouping, n: nat, s0: set<nat>, s: set<nat>, r: set<nat>, sure: bool)
    requires g.Consistent(n) && (forall v :: v in s ==> v < n) && (forall v :: v in r ==> v < n)
    requires Carries(f, g, s0, s, sure) && IndependentSupport(f, g, r, g.Closure(s))
    ensures g.Closure(r) == r && Carries(f, g, s0, r, sure)
    ensures Minimal(f, g, r, g.Closure(s)) ==> Minimal(f, g, r, g.Closure(s0))
  {
    g.ClosureOfClosed(n, r);
    if sure { SupportsTrans(f, r, g.Closure(s), s0); }
  }

  /** The forward round has iterations enough to get through every variable of the groups of s. */
  ghost predicate Enough(forward: bool, g: Grouping, s: set<nat>) {
    forward ==> |g.Closure(s)| <= 5_000_000
  }

  /** What a finished run promises about the set r it found for the formula and the sampling set s0 it was given. */
  ghost predicate Delivered(f: Formula, g: Grouping, s0: set<nat>, r: set<nat>, sure: bool, backward: bool, answered: bool) {
    && Carries(f, g, s0, r, sure)
    && (backward ==> g.Closed(r))
    && (backward && answered ==> Minimal(f, g, r, g.Closure(s0)))
  }

  // ---- the rounds ----

  /** The variables with an indicator are those of s0. */
  lemma HavingSampled(c: Common, s0: set<nat>)
    requires Sampled(c, s0)
    ensures Having(c.varToIndic) == s0
  {}

  /** The guess rounds, if they are switched on. */
  method GuessPhase(c: Common, on: bool, ghost f0: Formula, ghost s0: set<nat>, draws: nat -> nat -> nat)
    returns (ghost rounds: seq<Guess.Round>)
    requires Prepared(c, f0) && c.Clean() && s0 == Elems(c.samplingSet) && Sampled(c, s0)
    requires on ==> NoDup(c.samplingSet) && Records(c.indicToVar, c.varToIndic)
    modifies c`samplingSet, c`otherSamplingSet, c`seen
    modifies c.solver`clauses, c.solver`bnns, c.solver`okay, c.solver`model, c.solver`sumConflicts, c.solver`budget, c.solver`history
    ensures Prepared(c, f0) && c.Clean()
    ensures Elems(c.samplingSet) <= s0 && Supports(f0, Elems(c.samplingSet), s0)
    ensures Carries(f0, c.Grouped(), s0, Elems(c.samplingSet), true)
    ensures !on ==> c.samplingSet == old(c.samplingSet)
    ensures on ==> ThreeRounds(rounds, c.varToIndic, c.indicToVar, old(c.samplingSet), c.samplingSet)
    ensures NoDup(old(c.samplingSet)) ==> NoDup(c.samplingSet)
    ensures c.solver.history == old(c.solver.history) + GuessTalk(on, c.varToIndic, rounds)
    ensures c.solver.sumConflicts >= old(c.solver.sumConflicts)
    ensures |old(c.samplingSet)| <= 20 ==> Elems(c.samplingSet) == s0
  {
    hide Ready, ThreeRounds, Guesses;
    rounds := [];
    SupportsSelf(f0, s0, s0);
    SampledIndicators(c);
    if on { rounds := RunGuess(c, f0, s0, draws); }
    Unpack(c, f0);
    CarriesSubset(f0, c.Grouped(), c.origNumVars, s0, Elems(c.samplingSet), true);
  }

  lemma SampledIndicators(c: Common)
    requires Sampled(c, Elems(c.samplingSet))
    ensures HasIndicators(c.varToIndic, c.samplingSet)
  {
    assert forall i :: 0 <= i < |c.samplingSet| ==> c.samplingSet[i] in Elems(c.samplingSet);
  }

  /** What assuming and looking up the groups of vs takes. */
  lemma ServedMeans(c: Common, s0: set<nat>, vs: set<nat>)
    requires c.GroupsOk() && Sampled(c, s0) && forall v :: v in vs ==> v < c.origNumVars
    ensures var closure := c.Grouped().Closure(vs);
            && (c.InTable(closure) <==> Reaches(c.groupIndep, c.var2varGroup, vs))
            && (c.Indicated(closure) <==> closure <= s0)
  {
    hide Grouping.Unit, Grouping.Consistent, Grouping.Closure;
    c.Grouped().ClosureContains(c.origNumVars, vs);
    c.Grouped().ClosureBounded(c.origNumVars, vs);
    if c.InTable(vs) { ClosureInTable(c, vs); }
  }

  lemma ForwardEndsOf(c: Common, s0: set<nat>, guessed: seq<nat>, group: nat, end: Status)
    requires c.GroupsOk() && Sampled(c, s0) && Bounded(guessed, c.origNumVars)
    requires Forward.MayEnd(end, c, c.Grouped().Closure(Elems(guessed)))
    requires end == Finished ==> c.Served(c.Grouped().Closure(Forward.GuessWindow(guessed, group, 0)))
    ensures ForwardEnds(end, c.Grouped(), c.groupIndep, c.var2varGroup, s0, guessed, group)
    ensures end == Finished || end == BadTable || end == GroupSplit
  {
    ReverseElems(guessed);
    ServedMeans(c, s0, Elems(guessed));
    ServedMeans(c, s0, Forward.GuessWindow(guessed, group, 0));
  }

  /** The forward round on s came to r this way. */
  ghost predicate GrownBy(f: Formula, g: Grouping, n: nat, s: seq<nat>, group: nat, growth: Growth, r: seq<nat>) {
    Grown(f, g, n, s, group, growth.setting, growth.found, r, growth.tests, growth.unanswered)
  }

  /** The forward round seen from the set the run started with. */
  method ForwardPhase(c: Common, group: nat, ghost f0: Formula, ghost s0: set<nat>, draws: nat -> nat)
    returns (status: Status, ghost growth: Growth)
    requires Prepared(c, f0) && c.Clean() && Sampled(c, s0)
    requires Elems(c.samplingSet) <= s0 && Supports(f0, Elems(c.samplingSet), s0)
    modifies c`samplingSet, c`otherSamplingSet, c`seen
    modifies c.solver`model, c.solver`sumConflicts, c.solver`calls, c.solver`undefs, c.solver`budget
    ensures ForwardEnds(status, c.Grouped(), c.groupIndep, c.var2varGroup, s0, old(c.samplingSet), group)
    ensures status == Finished || status == BadTable || status == GroupSplit
    ensures Sat.Charged(c.limits.backward, old(c.solver.undefs), old(c.solver.sumConflicts), c.solver.undefs, c.solver.sumConflicts)
    ensures growth.unanswered == c.solver.undefs - old(c.solver.undefs)
    ensures status == Finished ==>
              NoDup(c.samplingSet) && GrownBy(f0, c.Grouped(), c.origNumVars, old(c.samplingSet), group, growth, c.samplingSet)
    ensures status == Finished ==>
              && Prepared(c, f0) && Elems(c.samplingSet) <= c.Grouped().Closure(Elems(old(c.samplingSet)))
              && Carries(f0, c.Grouped(), s0, Elems(c.samplingSet), Enough(true, c.Grouped(), s0))
              && (Unmarked(c.seen) <==> WindowInside(c.Grouped(), old(c.samplingSet), group))
  {
    hide Grown, Sat.Charged, NoDup, Ready, WindowInside, Unmarked, Forward.MayEnd, ForwardEnds, Having, Grouping.Closure,
      Grouping.Unit, Grouping.Consistent, Supports, Forward.RoundSetting, Inverts, Doubles;
    ghost var g, s, s1 := c.Grouped(), c.samplingSet, Elems(c.samplingSet);
    Unpack(c, f0);
    HavingSampled(c, s0);
    g.ClosureMono(s1, s0);
    SubsetSize(g.Closure(s1), g.Closure(s0));
    ghost var calls, undefs := c.solver.calls, c.solver.undefs;
    ghost var t, found;
    status, t, found := ForwardStage(c, f0, s0, group, draws);
    growth := Growth(t, found, c.solver.calls - calls, c.solver.undefs - undefs);
    ForwardEndsOf(c, s0, s, group, status);
    if status == Finished {
      CarriesForward(f0, g, c.origNumVars, s0, s1, Elems(c.samplingSet), |g.Closure(s0)| <= 5_000_000);
    }
  }

  /** The backward round goes through the groups of s, in group mode in the order in which s lists them. */
  ghost predicate Walked(g: Grouping, n: nat, grouped: bool, s: seq<nat>, units: seq<seq<nat>>) {
    g.UnitList(n, units) && Elems(Flat(units)) == g.Closure(Elems(s)) && (grouped ==> units == g.Listing(s))
  }

  lemma PackWalked(g: Grouping, n: nat, grouped: bool, s: seq<nat>, units: seq<seq<nat>>)
    requires g.UnitList(n, units) && Elems(Flat(units)) == g.Closure(Elems(s)) && (grouped ==> units == g.Listing(s))
    ensures Walked(g, n, grouped, s, units)
  {}

  /** The backward round seen from the set the run started with. */
  method BackwardPhase(c: Common, ghost f0: Formula, ghost s0: set<nat>, ghost sure: bool, draws: nat -> nat)
    returns (status: Status, ghost units: seq<seq<nat>>, ghost undecided: set<seq<nat>>)
    requires Prepared(c, f0) && Sampled(c, s0) && Carries(f0, c.Grouped(), s0, Elems(c.samplingSet), sure)
    modifies c`samplingSet, c`otherSamplingSet
    modifies c.solver`model, c.solver`sumConflicts, c.solver`calls, c.solver`undefs, c.solver`budget
    ensures status != Mixed ==>
              status == Backward.BackwardEnd(f0, c.Grouped(), c.groupIndep, c.var2varGroup, s0, Unmarked(c.seen),
                                             old(c.samplingSet), undecided)
    ensures status == Mixed ==> UsesNumbers(c.groupIndep, c.var2varGroup, old(c.samplingSet))
    ensures |undecided| * c.limits.backward <= c.solver.sumConflicts - old(c.solver.sumConflicts)
    ensures status == Finished ==>
              && Bounded(c.samplingSet, c.origNumVars) && NoDup(c.samplingSet)
              && Walked(c.Grouped(), c.origNumVars, c.groupIndep, old(c.samplingSet), units)
              && c.samplingSet == Minimise(f0, units, [], undecided)
              && Delivered(f0, c.Grouped(), s0, Elems(c.samplingSet), sure, true, undecided == {})
  {
    hide *;
    ghost var g, s := c.Grouped(), c.samplingSet;
    BeforeBackward(c, f0, s0, sure);
    status, units, undecided := BackwardStage(c, f0, draws);
    if status == Finished {
      PackWalked(g, c.origNumVars, c.groupIndep, s, units);
      AfterBackward(f0, g, c.origNumVars, s0, s, c.samplingSet, sure, undecided == {});
    } else if status == Mixed {
      NumberUsed(c.groupIndep, c.var2varGroup, s);
    }
  }

  lemma BeforeBackward(c: Common, f0: Formula, s0: set<nat>, sure: bool)
    requires Prepared(c, f0) && Sampled(c, s0) && Carries(f0, c.Grouped(), s0, Elems(c.samplingSet), sure)
    ensures Having(c.varToIndic) == s0 && (!c.groupIndep ==> Elems(c.samplingSet) <= s0)
    ensures c.Grouped().Consistent(c.origNumVars) && Bounded(c.samplingSet, c.origNumVars)
  {
    HavingSampled(c, s0);
    if !c.groupIndep {
      NoGroups(c, Elems(c.samplingSet));
      NoGroups(c, s0);
    }
  }

  lemma AfterBackward(f: Formula, g: Grouping, n: nat, s0: set<nat>, s: seq<nat>, r: seq<nat>, sure: bool, answered: bool)
    requires g.Consistent(n) && Bounded(s, n) && Bounded(r, n) && Carries(f, g, s0, Elems(s), sure)
    requires IndependentSupport(f, g, Elems(r), g.Closure(Elems(s))) && (answered ==> Minimal(f, g, Elems(r), g.Closure(Elems(s))))
    ensures Delivered(f, g, s0, Elems(r), sure, true, answered)
  {
    CarriesBackward(f, g, n, s0, Elems(s), Elems(r), sure);
  }

  lemma NumberUsed(grouped: bool, table: seq<nat>, s: seq<nat>)
    requires !grouped && exists v :: v in s && v < |table| && table[v] != 0
    ensures UsesNumbers(grouped, table, s)
  {}

  /** Outside group mode some variable has a group number all the same. */
  ghost predicate UsesNumbers(grouped: bool, table: seq<nat>, s: seq<nat>) {
    !grouped && exists v :: v in s && v < |table| && table[v] != 0
  }

  /** The guess and the forward rounds, as far as they are switched on. */
  method RunGrowing(c: Common, conf: Config, ghost f0: Formula, ghost s0: set<nat>, draws: nat -> nat -> nat)
    returns (status: Status, ghost rounds: seq<Guess.Round>, ghost guessed: seq<nat>, ghost growth: Growth)
    requires Prepared(c, f0) && c.Clean() && s0 == Elems(c.samplingSet) && Sampled(c, s0)
    requires conf.guess ==> NoDup(c.samplingSet) && Records(c.indicToVar, c.varToIndic)
    modifies c`samplingSet, c`otherSamplingSet, c`seen
    modifies c.solver`clauses, c.solver`bnns, c.solver`okay, c.solver`model, c.solver`sumConflicts
    modifies c.solver`calls, c.solver`undefs, c.solver`budget, c.solver`history
    ensures Elems(guessed) <= s0 && (!conf.guess ==> guessed == old(c.samplingSet)) && (!conf.forward ==> c.samplingSet == guessed)
    ensures conf.guess ==> ThreeRounds(rounds, c.varToIndic, c.indicToVar, old(c.samplingSet), guessed)
    ensures c.solver.history == old(c.solver.history) + GuessTalk(conf.guess, c.varToIndic, rounds)
    ensures 0 <= growth.unanswered
    ensures growth.unanswered * c.limits.backward <= c.solver.sumConflicts - old(c.solver.sumConflicts)
    ensures conf.forward && status == Finished ==>
              GrownBy(f0, c.Grouped(), c.origNumVars, guessed, conf.forwardGroup, growth, c.samplingSet)
    ensures status == Finished && (conf.forward || NoDup(old(c.samplingSet))) ==> NoDup(c.samplingSet)
    ensures |old(c.samplingSet)| <= 20 ==> Elems(guessed) == s0
    ensures status == Finished || status == BadTable || status == GroupSplit
    ensures if conf.forward
            then ForwardEnds(status, c.Grouped(), c.groupIndep, c.var2varGroup, s0, guessed, conf.forwardGroup)
            else status == Finished
    ensures status == Finished ==>
              && Prepared(c, f0) && (!c.solver.okay ==> forall a :: !Satisfies(f0, a))
              && Elems(c.samplingSet) <= c.Grouped().Closure(Elems(guessed))
              && Carries(f0, c.Grouped(), s0, Elems(c.samplingSet), Enough(conf.forward, c.Grouped(), s0))
              && (Unmarked(c.seen) <==> conf.forward ==> WindowInside(c.Grouped(), guessed, conf.forwardGroup))
  {
    hide *;
    rounds := GuessPhase(c, conf.guess, f0, s0, draws);
    guessed := c.samplingSet;
    CleanMeans(c);
    Unpack(c, f0);
    OkayMeans(c, f0);
    Surely(f0, c.Grouped(), s0, Elems(c.samplingSet), Enough(conf.forward, c.Grouped(), s0));
    InOwnClosure(c, guessed);
    growth := Growth(Forward.Setting(f0, c.Grouped(), c.origNumVars, c.varToIndic, {}, {}, {}, {}), [], 0, 0);
    if conf.forward {
      ghost var undefs, conflicts := c.solver.undefs, c.solver.sumConflicts;
      status, growth := ForwardPhase(c, conf.forwardGroup, f0, s0, draws(3));
      Unanswered(c.limits.backward, growth.unanswered, undefs, conflicts, c.solver.undefs, c.solver.sumConflicts);
    } else {
      status := Finished;
    }
  }

  lemma Unanswered(limit: nat, count: int, undefs0: nat, conflicts0: nat, undefs: nat, conflicts: nat)
    requires Sat.Charged(limit, undefs0, conflicts0, undefs, conflicts) && count == undefs - undefs0
    ensures 0 <= count && count * limit <= conflicts - conflicts0
  {}

  lemma CleanMeans(c: Common)
    requires c.Clean()
    ensures Unmarked(c.seen)
  {}

  lemma InOwnClosure(c: Common, s: seq<nat>)
    requires c.GroupsOk() && Bounded(s, c.origNumVars)
    ensures Elems(s) <= c.Grouped().Closure(Elems(s))
  {
    c.Grouped().ClosureContains(c.origNumVars, Elems(s));
  }

  /** The backward round, if it is switched on. */
  method LastPhase(c: Common, on: bool, ghost f0: Formula, ghost s0: set<nat>, ghost sure: bool, draws: nat -> nat)
    returns (status: Status, ghost units: seq<seq<nat>>, ghost undecided: set<seq<nat>>)
    requires Prepared(c, f0) && Sampled(c, s0) && Carries(f0, c.Grouped(), s0, Elems(c.samplingSet), sure)
    modifies c`samplingSet, c`otherSamplingSet
    modifies c.solver`model, c.solver`sumConflicts, c.solver`calls, c.solver`undefs, c.solver`budget
    ensures if on
            then status != Mixed ==>
                   status == Backward.BackwardEnd(f0, c.Grouped(), c.groupIndep, c.var2varGroup, s0, Unmarked(c.seen),
                                                  old(c.samplingSet), undecided)
            else status == Finished
    ensures status == Mixed ==> UsesNumbers(c.groupIndep, c.var2varGroup, old(c.samplingSet))
    ensures |undecided| * c.limits.backward <= c.solver.sumConflicts - old(c.solver.sumConflicts)
    ensures on && status == Finished ==>
              NoDup(c.samplingSet) && Walked(c.Grouped(), c.origNumVars, c.groupIndep, old(c.samplingSet), units)
    ensures status == Finished ==>
              && Bounded(c.samplingSet, c.origNumVars)
              && c.samplingSet == (if on then Minimise(f0, units, [], undecided) else old(c.samplingSet))
              && Delivered(f0, c.Grouped(), s0, Elems(c.samplingSet), sure, on, undecided == {})
  {
    hide *;
    status, units, undecided := Finished, [], {};
    PreparedBounded(c, f0);
    if on {
      status, units, undecided := BackwardPhase(c, f0, s0, sure, draws);
    } else {
      Undelivered(f0, c.Grouped(), s0, Elems(c.samplingSet), sure);
    }
  }

  /** The rounds that are switched on, in order, on a prepared problem. */
  method RunRounds(c: Common, conf: Config, ghost f0: Formula, ghost told: Told, draws: nat -> nat -> nat)
    returns (status: Status, ghost trace: Trace)
    requires Prepared(c, f0) && c.Clean() && Sampled(c, Elems(c.samplingSet))
    requires conf.guess ==> NoDup(c.samplingSet) && Records(c.indicToVar, c.varToIndic)
    modifies c`samplingSet, c`otherSamplingSet, c`seen
    modifies c.solver`clauses, c.solver`bnns, c.solver`okay, c.solver`model, c.solver`sumConflicts
    modifies c.solver`calls, c.solver`undefs, c.solver`budget, c.solver`history
    ensures trace.ran && trace.told == told && trace.simplified == old(c.samplingSet)
    ensures Coming(trace, conf, c.Grouped(), c.groupIndep, c.var2varGroup)
    ensures status != Mixed ==> status == Verdict(f0, c.Grouped(), c.groupIndep, c.var2varGroup, conf, trace)
    ensures status == Mixed ==> conf.backward && UsesNumbers(c.groupIndep, c.var2varGroup, trace.entering)
    ensures Wasted(trace, c.limits.backward) <= c.solver.sumConflicts - old(c.solver.sumConflicts)
    ensures c.solver.history == old(c.solver.history) + GuessTalk(conf.guess, c.varToIndic, trace.rounds)
    ensures Account(trace, conf, f0, c.Grouped(), c.origNumVars, c.groupIndep, c.varToIndic, c.indicToVar, status)
    ensures status == Finished ==> c.samplingSet == Final(f0, conf, trace)
    ensures status == Finished && (conf.forward || conf.backward || NoDup(old(c.samplingSet))) ==> NoDup(c.samplingSet)
    ensures status == Finished ==>
              && Bounded(c.samplingSet, c.origNumVars) && (!c.solver.okay ==> forall a :: !Satisfies(f0, a))
              && Delivered(f0, c.Grouped(), Elems(old(c.samplingSet)), Elems(c.samplingSet),
                           Enough(conf.forward, c.Grouped(), Elems(old(c.samplingSet))), conf.backward, trace.undecided == {})
  {
    hide *;
    ghost var s, s0 := c.samplingSet, Elems(c.samplingSet);
    ghost var rounds, guessed, growth;
    ghost var units, undecided: set<seq<nat>> := [], {};
    status, rounds, guessed, growth := RunGrowing(c, conf, f0, s0, draws);
    ghost var grown, entering, conflicts := status, c.samplingSet, c.solver.sumConflicts;
    if status == Finished {
      status, units, undecided := LastPhase(c, conf.backward, f0, s0, Enough(conf.forward, c.Grouped(), s0), draws(4));
    }
    trace := Trace(true, told, s, rounds, guessed, grown, growth, entering, units, undecided);
    TotalCharge(trace, c.limits.backward, conflicts - old(c.solver.sumConflicts), c.solver.sumConflicts - conflicts);
    EndOfRounds(f0, c.Grouped(), c.groupIndep, c.var2varGroup, conf, trace, Unmarked(c.seen), status);
    PackAccount(trace, conf, f0, c.Grouped(), c.origNumVars, c.groupIndep, c.varToIndic, c.indicToVar, status, c.samplingSet);
  }

  /** What the queries without an answer have cost at least: those of the forward round, and one for every undecided unit. */
  ghost function Wasted(trace: Trace, limit: nat): int { (trace.growth.unanswered + |trace.undecided|) * limit }

  lemma WastedIs(trace: Trace, limit: nat)
    ensures Wasted(trace, limit) == (trace.growth.unanswered + |trace.undecided|) * limit
  {}

  lemma TotalCharge(trace: Trace, limit: nat, first: int, second: int)
    requires trace.growth.unanswered * limit <= first && |trace.undecided| * limit <= second
    ensures Wasted(trace, limit) <= first + second
  {
    assert (trace.growth.unanswered + |trace.undecided|) * limit == trace.growth.unanswered * limit + |trace.undecided| * limit;
  }

  /** The set a finished run ends with. */
  ghost function Final(f: Formula, conf: Config, trace: Trace): seq<nat> {
    if conf.backward then Minimise(f, trace.units, [], trace.undecided) else trace.entering
  }

  lemma FinalIs(f: Formula, conf: Config, trace: Trace)
    ensures Final(f, conf, trace) == if conf.backward then Minimise(f, trace.units, [], trace.undecided) else trace.entering
  {}

  /** How each round came from the set it got to the set it left. */
  ghost predicate Account(trace: Trace, conf: Config, f: Formula, g: Grouping, n: nat, grouped: bool, ind: seq<Option<nat>>,
                          inv: seq<Option<nat>>, end: Status)
  {
    && (conf.guess ==> ThreeRounds(trace.rounds, ind, inv, trace.simplified, trace.guessed))
    && (conf.forward && trace.forward == Finished ==>
          GrownBy(f, g, n, trace.guessed, conf.forwardGroup, trace.growth, trace.entering))
    && (conf.backward && end == Finished ==> Walked(g, n, grouped, trace.entering, trace.units))
  }

  lemma PackAccount(trace: Trace, conf: Config, f: Formula, g: Grouping, n: nat, grouped: bool, ind: seq<Option<nat>>,
                    inv: seq<Option<nat>>, end: Status, r: seq<nat>)
    requires conf.guess ==> ThreeRounds(trace.rounds, ind, inv, trace.simplified, trace.guessed)
    requires conf.forward && trace.forward == Finished ==>
               GrownBy(f, g, n, trace.guessed, conf.forwardGroup, trace.growth, trace.entering)
    requires conf.backward && end == Finished ==> Walked(g, n, grouped, trace.entering, trace.units)
    requires end == Finished ==> r == if conf.backward then Minimise(f, trace.units, [], trace.undecided) else trace.entering
    ensures Account(trace, conf, f, g, n, grouped, ind, inv, end) && (end == Finished ==> r == Final(f, conf, trace))
  {}

  lemma PreparedBounded(c: Common, f0: Formula)
    requires Prepared(c, f0)
    ensures Bounded(c.samplingSet, c.origNumVars)
  {}

  /** The statuses of the rounds, put together. */
  lemma EndOfRounds(f: Formula, g: Grouping, grouped: bool, table: seq<nat>, conf: Config, trace: Trace, clean: bool, status: Status)
    requires Elems(trace.guessed) <= Elems(trace.simplified) && (!conf.guess ==> trace.guessed == trace.simplified)
    requires |trace.simplified| <= 20 ==> Elems(trace.guessed) == Elems(trace.simplified)
    requires if conf.forward
             then ForwardEnds(trace.forward, g, grouped, table, Elems(trace.simplified), trace.guessed, conf.forwardGroup)
             else trace.forward == Finished && trace.entering == trace.guessed
    requires trace.forward == Finished ==>
               && Elems(trace.entering) <= g.Closure(Elems(trace.guessed))
               && (clean <==> conf.forward ==> WindowInside(g, trace.guessed, conf.forwardGroup))
    requires if trace.forward != Finished || !conf.backward then status == trace.forward
             else status != Mixed ==> status == Backward.BackwardEnd(f, g, grouped, table, Elems(trace.simplified), clean,
                                                                     trace.entering, trace.undecided)
    ensures Coming(trace, conf, g, grouped, table)
    ensures status != Mixed ==> status == Verdict(f, g, grouped, table, conf, trace)
  {}

  lemma Surely(f: Formula, g: Grouping, s0: set<nat>, s: set<nat>, sure: bool)
    requires Carries(f, g, s0, s, true)
    ensures Carries(f, g, s0, s, sure)
  {}

  lemma Undelivered(f: Formula, g: Grouping, s0: set<nat>, s: set<nat>, sure: bool)
    requires Carries(f, g, s0, s, sure)
    ensures Delivered(f, g, s0, s, sure, false, true)
  {}

  /** How the sampling set changes on its way from the simplification to the backward round. */
  ghost predicate Coming(trace: Trace, conf: Config, g: Grouping, grouped: bool, table: seq<nat>) {
    && Elems(trace.guessed) <= Elems(trace.simplified)
    && (!conf.guess ==> trace.guessed == trace.simplified)
    && (|trace.simplified| <= 20 ==> Elems(trace.guessed) == Elems(trace.simplified))
    && (if conf.forward
        then ForwardEnds(trace.forward, g, grouped, table, Elems(trace.simplified), trace.guessed, conf.forwardGroup)
        else trace.forward == Finished && trace.entering == trace.guessed)
    && (trace.forward == Finished ==> Elems(trace.entering) <= g.Closure(Elems(trace.guessed)))
  }

  // ---- what the verdict says ----

  /** A group-closed sampling set never misses an indicator. */
  lemma VerdictOfClosed(f: Formula, g: Grouping, n: nat, grouped: bool, table: seq<nat>, conf: Config, trace: Trace)
    requires g.Consistent(n) && Bounded(trace.simplified, n) && g.Closed(Elems(trace.simplified))
    requires Coming(trace, conf, g, grouped, table) && Bounded(trace.entering, n)
    ensures Verdict(f, g, grouped, table, conf, trace) != GroupSplit
  {
    hide Backward.BackwardEnd, Checked, Grouping.Consistent, Grouping.Unit, Grouping.Listing;
    var s0, s1, s2 := Elems(trace.simplified), Elems(trace.guessed), Elems(trace.entering);
    Backward.EndCases(f, g, grouped, table, s0, conf.forward ==> WindowInside(g, trace.guessed, conf.forwardGroup), trace.entering,
                      trace.undecided);
    assert forall v :: v in s0 ==> v in trace.simplified;
    g.ClosureOfClosed(n, s0);
    g.ClosureMono(s1, s0);
    if trace.forward == Finished {
      g.ClosureMono(s2, s0);
      g.ListingClosure(n, trace.entering);
      assert Elems([]) == {};
      CheckedServed(f, g.Listing(trace.entering), [], trace.undecided, s0);
    }
  }

  lemma ReverseElems(s: seq<nat>)
    ensures forall v :: v in Reversed(s) <==> v in s
  {
    var r := Reversed(s);
    forall v | v in s ensures v in r {
      var i :| 0 <= i < |s| && s[i] == v;
      assert r[|s| - 1 - i] == v;
    }
  }

  /** Some unit of s other than the one tested first reaches outside s, or that one does, is kept, and is not the only one.
      It is kept when the others do not determine it or its test got no answer. */
  ghost predicate Misses(f: Formula, g: Grouping, s: seq<nat>, undecided: set<seq<nat>>) {
    var units := g.Listing(s);
    units != [] &&
    var others, first := units[..|units| - 1], units[|units| - 1];
    || !(Elems(Flat(others)) <= Elems(s))
    || (others != [] && !(Elems(first) <= Elems(s)) && (first in undecided || !Supports(f, Elems(Flat(others)), Elems(first))))
  }

  /** Only the backward round is switched on, and the table reaches the whole sampling set, which repeats nothing. */
  ghost predicate BackwardOnly(grouped: bool, table: seq<nat>, conf: Config, trace: Trace) {
    && grouped && !conf.guess && !conf.forward && conf.backward
    && NoDup(trace.simplified) && Reaches(grouped, table, Elems(trace.simplified))
  }

  /** With the backward round alone, an indicator is missing exactly in the situations that `Misses` describes. */
  lemma VerdictOfBackward(f: Formula, g: Grouping, grouped: bool, table: seq<nat>, conf: Config, trace: Trace)
    requires Coming(trace, conf, g, grouped, table) && BackwardOnly(grouped, table, conf, trace)
    ensures Verdict(f, g, grouped, table, conf, trace) == GroupSplit <==> Misses(f, g, trace.simplified, trace.undecided)
    ensures Verdict(f, g, grouped, table, conf, trace) == Finished <==> !Misses(f, g, trace.simplified, trace.undecided)
  {
    hide Supports, Checked, Grouping.Listing, Flat, Backward.Collecting, NoDup;
    var s := trace.simplified;
    assert forall v :: v in s ==> v in Elems(s);
    Backward.CollectingAll(g, grouped, table, s);
    CheckedNothing(f, trace.undecided, Elems(s));
    if g.Listing(s) != [] { CheckedExact(f, g.Listing(s), trace.undecided, Elems(s)); }
  }

  /** The sampling set {1} with the group {0, 1}, and a third variable that is not sampled. */
  ghost const PAIR_OF_THREE := Grouping([1, 1, 0], [[], [0, 1]])

  lemma PairUnits()
    ensures var g := PAIR_OF_THREE;
            g.Consistent(3) && g.Unit(0) == g.Unit(1) == [0, 1] && g.Unit(2) == [2]
  {
    assert PAIR_OF_THREE.groups[1] == [0, 1];
    assert 0 in PAIR_OF_THREE.groups[1] && 1 in PAIR_OF_THREE.groups[1];
  }

  lemma ListedTwo(g: Grouping, v: nat, w: nat)
    requires w !in g.Unit(v)
    ensures g.Listing([v]) == [g.Unit(v)] && Flat([g.Unit(v)]) == g.Unit(v) && g.Listing([v, w]) == [g.Unit(v), g.Unit(w)]
  {
    hide Grouping.Unit;
    var none: seq<seq<nat>> := [];
    FlatAppend(none, g.Unit(v));
    assert none + [g.Unit(v)] == [g.Unit(v)];
    assert [v][..0] == [] && g.Listing([]) == none;
    assert [v, w][..1] == [v];
    assert [g.Unit(v)] + [g.Unit(w)] == [g.Unit(v), g.Unit(w)];
  }

  /** The units in the order they are listed; the last is tested first. */
  lemma PairListings()
    ensures PAIR_OF_THREE.Listing([1]) == [[0, 1]]
    ensures PAIR_OF_THREE.Listing([1, 2]) == [[0, 1], [2]] && PAIR_OF_THREE.Listing([2, 1]) == [[2], [0, 1]]
    ensures Flat([[0, 1]]) == [0, 1] && Flat([[2]]) == [2]
  {
    hide Grouping.Listing, Grouping.Unit, Flat;
    PairUnits();
    ListedTwo(PAIR_OF_THREE, 1, 2);
    ListedTwo(PAIR_OF_THREE, 2, 1);
  }

  /** A sampling set need not be group-closed for the round to finish: from {1} alone the group {0, 1} is the only unit. */
  lemma LoneGroupFinishes(f: Formula, undecided: set<seq<nat>>)
    ensures !PAIR_OF_THREE.Closed({1}) && !Misses(f, PAIR_OF_THREE, [1], undecided)
  {
    hide Supports, Grouping.Listing;
    PairUnits();
    PairListings();
    assert 0 in PAIR_OF_THREE.Unit(1);
    assert [[0, 1]][..0] == [];
  }

  /** With the variable 2 sampled after it, the group is assumed equal before it is tested. */
  lemma EarlierGroupMisses(f: Formula, undecided: set<seq<nat>>)
    ensures Misses(f, PAIR_OF_THREE, [1, 2], undecided)
  {
    hide Supports, Grouping.Listing, Flat;
    PairListings();
    assert [[0, 1], [2]][..1] == [[0, 1]];
    assert 0 in [0, 1] && 0 in Elems([0, 1]) && 0 !in [1, 2] && 0 !in Elems([1, 2]);
  }

  /** With 2 sampled before it, the group is tested first, and missed if 2 does not determine it. */
  lemma FirstGroupMisses(f: Formula)
    ensures Misses(f, PAIR_OF_THREE, [2, 1], {}) <==> !Supports(f, {2}, {0, 1})
  {
    hide Supports, Grouping.Listing, Flat;
    PairListings();
    assert [[2], [0, 1]][..1] == [[2]];
    assert 0 in [0, 1] && 0 in Elems([0, 1]) && 0 !in [2, 1] && 0 !in Elems([2, 1]);
    assert Elems([2]) == {2} && Elems([0, 1]) == {0, 1};
  }

  /** After the forward round the scratch array is still marked exactly when the guess rounds took a group partner of a
      variable of the window away; hence never when they took nothing. */
  lemma VerdictOfMarks(f: Formula, g: Grouping, grouped: bool, table: seq<nat>, conf: Config, trace: Trace)
    requires Coming(trace, conf, g, grouped, table) && conf.forward && conf.backward && trace.forward == Finished
    ensures Verdict(f, g, grouped, table, conf, trace) == SeenDirty <==>
              exists v, x :: v in Forward.GuessWindow(trace.guessed, conf.forwardGroup, 0) && x in g.Unit(v)
                             && x in trace.simplified && x !in trace.guessed
    ensures Elems(trace.guessed) == Elems(trace.simplified) ==> Verdict(f, g, grouped, table, conf, trace) != SeenDirty
  {
    hide Backward.BackwardEnd, Grouping.Unit;
    var window, s0 := Forward.GuessWindow(trace.guessed, conf.forwardGroup, 0), Elems(trace.simplified);
    Backward.EndCases(f, g, grouped, table, s0, WindowInside(g, trace.guessed, conf.forwardGroup), trace.entering, trace.undecided);
    if !WindowInside(g, trace.guessed, conf.forwardGroup) {
      var x :| x in g.Closure(window) && x !in Elems(trace.guessed);
      var v :| v in window && x in g.Unit(v);
      assert x in s0 && x in trace.simplified && x !in trace.guessed;
    } else {
      forall v, x | v in window && x in g.Unit(v) ensures x in trace.guessed { assert x in g.Closure(window); }
    }
  }

  /** The variables below n, and the group of the first and the last of them. */
  ghost function Below(n: nat): seq<nat> { seq(n, v => v) }

  ghost function EndsGrouped(n: nat): Grouping
    requires n >= 2
  {
    Grouping(seq(n, v => if v == 0 || v == n - 1 then 1 else 0), [[], [0, n - 1]])
  }

  lemma EndsUnits(n: nat)
    requires n >= 2
    ensures EndsGrouped(n).Consistent(n) && EndsGrouped(n).Closed(Elems(Below(n))) && EndsGrouped(n).Unit(0) == [0, n - 1]
  {
    var g := EndsGrouped(n);
    assert g.groups[1] == [0, n - 1];
    assert 0 in g.groups[1] && n - 1 in g.groups[1];
    forall v: nat ensures v in Elems(Below(n)) <==> v < n { if v < n { assert Below(n)[v] == v; } }
    forall v: nat, w | v in Elems(Below(n)) && w in g.Unit(v) ensures w in Elems(Below(n)) { assert v < n; }
  }

  /** One of the two is in the first window of the order, the other is not. */
  ghost predicate Apart(order: seq<nat>, window: nat, kept: nat, gone: nat) {
    window <= |order| && kept in order[..window] && gone in order && gone !in order[..window]
  }

  /** A run that the scratch array stops, for every n > 20: all variables are sampled, and the first and the last are in one
      group and equal in every model. Any guess round on an order that keeps the two apart (two of the rounds shuffle) may
      remove one alone, since the first window determines it; if the other one comes last then, the window of the forward
      round has a group that reaches beyond the sampling set. */
  lemma GuessLeavesMark(n: nat, f: Formula, d: Formula, ind: seq<Option<nat>>, inv: seq<Option<nat>>, order: seq<nat>,
                        kept: nat, gone: nat, conf: Config, trace: Trace)
    returns (r: Guess.Round)
    requires n > 20 && f.n == n && Sat.EntailsEqual(f, Lit(0, false), Lit(n - 1, false))
    requires Doubles(f, d, ind) && Inverts(inv, ind, |inv|) && (forall v :: 0 <= v < n ==> ind[v].Some?)
    requires {kept, gone} == {0, n - 1} && Permutation(Below(n), order) && Apart(order, Guess.WindowSize(n), kept, gone)
    requires conf.guess && conf.forward && conf.backward && conf.forwardGroup > 0
    requires trace.simplified == Below(n) && Elems(trace.guessed) == Elems(Below(n)) - {gone}
    requires trace.guessed != [] && trace.guessed[|trace.guessed| - 1] == kept
    requires Coming(trace, conf, EndsGrouped(n), true, EndsGrouped(n).var2group)
    ensures var g, window := EndsGrouped(n), order[..Guess.WindowSize(n)];
            && HasIndicators(ind, window)
            && (forall a :: Satisfies(d, a) && AllTrue(Doubling.Equal(ind, window), a) ==> LitTrue(Lit(ind[gone].value, true), a))
            && r.before == Below(n) && Guess.RoundOf(r, ind, inv, Guess.WindowSize(n), 0) && |r.answers| == |r.asked| == 10
            && Elems(r.asked[0]) == Elems(window) && r.answers[0] == [Lit(ind[gone].value, true)]
            && (forall k :: 0 < k < 10 ==> r.answers[k] == [])
            && Elems(r.after) == Elems(trace.guessed)
            && g.Consistent(n) && g.Closed(Elems(Below(n)))
            && Verdict(f, g, true, g.var2group, conf, trace) == SeenDirty
  {
    hide Guess.RoundOf, Verdict, Coming;
    var g, k := EndsGrouped(n), Guess.WindowSize(n);
    EndsUnits(n);
    PermutationFacts(Below(n), order);
    OrderBounds(order, n, ind);
    OtherFollows(f, n, order, k, kept, gone);
    Guess.MaySay(f, d, ind, order, k, gone);
    FirstWindow(order, k);
    r := Guess.DroppingRound(ind, inv, Below(n), order, k, gone);
    AllBut(order, gone, r.after);
    assert Elems(r.asked[0]) == Elems(order[..k]);
    MarkLeft(n, f, kept, gone, conf, trace);
  }

  lemma FirstWindow(order: seq<nat>, k: nat)
    requires k <= |order|
    ensures forall v :: v in order[..k] <==> Guess.InWindow(order, 0, k, v)
  {
    forall v | v in order[..k] ensures Guess.InWindow(order, 0, k, v) {
      var i :| 0 <= i < k && order[..k][i] == v;
      assert order[i] == v;
    }
  }

  lemma AllBut(order: seq<nat>, gone: nat, r: seq<nat>)
    requires r == Among(order, Elems(order) - {gone})
    ensures Elems(r) == Elems(order) - {gone}
  {
    forall v: nat ensures v in r <==> v in order && v != gone { AmongMember(order, Elems(order) - {gone}, v); }
  }

  lemma MarkLeft(n: nat, f: Formula, kept: nat, gone: nat, conf: Config, trace: Trace)
    requires n > 20 && {kept, gone} == {0, n - 1} && conf.forward && conf.backward && conf.forwardGroup > 0
    requires trace.simplified == Below(n) && Elems(trace.guessed) == Elems(Below(n)) - {gone}
    requires trace.guessed != [] && trace.guessed[|trace.guessed| - 1] == kept
    requires Coming(trace, conf, EndsGrouped(n), true, EndsGrouped(n).var2group)
    ensures Verdict(f, EndsGrouped(n), true, EndsGrouped(n).var2group, conf, trace) == SeenDirty
  {
    var g := EndsGrouped(n);
    EndsUnits(n);
    assert Reversed(trace.guessed)[0] == kept;
    assert kept in Forward.GuessWindow(trace.guessed, conf.forwardGroup, 0);
    assert gone in g.Unit(kept) && gone !in Elems(trace.guessed);
    g.ClosureMono(Elems(trace.guessed), Elems(Below(n)));
    g.ClosureOfClosed(n, Elems(Below(n)));
    assert Reaches(true, g.var2group, Elems(trace.guessed));
    assert Below(n)[gone] == gone && gone in trace.simplified && gone !in Elems(trace.guessed) && gone !in trace.guessed;
    VerdictOfMarks(f, g, true, g.var2group, conf, trace);
  }

  lemma OrderBounds(order: seq<nat>, n: nat, ind: seq<Option<nat>>)
    requires Elems(order) == Elems(Below(n)) && |ind| == n && forall v :: 0 <= v < n ==> ind[v].Some?
    ensures HasIndicators(ind, order)
  {
    forall i | 0 <= i < |order| ensures order[i] < n {
      assert order[i] in Elems(order);
      assert order[i] in Elems(Below(n));
    }
  }

  /** Such problems exist: the clauses of x0 == x(n - 1), duplicated with an indicator for every variable. */
  lemma TiedEnds(n: nat)
    requires n > 1
    ensures var f, s := Formula(n, Sat.XorOf(0, n - 1, false), []), Below(n);
            && WellFormed(f) && Bounded(s, n) && Sat.EntailsEqual(f, Lit(0, false), Lit(n - 1, false))
            && Doubles(f, Doubled(f, s), IndicatorMap(s, n)) && forall v :: 0 <= v < n ==> IndicatorMap(s, n)[v].Some?
  {
    var f, s := Formula(n, Sat.XorOf(0, n - 1, false), []), Below(n);
    forall a | Satisfies(f, a) ensures LitTrue(Lit(0, false), a) == LitTrue(Lit(n - 1, false), a) { Sat.XorMeans(0, n - 1, false, a); }
    DoubledDoubles(f, s);
    forall v | 0 <= v < n ensures v in s { assert s[v] == v; }
  }

  lemma OtherFollows(f: Formula, n: nat, order: seq<nat>, k: nat, kept: nat, gone: nat)
    requires f.n == n > 0 && {kept, gone} == {0, n - 1} && Apart(order, k, kept, gone)
    requires Sat.EntailsEqual(f, Lit(0, false), Lit(n - 1, false))
    ensures Determines(f, Elems(order[..k]), gone)
  {
    forall a, b | Satisfies(f, a) && Satisfies(f, b) && Agree(a, b, Elems(order[..k])) ensures a[gone] == b[gone] {
      assert LitTrue(Lit(0, false), a) == LitTrue(Lit(n - 1, false), a);
      assert LitTrue(Lit(0, false), b) == LitTrue(Lit(n - 1, false), b);
      assert kept in Elems(order[..k]);
      assert kept in {0, n - 1} && gone in {0, n - 1} && 0 in {kept, gone} && n - 1 in {kept, gone};
    }
  }

  // ---- the whole run ----

  /** A run that delivers on the simplified sampling set s1 delivers on s0. */
  lemma DeliveredBefore(f: Formula, g: Grouping, n: nat, s0: set<nat>, s1: set<nat>, r: set<nat>, forward: bool, backward: bool,
                        answered: bool)
    requires g.Consistent(n) && (forall v :: v in s0 ==> v < n) && s1 <= s0 && Supports(f, s1, s0)
    requires Delivered(f, g, s1, r, Enough(forward, g, s1), backward, answered)
    ensures Delivered(f, g, s0, r, Enough(forward, g, s0), backward, answered)
  {
    var sure := Enough(forward, g, s0);
    g.ClosureMono(s1, s0);
    SubsetSize(g.Closure(s1), g.Closure(s0));
    if sure { SupportsTrans(f, g.Closure(r), s1, s0); }
    if backward && answered {
      forall smaller: set<nat> | smaller < r && g.Closed(smaller) ensures !Supports(f, smaller, g.Closure(s0)) {
        assert !Supports(f, smaller, g.Closure(s1));
      }
    }
  }

  /** On a group-closed sampling set the closed result lies within it and keeps the projected model count. */
  lemma DeliveredCounts(f: Formula, g: Grouping, n: nat, s0: set<nat>, r: set<nat>, answered: bool)
    requires g.Consistent(n) && (forall v :: v in s0 ==> v < n) && g.Closed(s0)
    requires (forall v :: v in r ==> v < n) && Delivered(f, g, s0, r, true, true, answered)
    ensures r <= s0 && Supports(f, r, s0) && |Projections(f, r)| == |Projections(f, s0)|
    ensures answered ==> Minimal(f, g, r, s0)
  {
    g.ClosureOfClosed(n, s0);
    g.ClosureOfClosed(n, r);
    ProjectedCountPreserved(f, r, s0);
  }

  method EmptyOutIndepSetIfUnsat(c: Common)
    modifies c`samplingSet, c`otherSamplingSet, c`emptyOccs
    ensures c.solver.okay ==> c.samplingSet == old(c.samplingSet) && c.emptyOccs == old(c.emptyOccs)
    ensures !c.solver.okay ==> c.samplingSet == c.emptyOccs == []
  {
    if c.solver.okay { return; }
    c.otherSamplingSet := [];
    c.samplingSet, c.otherSamplingSet := c.otherSamplingSet, c.samplingSet;
    c.emptyOccs := [];
  }

  /** What came before the rounds. */
  ghost predicate Began(trace: Trace, conf: Config, s0: seq<nat>) {
    && Elems(trace.simplified) <= Elems(s0)
    && (!conf.simp ==> trace.ran && trace.simplified == s0)
    && (conf.simp && trace.ran ==> Cleaned(conf, s0, trace.told, trace.simplified))
    && (conf.simp && !NoDup(s0) ==> !trace.ran)
  }

  /** From the sampling set to a group independent support. */
  method FindSupport(c: Common, conf: Config, ghost f0: Formula, ghost s0: seq<nat>, ghost g: Grouping, draws: nat -> nat -> nat)
    returns (status: Status, ghost trace: Trace, ghost log: seq<Sat.Event>)
    requires c.solver.Valid() && Bounded(c.samplingSet, c.solver.nVars) && (conf.guess && !conf.simp ==> NoDup(c.samplingSet))
    requires Bounded(c.emptyOccs, c.solver.nVars) && g.Consistent(c.solver.nVars)
    requires f0 == c.solver.Theory() && s0 == c.samplingSet && g == c.GroupsFor(c.solver.nVars)
    modifies c, c.solver
    ensures c.emptyOccs == old(c.emptyOccs) && Began(trace, conf, s0)
    ensures conf.simp && !NoDup(s0) ==> status == Repeated
    ensures !trace.ran && status != Repeated ==> status == Finished && !c.solver.okay
    ensures trace.ran ==> Coming(trace, conf, g, old(c.groupIndep), old(c.var2varGroup))
    ensures trace.ran && status != Mixed ==> status == Verdict(f0, g, old(c.groupIndep), old(c.var2varGroup), conf, trace)
    ensures status == Mixed ==> trace.ran && conf.backward && UsesNumbers(old(c.groupIndep), old(c.var2varGroup), trace.entering)
    ensures status == Finished ==> Bounded(c.samplingSet, f0.n) && (!c.solver.okay ==> forall a :: !Satisfies(f0, a))
    ensures status == Finished && c.solver.okay ==>
              && Delivered(f0, g, Elems(s0), Elems(c.samplingSet), Enough(conf.forward, g, Elems(s0)), conf.backward,
                           trace.undecided == {})
              && c.samplingSet == Final(f0, conf, trace)
              && (conf.simp || conf.forward || conf.backward || NoDup(s0) ==> NoDup(c.samplingSet))
    ensures trace.ran ==>
              && Recorded(c.varToIndic, c.indicToVar, log, conf, f0, g, old(c.groupIndep), trace, status)
              && c.solver.history == old(c.solver.history) + log
    ensures Wasted(trace, c.limits.backward) <= c.solver.sumConflicts - old(c.solver.sumConflicts)
  {
    hide *;
    var ok;
    log := [];
    ghost var told;
    OwnModels(c);
    GroupsOf(c, c.solver.nVars);
    BoundedElems(s0, f0.n);
    status, ok, told := PreprocAndDuplicate(c, conf, draws(5), draws(6));
    ghost var s1, n := c.samplingSet, c.origNumVars;
    trace := NothingYet(f0, g, s1, c.limits.backward);
    if status != Finished || !ok {
      PackBegan(trace, conf, s0);
      return;
    }
    GroupsOf(c, n);
    TablesOf(c, f0);
    Unpack(c, f0);
    status, trace := RunRounds(c, conf, f0, told, draws);
    PackBegan(trace, conf, s0);
    log := PackRecorded(c, conf, f0, g, c.groupIndep, old(c.solver.history), trace, status);
    if status == Finished {
      DeliveredBefore(f0, g, f0.n, Elems(s0), Elems(s1), Elems(c.samplingSet), conf.forward, conf.backward, trace.undecided == {});
    }
  }

  lemma GroupsOf(c: Common, n: nat)
    ensures c.GroupsFor(n) == if c.groupIndep then Grouping(Padded(c.var2varGroup, n), c.varGroups) else Grouping(Padded([], n), [])
    ensures n == c.origNumVars ==> c.Grouped() == c.GroupsFor(n)
  {}

  lemma BoundedElems(s: seq<nat>, n: nat)
    requires Bounded(s, n)
    ensures forall v :: v in Elems(s) ==> v < n
  {}

  /** Before the rounds. */
  lemma NothingYet(f: Formula, g: Grouping, s: seq<nat>, limit: nat) returns (trace: Trace)
    ensures !trace.ran && trace.simplified == s && Wasted(trace, limit) == 0
  {
    trace := Trace(false, Told([], [], [], []), s, [], s, Finished,
                   Growth(Forward.Setting(f, g, 0, [], {}, {}, {}, {}), [], 0, 0), s, [], {});
  }

  lemma PackBegan(trace: Trace, conf: Config, s0: seq<nat>)
    requires Elems(trace.simplified) <= Elems(s0) && (!conf.simp ==> trace.ran && trace.simplified == s0)
    requires conf.simp && !NoDup(s0) ==> !trace.ran
    requires conf.simp && trace.ran ==> Cleaned(conf, s0, trace.told, trace.simplified)
    ensures Began(trace, conf, s0)
  {}

  /** What a run leaves in the tables and in the log of the solver, and how the rounds went. */
  ghost predicate Recorded(ind: seq<Option<nat>>, inv: seq<Option<nat>>, log: seq<Sat.Event>, conf: Config, f: Formula, g: Grouping,
                           grouped: bool, trace: Trace, end: Status)
  {
    && Bounded(trace.simplified, f.n) && ind == IndicatorMap(trace.simplified, f.n)
    && Inverts(inv, ind, |inv|) && (NoDup(trace.simplified) ==> Records(inv, ind))
    && Account(trace, conf, f, g, f.n, grouped, ind, inv, end)
    && log == BeforeRounds(conf, trace.told) + GuessTalk(conf.guess, ind, trace.rounds)
  }

  lemma PackRecorded(c: Common, conf: Config, f: Formula, g: Grouping, grouped: bool, history: seq<Sat.Event>, trace: Trace, end: Status)
    returns (log: seq<Sat.Event>)
    requires Bounded(trace.simplified, f.n) && c.varToIndic == IndicatorMap(trace.simplified, f.n)
    requires Inverts(c.indicToVar, c.varToIndic, |c.indicToVar|) && (NoDup(trace.simplified) ==> Records(c.indicToVar, c.varToIndic))
    requires Account(trace, conf, f, g, f.n, grouped, c.varToIndic, c.indicToVar, end)
    requires c.solver.history == history + BeforeRounds(conf, trace.told) + GuessTalk(conf.guess, c.varToIndic, trace.rounds)
    ensures Recorded(c.varToIndic, c.indicToVar, log, conf, f, g, grouped, trace, end) && c.solver.history == history + log
  {
    hide BeforeRounds, GuessTalk, Account, IndicatorMap, Inverts, Records, NoDup, Conversation;
    log := BeforeRounds(conf, trace.told) + GuessTalk(conf.guess, c.varToIndic, trace.rounds);
  }

  lemma TablesOf(c: Common, f: Formula)
    requires Prepared(c, f)
    ensures Inverts(c.indicToVar, c.varToIndic, |c.indicToVar|)
  {}

  /** What the caller of a finished run may rely on: `result` lists the variables without an occurrence and then what the last
      round left, which delivers; or the formula has no model and nothing is listed. */
  ghost predicate GroupIndependentSupport(f: Formula, g: Grouping, s0: seq<nat>, empty: seq<nat>, result: seq<nat>, conf: Config,
                                          trace: Trace, okay: bool)
  {
    if okay then
      var r := Final(f, conf, trace);
      && result == empty + r && Bounded(r, f.n)
      && Delivered(f, g, Elems(s0), Elems(r), Enough(conf.forward, g, Elems(s0)), conf.backward, trace.undecided == {})
      && (conf.simp || conf.forward || conf.backward || NoDup(s0) ==> NoDup(r))
    else result == [] && forall a :: !Satisfies(f, a)
  }

  /** The whole run: the result when it finishes, how it ends in terms of what it came through, and what unanswered queries
      have cost. */
  method GetIndepSet(c: Common, conf: Config, draws: nat -> nat -> nat)
    returns (status: Status, result: seq<nat>, ghost trace: Trace, ghost log: seq<Sat.Event>)
    requires c.solver.Valid() && Bounded(c.samplingSet, c.solver.nVars) && (conf.guess && !conf.simp ==> NoDup(c.samplingSet))
    requires Bounded(c.emptyOccs, c.solver.nVars) && c.GroupsFor(c.solver.nVars).Consistent(c.solver.nVars)
    modifies c, c.solver
    ensures status == Finished ==>
              && c.samplingSet == result
              && GroupIndependentSupport(old(c.solver.Theory()), old(c.GroupsFor(c.solver.nVars)), old(c.samplingSet),
                                         old(c.emptyOccs), result, conf, trace, c.solver.okay)
    ensures status == Finished && c.solver.okay ==>
              result == old(c.emptyOccs)
                        + if conf.backward then Minimise(old(c.solver.Theory()), trace.units, [], trace.undecided) else trace.entering
    ensures Began(trace, conf, old(c.samplingSet))
    ensures conf.simp && !NoDup(old(c.samplingSet)) ==> status == Repeated
    ensures !trace.ran && status != Repeated ==> status == Finished && !c.solver.okay
    ensures trace.ran ==> Coming(trace, conf, old(c.GroupsFor(c.solver.nVars)), old(c.groupIndep), old(c.var2varGroup))
    ensures trace.ran && status != Mixed ==>
              status == Verdict(old(c.solver.Theory()), old(c.GroupsFor(c.solver.nVars)), old(c.groupIndep), old(c.var2varGroup),
                                conf, trace)
    ensures status == Mixed ==> trace.ran && conf.backward && UsesNumbers(old(c.groupIndep), old(c.var2varGroup), trace.entering)
    ensures trace.ran && BackwardOnly(old(c.groupIndep), old(c.var2varGroup), conf, trace) ==>
              (status == GroupSplit <==>
               Misses(old(c.solver.Theory()), old(c.GroupsFor(c.solver.nVars)), trace.simplified, trace.undecided))
    ensures trace.ran ==>
              && Recorded(c.varToIndic, c.indicToVar, log, conf, old(c.solver.Theory()), old(c.GroupsFor(c.solver.nVars)),
                          old(c.groupIndep), trace, status)
              && c.solver.history == old(c.solver.history) + log
    ensures (trace.growth.unanswered + |trace.undecided|) * c.limits.backward <= c.solver.sumConflicts - old(c.solver.sumConflicts)
  {
    hide *;
    ghost var f0, g, s0, e0 := c.solver.Theory(), c.GroupsFor(c.solver.nVars), c.samplingSet, c.emptyOccs;
    ghost var grouped, table := c.groupIndep, c.var2varGroup;
    result := [];
    status, trace, log := FindSupport(c, conf, f0, s0, g, draws);
    WastedIs(trace, c.limits.backward);
    if trace.ran && BackwardOnly(grouped, table, conf, trace) {
      VerdictOfBackward(f0, g, grouped, table, conf, trace);
      GroupedOnly(grouped, table, conf, trace);
    }
    if status != Finished { return; }
    EmptyOutIndepSetIfUnsat(c);
    ghost var r := c.samplingSet;
    c.samplingSet := c.emptyOccs + c.samplingSet;
    result := c.samplingSet;
    FinalIs(f0, conf, trace);
    PackSupport(f0, g, s0, e0, r, result, conf, trace, c.solver.okay);
  }

  lemma PackSupport(f: Formula, g: Grouping, s0: seq<nat>, empty: seq<nat>, r: seq<nat>, result: seq<nat>, conf: Config,
                    trace: Trace, okay: bool)
    requires okay ==>
               && result == empty + r && r == Final(f, conf, trace) && Bounded(r, f.n)
               && Delivered(f, g, Elems(s0), Elems(r), Enough(conf.forward, g, Elems(s0)), conf.backward, trace.undecided == {})
               && (conf.simp || conf.forward || conf.backward || NoDup(s0) ==> NoDup(r))
    requires !okay ==> result == [] && forall a :: !Satisfies(f, a)
    ensures GroupIndependentSupport(f, g, s0, empty, result, conf, trace, okay)
  {}

  lemma GroupedOnly(grouped: bool, table: seq<nat>, conf: Config, trace: Trace)
    requires BackwardOnly(grouped, table, conf, trace)
    ensures !UsesNumbers(grouped, table, trace.entering)
  {}
}
