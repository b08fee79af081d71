/** The guess round: variables whose equality is implied by assuming a window equal are removed. */
module Guess {
  import opened Seqs
  import opened Logic
  import opened Doubling
  import opened Sat
  import opened CommonState

  /** v is an unknown variable listed at one of the positions lo .. hi. */
  ghost predicate UnknownAt(unknown: seq<nat>, unknownSet: seq<bool>, lo: nat, hi: nat, v: nat) {
    v < |unknownSet| && unknownSet[v] && exists i :: lo <= i < hi && i < |unknown| && unknown[i] == v
  }

  /** Assumes the still unknown variables at positions lo .. hi equal and protects them from removal.
      No variable is known to be independent in this round. */
  method FillAssumptionsGuess(c: Common, unknown: seq<nat>, unknownSet: seq<bool>, lo: nat, hi: nat, dontRemove0: seq<bool>)
    returns (assumptions: seq<Lit>, dontRemove: seq<bool>, ghost assumed: seq<nat>)
    requires Inverts(c.indicToVar, c.varToIndic, |c.seen|) && c.Clean() && lo <= hi
    requires |unknownSet| == |dontRemove0| == c.origNumVars && Bounded(unknown, c.origNumVars)
    requires HasIndicators(c.varToIndic, unknown)
    modifies c`seen
    ensures |c.seen| == old(|c.seen|) && c.Clean()
    ensures HasIndicators(c.varToIndic, assumed) && assumptions == Equal(c.varToIndic, assumed)
    ensures |dontRemove| == |dontRemove0|
    ensures forall v :: 0 <= v < |dontRemove| ==> (dontRemove[v] <==> dontRemove0[v] || v in assumed)
    ensures forall v :: v in assumed <==> UnknownAt(unknown, unknownSet, lo, hi, v)
  {
    assumptions, dontRemove, assumed := [], dontRemove0, [];
    var i := lo;
    while i < hi && i < |unknown|
      invariant lo <= i <= hi && |c.seen| == old(|c.seen|)
      invariant Marks(c.seen, c.varToIndic, c.indicToVar, Elems(assumed))
      invariant HasIndicators(c.varToIndic, assumed) && assumptions == Equal(c.varToIndic, assumed)
      invariant |dontRemove| == |dontRemove0|
      invariant forall v :: 0 <= v < |dontRemove| ==> (dontRemove[v] <==> dontRemove0[v] || v in assumed)
      invariant forall v :: v in assumed <==> UnknownAt(unknown, unknownSet, lo, i, v)
    {
      var v := unknown[i];
      MarkOne(c.seen, c.varToIndic, c.indicToVar, Elems(assumed), v);
      if unknownSet[v] && !c.seen[c.varToIndic[v].value] {
        assumptions, assumed := AssumeOne(c, v, assumptions, assumed);
        dontRemove := dontRemove[v := true];
      }
      i := i + 1;
    }
    ClearAssumed(c, assumptions, assumed);
  }

  /** Clears the marks of the assumptions, which are all the marks there are. */
  method ClearAssumed(c: Common, assumptions: seq<Lit>, ghost assumed: seq<nat>)
    requires Inverts(c.indicToVar, c.varToIndic, |c.seen|)
    requires HasIndicators(c.varToIndic, assumed) && assumptions == Equal(c.varToIndic, assumed)
    requires Marks(c.seen, c.varToIndic, c.indicToVar, Elems(assumed))
    modifies c`seen
    ensures |c.seen| == old(|c.seen|) && c.Clean()
  {
    ghost var marked := Elems(assumed);
    for k := 0 to |assumptions|
      invariant |c.seen| == old(|c.seen|) && marked == Elems(assumed) - Elems(assumed[..k])
      invariant Marks(c.seen, c.varToIndic, c.indicToVar, marked)
    {
      assert c.varToIndic[assumed[k]].Some?;
      MarkOne(c.seen, c.varToIndic, c.indicToVar, marked, assumed[k]);
      assert assumed[..k + 1] == assumed[..k] + [assumed[k]];
      ElemsAppend(assumed[..k], [assumed[k]]);
      c.seen := c.seen[assumptions[k].v := false];
      marked := marked - {assumed[k]};
    }
    assert assumed[..|assumptions|] == assumed;
    NothingMarked(c.seen, c.varToIndic, c.indicToVar, marked);
  }

  /** One of the literals says that the indicator of v is false. */
  ghost predicate SaidEqual(inv: seq<Option<nat>>, implied: seq<Lit>, v: nat) {
    exists k :: 0 <= k < |implied| && implied[k].sign && implied[k].v < |inv| && inv[implied[k].v] == Some(v)
  }

  lemma SaidNext(inv: seq<Option<nat>>, implied: seq<Lit>, k: nat)
    requires k < |implied|
    ensures forall v: nat :: SaidEqual(inv, implied[..k + 1], v) <==>
              SaidEqual(inv, implied[..k], v) || (implied[k].sign && implied[k].v < |inv| && inv[implied[k].v] == Some(v))
  {
    var more := implied[..k + 1];
    assert more[k] == implied[k] && forall m :: 0 <= m < k ==> more[m] == implied[..k][m];
  }

  /** The state after some of the implied literals: `gone` are the variables they removed. */
  ghost predicate Removing(inv: seq<Option<nat>>, implied: seq<Lit>, unknownSet0: seq<bool>, dontRemove0: seq<bool>,
                           unknownSet: seq<bool>, dontRemove: seq<bool>, gone: seq<nat>)
  {
    && |unknownSet| == |dontRemove| == |unknownSet0| == |dontRemove0|
    && (forall v: nat :: v in gone <==>
          v < |unknownSet0| && unknownSet0[v] && !dontRemove0[v] && SaidEqual(inv, implied, v))
    && (forall v :: 0 <= v < |unknownSet| ==> (unknownSet[v] <==> unknownSet0[v] && v !in gone))
    && (forall v :: 0 <= v < |dontRemove| ==> (dontRemove[v] <==> dontRemove0[v] || v in gone))
  }

  lemma RemovingOne(inv: seq<Option<nat>>, implied: seq<Lit>, k: nat, unknownSet0: seq<bool>, dontRemove0: seq<bool>,
                    unknownSet: seq<bool>, dontRemove: seq<bool>, gone: seq<nat>, v: nat)
    requires k < |implied| && implied[k].sign && implied[k].v < |inv| && inv[implied[k].v] == Some(v)
    requires Removing(inv, implied[..k], unknownSet0, dontRemove0, unknownSet, dontRemove, gone)
    requires v < |unknownSet| && unknownSet[v] && !dontRemove[v]
    ensures v !in gone
    ensures Removing(inv, implied[..k + 1], unknownSet0, dontRemove0, unknownSet[v := false], dontRemove[v := true], gone + [v])
  {
    SaidNext(inv, implied, k);
  }

  /** Removes exactly the unprotected unknown variables whose indicators are returned as false. */
  method GuessRemoveAndUpdateAss(c: Common, assumptions0: seq<Lit>, unknownSet0: seq<bool>, dontRemove0: seq<bool>, ghost assumed: seq<nat>)
    returns (removed: nat, assumptions: seq<Lit>, unknownSet: seq<bool>, dontRemove: seq<bool>, ghost implied: seq<Lit>, ghost gone: seq<nat>)
    requires c.Paired() && Records(c.indicToVar, c.varToIndic)
    requires HasIndicators(c.varToIndic, assumed) && assumptions0 == Equal(c.varToIndic, assumed)
    requires |unknownSet0| == |dontRemove0| == c.origNumVars
    modifies c.solver`history
    ensures c.solver.history == old(c.solver.history) + [Implied(assumptions0, implied)]
    ensures Removing(c.indicToVar, implied, unknownSet0, dontRemove0, unknownSet, dontRemove, gone) && removed == |gone| && NoDup(gone)
    ensures HasIndicators(c.varToIndic, gone) && assumptions == assumptions0 + Equal(c.varToIndic, gone)
    ensures forall v :: v in gone ==> Determines(c.original, Elems(assumed), v)
    ensures forall i, a :: 0 <= i < |implied| && Satisfies(c.solver.Theory(), a) && AllTrue(assumptions0, a) ==> LitTrue(implied[i], a)
  {
    removed, assumptions, unknownSet, dontRemove, gone := 0, assumptions0, unknownSet0, dontRemove0, [];
    var ok, out := c.solver.ImpliedBy(assumptions);
    implied := if ok then out else [];
    if !ok { return; }
    for k := 0 to |out|
      invariant c.solver.history == old(c.solver.history) + [Implied(assumptions0, implied)]
      invariant Removing(c.indicToVar, out[..k], unknownSet0, dontRemove0, unknownSet, dontRemove, gone) && removed == |gone| && NoDup(gone)
      invariant HasIndicators(c.varToIndic, gone) && assumptions == assumptions0 + Equal(c.varToIndic, gone)
      invariant forall v :: v in gone ==> Determines(c.original, Elems(assumed), v)
    {
      var p := out[k];
      SaidNext(c.indicToVar, out, k);
      if p.sign && p.v < |c.indicToVar| && c.indicToVar[p.v].Some? {
        var v := c.indicToVar[p.v].value;
        if !dontRemove[v] && unknownSet[v] {
          ImpliedDetermined(c, assumed, v, p);
          RemovingOne(c.indicToVar, out, k, unknownSet0, dontRemove0, unknownSet, dontRemove, gone, v);
          unknownSet := unknownSet[v := false];
          assumptions := assumptions + [Lit(p.v, true)];
          dontRemove := dontRemove[v := true];
          removed := removed + 1;
          gone := gone + [v];
        }
      }
    }
    assert out[..|out|] == out;
  }

  lemma ImpliedDetermined(c: Common, assumed: seq<nat>, v: nat, p: Lit)
    requires c.Paired() && HasIndicators(c.varToIndic, assumed) && v < c.origNumVars
    requires c.varToIndic[v] == Some(p.v) && p.sign
    requires forall a :: Satisfies(c.solver.Theory(), a) && AllTrue(Equal(c.varToIndic, assumed), a) ==> LitTrue(p, a)
    ensures Determines(c.original, Elems(assumed), v)
  {
    ImpliedEqual(c.original, c.solver.Theory(), c.varToIndic, assumed, v);
  }

  // ---- the round ----

  ghost function StillUnknown(unknown: seq<nat>, unknownSet: seq<bool>): set<nat> {
    set v | v in unknown && v < |unknownSet| && unknownSet[v]
  }

  /** The protected variables that are still in the set. */
  ghost function Protected(unknownSet: seq<bool>, dontRemove: seq<bool>): set<nat> {
    set v | 0 <= v < |unknownSet| && v < |dontRemove| && unknownSet[v] && dontRemove[v]
  }

  /** Every removed sampling variable is determined by protected ones, which stay for good. */
  ghost predicate Removable(f: Formula, s: set<nat>, unknownSet: seq<bool>, dontRemove: seq<bool>) {
    && (forall v :: v in s ==> v < |unknownSet| && (unknownSet[v] || Determines(f, Protected(unknownSet, dontRemove), v)))
    && (forall v :: 0 <= v < |unknownSet| && unknownSet[v] ==> v in s)
  }

  lemma ProtectMore(f: Formula, s: set<nat>, unknownSet: seq<bool>, dontRemove0: seq<bool>, dontRemove: seq<bool>, assumed: seq<nat>)
    requires Removable(f, s, unknownSet, dontRemove0) && |dontRemove| == |dontRemove0| == |unknownSet|
    requires forall v :: 0 <= v < |dontRemove| ==> (dontRemove[v] <==> dontRemove0[v] || v in assumed)
    requires forall v :: v in assumed ==> v < |unknownSet| && unknownSet[v]
    ensures Removable(f, s, unknownSet, dontRemove)
    ensures Protected(unknownSet, dontRemove0) <= Protected(unknownSet, dontRemove)
    ensures Elems(assumed) <= Protected(unknownSet, dontRemove)
  {
    forall v | v in s && !unknownSet[v] ensures Determines(f, Protected(unknownSet, dontRemove), v) {
      DeterminesMono(f, Protected(unknownSet, dontRemove0), Protected(unknownSet, dontRemove), v);
    }
  }

  lemma RemoveImplied(f: Formula, s: set<nat>, unknownSet0: seq<bool>, dontRemove0: seq<bool>,
                      unknownSet: seq<bool>, dontRemove: seq<bool>, assumed: seq<nat>, gone: seq<nat>)
    requires Removable(f, s, unknownSet0, dontRemove0) && Elems(assumed) <= Protected(unknownSet0, dontRemove0)
    requires |unknownSet| == |dontRemove| == |unknownSet0| == |dontRemove0|
    requires forall v :: 0 <= v < |unknownSet| ==> (unknownSet[v] <==> unknownSet0[v] && v !in gone)
    requires forall v :: 0 <= v < |unknownSet| ==> (dontRemove[v] <==> dontRemove0[v] || v in gone)
    requires forall v :: v in gone ==> v < |unknownSet| && unknownSet0[v] && !dontRemove0[v] && Determines(f, Elems(assumed), v)
    ensures Removable(f, s, unknownSet, dontRemove)
    ensures Protected(unknownSet, dontRemove) == Protected(unknownSet0, dontRemove0)
  {
    var k := Protected(unknownSet0, dontRemove0);
    forall v | v in k ensures v in Protected(unknownSet, dontRemove) { assert unknownSet[v]; }
    forall v | v in s && !unknownSet[v] ensures Determines(f, k, v) {
      if unknownSet0[v] { DeterminesMono(f, Elems(assumed), k, v); }
    }
  }

  const GUESS_DIV := 10

  /** v is at one of the positions lo .. hi of the order. */
  ghost predicate InWindow(order: seq<nat>, lo: nat, hi: nat, v: nat) {
    exists i :: lo <= i < hi && i < |order| && order[i] == v
  }

  /** Where the window of the k-th query ends. */
  function WindowEnd(group: nat, offset: nat, k: nat): nat { group * (offset + k + 1) }

  /** One of the first k answers says that v is equal, and v was not in the window of its query. */
  ghost predicate Dropped(inv: seq<Option<nat>>, order: seq<nat>, group: nat, offset: nat, answers: seq<seq<Lit>>, k: nat, v: nat) {
    exists j :: 0 <= j < k && j < |answers| && SaidEqual(inv, answers[j], v)
                && !InWindow(order, group * offset, WindowEnd(group, offset, j), v)
  }

  ghost function Undropped(inv: seq<Option<nat>>, order: seq<nat>, group: nat, offset: nat, answers: seq<seq<Lit>>): set<nat> {
    set v | v in order && !Dropped(inv, order, group, offset, answers, |answers|, v)
  }

  /** What each query assumed: the variables of its window that no earlier answer dropped. */
  ghost predicate Asked(ind: seq<Option<nat>>, inv: seq<Option<nat>>, order: seq<nat>, group: nat, offset: nat,
                        asked: seq<seq<nat>>, answers: seq<seq<Lit>>)
  {
    && |asked| == |answers|
    && (forall k :: 0 <= k < |asked| ==> HasIndicators(ind, asked[k]))
    && (forall k, v :: 0 <= k < |asked| ==>
          (v in asked[k] <==> InWindow(order, group * offset, WindowEnd(group, offset, k), v)
                              && !Dropped(inv, order, group, offset, answers, k, v)))
  }

  /** The queries as the solver saw them. */
  ghost function Queries(ind: seq<Option<nat>>, asked: seq<seq<nat>>, answers: seq<seq<Lit>>): seq<Event>
    requires |asked| == |answers| && forall k :: 0 <= k < |asked| ==> HasIndicators(ind, asked[k])
  {
    seq(|asked|, k requires 0 <= k < |asked| => Implied(Equal(ind, asked[k]), answers[k]))
  }

  /** The flags after the queries so far. */
  ghost predicate Left(inv: seq<Option<nat>>, order: seq<nat>, group: nat, offset: nat, answers: seq<seq<Lit>>,
                       unknownSet: seq<bool>, dontRemove: seq<bool>)
  {
    && |unknownSet| == |dontRemove|
    && (forall v :: 0 <= v < |unknownSet| ==>
          (unknownSet[v] <==> v in order && !Dropped(inv, order, group, offset, answers, |answers|, v)))
    && (forall v :: 0 <= v < |unknownSet| && unknownSet[v] ==>
          (dontRemove[v] <==> |answers| > 0 && InWindow(order, group * offset, WindowEnd(group, offset, |answers| - 1), v)))
  }

  /** A round: the set it starts from, the order it puts it in, the variables each query assumed equal and what each answer
      said, and the set it leaves. */
  datatype Round = Round(before: seq<nat>, order: seq<nat>, asked: seq<seq<nat>>, answers: seq<seq<Lit>>, after: seq<nat>)

  /** With too few variables for the window the round does nothing. Otherwise it asks ten times, with the window growing by
      one group, and leaves, in its order, exactly what no answer dropped. */
  ghost predicate RoundOf(r: Round, ind: seq<Option<nat>>, inv: seq<Option<nat>>, group: nat, offset: nat) {
    && Permutation(r.before, r.order) && Asked(ind, inv, r.order, group, offset, r.asked, r.answers)
    && if group == 0 || offset >= |r.before| / group then r.answers == [] && r.order == r.after == r.before
       else
         && |r.answers| == 10
         && r.after == Among(r.order, Undropped(inv, r.order, group, offset, r.answers))
  }

  /** Whatever the answers, the variables of the first window stay. */
  lemma FirstWindowStays(r: Round, ind: seq<Option<nat>>, inv: seq<Option<nat>>, group: nat, offset: nat)
    requires RoundOf(r, ind, inv, group, offset)
    ensures KeptAt(r.order, r.after, group * offset, WindowEnd(group, offset, 0))
  {
    var lo := group * offset;
    forall i | lo <= i < WindowEnd(group, offset, 0) && i < |r.order| ensures r.order[i] in r.after {
      var v := r.order[i];
      forall j: nat ensures InWindow(r.order, lo, WindowEnd(group, offset, j), v) {
        WindowsNest(group, offset, j);
        assert lo <= i < WindowEnd(group, offset, j);
      }
      assert !Dropped(inv, r.order, group, offset, r.answers, 10, v);
      assert v in r.order;
      AmongMember(r.order, Undropped(inv, r.order, group, offset, r.answers), v);
    }
  }

  /** Membership in what a round leaves. */
  lemma RoundMeans(r: Round, ind: seq<Option<nat>>, inv: seq<Option<nat>>, group: nat, offset: nat)
    requires group > 0 && offset < |r.before| / group && RoundOf(r, ind, inv, group, offset)
    ensures |r.answers| == 10
    ensures forall v :: v in r.after <==>
              v in r.before
              && !exists k :: 0 <= k < 10 && SaidEqual(inv, r.answers[k], v) && !InWindow(r.order, group * offset, group * (offset + k + 1), v)
  {
    hide SaidEqual, InWindow, Asked;
    PermutationFacts(r.before, r.order);
    forall v: nat ensures v in r.before <==> v in r.order {
      assert v in r.before <==> v in Elems(r.before);
      assert v in r.order <==> v in Elems(r.order);
    }
    forall v: nat ensures v in r.after <==> v in r.before && !Dropped(inv, r.order, group, offset, r.answers, 10, v) {
      AmongMember(r.order, Undropped(inv, r.order, group, offset, r.answers), v);
    }
    forall v: nat ensures Dropped(inv, r.order, group, offset, r.answers, 10, v) <==>
      exists k :: 0 <= k < 10 && SaidEqual(inv, r.answers[k], v) && !InWindow(r.order, group * offset, group * (offset + k + 1), v)
    {
      DroppedMeans(r, inv, group, offset, v);
    }
  }

  lemma DroppedMeans(r: Round, inv: seq<Option<nat>>, group: nat, offset: nat, v: nat)
    requires |r.answers| == 10
    ensures Dropped(inv, r.order, group, offset, r.answers, 10, v) <==>
      exists k :: 0 <= k < 10 && SaidEqual(inv, r.answers[k], v) && !InWindow(r.order, group * offset, group * (offset + k + 1), v)
  {
    hide SaidEqual, InWindow;
  }

  /** One guess round; the order is the one that sorting, reversing or shuffling left the candidates in. */
  method GuessRound(c: Common, group: nat, offset: nat, draws: nat -> nat) returns (ghost r: Round)
    requires group > 0 && c.Paired() && c.Clean() && Bounded(c.samplingSet, c.origNumVars)
    requires Inverts(c.indicToVar, c.varToIndic, |c.seen|) && Records(c.indicToVar, c.varToIndic)
    requires HasIndicators(c.varToIndic, c.samplingSet)
    modifies c`samplingSet, c`otherSamplingSet, c`seen, c.solver`budget, c.solver`history
    ensures c.Paired() && c.Clean() && |c.seen| == old(|c.seen|)
    ensures Elems(c.samplingSet) <= Elems(old(c.samplingSet)) && Bounded(c.samplingSet, c.origNumVars)
    ensures NoDup(old(c.samplingSet)) ==> NoDup(c.samplingSet)
    ensures Supports(c.original, Elems(c.samplingSet), Elems(old(c.samplingSet)))
    ensures r.before == old(c.samplingSet) && r.after == c.samplingSet
    ensures RoundOf(r, c.varToIndic, c.indicToVar, group, offset)
    ensures c.solver.history == old(c.solver.history) + Queries(c.varToIndic, r.asked, r.answers)
    ensures r.answers != [] ==> c.solver.budget == c.limits.guess
    ensures offset >= |old(c.samplingSet)| / group ==> c.samplingSet == old(c.samplingSet) && r.answers == []
    ensures offset < |old(c.samplingSet)| / group ==>
              && |r.answers| == 10
              && forall v :: v in c.samplingSet <==>
                   v in old(c.samplingSet)
                   && !exists k :: 0 <= k < 10 && SaidEqual(c.indicToVar, r.answers[k], v)
                                   && !InWindow(r.order, group * offset, group * (offset + k + 1), v)
  {
    ghost var s := c.samplingSet;
    if offset >= |c.samplingSet| / group {
      SupportsSelf(c.original, Elems(c.samplingSet), Elems(c.samplingSet));
      r := Round(s, s, [], [], s);
    } else {
      r := GuessRun(c, group, offset, draws);
      RoundMeans(r, c.varToIndic, c.indicToVar, group, offset);
    }
  }

  /** The variables at positions lo .. hi of the order are in r. */
  ghost predicate KeptAt(order: seq<nat>, r: seq<nat>, lo: nat, hi: nat) {
    forall i :: lo <= i < hi && i < |order| ==> order[i] in r
  }

  method GuessRun(c: Common, group: nat, offset: nat, draws: nat -> nat) returns (ghost r: Round)
    requires group > 0 && offset < |c.samplingSet| / group
    requires c.Paired() && c.Clean() && Bounded(c.samplingSet, c.origNumVars)
    requires Inverts(c.indicToVar, c.varToIndic, |c.seen|) && Records(c.indicToVar, c.varToIndic)
    requires HasIndicators(c.varToIndic, c.samplingSet)
    modifies c`samplingSet, c`otherSamplingSet, c`seen, c.solver`budget, c.solver`history
    ensures c.Paired() && c.Clean() && |c.seen| == old(|c.seen|)
    ensures Elems(c.samplingSet) <= Elems(old(c.samplingSet)) && Bounded(c.samplingSet, c.origNumVars)
    ensures NoDup(old(c.samplingSet)) ==> NoDup(c.samplingSet)
    ensures Supports(c.original, Elems(c.samplingSet), Elems(old(c.samplingSet)))
    ensures r.before == old(c.samplingSet) && r.after == c.samplingSet
    ensures RoundOf(r, c.varToIndic, c.indicToVar, group, offset)
    ensures c.solver.history == old(c.solver.history) + Queries(c.varToIndic, r.asked, r.answers)
    ensures c.solver.budget == c.limits.guess
  {
    hide RoundOf, Dropped, InWindow, WindowEnd, Inverts, Records, Doubles;
    ghost var s := c.samplingSet;
    var unknown, unknownSet := StartGuess(c, draws);
    ghost var dontRemove, asked, answers;
    unknownSet, dontRemove, asked, answers := GuessLoop(c, unknown, unknownSet, group, offset);
    GuessKeeps(c.original, s, unknown, unknownSet);
    c.UpdateSamplingSet(unknown, unknownSet, []);
    assert c.samplingSet == Filter(unknown, unknownSet);
    r := Round(s, unknown, asked, answers, c.samplingSet);
    PackRound(r, c.varToIndic, c.indicToVar, group, offset, unknownSet, dontRemove);
  }

  lemma PackRound(r: Round, ind: seq<Option<nat>>, inv: seq<Option<nat>>, group: nat, offset: nat, unknownSet: seq<bool>,
                  dontRemove: seq<bool>)
    requires group > 0 && offset < |r.before| / group && Permutation(r.before, r.order) && |r.answers| == 10
    requires Asked(ind, inv, r.order, group, offset, r.asked, r.answers)
    requires Left(inv, r.order, group, offset, r.answers, unknownSet, dontRemove)
    requires Bounded(r.order, |unknownSet|) && r.after == Filter(r.order, unknownSet)
    ensures RoundOf(r, ind, inv, group, offset)
  {
    FilterAmong(r.order, unknownSet, Undropped(inv, r.order, group, offset, r.answers));
  }

  /** The filtered candidates. */
  lemma GuessKeeps(f: Formula, s: seq<nat>, unknown: seq<nat>, unknownSet: seq<bool>)
    requires Elems(unknown) == Elems(s) && Bounded(unknown, |unknownSet|) && (NoDup(s) ==> NoDup(unknown))
    requires Supports(f, StillUnknown(unknown, unknownSet), Elems(unknown))
    ensures var r := Filter(unknown, unknownSet);
            && (forall v :: v in r <==> v in unknown && unknownSet[v])
            && Elems(r) <= Elems(s) && Bounded(r, |unknownSet|) && (NoDup(s) ==> NoDup(r)) && Supports(f, Elems(r), Elems(s))
  {
    var r := Filter(unknown, unknownSet);
    forall v: nat | true ensures v in r <==> v in unknown && unknownSet[v] { FilterMember(unknown, unknownSet, v); }
    assert forall v :: v in unknown <==> v in Elems(unknown);
    assert Elems(r) == StillUnknown(unknown, unknownSet);
    assert forall i :: 0 <= i < |r| ==> r[i] in r;
    if NoDup(s) { FilterNoDup(unknown, unknownSet); }
  }

  method StartGuess(c: Common, draws: nat -> nat) returns (unknown: seq<nat>, unknownSet: seq<bool>)
    requires Bounded(c.samplingSet, c.origNumVars) && HasIndicators(c.varToIndic, c.samplingSet)
    ensures Permutation(c.samplingSet, unknown) && Elems(unknown) == Elems(c.samplingSet)
    ensures NoDup(c.samplingSet) ==> NoDup(unknown)
    ensures Bounded(unknown, c.origNumVars) && HasIndicators(c.varToIndic, unknown)
    ensures |unknownSet| == c.origNumVars && forall v :: 0 <= v < c.origNumVars ==> (unknownSet[v] <==> v in unknown)
  {
    hide Shuffled;
    unknownSet := seq(c.origNumVars, _ => false);
    for i := 0 to |c.samplingSet|
      invariant |unknownSet| == c.origNumVars
      invariant forall v :: 0 <= v < c.origNumVars ==> (unknownSet[v] <==> v in c.samplingSet[..i])
    {
      assert c.samplingSet[..i + 1] == c.samplingSet[..i] + [c.samplingSet[i]];
      unknownSet := unknownSet[c.samplingSet[i] := true];
    }
    assert c.samplingSet[..|c.samplingSet|] == c.samplingSet;
    unknown := Permute(c.samplingSet, draws);
    assert forall v :: v in unknown <==> v in Elems(unknown);
    assert forall v :: v in c.samplingSet <==> v in Elems(c.samplingSet);
    assert forall i :: 0 <= i < |unknown| ==> unknown[i] in unknown;
  }

  /** The ten iterations; the assumed window grows by one group each time. */
  method GuessLoop(c: Common, unknown: seq<nat>, unknownSet0: seq<bool>, group: nat, offset: nat)
    returns (unknownSet: seq<bool>, ghost protected: seq<bool>, ghost asked: seq<seq<nat>>, ghost answers: seq<seq<Lit>>)
    requires c.Paired() && c.Clean() && Bounded(unknown, c.origNumVars) && HasIndicators(c.varToIndic, unknown)
    requires Inverts(c.indicToVar, c.varToIndic, |c.seen|) && Records(c.indicToVar, c.varToIndic)
    requires |unknownSet0| == c.origNumVars && forall v :: 0 <= v < c.origNumVars ==> (unknownSet0[v] <==> v in unknown)
    modifies c`seen, c.solver`budget, c.solver`history
    ensures c.Paired() && c.Clean() && |c.seen| == old(|c.seen|) && |unknownSet| == c.origNumVars
    ensures Supports(c.original, StillUnknown(unknown, unknownSet), Elems(unknown))
    ensures |answers| == 10 && Asked(c.varToIndic, c.indicToVar, unknown, group, offset, asked, answers)
    ensures Left(c.indicToVar, unknown, group, offset, answers, unknownSet, protected)
    ensures c.solver.history == old(c.solver.history) + Queries(c.varToIndic, asked, answers)
    ensures c.solver.budget == c.limits.guess
  {
    hide Left, Dropped, InWindow, WindowEnd, Inverts, Records, Doubles, Removable;
    unknownSet, asked, answers := unknownSet0, [], [];
    var dontRemove := seq(c.origNumVars, _ => false);
    var iter := 0;
    NothingDropped(c, unknown, unknownSet, dontRemove, group, offset);
    while iter < GUESS_DIV
      invariant |answers| == iter <= GUESS_DIV && c.Paired() && c.Clean() && |c.seen| == old(|c.seen|)
      invariant |unknownSet| == |dontRemove| == c.origNumVars
      invariant Removable(c.original, Elems(unknown), unknownSet, dontRemove)
      invariant Asked(c.varToIndic, c.indicToVar, unknown, group, offset, asked, answers)
      invariant Left(c.indicToVar, unknown, group, offset, answers, unknownSet, dontRemove)
      invariant c.solver.history == old(c.solver.history) + Queries(c.varToIndic, asked, answers)
      invariant iter > 0 ==> c.solver.budget == c.limits.guess
    {
      ghost var unknownSet1, dontRemove1, assumed, implied, gone := unknownSet, dontRemove, [], [], [];
      WindowsNest(group, offset, iter);
      unknownSet, dontRemove, assumed, implied, gone :=
        GuessStep(c, unknown, unknownSet, dontRemove, group * offset, group * (offset + iter + 1));
      NextQuery(c.varToIndic, c.indicToVar, unknown, group, offset, asked, answers, assumed, implied,
                unknownSet1, dontRemove1, unknownSet, dontRemove, gone);
      NextEvent(c.varToIndic, asked, answers, assumed, implied);
      asked, answers := asked + [assumed], answers + [implied];
      iter := iter + 1;
    }
    protected := dontRemove;
    RemovableDone(c.original, unknown, unknownSet, dontRemove);
  }

  lemma WindowsNest(group: nat, offset: nat, iter: nat)
    ensures 0 <= group * offset <= WindowEnd(group, offset, 0) <= WindowEnd(group, offset, iter)
    ensures iter > 0 ==> WindowEnd(group, offset, iter - 1) <= WindowEnd(group, offset, iter)
    ensures WindowEnd(group, offset, iter) == group * (offset + iter + 1)
  {}

  lemma NothingDropped(c: Common, unknown: seq<nat>, unknownSet: seq<bool>, dontRemove: seq<bool>, group: nat, offset: nat)
    requires |unknownSet| == |dontRemove| == c.origNumVars && Bounded(unknown, c.origNumVars)
    requires forall v :: 0 <= v < c.origNumVars ==> (unknownSet[v] <==> v in unknown) && !dontRemove[v]
    ensures Removable(c.original, Elems(unknown), unknownSet, dontRemove)
    ensures Left(c.indicToVar, unknown, group, offset, [], unknownSet, dontRemove)
  {
    assert forall v :: v in Elems(unknown) ==> v < c.origNumVars;
  }

  lemma NextEvent(ind: seq<Option<nat>>, asked: seq<seq<nat>>, answers: seq<seq<Lit>>, assumed: seq<nat>, implied: seq<Lit>)
    requires |asked| == |answers| && (forall k :: 0 <= k < |asked| ==> HasIndicators(ind, asked[k])) && HasIndicators(ind, assumed)
    ensures Queries(ind, asked + [assumed], answers + [implied])
         == Queries(ind, asked, answers) + [Implied(Equal(ind, assumed), implied)]
  {}

  /** One more query. */
  lemma NextQuery(ind: seq<Option<nat>>, inv: seq<Option<nat>>, order: seq<nat>, group: nat, offset: nat,
                  asked: seq<seq<nat>>, answers: seq<seq<Lit>>, assumed: seq<nat>, implied: seq<Lit>,
                  unknownSet0: seq<bool>, dontRemove0: seq<bool>, unknownSet: seq<bool>, dontRemove: seq<bool>, gone: seq<nat>)
    requires Asked(ind, inv, order, group, offset, asked, answers) && HasIndicators(ind, assumed)
    requires Left(inv, order, group, offset, answers, unknownSet0, dontRemove0)
    requires |unknownSet| == |dontRemove| == |unknownSet0| && Bounded(order, |unknownSet|)
    requires forall v: nat :: v in assumed <==>
               v < |unknownSet0| && unknownSet0[v] && InWindow(order, group * offset, WindowEnd(group, offset, |answers|), v)
    requires forall v: nat :: v in gone <==>
               v < |unknownSet0| && unknownSet0[v] && !dontRemove0[v] && v !in assumed && SaidEqual(inv, implied, v)
    requires forall v :: 0 <= v < |unknownSet| ==> (unknownSet[v] <==> unknownSet0[v] && v !in gone)
    requires forall v :: 0 <= v < |unknownSet| ==> (dontRemove[v] <==> dontRemove0[v] || v in assumed || v in gone)
    ensures Asked(ind, inv, order, group, offset, asked + [assumed], answers + [implied])
    ensures Left(inv, order, group, offset, answers + [implied], unknownSet, dontRemove)
  {
    hide WindowEnd, SaidEqual, HasIndicators;
    var k, lo, more := |answers|, group * offset, answers + [implied];
    forall j: nat, v: nat | j <= k
      ensures Dropped(inv, order, group, offset, more, j, v) <==> Dropped(inv, order, group, offset, answers, j, v)
    {
      assert forall i :: 0 <= i < k ==> more[i] == answers[i];
    }
    forall v: nat ensures Dropped(inv, order, group, offset, more, k + 1, v) <==>
        Dropped(inv, order, group, offset, answers, k, v)
        || (SaidEqual(inv, implied, v) && !InWindow(order, lo, WindowEnd(group, offset, k), v))
    {
      DroppedNext(inv, order, group, offset, answers, implied, v);
    }
    forall v: nat | InWindow(order, lo, WindowEnd(group, offset, k), v) ensures v < |unknownSet0| && v in order {}
    WindowsNest(group, offset, k);
    assert forall v: nat :: k > 0 && InWindow(order, lo, WindowEnd(group, offset, k - 1), v) ==> InWindow(order, lo, WindowEnd(group, offset, k), v);
  }

  lemma DroppedNext(inv: seq<Option<nat>>, order: seq<nat>, group: nat, offset: nat, answers: seq<seq<Lit>>, implied: seq<Lit>, v: nat)
    ensures var k := |answers|;
            Dropped(inv, order, group, offset, answers + [implied], k + 1, v) <==>
              Dropped(inv, order, group, offset, answers, k, v)
              || (SaidEqual(inv, implied, v) && !InWindow(order, group * offset, WindowEnd(group, offset, k), v))
  {
    hide SaidEqual, InWindow, WindowEnd;
    var more := answers + [implied];
    assert more[|answers|] == implied;
    assert forall i :: 0 <= i < |answers| ==> more[i] == answers[i];
  }

  lemma RemovableDone(f: Formula, unknown: seq<nat>, unknownSet: seq<bool>, dontRemove: seq<bool>)
    requires Removable(f, Elems(unknown), unknownSet, dontRemove)
    ensures Supports(f, StillUnknown(unknown, unknownSet), Elems(unknown))
  {
    var r := StillUnknown(unknown, unknownSet);
    var k := Protected(unknownSet, dontRemove);
    assert k <= r;
    forall v | v in Elems(unknown) ensures Determines(f, r, v) {
      if unknownSet[v] { assert v in r; } else { DeterminesMono(f, k, r, v); }
    }
  }

  /** One iteration: assume a window, remove what is implied. */
  method GuessStep(c: Common, unknown: seq<nat>, unknownSet0: seq<bool>, dontRemove0: seq<bool>, lo: nat, hi: nat)
    returns (unknownSet: seq<bool>, dontRemove: seq<bool>, ghost assumed: seq<nat>, ghost implied: seq<Lit>, ghost gone: seq<nat>)
    requires lo <= hi && c.Paired() && c.Clean() && Bounded(unknown, c.origNumVars) && HasIndicators(c.varToIndic, unknown)
    requires Inverts(c.indicToVar, c.varToIndic, |c.seen|) && Records(c.indicToVar, c.varToIndic)
    requires |unknownSet0| == |dontRemove0| == c.origNumVars
    requires Removable(c.original, Elems(unknown), unknownSet0, dontRemove0)
    modifies c`seen, c.solver`budget, c.solver`history
    ensures c.Paired() && c.Clean() && |c.seen| == old(|c.seen|)
    ensures |unknownSet| == |dontRemove| == c.origNumVars
    ensures Removable(c.original, Elems(unknown), unknownSet, dontRemove)
    ensures HasIndicators(c.varToIndic, assumed) && c.solver.budget == c.limits.guess
    ensures c.solver.history == old(c.solver.history) + [Implied(Equal(c.varToIndic, assumed), implied)]
    ensures forall v: nat :: v in assumed <==> v < |unknownSet0| && unknownSet0[v] && InWindow(unknown, lo, hi, v)
    ensures forall v: nat :: v in gone <==>
              v < |unknownSet0| && unknownSet0[v] && !dontRemove0[v] && v !in assumed && SaidEqual(c.indicToVar, implied, v)
    ensures forall v :: 0 <= v < |unknownSet| ==> (unknownSet[v] <==> unknownSet0[v] && v !in gone)
    ensures forall v :: 0 <= v < |dontRemove| ==> (dontRemove[v] <==> dontRemove0[v] || v in assumed || v in gone)
  {
    hide SaidEqual;
    var assumptions;
    assumptions, dontRemove, assumed := FillAssumptionsGuess(c, unknown, unknownSet0, lo, hi, dontRemove0);
    c.solver.SetMaxConfl(c.limits.guess);
    ProtectMore(c.original, Elems(unknown), unknownSet0, dontRemove0, dontRemove, assumed);
    ghost var dontRemove1 := dontRemove;
    var removed;
    removed, assumptions, unknownSet, dontRemove, implied, gone :=
      GuessRemoveAndUpdateAss(c, assumptions, unknownSet0, dontRemove, assumed);
    RemoveImplied(c.original, Elems(unknown), unknownSet0, dontRemove1, unknownSet, dontRemove, assumed, gone);
  }

  /** The window size of all rounds, for a sampling set of that size at the start. */
  function WindowSize(size: nat): nat {
    if size / GUESS_DIV > 20 then size / GUESS_DIV else 20
  }

  /** What a solver may say that is told to assume the first window equal: that a candidate x which the window determines is
      equal too. */
  lemma MaySay(f: Formula, d: Formula, ind: seq<Option<nat>>, order: seq<nat>, window: nat, x: nat)
    requires Doubles(f, d, ind) && HasIndicators(ind, order) && window <= |order|
    requires x in order && Determines(f, Elems(order[..window]), x)
    ensures HasIndicators(ind, order[..window]) && ind[x].Some?
    ensures forall a :: Satisfies(d, a) && AllTrue(Equal(ind, order[..window]), a) ==> LitTrue(Lit(ind[x].value, true), a)
  {
    var i :| 0 <= i < |order| && order[i] == x;
    ImpliedEqual(f, d, ind, order[..window], x);
  }

  /** Groups are not looked at: when the first query is answered so and the others say nothing, x is the one variable to go. */
  lemma DroppingRound(ind: seq<Option<nat>>, inv: seq<Option<nat>>, s: seq<nat>, order: seq<nat>, group: nat, x: nat) returns (r: Round)
    requires Permutation(s, order) && HasIndicators(ind, order) && Inverts(inv, ind, |inv|) && 0 < group <= |s|
    requires x in order && !InWindow(order, 0, group, x)
    ensures r.before == s && r.order == order && RoundOf(r, ind, inv, group, 0) && |r.answers| == |r.asked| == 10
    ensures x < |ind| && ind[x].Some? && r.answers[0] == [Lit(ind[x].value, true)] && forall k :: 0 < k < 10 ==> r.answers[k] == []
    ensures forall v :: v in r.asked[0] <==> InWindow(order, 0, group, v)
    ensures r.after == Among(order, Elems(order) - {x})
  {
    hide InWindow, HasIndicators, Dropped, SaidEqual, Inverts, WindowEnd, Asked, Undropped, Permutation, Assumed;
    IndicatorsOf(ind, order);
    assert x in Elems(order);
    SaysOne(ind, inv, x);
    WindowsNest(group, 0, 0);
    var answers := [[Lit(ind[x].value, true)]] + seq(9, _ => []);
    var asked := seq(10, k requires 0 <= k < 10 => Assumed(order, group, k, x));
    r := Round(s, order, asked, answers, Among(order, Elems(order) - {x}));
    AskedOne(ind, inv, order, group, asked, answers, x);
    UndroppedOne(inv, order, group, answers, x);
    AssumedMeans(ind, order, group, 0, x);
    assert |s| / group >= 1;
  }

  lemma AskedOne(ind: seq<Option<nat>>, inv: seq<Option<nat>>, order: seq<nat>, group: nat, asked: seq<seq<nat>>,
                 answers: seq<seq<Lit>>, x: nat)
    requires HasIndicators(ind, order) && |asked| == |answers| == 10 && !InWindow(order, 0, WindowEnd(group, 0, 0), x)
    requires forall k :: 0 <= k < 10 ==> asked[k] == Assumed(order, group, k, x)
    requires forall w: nat :: SaidEqual(inv, answers[0], w) <==> w == x
    requires forall j, w: nat :: 0 < j < 10 ==> !SaidEqual(inv, answers[j], w)
    ensures Asked(ind, inv, order, group, 0, asked, answers)
  {
    hide InWindow, HasIndicators, Dropped, SaidEqual, WindowEnd, Assumed;
    forall k | 0 <= k < 10 ensures HasIndicators(ind, asked[k]) { AssumedMeans(ind, order, group, k, x); }
    forall k, v: nat | 0 <= k < 10
      ensures v in asked[k] <==> InWindow(order, 0, WindowEnd(group, 0, k), v) && !Dropped(inv, order, group, 0, answers, k, v)
    {
      AssumedMeans(ind, order, group, k, x);
      DropsOne(inv, order, group, answers, x, k, v);
    }
  }

  lemma UndroppedOne(inv: seq<Option<nat>>, order: seq<nat>, group: nat, answers: seq<seq<Lit>>, x: nat)
    requires |answers| == 10 && !InWindow(order, 0, WindowEnd(group, 0, 0), x)
    requires forall w: nat :: SaidEqual(inv, answers[0], w) <==> w == x
    requires forall j, w: nat :: 0 < j < 10 ==> !SaidEqual(inv, answers[j], w)
    ensures Undropped(inv, order, group, 0, answers) == Elems(order) - {x}
  {
    hide InWindow, Dropped, SaidEqual, WindowEnd;
    forall v: nat ensures Dropped(inv, order, group, 0, answers, 10, v) <==> v == x {
      DropsOne(inv, order, group, answers, x, 10, v);
    }
  }

  lemma SaysOne(ind: seq<Option<nat>>, inv: seq<Option<nat>>, x: nat)
    requires Inverts(inv, ind, |inv|) && x < |ind| && ind[x].Some?
    ensures forall v: nat :: SaidEqual(inv, [Lit(ind[x].value, true)], v) <==> v == x
    ensures forall v: nat :: !SaidEqual(inv, [], v)
  {
    var said := [Lit(ind[x].value, true)];
    forall v: nat ensures SaidEqual(inv, said, v) <==> v == x { assert said[0] == Lit(ind[x].value, true); }
  }

  lemma DropsOne(inv: seq<Option<nat>>, order: seq<nat>, group: nat, answers: seq<seq<Lit>>, x: nat, k: nat, v: nat)
    requires |answers| == 10 && k <= 10 && !InWindow(order, 0, WindowEnd(group, 0, 0), x)
    requires forall w: nat :: SaidEqual(inv, answers[0], w) <==> w == x
    requires forall j, w: nat :: 0 < j < 10 ==> !SaidEqual(inv, answers[j], w)
    ensures Dropped(inv, order, group, 0, answers, k, v) <==> k > 0 && v == x
  {
    hide SaidEqual, InWindow, WindowEnd;
    if k > 0 && v == x { assert SaidEqual(inv, answers[0], v); }
  }

  /** What the k-th of these queries assumes. */
  ghost function Assumed(order: seq<nat>, group: nat, k: nat, x: nat): seq<nat> {
    var end := WindowEnd(group, 0, k);
    Among(if end < |order| then order[..end] else order, if k == 0 then Elems(order) else Elems(order) - {x})
  }

  lemma AssumedMeans(ind: seq<Option<nat>>, order: seq<nat>, group: nat, k: nat, x: nat)
    requires HasIndicators(ind, order)
    ensures HasIndicators(ind, Assumed(order, group, k, x))
    ensures forall v :: v in Assumed(order, group, k, x) <==> InWindow(order, 0, WindowEnd(group, 0, k), v) && (k == 0 || v != x)
  {
    var end := WindowEnd(group, 0, k);
    var front := if end < |order| then order[..end] else order;
    var vs := if k == 0 then Elems(order) else Elems(order) - {x};
    var some := Among(front, vs);
    forall v: nat ensures v in some <==> InWindow(order, 0, end, v) && (k == 0 || v != x) {
      AmongMember(front, vs, v);
      if v in front {
        var i :| 0 <= i < |front| && front[i] == v;
        assert order[i] == v && 0 <= i < end;
      }
    }
    forall i | 0 <= i < |some| ensures some[i] < |ind| && ind[some[i]].Some? { assert some[i] in some; }
  }
}
