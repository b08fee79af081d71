/** Padoa's definability test: the formula is put beside a renamed copy of itself, and every sampling
    variable gets an indicator that is true exactly when the two copies disagree on it. */
module Doubling {
  import opened Seqs
  import opened Logic

  function ShiftLit(l: Lit, n: nat): Lit { Lit(l.v + n, l.sign) }

  function ShiftLits(ls: seq<Lit>, n: nat): seq<Lit> {
    seq(|ls|, i requires 0 <= i < |ls| => ShiftLit(ls[i], n))
  }

  function ShiftClauses(cs: seq<Clause>, n: nat): seq<Clause> {
    seq(|cs|, i requires 0 <= i < |cs| => ShiftLits(cs[i], n))
  }

  function ShiftBnn(b: Bnn, n: nat): Bnn {
    Bnn(ShiftLits(b.lits, n), b.cutoff, if b.out.Some? then Some(ShiftLit(b.out.value, n)) else None)
  }

  /** The copies of the constraints that are not NULL. */
  function ShiftBnns(bs: seq<Option<Bnn>>, n: nat): seq<Option<Bnn>> {
    if bs == [] then []
    else
      ShiftBnns(bs[..|bs| - 1], n) +
      match bs[|bs| - 1] case None => [] case Some(b) => [Some(ShiftBnn(b, n))]
  }

  /** indicator <==> (v differs from its copy v + n). */
  function IndicatorClauses(v: nat, n: nat, indicator: nat): seq<Clause> {
    [[Lit(v, false), Lit(v + n, true), Lit(indicator, false)],
     [Lit(v, true), Lit(v + n, false), Lit(indicator, false)],
     [Lit(v, false), Lit(v + n, false), Lit(indicator, true)],
     [Lit(v, true), Lit(v + n, true), Lit(indicator, true)]]
  }

  /** The indicator of the k-th sampling variable is variable 2n + k. */
  function AllIndicatorClauses(s: seq<nat>, n: nat): seq<Clause> {
    if s == [] then []
    else
      var k := |s| - 1;
      AllIndicatorClauses(s[..k], n) + IndicatorClauses(s[k], n, 2 * n + k)
  }

  function IndicatorMap(s: seq<nat>, n: nat): (ind: seq<Option<nat>>)
    requires Bounded(s, n)
    ensures |ind| == n
  {
    if s == [] then seq(n, _ => None)
    else
      var k := |s| - 1;
      IndicatorMap(s[..k], n)[s[k] := Some(2 * n + k)]
  }

  /** The formula beside its copy, before any indicator. */
  function Duplicated(f: Formula): Formula {
    Formula(2 * f.n, f.clauses + ShiftClauses(f.clauses, f.n), f.bnns + ShiftBnns(f.bnns, f.n))
  }

  /** The duplicated formula with an indicator for every entry of the sampling set. */
  function Doubled(f: Formula, s: seq<nat>): Formula {
    var d := Duplicated(f);
    Formula(d.n + |s|, d.clauses + AllIndicatorClauses(s, f.n), d.bnns)
  }

  /** A model of each copy, and the indicator values they force. */
  function Join(a: Assignment, b: Assignment, s: seq<nat>): Assignment
    requires |a| == |b| && Bounded(s, |a|)
  {
    a + b + seq(|s|, k requires 0 <= k < |s| => a[s[k]] != b[s[k]])
  }

  // ---- evaluation on the second copy ----

  lemma LitCopy(l: Lit, n: nat, m: Assignment)
    requires l.v < n && 2 * n <= |m|
    ensures LitTrue(ShiftLit(l, n), m) == LitTrue(l, m[n..2 * n])
  {}

  lemma {:induction false} CountCopy(ls: seq<Lit>, n: nat, m: Assignment)
    requires LitsBelow(ls, n) && 2 * n <= |m|
    ensures TrueCount(ShiftLits(ls, n), m) == TrueCount(ls, m[n..2 * n])
  {
    if ls != [] {
      var front := ls[..|ls| - 1];
      CountCopy(front, n, m);
      LitCopy(ls[|ls| - 1], n, m);
      assert ShiftLits(ls, n)[..|ls| - 1] == ShiftLits(front, n);
    }
  }

  lemma ClauseCopy(c: Clause, n: nat, m: Assignment)
    requires LitsBelow(c, n) && 2 * n <= |m|
    ensures ClauseTrue(ShiftLits(c, n), m) == ClauseTrue(c, m[n..2 * n])
  {
    forall i | 0 <= i < |c| ensures LitTrue(ShiftLits(c, n)[i], m) == LitTrue(c[i], m[n..2 * n]) {
      LitCopy(c[i], n, m);
    }
  }

  lemma BnnCopy(b: Bnn, n: nat, m: Assignment)
    requires BnnBelow(Some(b), n) && 2 * n <= |m|
    ensures BnnTrue(Some(ShiftBnn(b, n)), m) == BnnTrue(Some(b), m[n..2 * n])
  {
    CountCopy(b.lits, n, m);
    if b.out.Some? { LitCopy(b.out.value, n, m); }
  }

  predicate BnnsTrue(bs: seq<Option<Bnn>>, m: Assignment) {
    forall i :: 0 <= i < |bs| ==> BnnTrue(bs[i], m)
  }

  predicate ClausesTrue(cs: seq<Clause>, m: Assignment) {
    forall i :: 0 <= i < |cs| ==> ClauseTrue(cs[i], m)
  }

  lemma {:induction false} BnnsCopy(bs: seq<Option<Bnn>>, n: nat, m: Assignment)
    requires forall i :: 0 <= i < |bs| ==> BnnBelow(bs[i], n)
    requires 2 * n <= |m|
    ensures BnnsTrue(ShiftBnns(bs, n), m) == BnnsTrue(bs, m[n..2 * n])
  {
    if bs != [] {
      var k := |bs| - 1;
      var front, last := bs[..k], bs[k];
      BnnsCopy(front, n, m);
      assert bs == front + [last];
      BnnsSnoc(front, last, m[n..2 * n]);
      match last
      case None =>
        assert ShiftBnns(bs, n) == ShiftBnns(front, n);
      case Some(b) =>
        BnnCopy(b, n, m);
        BnnsSnoc(ShiftBnns(front, n), Some(ShiftBnn(b, n)), m);
    }
  }

  lemma BnnsSnoc(xs: seq<Option<Bnn>>, y: Option<Bnn>, m: Assignment)
    ensures BnnsTrue(xs + [y], m) <==> BnnsTrue(xs, m) && BnnTrue(y, m)
  {
    BnnsAppend(xs, [y], m);
    assert [y][0] == y;
  }

  lemma BnnsAppend(xs: seq<Option<Bnn>>, ys: seq<Option<Bnn>>, m: Assignment)
    ensures BnnsTrue(xs + ys, m) <==> BnnsTrue(xs, m) && BnnsTrue(ys, m)
  {
    forall i | 0 <= i < |ys| ensures ys[i] == (xs + ys)[|xs| + i] {}
    if BnnsTrue(xs + ys, m) {
      forall i | 0 <= i < |xs| ensures BnnTrue(xs[i], m) { assert (xs + ys)[i] == xs[i]; }
    }
  }

  lemma ClausesAppend(xs: seq<Clause>, ys: seq<Clause>, m: Assignment)
    ensures ClausesTrue(xs + ys, m) <==> ClausesTrue(xs, m) && ClausesTrue(ys, m)
  {
    forall i | 0 <= i < |ys| ensures ys[i] == (xs + ys)[|xs| + i] {}
    if ClausesTrue(xs + ys, m) {
      forall i | 0 <= i < |xs| ensures ClauseTrue(xs[i], m) { assert (xs + ys)[i] == xs[i]; }
    }
  }

  lemma ClausesCopy(cs: seq<Clause>, n: nat, m: Assignment)
    requires forall i :: 0 <= i < |cs| ==> LitsBelow(cs[i], n)
    requires 2 * n <= |m|
    ensures ClausesTrue(ShiftClauses(cs, n), m) == ClausesTrue(cs, m[n..2 * n])
  {
    forall i | 0 <= i < |cs| ensures ClauseTrue(ShiftClauses(cs, n)[i], m) == ClauseTrue(cs[i], m[n..2 * n]) {
      ClauseCopy(cs[i], n, m);
    }
  }

  // ---- the indicator clauses ----

  lemma IndicatorClausesMean(v: nat, n: nat, indicator: nat, m: Assignment)
    requires v < n && n + n <= |m| && indicator < |m|
    ensures ClausesTrue(IndicatorClauses(v, n, indicator), m) <==> (m[indicator] == (m[v] != m[v + n]))
  {
    var cs := IndicatorClauses(v, n, indicator);
    forall k | 0 <= k < 4
      ensures ClauseTrue(cs[k], m) <==> LitTrue(cs[k][0], m) || LitTrue(cs[k][1], m) || LitTrue(cs[k][2], m)
    {}
    assert ClausesTrue(cs, m) <==>
      ClauseTrue(cs[0], m) && ClauseTrue(cs[1], m) && ClauseTrue(cs[2], m) && ClauseTrue(cs[3], m);
  }

  /** Each indicator among the first k tells whether the copies differ on its variable. */
  predicate IndicatorsRight(s: seq<nat>, n: nat, m: Assignment, k: nat)
    requires Bounded(s, n) && 2 * n + |s| <= |m| && k <= |s|
  {
    forall i :: 0 <= i < k ==> m[2 * n + i] == (m[s[i]] != m[n + s[i]])
  }

  lemma {:induction false} AllIndicatorClausesMean(s: seq<nat>, n: nat, m: Assignment, k: nat)
    requires Bounded(s, n) && 2 * n + |s| <= |m| && k <= |s|
    ensures ClausesTrue(AllIndicatorClauses(s[..k], n), m) <==> IndicatorsRight(s, n, m, k)
  {
    if k > 0 {
      AllIndicatorClausesMean(s, n, m, k - 1);
      IndicatorClausesMean(s[k - 1], n, 2 * n + k - 1, m);
      assert s[..k][..k - 1] == s[..k - 1];
      ClausesAppend(AllIndicatorClauses(s[..k - 1], n), IndicatorClauses(s[k - 1], n, 2 * n + k - 1), m);
      assert m[2 * n + (k - 1)] == m[2 * n + k - 1];
    }
  }

  // ---- main results ----

  lemma DuplicatedMeans(f: Formula, m: Assignment)
    requires WellFormed(f) && 2 * f.n <= |m|
    ensures ClausesTrue(Duplicated(f).clauses, m) && BnnsTrue(Duplicated(f).bnns, m)
            <==> Satisfies(f, m[..f.n]) && Satisfies(f, m[f.n..2 * f.n])
  {
    ConstraintsPrefix(f, m);
    ClausesCopy(f.clauses, f.n, m);
    BnnsCopy(f.bnns, f.n, m);
    ClausesAppend(f.clauses, ShiftClauses(f.clauses, f.n), m);
    BnnsAppend(f.bnns, ShiftBnns(f.bnns, f.n), m);
  }

  lemma JoinAt(s: seq<nat>, n: nat, m: Assignment, i: nat)
    requires Bounded(s, n) && |m| == 2 * n + |s| && i < |m|
    ensures var j := Join(m[..n], m[n..2 * n], s);
            |j| == |m| && j[i] == if i < 2 * n then m[i] else m[s[i - 2 * n]] != m[n + s[i - 2 * n]]
  {
    if i >= 2 * n {
      var v := s[i - 2 * n];
      assert m[..n][v] == m[v] && m[n..2 * n][v] == m[n + v];
    }
  }

  lemma JoinMeans(s: seq<nat>, n: nat, m: Assignment)
    requires Bounded(s, n) && |m| == 2 * n + |s|
    ensures IndicatorsRight(s, n, m, |s|) <==> m == Join(m[..n], m[n..2 * n], s)
  {
    var j := Join(m[..n], m[n..2 * n], s);
    if IndicatorsRight(s, n, m, |s|) {
      forall i | 0 <= i < |m| ensures m[i] == j[i] {
        JoinAt(s, n, m, i);
        if i >= 2 * n { assert m[2 * n + (i - 2 * n)] == m[i]; }
      }
    }
    if m == j {
      forall k | 0 <= k < |s| ensures m[2 * n + k] == (m[s[k]] != m[n + s[k]]) { JoinAt(s, n, m, 2 * n + k); }
    }
  }

  lemma DoubledConstraints(f: Formula, s: seq<nat>, m: Assignment)
    requires WellFormed(f) && Bounded(s, f.n) && |m| == 2 * f.n + |s|
    ensures Satisfies(Doubled(f, s), m) <==>
            Satisfies(f, m[..f.n]) && Satisfies(f, m[f.n..2 * f.n]) && IndicatorsRight(s, f.n, m, |s|)
  {
    DuplicatedMeans(f, m);
    assert s[..|s|] == s;
    AllIndicatorClausesMean(s, f.n, m, |s|);
    ClausesAppend(Duplicated(f).clauses, AllIndicatorClauses(s, f.n), m);
    var d := Doubled(f, s);
    assert Satisfies(d, m) <==> ClausesTrue(d.clauses, m) && BnnsTrue(d.bnns, m);
  }

  /** The models of the doubled formula are exactly the joined pairs of models. */
  lemma DoubledModels(f: Formula, s: seq<nat>, m: Assignment)
    requires WellFormed(f) && Bounded(s, f.n)
    ensures Satisfies(Doubled(f, s), m) <==>
            |m| == 2 * f.n + |s| && Satisfies(f, m[..f.n]) && Satisfies(f, m[f.n..2 * f.n])
            && m == Join(m[..f.n], m[f.n..2 * f.n], s)
  {
    if |m| == 2 * f.n + |s| {
      DoubledConstraints(f, s, m);
      JoinMeans(s, f.n, m);
    }
  }

  /** Every pair of models extends to a model of the doubled formula, and to one only. */
  lemma PairExtendsUniquely(f: Formula, s: seq<nat>, a: Assignment, b: Assignment)
    requires WellFormed(f) && Bounded(s, f.n) && Satisfies(f, a) && Satisfies(f, b)
    ensures Satisfies(Doubled(f, s), Join(a, b, s))
    ensures forall m :: Satisfies(Doubled(f, s), m) && m[..f.n] == a && m[f.n..2 * f.n] == b ==> m == Join(a, b, s)
  {
    var j := Join(a, b, s);
    assert j[..f.n] == a && j[f.n..2 * f.n] == b;
    DoubledModels(f, s, j);
    forall m | Satisfies(Doubled(f, s), m) && m[..f.n] == a && m[f.n..2 * f.n] == b ensures m == j {
      DoubledModels(f, s, m);
    }
  }

  /** Exchanging the copies maps models of the doubled formula to models. */
  lemma SwapCopies(f: Formula, s: seq<nat>, m: Assignment)
    requires WellFormed(f) && Bounded(s, f.n) && Satisfies(Doubled(f, s), m)
    ensures |m| >= 2 * f.n
    ensures Satisfies(Doubled(f, s), m[f.n..2 * f.n] + m[..f.n] + m[2 * f.n..])
  {
    var n := f.n;
    DoubledModels(f, s, m);
    var a, b := m[..n], m[n..2 * n];
    PairExtendsUniquely(f, s, b, a);
    assert Join(b, a, s) == b + a + m[2 * n..];
  }

  // ---- what the rounds use ----

  /** `d` doubles `f`: its models restrict to pairs of models of `f`, every pair of models of `f` is such
      a restriction, and `ind[v]`, where there is one, tells whether the copies differ on v. */
  ghost predicate Doubles(f: Formula, d: Formula, ind: seq<Option<nat>>) {
    && |ind| == f.n
    && 2 * f.n <= d.n
    && (forall v :: 0 <= v < f.n && ind[v].Some? ==> ind[v].value < d.n)
    && (forall m {:trigger SplitsInto(f, d, ind, m)} :: SplitsInto(f, d, ind, m))
    && (forall a, b {:trigger HasJoin(f, d, a, b)} :: HasJoin(f, d, a, b))
  }

  /** A model of d is a pair of models of f with the right indicators. */
  ghost predicate SplitsInto(f: Formula, d: Formula, ind: seq<Option<nat>>, m: Assignment)
    requires |ind| == f.n && 2 * f.n <= d.n && forall v :: 0 <= v < f.n && ind[v].Some? ==> ind[v].value < d.n
  {
    Satisfies(d, m) ==>
      && Satisfies(f, m[..f.n]) && Satisfies(f, m[f.n..2 * f.n])
      && forall v :: 0 <= v < f.n && ind[v].Some? ==> m[ind[v].value] == (m[v] != m[f.n + v])
  }

  /** A pair of models of f is part of a model of d. */
  ghost predicate HasJoin(f: Formula, d: Formula, a: Assignment, b: Assignment)
    requires 2 * f.n <= d.n
  {
    Satisfies(f, a) && Satisfies(f, b) ==> exists m :: Satisfies(d, m) && m[..f.n] == a && m[f.n..2 * f.n] == b
  }

  lemma DoublesSameModels(f: Formula, d: Formula, e: Formula, ind: seq<Option<nat>>)
    requires Doubles(f, d, ind) && SameModels(d, e) && d.n == e.n
    ensures Doubles(f, e, ind)
  {
    forall m ensures SplitsInto(f, e, ind, m) { assert SplitsInto(f, d, ind, m); }
    forall a, b ensures HasJoin(f, e, a, b) { assert HasJoin(f, d, a, b); }
  }

  lemma {:induction false} IndicatorIndex(s: seq<nat>, n: nat, v: nat) returns (k: nat)
    requires Bounded(s, n) && v < n
    ensures IndicatorMap(s, n)[v].Some? <==> v in s
    ensures v in s ==> k < |s| && s[k] == v && IndicatorMap(s, n)[v] == Some(2 * n + k)
  {
    k := 0;
    if s != [] {
      k := |s| - 1;
      assert s == s[..k] + [s[k]];
      if s[k] != v { k := IndicatorIndex(s[..k], n, v); }
    }
  }

  lemma DoubledRestricts(f: Formula, s: seq<nat>, m: Assignment, k: nat)
    requires WellFormed(f) && Bounded(s, f.n) && Satisfies(Doubled(f, s), m) && k < |s|
    ensures |m| == 2 * f.n + |s| && m[2 * f.n + k] == (m[s[k]] != m[f.n + s[k]])
  {
    DoubledConstraints(f, s, m);
  }

  lemma DoubledExtends(f: Formula, s: seq<nat>, a: Assignment, b: Assignment)
    requires WellFormed(f) && Bounded(s, f.n) && Satisfies(f, a) && Satisfies(f, b)
    ensures exists m :: Satisfies(Doubled(f, s), m) && m[..f.n] == a && m[f.n..2 * f.n] == b
  {
    PairExtendsUniquely(f, s, a, b);
    var m := Join(a, b, s);
    assert m[..f.n] == a && m[f.n..2 * f.n] == b;
  }

  lemma DoubledDoubles(f: Formula, s: seq<nat>)
    requires WellFormed(f) && Bounded(s, f.n)
    ensures Doubles(f, Doubled(f, s), IndicatorMap(s, f.n))
    ensures forall v :: 0 <= v < f.n ==> (IndicatorMap(s, f.n)[v].Some? <==> v in s)
  {
    var d, ind, n := Doubled(f, s), IndicatorMap(s, f.n), f.n;
    forall v | 0 <= v < n ensures ind[v].Some? <==> v in s ensures ind[v].Some? ==> ind[v].value < d.n {
      var k := IndicatorIndex(s, n, v);
    }
    forall m ensures SplitsInto(f, d, ind, m) {
      if Satisfies(d, m) {
        DoubledModels(f, s, m);
        forall v | 0 <= v < n && ind[v].Some? ensures m[ind[v].value] == (m[v] != m[n + v]) {
          var k := IndicatorIndex(s, n, v);
          DoubledRestricts(f, s, m, k);
        }
      }
    }
    forall a, b ensures HasJoin(f, d, a, b) {
      if Satisfies(f, a) && Satisfies(f, b) { DoubledExtends(f, s, a, b); }
    }
  }

  ghost predicate HasIndicators(ind: seq<Option<nat>>, vs: seq<nat>) {
    forall i :: 0 <= i < |vs| ==> vs[i] < |ind| && ind[vs[i]].Some?
  }

  lemma SubIndicators(ind: seq<Option<nat>>, s: seq<nat>, t: seq<nat>)
    requires HasIndicators(ind, s) && forall w :: w in t ==> w in s
    ensures HasIndicators(ind, t) && Bounded(t, |ind|)
  {
    assert forall i :: 0 <= i < |t| ==> t[i] in t;
  }

  /** The assumptions "the copies agree on each of vs". */
  function Equal(ind: seq<Option<nat>>, vs: seq<nat>): (ls: seq<Lit>)
    requires HasIndicators(ind, vs)
  {
    seq(|vs|, i requires 0 <= i < |vs| => Lit(ind[vs[i]].value, true))
  }

  /** The one-polarity query: v is true and its copy false. */
  function Differs(v: nat, n: nat): seq<Lit> { [Lit(v, false), Lit(v + n, true)] }

  lemma EqualMeansAgree(f: Formula, d: Formula, ind: seq<Option<nat>>, vs: seq<nat>, m: Assignment)
    requires Doubles(f, d, ind) && HasIndicators(ind, vs) && Satisfies(d, m)
    ensures AllTrue(Equal(ind, vs), m) <==> Agree(m[..f.n], m[f.n..2 * f.n], Elems(vs))
  {
    var n, ls := f.n, Equal(ind, vs);
    assert SplitsInto(f, d, ind, m);
    forall i | 0 <= i < |vs| ensures LitTrue(ls[i], m) <==> m[..n][vs[i]] == m[n..2 * n][vs[i]] {
      assert m[ind[vs[i]].value] == (m[vs[i]] != m[n + vs[i]]);
    }
    if AllTrue(ls, m) {
      forall v | v in Elems(vs) && v < n ensures m[..n][v] == m[n..2 * n][v] {
        var i :| 0 <= i < |vs| && vs[i] == v;
        assert LitTrue(ls[i], m);
      }
    }
    if Agree(m[..n], m[n..2 * n], Elems(vs)) {
      forall i | 0 <= i < |vs| ensures LitTrue(ls[i], m) { assert vs[i] in Elems(vs); }
    }
  }

  lemma QueryModelSeparates(f: Formula, d: Formula, ind: seq<Option<nat>>, vs: seq<nat>, v: nat, m: Assignment)
    requires Doubles(f, d, ind) && HasIndicators(ind, vs) && v < f.n
    requires Satisfies(d, m) && AllTrue(Equal(ind, vs) + Differs(v, f.n), m)
    ensures !Determines(f, Elems(vs), v)
  {
    var q := Differs(v, f.n);
    assert SplitsInto(f, d, ind, m);
    AllTrueAppend(Equal(ind, vs), q, m);
    EqualMeansAgree(f, d, ind, vs, m);
    assert LitTrue(q[0], m) && LitTrue(q[1], m);
    assert m[..f.n][v] && !m[f.n..2 * f.n][v];
  }

  /** A separating pair can be ordered so that the first model has v true: one polarity is enough. */
  lemma SeparatingPair(f: Formula, c: set<nat>, v: nat) returns (a: Assignment, b: Assignment)
    requires v < f.n && !Determines(f, c, v)
    ensures Satisfies(f, a) && Satisfies(f, b) && Agree(a, b, c) && a[v] && !b[v]
  {
    a, b :| Satisfies(f, a) && Satisfies(f, b) && Agree(a, b, c) && a[v] != b[v];
    if !a[v] { a, b := b, a; }
  }

  lemma PairExtends(f: Formula, d: Formula, ind: seq<Option<nat>>, a: Assignment, b: Assignment) returns (m: Assignment)
    requires Doubles(f, d, ind) && Satisfies(f, a) && Satisfies(f, b)
    ensures Satisfies(d, m) && m[..f.n] == a && m[f.n..2 * f.n] == b
  {
    assert HasJoin(f, d, a, b);
    m :| Satisfies(d, m) && m[..f.n] == a && m[f.n..2 * f.n] == b;
  }

  lemma DiffersHolds(v: nat, n: nat, m: Assignment)
    requires v < n && 2 * n <= |m| && m[..n][v] && !m[n..2 * n][v]
    ensures AllTrue(Differs(v, n), m)
  {}

  lemma SeparationAnswersQuery(f: Formula, d: Formula, ind: seq<Option<nat>>, vs: seq<nat>, v: nat)
    returns (m: Assignment)
    requires Doubles(f, d, ind) && HasIndicators(ind, vs) && v < f.n && !Determines(f, Elems(vs), v)
    ensures Satisfies(d, m) && AllTrue(Equal(ind, vs) + Differs(v, f.n), m)
  {
    var a, b := SeparatingPair(f, Elems(vs), v);
    m := PairExtends(f, d, ind, a, b);
    EqualMeansAgree(f, d, ind, vs, m);
    DiffersHolds(v, f.n, m);
    AllTrueAppend(Equal(ind, vs), Differs(v, f.n), m);
  }

  /** Padoa's test is exact, although it asks for one polarity only. */
  lemma PadoaExact(f: Formula, d: Formula, ind: seq<Option<nat>>, vs: seq<nat>, v: nat)
    requires Doubles(f, d, ind) && HasIndicators(ind, vs) && v < f.n
    ensures (exists m :: Satisfies(d, m) && AllTrue(Equal(ind, vs) + Differs(v, f.n), m))
            <==> !Determines(f, Elems(vs), v)
  {
    if m :| Satisfies(d, m) && AllTrue(Equal(ind, vs) + Differs(v, f.n), m) {
      QueryModelSeparates(f, d, ind, vs, v, m);
    }
    if !Determines(f, Elems(vs), v) {
      var m := SeparationAnswersQuery(f, d, ind, vs, v);
    }
  }

  /** The query with the other polarity. */
  function DiffersBack(v: nat, n: nat): seq<Lit> { [Lit(v, true), Lit(v + n, false)] }

  /** Exchanging the copies turns an answer to one query into an answer to the other. */
  lemma SwapAnswer(f: Formula, s: seq<nat>, vs: seq<nat>, m: Assignment)
    requires WellFormed(f) && Bounded(s, f.n) && HasIndicators(IndicatorMap(s, f.n), vs) && Satisfies(Doubled(f, s), m)
    requires AllTrue(Equal(IndicatorMap(s, f.n), vs), m)
    ensures |m| >= 2 * f.n
    ensures var w := m[f.n..2 * f.n] + m[..f.n] + m[2 * f.n..];
            && Satisfies(Doubled(f, s), w) && AllTrue(Equal(IndicatorMap(s, f.n), vs), w)
            && forall v :: 0 <= v < f.n ==> w[v] == m[v + f.n] && w[v + f.n] == m[v]
  {
    var ind, n := IndicatorMap(s, f.n), f.n;
    SwapCopies(f, s, m);
    var w := m[n..2 * n] + m[..n] + m[2 * n..];
    assert forall i :: 2 * n <= i < |m| ==> w[i] == m[i];
    forall i | 0 <= i < |vs| ensures LitTrue(Equal(ind, vs)[i], w) {
      var k := IndicatorIndex(s, n, vs[i]);
      assert LitTrue(Equal(ind, vs)[i], m);
    }
  }

  lemma DiffersMeans(v: nat, n: nat, m: Assignment)
    requires v < n && 2 * n <= |m|
    ensures AllTrue(Differs(v, n), m) <==> m[v] && !m[v + n]
    ensures AllTrue(DiffersBack(v, n), m) <==> !m[v] && m[v + n]
  {
    var one, other := Differs(v, n), DiffersBack(v, n);
    assert AllTrue(one, m) <==> LitTrue(one[0], m) && LitTrue(one[1], m);
    assert AllTrue(other, m) <==> LitTrue(other[0], m) && LitTrue(other[1], m);
  }

  lemma SwapQuery(f: Formula, s: seq<nat>, vs: seq<nat>, v: nat, m: Assignment) returns (w: Assignment)
    requires WellFormed(f) && Bounded(s, f.n) && HasIndicators(IndicatorMap(s, f.n), vs) && v < f.n && Satisfies(Doubled(f, s), m)
    ensures Satisfies(Doubled(f, s), w)
    ensures var same, one, other := Equal(IndicatorMap(s, f.n), vs), Differs(v, f.n), DiffersBack(v, f.n);
            (AllTrue(same + one, m) ==> AllTrue(same + other, w)) && (AllTrue(same + other, m) ==> AllTrue(same + one, w))
  {
    hide AllTrue, Differs, DiffersBack, Equal, HasIndicators, IndicatorMap, WellFormed;
    var n, same := f.n, Equal(IndicatorMap(s, f.n), vs);
    SwapCopies(f, s, m);
    w := m[n..2 * n] + m[..n] + m[2 * n..];
    AllTrueAppend(same, Differs(v, n), m);
    AllTrueAppend(same, DiffersBack(v, n), m);
    if AllTrue(same, m) {
      SwapAnswer(f, s, vs, m);
      AllTrueAppend(same, Differs(v, n), w);
      AllTrueAppend(same, DiffersBack(v, n), w);
      DiffersMeans(v, n, m);
      DiffersMeans(v, n, w);
    }
  }

  /** One polarity is enough: both queries have an answer, or neither has. */
  lemma OnePolarity(f: Formula, s: seq<nat>, vs: seq<nat>, v: nat)
    requires WellFormed(f) && Bounded(s, f.n) && HasIndicators(IndicatorMap(s, f.n), vs) && v < f.n
    ensures var d, same := Doubled(f, s), Equal(IndicatorMap(s, f.n), vs);
            (exists m :: Satisfies(d, m) && AllTrue(same + Differs(v, f.n), m))
            <==> (exists m :: Satisfies(d, m) && AllTrue(same + DiffersBack(v, f.n), m))
  {
    hide AllTrue, Satisfies, Differs, DiffersBack, Equal, HasIndicators, IndicatorMap, Doubled, WellFormed;
    var d, same := Doubled(f, s), Equal(IndicatorMap(s, f.n), vs);
    if m :| Satisfies(d, m) && AllTrue(same + Differs(v, f.n), m) { var w := SwapQuery(f, s, vs, v, m); }
    if m :| Satisfies(d, m) && AllTrue(same + DiffersBack(v, f.n), m) { var w := SwapQuery(f, s, vs, v, m); }
  }

  /** Unit propagation on indicators is sound and would be complete: an indicator is false in every model
      of the assumptions exactly when its variable is determined. */
  lemma ImpliedEqual(f: Formula, d: Formula, ind: seq<Option<nat>>, vs: seq<nat>, v: nat)
    requires Doubles(f, d, ind) && HasIndicators(ind, vs) && v < f.n && ind[v].Some?
    ensures (forall m :: Satisfies(d, m) && AllTrue(Equal(ind, vs), m) ==> !m[ind[v].value])
            <==> Determines(f, Elems(vs), v)
  {
    if Determines(f, Elems(vs), v) {
      forall m | Satisfies(d, m) && AllTrue(Equal(ind, vs), m) ensures !m[ind[v].value] {
        EqualMeansAgree(f, d, ind, vs, m);
        assert SplitsInto(f, d, ind, m);
        var a, b := m[..f.n], m[f.n..2 * f.n];
        assert a[v] == b[v];
      }
    } else {
      var m := SeparationAnswersQuery(f, d, ind, vs, v);
      assert SplitsInto(f, d, ind, m);
      AllTrueAppend(Equal(ind, vs), Differs(v, f.n), m);
      assert LitTrue(Differs(v, f.n)[0], m) && LitTrue(Differs(v, f.n)[1], m);
      assert m[ind[v].value] == (m[v] != m[f.n + v]);
    }
  }
}
