/** Propositional formulas over clauses and threshold (BNN) constraints, and the notion the whole
    program is about: a set of variables determining another variable in every model. */
module Logic {

  datatype Option<+T> = None | Some(value: T)

  /** A literal; `sign` is true for a negated one, as in CryptoMiniSat's Lit(var, sign). */
  datatype Lit = Lit(v: nat, sign: bool)

  type Clause = seq<Lit>

  /** lits[0] + ... >= cutoff, or its equivalence with `out` when there is an output literal. */
  datatype Bnn = Bnn(lits: seq<Lit>, cutoff: int, out: Option<Lit>)

  type Assignment = seq<bool>

  /** A NULL entry in the solver's BNN list is `None`. */
  datatype Formula = Formula(n: nat, clauses: seq<Clause>, bnns: seq<Option<Bnn>>)

  predicate LitTrue(l: Lit, a: Assignment) {
    l.v < |a| && a[l.v] != l.sign
  }

  predicate AllTrue(ls: seq<Lit>, a: Assignment) {
    forall i :: 0 <= i < |ls| ==> LitTrue(ls[i], a)
  }

  predicate ClauseTrue(c: Clause, a: Assignment) {
    exists i :: 0 <= i < |c| && LitTrue(c[i], a)
  }

  function TrueCount(ls: seq<Lit>, a: Assignment): nat {
    if ls == [] then 0
    else TrueCount(ls[..|ls| - 1], a) + if LitTrue(ls[|ls| - 1], a) then 1 else 0
  }

  predicate BnnTrue(b: Option<Bnn>, a: Assignment) {
    match b
    case None => true
    case Some(t) =>
      var reached := TrueCount(t.lits, a) >= t.cutoff;
      match t.out
      case None => reached
      case Some(o) => reached == LitTrue(o, a)
  }

  predicate Constraints(cs: seq<Clause>, bs: seq<Option<Bnn>>, a: Assignment) {
    && (forall i :: 0 <= i < |cs| ==> ClauseTrue(cs[i], a))
    && (forall i :: 0 <= i < |bs| ==> BnnTrue(bs[i], a))
  }

  /** `a` is a model of `f`. */
  predicate Satisfies(f: Formula, a: Assignment) {
    |a| == f.n && Constraints(f.clauses, f.bnns, a)
  }

  ghost predicate LitsBelow(ls: seq<Lit>, n: nat) {
    forall i :: 0 <= i < |ls| ==> ls[i].v < n
  }

  ghost predicate BnnBelow(b: Option<Bnn>, n: nat) {
    b.Some? ==> LitsBelow(b.value.lits, n) && (b.value.out.Some? ==> b.value.out.value.v < n)
  }

  /** Every literal speaks of one of the formula's variables. */
  ghost predicate WellFormed(f: Formula) {
    && (forall i :: 0 <= i < |f.clauses| ==> LitsBelow(f.clauses[i], f.n))
    && (forall i :: 0 <= i < |f.bnns| ==> BnnBelow(f.bnns[i], f.n))
  }

  lemma AllTrueAppend(xs: seq<Lit>, ys: seq<Lit>, m: Assignment)
    ensures AllTrue(xs + ys, m) <==> AllTrue(xs, m) && AllTrue(ys, m)
  {
    if AllTrue(xs + ys, m) {
      forall i | 0 <= i < |xs| ensures LitTrue(xs[i], m) { assert (xs + ys)[i] == xs[i]; }
      forall i | 0 <= i < |ys| ensures LitTrue(ys[i], m) { assert (xs + ys)[|xs| + i] == ys[i]; }
    }
  }

  // Constraints over the first n variables do not see the others.

  lemma {:induction false} CountPrefix(ls: seq<Lit>, n: nat, m: Assignment)
    requires LitsBelow(ls, n) && n <= |m|
    ensures TrueCount(ls, m) == TrueCount(ls, m[..n])
  {
    if ls != [] { CountPrefix(ls[..|ls| - 1], n, m); }
  }

  lemma ClausePrefix(c: Clause, n: nat, m: Assignment)
    requires LitsBelow(c, n) && n <= |m|
    ensures ClauseTrue(c, m) == ClauseTrue(c, m[..n])
  {}

  lemma BnnPrefix(b: Option<Bnn>, n: nat, m: Assignment)
    requires BnnBelow(b, n) && n <= |m|
    ensures BnnTrue(b, m) == BnnTrue(b, m[..n])
  {
    if b.Some? { CountPrefix(b.value.lits, n, m); }
  }

  lemma ConstraintsPrefix(f: Formula, m: Assignment)
    requires WellFormed(f) && f.n <= |m|
    ensures Constraints(f.clauses, f.bnns, m) <==> Satisfies(f, m[..f.n])
  {
    forall i | 0 <= i < |f.clauses| ensures ClauseTrue(f.clauses[i], m) == ClauseTrue(f.clauses[i], m[..f.n]) {
      ClausePrefix(f.clauses[i], f.n, m);
    }
    forall i | 0 <= i < |f.bnns| ensures BnnTrue(f.bnns[i], m) == BnnTrue(f.bnns[i], m[..f.n]) {
      BnnPrefix(f.bnns[i], f.n, m);
    }
  }

  ghost predicate Entails(f: Formula, l: Lit) {
    forall a :: Satisfies(f, a) ==> LitTrue(l, a)
  }

  ghost predicate SameModels(f: Formula, g: Formula) {
    forall a :: Satisfies(f, a) <==> Satisfies(g, a)
  }

  /** The two assignments give every variable of `vs` the same value. */
  ghost predicate Agree(a: Assignment, b: Assignment, vs: set<nat>) {
    forall v :: v in vs && v < |a| && v < |b| ==> a[v] == b[v]
  }

  /** Two models of `f` that agree on `vs` agree on `v`. */
  ghost predicate Determines(f: Formula, vs: set<nat>, v: nat) {
    forall a, b :: Satisfies(f, a) && Satisfies(f, b) && Agree(a, b, vs) && v < f.n ==> a[v] == b[v]
  }

  /** `vs` is an independent support for the variables `ws`. */
  ghost predicate Supports(f: Formula, vs: set<nat>, ws: set<nat>) {
    forall w :: w in ws ==> Determines(f, vs, w)
  }

  lemma SupportsSelf(f: Formula, vs: set<nat>, ws: set<nat>)
    requires ws <= vs
    ensures Supports(f, vs, ws)
  {}

  lemma DeterminesMono(f: Formula, small: set<nat>, large: set<nat>, v: nat)
    requires small <= large && Determines(f, small, v)
    ensures Determines(f, large, v)
  {
    forall a, b | Satisfies(f, a) && Satisfies(f, b) && Agree(a, b, large) && v < f.n ensures a[v] == b[v] {
      assert Agree(a, b, small);
    }
  }

  lemma SupportsMono(f: Formula, small: set<nat>, large: set<nat>, ws: set<nat>)
    requires small <= large && Supports(f, small, ws)
    ensures Supports(f, large, ws)
  {
    forall w | w in ws ensures Determines(f, large, w) { DeterminesMono(f, small, large, w); }
  }

  lemma DeterminesTrans(f: Formula, vs: set<nat>, mid: set<nat>, w: nat)
    requires Supports(f, vs, mid) && Determines(f, mid, w)
    ensures Determines(f, vs, w)
  {
    forall a, b | Satisfies(f, a) && Satisfies(f, b) && Agree(a, b, vs) && w < f.n ensures a[w] == b[w] {
      forall v | v in mid && v < |a| && v < |b| ensures a[v] == b[v] { assert Determines(f, vs, v); }
      assert Agree(a, b, mid);
    }
  }

  lemma SupportsTrans(f: Formula, vs: set<nat>, mid: set<nat>, ws: set<nat>)
    requires Supports(f, vs, mid) && Supports(f, mid, ws)
    ensures Supports(f, vs, ws)
  {
    forall w | w in ws ensures Determines(f, vs, w) { DeterminesTrans(f, vs, mid, w); }
  }

  /** Determination only depends on the models. */
  lemma DeterminesSameModels(f: Formula, g: Formula, vs: set<nat>, v: nat)
    requires SameModels(f, g) && f.n == g.n && Determines(f, vs, v)
    ensures Determines(g, vs, v)
  {
    forall a, b | Satisfies(g, a) && Satisfies(g, b) && Agree(a, b, vs) && v < g.n ensures a[v] == b[v] {
      assert Satisfies(f, a) && Satisfies(f, b);
    }
  }

  lemma SupportsSameModels(f: Formula, g: Formula, r: set<nat>, s: set<nat>)
    requires SameModels(f, g) && f.n == g.n
    ensures Supports(f, r, s) <==> Supports(g, r, s)
  {
    forall w ensures Determines(f, r, w) <==> Determines(g, r, w) {
      if Determines(f, r, w) { DeterminesSameModels(f, g, r, w); }
      if Determines(g, r, w) { DeterminesSameModels(g, f, r, w); }
    }
  }
}
