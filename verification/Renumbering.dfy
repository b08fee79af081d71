/** Renumbering the problem without its empty variables, and what that does to the model counts. */
module Renumbering {
  import opened Seqs
  import opened Logic
  import opened Sat
  import opened Counting
  import opened CommonState

  // ---- the map: every variable that is not `seen` moves down past the seen ones below it ----

  /** The number of variables below v that stay. */
  function Rank(seen: seq<bool>, v: nat): nat {
    if v == 0 then 0 else Rank(seen, v - 1) + if v - 1 < |seen| && !seen[v - 1] then 1 else 0
  }

  ghost function Gone(seen: seq<bool>, n: nat): set<nat> { set v: nat | v < n && v < |seen| && seen[v] }

  /** The map keeps the order of the variables that stay, so it is one-to-one on them. */
  lemma {:induction false} RankAscends(seen: seq<bool>, v: nat, w: nat)
    requires v < w <= |seen| && !seen[v]
    ensures Rank(seen, v) < Rank(seen, w)
    decreases w
  {
    if v < w - 1 { RankAscends(seen, v, w - 1); }
  }

  /** Every new number is taken. */
  lemma {:induction false} RankOnto(seen: seq<bool>, n: nat, j: nat) returns (v: nat)
    requires n <= |seen| && j < Rank(seen, n)
    ensures v < n && !seen[v] && Rank(seen, v) == j
  {
    if j < Rank(seen, n - 1) { v := RankOnto(seen, n - 1, j); } else { v := n - 1; }
  }

  /** There are as many new numbers as variables that stay. */
  lemma {:induction false} RankTotal(seen: seq<bool>, n: nat)
    requires n <= |seen|
    ensures Rank(seen, n) + |Gone(seen, n)| == n
  {
    if n > 0 {
      RankTotal(seen, n - 1);
      if seen[n - 1] {
        assert Gone(seen, n) == Gone(seen, n - 1) + {n - 1};
      } else {
        assert Gone(seen, n) == Gone(seen, n - 1);
      }
    }
  }

  // ---- the problem ----

  predicate Touches(c: Clause, seen: seq<bool>) {
    exists i :: 0 <= i < |c| && c[i].v < |seen| && seen[c[i].v]
  }

  /** The clauses without a seen variable, in order. */
  function Kept(cs: seq<Clause>, seen: seq<bool>): seq<Clause> {
    if cs == [] then []
    else Kept(cs[..|cs| - 1], seen) + if Touches(cs[|cs| - 1], seen) then [] else [cs[|cs| - 1]]
  }

  lemma KeptStep(cs: seq<Clause>, c: Clause, seen: seq<bool>)
    ensures Kept(cs + [c], seen) == Kept(cs, seen) + if Touches(c, seen) then [] else [c]
  {}

  lemma {:induction false} KeptMembers(cs: seq<Clause>, seen: seq<bool>)
    ensures forall c :: c in Kept(cs, seen) <==> c in cs && !Touches(c, seen)
  {
    if cs != [] {
      KeptMembers(cs[..|cs| - 1], seen);
      assert cs == cs[..|cs| - 1] + [cs[|cs| - 1]];
    }
  }

  function RenameClause(c: Clause, seen: seq<bool>): seq<Lit> {
    seq(|c|, i requires 0 <= i < |c| => Lit(Rank(seen, c[i].v), c[i].sign))
  }

  function RenameAll(cs: seq<Clause>, seen: seq<bool>): seq<Clause> {
    seq(|cs|, i requires 0 <= i < |cs| => RenameClause(cs[i], seen))
  }

  /** Binary xors, each standing for the equality of its two literals. */
  function XorsClauses(xs: seq<(Lit, Lit)>): seq<Clause> {
    if xs == [] then []
    else
      var x := xs[|xs| - 1];
      XorsClauses(xs[..|xs| - 1]) + XorOf(x.0.v, x.1.v, x.0.sign != x.1.sign)
  }

  ghost function WithoutEmpty(n: nat, cs: seq<Clause>, seen: seq<bool>): Formula { Formula(n, Kept(cs, seen), []) }

  ghost function Renumbered(cs: seq<Clause>, seen: seq<bool>): Formula {
    Formula(Rank(seen, |seen|), RenameAll(Kept(cs, seen), seen), [])
  }

  // ---- the two problems have the same models over the variables that stay ----

  ghost predicate SameBit(a: Assignment, b: Assignment, seen: seq<bool>, v: nat) {
    v < |a| && Rank(seen, v) < |b| && b[Rank(seen, v)] == a[v]
  }

  ghost predicate Corresponds(a: Assignment, b: Assignment, seen: seq<bool>) {
    && |a| == |seen| && |b| == Rank(seen, |seen|)
    && forall v {:trigger SameBit(a, b, seen, v)} :: 0 <= v < |seen| && !seen[v] ==> SameBit(a, b, seen, v)
  }

  lemma RenamedClauseTrue(c: Clause, a: Assignment, b: Assignment, seen: seq<bool>)
    requires Corresponds(a, b, seen) && !Touches(c, seen) && LitsBelow(c, |seen|)
    ensures ClauseTrue(RenameClause(c, seen), b) <==> ClauseTrue(c, a)
  {
    var r := RenameClause(c, seen);
    forall i | 0 <= i < |c| ensures LitTrue(r[i], b) == LitTrue(c[i], a) {
      assert !seen[c[i].v] && SameBit(a, b, seen, c[i].v);
    }
  }

  lemma RenamedModels(cs: seq<Clause>, a: Assignment, b: Assignment, seen: seq<bool>)
    requires Corresponds(a, b, seen) && forall i :: 0 <= i < |cs| ==> LitsBelow(cs[i], |seen|)
    ensures Satisfies(WithoutEmpty(|seen|, cs, seen), a) <==> Satisfies(Renumbered(cs, seen), b)
  {
    var ks := Kept(cs, seen);
    KeptMembers(cs, seen);
    forall i | 0 <= i < |ks| ensures ClauseTrue(RenameAll(ks, seen)[i], b) == ClauseTrue(ks[i], a) {
      assert ks[i] in ks;
      RenamedClauseTrue(ks[i], a, b, seen);
    }
  }

  /** The assignment b of the renumbered variables, with `false` for the others. */
  lemma Spread(b: Assignment, seen: seq<bool>) returns (a: Assignment)
    requires |b| == Rank(seen, |seen|)
    ensures Corresponds(a, b, seen)
  {
    forall v | 0 <= v < |seen| && !seen[v] ensures Rank(seen, v) < |b| { RankAscends(seen, v, |seen|); }
    a := seq(|seen|, v requires 0 <= v < |seen| => !seen[v] && b[Rank(seen, v)]);
  }

  lemma {:induction false} Squeeze(a: Assignment, seen: seq<bool>, n: nat) returns (b: Assignment)
    requires n <= |a| == |seen|
    ensures |b| == Rank(seen, n)
    ensures forall v {:trigger SameBit(a, b, seen, v)} :: 0 <= v < n && !seen[v] ==> SameBit(a, b, seen, v)
  {
    if n == 0 { return []; }
    var front := Squeeze(a, seen, n - 1);
    b := front + if seen[n - 1] then [] else [a[n - 1]];
    forall v | 0 <= v < n && !seen[v] ensures SameBit(a, b, seen, v) {
      if v < n - 1 { assert SameBit(a, front, seen, v); }
    }
  }

  // ---- projected counts ----

  /** The variables of s under their new numbers. */
  ghost function NewNumbers(seen: seq<bool>, s: set<nat>): set<nat> { set v | v in s :: Rank(seen, v) }

  ghost predicate Staying(seen: seq<bool>, s: set<nat>) { forall v :: v in s ==> v < |seen| && !seen[v] }

  /** A projection of the renumbered problem under the old numbers. */
  ghost function OldNames(seen: seq<bool>, s: set<nat>): map<nat, bool> -> map<nat, bool> {
    (p: map<nat, bool>) => map v | v in s && Rank(seen, v) in p :: p[Rank(seen, v)]
  }

  lemma OldNamesProject(a: Assignment, b: Assignment, seen: seq<bool>, s: set<nat>)
    requires Corresponds(a, b, seen) && Staying(seen, s)
    ensures OldNames(seen, s)(Project(b, NewNumbers(seen, s))) == Project(a, s)
  {
    assert forall v :: v in s ==> SameBit(a, b, seen, v);
  }

  lemma OldNamesAgree(a: Assignment, b: Assignment, seen: seq<bool>, s: set<nat>)
    requires Staying(seen, s) && |a| == |b| == Rank(seen, |seen|)
    requires var t := NewNumbers(seen, s); OldNames(seen, s)(Project(a, t)) == OldNames(seen, s)(Project(b, t))
    ensures Project(a, NewNumbers(seen, s)) == Project(b, NewNumbers(seen, s))
  {
    var t, h := NewNumbers(seen, s), OldNames(seen, s);
    forall v | v in s ensures Rank(seen, v) < |a| && a[Rank(seen, v)] == b[Rank(seen, v)] {
      RankAscends(seen, v, |seen|);
      assert h(Project(a, t))[v] == h(Project(b, t))[v];
    }
  }

  lemma OldNamesInjective(f: Formula, seen: seq<bool>, s: set<nat>)
    requires Staying(seen, s) && f.n == Rank(seen, |seen|)
    ensures Injective(Projections(f, NewNumbers(seen, s)), OldNames(seen, s))
  {
    var t, h := NewNumbers(seen, s), OldNames(seen, s);
    forall p, q | p in Projections(f, t) && q in Projections(f, t) && h(p) == h(q) ensures p == q {
      var a :| a in Models(f) && p == Project(a, t);
      var b :| b in Models(f) && q == Project(b, t);
      OldNamesAgree(a, b, seen, s);
    }
  }

  lemma RenumberedProjections(cs: seq<Clause>, seen: seq<bool>, s: set<nat>)
    requires Staying(seen, s) && forall i :: 0 <= i < |cs| ==> LitsBelow(cs[i], |seen|)
    ensures |Projections(WithoutEmpty(|seen|, cs, seen), s)| == |Projections(Renumbered(cs, seen), NewNumbers(seen, s))|
  {
    var f, g, t := WithoutEmpty(|seen|, cs, seen), Renumbered(cs, seen), NewNumbers(seen, s);
    var h := OldNames(seen, s);
    forall p | p in Projections(f, s) ensures p in Image(Projections(g, t), h) {
      var a :| a in Models(f) && p == Project(a, s);
      var b := Squeeze(a, seen, |seen|);
      RenamedModels(cs, a, b, seen);
      OldNamesProject(a, b, seen, s);
      assert b in Models(g);
    }
    forall q | q in Projections(g, t) ensures h(q) in Projections(f, s) {
      var b :| b in Models(g) && q == Project(b, t);
      var a := Spread(b, seen);
      RenamedModels(cs, a, b, seen);
      OldNamesProject(a, b, seen, s);
      assert a in Models(f);
    }
    assert Image(Projections(g, t), h) == Projections(f, s);
    OldNamesInjective(g, seen, s);
    ImageSize(Projections(g, t), h);
  }

  /** a with the values of b on e. */
  ghost function Override(a: Assignment, b: Assignment, e: set<nat>): Assignment
    requires |a| == |b|
  {
    seq(|a|, v requires 0 <= v < |a| => if v in e then b[v] else a[v])
  }

  /** The seen variables are not constrained. */
  lemma OverrideModels(cs: seq<Clause>, seen: seq<bool>, a: Assignment, b: Assignment)
    requires |a| == |b| == |seen| && Satisfies(WithoutEmpty(|seen|, cs, seen), a)
    ensures Satisfies(WithoutEmpty(|seen|, cs, seen), Override(a, b, Gone(seen, |seen|)))
  {
    var ks, o := Kept(cs, seen), Override(a, b, Gone(seen, |seen|));
    KeptMembers(cs, seen);
    forall i | 0 <= i < |ks| ensures ClauseTrue(ks[i], o) {
      assert ks[i] in ks;
      var p :| 0 <= p < |ks[i]| && LitTrue(ks[i][p], a);
      assert LitTrue(ks[i][p], o);
    }
  }

  ghost function Free(n: nat): Formula { Formula(n, [], []) }

  /** A projection cut into its parts over s and over e. */
  ghost function Cut(s: set<nat>, e: set<nat>): map<nat, bool> -> (map<nat, bool>, map<nat, bool>) {
    (p: map<nat, bool>) => (Restrict(s)(p), Restrict(e)(p))
  }

  lemma CutProject(a: Assignment, s: set<nat>, e: set<nat>)
    ensures Cut(s, e)(Project(a, s + e)) == (Project(a, s), Project(a, e))
  {
    var p := Project(a, s + e);
    assert Restrict(s)(p) == Project(a, s) && Restrict(e)(p) == Project(a, e);
  }

  lemma CutInjective(ps: set<map<nat, bool>>, s: set<nat>, e: set<nat>)
    requires forall p :: p in ps ==> p.Keys <= s + e
    ensures Injective(ps, Cut(s, e))
  {
    var h := Cut(s, e);
    forall p, q | p in ps && q in ps && h(p) == h(q) ensures p == q {
      var p0, p1, q0, q1 := Restrict(s)(p), Restrict(e)(p), Restrict(s)(q), Restrict(e)(q);
      assert p0 == q0 && p1 == q1;
      forall v ensures v in p <==> v in q {
        assert v in s ==> (v in p <==> v in p0) && (v in q <==> v in q0);
        assert v in e ==> (v in p <==> v in p1) && (v in q <==> v in q1);
      }
      forall v | v in p ensures p[v] == q[v] {
        assert v in s || v in e;
        assert v in s ==> p0[v] == p[v] && q0[v] == q[v];
        assert v in e ==> p1[v] == p[v] && q1[v] == q[v];
      }
    }
  }

  lemma Glue(cs: seq<Clause>, seen: seq<bool>, s: set<nat>, a: Assignment, b: Assignment) returns (o: Assignment)
    requires Staying(seen, s) && a in Models(WithoutEmpty(|seen|, cs, seen)) && |b| == |seen|
    ensures o in Models(WithoutEmpty(|seen|, cs, seen))
    ensures var e := Gone(seen, |seen|); Cut(s, e)(Project(o, s + e)) == (Project(a, s), Project(b, e))
  {
    var e := Gone(seen, |seen|);
    o := Override(a, b, e);
    OverrideModels(cs, seen, a, b);
    CutProject(o, s, e);
    assert Project(o, s) == Project(a, s) && Project(o, e) == Project(b, e);
  }

  lemma FreeVariablesMultiply(cs: seq<Clause>, seen: seq<bool>, s: set<nat>)
    requires Staying(seen, s)
    ensures var f, e := WithoutEmpty(|seen|, cs, seen), Gone(seen, |seen|);
            |Projections(f, s + e)| == |Projections(f, s)| * |Projections(Free(|seen|), e)|
  {
    var f, e, h := WithoutEmpty(|seen|, cs, seen), Gone(seen, |seen|), Cut(s, Gone(seen, |seen|));
    var ps, rows := Projections(f, s + e), Pairs(Projections(f, s), Projections(Free(|seen|), e));
    forall p | p in ps ensures h(p) in rows {
      var a :| a in Models(f) && p == Project(a, s + e);
      CutProject(a, s, e);
      assert a in Models(Free(|seen|));
    }
    forall r | r in rows ensures r in Image(ps, h) {
      var a :| a in Models(f) && r.0 == Project(a, s);
      var b :| b in Models(Free(|seen|)) && r.1 == Project(b, e);
      var o := Glue(cs, seen, s, a, b);
      assert Project(o, s + e) in ps;
    }
    assert Image(ps, h) == rows;
    CutInjective(ps, s, e);
    ImageSize(ps, h);
    PairsSize(Projections(f, s), Projections(Free(|seen|), e));
  }

  function Pow2(k: nat): nat { if k == 0 then 1 else 2 * Pow2(k - 1) }

  lemma {:induction false} FreeCount(n: nat, e: set<nat>)
    requires forall v :: v in e ==> v < n
    ensures |Projections(Free(n), e)| == Pow2(|e|)
    decreases e
  {
    if e == {} {
      var a: Assignment := seq(n, _ => false);
      assert a in Models(Free(n));
      assert Projections(Free(n), e) == {map[]} by {
        assert Project(a, e) == map[];
        assert forall b :: Project(b, e) == map[];
      }
    } else {
      var v :| v in e;
      FreeCount(n, e - {v});
      FreeVariable(n, e - {v}, v);
      assert e == e - {v} + {v};
    }
  }

  lemma SetOne(n: nat, e: set<nat>, v: nat, a: Assignment, value: bool) returns (o: Assignment)
    requires v !in e && v < n && a in Models(Free(n))
    ensures o in Models(Free(n)) && Cut(e, {v})(Project(o, e + {v})) == (Project(a, e), map[v := value])
  {
    o := a[v := value];
    CutProject(o, e, {v});
    assert Project(o, e) == Project(a, e) && Project(o, {v}) == map[v := value];
  }

  lemma OneVariable(a: Assignment, v: nat)
    requires v < |a|
    ensures Project(a, {v}) == map[v := a[v]] && Project(a, {v}) in {map[v := false], map[v := true]}
  {
    assert a[v] == true || a[v] == false;
  }

  lemma FreeVariable(n: nat, e: set<nat>, v: nat)
    requires v !in e && v < n && forall w :: w in e ==> w < n
    ensures |Projections(Free(n), e + {v})| == 2 * |Projections(Free(n), e)|
  {
    var values := {map[v := false], map[v := true]};
    var f, h := Free(n), Cut(e, {v});
    var ps, rows := Projections(f, e + {v}), Pairs(Projections(f, e), values);
    forall p | p in ps ensures h(p) in rows {
      var a :| a in Models(f) && p == Project(a, e + {v});
      CutProject(a, e, {v});
      OneVariable(a, v);
    }
    forall r | r in rows ensures r in Image(ps, h) {
      var a :| a in Models(f) && r.0 == Project(a, e);
      var o := SetOne(n, e, v, a, r.1[v]);
      assert Project(o, e + {v}) in ps;
    }
    assert Image(ps, h) == rows;
    CutInjective(ps, e, {v});
    ImageSize(ps, h);
    PairsSize(Projections(f, e), values);
    assert |values| == 2 by { assert map[v := false][v] != map[v := true][v]; }
  }

  /** The factor the program prints: over the sampled variables that stay and the empty ones, the kept problem has
      2^|empty| times as many projected models as the renumbered one. */
  lemma RenumberedCount(cs: seq<Clause>, seen: seq<bool>, s: set<nat>)
    requires Staying(seen, s) && forall i :: 0 <= i < |cs| ==> LitsBelow(cs[i], |seen|)
    ensures var e := Gone(seen, |seen|);
            |Projections(WithoutEmpty(|seen|, cs, seen), s + e)|
              == |Projections(Renumbered(cs, seen), NewNumbers(seen, s))| * Pow2(|e|)
  {
    RenumberedProjections(cs, seen, s);
    FreeVariablesMultiply(cs, seen, s);
    FreeCount(|seen|, Gone(seen, |seen|));
  }

  /** Seen through all its variables a formula has as many projections as models. */
  lemma AllVariables(f: Formula, vs: set<nat>)
    requires forall v: nat :: v < f.n ==> v in vs
    ensures |Projections(f, vs)| == |Models(f)|
  {
    var h := (a: Assignment) => Project(a, vs);
    forall a, b | a in Models(f) && b in Models(f) && h(a) == h(b) ensures a == b {
      AgreeIsSameProjection(a, b, vs);
    }
    assert Image(Models(f), h) == Projections(f, vs);
    ImageSize(Models(f), h);
  }

  /** The same for whole models. */
  lemma RenumberedModelCount(cs: seq<Clause>, seen: seq<bool>)
    requires forall i :: 0 <= i < |cs| ==> LitsBelow(cs[i], |seen|)
    ensures |Models(WithoutEmpty(|seen|, cs, seen))| == |Models(Renumbered(cs, seen))| * Pow2(|Gone(seen, |seen|)|)
  {
    var stay := set v: nat | v < |seen| && !seen[v];
    RenumberedCount(cs, seen, stay);
    AllVariables(WithoutEmpty(|seen|, cs, seen), stay + Gone(seen, |seen|));
    forall j: nat | j < Rank(seen, |seen|) ensures j in NewNumbers(seen, stay) {
      var v := RankOnto(seen, |seen|, j);
      assert v in stay;
    }
    AllVariables(Renumbered(cs, seen), NewNumbers(seen, stay));
  }

  /** Every model of the first formula agrees on vs with some model of the second. */
  ghost predicate Recovered(f: Formula, g: Formula, vs: set<nat>) {
    forall a :: Satisfies(f, a) ==> exists b :: Satisfies(g, b) && Agree(a, b, vs)
  }

  lemma KeptIsWeaker(cs: seq<Clause>, seen: seq<bool>, a: Assignment)
    requires Satisfies(Formula(|seen|, cs, []), a)
    ensures Satisfies(WithoutEmpty(|seen|, cs, seen), a)
  {
    var kept := Kept(cs, seen);
    KeptMembers(cs, seen);
    forall i | 0 <= i < |kept| ensures ClauseTrue(kept[i], a) { assert kept[i] in cs; }
  }

  lemma FewerProjections(f: Formula, g: Formula, vs: set<nat>)
    requires f.n == g.n && forall a :: Satisfies(g, a) ==> Satisfies(f, a)
    ensures Projections(g, vs) <= Projections(f, vs)
  {
    forall p | p in Projections(g, vs) ensures p in Projections(f, vs) {
      var a :| a in Models(g) && p == Project(a, vs);
      assert a in Models(f);
    }
  }

  lemma RecoveredProjections(f: Formula, g: Formula, vs: set<nat>)
    requires f.n == g.n && Recovered(f, g, vs)
    ensures Projections(f, vs) <= Projections(g, vs)
  {
    forall q | q in Projections(f, vs) ensures q in Projections(g, vs) {
      var a :| a in Models(f) && q == Project(a, vs);
      var b :| Satisfies(g, b) && Agree(a, b, vs);
      AgreeIsSameProjection(a, b, vs);
      assert b in Models(g);
    }
  }

  lemma RecoveredFrom(f: Formula, g: Formula, vs: set<nat>)
    requires f.n == g.n && Projections(f, vs) <= Projections(g, vs)
    ensures Recovered(f, g, vs)
  {
    forall a | Satisfies(f, a) ensures exists b :: Satisfies(g, b) && Agree(a, b, vs) {
      assert a in Models(f) && Project(a, vs) in Projections(f, vs);
      var b :| b in Models(g) && Project(a, vs) == Project(b, vs);
      AgreeIsSameProjection(a, b, vs);
    }
  }

  /** Of two formulas, one weaker than the other, the projected counts agree exactly when the projections do. */
  lemma SameProjections(f: Formula, g: Formula, vs: set<nat>)
    requires f.n == g.n && forall a :: Satisfies(g, a) ==> Satisfies(f, a)
    ensures |Projections(g, vs)| == |Projections(f, vs)| <==> Recovered(f, g, vs)
  {
    FewerProjections(f, g, vs);
    if |Projections(g, vs)| == |Projections(f, vs)| {
      SameSizeSubset(Projections(g, vs), Projections(f, vs));
      RecoveredFrom(f, g, vs);
    }
    if Recovered(f, g, vs) {
      RecoveredProjections(f, g, vs);
      assert Projections(f, vs) == Projections(g, vs);
    }
  }

  /** Clauses on seen variables are dropped. The printed factor is right for the whole problem, projected to the
      sampled variables s that stay and the empty ones, exactly when every model of the kept clauses agrees on those
      variables with some model of all clauses. */
  lemma DroppedClauses(cs: seq<Clause>, seen: seq<bool>, s: set<nat>)
    requires Staying(seen, s) && forall i :: 0 <= i < |cs| ==> LitsBelow(cs[i], |seen|)
    ensures var whole, kept, e := Formula(|seen|, cs, []), WithoutEmpty(|seen|, cs, seen), Gone(seen, |seen|);
            |Projections(whole, s + e)| == |Projections(Renumbered(cs, seen), NewNumbers(seen, s))| * Pow2(|e|)
            <==> Recovered(kept, whole, s + e)
  {
    var whole, kept, e := Formula(|seen|, cs, []), WithoutEmpty(|seen|, cs, seen), Gone(seen, |seen|);
    RenumberedCount(cs, seen, s);
    forall a | Satisfies(whole, a) ensures Satisfies(kept, a) { KeptIsWeaker(cs, seen, a); }
    SameProjections(kept, whole, s + e);
  }

  lemma SameSizeSubset<X>(s: set<X>, t: set<X>)
    requires s <= t && |s| == |t|
    ensures s == t
  {
    assert t == s + (t - s);
  }

  /** A dropped clause can matter: of the three models of x0 or x1, x0 sampled and x1 empty, the printed factor
      makes four. */
  lemma DroppedClauseCounts()
    ensures var cs, seen := [[Lit(0, false), Lit(1, false)]], [false, true];
            |Projections(Formula(2, cs, []), {0} + Gone(seen, 2))|
              != |Projections(Renumbered(cs, seen), NewNumbers(seen, {0}))| * Pow2(|Gone(seen, 2)|)
  {
    var cs, seen := [[Lit(0, false), Lit(1, false)]], [false, true];
    DroppedClauses(cs, seen, {0});
    assert cs[0][1].v < |seen| && seen[cs[0][1].v];
    NothingKept(cs, seen);
    assert 1 in Gone(seen, 2);
    OrNotRecovered({0} + Gone(seen, 2));
  }

  lemma OrNotRecovered(vs: set<nat>)
    requires 0 in vs && 1 in vs
    ensures !Recovered(Free(2), Formula(2, [[Lit(0, false), Lit(1, false)]], []), vs)
  {
    var f, a := Formula(2, [[Lit(0, false), Lit(1, false)]], []), [false, false];
    assert Satisfies(Free(2), a);
    forall b | Satisfies(f, b) ensures !Agree(a, b, vs) { assert ClauseTrue(f.clauses[0], b); }
  }

  lemma NothingKept(cs: seq<Clause>, seen: seq<bool>)
    requires forall i :: 0 <= i < |cs| ==> Touches(cs[i], seen)
    ensures Kept(cs, seen) == []
  {
    KeptMembers(cs, seen);
    assert forall i :: 0 <= i < |Kept(cs, seen)| ==> Kept(cs, seen)[i] in Kept(cs, seen);
  }

  /** A dropped clause need not follow from the kept ones for the factor to be right: with x0 sampled, x1 empty and the
      clause x1 or x2, every value of x0 and x1 still occurs. */
  lemma DroppedClauseHarmless()
    ensures var cs, seen := [[Lit(1, false), Lit(2, false)]], [false, true, false];
            |Projections(Formula(3, cs, []), {0} + Gone(seen, 3))|
              == |Projections(Renumbered(cs, seen), NewNumbers(seen, {0}))| * Pow2(|Gone(seen, 3)|)
  {
    hide Projections, Renumbered;
    var cs, seen := [[Lit(1, false), Lit(2, false)]], [false, true, false];
    DroppedClauses(cs, seen, {0});
    forall a | Satisfies(WithoutEmpty(3, cs, seen), a)
      ensures exists b :: Satisfies(Formula(3, cs, []), b) && Agree(a, b, {0} + Gone(seen, 3))
    {
      var b := a[2 := true];
      assert LitTrue(cs[0][1], b);
      assert Satisfies(Formula(3, cs, []), b) && Agree(a, b, {0} + Gone(seen, 3));
    }
  }

  // ---- the program ----

  ghost function Flags(emptyVars: seq<nat>, n: nat): seq<bool> {
    seq(n, v requires 0 <= v < n => v in emptyVars)
  }

  lemma GoneFlags(emptyVars: seq<nat>, n: nat)
    requires Bounded(emptyVars, n)
    ensures Gone(Flags(emptyVars, n), n) == Elems(emptyVars)
  {}

  method MarkEmpty(emptyVars: seq<nat>, n: nat) returns (seen: seq<bool>)
    requires Bounded(emptyVars, n)
    ensures seen == Flags(emptyVars, n)
  {
    seen := seq(n, _ => false);
    for i := 0 to |emptyVars|
      invariant seen == Flags(emptyVars[..i], n)
    {
      assert emptyVars[..i + 1] == emptyVars[..i] + [emptyVars[i]];
      seen := seen[emptyVars[i] := true];
    }
    assert emptyVars[..|emptyVars|] == emptyVars;
  }

  ghost predicate MapOk(mymap: seq<Option<nat>>, seen: seq<bool>) {
    |mymap| <= |seen| && forall v {:trigger mymap[v]} :: 0 <= v < |mymap| ==> mymap[v] == if seen[v] then None else Some(Rank(seen, v))
  }

  method BuildMap(seen: seq<bool>) returns (mymap: seq<Option<nat>>, at: nat)
    ensures |mymap| == |seen| && MapOk(mymap, seen) && at == Rank(seen, |seen|)
  {
    mymap, at := [], 0;
    for i := 0 to |seen|
      invariant |mymap| == i && at == Rank(seen, i) && MapOk(mymap, seen)
    {
      mymap := mymap + [if seen[i] then None else Some(at)];
      at := at + if seen[i] then 0 else 1;
    }
  }

  lemma {:induction false} SizeNoDup(s: seq<nat>)
    ensures |Elems(s)| <= |s| && (|Elems(s)| == |s| ==> NoDup(s))
  {
    if s != [] {
      var front, last := s[..|s| - 1], s[|s| - 1];
      SizeNoDup(front);
      assert Elems(s) == Elems(front) + {last};
      if |Elems(s)| == |s| {
        assert last in Elems(front) ==> Elems(s) == Elems(front);
        forall i, j | 0 <= i < j < |s| ensures s[i] != s[j] { assert s[i] == front[i] && front[i] in Elems(front); }
      }
    }
  }

  /** The assertion that the map uses up the new variables holds when no empty variable is listed twice. */
  lemma MapFits(emptyVars: seq<nat>, n: nat)
    requires Bounded(emptyVars, n)
    ensures Rank(Flags(emptyVars, n), n) + |emptyVars| == n <==> NoDup(emptyVars)
  {
    var seen := Flags(emptyVars, n);
    RankTotal(seen, n);
    GoneFlags(emptyVars, n);
    SizeNoDup(emptyVars);
    if NoDup(emptyVars) { NoDupSize(emptyVars); }
  }

  /** After p literals of clause c: `sz` counts them, and `tmp` renames them while none is seen. */
  ghost predicate Copied(cs: seq<Clause>, seen: seq<bool>, i: nat, c: nat, p: nat, tmp: Clause, sz: nat, ok: bool) {
    && c <= |cs| && (c == |cs| ==> p == 0) && (c < |cs| ==> p <= |cs[c]|)
    && i == |Flatten(cs[..c])| + p && sz == p
    && (c == |cs| ==> ok && tmp == [])
    && (c < |cs| ==> (ok <==> !Touches(cs[c][..p], seen)) && (ok ==> tmp == RenameClause(cs[c][..p], seen)))
  }

  ghost predicate DroppedBinary(cs: seq<Clause>, seen: seq<bool>) {
    forall i :: 0 <= i < |cs| && Touches(cs[i], seen) ==> |cs[i]| == 2
  }

  lemma OneMoreTouches(c: Clause, p: nat, seen: seq<bool>)
    requires p < |c|
    ensures Touches(c[..p + 1], seen) <==> Touches(c[..p], seen) || (c[p].v < |seen| && seen[c[p].v])
  {}

  lemma OneMoreRenamed(c: Clause, p: nat, seen: seq<bool>)
    requires p < |c|
    ensures RenameClause(c[..p + 1], seen) == RenameClause(c[..p], seen) + [Lit(Rank(seen, c[p].v), c[p].sign)]
  {}

  lemma KeptFits(c: Clause, seen: seq<bool>)
    requires LitsBelow(c, |seen|) && !Touches(c, seen)
    ensures LitsBelow(RenameClause(c, seen), Rank(seen, |seen|))
  {
    forall i | 0 <= i < |c| ensures Rank(seen, c[i].v) < Rank(seen, |seen|) {
      assert !seen[c[i].v];
      RankAscends(seen, c[i].v, |seen|);
    }
  }

  lemma RenamedStep(cs: seq<Clause>, k: nat, seen: seq<bool>)
    requires k < |cs|
    ensures RenameAll(Kept(cs[..k + 1], seen), seen)
         == RenameAll(Kept(cs[..k], seen), seen) + if Touches(cs[k], seen) then [] else [RenameClause(cs[k], seen)]
  {
    assert cs[..k + 1] == cs[..k] + [cs[k]];
    KeptStep(cs[..k], cs[k], seen);
  }

  /** Adds the renamed copy of every clause without a seen variable; fails on a dropped clause that is not binary. */
  method AddKeptClauses(solver: SatSolver, cnf: seq<Option<Lit>>, ghost cs: seq<Clause>, seen: seq<bool>, mymap: seq<Option<nat>>)
    returns (allOk: bool)
    requires solver.Valid() && solver.nVars == Rank(seen, |seen|) && cnf == Flatten(cs) && solver.clauses == []
    requires (forall i :: 0 <= i < |cs| ==> LitsBelow(cs[i], |seen|)) && MapOk(mymap, seen) && |mymap| == |seen|
    modifies solver
    ensures solver.Valid() && solver.nVars == old(solver.nVars) && solver.bnns == old(solver.bnns)
    ensures allOk <==> DroppedBinary(cs, seen)
    ensures allOk ==> solver.clauses == RenameAll(Kept(cs, seen), seen)
  {
    var tmp: Clause := [];
    var sz, ok := 0, true;
    ghost var c, p := 0, 0;
    for i := 0 to |cnf|
      invariant solver.Valid() && solver.nVars == old(solver.nVars) && solver.bnns == old(solver.bnns)
      invariant Copied(cs, seen, i, c, p, tmp, sz, ok)
      invariant solver.clauses == RenameAll(Kept(cs[..c], seen), seen) && DroppedBinary(cs[..c], seen)
    {
      NextToken(cs, c, p);
      match cnf[i]
      case Some(l) =>
        tmp, ok := NextLiteral(tmp, ok, l, cs[c], p, seen, mymap);
        sz, p := sz + 1, p + 1;
      case None =>
        var fine := EndClause(solver, tmp, ok, sz, cs, c, p, seen);
        if !fine { return false; }
        tmp, ok, sz, c, p := [], true, 0, c + 1, 0;
    }
    LastToken(cs, c, p);
    assert cs[..c] == cs;
    allOk := true;
  }

  /** The end of clause c: added if none of its variables is seen, else it has to be binary. */
  method EndClause(solver: SatSolver, tmp: Clause, ok: bool, sz: nat, ghost cs: seq<Clause>, ghost c: nat, ghost p: nat,
                   seen: seq<bool>)
    returns (fine: bool)
    requires solver.Valid() && solver.nVars == Rank(seen, |seen|) && c < |cs| && p == |cs[c]| && sz == p && LitsBelow(cs[c], |seen|)
    requires (ok <==> !Touches(cs[c][..p], seen)) && (ok ==> tmp == RenameClause(cs[c][..p], seen))
    requires solver.clauses == RenameAll(Kept(cs[..c], seen), seen) && DroppedBinary(cs[..c], seen)
    modifies solver
    ensures solver.Valid() && solver.nVars == old(solver.nVars) && solver.bnns == old(solver.bnns)
    ensures !fine ==> !DroppedBinary(cs, seen)
    ensures fine ==> solver.clauses == RenameAll(Kept(cs[..c + 1], seen), seen) && DroppedBinary(cs[..c + 1], seen)
  {
    assert cs[c][..p] == cs[c];
    DroppedStep(cs, c, seen);
    RenamedStep(cs, c, seen);
    if ok { AddRenamed(solver, tmp, cs[c], seen); }
    fine := ok || sz == 2;
  }

  method AddRenamed(solver: SatSolver, tmp: Clause, ghost c: Clause, seen: seq<bool>)
    requires solver.Valid() && solver.nVars == Rank(seen, |seen|)
    requires LitsBelow(c, |seen|) && !Touches(c, seen) && tmp == RenameClause(c, seen)
    modifies solver
    ensures solver.Valid() && solver.nVars == old(solver.nVars) && solver.bnns == old(solver.bnns)
    ensures solver.clauses == old(solver.clauses) + [RenameClause(c, seen)]
  {
    KeptFits(c, seen);
    var _ := solver.AddClause(tmp);
  }

  /** One literal: renamed into `tmp`, unless a variable of its clause has been seen. */
  method NextLiteral(tmp0: Clause, ok0: bool, l: Lit, ghost c: Clause, ghost p: nat, seen: seq<bool>, mymap: seq<Option<nat>>)
    returns (tmp: Clause, ok: bool)
    requires p < |c| && l == c[p] && l.v < |seen| && MapOk(mymap, seen) && |mymap| == |seen|
    requires (ok0 <==> !Touches(c[..p], seen)) && (ok0 ==> tmp0 == RenameClause(c[..p], seen))
    ensures (ok <==> !Touches(c[..p + 1], seen)) && (ok ==> tmp == RenameClause(c[..p + 1], seen))
  {
    OneMoreTouches(c, p, seen);
    OneMoreRenamed(c, p, seen);
    tmp, ok := tmp0, ok0;
    if seen[l.v] { ok := false; }
    if ok { tmp := tmp + [Lit(mymap[l.v].value, l.sign)]; }
  }

  lemma DroppedStep(cs: seq<Clause>, k: nat, seen: seq<bool>)
    requires k < |cs|
    ensures DroppedBinary(cs[..k + 1], seen) <==> DroppedBinary(cs[..k], seen) && (Touches(cs[k], seen) ==> |cs[k]| == 2)
    ensures DroppedBinary(cs, seen) ==> DroppedBinary(cs[..k + 1], seen)
  {}

  ghost predicate XorsBelow(xs: seq<(Lit, Lit)>, n: nat) {
    forall i :: 0 <= i < |xs| ==> xs[i].0.v < n && xs[i].1.v < n
  }

  lemma BinaryTouches(x: Lit, y: Lit, seen: seq<bool>)
    requires x.v < |seen| && y.v < |seen|
    ensures Touches([x, y], seen) <==> seen[x.v] || seen[y.v]
    ensures RenameClause([x, y], seen) == [Lit(Rank(seen, x.v), x.sign), Lit(Rank(seen, y.v), y.sign)]
  {
    hide Rank;
    var c := [x, y];
    assert c[0] == x && c[1] == y;
  }

  lemma XorTouches(x: Lit, y: Lit, seen: seq<bool>)
    requires x.v < |seen| && y.v < |seen|
    ensures var two := XorOf(x.v, y.v, x.sign != y.sign);
            && (Touches(two[0], seen) <==> seen[x.v] || seen[y.v])
            && (Touches(two[1], seen) <==> seen[x.v] || seen[y.v])
            && RenameAll(two, seen) == XorOf(Rank(seen, x.v), Rank(seen, y.v), x.sign != y.sign)
  {
    hide Rank, Touches, RenameClause;
    var rhs := x.sign != y.sign;
    BinaryTouches(Lit(x.v, false), Lit(y.v, !rhs), seen);
    BinaryTouches(Lit(x.v, true), Lit(y.v, rhs), seen);
  }

  /** Two clauses that share their fate. */
  lemma KeptBoth(cs: seq<Clause>, two: seq<Clause>, seen: seq<bool>)
    requires |two| == 2 && (Touches(two[0], seen) <==> Touches(two[1], seen))
    ensures RenameAll(Kept(cs + two, seen), seen)
         == RenameAll(Kept(cs, seen), seen) + if Touches(two[0], seen) then [] else RenameAll(two, seen)
  {
    assert cs + two == cs + [two[0]] + [two[1]];
    KeptStep(cs, two[0], seen);
    KeptStep(cs + [two[0]], two[1], seen);
  }

  /** One more binary xor, dropped when an end is seen. */
  lemma XorStep(cs: seq<Clause>, xs: seq<(Lit, Lit)>, k: nat, seen: seq<bool>)
    requires k < |xs| && XorsBelow(xs, |seen|)
    ensures RenameAll(Kept(cs + XorsClauses(xs[..k + 1]), seen), seen)
         == RenameAll(Kept(cs + XorsClauses(xs[..k]), seen), seen)
            + if seen[xs[k].0.v] || seen[xs[k].1.v] then []
              else XorOf(Rank(seen, xs[k].0.v), Rank(seen, xs[k].1.v), xs[k].0.sign != xs[k].1.sign)
  {
    var x, y, before := xs[k].0, xs[k].1, cs + XorsClauses(xs[..k]);
    var two := XorOf(x.v, y.v, x.sign != y.sign);
    assert xs[..k + 1][..k] == xs[..k];
    assert cs + XorsClauses(xs[..k + 1]) == before + two;
    XorTouches(x, y, seen);
    KeptBoth(before, two, seen);
  }

  method AddKeptXors(solver: SatSolver, xs: seq<(Lit, Lit)>, ghost cs: seq<Clause>, seen: seq<bool>, mymap: seq<Option<nat>>)
    requires solver.Valid() && solver.nVars == Rank(seen, |seen|) && XorsBelow(xs, |seen|)
    requires solver.clauses == RenameAll(Kept(cs, seen), seen)
    requires MapOk(mymap, seen) && |mymap| == |seen|
    modifies solver
    ensures solver.Valid() && solver.nVars == old(solver.nVars) && solver.bnns == old(solver.bnns)
    ensures solver.clauses == RenameAll(Kept(cs + XorsClauses(xs), seen), seen)
  {
    assert cs + XorsClauses(xs[..0]) == cs;
    for k := 0 to |xs|
      invariant solver.Valid() && solver.nVars == old(solver.nVars) && solver.bnns == old(solver.bnns)
      invariant solver.clauses == RenameAll(Kept(cs + XorsClauses(xs[..k]), seen), seen)
    {
      XorStep(cs, xs, k, seen);
      var x, y := xs[k].0, xs[k].1;
      if !seen[x.v] && !seen[y.v] {
        RankAscends(seen, x.v, |seen|);
        RankAscends(seen, y.v, |seen|);
        solver.AddXorClause(mymap[x.v].value, mymap[y.v].value, x.sign != y.sign);
      }
    }
    assert xs[..|xs|] == xs;
  }

  lemma InsertedElems(s: seq<nat>, k: nat, x: nat)
    requires k <= |s|
    ensures Elems(s[..k] + [x] + s[k..]) == Elems(s) + {x}
  {}

  /** Insertion into an ordered set. */
  method Insert(s: seq<nat>, x: nat) returns (r: seq<nat>)
    requires Ascending(s)
    ensures Ascending(r) && Elems(r) == Elems(s) + {x}
  {
    var k := 0;
    while k < |s| && s[k] < x
      invariant k <= |s| && forall i :: 0 <= i < k ==> s[i] < x
    {
      k := k + 1;
    }
    if k < |s| && s[k] == x {
      r := s;
    } else {
      r := s[..k] + [x] + s[k..];
      InsertedElems(s, k, x);
    }
  }

  /** The new numbers of the sampling variables that stay, in ascending order. */
  method DontElim(samplSet: seq<nat>, seen: seq<bool>, mymap: seq<Option<nat>>) returns (keep: seq<nat>)
    requires Bounded(samplSet, |seen|)
    requires MapOk(mymap, seen) && |mymap| == |seen|
    ensures Ascending(keep) && Elems(keep) == NewNumbers(seen, Elems(samplSet) - Gone(seen, |seen|))
  {
    keep := [];
    for i := 0 to |samplSet|
      invariant Ascending(keep) && Elems(keep) == NewNumbers(seen, Elems(samplSet[..i]) - Gone(seen, |seen|))
    {
      var v := samplSet[i];
      assert Elems(samplSet[..i + 1]) == Elems(samplSet[..i]) + {v} by {
        assert samplSet[..i + 1] == samplSet[..i] + [v];
      }
      if !seen[v] {
        keep := Insert(keep, mymap[v].value);
        assert Elems(samplSet[..i + 1]) - Gone(seen, |seen|) == Elems(samplSet[..i]) - Gone(seen, |seen|) + {v};
      } else {
        assert Elems(samplSet[..i + 1]) - Gone(seen, |seen|) == Elems(samplSet[..i]) - Gone(seen, |seen|);
      }
    }
    assert samplSet[..|samplSet|] == samplSet;
  }

  /** Fills a fresh solver with the problem renumbered without its empty variables. It fails when an empty variable is
      listed twice or a clause that is not binary mentions one. */
  method FillSolverNoEmpty(samplSet: seq<nat>, emptyVars: seq<nat>, n: nat, solver: SatSolver, cnf: seq<Option<Lit>>,
                           ghost cs: seq<Clause>, xs: seq<(Lit, Lit)>)
    returns (ok: bool, keep: seq<nat>)
    requires solver.Valid() && solver.nVars == 0 && solver.clauses == [] && solver.bnns == []
    requires Bounded(emptyVars, n) && Bounded(samplSet, n) && cnf == Flatten(cs)
    requires XorsBelow(xs, n) && forall i :: 0 <= i < |cs| ==> LitsBelow(cs[i], n)
    modifies solver
    ensures ok <==> NoDup(emptyVars) && DroppedBinary(cs, Flags(emptyVars, n))
    ensures ok ==> solver.Valid() && solver.Theory() == Renumbered(cs + XorsClauses(xs), Flags(emptyVars, n))
    ensures ok ==> Ascending(keep)
                   && Elems(keep) == NewNumbers(Flags(emptyVars, n), Elems(samplSet) - Elems(emptyVars))
  {
    ok, keep := false, [];
    MapFits(emptyVars, n);
    if |emptyVars| > n { return; }
    solver.NewVars(n - |emptyVars|);
    var seen := MarkEmpty(emptyVars, n);
    var mymap, at := BuildMap(seen);
    if at != solver.nVars { return; }
    ok := AddKeptClauses(solver, cnf, cs, seen, mymap);
    if !ok { return; }
    AddKeptXors(solver, xs, cs, seen, mymap);
    GoneFlags(emptyVars, n);
    keep := DontElim(samplSet, seen, mymap);
  }

  /** What the caller gets: the projected count of the renumbered problem, over the numbers it is told to keep, times
      2^|empty| is that of the kept problem over the sampling variables and the empty ones. */
  lemma FilledCount(samplSet: seq<nat>, emptyVars: seq<nat>, n: nat, cs: seq<Clause>, xs: seq<(Lit, Lit)>, keep: seq<nat>)
    requires Bounded(emptyVars, n) && Bounded(samplSet, n) && NoDup(emptyVars)
    requires XorsBelow(xs, n) && forall i :: 0 <= i < |cs| ==> LitsBelow(cs[i], n)
    requires Elems(keep) == NewNumbers(Flags(emptyVars, n), Elems(samplSet) - Elems(emptyVars))
    ensures var all, seen := cs + XorsClauses(xs), Flags(emptyVars, n);
            |Projections(WithoutEmpty(n, all, seen), Elems(samplSet) + Elems(emptyVars))|
              == |Projections(Renumbered(all, seen), Elems(keep))| * Pow2(|emptyVars|)
    ensures var all, seen, vs := cs + XorsClauses(xs), Flags(emptyVars, n), Elems(samplSet) + Elems(emptyVars);
            |Projections(Formula(n, all, []), vs)| == |Projections(Renumbered(all, seen), Elems(keep))| * Pow2(|emptyVars|)
            <==> Recovered(WithoutEmpty(n, all, seen), Formula(n, all, []), vs)
  {
    var all, seen, s := cs + XorsClauses(xs), Flags(emptyVars, n), Elems(samplSet) - Elems(emptyVars);
    XorsClausesBelow(xs, n);
    RenumberedCount(all, seen, s);
    DroppedClauses(all, seen, s);
    GoneFlags(emptyVars, n);
    NoDupSize(emptyVars);
    assert s + Elems(emptyVars) == Elems(samplSet) + Elems(emptyVars);
  }

  /** The clauses of the binary xors hold exactly when the two literals of every pair are equal. */
  lemma {:induction false} XorsMean(xs: seq<(Lit, Lit)>, a: Assignment)
    requires XorsBelow(xs, |a|)
    ensures Constraints(XorsClauses(xs), [], a) <==> forall i :: 0 <= i < |xs| ==> LitTrue(xs[i].0, a) == LitTrue(xs[i].1, a)
  {
    hide Constraints, XorOf, LitTrue;
    if xs == [] {
      NoneHold(a);
    } else {
      var k := |xs| - 1;
      var x := xs[k];
      XorsMean(xs[..k], a);
      PairMeans(x, a);
      BothHold(XorsClauses(xs[..k]), XorOf(x.0.v, x.1.v, x.0.sign != x.1.sign), a);
      assert forall i :: 0 <= i < k ==> xs[..k][i] == xs[i];
    }
  }

  lemma NoneHold(a: Assignment)
    ensures Constraints([], [], a)
  {}

  lemma PairMeans(x: (Lit, Lit), a: Assignment)
    requires x.0.v < |a| && x.1.v < |a|
    ensures Constraints(XorOf(x.0.v, x.1.v, x.0.sign != x.1.sign), [], a) <==> LitTrue(x.0, a) == LitTrue(x.1, a)
  {
    XorMeans(x.0.v, x.1.v, x.0.sign != x.1.sign, a);
  }

  lemma BothHold(cs: seq<Clause>, ds: seq<Clause>, a: Assignment)
    ensures Constraints(cs + ds, [], a) <==> Constraints(cs, [], a) && Constraints(ds, [], a)
  {
    var all := cs + ds;
    assert forall i :: 0 <= i < |cs| ==> all[i] == cs[i];
    assert forall i :: 0 <= i < |ds| ==> all[|cs| + i] == ds[i];
  }

  lemma {:induction false} XorsClausesBelow(xs: seq<(Lit, Lit)>, n: nat)
    requires XorsBelow(xs, n)
    ensures forall i :: 0 <= i < |XorsClauses(xs)| ==> LitsBelow(XorsClauses(xs)[i], n)
  {
    if xs != [] { XorsClausesBelow(xs[..|xs| - 1], n); }
  }
}
