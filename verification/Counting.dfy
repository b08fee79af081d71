/** Model counts and projected model counts. */
module Counting {
  import opened Seqs
  import opened Logic
  import opened Doubling

  ghost function AllAssignments(n: nat): (s: set<Assignment>)
    ensures forall a :: a in s <==> |a| == n
  {
    if n == 0 then
      assert forall a: Assignment :: |a| == 0 ==> a == [];
      {[]}
    else
      var s := set a, b | a in AllAssignments(n - 1) && b in {false, true} :: a + [b];
      assert forall a: Assignment | |a| == n :: a in s by {
        forall a: Assignment | |a| == n ensures a in s {
          var front, last := a[..n - 1], a[n - 1];
          assert front in AllAssignments(n - 1) && last in {false, true} && a == front + [last];
        }
      }
      s
  }

  ghost function Models(f: Formula): set<Assignment> {
    set a | a in AllAssignments(f.n) && Satisfies(f, a)
  }

  ghost function Project(a: Assignment, vs: set<nat>): map<nat, bool> {
    map v | v in vs && v < |a| :: a[v]
  }

  /** The models of `f` seen through the variables `vs`; its size is the projected model count. */
  ghost function Projections(f: Formula, vs: set<nat>): set<map<nat, bool>> {
    set a | a in Models(f) :: Project(a, vs)
  }

  ghost function Image<X, Y>(s: set<X>, g: X -> Y): set<Y> { set x | x in s :: g(x) }

  ghost predicate Injective<X, Y>(s: set<X>, g: X -> Y) {
    forall x, y :: x in s && y in s && g(x) == g(y) ==> x == y
  }

  lemma {:induction false} ImageSize<X, Y>(s: set<X>, g: X -> Y)
    ensures |Image(s, g)| <= |s|
    ensures Injective(s, g) ==> |Image(s, g)| == |s|
    decreases s
  {
    if s != {} {
      var x :| x in s;
      var rest := s - {x};
      ImageSize(rest, g);
      assert Image(s, g) == Image(rest, g) + {g(x)};
      if Injective(s, g) { assert g(x) !in Image(rest, g); }
    }
  }

  /** Only an injective map keeps the number of elements. */
  lemma SameSizeInjective<X, Y>(s: set<X>, g: X -> Y)
    requires |Image(s, g)| == |s|
    ensures Injective(s, g)
  {
    if x, y :| x in s && y in s && g(x) == g(y) && x != y {
      var rest := s - {x};
      assert Image(s, g) == Image(rest, g) by { assert y in rest; }
      ImageSize(rest, g);
    }
  }

  ghost function Restrict(vs: set<nat>): map<nat, bool> -> map<nat, bool> {
    (p: map<nat, bool>) => map v | v in p && v in vs :: p[v]
  }

  lemma RestrictedProjections(f: Formula, r: set<nat>, s: set<nat>)
    requires r <= s
    ensures Image(Projections(f, s), Restrict(r)) == Projections(f, r)
  {
    forall a ensures Restrict(r)(Project(a, s)) == Project(a, r) {}
    forall p | p in Projections(f, r) ensures p in Image(Projections(f, s), Restrict(r)) {
      var a :| a in Models(f) && p == Project(a, r);
      assert Project(a, s) in Projections(f, s);
    }
  }

  lemma SupportsMakesInjective(f: Formula, r: set<nat>, s: set<nat>)
    requires r <= s && Supports(f, r, s)
    ensures Injective(Projections(f, s), Restrict(r))
  {
    forall p, q | p in Projections(f, s) && q in Projections(f, s) && Restrict(r)(p) == Restrict(r)(q) ensures p == q {
      var a :| a in Models(f) && p == Project(a, s);
      var b :| b in Models(f) && q == Project(b, s);
      assert Project(a, r) == Restrict(r)(p) && Project(b, r) == Restrict(r)(q);
      AgreeIsSameProjection(a, b, r);
      forall v | v in s && v < |a| && v < |b| ensures a[v] == b[v] { assert Determines(f, r, v); }
      AgreeIsSameProjection(a, b, s);
    }
  }

  lemma InjectiveMakesSupports(f: Formula, r: set<nat>, s: set<nat>)
    requires r <= s && Injective(Projections(f, s), Restrict(r))
    ensures Supports(f, r, s)
  {
    forall v, a, b | v in s && Satisfies(f, a) && Satisfies(f, b) && Agree(a, b, r) && v < f.n ensures a[v] == b[v] {
      assert a in Models(f) && b in Models(f);
      var p, q := Project(a, s), Project(b, s);
      assert p in Projections(f, s) && q in Projections(f, s);
      AgreeIsSameProjection(a, b, r);
      assert Restrict(r)(p) == Project(a, r) && Restrict(r)(q) == Project(b, r);
      AgreeIsSameProjection(a, b, s);
    }
  }

  lemma AgreeIsSameProjection(a: Assignment, b: Assignment, vs: set<nat>)
    requires |a| == |b|
    ensures Agree(a, b, vs) <==> Project(a, vs) == Project(b, vs)
  {
    if Project(a, vs) == Project(b, vs) {
      forall v | v in vs && v < |a| ensures a[v] == b[v] { assert Project(a, vs)[v] == Project(b, vs)[v]; }
    }
  }

  /** Keeping the subset r of s preserves the projected model count exactly when r determines s. */
  lemma ProjectedCountPreserved(f: Formula, r: set<nat>, s: set<nat>)
    requires r <= s
    ensures |Projections(f, r)| == |Projections(f, s)| <==> Supports(f, r, s)
  {
    RestrictedProjections(f, r, s);
    ImageSize(Projections(f, s), Restrict(r));
    if Supports(f, r, s) { SupportsMakesInjective(f, r, s); }
    if |Projections(f, r)| == |Projections(f, s)| {
      SameSizeInjective(Projections(f, s), Restrict(r));
      InjectiveMakesSupports(f, r, s);
    }
  }

  ghost function Pairs<X, Y>(s: set<X>, t: set<Y>): set<(X, Y)> { set x, y | x in s && y in t :: (x, y) }

  lemma OneMoreRow(k: nat, m: nat)
    ensures (k + 1) * m == k * m + m
  {}

  lemma {:induction false} PairsSize<X, Y>(s: set<X>, t: set<Y>)
    ensures |Pairs(s, t)| == |s| * |t|
    decreases s
  {
    if s != {} {
      var x :| x in s;
      var rest := s - {x};
      PairsSize(rest, t);
      var row := Image(t, y => (x, y));
      ImageSize(t, y => (x, y));
      assert Pairs(s, t) == Pairs(rest, t) + row;
      assert Pairs(rest, t) !! row;
      assert |s| == |rest| + 1;
      OneMoreRow(|rest|, |t|);
    }
  }

  /** A model of the doubled formula, cut into its two copies. */
  ghost function Halves(n: nat): Assignment -> (Assignment, Assignment) {
    (m: Assignment) => if |m| >= 2 * n then (m[..n], m[n..2 * n]) else ([], [])
  }

  lemma HalvesOfModel(f: Formula, s: seq<nat>, m: Assignment)
    requires WellFormed(f) && Bounded(s, f.n) && m in Models(Doubled(f, s))
    ensures var h := Halves(f.n)(m); h.0 in Models(f) && h.1 in Models(f) && m == Join(h.0, h.1, s)
  {
    DoubledModels(f, s, m);
  }

  lemma ModelOfHalves(f: Formula, s: seq<nat>, a: Assignment, b: Assignment)
    requires WellFormed(f) && Bounded(s, f.n) && a in Models(f) && b in Models(f)
    ensures Join(a, b, s) in Models(Doubled(f, s)) && Halves(f.n)(Join(a, b, s)) == (a, b)
  {
    PairExtendsUniquely(f, s, a, b);
    assert Join(a, b, s)[..f.n] == a && Join(a, b, s)[f.n..2 * f.n] == b;
  }

  lemma HalvesOnto(f: Formula, s: seq<nat>)
    requires WellFormed(f) && Bounded(s, f.n)
    ensures Image(Models(Doubled(f, s)), Halves(f.n)) == Pairs(Models(f), Models(f))
  {
    var d, h := Models(Doubled(f, s)), Halves(f.n);
    forall m | m in d ensures h(m) in Pairs(Models(f), Models(f)) { HalvesOfModel(f, s, m); }
    forall p | p in Pairs(Models(f), Models(f)) ensures p in Image(d, h) {
      ModelOfHalves(f, s, p.0, p.1);
      assert h(Join(p.0, p.1, s)) == p;
    }
  }

  /** The doubled formula has the square of the number of models, whatever the sampling set. */
  lemma DoubledCount(f: Formula, s: seq<nat>)
    requires WellFormed(f) && Bounded(s, f.n)
    ensures |Models(Doubled(f, s))| == |Models(f)| * |Models(f)|
  {
    var d, h := Models(Doubled(f, s)), Halves(f.n);
    forall m, k | m in d && k in d && h(m) == h(k) ensures m == k {
      HalvesOfModel(f, s, m);
      HalvesOfModel(f, s, k);
    }
    HalvesOnto(f, s);
    ImageSize(d, h);
    PairsSize(Models(f), Models(f));
  }
}
