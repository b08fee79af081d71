/** The Mersenne Twister MT19937: the linear recurrence of Matsumoto and Nishimura (1998), and the generator that keeps
    N of its terms in an array updated in place. */
module MersenneTwister {
  import opened Words

  const N: nat := 624
  const M: nat := 397

  // ---- the recurrence ----

  /** Term k of the sequence that starts with the N given words. */
  function Term(initial: seq<bv32>, k: nat): bv32
    requires |initial| == N
  {
    if k < N then initial[k]
    else Twist(Term(initial, k - N + M), Term(initial, k - N), Term(initial, k - N + 1))
  }

  /** The 32-bit word the generator starts from at place i when it is seeded with s. */
  function InitialWord(s: bv32, i: nat): bv32 {
    if i == 0 then s
    else
      var r := InitialWord(s, i - 1);
      Stir(r, Low(i))
  }

  /** i as a 32-bit word. */
  function Low(i: nat): bv32 {
    if i == 0 then 0 else Low(i - 1) + 1
  }

  /** The recurrence of MT19937, with its period parameters. */
  lemma Recurrence(initial: seq<bv32>, k: nat)
    requires |initial| == 624
    ensures Term(initial, k + 624) == Twist(Term(initial, k + 397), Term(initial, k), Term(initial, k + 1))
    ensures k < 624 ==> Term(initial, k) == initial[k]
  {}

  /** The first words for the seed 5489. */
  lemma ReferenceSeed()
    ensures InitialWord(5489, 0) == 5489 && InitialWord(5489, 1) == 1301868182 && InitialWord(5489, 2) == 2938499221
    ensures InitialWord(5489, 3) == 2950281878 && InitialWord(5489, 4) == 1875628136
  {
    hide Stir;
    StirValues();
    assert Low(1) == 1 && Low(2) == 2 && Low(3) == 3 && Low(4) == 4;
    assert InitialWord(5489, 1) == Stir(InitialWord(5489, 0), Low(1));
    assert InitialWord(5489, 2) == Stir(InitialWord(5489, 1), Low(2));
    assert InitialWord(5489, 3) == Stir(InitialWord(5489, 2), Low(3));
  }

  ghost function InitialWords(s: bv32): seq<bv32> {
    seq(N, i requires 0 <= i < N => InitialWord(s, i))
  }

  // ---- the generator ----

  /** The N words are the terms base .. base + N. */
  ghost predicate Holds(words: seq<bv32>, initial: seq<bv32>, base: nat) {
    |words| == N && |initial| == N && forall i {:trigger words[i]} :: 0 <= i < N ==> words[i] == Term(initial, base + i)
  }

  /** Half-way through a reload: the first k words have moved on to the next block. */
  ghost predicate Reloading(words: seq<bv32>, initial: seq<bv32>, base: nat, k: nat) {
    && |words| == N && |initial| == N && k <= N
    && (forall i {:trigger words[i]} :: 0 <= i < k ==> words[i] == Term(initial, base + N + i))
    && (forall i {:trigger words[i]} :: k <= i < N ==> words[i] == Term(initial, base + i))
  }

  /** Where the word that the recurrence adds M places further on is stored. */
  function Far(i: nat): nat
    requires i < N
  {
    if i + M < N then i + M else i + M - N
  }

  function Next(i: nat): nat
    requires i < N
  {
    if i + 1 < N then i + 1 else 0
  }

  lemma ReloadStep(words: seq<bv32>, initial: seq<bv32>, base: nat, k: nat)
    requires k < N && Reloading(words, initial, base, k)
    ensures Reloading(words[k := Twist(words[Far(k)], words[k], words[Next(k)])], initial, base, k + 1)
  {
    var far, here, near := Term(initial, base + k + M), Term(initial, base + k), Term(initial, base + k + 1);
    assert words[Far(k)] == far by { assert k + M < N || Far(k) < k; }
    assert words[k] == here;
    assert words[Next(k)] == near by { assert k + 1 < N || Next(k) < k; }
    assert Term(initial, base + N + k) == Twist(far, here, near);
  }

  class MTRand {
    const state: array<bv32>
    var pNext: nat
    var left: nat
    ghost var initial: seq<bv32>
    ghost var base: nat

    ghost predicate Valid()
      reads this, state
    {
      state.Length == N && Holds(state[..], initial, base) && pNext + left == N
    }

    /** The number of the term that the next call returns tempered. */
    ghost function Position(): nat
      reads this
    {
      base + pNext
    }

    constructor (oneSeed: bv64)
      ensures Valid() && fresh(state)
      ensures initial == InitialWords((oneSeed & 0xffff_ffff) as bv32) && Position() == N
    {
      state := new bv32[N];
      pNext, left, initial, base := 0, N, [], 0;
      new;
      Seed(oneSeed);
    }

    method Seed(oneSeed: bv64)
      requires state.Length == N
      modifies this, state
      ensures Valid()
      ensures initial == InitialWords((oneSeed & 0xffff_ffff) as bv32) && Position() == N
    {
      Initialize((oneSeed & 0xffff_ffff) as bv32);
      initial, base := InitialWords((oneSeed & 0xffff_ffff) as bv32), 0;
      Reload();
    }

    method Initialize(seed: bv32)
      requires state.Length == N
      modifies state
      ensures Holds(state[..], InitialWords(seed), 0)
    {
      hide Stir;
      state[0] := seed;
      for i := 1 to N
        invariant forall k :: 0 <= k < i ==> state[k] == InitialWord(seed, k)
      {
        state[i] := Stir(state[i - 1], Low(i));
      }
    }

    /** Computes the next N terms in place of the last ones. */
    method Reload()
      requires state.Length == N && Holds(state[..], initial, base)
      modifies this`pNext, this`left, this`base, state
      ensures Valid() && pNext == 0 && left == N && base == old(base) + N
    {
      hide Term;
      ghost var b := base;
      for i := 0 to N - M
        invariant Reloading(state[..], initial, b, i)
      {
        ReloadStep(state[..], initial, b, i);
        state[i] := Twist(state[i + M], state[i], state[i + 1]);
      }
      for i := N - M to N - 1
        invariant Reloading(state[..], initial, b, i)
      {
        ReloadStep(state[..], initial, b, i);
        state[i] := Twist(state[i + M - N], state[i], state[i + 1]);
      }
      ReloadStep(state[..], initial, b, N - 1);
      state[N - 1] := Twist(state[M - 1], state[N - 1], state[0]);
      base := b + N;
      left, pNext := N, 0;
    }

    method RandInt() returns (r: bv32)
      requires Valid()
      modifies this`pNext, this`left, this`base, state
      ensures Valid() && r == Temper(Term(initial, old(Position())))
      ensures Position() == old(Position()) + 1
    {
      if left == 0 { Reload(); }
      left := left - 1;
      var s1 := state[pNext];
      pNext := pNext + 1;
      r := Temper(s1);
    }

    /** The word that is drawn after j others. */
    ghost function Ahead(j: nat): bv32
      requires |initial| == N
      reads this
    {
      Temper(Term(initial, Position() + j))
    }

    /** A number from 0 to n: draws are cut to the used bits of n until one is accepted. Draw `last` would be. */
    method RandIntTo(n: bv32, ghost last: nat) returns (r: bv32, ghost drawn: nat)
      requires Valid() && !Beyond(Cut(Ahead(last), n), n)
      modifies this`pNext, this`left, this`base, state
      ensures Valid() && drawn <= last && Position() == old(Position()) + drawn + 1
      ensures r == Cut(old(Ahead(drawn)), n) && !Beyond(r, n)
      ensures forall j :: 0 <= j < drawn ==> Beyond(Cut(old(Ahead(j)), n), n)
    {
      hide Temper, Term, Used, Cut, Beyond;
      drawn := 0;
      r := RandInt();
      r := Cut(r, n);
      while Beyond(r, n)
        invariant Valid() && drawn <= last && Position() == old(Position()) + drawn + 1
        invariant initial == old(initial) && r == Cut(old(Ahead(drawn)), n)
        invariant forall j :: 0 <= j < drawn ==> Beyond(Cut(old(Ahead(j)), n), n)
        decreases last - drawn
      {
        r := RandInt();
        drawn := drawn + 1;
        r := Cut(r, n);
      }
    }

    /** The state as save() writes it: the N words, then the number of words left. */
    method Save() returns (words: seq<bv32>, count: nat)
      requires Valid()
      ensures words == state[..] && count == left
    {
      words := [];
      for i := 0 to N
        invariant words == state[..i]
      {
        words := words + [state[i]];
      }
      assert state[..N] == state[..];
      count := left;
    }

    /** Continues from a saved state. */
    method Load(words: seq<bv32>, count: nat)
      requires state.Length == N && |words| == N && count <= N
      modifies this, state
      ensures Valid() && initial == words && Position() == N - count
    {
      for i := 0 to N
        invariant state[..i] == words[..i]
      {
        state[i] := words[i];
      }
      assert state[..] == state[..N] == words[..N] == words;
      left := count;
      pNext := N - left;
      initial, base := words, 0;
    }
  }

  /** The sequence restarted from any N of its terms in a row is the rest of the sequence. */
  lemma {:induction false} TermShift(initial: seq<bv32>, words: seq<bv32>, base: nat, k: nat)
    requires Holds(words, initial, base)
    ensures Term(words, k) == Term(initial, base + k)
  {
    if k >= N {
      TermShift(initial, words, base, k - N + M);
      TermShift(initial, words, base, k - N);
      TermShift(initial, words, base, k - N + 1);
    }
  }

  /** A generator that loads what another one saved goes on with the same numbers, for ever. */
  method SaveThenLoad(from: MTRand, to: MTRand)
    requires from.Valid() && to.state.Length == N && from != to && from.state != to.state
    modifies to, to.state
    ensures from.Valid() && to.Valid() && forall j: nat :: to.Ahead(j) == from.Ahead(j)
  {
    var words, count := from.Save();
    to.Load(words, count);
    forall j: nat ensures to.Ahead(j) == from.Ahead(j) {
      TermShift(from.initial, words, from.base, from.pNext + j);
    }
  }

  /** The numbers drawn after seeding, over any number of reloads: tempered terms N, N + 1, ... of the sequence. */
  method FirstDraws(oneSeed: bv64, count: nat) returns (out: seq<bv32>)
    ensures |out| == count
    ensures forall k :: 0 <= k < count ==> out[k] == Temper(Term(InitialWords((oneSeed & 0xffff_ffff) as bv32), N + k))
  {
    ghost var start := InitialWords((oneSeed & 0xffff_ffff) as bv32);
    var g := new MTRand(oneSeed);
    out := [];
    for i := 0 to count
      invariant fresh(g) && fresh(g.state) && g.Valid() && g.initial == start && g.Position() == N + i && |out| == i
      invariant forall k :: 0 <= k < i ==> out[k] == Temper(Term(start, N + k))
    {
      var r := g.RandInt();
      out := out + [r];
    }
  }
}
