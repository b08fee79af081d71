/** Writing a problem in the DIMACS format, and reading it back. */
module Printing {
  import opened Seqs
  import opened Logic
  import opened Groups
  import opened Text
  import opened Streams
  import opened Dimacs
  import opened Lines

  /** A literal as a signed number counted from one. */
  function Number(l: Lit): int { if l.sign then -(l.v + 1) else l.v + 1 }

  function Numbers(ls: seq<Lit>): seq<int> { seq(|ls|, i requires 0 <= i < |ls| => Number(ls[i])) }

  function Positive(vs: seq<nat>): seq<int> { seq(|vs|, i requires 0 <= i < |vs| => vs[i] + 1) }

  function HeaderText(n: nat, cls: nat): string { "p cnf " + PrintNat(n) + " " + PrintNat(cls) + "\n" }

  function IndText(vs: seq<nat>): string { "c ind " + Spaced(Positive(vs)) + "0\n" }

  /** The literals separated by blanks, then the blank and the zero that end the clause. */
  function ClauseText(c: Clause): string { (if c == [] then " " else Spaced(Numbers(c))) + "0\n" }

  function ClausesText(cs: seq<Clause>): string {
    if cs == [] then "" else ClauseText(cs[0]) + ClausesText(cs[1..])
  }

  function FactorText(k: nat): string { "c MUST MUTIPLY BY 2**" + PrintNat(k) + "\n" }

  function Document(n: nat, cs: seq<Clause>, vs: seq<nat>, k: nat): string {
    HeaderText(n, |cs|) + IndText(vs) + ClausesText(cs) + FactorText(k)
  }

  method PrintSpaced(ns: seq<int>) returns (out: string)
    ensures out == Spaced(ns)
  {
    out := "";
    assert ns[0..] == ns;
    for i := 0 to |ns|
      invariant out + Spaced(ns[i..]) == Spaced(ns)
    {
      SpacedStep(out, ns, i);
      out := out + PrintInt(ns[i]) + " ";
    }
  }

  lemma SpacedStep(out: string, ns: seq<int>, i: nat)
    requires i < |ns|
    ensures out + Spaced(ns[i..]) == out + PrintInt(ns[i]) + " " + Spaced(ns[i + 1..])
  {
    assert ns[i..][1..] == ns[i + 1..];
  }

  /** The line with the independent support, as it is printed at the end of a run. */
  method PrintInd(vs: seq<nat>) returns (out: string)
    ensures out == IndText(vs)
  {
    var spaced := PrintSpaced(Positive(vs));
    out := "c ind " + spaced + "0\n";
  }

  method DumpCnf(n: nat, cs: seq<Clause>, vs: seq<nat>, k: nat) returns (out: string)
    ensures out == Document(n, cs, vs, k)
  {
    hide PrintNat, PrintInt;
    var ind := PrintInd(vs);
    var clauses := "";
    assert cs[0..] == cs;
    for i := 0 to |cs|
      invariant clauses + ClausesText(cs[i..]) == ClausesText(cs)
    {
      assert cs[i..][1..] == cs[i + 1..];
      clauses := clauses + ClauseText(cs[i]);
    }
    out := HeaderText(n, |cs|) + ind + clauses + FactorText(k);
  }

  // ---- reading back ----

  lemma PositiveMeans(vs: seq<nat>)
    requires forall i :: 0 <= i < |vs| ==> vs[i] < INT_MAX
    ensures Listable(Positive(vs)) && Variables(Positive(vs)) == vs
  {}

  lemma NumbersMean(c: Clause)
    requires forall i :: 0 <= i < |c| ==> c[i].v < INT_MAX
    ensures Listable(Numbers(c)) && Literals(Numbers(c)) == c && Variables(Numbers(c)) == LitVars(c)
  {}

  lemma HeaderPrinted(opts: Settings, st: State, n: nat, cls: nat, rest: string)
    requires n <= INT_MAX && cls <= INT_MAX && st.nVars <= n && !st.headerFound
    ensures ParseAll(opts, st, HeaderText(n, cls) + rest)
         == ParseAll(opts, st.(nVars := n, headerFound := true, headerVars := n, headerCls := cls), rest)
  {
    hide PrintNat, ParseAll;
    HeaderRead(opts, st, n, cls, "", "\n" + rest, rest);
    assert Written(HeaderLine(n, cls, "")) + "\n" == HeaderText(n, cls);
    Associate(Written(HeaderLine(n, cls, "")), "\n", rest);
  }

  /** The sampling set survives being printed and read. */
  lemma IndPrinted(opts: Settings, st: State, vs: seq<nat>, rest: string)
    requires forall i :: 0 <= i < |vs| ==> vs[i] < INT_MAX
    ensures ParseAll(opts, st, IndText(vs) + rest)
         == ParseAll(opts, st.(samplingFound := true, samplingVars := st.samplingVars + vs), rest)
  {
    hide ParseAll, Spaced;
    PositiveMeans(vs);
    SamplingRead(opts, st, Positive(vs), "", "\n" + rest, rest);
    assert Written(SamplingSet(Positive(vs), "")) + "\n" == IndText(vs);
    Associate(Written(SamplingSet(Positive(vs), "")), "\n", rest);
  }

  lemma FactorPrinted(opts: Settings, st: State, k: nat, rest: string)
    ensures ParseAll(opts, st, FactorText(k) + rest) == ParseAll(opts, st, rest)
  {
    hide *;
    var line := FactorLine(k);
    RemarkRead(opts, st, " ", "MUST", " MUTIPLY BY 2**" + PrintNat(k), "\n" + rest, rest);
    Associate(Written(line), "\n", rest);
  }

  lemma FactorLine(k: nat) returns (line: Source)
    ensures line == Remark(" ", "MUST", " MUTIPLY BY 2**" + PrintNat(k))
    ensures Proper(line) && Written(line) + "\n" == FactorText(k)
    ensures forall rest :: Ends("\n" + rest, rest)
  {
    hide PrintNat;
    PrintedDigits(k);
    line := Remark(" ", "MUST", " MUTIPLY BY 2**" + PrintNat(k));
    assert Written(line) + "\n" == "c MUST MUTIPLY BY 2**" + PrintNat(k) + "\n";
  }

  lemma {:induction false} PrintedDigits(n: nat)
    ensures forall i :: 0 <= i < |PrintNat(n)| ==> IsDigit(PrintNat(n)[i])
  {
    if n >= 10 { PrintedDigits(n / 10); }
  }

  /** The variables below n are admitted and make no difference to the size of the problem. */
  ghost predicate Accepts(opts: Settings, st: State, n: nat) {
    n <= st.nVars && forall v :: 0 <= v < n ==> Admitted(opts, st, v)
  }

  /** A clause over variables that fit is read as it was. */
  lemma ClausePrinted(opts: Settings, st: State, c: Clause, n: nat, rest: string)
    requires Accepts(opts, st, n) && LitsBelow(c, n)
    ensures ParseAll(opts, st, ClauseText(c) + rest) == ParseAll(opts, st.(clauses := st.clauses + [c]), rest)
  {
    hide ParseAll, Spaced, Room;
    forall i | 0 <= i < |c| ensures c[i].v < INT_MAX { assert Admitted(opts, st, c[i].v); }
    NumbersMean(c);
    RoomFor(st.nVars, LitVars(c));
    var text := Written(ClauseOf(Numbers(c), "")) + ("\n" + rest);
    ClauseRead(opts, st, Numbers(c), "", "\n" + rest, rest);
    Associate(Written(ClauseOf(Numbers(c), "")), "\n", rest);
    assert Written(ClauseOf(Numbers(c), "")) + "\n" == Spaced(Numbers(c)) + "0\n";
    if c == [] {
      NothingSpaced();
      assert ClauseText(c) + rest == " " + text;
      IndentRead(opts, st, " ", text);
    }
  }

  lemma NothingSpaced()
    ensures Spaced([]) == ""
  {}

  lemma {:induction false} ClausesPrinted(opts: Settings, st: State, cs: seq<Clause>, n: nat, rest: string)
    requires Accepts(opts, st, n) && forall i :: 0 <= i < |cs| ==> LitsBelow(cs[i], n)
    ensures ParseAll(opts, st, ClausesText(cs) + rest) == ParseAll(opts, st.(clauses := st.clauses + cs), rest)
    decreases |cs|
  {
    hide ParseAll, ClauseText;
    if cs == [] {
      assert ClausesText(cs) + rest == rest && st.clauses + cs == st.clauses;
    } else {
      var st' := st.(clauses := st.clauses + [cs[0]]);
      Associate(ClauseText(cs[0]), ClausesText(cs[1..]), rest);
      ClausePrinted(opts, st, cs[0], n, ClausesText(cs[1..]) + rest);
      SameAdmitted(opts, st, st');
      ClausesPrinted(opts, st', cs[1..], n, rest);
      FirstOver(st.clauses, cs);
    }
  }

  lemma Associate(a: string, b: string, c: string)
    ensures a + b + c == a + (b + c)
  {}

  lemma DocumentParts(n: nat, cs: seq<Clause>, vs: seq<nat>, k: nat)
    ensures Document(n, cs, vs, k) == HeaderText(n, |cs|) + (IndText(vs) + (ClausesText(cs) + FactorText(k)))
  {
    Associate(HeaderText(n, |cs|) + IndText(vs), ClausesText(cs), FactorText(k));
    Associate(HeaderText(n, |cs|), IndText(vs), ClausesText(cs) + FactorText(k));
  }

  /** What is written is read back: the same clauses, the same sampling set, the same number of variables. */
  lemma RoundTrip(opts: Settings, n: nat, cs: seq<Clause>, vs: seq<nat>, k: nat)
    requires n <= INT_MAX && |cs| <= INT_MAX && (forall i :: 0 <= i < |vs| ==> vs[i] < INT_MAX)
    requires forall i :: 0 <= i < |cs| ==> LitsBelow(cs[i], n) && LitsBelow(cs[i], VAR_LIMIT) && LitsBelow(cs[i], opts.maxVar + 1)
    ensures ParseAll(opts, EMPTY, Document(n, cs, vs, k))
         == Some(EMPTY.(nVars := n, clauses := cs, samplingFound := true, samplingVars := vs,
                        headerFound := true, headerVars := n, headerCls := |cs|))
  {
    var m := if n <= VAR_LIMIT then n else VAR_LIMIT;
    var limit := if m <= opts.maxVar + 1 then m else opts.maxVar + 1;
    var st := EMPTY.(nVars := n, headerFound := true, headerVars := n, headerCls := |cs|);
    var st' := st.(samplingFound := true, samplingVars := vs);
    var body := ClausesText(cs) + FactorText(k);
    HeaderPrinted(opts, EMPTY, n, |cs|, IndText(vs) + body);
    DocumentParts(n, cs, vs, k);
    IndPrinted(opts, st, vs, body);
    assert st.samplingVars + vs == vs && st'.clauses + cs == cs;
    ClausesPrinted(opts, st', cs, limit, FactorText(k));
    FactorPrinted(opts, st'.(clauses := cs), k, "");
    assert FactorText(k) + "" == FactorText(k);
  }

  /** Through any buffering: dump, then parse. */
  method DumpThenParse(opts: Settings, n: nat, cs: seq<Clause>, vs: seq<nat>, k: nat, chunk: nat -> nat)
    returns (ok: bool, read: State)
    requires n <= INT_MAX && |cs| <= INT_MAX && (forall i :: 0 <= i < |vs| ==> vs[i] < INT_MAX)
    requires forall i :: 0 <= i < |cs| ==> LitsBelow(cs[i], n) && LitsBelow(cs[i], VAR_LIMIT) && LitsBelow(cs[i], opts.maxVar + 1)
    ensures ok && read.nVars == n && read.clauses == cs && read.samplingVars == vs && read.samplingFound
  {
    var text := DumpCnf(n, cs, vs, k);
    RoundTrip(opts, n, cs, vs, k);
    var input := new StreamBuffer(text, chunk);
    var parser := new DimacsParser(opts);
    ok := parser.ParseDimacs(input);
    read := parser.Now();
  }

  // ---- texts whose group table is too short for the problem ----

  /** A problem without group lines leaves the table empty, so that no variable can be looked up. */
  lemma NoGroupLines(opts: Settings, n: nat, cs: seq<Clause>, vs: seq<nat>, k: nat)
    requires 0 < n <= INT_MAX && |cs| <= INT_MAX && (forall i :: 0 <= i < |vs| ==> vs[i] < INT_MAX)
    requires forall i :: 0 <= i < |cs| ==> LitsBelow(cs[i], n) && LitsBelow(cs[i], VAR_LIMIT) && LitsBelow(cs[i], opts.maxVar + 1)
    ensures var r := ParseAll(opts, EMPTY, Document(n, cs, vs, k));
            r.Some? && r.value.var2group == [] && NoDup(Flat(r.value.groups))
            && !Grouping(r.value.var2group, r.value.groups).Consistent(r.value.nVars)
  {
    RoundTrip(opts, n, cs, vs, k);
  }

  /** Numbers are decimal. */
  lemma Decimal()
    ensures PrintInt(1) == "1" && PrintInt(2) == "2" && PrintInt(-3) == "-3" && PrintInt(6) == "6" && PrintInt(-5) == "-5"
    ensures PrintInt(11) == "11" && PrintInt(-11) == "-11" && PrintNat(1203) == "1203"
  {
    assert PrintNat(1) == "1" && PrintNat(12) == "12" && PrintNat(120) == "120";
    assert PrintNat(3) == "3" && PrintNat(5) == "5" && PrintNat(11) == "11";
  }

  lemma Two(m: int, n: int)
    ensures Spaced([m, n]) == PrintInt(m) + " " + PrintInt(n) + " "
  {
    hide PrintInt;
    SpacedOne(n);
    assert [m, n][1..] == [n];
    assert Spaced([m, n]) == PrintInt(m) + " " + Spaced([n]);
  }

  /** A clause on a variable beyond the header, which is accepted unless the header is binding, leaves that variable
      outside the table. */
  lemma BeyondHeader(maxVar: nat)
    requires maxVar >= 1
    ensures var r := ParseAll(Settings(false, maxVar), EMPTY, "p cnf 1 1\n" + ("c grp 1 0\n" + "2 0\n"));
            r.Some? && r.value.var2group == [1] && r.value.groups == [[], [0]] && r.value.nVars == 2
            && r.value.clauses == [[Lit(1, false)]]
            && NoDup(Flat(r.value.groups)) && !Grouping(r.value.var2group, r.value.groups).Consistent(2)
  {
    hide ParseAll;
    var opts := Settings(false, maxVar);
    var st := EMPTY.(nVars := 1, headerFound := true, headerVars := 1, headerCls := 1);
    var grouped := st.(var2group := [1], groups := [[], [0]]);
    BeyondSizes(opts, "c grp 1 0\n" + "2 0\n");
    BeyondGroup(opts, st, "2 0\n");
    BeyondClause(opts, grouped);
    OneGroup();
  }

  lemma BeyondSizes(opts: Settings, rest: string)
    ensures ParseAll(opts, EMPTY, "p cnf 1 1\n" + rest)
         == ParseAll(opts, EMPTY.(nVars := 1, headerFound := true, headerVars := 1, headerCls := 1), rest)
  {
    hide ParseAll, PrintInt;
    Decimal();
    HeaderRead(opts, EMPTY, 1, 1, "", "\n" + rest, rest);
    assert Written(HeaderLine(1, 1, "")) + "\n" == "p cnf 1 1\n";
    Associate(Written(HeaderLine(1, 1, "")), "\n", rest);
  }

  lemma BeyondGroup(opts: Settings, st: State, rest: string)
    requires st.headerVars == 1 && st.var2group == [] && st.groups == []
    ensures ParseAll(opts, st, "c grp 1 0\n" + rest) == ParseAll(opts, st.(var2group := [1], groups := [[], [0]]), rest)
  {
    hide ParseAll, PrintInt, Spaced;
    Decimal();
    SpacedOne(1);
    GroupRead(opts, st, [1], "", "\n" + rest, rest);
    assert Written(GroupOf([1], "")) + "\n" == "c grp 1 0\n" && Variables([1]) == [0];
    Associate(Written(GroupOf([1], "")), "\n", rest);
    assert PutInto([0], [0], 1) == [1] && seq<nat>(1, _ => 0) == [0];
    assert st.groups + [[]] == [[]] && [[]] + [[0]] == [[], [0]];
  }

  lemma BeyondClause(opts: Settings, st: State)
    requires !opts.strict && opts.maxVar >= 1 && st.nVars == 1 && st.clauses == []
    ensures ParseAll(opts, st, "2 0\n") == Some(st.(nVars := 2, clauses := [[Lit(1, false)]]))
  {
    hide ParseAll, PrintInt, Spaced;
    Decimal();
    SpacedOne(2);
    ClauseRead(opts, st, [2], "", "\n" + "", "");
    assert Written(ClauseOf([2], "")) + ("\n" + "") == "2 0\n";
    assert Variables([2]) == [1] && Literals([2]) == [Lit(1, false)] && Room(1, [1]) == 2;
    assert st.clauses + [[Lit(1, false)]] == [[Lit(1, false)]];
    ParseEnd(opts, st.(nVars := 2, clauses := [[Lit(1, false)]]));
  }

  lemma ParseEnd(opts: Settings, st: State)
    ensures ParseAll(opts, st, "") == Some(st)
  {}

  lemma OneGroup()
    ensures NoDup(Flat([[], [0]]))
  {
    var none: seq<seq<nat>> := [];
    FlatAppend(none, []);
    FlatAppend(none + [[]], [0]);
    assert none + [[]] + [[0]] == [[], [0]];
  }

  /** What is printed, letter by letter. */
  lemma SmallDocument()
    ensures Document(2, [[Lit(0, false), Lit(1, true)]], [0], 12)
         == "p cnf 2 1\n" + "c ind 1 0\n" + "1 -2 0\n" + "c MUST MUTIPLY BY 2**12\n"
  {
    hide PrintInt, PrintNat, Spaced;
    var c := [Lit(0, false), Lit(1, true)];
    DecimalHere();
    SpacedOne(1);
    Two(1, -2);
    assert Positive([0]) == [1] && Numbers(c) == [1, -2];
    assert HeaderText(2, 1) == "p cnf 2 1\n";
    assert IndText([0]) == "c ind 1 0\n";
    assert ClauseText(c) == "1 -2 0\n";
    assert [c][1..] == [] && ClausesText([]) == "";
    assert ClausesText([c]) == "1 -2 0\n";
    assert FactorText(12) == "c MUST MUTIPLY BY 2**12\n";
  }

  lemma DecimalHere()
    ensures PrintNat(1) == "1" && PrintNat(2) == "2" && PrintNat(12) == "12" && PrintInt(1) == "1" && PrintInt(-2) == "-2"
  {
    assert PrintNat(1) == "1" && PrintNat(2) == "2";
  }

  /** The lines of a small text, whatever follows them. */
  lemma NoRemark(opts: Settings, st: State, rest: string)
    ensures ParseAll(opts, st, "c \n" + rest) == ParseAll(opts, st, rest)
  {
    hide ParseAll;
    Feeds(rest);
    RemarkRead(opts, st, " ", "", "", "\n" + rest, rest);
    assert Written(Remark(" ", "", "")) + "\n" == "c \n";
    Associate(Written(Remark(" ", "", "")), "\n", rest);
  }

  lemma SmallRemark(opts: Settings, st: State, rest: string)
    ensures ParseAll(opts, st, "c NETWORK DATA\n" + rest) == ParseAll(opts, st, rest)
  {
    hide *;
    Feeds(rest);
    SmallRemarkText();
    RemarkRead(opts, st, " ", "NETWORK", " DATA", "\n" + rest, rest);
    Associate(Written(Remark(" ", "NETWORK", " DATA")), "\n", rest);
  }

  lemma SmallRemarkText()
    ensures Proper(Remark(" ", "NETWORK", " DATA")) && Written(Remark(" ", "NETWORK", " DATA")) + "\n" == "c NETWORK DATA\n"
  {}

  lemma SmallHeader(opts: Settings, rest: string)
    ensures ParseAll(opts, EMPTY, "p cnf 11 2\n" + rest)
         == ParseAll(opts, EMPTY.(nVars := 11, headerFound := true, headerVars := 11, headerCls := 2), rest)
  {
    hide ParseAll, PrintInt;
    Decimal();
    HeaderRead(opts, EMPTY, 11, 2, "", "\n" + rest, rest);
    assert Written(HeaderLine(11, 2, "")) + "\n" == "p cnf 11 2\n";
    Associate(Written(HeaderLine(11, 2, "")), "\n", rest);
  }

  lemma SmallSampling(opts: Settings, st: State, rest: string)
    ensures ParseAll(opts, st, "c ind 1 6 0\n" + rest)
         == ParseAll(opts, st.(samplingFound := true, samplingVars := st.samplingVars + [0, 5]), rest)
  {
    hide ParseAll, PrintInt, Spaced;
    Decimal();
    Two(1, 6);
    SamplingRead(opts, st, [1, 6], "", "\n" + rest, rest);
    assert Written(SamplingSet([1, 6], "")) + "\n" == "c ind 1 6 0\n" && Variables([1, 6]) == [0, 5];
    Associate(Written(SamplingSet([1, 6], "")), "\n", rest);
  }

  lemma SmallGroup(opts: Settings, st: State, rest: string)
    requires st.headerVars == 11 && st.var2group == [] && st.groups == []
    ensures ParseAll(opts, st, "c grp 1 6 0\n" + rest)
         == ParseAll(opts, st.(var2group := [1, 0, 0, 0, 0, 1, 0, 0, 0, 0, 0], groups := [[], [0, 5]]), rest)
  {
    hide ParseAll, PrintInt, Spaced;
    Decimal();
    Two(1, 6);
    GroupRead(opts, st, [1, 6], "", "\n" + rest, rest);
    assert Written(GroupOf([1, 6], "")) + "\n" == "c grp 1 6 0\n" && Variables([1, 6]) == [0, 5];
    Associate(Written(GroupOf([1, 6], "")), "\n", rest);
    assert PutInto(seq(11, _ => 0), [0, 5], 1) == [1, 0, 0, 0, 0, 1, 0, 0, 0, 0, 0];
    assert st.groups + [[]] == [[]] && [[]] + [[0, 5]] == [[], [0, 5]];
  }

  lemma SmallClause(opts: Settings, st: State, rest: string)
    requires Accepts(opts, st, 11)
    ensures ParseAll(opts, st, "-5 -11 0\n" + rest) == ParseAll(opts, st.(clauses := st.clauses + [[Lit(4, true), Lit(10, true)]]), rest)
  {
    hide ParseAll, PrintInt, Spaced, Room;
    Decimal();
    Two(-5, -11);
    ClauseRead(opts, st, [-5, -11], "", "\n" + rest, rest);
    assert Written(ClauseOf([-5, -11], "")) + "\n" == "-5 -11 0\n" && Variables([-5, -11]) == [4, 10];
    Associate(Written(ClauseOf([-5, -11], "")), "\n", rest);
    assert Literals([-5, -11]) == [Lit(4, true), Lit(10, true)];
    RoomFor(st.nVars, [4, 10]);
  }

  /** The parity of x2 and not x3: their sum is even. */
  lemma SmallParity(opts: Settings, st: State, rest: string)
    requires Accepts(opts, st, 11)
    ensures ParseAll(opts, st, "x2 -3 0\n" + rest) == ParseAll(opts, st.(xors := st.xors + [Xor([1, 2], false)]), rest)
  {
    hide ParseAll, PrintInt, Spaced, Room;
    Decimal();
    Two(2, -3);
    ParityRead(opts, st, [2, -3], "", "\n" + rest, rest);
    assert Written(ParityOf([2, -3], "")) + "\n" == "x2 -3 0\n" && Variables([2, -3]) == [1, 2];
    Associate(Written(ParityOf([2, -3], "")), "\n", rest);
    assert [2, -3][..1] == [2] && [2][..0] == [];
    assert Negatives([2, -3]) == 1;
    RoomFor(st.nVars, [1, 2]);
  }

  /** A small text with every kind of line, the way problems come with remarks in front. */
  lemma SmallText(opts: Settings)
    requires opts.maxVar >= 10
    ensures ParseAll(opts, EMPTY,
                     "c \n" + ("c NETWORK DATA\n" + ("p cnf 11 2\n" + ("c ind 1 6 0\n" + ("c grp 1 6 0\n" + ("-5 -11 0\n" + ("x2 -3 0\n" + "\n")))))))
         == Some(State(11, [[Lit(4, true), Lit(10, true)]], [Xor([1, 2], false)], [0, 5], true,
                       [1, 0, 0, 0, 0, 1, 0, 0, 0, 0, 0], [[], [0, 5]], true, 11, 2))
  {
    hide ParseAll;
    var st := EMPTY.(nVars := 11, headerFound := true, headerVars := 11, headerCls := 2);
    var sampled := st.(samplingFound := true, samplingVars := [0, 5]);
    var grouped := sampled.(var2group := [1, 0, 0, 0, 0, 1, 0, 0, 0, 0, 0], groups := [[], [0, 5]]);
    var claused := grouped.(clauses := [[Lit(4, true), Lit(10, true)]]);
    var end := claused.(xors := [Xor([1, 2], false)]);
    assert st.samplingVars + [0, 5] == [0, 5];
    assert grouped.clauses + [[Lit(4, true), Lit(10, true)]] == [[Lit(4, true), Lit(10, true)]];
    assert claused.xors + [Xor([1, 2], false)] == [Xor([1, 2], false)];
    var parity := "x2 -3 0\n" + "\n";
    var clause := "-5 -11 0\n" + parity;
    var group := "c grp 1 6 0\n" + clause;
    var sampling := "c ind 1 6 0\n" + group;
    NoRemark(opts, EMPTY, "c NETWORK DATA\n" + ("p cnf 11 2\n" + sampling));
    SmallRemark(opts, EMPTY, "p cnf 11 2\n" + sampling);
    SmallHeader(opts, sampling);
    SmallSampling(opts, st, group);
    SmallGroup(opts, sampled, clause);
    SmallClause(opts, grouped, parity);
    SmallParity(opts, claused, "\n");
    EmptyRead(opts, end, "\n" + "", "");
    assert "\n" + "" == "\n";
    ParseEnd(opts, end);
  }
}
