/** What a text in the grouped DIMACS format says, line by line, and that the parser reads it so. */
module Lines {
  import opened Seqs
  import opened Logic
  import opened Text
  import opened Dimacs

  /** A line as it may be written. `tail` is whatever follows what the line says, `blanks` are just blanks; a remark starts
      with a word that means nothing to the parser, or has none. */
  datatype Source =
    | HeaderLine(vars: int, cls: int, tail: string)
    | SamplingSet(numbers: seq<int>, tail: string)
    | GroupOf(numbers: seq<int>, tail: string)
    | Remark(blanks: string, word: string, tail: string)
    | EmptyLine
    | ClauseOf(numbers: seq<int>, blanks: string)
    | ParityOf(numbers: seq<int>, crs: string)

  /** The numbers with a blank after each. */
  function Spaced(ns: seq<int>): string {
    if ns == [] then "" else PrintInt(ns[0]) + " " + Spaced(ns[1..])
  }

  /** The line without its end. */
  function Written(l: Source): string {
    match l
    case HeaderLine(vars, cls, tail) => "p cnf " + PrintInt(vars) + " " + PrintInt(cls) + tail
    case SamplingSet(ns, tail) => "c ind " + Spaced(ns) + "0" + tail
    case GroupOf(ns, tail) => "c grp " + Spaced(ns) + "0" + tail
    case Remark(blanks, word, tail) => "c" + blanks + word + tail
    case EmptyLine => ""
    case ClauseOf(ns, blanks) => Spaced(ns) + "0" + blanks
    case ParityOf(ns, crs) => "x" + Spaced(ns) + "0" + crs
  }

  /** Nonzero numbers of 32 bits. */
  ghost predicate Listable(ns: seq<int>) {
    forall i :: 0 <= i < |ns| ==> ns[i] != 0 && -0x7fff_ffff <= ns[i] <= 0x7fff_ffff
  }

  ghost predicate Blank(s: string) {
    forall i :: 0 <= i < |s| ==> s[i] == ' ' || s[i] == '\t' || s[i] == '\r'
  }

  ghost predicate InLine(s: string) {
    forall i :: 0 <= i < |s| ==> s[i] != '\n' && s[i] != '\0'
  }

  ghost predicate Proper(l: Source) {
    match l
    case HeaderLine(vars, cls, tail) =>
      -0x7fff_ffff <= vars <= 0x7fff_ffff && -0x7fff_ffff <= cls <= 0x7fff_ffff && InLine(tail) && NoDigitNext(tail)
    case SamplingSet(ns, tail) => Listable(ns) && InLine(tail) && NoDigitNext(tail)
    case GroupOf(ns, tail) => Listable(ns) && InLine(tail) && NoDigitNext(tail)
    case Remark(blanks, word, tail) =>
      && Blank(blanks) && (forall i :: 0 <= i < |word| ==> word[i] != ' ' && word[i] != '\n')
      && (if word == "" then tail == "" else word[0] != '\t' && word[0] != '\r')
      && word != "ind" && word != "grp" && InLine(tail) && (tail == "" || tail[0] == ' ')
    case EmptyLine => true
    case ClauseOf(ns, blanks) => Listable(ns) && Blank(blanks)
    case ParityOf(ns, crs) => Listable(ns) && forall i :: 0 <= i < |crs| ==> crs[i] == '\r'
  }

  // ---- meaning ----

  /** The variables that are named, counted from zero. */
  function Variables(ns: seq<int>): (vs: seq<nat>)
    requires forall i :: 0 <= i < |ns| ==> ns[i] != 0
  {
    seq(|ns|, i requires 0 <= i < |ns| => if ns[i] < 0 then -ns[i] - 1 else ns[i] - 1)
  }

  /** The literals; a negative number is a negated one. */
  function Literals(ns: seq<int>): (ls: Clause)
    requires forall i :: 0 <= i < |ns| ==> ns[i] != 0
  {
    seq(|ns|, i requires 0 <= i < |ns| => Lit(if ns[i] < 0 then -ns[i] - 1 else ns[i] - 1, ns[i] < 0))
  }

  /** A variable that a clause may name. */
  predicate Admitted(opts: Settings, st: State, v: nat) {
    v <= opts.maxVar && v < 0x1000_0000 && (opts.strict ==> st.headerFound && v < st.headerVars)
  }

  /** Room for n variables and for all of vs. */
  function Room(n: nat, vs: seq<nat>): (r: nat)
    ensures n <= r && (forall v :: v in vs ==> v < r) && (r == n || (r > 0 && r - 1 in vs))
  {
    if vs == [] then n
    else
      var r := Room(n, vs[..|vs| - 1]);
      assert forall v :: v in vs ==> v in vs[..|vs| - 1] || v == vs[|vs| - 1];
      if vs[|vs| - 1] < r then r else vs[|vs| - 1] + 1
  }

  /** What a line makes of the problem read so far; None if it is rejected. */
  ghost function Meaning(opts: Settings, st: State, l: Source): Option<State>
    requires Proper(l)
  {
    match l
    case HeaderLine(vars, cls, _) =>
      if (opts.strict && st.headerFound) || vars < 0 || cls < 0 then None
      else Some(st.(nVars := if st.nVars < vars then vars else st.nVars, headerFound := true, headerVars := vars, headerCls := cls))
    case SamplingSet(ns, _) => Some(st.(samplingFound := true, samplingVars := st.samplingVars + Variables(ns)))
    case GroupOf(ns, _) =>
      var table := if st.var2group == [] then seq(st.headerVars, _ => 0) else st.var2group;
      var before := if st.var2group == [] then st.groups + [[]] else st.groups;
      var vs := Variables(ns);
      if exists v :: v in vs && v >= |table| then None
      else Some(st.(var2group := PutInto(table, vs, |before|), groups := before + [vs]))
    case Remark(_, _, _) => Some(st)
    case EmptyLine => Some(st)
    case ClauseOf(ns, _) =>
      if exists v :: v in Variables(ns) && !Admitted(opts, st, v) then None
      else Some(st.(nVars := Room(st.nVars, Variables(ns)), clauses := st.clauses + [Literals(ns)]))
    case ParityOf(ns, _) =>
      if exists v :: v in Variables(ns) && !Admitted(opts, st, v) then None
      else if ns == [] then Some(st)
      else Some(st.(nVars := Room(st.nVars, Variables(ns)), xors := st.xors + [Xor(Variables(ns), Negatives(ns) % 2 == 0)]))
  }

  /** Going on after a line. */
  function Onward(opts: Settings, r: Option<State>, rest: string): Option<State> {
    if r.None? then None else ParseAll(opts, r.value, rest)
  }

  function Negatives(ns: seq<int>): nat {
    if ns == [] then 0 else Negatives(ns[..|ns| - 1]) + if ns[|ns| - 1] < 0 then 1 else 0
  }

  // ---- numbers ----

  lemma SpacedFirst(ns: seq<int>, rest: string)
    requires ns != []
    ensures Spaced(ns) + rest == PrintInt(ns[0]) + (" " + (Spaced(ns[1..]) + rest))
  {}

  lemma FirstOver<T>(xs: seq<T>, ys: seq<T>)
    requires ys != []
    ensures xs + [ys[0]] + ys[1..] == xs + ys
  {}

  lemma VariablesRest(ns: seq<int>)
    requires ns != [] && Listable(ns)
    ensures Listable(ns[1..]) && Variables(ns) == [Variables(ns)[0]] + Variables(ns[1..])
    ensures Literals(ns) == [Literals(ns)[0]] + Literals(ns[1..])
    ensures Variables(ns)[0] == Magnitude(ns[0]) - 1
  {}

  /** The zero that ends a list. */
  lemma ZeroPrinted(rest: string)
    requires NoDigitNext(rest)
    ensures ParseInt(Spaced([]) + ("0" + rest)) == Got(0, rest)
  {
    ParsePrinted(0, rest);
    assert Spaced([]) + ("0" + rest) == PrintInt(0) + rest;
  }

  lemma {:induction false} NumbersPrinted(ns: seq<int>, rest: string)
    requires Listable(ns) && NoDigitNext(rest)
    ensures NumberList(Spaced(ns) + ("0" + rest)) == Got(Variables(ns), rest)
    decreases |ns|
  {
    if ns == [] {
      ZeroPrinted(rest);
      assert Variables(ns) == [];
    } else {
      var more := Spaced(ns[1..]) + ("0" + rest);
      SpacedFirst(ns, "0" + rest);
      ParsePrinted(ns[0], " " + more);
      VariablesRest(ns);
      NumbersPrinted(ns[1..], rest);
      NumbersAfterBlank(more);
    }
  }

  lemma NumbersAfterBlank(s: string)
    ensures NumberList(" " + s) == NumberList(s)
  {
    ParseAfterBlank(s);
  }

  lemma ReadAfterBlank(opts: Settings, st: State, s: string, lits: Clause)
    ensures ReadClause(opts, st, " " + s, lits) == ReadClause(opts, st, s, lits)
  {
    ParseAfterBlank(s);
  }

  lemma CheckedVariable(opts: Settings, st: State, v: nat)
    ensures CheckVar(opts, st, v) == if Admitted(opts, st, v) then Some(st.(nVars := Room(st.nVars, [v]))) else None
  {
    assert [v][..0] == [];
  }

  lemma {:induction false} RoomFirst(n: nat, v: nat, vs: seq<nat>)
    ensures Room(n, [v] + vs) == Room(Room(n, [v]), vs)
  {
    if vs == [] {
      assert [v] + vs == [v];
    } else {
      assert ([v] + vs)[..|vs|] == [v] + vs[..|vs| - 1];
      RoomFirst(n, v, vs[..|vs| - 1]);
    }
  }

  /** One literal and the blank after it. */
  lemma ReadOne(opts: Settings, st: State, n: int, v: nat, lits: Clause, more: string)
    requires n != 0 && v == Magnitude(n) - 1 && -0x7fff_ffff <= n <= 0x7fff_ffff
    ensures ReadClause(opts, st, PrintInt(n) + (" " + more), lits)
         == if Admitted(opts, st, v) then ReadClause(opts, st.(nVars := Room(st.nVars, [v])), more, lits + [Lit(v, n < 0)]) else Fail
  {
    hide ParseInt, CheckVar, PrintInt, Admitted, Room;
    ParsePrinted(n, " " + more);
    CheckedVariable(opts, st, v);
    if Admitted(opts, st, v) { ReadAfterBlank(opts, st.(nVars := Room(st.nVars, [v])), more, lits + [Lit(v, n < 0)]); }
  }

  lemma ReadNone(opts: Settings, st: State, lits: Clause, rest: string)
    requires NoDigitNext(rest)
    ensures ReadClause(opts, st, Spaced([]) + ("0" + rest), lits) == Got((st, lits), rest)
  {
    hide ParseInt, Spaced;
    ZeroPrinted(rest);
  }

  /** What reading the literals of a line comes to. */
  ghost function LiteralsRead(opts: Settings, st: State, ns: seq<int>, lits: Clause, end: string): Parse<(State, Clause)>
    requires Listable(ns)
  {
    if exists v :: v in Variables(ns) && !Admitted(opts, st, v) then Fail
    else Got((st.(nVars := Room(st.nVars, Variables(ns))), lits + Literals(ns)), end)
  }

  lemma ReadNext(opts: Settings, st: State, ns: seq<int>, v: nat, lits: Clause, end: string)
    requires ns != [] && Listable(ns) && v == Magnitude(ns[0]) - 1
    ensures Listable(ns[1..])
    ensures LiteralsRead(opts, st, ns, lits, end)
         == if Admitted(opts, st, v) then LiteralsRead(opts, st.(nVars := Room(st.nVars, [v])), ns[1..], lits + [Lit(v, ns[0] < 0)], end)
            else Fail
  {
    hide Variables, Literals, Admitted, Room;
    VariablesRest(ns);
    FirstLiteral(ns);
    assert v in Variables(ns) && forall w :: w in Variables(ns) <==> w == v || w in Variables(ns[1..]);
    if Admitted(opts, st, v) {
      SameAdmitted(opts, st, st.(nVars := Room(st.nVars, [v])));
      RoomFirst(st.nVars, v, Variables(ns[1..]));
      assert lits + [Literals(ns)[0]] + Literals(ns[1..]) == lits + Literals(ns);
    }
  }

  /** A list of literals is read, unless one of them is not admitted. */
  lemma {:induction false} LiteralsPrinted(opts: Settings, st: State, ns: seq<int>, lits: Clause, rest: string)
    requires Listable(ns) && NoDigitNext(rest)
    ensures ReadClause(opts, st, Spaced(ns) + ("0" + rest), lits) == LiteralsRead(opts, st, ns, lits, rest)
    decreases |ns|
  {
    hide ReadClause, PrintInt, Admitted, Room, Spaced;
    if ns == [] {
      NothingNamed(st.nVars);
      ReadNone(opts, st, lits, rest);
      assert lits + [] == lits;
    } else {
      hide LiteralsRead;
      var v := Magnitude(ns[0]) - 1;
      SpacedFirst(ns, "0" + rest);
      ReadOne(opts, st, ns[0], v, lits, Spaced(ns[1..]) + ("0" + rest));
      ReadNext(opts, st, ns, v, lits, rest);
      if Admitted(opts, st, v) {
        LiteralsPrinted(opts, st.(nVars := Room(st.nVars, [v])), ns[1..], lits + [Lit(v, ns[0] < 0)], rest);
      }
    }
  }

  lemma NothingNamed(n: nat)
    ensures Variables([]) == [] && Literals([]) == [] && Room(n, []) == n
  {}

  lemma FirstLiteral(ns: seq<int>)
    requires ns != [] && Listable(ns)
    ensures |Literals(ns)| == |ns| && Literals(ns)[0] == Lit(Magnitude(ns[0]) - 1, ns[0] < 0)
  {}

  lemma SameAdmitted(opts: Settings, st: State, st': State)
    requires st.headerFound == st'.headerFound && st.headerVars == st'.headerVars
    ensures forall v :: Admitted(opts, st, v) <==> Admitted(opts, st', v)
  {}

  lemma LiteralVariables(ns: seq<int>)
    requires Listable(ns)
    ensures LitVars(Literals(ns)) == Variables(ns)
  {}

  lemma {:induction false} SignsOf(ns: seq<int>)
    requires Listable(ns)
    ensures RightHandSide(Literals(ns)) <==> Negatives(ns) % 2 == 0
  {
    if ns != [] {
      var k := |ns| - 1;
      assert Literals(ns)[..k] == Literals(ns[..k]);
      SignsOf(ns[..k]);
    }
  }

  // ---- lines ----

  lemma {:induction false} BlanksSkipped(blanks: string, s: string)
    requires Blank(blanks)
    ensures SkipSpace(blanks + s) == SkipSpace(s)
  {
    if blanks == "" {
      assert blanks + s == s;
    } else {
      assert (blanks + s)[1..] == blanks[1..] + s;
      BlanksSkipped(blanks[1..], s);
    }
  }

  /** Blanks at the start of a line make no difference. */
  lemma IndentRead(opts: Settings, st: State, blanks: string, s: string)
    requires Blank(blanks)
    ensures ParseAll(opts, st, blanks + s) == ParseAll(opts, st, s)
  {
    BlanksSkipped(blanks, s);
  }

  /** The end of a line, before `rest`: a line feed, or the end of the text. */
  ghost predicate Ends(eol: string, rest: string) {
    eol == "\n" + rest || (eol == "" && rest == "")
  }

  lemma LineSkipped(tail: string, eol: string, rest: string)
    requires InLine(tail) && Ends(eol, rest)
    ensures SkipLine(tail + eol) == rest
  {
    if eol == "" {
      TextSkipped(tail);
      assert tail + eol == tail;
    } else {
      SkipLinePrinted(tail, rest);
      assert tail + eol == tail + "\n" + rest;
    }
  }

  lemma {:induction false} TextSkipped(tail: string)
    requires InLine(tail)
    ensures SkipLine(tail) == ""
  {
    if tail != "" { TextSkipped(tail[1..]); }
  }

  lemma EolSkipped(eol: string, rest: string)
    requires Ends(eol, rest)
    ensures SkipEol(eol) == Got((), rest) && SkipSpace(eol) == eol && NoDigitNext(eol)
  {
    if eol != "" { assert eol[1..] == rest; }
  }

  lemma {:induction false} ReturnsSkipped(crs: string, s: string)
    requires forall i :: 0 <= i < |crs| ==> crs[i] == '\r'
    ensures SkipEol(crs + s) == SkipEol(s)
  {
    if crs == "" {
      assert crs + s == s;
    } else {
      assert (crs + s)[1..] == crs[1..] + s;
      ReturnsSkipped(crs[1..], s);
    }
  }

  lemma TailEnd(tail: string, eol: string, rest: string)
    requires Ends(eol, rest) && NoDigitNext(tail)
    ensures NoDigitNext(tail + eol)
  {
    if tail == "" { assert tail + eol == eol; }
  }

  /** The word of a line, after its first letter. */
  lemma WordAfter(blanks: string, word: string, rest: string)
    requires Blank(blanks) && forall i :: 0 <= i < |word| ==> word[i] != ' ' && word[i] != '\n'
    requires rest == "" || rest[0] == '\n' || (rest[0] == ' ' && word != "")
    requires word != "" ==> !IsSpace(word[0])
    ensures ParseString(blanks + (word + rest)) == (word, rest) && ParseString(SkipSpace(blanks + (word + rest))) == (word, rest)
  {
    BlanksSkipped(blanks, word + rest);
    if word == "" { assert word + rest == rest; }
    assert SkipSpace(word + rest) == word + rest;
    WordPrinted(word, rest);
  }

  /** A line that does not start with a blank is parsed, then the rest. */
  lemma LineThenRest(opts: Settings, st: State, s: string, r: Parse<State>)
    requires s != [] && !IsSpace(s[0]) && Line(opts, st, s) == r
    ensures ParseAll(opts, st, s) == if r.Fail? then None else ParseAll(opts, r.value, r.rest)
  {
    assert SkipSpace(s) == s;
  }

  /** A comment line goes on after its tail, as far as what it says is accepted. */
  lemma CommentThenRest(opts: Settings, st: State, s: string, r: Parse<State>, tail: string, eol: string, rest: string)
    requires s != [] && s[0] == 'c' && InLine(tail) && Ends(eol, rest) && Comment(st, s[1..]) == Skipping(r)
    requires r.Got? ==> r.rest == tail + eol
    ensures ParseAll(opts, st, s) == if r.Fail? then None else ParseAll(opts, r.value, rest)
  {
    LineSkipped(tail, eol, rest);
    LineThenRest(opts, st, s, Skipping(r));
  }

  function Skipping(r: Parse<State>): Parse<State> {
    match r
    case Fail => Fail
    case Got(st, rest) => Got(st, SkipLine(rest))
  }

  lemma RemarkRead(opts: Settings, st: State, blanks: string, word: string, tail: string, eol: string, rest: string)
    requires Proper(Remark(blanks, word, tail)) && Ends(eol, rest)
    ensures ParseAll(opts, st, Written(Remark(blanks, word, tail)) + eol) == ParseAll(opts, st, rest)
  {
    hide ParseAll, Line, SkipLine, Word;
    var s, end := Written(Remark(blanks, word, tail)) + eol, tail + eol;
    assert s[1..] == blanks + (word + end);
    assert tail == "" ==> end == eol;
    WordAfter(blanks, word, end);
    CommentThenRest(opts, st, s, Got(st, end), tail, eol, rest);
  }

  lemma EmptyRead(opts: Settings, st: State, eol: string, rest: string)
    requires Ends(eol, rest)
    ensures ParseAll(opts, st, eol) == ParseAll(opts, st, rest)
  {
    if eol != "" {
      assert eol[1..] == rest;
      LineThenRest(opts, st, eol, Got(st, rest));
    }
  }

  lemma SamplingRead(opts: Settings, st: State, ns: seq<int>, tail: string, eol: string, rest: string)
    requires Proper(SamplingSet(ns, tail)) && Ends(eol, rest)
    ensures ParseAll(opts, st, Written(SamplingSet(ns, tail)) + eol)
         == ParseAll(opts, st.(samplingFound := true, samplingVars := st.samplingVars + Variables(ns)), rest)
  {
    hide ParseAll, Line, SkipLine, Word, NumberList, IndependentSet, Variables, PrintInt, Spaced;
    var s, end := Written(SamplingSet(ns, tail)) + eol, tail + eol;
    var numbers := Spaced(ns) + ("0" + end);
    assert s[1..] == " " + ("ind" + (" " + numbers));
    WordAfter(" ", "ind", " " + numbers);
    NumbersAfterBlank(numbers);
    TailEnd(tail, eol, rest);
    NumbersPrinted(ns, end);
    SamplingLine(st.(samplingFound := true), " " + numbers);
    CommentThenRest(opts, st, s, IndependentSet(st.(samplingFound := true), " " + numbers), tail, eol, rest);
  }

  lemma GroupRead(opts: Settings, st: State, ns: seq<int>, tail: string, eol: string, rest: string)
    requires Proper(GroupOf(ns, tail)) && Ends(eol, rest)
    ensures ParseAll(opts, st, Written(GroupOf(ns, tail)) + eol) == Onward(opts, Meaning(opts, st, GroupOf(ns, tail)), rest)
  {
    hide ParseAll, Line, SkipLine, Word, NumberList, GroupMembers, Variables, PrintInt, Spaced;
    var s, end := Written(GroupOf(ns, tail)) + eol, tail + eol;
    var numbers, t := Spaced(ns) + ("0" + end), WithTables(st);
    assert s[1..] == " " + ("grp" + (" " + numbers));
    WordAfter(" ", "grp", " " + numbers);
    NumbersAfterBlank(numbers);
    TailEnd(tail, eol, rest);
    NumbersPrinted(ns, end);
    MembersInside(t, " " + numbers, |t.groups|, []);
    assert [] + Variables(ns) == Variables(ns);
    CommentThenRest(opts, st, s, VariableGroup(st, " " + numbers), tail, eol, rest);
  }

  lemma SizesRead(st: State, vars: int, cls: int, end: string)
    requires -0x7fff_ffff <= vars <= 0x7fff_ffff && -0x7fff_ffff <= cls <= 0x7fff_ffff && NoDigitNext(end)
    ensures HeaderSizes(st, " " + (PrintInt(vars) + (" " + (PrintInt(cls) + end))))
         == if vars < 0 || cls < 0 then Fail
            else Got(st.(nVars := if st.nVars < vars then vars else st.nVars,
                         headerFound := true, headerVars := vars, headerCls := cls), end)
  {
    ParseAfterBlank(PrintInt(vars) + (" " + (PrintInt(cls) + end)));
    ParsePrinted(vars, " " + (PrintInt(cls) + end));
    ParseAfterBlank(PrintInt(cls) + end);
    ParsePrinted(cls, end);
  }

  lemma HeaderRead(opts: Settings, st: State, vars: int, cls: int, tail: string, eol: string, rest: string)
    requires Proper(HeaderLine(vars, cls, tail)) && Ends(eol, rest)
    ensures ParseAll(opts, st, Written(HeaderLine(vars, cls, tail)) + eol)
         == Onward(opts, Meaning(opts, st, HeaderLine(vars, cls, tail)), rest)
  {
    hide ParseAll, SkipLine, Word, PrintInt, HeaderSizes;
    var s, end := Written(HeaderLine(vars, cls, tail)) + eol, tail + eol;
    var sizes := " " + (PrintInt(vars) + (" " + (PrintInt(cls) + end)));
    HeaderParts(vars, cls, tail, eol);
    WordAfter(" ", "cnf", sizes);
    TailEnd(tail, eol, rest);
    SizesRead(st, vars, cls, end);
    LineSkipped(tail, eol, rest);
    LineThenRest(opts, st, s, Line(opts, st, s));
  }

  lemma HeaderParts(vars: int, cls: int, tail: string, eol: string)
    ensures var s := Written(HeaderLine(vars, cls, tail)) + eol;
            s != [] && s[0] == 'p' && s[1..] == " " + ("cnf" + (" " + (PrintInt(vars) + (" " + (PrintInt(cls) + (tail + eol))))))
  {
    hide PrintInt;
    Five("p cnf ", PrintInt(vars), " ", PrintInt(cls), tail + eol);
    assert Written(HeaderLine(vars, cls, tail)) + eol == "p cnf " + PrintInt(vars) + " " + PrintInt(cls) + (tail + eol);
    var more := PrintInt(vars) + (" " + (PrintInt(cls) + (tail + eol)));
    assert ("p cnf " + more)[1..] == " " + ("cnf" + (" " + more));
  }

  lemma Five(a: string, b: string, c: string, d: string, e: string)
    ensures a + b + c + d + e == a + (b + (c + (d + e)))
  {}

  lemma SpacedStart(ns: seq<int>)
    ensures var s := Spaced(ns) + "0"; s != [] && (s[0] == '-' || IsDigit(s[0]))
  {
    if ns != [] { assert Spaced(ns)[0] == PrintInt(ns[0])[0]; }
  }

  lemma ClauseShape(ns: seq<int>, blanks: string, eol: string)
    ensures var s := Written(ClauseOf(ns, blanks)) + eol;
            s == Spaced(ns) + ("0" + (blanks + eol)) && s != [] && (s[0] == '-' || IsDigit(s[0]))
  {
    hide Spaced, IsDigit;
    SpacedStart(ns);
    Four(Spaced(ns), "0", blanks, eol);
    assert (Spaced(ns) + "0" + blanks + eol)[0] == (Spaced(ns) + "0")[0];
  }

  lemma Four(a: string, b: string, c: string, d: string)
    ensures a + b + c + d == a + (b + (c + d))
  {}

  /** The line as a clause. */
  lemma ClauseMeans(opts: Settings, st: State, s: string, ns: seq<int>, blanks: string, end: string, rest: string)
    requires Proper(ClauseOf(ns, blanks)) && s != [] && (s[0] == '-' || IsDigit(s[0]))
    requires ReadClause(opts, st, s, []) == LiteralsRead(opts, st, ns, [], end) && SkipEol(SkipSpace(end)) == Got((), rest)
    ensures ParseAll(opts, st, s) == Onward(opts, Meaning(opts, st, ClauseOf(ns, blanks)), rest)
  {
    hide ParseAll, ReadClause, Variables, Literals, Admitted, Room, SkipSpace;
    assert [] + Literals(ns) == Literals(ns);
    LineThenRest(opts, st, s, ClauseLine(opts, st, s));
  }

  lemma ClauseRead(opts: Settings, st: State, ns: seq<int>, blanks: string, eol: string, rest: string)
    requires Proper(ClauseOf(ns, blanks)) && Ends(eol, rest)
    ensures ParseAll(opts, st, Written(ClauseOf(ns, blanks)) + eol) == Onward(opts, Meaning(opts, st, ClauseOf(ns, blanks)), rest)
  {
    hide ParseAll, ReadClause, LiteralsRead, Written, Spaced, SkipSpace, SkipEol, Meaning, NoDigitNext, Onward;
    ClauseShape(ns, blanks, eol);
    BlankTail(blanks);
    TailEnd(blanks, eol, rest);
    LiteralsPrinted(opts, st, ns, [], blanks + eol);
    BlanksSkipped(blanks, eol);
    EolSkipped(eol, rest);
    ClauseMeans(opts, st, Written(ClauseOf(ns, blanks)) + eol, ns, blanks, blanks + eol, rest);
  }

  lemma BlankTail(blanks: string)
    requires Blank(blanks)
    ensures NoDigitNext(blanks)
  {}

  lemma ParityShape(ns: seq<int>, crs: string, eol: string)
    ensures var s := Written(ParityOf(ns, crs)) + eol; s != [] && s[0] == 'x' && s[1..] == Spaced(ns) + ("0" + (crs + eol))
  {
    hide Spaced;
    Five("x", Spaced(ns), "0", crs, eol);
    assert ("x" + (Spaced(ns) + ("0" + (crs + eol))))[1..] == Spaced(ns) + ("0" + (crs + eol));
  }

  /** The line as a parity constraint. */
  lemma ParityMeans(opts: Settings, st: State, s: string, ns: seq<int>, crs: string, end: string, rest: string)
    requires Proper(ParityOf(ns, crs)) && s != [] && s[0] == 'x'
    requires ReadClause(opts, st, s[1..], []) == LiteralsRead(opts, st, ns, [], end) && SkipEol(end) == Got((), rest)
    ensures ParseAll(opts, st, s) == Onward(opts, Meaning(opts, st, ParityOf(ns, crs)), rest)
  {
    hide ParseAll, ReadClause, Admitted, Room, RightHandSide, LitVars, Variables, Literals, Negatives;
    assert [] + Literals(ns) == Literals(ns);
    LiteralVariables(ns);
    SignsOf(ns);
    SameLength(ns);
    if ns == [] { NothingNamed(st.nVars); }
    LineThenRest(opts, st, s, XorLine(opts, st, s[1..]));
  }

  lemma ParityRead(opts: Settings, st: State, ns: seq<int>, crs: string, eol: string, rest: string)
    requires Proper(ParityOf(ns, crs)) && Ends(eol, rest)
    ensures ParseAll(opts, st, Written(ParityOf(ns, crs)) + eol) == Onward(opts, Meaning(opts, st, ParityOf(ns, crs)), rest)
  {
    hide ParseAll, ReadClause, LiteralsRead, Written, Spaced, SkipEol, Meaning, Onward;
    ParityShape(ns, crs, eol);
    TailEnd(crs, eol, rest);
    LiteralsPrinted(opts, st, ns, [], crs + eol);
    ReturnsSkipped(crs, eol);
    EolSkipped(eol, rest);
    ParityMeans(opts, st, Written(ParityOf(ns, crs)) + eol, ns, crs, crs + eol, rest);
  }

  lemma SameLength(ns: seq<int>)
    requires Listable(ns)
    ensures |Literals(ns)| == |ns|
  {}

  /** A line means what it says, whatever follows it. */
  lemma LineRead(opts: Settings, st: State, l: Source, eol: string, rest: string)
    requires Proper(l) && Ends(eol, rest)
    ensures ParseAll(opts, st, Written(l) + eol) == Onward(opts, Meaning(opts, st, l), rest)
  {
    hide ParseAll, Written;
    match l
    case HeaderLine(vars, cls, tail) => HeaderRead(opts, st, vars, cls, tail, eol, rest);
    case SamplingSet(ns, tail) => SamplingRead(opts, st, ns, tail, eol, rest);
    case GroupOf(ns, tail) => GroupRead(opts, st, ns, tail, eol, rest);
    case Remark(blanks, word, tail) => RemarkRead(opts, st, blanks, word, tail, eol, rest);
    case EmptyLine =>
      EmptyWritten(eol);
      EmptyRead(opts, st, eol, rest);
    case ClauseOf(ns, blanks) => ClauseRead(opts, st, ns, blanks, eol, rest);
    case ParityOf(ns, crs) => ParityRead(opts, st, ns, crs, eol, rest);
  }

  lemma EmptyWritten(eol: string)
    ensures Written(EmptyLine) + eol == eol
  {}

  /** The lines, each ended by a line feed; the last one only if `closed`. */
  function Page(ls: seq<Source>, closed: bool): string {
    if ls == [] then ""
    else if |ls| == 1 && !closed then Written(ls[0])
    else Written(ls[0]) + ("\n" + Page(ls[1..], closed))
  }

  /** What a text says: line after line, until one is rejected. */
  ghost function Sense(opts: Settings, st: State, ls: seq<Source>): Option<State>
    requires forall i :: 0 <= i < |ls| ==> Proper(ls[i])
    decreases |ls|
  {
    if ls == [] then Some(st)
    else
      var r := Meaning(opts, st, ls[0]);
      if r.None? then None else Sense(opts, r.value, ls[1..])
  }

  /** The parser reads what the text says. */
  lemma {:induction false} PageRead(opts: Settings, st: State, ls: seq<Source>, closed: bool)
    requires forall i :: 0 <= i < |ls| ==> Proper(ls[i])
    ensures ParseAll(opts, st, Page(ls, closed)) == Sense(opts, st, ls)
    decreases |ls|
  {
    hide Written, Meaning;
    if ls != [] {
      var last := |ls| == 1 && !closed;
      var rest := if last then "" else Page(ls[1..], closed);
      LineRead(opts, st, ls[0], if last then "" else "\n" + rest, rest);
      assert Written(ls[0]) + "" == Written(ls[0]);
      var r := Meaning(opts, st, ls[0]);
      if r.Some? { PageRead(opts, r.value, ls[1..], closed); }
      assert last ==> ls[1..] == [];
    }
  }

  // ---- single lines ----

  /** A comment line that starts with any other word than the two that mean something is skipped, whatever it says. */
  lemma RemarkSkipped(opts: Settings, st: State, word: string, line: string, rest: string)
    requires word != "" && word != "ind" && word != "grp" && word[0] != '\t' && word[0] != '\r'
    requires forall i :: 0 <= i < |word| ==> word[i] != ' ' && word[i] != '\n'
    requires forall i :: 0 <= i < |line| ==> line[i] != '\n' && line[i] != '\0'
    ensures ParseAll(opts, st, "c " + word + " " + line + "\n" + rest) == ParseAll(opts, st, rest)
    ensures ParseAll(opts, st, "c " + word + "\n" + rest) == ParseAll(opts, st, rest)
  {
    hide *;
    var tail := " " + line;
    AnyRemark(word, line);
    Feeds(rest);
    RemarkText(word, tail);
    RemarkText(word, "");
    RemarkRead(opts, st, " ", word, tail, "\n" + rest, rest);
    RemarkRead(opts, st, " ", word, "", "\n" + rest, rest);
    Regroup("c " + word, " ", line, "\n", rest);
    Regroup("c ", word, "", "\n", rest);
  }

  lemma AnyRemark(word: string, line: string)
    requires word != "" && word != "ind" && word != "grp" && word[0] != '\t' && word[0] != '\r'
    requires forall i :: 0 <= i < |word| ==> word[i] != ' ' && word[i] != '\n'
    requires forall i :: 0 <= i < |line| ==> line[i] != '\n' && line[i] != '\0'
    ensures Proper(Remark(" ", word, " " + line)) && Proper(Remark(" ", word, ""))
  {}

  lemma Feeds(rest: string)
    ensures Ends("\n" + rest, rest)
  {}

  lemma RemarkText(word: string, tail: string)
    ensures Written(Remark(" ", word, tail)) == "c " + word + tail
  {}

  lemma Regroup(a: string, b: string, c: string, d: string, e: string)
    ensures a + (b + c) + (d + e) == a + b + c + d + e
    ensures a + b + (d + e) == a + b + d + e
    ensures a + (b + c) == a + b + c
    ensures c == "" ==> a + b + c == a + b
  {}

  /** So are comment lines without a word, and empty lines. */
  lemma NothingSaid(opts: Settings, st: State, rest: string)
    ensures ParseAll(opts, st, "c\n" + rest) == ParseAll(opts, st, "c \n" + rest) == ParseAll(opts, st, "\n" + rest)
         == ParseAll(opts, st, rest)
  {
    hide ParseAll;
    RemarkRead(opts, st, "", "", "", "\n" + rest, rest);
    RemarkRead(opts, st, " ", "", "", "\n" + rest, rest);
    EmptyRead(opts, st, "\n" + rest, rest);
    assert Written(Remark("", "", "")) + ("\n" + rest) == "c\n" + rest;
    assert Written(Remark(" ", "", "")) + ("\n" + rest) == "c \n" + rest;
  }

  /** A clause of one literal: which variables are accepted, and what it adds. */
  lemma OneLiteral(opts: Settings, st: State, l: Lit, rest: string)
    requires l.v < 0x7fff_ffff
    ensures ParseAll(opts, st, PrintInt(if l.sign then -(l.v + 1) else l.v + 1) + " 0\n" + rest)
         == if l.v > opts.maxVar || l.v >= 0x1000_0000 || (opts.strict && !(st.headerFound && l.v < st.headerVars)) then None
            else ParseAll(opts, st.(nVars := if l.v < st.nVars then st.nVars else l.v + 1, clauses := st.clauses + [[l]]), rest)
  {
    hide ParseAll, PrintInt, Spaced;
    var n := if l.sign then -(l.v + 1) else l.v + 1;
    ClauseRead(opts, st, [n], "", "\n" + rest, rest);
    assert Variables([n]) == [l.v] && Literals([n]) == [l];
    assert [l.v][..0] == [];
    SpacedOne(n);
    assert Written(ClauseOf([n], "")) + ("\n" + rest) == PrintInt(n) + " 0\n" + rest;
    assert l.v in Variables([n]);
  }

  lemma SpacedOne(n: int)
    ensures Spaced([n]) == PrintInt(n) + " "
  {
    assert Spaced([n]) == PrintInt(n) + " " + Spaced([]);
  }

  /** An `x` line over variables of the problem adds one constraint, which an assignment meets exactly when an odd number of
      the line's literals is true. */
  lemma ParityLine(opts: Settings, st: State, ns: seq<int>, rest: string) returns (x: Xor)
    requires ns != [] && forall i :: 0 <= i < |ns| ==> ns[i] != 0 && ns[i] <= st.nVars && 0 <= ns[i] + st.nVars
    requires st.nVars <= 0x1000_0000 && st.nVars <= opts.maxVar + 1 && (opts.strict ==> st.headerFound && st.nVars <= st.headerVars)
    ensures ParseAll(opts, st, "x" + Spaced(ns) + "0\n" + rest) == ParseAll(opts, st.(xors := st.xors + [x]), rest)
    ensures forall a: Assignment :: |a| == st.nVars ==>
              (Simplification.Parity(x.vars, a) == x.rhs <==> TrueCount(Literals(ns), a) % 2 == 1)
  {
    hide ParseAll, Spaced, TrueCount, Simplification.Parity, RightHandSide, Room, Negatives;
    x := Xor(Variables(ns), Negatives(ns) % 2 == 0);
    ParityRead(opts, st, ns, "", "\n" + rest, rest);
    RoomFor(st.nVars, Variables(ns));
    assert Written(ParityOf(ns, "")) + ("\n" + rest) == "x" + Spaced(ns) + "0\n" + rest;
    LiteralVariables(ns);
    SignsOf(ns);
    forall a: Assignment | |a| == st.nVars
      ensures Simplification.Parity(x.vars, a) == x.rhs <==> TrueCount(Literals(ns), a) % 2 == 1
    {
      XorMeaning(Literals(ns), a);
    }
  }

  lemma RoomFor(n: nat, vs: seq<nat>)
    requires Bounded(vs, n)
    ensures Room(n, vs) == n
  {}

  // ---- texts that are rejected ----

  /** Threshold constraints are not accepted. */
  lemma ThresholdRejected(opts: Settings, st: State, s: string)
    ensures ParseAll(opts, st, "b" + s) == None
  {
    LineThenRest(opts, st, "b" + s, Fail);
  }

  /** A header has to say "cnf". */
  lemma HeaderRejected(opts: Settings, st: State, blanks: string, word: string, rest: string)
    requires Blank(blanks) && forall i :: 0 <= i < |word| ==> word[i] != ' ' && word[i] != '\n'
    requires rest == "" || rest[0] == '\n' || (rest[0] == ' ' && word != "")
    requires (word != "" ==> !IsSpace(word[0])) && word != "cnf"
    ensures ParseAll(opts, st, "p" + (blanks + (word + rest))) == None
  {
    var s := "p" + (blanks + (word + rest));
    assert s[1..] == blanks + (word + rest);
    WordAfter(blanks, word, rest);
    LineThenRest(opts, st, s, Fail);
  }

  /** A list without its zero is not accepted. */
  lemma {:induction false} OpenList(opts: Settings, st: State, ns: seq<int>, lits: Clause, eol: string, rest: string)
    requires Listable(ns) && Ends(eol, rest)
    ensures ReadClause(opts, st, Spaced(ns) + eol, lits) == Fail && NumberList(Spaced(ns) + eol) == Fail
    decreases |ns|
  {
    hide ParseInt, CheckVar, PrintInt;
    if ns == [] {
      assert Spaced(ns) + eol == eol;
      NoNumber(eol, rest);
    } else {
      var more := Spaced(ns[1..]) + eol;
      SpacedFirst(ns, eol);
      ParsePrinted(ns[0], " " + more);
      NumbersAfterBlank(more);
      OpenList(opts, st, ns[1..], lits, eol, rest);
      var next := CheckVar(opts, st, Magnitude(ns[0]) - 1);
      if next.Some? {
        var lits' := lits + [Lit(Magnitude(ns[0]) - 1, ns[0] < 0)];
        ReadAfterBlank(opts, next.value, more, lits');
        OpenList(opts, next.value, ns[1..], lits', eol, rest);
      }
    }
  }

  lemma NoNumber(eol: string, rest: string)
    requires Ends(eol, rest)
    ensures ParseInt(eol) == Fail
  {}

  lemma OpenClauseRejected(opts: Settings, st: State, ns: seq<int>, eol: string, rest: string)
    requires ns != [] && Listable(ns) && Ends(eol, rest)
    ensures ParseAll(opts, st, Spaced(ns) + eol) == None
  {
    hide ReadClause, ParseAll, Spaced;
    var s := Spaced(ns) + eol;
    OpenList(opts, st, ns, [], eol, rest);
    OpenStart(ns, eol);
    LineThenRest(opts, st, s, Fail);
  }

  lemma OpenStart(ns: seq<int>, eol: string)
    requires ns != []
    ensures var s := Spaced(ns) + eol; s != [] && (s[0] == '-' || IsDigit(s[0]))
  {
    assert Spaced(ns)[0] == PrintInt(ns[0])[0];
  }

  /** A number of more than 32 bits is not accepted. */
  lemma NumberRejected(i: int, rest: string)
    requires NoDigitNext(rest)
    ensures ParseInt(PrintInt(i) + rest) == if -0x7fff_ffff <= i <= 0x7fff_ffff then Got(i, rest) else Fail
  {
    hide Digits, PrintNat;
    if -INT_MAX <= i <= INT_MAX {
      ParsePrinted(i, rest);
    } else {
      var n := if i < 0 then -i else i;
      TooManyDigits(n, rest);
      var s := PrintInt(i) + rest;
      assert SkipSpace(s) == s;
      if i < 0 { assert s[1..] == PrintNat(n) + rest; }
    }
  }

  lemma {:induction false} TooManyDigits(n: nat, rest: string)
    requires n > INT_MAX
    ensures Digits(PrintNat(n) + rest, 0) == Fail
    decreases n
  {
    hide Digits, DigitChar;
    var d := [DigitChar(n % 10)];
    assert PrintNat(n) + rest == PrintNat(n / 10) + (d + rest);
    if n / 10 > INT_MAX {
      TooManyDigits(n / 10, d + rest);
    } else {
      DigitsOfPrinted(n / 10, d + rest);
      OneTooMany(n % 10, n / 10, rest);
    }
  }

  lemma OneTooMany(d: nat, val: nat, rest: string)
    requires d < 10 && val * 10 + d > INT_MAX
    ensures Digits([DigitChar(d)] + rest, val) == Fail
  {}
}
