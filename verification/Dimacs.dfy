/** The grouped DIMACS format: what each kind of line does to the parsed problem, as functions on the text that is left,
    and the parser that does it over a chunked buffer. */
module Dimacs {
  import opened Seqs
  import opened Logic
  import opened Groups
  import opened Text
  import opened Streams
  import opened Simplification
  import opened CommonState

  const VAR_LIMIT: nat := 0x1000_0000

  /** Parser settings: whether the header is binding, and the largest variable accepted. */
  datatype Settings = Settings(strict: bool, maxVar: nat)

  /** A parity constraint: the sum of the variables is `rhs`. */
  datatype Xor = Xor(vars: seq<nat>, rhs: bool)

  datatype State = State(nVars: nat, clauses: seq<Clause>, xors: seq<Xor>, samplingVars: seq<nat>, samplingFound: bool,
                         var2group: seq<nat>, groups: seq<seq<nat>>, headerFound: bool, headerVars: nat, headerCls: nat)

  const EMPTY := State(0, [], [], [], false, [], [], false, 0, 0)

  /** A variable that is let through; the problem grows to hold it. */
  function CheckVar(opts: Settings, st: State, v: nat): Option<State> {
    if v > opts.maxVar || v >= VAR_LIMIT then None
    else if opts.strict && (!st.headerFound || v >= st.headerVars) then None
    else if v >= st.nVars then Some(st.(nVars := v + 1))
    else Some(st)
  }

  function Magnitude(i: int): nat { if i < 0 then -i else i }

  function ReadClause(opts: Settings, st: State, s: string, lits: Clause): (r: Parse<(State, Clause)>)
    ensures r.Got? ==> |r.rest| < |s|
    decreases |s|
  {
    match ParseInt(s)
    case Fail => Fail
    case Got(i, rest) =>
      if i == 0 then Got((st, lits), rest)
      else
        match CheckVar(opts, st, Magnitude(i) - 1)
        case None => Fail
        case Some(st') =>
          if rest == [] || rest[0] != ' ' then Fail
          else ReadClause(opts, st', rest, lits + [Lit(Magnitude(i) - 1, i < 0)])
  }

  function ClauseLine(opts: Settings, st: State, s: string): (r: Parse<State>)
    ensures r.Got? ==> |r.rest| < |s|
  {
    match ReadClause(opts, st, s, [])
    case Fail => Fail
    case Got(p, rest) =>
      match SkipEol(SkipSpace(rest))
      case Fail => Fail
      case Got(_, rest') => Got(p.0.(clauses := p.0.clauses + [p.1]), rest')
  }

  function LitVars(lits: seq<Lit>): seq<nat> { seq(|lits|, i requires 0 <= i < |lits| => lits[i].v) }

  /** Every negation turns the parity over. */
  function RightHandSide(lits: seq<Lit>): bool {
    if lits == [] then true else RightHandSide(lits[..|lits| - 1]) != lits[|lits| - 1].sign
  }

  function XorLine(opts: Settings, st: State, s: string): (r: Parse<State>)
    ensures r.Got? ==> |r.rest| < |s|
  {
    match ReadClause(opts, st, s, [])
    case Fail => Fail
    case Got(p, rest) =>
      match SkipEol(rest)
      case Fail => Fail
      case Got(_, rest') =>
        if p.1 == [] then Got(p.0, rest')
        else Got(p.0.(xors := p.0.xors + [Xor(LitVars(p.1), RightHandSide(p.1))]), rest')
  }

  /** The two numbers of a header. */
  function HeaderSizes(st: State, s: string): (r: Parse<State>)
    ensures r.Got? ==> |r.rest| < |s|
  {
    match ParseInt(s)
    case Fail => Fail
    case Got(vars, rest) =>
      match ParseInt(rest)
      case Fail => Fail
      case Got(cls, rest') =>
        if vars < 0 || cls < 0 then Fail
        else Got(st.(nVars := if st.nVars < vars then vars else st.nVars,
                     headerFound := true, headerVars := vars, headerCls := cls), rest')
  }

  function Header(opts: Settings, st: State, s: string): (r: Parse<State>)
    ensures r.Got? ==> |r.rest| < |s|
  {
    var (word, rest) := ParseString(SkipSpace(s));
    if word != "cnf" || (st.headerFound && opts.strict) then Fail else HeaderSizes(st, rest)
  }

  function IndependentSet(st: State, s: string): (r: Parse<State>)
    ensures r.Got? ==> |r.rest| < |s|
    decreases |s|
  {
    match ParseInt(s)
    case Fail => Fail
    case Got(i, rest) =>
      if i == 0 then Got(st, rest)
      else IndependentSet(st.(samplingVars := st.samplingVars + [Magnitude(i) - 1]), rest)
  }

  /** The members of one group, which get its number; a variable outside the table is an error. */
  function GroupMembers(st: State, s: string, g: nat, members: seq<nat>): (r: Parse<State>)
    ensures r.Got? ==> |r.rest| < |s|
    decreases |s|
  {
    match ParseInt(s)
    case Fail => Fail
    case Got(i, rest) =>
      if i == 0 then Got(st.(groups := st.groups + [members]), rest)
      else if Magnitude(i) - 1 >= |st.var2group| then Fail
      else GroupMembers(st.(var2group := st.var2group[Magnitude(i) - 1 := g]), rest, g, members + [Magnitude(i) - 1])
  }

  /** The first group line sets up the tables, with the empty group 0. */
  function WithTables(st: State): State {
    if st.var2group == [] then
      st.(var2group := seq(st.headerVars, _ => 0), groups := st.groups + [[]])
    else st
  }

  function VariableGroup(st: State, s: string): (r: Parse<State>)
    ensures r.Got? ==> |r.rest| < |s|
  {
    GroupMembers(WithTables(st), s, |WithTables(st).groups|, [])
  }

  function Comment(st: State, s: string): (r: Parse<State>)
    ensures r.Got? ==> |r.rest| <= |s|
  {
    var (word, rest) := ParseString(s);
    var r := if word == "ind" then IndependentSet(st.(samplingFound := true), rest)
             else if word == "grp" then VariableGroup(st, rest)
             else Got(st, rest);
    match r
    case Fail => Fail
    case Got(st', rest') => Got(st', SkipLine(rest'))
  }

  /** One line of a text that is not at its end. */
  function Line(opts: Settings, st: State, s: string): (r: Parse<State>)
    requires s != []
    ensures r.Got? ==> |r.rest| < |s|
  {
    if s[0] == 'p' then
      match Header(opts, st, s[1..])
      case Fail => Fail
      case Got(st', rest) => Got(st', SkipLine(rest))
    else if s[0] == 'c' then Comment(st, s[1..])
    else if s[0] == 'x' then XorLine(opts, st, s[1..])
    else if s[0] == 'b' then Fail
    else if s[0] == '\n' then Got(st, SkipLine(s))
    else ClauseLine(opts, st, s)
  }

  function ParseAll(opts: Settings, st: State, s: string): Option<State>
    decreases |s|
  {
    var t := SkipSpace(s);
    if t == [] then Some(st)
    else
      match Line(opts, st, t)
      case Fail => None
      case Got(st', rest) => ParseAll(opts, st', rest)
  }

  // ---- what every line keeps ----

  /** The group tables agree: a variable is a member of the group it is mapped to, and is mapped to no earlier group
      than those it is a member of. */
  ghost predicate GroupTables(var2group: seq<nat>, groups: seq<seq<nat>>) {
    && (var2group != [] ==> groups != [])
    && (forall v :: 0 <= v < |var2group| && var2group[v] != 0 ==> var2group[v] < |groups| && v in groups[var2group[v]])
    && (forall g, v {:trigger v in groups[g]} :: 0 <= g < |groups| && v in groups[g] ==>
          0 < g && v < |var2group| && var2group[v] >= g)
  }

  /** The header and the group table speak of variables of the problem, and so do the clauses. */
  ghost predicate Fitting(st: State) {
    && st.headerVars <= st.nVars && |st.var2group| <= st.nVars
    && (forall i :: 0 <= i < |st.clauses| ==> LitsBelow(st.clauses[i], st.nVars))
  }

  ghost predicate Sound(st: State) {
    Fitting(st) && GroupTables(st.var2group, st.groups)
  }

  /** With a binding header no variable makes the problem grow. */
  lemma StrictNeverGrows(opts: Settings, st: State, v: nat)
    requires Sound(st) && opts.strict && CheckVar(opts, st, v).Some?
    ensures CheckVar(opts, st, v).value == st
  {}

  lemma GrownSound(opts: Settings, st: State, v: nat)
    requires Sound(st) && CheckVar(opts, st, v).Some?
    ensures Sound(CheckVar(opts, st, v).value) && v < CheckVar(opts, st, v).value.nVars
    ensures st.nVars <= CheckVar(opts, st, v).value.nVars
  {
    var st' := CheckVar(opts, st, v).value;
    assert forall i, n :: 0 <= i < |st.clauses| && LitsBelow(st.clauses[i], st.nVars) && st.nVars <= n ==> LitsBelow(st.clauses[i], n);
  }

  lemma {:induction false} ReadClauseSound(opts: Settings, st: State, s: string, lits: Clause)
    requires Sound(st) && LitsBelow(lits, st.nVars) && ReadClause(opts, st, s, lits).Got?
    ensures var (st', c) := ReadClause(opts, st, s, lits).value; Sound(st') && LitsBelow(c, st'.nVars)
    decreases |s|
  {
    var p := ParseInt(s);
    if p.value != 0 {
      var v := Magnitude(p.value) - 1;
      GrownSound(opts, st, v);
      ReadClauseSound(opts, CheckVar(opts, st, v).value, p.rest, lits + [Lit(v, p.value < 0)]);
    }
  }

  /** Half-way through a group line: the members read so far are mapped to the new group g. */
  ghost predicate GroupUnderway(var2group: seq<nat>, groups: seq<seq<nat>>, members: seq<nat>) {
    var g := |groups|;
    && 0 < g
    && (forall v :: 0 <= v < |var2group| && var2group[v] != 0 ==>
          if v in members then var2group[v] == g else var2group[v] < g && v in groups[var2group[v]])
    && (forall v :: v in members ==> v < |var2group| && var2group[v] == g)
    && (forall h, v {:trigger v in groups[h]} :: 0 <= h < g && v in groups[h] ==> 0 < h && v < |var2group| && var2group[v] >= h)
  }

  lemma GroupComplete(var2group: seq<nat>, groups: seq<seq<nat>>, members: seq<nat>)
    requires GroupUnderway(var2group, groups, members)
    ensures GroupTables(var2group, groups + [members])
  {}

  lemma {:induction false} GroupMembersSound(st: State, s: string, members: seq<nat>)
    requires Fitting(st) && GroupUnderway(st.var2group, st.groups, members) && GroupMembers(st, s, |st.groups|, members).Got?
    ensures Sound(GroupMembers(st, s, |st.groups|, members).value)
    decreases |s|
  {
    var p := ParseInt(s);
    if p.value == 0 {
      GroupComplete(st.var2group, st.groups, members);
    } else {
      var v := Magnitude(p.value) - 1;
      GroupMembersSound(st.(var2group := st.var2group[v := |st.groups|]), p.rest, members + [v]);
    }
  }

  lemma VariableGroupSound(st: State, s: string)
    requires Sound(st) && VariableGroup(st, s).Got?
    ensures Sound(VariableGroup(st, s).value)
  {
    GroupMembersSound(WithTables(st), s, []);
  }

  lemma {:induction false} IndependentSetSound(st: State, s: string)
    requires Sound(st) && IndependentSet(st, s).Got?
    ensures Sound(IndependentSet(st, s).value)
    decreases |s|
  {
    var p := ParseInt(s);
    if p.value != 0 {
      IndependentSetSound(st.(samplingVars := st.samplingVars + [Magnitude(p.value) - 1]), p.rest);
    }
  }

  lemma HeaderSound(opts: Settings, st: State, s: string)
    requires Sound(st) && Header(opts, st, s).Got?
    ensures Sound(Header(opts, st, s).value)
  {
    var st' := Header(opts, st, s).value;
    assert forall i :: 0 <= i < |st.clauses| ==> LitsBelow(st.clauses[i], st.nVars) && LitsBelow(st.clauses[i], st'.nVars);
  }

  lemma CommentSound(st: State, s: string)
    requires Sound(st) && Comment(st, s).Got?
    ensures Sound(Comment(st, s).value)
  {
    var (word, rest) := ParseString(s);
    if word == "ind" {
      IndependentSetSound(st.(samplingFound := true), rest);
    } else if word == "grp" {
      VariableGroupSound(st, rest);
    }
  }

  lemma LineSound(opts: Settings, st: State, s: string)
    requires s != [] && Sound(st) && Line(opts, st, s).Got?
    ensures Sound(Line(opts, st, s).value)
  {
    if s[0] == 'p' {
      HeaderSound(opts, st, s[1..]);
    } else if s[0] == 'c' {
      CommentSound(st, s[1..]);
    } else if s[0] == 'x' {
      ReadClauseSound(opts, st, s[1..], []);
    } else if s[0] != '\n' {
      ReadClauseSound(opts, st, s, []);
    }
  }

  /** Whatever text is accepted, the clauses fit the problem and the group tables agree. */
  lemma {:induction false} ParseSound(opts: Settings, st: State, s: string)
    requires Sound(st) && ParseAll(opts, st, s).Some?
    ensures Sound(ParseAll(opts, st, s).value)
    decreases |s|
  {
    var t := SkipSpace(s);
    if t != [] {
      LineSound(opts, st, t);
      ParseSound(opts, Line(opts, st, t).value, Line(opts, st, t).rest);
    }
  }

  /** Blocks without a repetition. */
  lemma {:induction false} FlatNoDup(bs: seq<seq<nat>>)
    ensures NoDup(Flat(bs)) <==>
              (forall i :: 0 <= i < |bs| ==> NoDup(bs[i]))
              && forall i, j, v :: 0 <= i < j < |bs| && v in bs[i] ==> v !in bs[j]
  {
    if bs != [] {
      var front, last := bs[..|bs| - 1], bs[|bs| - 1];
      FlatNoDup(front);
      NoDupAppend(Flat(front), last);
      if NoDup(Flat(bs)) {
        forall i, v | 0 <= i < |front| && v in bs[i] ensures v !in last { FlatContains(front, i, v); }
      }
      if (forall i :: 0 <= i < |bs| ==> NoDup(bs[i])) && forall i, j, v :: 0 <= i < j < |bs| && v in bs[i] ==> v !in bs[j] {
        forall v | v in Flat(front) ensures v !in last {
          var i := FlatFind(front, v);
          assert v in bs[i];
        }
      }
    }
  }

  lemma NoDupAppend(s: seq<nat>, t: seq<nat>)
    ensures NoDup(s + t) <==> NoDup(s) && NoDup(t) && forall v :: v in s ==> v !in t
  {
    var u := s + t;
    if NoDup(u) {
      forall i, j | 0 <= i < j < |s| ensures s[i] != s[j] { assert u[i] == s[i] && u[j] == s[j]; }
      forall i, j | 0 <= i < j < |t| ensures t[i] != t[j] { assert u[|s| + i] == t[i] && u[|s| + j] == t[j]; }
      forall v | v in s ensures v !in t {
        var i :| 0 <= i < |s| && s[i] == v;
        forall j | 0 <= j < |t| ensures t[j] != v { assert u[i] == v && u[|s| + j] == t[j]; }
      }
    }
    if NoDup(s) && NoDup(t) && forall v :: v in s ==> v !in t {
      forall i, j | 0 <= i < j < |u| ensures u[i] != u[j] {
        assert i < |s| ==> u[i] in s;
        assert j >= |s| ==> u[j] in t;
      }
    }
  }

  /** The tables agree with each other for exactly the texts in which no variable is listed twice on the group lines;
      and they tell the group of every variable of the problem if besides the table is as long as the problem. */
  lemma GroupsDisjoint(st: State)
    requires Sound(st)
    ensures Grouping(Padded(st.var2group, st.nVars), st.groups).Consistent(st.nVars) <==> NoDup(Flat(st.groups))
    ensures Grouping(st.var2group, st.groups).Consistent(st.nVars) <==> NoDup(Flat(st.groups)) && |st.var2group| == st.nVars
  {
    var gs, t, n := st.groups, st.var2group, st.nVars;
    FlatNoDup(gs);
    assert gs != [] ==> forall i :: 0 <= i < |gs[0]| ==> gs[0][i] in gs[0];
    if NoDup(Flat(gs)) {
      forall g, v | 0 < g < |gs| && v in gs[g] ensures v < |t| && t[v] == g { assert v in gs[t[v]]; }
    }
    if Grouping(Padded(t, n), gs).Consistent(n) { ConsistentApart(Padded(t, n), gs, n); }
    if Grouping(t, gs).Consistent(n) { ConsistentApart(t, gs, n); }
  }

  lemma ConsistentApart(t: seq<nat>, gs: seq<seq<nat>>, n: nat)
    requires Grouping(t, gs).Consistent(n) && forall v :: gs != [] ==> v !in gs[0]
    ensures forall i, j, v :: 0 <= i < j < |gs| && v in gs[i] ==> v !in gs[j]
  {
    forall i, j, v | 0 <= i < j < |gs| && v in gs[i] ensures v !in gs[j] { assert 0 < i && t[v] == i; }
  }

  /** The same over whole texts. */
  lemma ParsedGroups(opts: Settings, s: string)
    requires ParseAll(opts, EMPTY, s).Some?
    ensures var st := ParseAll(opts, EMPTY, s).value;
            && |st.var2group| <= st.nVars
            && (Grouping(Padded(st.var2group, st.nVars), st.groups).Consistent(st.nVars) <==> NoDup(Flat(st.groups)))
            && (Grouping(st.var2group, st.groups).Consistent(st.nVars) <==> NoDup(Flat(st.groups)) && |st.var2group| == st.nVars)
  {
    ParseSound(opts, EMPTY, s);
    GroupsDisjoint(ParseAll(opts, EMPTY, s).value);
  }

  /** What the rounds are given: the tables in group mode, and nothing otherwise. */
  ghost predicate Passed(c: Common, st: State)
    reads c
  {
    && c.origNumVars == st.nVars
    && c.var2varGroup == (if c.groupIndep then st.var2group else [])
    && c.varGroups == (if c.groupIndep then st.groups else [])
  }

  /** Where the rounds may look up the groups of the variables vs: in group mode, those the table reaches; outside group
      mode the backward round, which asks all the same, finds no table to read. */
  lemma TableReach(c: Common, st: State, vs: set<nat>)
    requires Passed(c, st) && Sound(st)
    ensures NoDup(Flat(st.groups)) ==> c.GroupsOk()
    ensures c.InTable(vs) <==> !c.groupIndep || forall v :: v in vs ==> v < |st.var2group|
    ensures c.Readable(vs) <==> if c.groupIndep then forall v :: v in vs ==> v < |st.var2group| else vs == {}
  {
    GroupsDisjoint(st);
    if vs != {} { var v :| v in vs; }
  }

  // ---- how far the lists and the table reach ----

  /** The variables that a list of numbers up to a zero names. */
  function NumberList(s: string): (r: Parse<seq<nat>>)
    ensures r.Got? ==> |r.rest| < |s|
    decreases |s|
  {
    match ParseInt(s)
    case Fail => Fail
    case Got(i, rest) =>
      if i == 0 then Got([], rest)
      else
        match NumberList(rest)
        case Fail => Fail
        case Got(vs, rest') => Got([Magnitude(i) - 1] + vs, rest')
  }

  /** The table after the variables vs are put into group g. */
  function PutInto(t: seq<nat>, vs: seq<nat>, g: nat): seq<nat> {
    seq(|t|, v requires 0 <= v < |t| => if v in vs then g else t[v])
  }

  lemma PutNext(t: seq<nat>, v: nat, vs: seq<nat>, g: nat)
    requires v < |t|
    ensures PutInto(t[v := g], vs, g) == PutInto(t, [v] + vs, g) && PutInto(t, [], g) == t
  {
    assert forall w :: w in [v] + vs <==> w == v || w in vs;
  }

  lemma PutNone(t: seq<nat>, g: nat)
    ensures PutInto(t, [], g) == t
  {}

  lemma {:induction false} MembersInside(st: State, s: string, g: nat, members: seq<nat>)
    ensures GroupMembers(st, s, g, members).Got? <==>
              NumberList(s).Got? && forall v :: v in NumberList(s).value ==> v < |st.var2group|
    ensures GroupMembers(st, s, g, members).Got? ==>
              && GroupMembers(st, s, g, members).rest == NumberList(s).rest
              && Bounded(NumberList(s).value, |st.var2group|)
              && GroupMembers(st, s, g, members).value
                 == st.(var2group := PutInto(st.var2group, NumberList(s).value, g),
                        groups := st.groups + [members + NumberList(s).value])
    decreases |s|
  {
    hide ParseInt, PutInto;
    var p := ParseInt(s);
    if p.Got? && p.value == 0 {
      PutNone(st.var2group, g);
      assert members + [] == members;
    } else if p.Got? {
      var v := Magnitude(p.value) - 1;
      if v < |st.var2group| {
        MembersInside(st.(var2group := st.var2group[v := g]), p.rest, g, members + [v]);
        if NumberList(p.rest).Got? {
          PutNext(st.var2group, v, NumberList(p.rest).value, g);
          assert members + ([v] + NumberList(p.rest).value) == members + [v] + NumberList(p.rest).value;
          assert NumberList(s).value == [v] + NumberList(p.rest).value;
          assert forall w :: w in NumberList(s).value <==> w == v || w in NumberList(p.rest).value;
        }
      } else if NumberList(p.rest).Got? {
        assert NumberList(s).value[0] == v && v in NumberList(s).value;
      }
    }
  }

  /** A group line stays inside the table, and is read, exactly when every variable it lists is below its length: that of
      the header's number of variables if it is the first group line. */
  lemma GroupStaysInside(st: State, s: string)
    ensures VariableGroup(st, s).Got? <==>
              NumberList(s).Got? && forall v :: v in NumberList(s).value ==>
                v < if st.var2group == [] then st.headerVars else |st.var2group|
    ensures VariableGroup(st, s).Got? ==> VariableGroup(st, s).value.groups == WithTables(st).groups + [NumberList(s).value]
  {
    MembersInside(WithTables(st), s, |WithTables(st).groups|, []);
    if NumberList(s).Got? { assert [] + NumberList(s).value == NumberList(s).value; }
  }

  /** A sampling set line is read whatever it lists. */
  lemma {:induction false} SamplingLine(st: State, s: string)
    ensures IndependentSet(st, s).Got? <==> NumberList(s).Got?
    ensures IndependentSet(st, s).Got? ==>
              && IndependentSet(st, s).rest == NumberList(s).rest
              && IndependentSet(st, s).value == st.(samplingVars := st.samplingVars + NumberList(s).value)
    decreases |s|
  {
    var p := ParseInt(s);
    if p.Got? && p.value == 0 {
      assert st.samplingVars + [] == st.samplingVars;
    } else if p.Got? {
      var v := Magnitude(p.value) - 1;
      SamplingLine(st.(samplingVars := st.samplingVars + [v]), p.rest);
      if NumberList(p.rest).Got? {
        assert st.samplingVars + ([v] + NumberList(p.rest).value) == st.samplingVars + [v] + NumberList(p.rest).value;
      }
    }
  }

  /** What it leaves are variables of a problem with n variables exactly when all it lists are. */
  lemma SamplingInside(st: State, s: string, n: nat)
    requires IndependentSet(st, s).Got? && Bounded(st.samplingVars, n)
    ensures NumberList(s).Got? && (Bounded(IndependentSet(st, s).value.samplingVars, n) <==> Bounded(NumberList(s).value, n))
  {
    SamplingLine(st, s);
    var all, more := IndependentSet(st, s).value.samplingVars, NumberList(s).value;
    assert forall i :: 0 <= i < |more| ==> all[|st.samplingVars| + i] == more[i];
  }

  /** No header line is met after the first. */
  predicate OneHeader(opts: Settings, st: State, s: string)
    decreases |s|
  {
    var t := SkipSpace(s);
    t == [] ||
    match Line(opts, st, t)
    case Fail => true
    case Got(st', rest) => (t[0] == 'p' ==> !st.headerFound) && OneHeader(opts, st', rest)
  }

  /** The table is empty or as long as the header says. */
  predicate TableMade(st: State) {
    (st.var2group == [] || |st.var2group| == st.headerVars) && (!st.headerFound ==> st.headerVars == 0)
  }

  lemma {:induction false} ReadClauseTables(opts: Settings, st: State, s: string, lits: Clause)
    requires ReadClause(opts, st, s, lits).Got?
    ensures var st' := ReadClause(opts, st, s, lits).value.0;
            st'.var2group == st.var2group && st'.headerFound == st.headerFound && st'.headerVars == st.headerVars
    decreases |s|
  {
    var p := ParseInt(s);
    if p.value != 0 {
      ReadClauseTables(opts, CheckVar(opts, st, Magnitude(p.value) - 1).value, p.rest, lits + [Lit(Magnitude(p.value) - 1, p.value < 0)]);
    }
  }

  lemma {:induction false} MembersTables(st: State, s: string, g: nat, members: seq<nat>)
    requires GroupMembers(st, s, g, members).Got?
    ensures var st' := GroupMembers(st, s, g, members).value;
            |st'.var2group| == |st.var2group| && st'.headerFound == st.headerFound && st'.headerVars == st.headerVars
    decreases |s|
  {
    var p := ParseInt(s);
    if p.value != 0 {
      var v := Magnitude(p.value) - 1;
      MembersTables(st.(var2group := st.var2group[v := g]), p.rest, g, members + [v]);
    }
  }

  lemma LineTables(opts: Settings, st: State, s: string)
    requires s != [] && Line(opts, st, s).Got? && TableMade(st) && (s[0] == 'p' ==> !st.headerFound)
    ensures TableMade(Line(opts, st, s).value)
  {
    if s[0] == 'c' {
      var (word, rest) := ParseString(s[1..]);
      if word == "ind" {
        SamplingLine(st.(samplingFound := true), rest);
      } else if word == "grp" {
        MembersTables(WithTables(st), rest, |WithTables(st).groups|, []);
      }
    } else if s[0] == 'x' {
      ReadClauseTables(opts, st, s[1..], []);
    } else if s[0] != 'p' && s[0] != '\n' {
      ReadClauseTables(opts, st, s, []);
    }
  }

  lemma {:induction false} TableMadeSo(opts: Settings, st: State, s: string)
    requires ParseAll(opts, st, s).Some? && TableMade(st) && OneHeader(opts, st, s)
    ensures TableMade(ParseAll(opts, st, s).value)
    decreases |s|
  {
    var t := SkipSpace(s);
    if t != [] {
      LineTables(opts, st, t);
      TableMadeSo(opts, Line(opts, st, t).value, Line(opts, st, t).rest);
    }
  }

  /** With one header, the table is empty or has the length of the header's number of variables. */
  lemma TableLength(opts: Settings, s: string)
    requires ParseAll(opts, EMPTY, s).Some? && OneHeader(opts, EMPTY, s)
    ensures var st := ParseAll(opts, EMPTY, s).value; st.var2group == [] || |st.var2group| == st.headerVars
  {
    TableMadeSo(opts, EMPTY, s);
  }

  /** A binding header is the only one. */
  lemma {:induction false} StrictOneHeader(opts: Settings, st: State, s: string)
    requires opts.strict
    ensures OneHeader(opts, st, s)
    decreases |s|
  {
    var t := SkipSpace(s);
    if t != [] && Line(opts, st, t).Got? { StrictOneHeader(opts, Line(opts, st, t).value, Line(opts, st, t).rest); }
  }

  // ---- parity constraints ----

  /** The parity constraint says what the line said: an odd number of its literals is true. */
  lemma {:induction false} XorMeaning(lits: seq<Lit>, a: Assignment)
    requires LitsBelow(lits, |a|)
    ensures TrueCount(lits, a) % 2 == 1 <==> Parity(LitVars(lits), a) == RightHandSide(lits)
  {
    if lits != [] {
      XorMeaning(lits[..|lits| - 1], a);
      assert LitVars(lits)[..|lits| - 1] == LitVars(lits[..|lits| - 1]);
    }
  }

  // ---- the parser ----

  class DimacsParser {
    const opts: Settings
    var samplingVars: seq<nat>
    var samplingVarsFound: bool
    var var2varGroup: seq<nat>
    var varGroups: seq<seq<nat>>
    var headerFound: bool
    var numHeaderVars: nat
    var numHeaderCls: nat

    /** What the solver has been given. */
    var nVars: nat
    var clauses: seq<Clause>
    var xors: seq<Xor>

    constructor (opts: Settings)
      ensures this.opts == opts && Now() == EMPTY
    {
      this.opts := opts;
      samplingVars, samplingVarsFound, var2varGroup, varGroups := [], false, [], [];
      headerFound, numHeaderVars, numHeaderCls, nVars, clauses, xors := false, 0, 0, 0, [], [];
    }

    function Now(): State
      reads this
    {
      State(nVars, clauses, xors, samplingVars, samplingVarsFound, var2varGroup, varGroups, headerFound, numHeaderVars, numHeaderCls)
    }

    method CheckVariable(v: nat) returns (ok: bool)
      modifies this`nVars
      ensures ok == CheckVar(opts, old(Now()), v).Some? && (ok ==> Now() == CheckVar(opts, old(Now()), v).value)
    {
      if v > opts.maxVar { return false; }
      if v >= VAR_LIMIT { return false; }
      if opts.strict && !headerFound { return false; }
      if v >= numHeaderVars && opts.strict { return false; }
      if v >= nVars { nVars := nVars + (v - nVars + 1); }
      return true;
    }

    method ReadLits(input: StreamBuffer) returns (ok: bool, lits: Clause)
      requires input.Valid()
      modifies this`nVars, input, input.buf
      ensures input.Valid() && ok == ReadClause(opts, old(Now()), old(input.Rest()), []).Got?
      ensures ok ==> ReadClause(opts, old(Now()), old(input.Rest()), []) == Got((Now(), lits), input.Rest())
    {
      hide ParseInt, CheckVar;
      ghost var all := ReadClause(opts, Now(), input.Rest(), []);
      lits := [];
      while true
        invariant input.Valid() && ReadClause(opts, Now(), input.Rest(), lits) == all
        decreases |input.Rest()|
      {
        var i;
        ok, i := input.ReadInt();
        if !ok { return; }
        if i == 0 { return; }
        var v := Magnitude(i) - 1;
        ok := CheckVariable(v);
        if !ok { return; }
        lits := lits + [if i > 0 then Lit(v, false) else Lit(v, true)];
        var c := input.Value();
        if c != Some(' ') { ok := false; return; }
      }
    }

    method ParseClause(input: StreamBuffer) returns (ok: bool)
      requires input.Valid()
      modifies this, input, input.buf
      ensures input.Valid() && ok == ClauseLine(opts, old(Now()), old(input.Rest())).Got?
      ensures ok ==> ClauseLine(opts, old(Now()), old(input.Rest())) == Got(Now(), input.Rest())
    {
      var lits;
      ok, lits := ReadLits(input);
      if !ok { return; }
      input.SkipWhitespace();
      ok := input.SkipEOL();
      clauses := clauses + [lits];
    }

    method ParseXor(input: StreamBuffer) returns (ok: bool)
      requires input.Valid()
      modifies this, input, input.buf
      ensures input.Valid() && ok == XorLine(opts, old(Now()), old(input.Rest())).Got?
      ensures ok ==> XorLine(opts, old(Now()), old(input.Rest())) == Got(Now(), input.Rest())
    {
      hide ReadClause, SkipEol;
      var lits;
      ok, lits := ReadLits(input);
      if !ok { return; }
      ok := input.SkipEOL();
      if !ok || lits == [] { return; }
      var rhs, vars := true, [];
      for i := 0 to |lits|
        invariant vars == LitVars(lits[..i]) && rhs == RightHandSide(lits[..i])
      {
        assert lits[..i + 1][..i] == lits[..i];
        vars := vars + [lits[i].v];
        if lits[i].sign { rhs := !rhs; }
      }
      assert lits[..|lits|] == lits;
      xors := xors + [Xor(vars, rhs)];
    }

    method ParseHeader(input: StreamBuffer) returns (ok: bool)
      requires input.Valid()
      modifies this, input, input.buf
      ensures input.Valid() && ok == Header(opts, old(Now()), old(input.Rest())).Got?
      ensures ok ==> Header(opts, old(Now()), old(input.Rest())) == Got(Now(), input.Rest())
    {
      input.SkipWhitespace();
      var str := input.ReadString();
      if str != "cnf" { return false; }
      if headerFound && opts.strict { return false; }
      ok := ParseHeaderSizes(input);
    }

    method ParseHeaderSizes(input: StreamBuffer) returns (ok: bool)
      requires input.Valid()
      modifies this, input, input.buf
      ensures input.Valid() && ok == HeaderSizes(old(Now()), old(input.Rest())).Got?
      ensures ok ==> HeaderSizes(old(Now()), old(input.Rest())) == Got(Now(), input.Rest())
    {
      hide ParseInt;
      var vars, cls;
      headerFound := true;
      ok, vars := input.ReadInt();
      if !ok { return; }
      ok, cls := input.ReadInt();
      if !ok { return; }
      ok := vars >= 0 && cls >= 0;
      if ok {
        numHeaderVars, numHeaderCls := vars, cls;
        nVars := if nVars < numHeaderVars then numHeaderVars else nVars;
      }
    }

    method ParseIndependentSet(input: StreamBuffer) returns (ok: bool)
      requires input.Valid()
      modifies this, input, input.buf
      ensures input.Valid() && ok == IndependentSet(old(Now()), old(input.Rest())).Got?
      ensures ok ==> IndependentSet(old(Now()), old(input.Rest())) == Got(Now(), input.Rest())
    {
      hide ParseInt;
      ghost var all := IndependentSet(Now(), input.Rest());
      while true
        invariant input.Valid() && IndependentSet(Now(), input.Rest()) == all
        decreases |input.Rest()|
      {
        var i;
        ok, i := input.ReadInt();
        if !ok { return; }
        if i == 0 { return; }
        samplingVars := samplingVars + [Magnitude(i) - 1];
      }
    }

    method ParseVariableGroup(input: StreamBuffer) returns (ok: bool)
      requires input.Valid()
      modifies this, input, input.buf
      ensures input.Valid() && ok == VariableGroup(old(Now()), old(input.Rest())).Got?
      ensures ok ==> VariableGroup(old(Now()), old(input.Rest())) == Got(Now(), input.Rest())
    {
      hide ParseInt;
      if var2varGroup == [] {
        var2varGroup := seq(numHeaderVars, _ => 0);
        varGroups := varGroups + [[]];
      }
      assert Now() == WithTables(old(Now()));
      var newGroup: seq<nat> := [];
      ghost var all, g := GroupMembers(Now(), input.Rest(), |varGroups|, []), |varGroups|;
      while true
        invariant input.Valid() && |varGroups| == g && GroupMembers(Now(), input.Rest(), g, newGroup) == all
        decreases |input.Rest()|
      {
        var i;
        ok, i := input.ReadInt();
        if !ok { return; }
        if i == 0 { break; }
        var v := Magnitude(i) - 1;
        if v >= |var2varGroup| { return false; }
        var2varGroup := var2varGroup[v := |varGroups|];
        newGroup := newGroup + [v];
      }
      varGroups := varGroups + [newGroup];
    }

    method ParseComment(input: StreamBuffer) returns (ok: bool)
      requires input.Valid()
      modifies this, input, input.buf
      ensures input.Valid() && ok == Comment(old(Now()), old(input.Rest())).Got?
      ensures ok ==> Comment(old(Now()), old(input.Rest())) == Got(Now(), input.Rest())
    {
      ok := true;
      var str := input.ReadString();
      if str == "ind" {
        samplingVarsFound := true;
        ok := ParseIndependentSet(input);
      } else if str == "grp" {
        ok := ParseVariableGroup(input);
      }
      if ok { input.SkipToNextLine(); }
    }

    method ParseLine(input: StreamBuffer, c: char) returns (ok: bool)
      requires input.Valid() && Peek(input.Rest()) == Some(c)
      modifies this, input, input.buf
      ensures input.Valid() && ok == Line(opts, old(Now()), old(input.Rest())).Got?
      ensures ok ==> Line(opts, old(Now()), old(input.Rest())) == Got(Now(), input.Rest())
    {
      ok := true;
      if c == 'p' {
        input.Advance();
        ok := ParseHeader(input);
        if ok { input.SkipToNextLine(); }
      } else if c == 'c' {
        input.Advance();
        ok := ParseComment(input);
      } else if c == 'x' {
        input.Advance();
        ok := ParseXor(input);
      } else if c == 'b' {
        ok := false;
      } else if c == '\n' {
        input.SkipToNextLine();
      } else {
        ok := ParseClause(input);
      }
    }

    /** The whole text: what comes out is a function of its characters alone. */
    method ParseDimacs(input: StreamBuffer) returns (ok: bool)
      requires input.Valid()
      modifies this, input, input.buf
      ensures ok == ParseAll(opts, old(Now()), old(input.Rest())).Some?
      ensures ok ==> ParseAll(opts, old(Now()), old(input.Rest())) == Some(Now())
    {
      ghost var all := ParseAll(opts, Now(), input.Rest());
      while true
        invariant input.Valid() && ParseAll(opts, Now(), input.Rest()) == all
        decreases |input.Rest()|
      {
        input.SkipWhitespace();
        var c := input.Value();
        if c.None? { return true; }
        ok := ParseLine(input, c.value);
        if !ok { return; }
      }
    }
  }
}
