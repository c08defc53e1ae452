/** Grammars on which the analysis does less than its stopping test or its check suggest. */
module Counterexamples {
  import opened ContextFree
  import opened Follow
  import opened LL1
  import opened LL1Exact
  import opened LeftExact
  import opened Grammars
  import opened GrammarBuilders

  // ---------- two passes can be too few ----------

  // S := 'p' B | 'w' E ;  E := 'v' ;  B := 'x' S | 'y' B 'z'
  const P: Code := 'p' as int
  const V: Code := 'v' as int
  const W: Code := 'w' as int
  const X: Code := 'x' as int
  const Y: Code := 'y' as int
  const Z: Code := 'z' as int

  const HASTY: Cfg := Cfg(map[
    "S" := [[T(P), N("B")], [T(W), N("E")]],
    "E" := [[T(V)]],
    "B" := [[T(X), N("S")], [T(Y), N("B"), T(Z)]]
  ], "S")
  const HASTY_FIRSTS: Sets := map["S" := {P, W}, "E" := {V}, "B" := {X, Y}]
  const HASTY_ORDER: seq<string> := ["S", "E", "B"]
  const HASTY_GRAPH: Graph := map[
    "S" := [Edge("B", {}, true), Edge("E", {}, true)],
    "E" := [],
    "B" := [Edge("S", {}, true), Edge("B", {Z}, false)]
  ]

  lemma EntryThenLast(fs: Sets, x: Code, b: string)
    requires b in fs
    ensures RuleEdges(fs, [T(x), N(b)], 2) == [Edge(b, {}, true)]
  {
    var rhs: Form := [T(x), N(b)];
    assert RuleEdges(fs, rhs, 0) == [] && RuleEdges(fs, rhs, 1) == [];
    assert EdgeAt(fs, rhs, 1) == Edge(b, {}, true);
  }

  lemma TwoRules(fs: Sets, r: Form, r': Form)
    requires Known(fs, r) && Known(fs, r')
    ensures Edges(fs, [r, r'], 2) == RuleEdges(fs, r, |r|) + RuleEdges(fs, r', |r'|)
  {
    assert Edges(fs, [r, r'], 0) == [];
    assert Edges(fs, [r, r'], 1) == RuleEdges(fs, r, |r|);
  }

  lemma TerminalOnly(fs: Sets, x: Code)
    ensures Edges(fs, [[T(x)]], 1) == []
  {
    assert RuleEdges(fs, [T(x)], 0) == [] && RuleEdges(fs, [T(x)], 1) == [] && Edges(fs, [[T(x)]], 0) == [];
  }

  lemma EntryInTheMiddle(fs: Sets, x: Code, b: string, z: Code)
    requires b in fs && z != EMPTY
    ensures RuleEdges(fs, [T(x), N(b), T(z)], 3) == [Edge(b, {z}, false)]
  {
    var rhs: Form := [T(x), N(b), T(z)];
    assert rhs[2..] == [T(z)] && Gather(fs, rhs[2..], {}) == {z};
    assert EdgeAt(fs, rhs, 1) == Edge(b, {z}, false);
    assert RuleEdges(fs, rhs, 0) == [] && RuleEdges(fs, rhs, 1) == [];
    assert RuleEdges(fs, rhs, 2) == [Edge(b, {z}, false)];
  }

  /** The equations of this grammar. */
  lemma HastyGraph()
    ensures HASTY.WellFormed() && HASTY_FIRSTS.Keys == HASTY.rules.Keys
    ensures FollowGraph(HASTY, HASTY_FIRSTS) == HASTY_GRAPH
  {
    hide Edges, RuleEdges;
    var fs := HASTY_FIRSTS;
    EntryThenLast(fs, P, "B");
    EntryThenLast(fs, W, "E");
    EntryThenLast(fs, X, "S");
    EntryInTheMiddle(fs, Y, "B", Z);
    TwoRules(fs, [T(P), N("B")], [T(W), N("E")]);
    TerminalOnly(fs, V);
    TwoRules(fs, [T(X), N("S")], [T(Y), N("B"), T(Z)]);
    assert HASTY.rules["S"] == [[T(P), N("B")], [T(W), N("E")]] && HASTY.rules["E"] == [[T(V)]]
           && HASTY.rules["B"] == [[T(X), N("S")], [T(Y), N("B"), T(Z)]];
    var graph := FollowGraph(HASTY, fs);
    assert graph["S"] == HASTY_GRAPH["S"];
    assert graph["E"] == HASTY_GRAPH["E"];
    assert graph["B"] == HASTY_GRAPH["B"];
  }

  ghost function Row(s: set<Code>, e: set<Code>, b: set<Code>): (f: Sets)
    ensures f.Keys == {"S", "E", "B"}
  {
    map["S" := s, "E" := e, "B" := b]
  }

  lemma VisitLast(f: Sets, a: string, es: seq<Edge>)
    requires a in f && (forall e :: e in es ==> e.target in f) && es != []
    ensures forall e :: e in es[..|es| - 1] ==> e.target in f
    ensures Visit(f, a, es) == Apply(Visit(f, a, es[..|es| - 1]), a, es[|es| - 1])
  {
    hide Apply;
  }

  lemma VisitTwice(f: Sets, a: string, es: seq<Edge>)
    requires a in f && |es| == 2 && es[0].target in f && es[1].target in f
    ensures (forall e :: e in es ==> e.target in f) && Visit(f, a, es) == Apply(Apply(f, a, es[0]), a, es[1])
  {
    hide Apply, Visit;
    VisitLast(f, a, es);
    var one := es[..1];
    VisitLast(f, a, one);
    assert one[..0] == [];
    VisitNone(f, a);
  }

  lemma ApplyIs(f: Sets, a: string, e: Edge, f': Sets)
    requires a in f && e.target in f && f'.Keys == f.Keys
    requires f'[e.target] == f[e.target] + (if e.inherits then f[a] else {}) + e.adds
    requires forall b :: b in f && b != e.target ==> f'[b] == f[b]
    ensures Apply(f, a, e) == f'
  {}

  lemma VisitS(s: set<Code>, e: set<Code>, b: set<Code>)
    ensures Visit(Row(s, e, b), "S", [Edge("B", {}, true), Edge("E", {}, true)]) == Row(s, e + s, b + s)
  {
    hide Apply, Visit;
    assert b + s + {} == b + s && e + s + {} == e + s;
    VisitTwice(Row(s, e, b), "S", [Edge("B", {}, true), Edge("E", {}, true)]);
    ApplyIs(Row(s, e, b), "S", Edge("B", {}, true), Row(s, e, b + s));
    ApplyIs(Row(s, e, b + s), "S", Edge("E", {}, true), Row(s, e + s, b + s));
  }

  lemma VisitB(s: set<Code>, e: set<Code>, b: set<Code>)
    ensures Visit(Row(s, e, b), "B", [Edge("S", {}, true), Edge("B", {Z}, false)]) == Row(s + b, e, b + {Z})
  {
    hide Apply, Visit;
    assert s + b + {} == s + b && b + {} + {Z} == b + {Z};
    VisitTwice(Row(s, e, b), "B", [Edge("S", {}, true), Edge("B", {Z}, false)]);
    ApplyIs(Row(s, e, b), "B", Edge("S", {}, true), Row(s + b, e, b));
    ApplyIs(Row(s + b, e, b), "B", Edge("B", {Z}, false), Row(s + b, e, b + {Z}));
  }

  lemma HastyKeys()
    ensures HASTY_GRAPH.Keys == {"S", "E", "B"}
    ensures forall a :: a in HASTY_ORDER <==> a in HASTY_GRAPH
    ensures forall i, j :: 0 <= i < j < |HASTY_ORDER| ==> HASTY_ORDER[i] != HASTY_ORDER[j]
  {
    var o := HASTY_ORDER;
    assert o[0] == "S" && o[1] == "E" && o[2] == "B";
  }

  lemma HastyWellFormed()
    ensures WellFormedGraph(HASTY_GRAPH)
  {
    var g := HASTY_GRAPH;
    forall a: string, e: Edge | a in g && e in g[a] ensures e.target in g && EMPTY !in e.adds {
      assert a == "S" || a == "E" || a == "B";
    }
  }

  lemma RowAt(s: set<Code>, e: set<Code>, b: set<Code>)
    ensures Row(s, e, b)["S"] == s && Row(s, e, b)["E"] == e && Row(s, e, b)["B"] == b
  {
  }

  lemma HastyVisits(s: set<Code>, e: set<Code>, b: set<Code>)
    requires WellFormedGraph(HASTY_GRAPH) && forall a :: a in HASTY_ORDER ==> a in HASTY_GRAPH
    requires Row(s, e, b).Keys == HASTY_GRAPH.Keys
    ensures After(HASTY_GRAPH, Row(s, e, b), HASTY_ORDER, 1) == Row(s, e + s, b + s)
    ensures After(HASTY_GRAPH, Row(s, e, b), HASTY_ORDER, 2) == Row(s, e + s, b + s)
    ensures After(HASTY_GRAPH, Row(s, e, b), HASTY_ORDER, 3) == Row(s + (b + s), e + s, b + s + {Z})
  {
    hide Visit, After, Total, CountedSets, WellFormedGraph, Row;
    var g, f, order := HASTY_GRAPH, Row(s, e, b), HASTY_ORDER;
    assert g["S"] == [Edge("B", {}, true), Edge("E", {}, true)] && g["E"] == []
           && g["B"] == [Edge("S", {}, true), Edge("B", {Z}, false)];
    PassBegins(g, f, order);
    VisitInPass(g, f, order, 0);
    VisitS(s, e, b);
    VisitInPass(g, f, order, 1);
    VisitNone(Row(s, e + s, b + s), "E");
    VisitInPass(g, f, order, 2);
    VisitB(s, e + s, b + s);
  }

  /** One pass over this graph, with what it counts. */
  lemma HastyPass(s: set<Code>, e: set<Code>, b: set<Code>)
    requires WellFormedGraph(HASTY_GRAPH) && forall a :: a in HASTY_ORDER ==> a in HASTY_GRAPH
    requires Row(s, e, b).Keys == HASTY_GRAPH.Keys
    ensures Pass(HASTY_GRAPH, Row(s, e, b), HASTY_ORDER) == Row(s + (b + s), e + s, b + s + {Z})
    ensures PassSum(HASTY_GRAPH, Row(s, e, b), HASTY_ORDER) == |s| + |e + s| + |b + s + {Z}|
  {
    hide Visit, After, Total, CountedSets, WellFormedGraph, Pass, PassSum, Row;
    var g, f, order := HASTY_GRAPH, Row(s, e, b), HASTY_ORDER;
    HastyVisits(s, e, b);
    RowAt(s, e + s, b + s);
    RowAt(s + (b + s), e + s, b + s + {Z});
    PassBegins(g, f, order);
    VisitInPass(g, f, order, 0);
    VisitInPass(g, f, order, 1);
    VisitInPass(g, f, order, 2);
    PassComplete(g, f, order);
  }

  lemma VisitNone(f: Sets, a: string)
    requires a in f
    ensures Visit(f, a, []) == f
  {}

  lemma HastySetting()
    ensures Visits(HASTY_GRAPH, "S", HASTY_ORDER)
    ensures WellFormedGraph(HASTY_GRAPH) && forall a :: a in HASTY_ORDER ==> a in HASTY_GRAPH
    ensures Initial(HASTY_GRAPH, "S") == Row({END}, {}, {})
  {
    hide WellFormedGraph;
    HastyKeys();
    HastyWellFormed();
  }

  lemma HastyFirst()
    requires WellFormedGraph(HASTY_GRAPH) && forall a :: a in HASTY_ORDER ==> a in HASTY_GRAPH
    requires Row({END}, {}, {}).Keys == HASTY_GRAPH.Keys
    ensures Pass(HASTY_GRAPH, Row({END}, {}, {}), HASTY_ORDER) == Row({END}, {END}, {END, Z})
    ensures PassSum(HASTY_GRAPH, Row({END}, {}, {}), HASTY_ORDER) == 4
  {
    hide Pass, PassSum, Row, WellFormedGraph;
    var d, z, none: set<Code> := {END}, {END, Z}, {};
    HastyPass(d, none, none);
    assert d + (none + d) == d && none + d == d && d + {Z} == z && |d| == 1 && |z| == 2;
  }

  lemma HastySecond()
    requires WellFormedGraph(HASTY_GRAPH) && forall a :: a in HASTY_ORDER ==> a in HASTY_GRAPH
    requires Row({END}, {END}, {END, Z}).Keys == HASTY_GRAPH.Keys
    ensures Pass(HASTY_GRAPH, Row({END}, {END}, {END, Z}), HASTY_ORDER) == Row({END, Z}, {END}, {END, Z})
    ensures PassSum(HASTY_GRAPH, Row({END}, {END}, {END, Z}), HASTY_ORDER) == 4
  {
    hide Pass, PassSum, Row, WellFormedGraph;
    var d, z := {END}, {END, Z};
    HastyPass(d, d, z);
    assert d + d == d && z + d == z && z + {Z} == z && d + z == z && |d| == 1 && |z| == 2;
  }

  lemma HastyRun()
    requires WellFormedGraph(HASTY_GRAPH) && forall a :: a in HASTY_ORDER ==> a in HASTY_GRAPH
    requires Initial(HASTY_GRAPH, "S") == Row({END}, {}, {})
    ensures Reported(HASTY_GRAPH, "S", HASTY_ORDER, 1) == 4 && Reported(HASTY_GRAPH, "S", HASTY_ORDER, 2) == 4
    ensures Passes(HASTY_GRAPH, "S", HASTY_ORDER, 2) == Row({END, Z}, {END}, {END, Z})
  {
    hide Pass, PassSum, Passes, Reported, Initial, Row, WellFormedGraph;
    var g, order := HASTY_GRAPH, HASTY_ORDER;
    NoPass(g, "S", order);
    NextPass(g, "S", order, 0);
    NextPass(g, "S", order, 1);
    HastyFirst();
    HastySecond();
  }

  /** The loop stops after two passes here although `z` has not reached the FOLLOW set of E:
      it is counted into B's set late in the first pass, and moves on to the set of S only
      after that has been counted in the second. */
  lemma StopsTooSoon()
    ensures Visits(HASTY_GRAPH, "S", HASTY_ORDER)
    ensures Reported(HASTY_GRAPH, "S", HASTY_ORDER, 2) == Reported(HASTY_GRAPH, "S", HASTY_ORDER, 1)
    ensures !Closed(HASTY_GRAPH, Passes(HASTY_GRAPH, "S", HASTY_ORDER, 2))
  {
    hide Passes, Reported, Visits, WellFormedGraph;
    HastySetting();
    HastyRun();
    assert Edge("E", {}, true) in HASTY_GRAPH["S"];
    assert !Absorbed(Row({END, Z}, {END}, {END, Z}), "S", Edge("E", {}, true));
  }

  /** Every rule of this grammar begins with a terminal. */
  lemma HastyLedBy(a: string, k: nat, c: Code)
    requires a in HASTY.rules && k < |HASTY.rules[a]|
    ensures HASTY.rules[a][k] != [] && HASTY.rules[a][k][0].T?
    ensures First(HASTY, HASTY.rules[a][k], c) <==> c == HASTY.rules[a][k][0].code && c != EMPTY
  {
    var rhs := HASTY.rules[a][k];
    assert rhs == [rhs[0]] + rhs[1..];
    FirstConcat(HASTY, [rhs[0]], rhs[1..], c);
    FirstTerminal(HASTY, rhs[0].code, c);
    FirstTerminal(HASTY, rhs[0].code, EMPTY);
  }

  lemma HastyNoEdge(a: string, b: string)
    ensures !LeftEdge(HASTY, a, b)
  {
    hide First;
    var g := HASTY;
    if LeftEdge(g, a, b) {
      var k: nat, j: nat :| LeftOccurrence(g, a, b, k, j);
      var rhs := g.rules[a][k];
      HastyLedBy(a, k, EMPTY);
      assert rhs == rhs[..j] + rhs[j..] && rhs[..j] == [rhs[0]] + rhs[1..j];
      FirstConcat(g, [rhs[0]], rhs[1..j], EMPTY);
      FirstTerminal(g, rhs[0].code, EMPTY);
    }
  }

  lemma HastyDisjoint()
    ensures FirstsDisjoint(HASTY)
  {
    hide First;
    forall a, i: nat, j: nat, c | a in HASTY.rules && i < j < |HASTY.rules[a]| && First(HASTY, HASTY.rules[a][i], c)
      ensures !First(HASTY, HASTY.rules[a][j], c)
    {
      HastyLedBy(a, i, c);
      HastyLedBy(a, j, c);
    }
  }

  lemma HastyRegular()
    ensures Regular(HASTY)
  {
    hide LeftEdge;
    HastyGraph();
    forall p ensures !LeftPath(HASTY, p) {
      if LeftPath(HASTY, p) {
        PathHasEdges(HASTY, p);
        HastyNoEdge(p[0], p[1]);
      }
    }
  }

  /** The exact FIRST sets of this grammar. */
  lemma HastyFirsts(fs: Sets)
    requires ExactFirsts(HASTY, fs)
    ensures fs == HASTY_FIRSTS
  {
    hide First;
    forall a | a in HASTY.rules ensures fs[a] == HASTY_FIRSTS[a] {
      forall c ensures c in fs[a] <==> c in HASTY_FIRSTS[a] {
        FirstNonterminal(HASTY, a, c);
        HastyLedBy(a, 0, c);
        if |HASTY.rules[a]| > 1 { HastyLedBy(a, 1, c); }
      }
    }
  }

  /** No rule vanishes, so the tables do not look at FOLLOW. */
  lemma HastyNeedsNoFollow(f: Sets)
    ensures NoRealConflict(HASTY, f) && FollowsEnough(HASTY, f)
  {
    hide First;
    forall a, k: nat | a in HASTY.rules && k < |HASTY.rules[a]| ensures !First(HASTY, HASTY.rules[a][k], EMPTY) {
      HastyLedBy(a, k, EMPTY);
    }
  }

  lemma HastyEquations(g: Grammar)
    requires g.Valid() && g.Value() == HASTY && g.FirstsDone()
    ensures g.Equations() == HASTY_GRAPH && g.entrypoint.name == "S"
  {
    hide Regular, FollowGraph, ExactFirsts, FirstsDisjoint, Grammar.FirstsDone;
    HastyRegular();
    RegularHasAll(HASTY);
    g.FirstsExactIff();
    HastyFirsts(g.memo.nts);
    g.EquationsAre();
    HastyGraph();
  }

  lemma HastyChecksOut(g: Grammar)
    requires g.Valid() && g.Value() == HASTY && g.FirstsDone() && g.AllRulesDone()
    requires forall n :: n in g.order ==> n.name in g.follow
    ensures g.AllCheckOut()
  {
    hide Regular, First, FirstsDisjoint, Grammar.FirstsDone, Grammar.AllCheckOut;
    HastyRegular();
    HastyDisjoint();
    g.CheckTestsFirsts();
    forall a, k: nat | a in HASTY.rules && k < |HASTY.rules[a]| ensures !First(HASTY, HASTY.rules[a][k], END) {
      HastyLedBy(a, k, END);
    }
    assert g.nonterminals.Keys == HASTY.rules.Keys;
  }

  lemma HastyOutcome(g: Grammar)
    requires g.Valid() && g.Value() == HASTY && g.Names() == HASTY_ORDER && g.FirstsDone() && g.AllRulesDone()
    requires g.Stopped() && g.NoEarlierStop(0) && forall n :: n in g.order ==> n.name in g.follow
    ensures g.rounds == 2 && g.follow.Keys == g.Equations().Keys && !Closed(g.Equations(), g.follow) && g.AllCheckOut()
  {
    hide Visits, Reported, Passes, Closed, WellFormedGraph, FollowGraph, Grammar.FirstsDone, Grammar.AllCheckOut;
    HastyChecksOut(g);
    HastyEquations(g);
    StopsTooSoon();
    StopsAtTwo(g);
  }

  lemma RegularHasAll(g: Cfg)
    requires Regular(g)
    ensures g.WellFormed() && g.EveryNonterminalHasRules() && NoLeftRecursion(g)
  {
  }

  lemma StopsAtTwo(g: Grammar)
    requires g.Valid() && g.FirstsDone() && g.Stopped() && g.NoEarlierStop(0)
    requires Reported(g.Equations(), g.entrypoint.name, g.Names(), 2)
             == Reported(g.Equations(), g.entrypoint.name, g.Names(), 1)
    ensures g.rounds == 2
  {
    hide Reported, Passes, FollowGraph, Grammar.FirstsDone, WellFormedGraph;
    StopFacts(g.Equations(), g.entrypoint.name, g.Names(), g.rounds);
  }

  /** On the objects: the analysis accepts this grammar after two passes, with FOLLOW sets that do not satisfy the
      equations, and its tables are right all the same. */
  method AnalyzeHasty() returns (g: Grammar, ok: bool)
    ensures g.Valid() && g.Value() == HASTY && ok && g.Accepted()
    ensures g.rounds == 2 && g.follow.Keys == g.Equations().Keys && !Closed(g.Equations(), g.follow)
    ensures AllDriven(HASTY, g.TableValue(), [N("S")])
  {
    HastyGraph();
    HastyKeys();
    g := Build(HASTY, HASTY_ORDER);
    ok := g.Analyze();
    HastyOutcome(g);
    HastyTables(g);
  }

  lemma HastyTables(g: Grammar)
    requires g.Accepted() && g.Value() == HASTY
    ensures AllDriven(HASTY, g.TableValue(), [N("S")])
  {
    hide Grammar.FirstsDone, Grammar.AllCheckOut, Grammar.AllTablesBuilt, Grammar.TableValue;
    hide Regular, Derives, Driven, TameInUse, NoRealConflict, FollowsEnough;
    HastyRegular();
    g.NoneIfRegular(HASTY);
    HastyNeedsNoFollow(g.follow);
    forall w, ks | Derives(HASTY, [N("S")], w, ks) ensures Driven(HASTY, g.TableValue(), [N("S")], w, ks) {
      g.TablesPredict(w, ks, ks);
    }
  }

  // ---------- the LL(1) check does not look at FOLLOW ----------

  // S := A 'a' ;  A := 'a' |
  const A: Code := 'a' as int

  const CONFLICT: Cfg := Cfg(map["S" := [[N("A"), T(A)]], "A" := [[T(A)], []]], "S")

  lemma ConflictChecksOut()
    ensures FirstsDisjoint(CONFLICT)
  {
    var g := CONFLICT;
    forall a, i, j, c | a in g.rules && 0 <= i < j < |g.rules[a]| && First(g, g.rules[a][i], c)
      ensures !First(g, g.rules[a][j], c)
    {
      FirstTerminal(g, A, c);
      FirstNothing(g, c);
    }
  }

  lemma ConflictDerivation()
    ensures Derives(CONFLICT, [N("A"), T(A)], [A], [1])
    ensures Derives(CONFLICT, [N("S")], [A], [0, 1])
  {
    var g, form := CONFLICT, [N("A"), T(A)];
    var last: Form := [T(A)];
    var one: seq<nat> := [1];
    assert last[1..] == [] && [A][1..] == [];
    assert Derives(g, last, [A], []);
    assert g.rules["A"][1] + form[1..] == last && one[1..] == [];
    assert Derives(g, form, [A], one);
    var start: Form := [N("S")];
    var both: seq<nat> := [0, 1];
    assert g.rules["S"][0] + start[1..] == form && both[1..] == one;
  }

  /** This grammar passes the LL(1) check, yet its table rejects the string `a`: in A at `a` the first
      rule is stored, while the only derivation needs the second. */
  lemma CheckMissesConflict(f: Sets, table: Table)
    requires f.Keys == CONFLICT.rules.Keys && IsTable(CONFLICT, f, table)
    ensures FirstsDisjoint(CONFLICT)
    ensures Derives(CONFLICT, [N("S")], [A], [0, 1]) && !Driven(CONFLICT, table, [N("S")], [A], [0, 1])
  {
    hide First, Derives, FirstsDisjoint;
    ConflictChecksOut();
    ConflictDerivation();
    var g := CONFLICT;
    FirstTerminal(g, A, A);
    assert TableAt(g, f, table, "A");
    assert Predicts(g, f, "A", 0, A);
    assert table["A"][A] == 0;
    var start: Form := [N("S")];
    var form: Form := [N("A"), T(A)];
    var both: seq<nat> := [0, 1];
    assert g.rules["S"][0] + start[1..] == form && both[1..] == [1];
    assert !Driven(g, table, form, [A], [1]);
  }

  lemma ConflictRegular()
    ensures Regular(CONFLICT)
  {
    hide First;
    var g := CONFLICT;
    forall a, b | LeftEdge(g, a, b) ensures a == "S" && b == "A" {
      var k: nat, j: nat :| LeftOccurrence(g, a, b, k, j);
    }
    forall p | LeftPath(g, p) ensures |p| > 0 && p[0] != p[|p| - 1] {
      PathHasEdges(g, p);
    }
  }

  lemma ConflictFirsts(a: string, k: nat)
    requires a in CONFLICT.rules && k < |CONFLICT.rules[a]|
    ensures !First(CONFLICT, CONFLICT.rules[a][k], END)
  {
    hide First;
    var g := CONFLICT;
    FirstTerminal(g, A, END);
    FirstNothing(g, END);
    FirstNonterminal(g, "A", END);
    assert g.rules["S"][0] == [N("A")] + [T(A)];
    FirstConcat(g, [N("A")], [T(A)], END);
  }

  /** On the objects: the analysis accepts this grammar, and its tables reject what it generates. */
  method AnalyzeConflict() returns (g: Grammar, ok: bool)
    ensures g.Valid() && g.Value() == CONFLICT && ok && g.Accepted()
    ensures Derives(CONFLICT, [N("S")], [A], [0, 1]) && !Driven(CONFLICT, g.TableValue(), [N("S")], [A], [0, 1])
  {
    ConflictOrder();
    g := Build(CONFLICT, ["S", "A"]);
    ok := g.Analyze();
    ConflictOutcome(g);
  }

  lemma ConflictOrder()
    ensures CONFLICT.WellFormed() && IsOrder(CONFLICT, ["S", "A"])
  {
    var order := ["S", "A"];
    assert order[0] == "S" && order[1] == "A";
  }

  lemma ConflictOutcome(g: Grammar)
    requires g.Valid() && g.Value() == CONFLICT && g.FirstsDone() && g.AllRulesDone()
    requires forall n :: n in g.order ==> n.name in g.follow
    ensures g.AllCheckOut() && Derives(CONFLICT, [N("S")], [A], [0, 1])
    ensures g.Accepted() ==> !Driven(CONFLICT, g.TableValue(), [N("S")], [A], [0, 1])
  {
    hide First, FirstsDisjoint, Derives, Driven, Grammar.FirstsDone, Grammar.AllCheckOut, Grammar.AllTablesBuilt, Tame;
    hide TableAt;
    ConflictRegular();
    ConflictChecksOut();
    ConflictDerivation();
    forall a, k: nat | a in CONFLICT.rules && k < |CONFLICT.rules[a]|
      ensures !First(CONFLICT, CONFLICT.rules[a][k], END)
    {
      ConflictFirsts(a, k);
    }
    g.CheckTestsFirsts();
    if g.Accepted() {
      AllTame(CONFLICT);
      forall a | a in CONFLICT.rules ensures a in g.TableValue() && TableAt(CONFLICT, g.follow, g.TableValue(), a) {
        g.TablesAreTables(a);
      }
      CheckMissesConflict(g.follow, g.TableValue());
    }
  }
}
