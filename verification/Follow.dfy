/** FOLLOW sets: the equations that one visit of a nonterminal solves, the pass over all
    nonterminals, and the test that stops the passes. */
module Follow {
  import opened ContextFree

  type Sets = map<string, set<Code>>

  ghost predicate Known(fs: Sets, form: Form) {
    forall j :: 0 <= j < |form| && form[j].N? ==> form[j].name in fs
  }

  /** What one entry adds to a FIRST set. */
  function EntryFirsts(fs: Sets, s: Symbol): set<Code>
    requires s.N? ==> s.name in fs
  {
    match s
    case T(x) => {x}
    case N(n) => fs[n]
  }

  /** The FIRST codes gathered from `rest`: entry after entry is added to `acc` until EMPTY
      is not in it. EMPTY is never taken out on the way, so once one entry can vanish every
      later entry is added. */
  function Gather(fs: Sets, rest: Form, acc: set<Code>): set<Code>
    requires Known(fs, rest)
  {
    if rest == [] then acc
    else
      var more := acc + EntryFirsts(fs, rest[0]);
      if EMPTY in more then Gather(fs, rest[1..], more) else more
  }

  /** What one occurrence of `target` in a rule of a nonterminal contributes to its FOLLOW set:
      the codes `adds`, and the nonterminal's own FOLLOW set when `inherits`. */
  datatype Edge = Edge(target: string, adds: set<Code>, inherits: bool)

  function EdgeAt(fs: Sets, rhs: Form, j: nat): Edge
    requires Known(fs, rhs) && j < |rhs| && rhs[j].N?
  {
    var next := Gather(fs, rhs[j + 1..], {});
    Edge(rhs[j].name, next - {EMPTY}, j + 1 == |rhs| || EMPTY in next)
  }

  /** The occurrences among the first `j` entries of a rule, in order. */
  function RuleEdges(fs: Sets, rhs: Form, j: nat): seq<Edge>
    requires Known(fs, rhs) && j <= |rhs|
  {
    if j == 0 then []
    else RuleEdges(fs, rhs, j - 1) + if rhs[j - 1].N? then [EdgeAt(fs, rhs, j - 1)] else []
  }

  /** The occurrences in the first `i` rules, in order. */
  function Edges(fs: Sets, rules: seq<Form>, i: nat): seq<Edge>
    requires i <= |rules| && forall k :: 0 <= k < |rules| ==> Known(fs, rules[k])
  {
    if i == 0 then [] else Edges(fs, rules, i - 1) + RuleEdges(fs, rules[i - 1], |rules[i - 1]|)
  }

  type Graph = map<string, seq<Edge>>

  function FollowGraph(g: Cfg, fs: Sets): (e: Graph)
    requires g.WellFormed() && fs.Keys == g.rules.Keys
    ensures e.Keys == g.rules.Keys
  {
    map a | a in g.rules :: Edges(fs, g.rules[a], |g.rules[a]|)
  }

  lemma {:induction false} RuleEdgesCover(fs: Sets, rhs: Form, n: nat, j: nat)
    requires Known(fs, rhs) && j < n <= |rhs| && rhs[j].N?
    ensures EdgeAt(fs, rhs, j) in RuleEdges(fs, rhs, n)
  {
    if j < n - 1 { RuleEdgesCover(fs, rhs, n - 1, j); }
  }

  lemma {:induction false} EdgesCover(fs: Sets, rules: seq<Form>, n: nat, k: nat, j: nat)
    requires k < n <= |rules| && forall i :: 0 <= i < |rules| ==> Known(fs, rules[i])
    requires j < |rules[k]| && rules[k][j].N?
    ensures EdgeAt(fs, rules[k], j) in Edges(fs, rules, n)
  {
    if k < n - 1 {
      EdgesCover(fs, rules, n - 1, k, j);
    } else {
      RuleEdgesCover(fs, rules[k], |rules[k]|, j);
    }
  }

  lemma {:induction false} RuleEdgesOnly(fs: Sets, rhs: Form, n: nat, e: Edge) returns (j: nat)
    requires Known(fs, rhs) && n <= |rhs| && e in RuleEdges(fs, rhs, n)
    ensures j < n && rhs[j].N? && e == EdgeAt(fs, rhs, j)
  {
    if e in RuleEdges(fs, rhs, n - 1) { j := RuleEdgesOnly(fs, rhs, n - 1, e); } else { j := n - 1; }
  }

  lemma {:induction false} EdgesOnly(fs: Sets, rules: seq<Form>, n: nat, e: Edge) returns (k: nat, j: nat)
    requires n <= |rules| && forall i :: 0 <= i < |rules| ==> Known(fs, rules[i])
    requires e in Edges(fs, rules, n)
    ensures k < n && j < |rules[k]| && rules[k][j].N? && e == EdgeAt(fs, rules[k], j)
  {
    if e in Edges(fs, rules, n - 1) {
      k, j := EdgesOnly(fs, rules, n - 1, e);
    } else {
      k := n - 1;
      j := RuleEdgesOnly(fs, rules[k], |rules[k]|, e);
    }
  }

  lemma FollowGraphWellFormed(g: Cfg, fs: Sets)
    requires g.WellFormed() && fs.Keys == g.rules.Keys
    ensures WellFormedGraph(FollowGraph(g, fs))
  {
    var graph := FollowGraph(g, fs);
    forall a: string, e: Edge | a in graph && e in graph[a] ensures e.target in graph && EMPTY !in e.adds {
      var k, j := EdgesOnly(fs, g.rules[a], |g.rules[a]|, e);
      assert g.rules[a][k][j].N?;
    }
  }

  // ---------- one visit, one pass ----------

  ghost predicate WellFormedGraph(graph: Graph) {
    forall a: string, e: Edge :: a in graph && e in graph[a] ==> e.target in graph && EMPTY !in e.adds
  }

  function Apply(f: Sets, a: string, e: Edge): (f': Sets)
    requires a in f && e.target in f
    ensures f'.Keys == f.Keys
  {
    f[e.target := f[e.target] + (if e.inherits then f[a] else {}) + e.adds]
  }

  /** Visiting `a`: its occurrences `es` one after the other, each seeing the sets as they are by then. */
  function Visit(f: Sets, a: string, es: seq<Edge>): (f': Sets)
    requires a in f && forall e :: e in es ==> e.target in f
    ensures f'.Keys == f.Keys
  {
    if es == [] then f else Apply(Visit(f, a, es[..|es| - 1]), a, es[|es| - 1])
  }

  /** The sets after the first `i` visits of a pass. */
  function After(graph: Graph, f: Sets, order: seq<string>, i: nat): (f': Sets)
    requires WellFormedGraph(graph) && f.Keys == graph.Keys && i <= |order|
    requires forall a :: a in order ==> a in graph
    ensures f'.Keys == f.Keys
  {
    if i == 0 then f else Visit(After(graph, f, order, i - 1), order[i - 1], graph[order[i - 1]])
  }

  /** The set of the `i`-th visited nonterminal just after its visit, when the pass counts it.
      Later visits of the same pass can still enlarge it. */
  function Counted(graph: Graph, f: Sets, order: seq<string>, i: nat): set<Code>
    requires WellFormedGraph(graph) && f.Keys == graph.Keys && i < |order|
    requires forall a :: a in order ==> a in graph
  {
    After(graph, f, order, i + 1)[order[i]]
  }

  function CountedSets(graph: Graph, f: Sets, order: seq<string>): (s: seq<set<Code>>)
    requires WellFormedGraph(graph) && f.Keys == graph.Keys && forall a :: a in order ==> a in graph
    ensures |s| == |order|
  {
    seq(|order|, i requires 0 <= i < |order| => Counted(graph, f, order, i))
  }

  function Total(sets: seq<set<Code>>): nat {
    if sets == [] then 0 else Total(sets[..|sets| - 1]) + |sets[|sets| - 1]|
  }

  /** What one more visit does to the sets and to the running total. */
  lemma VisitInPass(graph: Graph, f: Sets, order: seq<string>, i: nat)
    requires WellFormedGraph(graph) && f.Keys == graph.Keys && i < |order|
    requires forall a :: a in order ==> a in graph
    ensures After(graph, f, order, i + 1) == Visit(After(graph, f, order, i), order[i], graph[order[i]])
    ensures Total(CountedSets(graph, f, order)[..i + 1])
            == Total(CountedSets(graph, f, order)[..i]) + |After(graph, f, order, i + 1)[order[i]]|
  {
    var counted := CountedSets(graph, f, order);
    assert counted[..i + 1][..i] == counted[..i];
  }

  function Pass(graph: Graph, f: Sets, order: seq<string>): (f': Sets)
    requires WellFormedGraph(graph) && f.Keys == graph.Keys && forall a :: a in order ==> a in graph
    ensures f'.Keys == f.Keys
  {
    After(graph, f, order, |order|)
  }

  function PassSum(graph: Graph, f: Sets, order: seq<string>): nat
    requires WellFormedGraph(graph) && f.Keys == graph.Keys && forall a :: a in order ==> a in graph
  {
    Total(CountedSets(graph, f, order))
  }

  lemma PassBegins(graph: Graph, f: Sets, order: seq<string>)
    requires WellFormedGraph(graph) && f.Keys == graph.Keys && forall a :: a in order ==> a in graph
    ensures After(graph, f, order, 0) == f && Total(CountedSets(graph, f, order)[..0]) == 0
  {}

  lemma PassComplete(graph: Graph, f: Sets, order: seq<string>)
    requires WellFormedGraph(graph) && f.Keys == graph.Keys && forall a :: a in order ==> a in graph
    ensures After(graph, f, order, |order|) == Pass(graph, f, order)
    ensures Total(CountedSets(graph, f, order)[..|order|]) == PassSum(graph, f, order)
  {
    assert CountedSets(graph, f, order)[..|order|] == CountedSets(graph, f, order);
  }

  /** The sets before the first pass: END for the entry point, nothing else. */
  function Initial(graph: Graph, start: string): (f: Sets)
    ensures f.Keys == graph.Keys
  {
    map a | a in graph :: if a == start then {END} else {}
  }

  ghost predicate Leq(f: Sets, h: Sets) {
    f.Keys == h.Keys && forall a :: a in f ==> f[a] <= h[a]
  }

  /** `f` solves the equations of one visit at every nonterminal at once. */
  ghost predicate Closed(graph: Graph, f: Sets) {
    f.Keys == graph.Keys && forall a: string, e: Edge :: a in graph && e in graph[a] ==> Absorbed(f, a, e)
  }

  ghost predicate Absorbed(f: Sets, a: string, e: Edge) {
    && a in f && e.target in f
    && e.adds <= f[e.target]
    && (e.inherits ==> f[a] <= f[e.target])
  }

  /** The least solution that has END in the entry point's set. */
  ghost predicate IsLeastSolution(graph: Graph, start: string, f: Sets) {
    && Closed(graph, f) && Leq(Initial(graph, start), f)
    && forall h :: Closed(graph, h) && Leq(Initial(graph, start), h) ==> Leq(f, h)
  }

  /** The two unions of the code make one application of an occurrence. */
  lemma TwoUnions(f: Sets, f1: Sets, a: string, e: Edge)
    requires a in f && e.target in f
    requires f1 == if e.inherits then f[e.target := f[e.target] + f[a]] else f
    ensures f1[e.target := f1[e.target] + e.adds] == Apply(f, a, e)
  {
    assert f1[e.target] == f[e.target] + if e.inherits then f[a] else {};
  }

  lemma VisitRuleStep(f: Sets, a: string, fs: Sets, rhs: Form, j: nat)
    requires a in f && Known(fs, rhs) && j < |rhs| && forall e :: e in RuleEdges(fs, rhs, j) ==> e.target in f
    requires rhs[j].N? ==> rhs[j].name in f
    ensures forall e :: e in RuleEdges(fs, rhs, j + 1) ==> e.target in f
    ensures Visit(f, a, RuleEdges(fs, rhs, j + 1))
            == if rhs[j].N? then Apply(Visit(f, a, RuleEdges(fs, rhs, j)), a, EdgeAt(fs, rhs, j))
               else Visit(f, a, RuleEdges(fs, rhs, j))
  {
    var es := RuleEdges(fs, rhs, j);
    if rhs[j].N? {
      var e := EdgeAt(fs, rhs, j);
      assert (es + [e])[..|es + [e]| - 1] == es;
    } else {
      assert RuleEdges(fs, rhs, j + 1) == es;
    }
  }

  lemma {:induction false} VisitAppend(f: Sets, a: string, es: seq<Edge>, more: seq<Edge>)
    requires a in f && (forall e :: e in es ==> e.target in f) && (forall e :: e in more ==> e.target in f)
    ensures Visit(f, a, es + more) == Visit(Visit(f, a, es), a, more)
  {
    if more == [] {
      assert es + more == es;
    } else {
      var n := |more| - 1;
      assert (es + more)[..|es + more| - 1] == es + more[..n];
      VisitAppend(f, a, es, more[..n]);
    }
  }

  lemma VisitNothing(f: Sets, a: string, fs: Sets, rhs: Form)
    requires a in f && Known(fs, rhs)
    ensures RuleEdges(fs, rhs, 0) == [] && Visit(f, a, RuleEdges(fs, rhs, 0)) == f
  {}

  lemma VisitNoRules(f: Sets, a: string, fs: Sets, rules: seq<Form>)
    requires a in f && forall k :: 0 <= k < |rules| ==> Known(fs, rules[k])
    ensures Edges(fs, rules, 0) == [] && Visit(f, a, Edges(fs, rules, 0)) == f
  {}

  lemma VisitNextRule(f: Sets, a: string, fs: Sets, rules: seq<Form>, i: nat)
    requires a in f && i < |rules| && forall k :: 0 <= k < |rules| ==> Known(fs, rules[k])
    requires forall e :: e in Edges(fs, rules, i) ==> e.target in f
    requires forall e :: e in RuleEdges(fs, rules[i], |rules[i]|) ==> e.target in f
    ensures forall e :: e in Edges(fs, rules, i + 1) ==> e.target in f
    ensures Visit(f, a, Edges(fs, rules, i + 1))
            == Visit(Visit(f, a, Edges(fs, rules, i)), a, RuleEdges(fs, rules[i], |rules[i]|))
  {
    VisitAppend(f, a, Edges(fs, rules, i), RuleEdges(fs, rules[i], |rules[i]|));
  }

  lemma {:induction false} VisitGrows(f: Sets, a: string, es: seq<Edge>)
    requires a in f && forall e :: e in es ==> e.target in f
    ensures Leq(f, Visit(f, a, es))
  {
    if es != [] { VisitGrows(f, a, es[..|es| - 1]); }
  }

  /** A visit leaves nothing of what it contributes out. */
  lemma {:induction false} VisitAbsorbs(f: Sets, a: string, es: seq<Edge>, e: Edge)
    requires a in f && (forall d :: d in es ==> d.target in f) && e in es
    ensures e.adds <= Visit(f, a, es)[e.target]
    ensures e.inherits ==> f[a] <= Visit(f, a, es)[e.target]
  {
    var init := es[..|es| - 1];
    VisitGrows(f, a, init);
    if e in init { VisitAbsorbs(f, a, init, e); }
  }

  lemma {:induction false} VisitBelow(f: Sets, h: Sets, a: string, es: seq<Edge>)
    requires a in f && (forall e :: e in es ==> e.target in f) && Leq(f, h)
    requires forall e :: e in es ==> Absorbed(h, a, e)
    ensures Leq(Visit(f, a, es), h)
  {
    if es != [] {
      assert Absorbed(h, a, es[|es| - 1]);
      VisitBelow(f, h, a, es[..|es| - 1]);
    }
  }

  /** Once the equations hold, visiting changes nothing. */
  lemma VisitFixed(f: Sets, a: string, es: seq<Edge>)
    requires a in f && (forall e :: e in es ==> e.target in f)
    requires forall e :: e in es ==> Absorbed(f, a, e)
    ensures Visit(f, a, es) == f
  {
    VisitBelow(f, f, a, es);
    VisitGrows(f, a, es);
    var v := Visit(f, a, es);
    assert forall x :: x in f ==> v[x] == f[x];
  }

  ghost predicate Setting(graph: Graph, f: Sets, order: seq<string>) {
    && WellFormedGraph(graph) && f.Keys == graph.Keys
    && (forall a :: a in order ==> a in graph)
    && (forall i, j :: 0 <= i < j < |order| ==> order[i] != order[j])
  }

  lemma LeqSelf(f: Sets)
    ensures Leq(f, f)
  {
  }

  lemma LeqChain(f: Sets, g: Sets, h: Sets)
    requires Leq(f, g) && Leq(g, h)
    ensures Leq(f, h)
  {
  }

  /** The last visit of a pass so far. */
  lemma AfterStep(graph: Graph, f: Sets, order: seq<string>, i: nat)
    requires Setting(graph, f, order) && 0 < i <= |order|
    ensures var before := After(graph, f, order, i - 1);
            && order[i - 1] in before && order[i - 1] in graph
            && (forall e :: e in graph[order[i - 1]] ==> e.target in before)
            && After(graph, f, order, i) == Visit(before, order[i - 1], graph[order[i - 1]])
  {
  }

  lemma {:induction false} AfterGrows(graph: Graph, f: Sets, order: seq<string>, i: nat, j: nat)
    requires Setting(graph, f, order) && i <= j <= |order|
    ensures Leq(After(graph, f, order, i), After(graph, f, order, j))
    decreases j
  {
    hide Visit, After, Leq, WellFormedGraph;
    if i == j {
      LeqSelf(After(graph, f, order, i));
    } else {
      AfterStep(graph, f, order, j);
      var before := After(graph, f, order, j - 1);
      AfterGrows(graph, f, order, i, j - 1);
      VisitGrows(before, order[j - 1], graph[order[j - 1]]);
      LeqChain(After(graph, f, order, i), before, After(graph, f, order, j));
    }
  }

  lemma {:induction false} AfterBelow(graph: Graph, f: Sets, h: Sets, order: seq<string>, i: nat)
    requires Setting(graph, f, order) && i <= |order| && Leq(f, h) && Closed(graph, h)
    ensures Leq(After(graph, f, order, i), h)
  {
    if i > 0 {
      AfterBelow(graph, f, h, order, i - 1);
      VisitBelow(After(graph, f, order, i - 1), h, order[i - 1], graph[order[i - 1]]);
    }
  }

  /** Passes never leave the least solution. */
  lemma PassBelow(graph: Graph, f: Sets, h: Sets, order: seq<string>)
    requires Setting(graph, f, order) && Leq(f, h) && Closed(graph, h)
    ensures Leq(Pass(graph, f, order), h)
  {
    AfterBelow(graph, f, h, order, |order|);
  }

  // ---------- the stopping test ----------

  lemma {:induction false} TotalGrows(small: seq<set<Code>>, big: seq<set<Code>>)
    requires |small| == |big| && forall i :: 0 <= i < |small| ==> small[i] <= big[i]
    ensures Total(small) <= Total(big)
    ensures Total(small) == Total(big) ==> small == big
  {
    var n := |small| - 1;
    if n >= 0 {
      TotalGrows(small[..n], big[..n]);
      SubsetSize(small[n], big[n]);
      assert small == small[..n] + [small[n]] && big == big[..n] + [big[n]];
    }
  }

  lemma CountedGrows(graph: Graph, f: Sets, order: seq<string>, i: nat)
    requires Setting(graph, f, order) && i < |order|
    ensures Counted(graph, f, order, i) <= Pass(graph, f, order)[order[i]]
                                       <= Counted(graph, Pass(graph, f, order), order, i)
  {
    AfterGrows(graph, f, order, i + 1, |order|);
    AfterGrows(graph, Pass(graph, f, order), order, 0, i + 1);
  }

  lemma PassSumGrows(graph: Graph, f: Sets, order: seq<string>)
    requires Setting(graph, f, order)
    ensures PassSum(graph, f, order) <= PassSum(graph, Pass(graph, f, order), order)
    ensures PassSum(graph, f, order) == PassSum(graph, Pass(graph, f, order), order)
            ==> forall i :: 0 <= i < |order| ==>
                              Counted(graph, f, order, i) == Counted(graph, Pass(graph, f, order), order, i)
  {
    var f1 := Pass(graph, f, order);
    var before, after := CountedSets(graph, f, order), CountedSets(graph, f1, order);
    forall i | 0 <= i < |order| ensures before[i] <= after[i] {
      CountedGrows(graph, f, order, i);
    }
    TotalGrows(before, after);
    if before == after {
      forall i | 0 <= i < |order| ensures Counted(graph, f, order, i) == Counted(graph, f1, order, i) {
        assert before[i] == after[i];
      }
    }
  }

  /** One pass puts every FIRST contribution in place. */
  lemma PassAbsorbsAdds(graph: Graph, f: Sets, order: seq<string>, a: string, e: Edge)
    requires Setting(graph, f, order) && a in order && a in graph && e in graph[a]
    ensures e.adds <= Pass(graph, f, order)[e.target]
  {
    var i :| 0 <= i < |order| && order[i] == a;
    VisitAbsorbs(After(graph, f, order, i), a, graph[a], e);
    AfterGrows(graph, f, order, i + 1, |order|);
  }

  /** What a nonterminal contributes to itself has gone on to those that inherit from it. */
  ghost predicate OwnAddsReach(graph: Graph, f: Sets) {
    forall a: string, e: Edge, d: Edge
      | a in graph && e in graph[a] && d in graph[a] && d.target in f && e.target == a && d.inherits
      :: e.adds <= f[d.target]
  }

  /** A visit leaves in the visited nonterminal's set what was there and what it contributes to itself. */
  lemma {:induction false} VisitOwn(f: Sets, a: string, es: seq<Edge>, c: Code)
    requires a in f && (forall e :: e in es ==> e.target in f) && c in Visit(f, a, es)[a]
    ensures c in f[a] || exists e :: e in es && e.target == a && c in e.adds
  {
    if es != [] {
      var e := es[|es| - 1];
      if e.target == a && c in e.adds {
        assert e in es;
      } else {
        VisitOwn(f, a, es[..|es| - 1], c);
      }
    }
  }

  lemma InheritedReaches(graph: Graph, f: Sets, order: seq<string>, a: string, d: Edge)
    requires Setting(graph, f, order) && a in order && d in graph[a] && d.inherits
    requires PassSum(graph, f, order) == PassSum(graph, Pass(graph, f, order), order)
    requires OwnAddsReach(graph, Pass(graph, f, order))
    ensures Pass(graph, f, order)[a] <= Pass(graph, f, order)[d.target]
  {
    var f1 := Pass(graph, f, order);
    var i :| 0 <= i < |order| && order[i] == a;
    var x := After(graph, f, order, i);
    PassSumGrows(graph, f, order);
    CountedGrows(graph, f, order, i);
    VisitAbsorbs(x, a, graph[a], d);
    AfterGrows(graph, f, order, i + 1, |order|);
    hide Pass, PassSum, Visit, Setting;
    forall c | c in f1[a] ensures c in f1[d.target] {
      assert c in Visit(x, a, graph[a])[a];
      VisitOwn(x, a, graph[a], c);
      if c !in x[a] {
        var e :| e in graph[a] && e.target == a && c in e.adds;
        assert e.adds <= f1[d.target];
      }
    }
  }

  /** When two passes in a row report the same total, the sets between them satisfy every equation if
      and only if no nonterminal has contributed to itself what those that inherit from it lack: the
      passes count a set before its own contributions have gone on. */
  lemma EqualSumsClosedIff(graph: Graph, f: Sets, order: seq<string>)
    requires Setting(graph, f, order) && (forall a :: a in graph ==> a in order)
    requires PassSum(graph, f, order) == PassSum(graph, Pass(graph, f, order), order)
    ensures Closed(graph, Pass(graph, f, order)) <==> OwnAddsReach(graph, Pass(graph, f, order))
  {
    var f1 := Pass(graph, f, order);
    if Closed(graph, f1) {
      forall a: string, e: Edge, d: Edge | a in graph && e in graph[a] && d in graph[a] && e.target == a && d.inherits
        ensures e.adds <= f1[d.target]
      {
        assert Absorbed(f1, a, e) && Absorbed(f1, a, d);
      }
    }
    if OwnAddsReach(graph, f1) {
      forall a: string, e: Edge | a in graph && e in graph[a] ensures Absorbed(f1, a, e) {
        PassAbsorbsAdds(graph, f, order, a, e);
        if e.inherits { InheritedReaches(graph, f, order, a, e); }
      }
    }
  }

  lemma {:induction false} ClosedAfter(graph: Graph, f: Sets, order: seq<string>, i: nat)
    requires Setting(graph, f, order) && Closed(graph, f) && i <= |order|
    ensures After(graph, f, order, i) == f
  {
    if i > 0 {
      ClosedAfter(graph, f, order, i - 1);
      VisitFixed(f, order[i - 1], graph[order[i - 1]]);
    }
  }

  /** The sets after `p` passes. */
  ghost function Passes(graph: Graph, start: string, order: seq<string>, p: nat): (f: Sets)
    requires WellFormedGraph(graph) && forall a :: a in order ==> a in graph
    ensures f.Keys == graph.Keys
  {
    if p == 0 then Initial(graph, start) else Pass(graph, Passes(graph, start, order, p - 1), order)
  }

  /** The total that pass `p` reports; 0 stands for "no pass yet". */
  ghost function Reported(graph: Graph, start: string, order: seq<string>, p: nat): nat
    requires WellFormedGraph(graph) && forall a :: a in order ==> a in graph
  {
    if p == 0 then 0 else PassSum(graph, Passes(graph, start, order, p - 1), order)
  }

  lemma NextPass(graph: Graph, start: string, order: seq<string>, p: nat)
    requires WellFormedGraph(graph) && forall a :: a in order ==> a in graph
    ensures Passes(graph, start, order, p + 1) == Pass(graph, Passes(graph, start, order, p), order)
    ensures Reported(graph, start, order, p + 1) == PassSum(graph, Passes(graph, start, order, p), order)
  {}

  lemma NoPass(graph: Graph, start: string, order: seq<string>)
    requires WellFormedGraph(graph) && forall a :: a in order ==> a in graph
    ensures Passes(graph, start, order, 0) == Initial(graph, start) && Reported(graph, start, order, 0) == 0
  {}

  /** The nonterminals of `order` are those of `graph`, each once, the entry point among them. */
  ghost predicate Visits(graph: Graph, start: string, order: seq<string>) {
    && WellFormedGraph(graph) && start in graph
    && (forall a :: a in order <==> a in graph)
    && (forall i, j :: 0 <= i < j < |order| ==> order[i] != order[j])
  }

  lemma {:induction false} PassesBelow(graph: Graph, start: string, order: seq<string>, p: nat, h: Sets)
    requires Visits(graph, start, order) && Closed(graph, h) && Leq(Initial(graph, start), h)
    ensures Leq(Passes(graph, start, order, p), h)
  {
    hide Pass, Closed, Leq, WellFormedGraph;
    if p > 0 {
      PassesBelow(graph, start, order, p - 1, h);
      PassBelow(graph, Passes(graph, start, order, p - 1), h, order);
    }
  }

  lemma {:induction false} PassesGrow(graph: Graph, start: string, order: seq<string>, p: nat)
    requires Visits(graph, start, order)
    ensures Leq(Initial(graph, start), Passes(graph, start, order, p))
  {
    hide WellFormedGraph;
    if p > 0 {
      PassesGrow(graph, start, order, p - 1);
      AfterGrows(graph, Passes(graph, start, order, p - 1), order, 0, |order|);
    }
  }

  /** The first pass never stops the loop: it counts END. */
  lemma FirstPassReports(graph: Graph, start: string, order: seq<string>)
    requires Visits(graph, start, order)
    ensures Reported(graph, start, order, 1) > 0
  {
    var f := Initial(graph, start);
    var i :| 0 <= i < |order| && order[i] == start;
    AfterGrows(graph, f, order, 0, i + 1);
    SubsetSize({END}, Counted(graph, f, order, i));
    TotalIncludes(CountedSets(graph, f, order), i);
  }

  lemma ReportedPositive(graph: Graph, start: string, order: seq<string>, p: nat)
    requires Visits(graph, start, order) && p > 0
    ensures Reported(graph, start, order, p) > 0
  {
    if p == 1 {
      FirstPassReports(graph, start, order);
    } else {
      ReportedPositive(graph, start, order, p - 1);
      ReportedBounded(graph, start, order, p);
    }
  }

  lemma {:induction false} TotalIncludes(sets: seq<set<Code>>, i: nat)
    requires i < |sets|
    ensures |sets[i]| <= Total(sets)
  {
    if i < |sets| - 1 { TotalIncludes(sets[..|sets| - 1], i); }
  }

  /** When the loop stops, it has made two passes at least, and the last two report the same. */
  lemma StopFacts(graph: Graph, start: string, order: seq<string>, p: nat)
    requires Visits(graph, start, order) && p > 0
    requires Reported(graph, start, order, p) == Reported(graph, start, order, p - 1)
    ensures p >= 2
    ensures var f, f1 := Passes(graph, start, order, p - 2), Passes(graph, start, order, p - 1);
            && f1 == Pass(graph, f, order) && Passes(graph, start, order, p) == Pass(graph, f1, order)
            && Setting(graph, f, order) && Setting(graph, f1, order) && (forall a :: a in graph ==> a in order)
            && PassSum(graph, f, order) == PassSum(graph, f1, order)
  {
    FirstPassReports(graph, start, order);
    hide PassSum, Pass;
    NoPass(graph, start, order);
  }

  /** Whenever the loop stops, its last pass changed nothing if and only if own contributions had gone on
      before it; then the result is the least solution. */
  lemma LastPassStable(graph: Graph, start: string, order: seq<string>, p: nat)
    requires Visits(graph, start, order) && p > 0
    requires Reported(graph, start, order, p) == Reported(graph, start, order, p - 1)
    ensures Passes(graph, start, order, p) == Passes(graph, start, order, p - 1)
            <==> OwnAddsReach(graph, Passes(graph, start, order, p - 1))
    ensures OwnAddsReach(graph, Passes(graph, start, order, p - 1))
            ==> IsLeastSolution(graph, start, Passes(graph, start, order, p))
  {
    hide Pass, PassSum, Closed, WellFormedGraph, Leq, OwnAddsReach, Passes, Reported, IsLeastSolution;
    StopFacts(graph, start, order, p);
    var f, f1 := Passes(graph, start, order, p - 2), Passes(graph, start, order, p - 1);
    EqualSumsClosedIff(graph, f, order);
    if Closed(graph, f1) { ClosedIsLeast(graph, start, order, p - 1); }
    if Passes(graph, start, order, p) == f1 { StableClosed(graph, f1, order); }
  }

  /** Once the sets satisfy every equation a pass leaves them alone, and they are the least to do so. */
  lemma ClosedIsLeast(graph: Graph, start: string, order: seq<string>, p: nat)
    requires Visits(graph, start, order) && Closed(graph, Passes(graph, start, order, p))
    ensures Pass(graph, Passes(graph, start, order, p), order) == Passes(graph, start, order, p)
    ensures IsLeastSolution(graph, start, Passes(graph, start, order, p))
  {
    hide Leq, WellFormedGraph, Passes;
    var f := Passes(graph, start, order, p);
    ClosedAfter(graph, f, order, |order|);
    PassesGrow(graph, start, order, p);
    forall h | Closed(graph, h) && Leq(Initial(graph, start), h) ensures Leq(f, h) {
      PassesBelow(graph, start, order, p, h);
    }
  }

  /** A pass that changes nothing has nothing to change. */
  lemma StableClosed(graph: Graph, f: Sets, order: seq<string>)
    requires Setting(graph, f, order) && (forall a :: a in graph ==> a in order) && Pass(graph, f, order) == f
    ensures Closed(graph, f)
  {
    hide Pass;
    forall a: string, e: Edge | a in graph && e in graph[a] ensures Absorbed(f, a, e) {
      PassAbsorbsAdds(graph, f, order, a, e);
      if e.inherits { PassPassesOn(graph, f, order, a, e); }
    }
  }

  lemma PassPassesOn(graph: Graph, f: Sets, order: seq<string>, a: string, e: Edge)
    requires Setting(graph, f, order) && a in order && e in graph[a] && e.inherits
    ensures f[a] <= Pass(graph, f, order)[e.target]
  {
    var i :| 0 <= i < |order| && order[i] == a;
    AfterGrows(graph, f, order, 0, i);
    VisitAbsorbs(After(graph, f, order, i), a, graph[a], e);
    AfterGrows(graph, f, order, i + 1, |order|);
  }

  // ---------- the loop terminates ----------

  /** Everything that can end up in a FOLLOW set. */
  ghost function Universe(graph: Graph): set<Code> {
    {END} + set a, i, c | a in graph && 0 <= i < |graph[a]| && c in graph[a][i].adds :: c
  }

  lemma {:induction false} TotalBound(sets: seq<set<Code>>, u: set<Code>)
    requires forall i :: 0 <= i < |sets| ==> sets[i] <= u
    ensures Total(sets) <= |sets| * |u|
  {
    var n := |sets| - 1;
    if n >= 0 {
      TotalBound(sets[..n], u);
      SubsetSize(sets[n], u);
      assert |sets| * |u| == n * |u| + |u|;
    }
  }

  ghost function SumBound(graph: Graph, order: seq<string>): nat {
    |order| * |Universe(graph)|
  }

  ghost function Everything(graph: Graph): (h: Sets)
    ensures h.Keys == graph.Keys
  {
    map a | a in graph :: Universe(graph)
  }

  lemma EverythingCloses(graph: Graph, start: string)
    requires WellFormedGraph(graph)
    ensures Closed(graph, Everything(graph)) && Leq(Initial(graph, start), Everything(graph))
  {
    forall a: string, e: Edge | a in graph && e in graph[a] ensures Absorbed(Everything(graph), a, e) {
      var i :| 0 <= i < |graph[a]| && graph[a][i] == e;
      assert forall c :: c in e.adds ==> c in graph[a][i].adds && c in Universe(graph);
    }
  }

  lemma PassSumBound(graph: Graph, f: Sets, order: seq<string>)
    requires Setting(graph, f, order) && Leq(f, Everything(graph))
    ensures PassSum(graph, f, order) <= SumBound(graph, order)
  {
    var counted := CountedSets(graph, f, order);
    forall i | 0 <= i < |order| ensures counted[i] <= Universe(graph) {
      EverythingCloses(graph, "");
      AfterBelow(graph, f, Everything(graph), order, i + 1);
    }
    TotalBound(counted, Universe(graph));
  }

  /** The reported totals never fall and have a common bound, so they must repeat. */
  lemma ReportedBounded(graph: Graph, start: string, order: seq<string>, p: nat)
    requires Visits(graph, start, order)
    ensures Reported(graph, start, order, p) <= SumBound(graph, order)
    ensures p > 0 ==> Reported(graph, start, order, p - 1) <= Reported(graph, start, order, p)
  {
    hide Everything, SumBound, PassSum, Pass, Closed, Leq;
    if p > 0 {
      EverythingCloses(graph, start);
      PassesBelow(graph, start, order, p - 1, Everything(graph));
      PassSumBound(graph, Passes(graph, start, order, p - 1), order);
      if p > 1 { PassSumGrows(graph, Passes(graph, start, order, p - 2), order); }
    }
  }

  /** No FOLLOW set ever contains EMPTY. */
  lemma NeverEmpty(graph: Graph, start: string, order: seq<string>, p: nat, a: string)
    requires Visits(graph, start, order) && a in graph
    ensures EMPTY !in Passes(graph, start, order, p)[a]
  {
    EverythingCloses(graph, start);
    PassesBelow(graph, start, order, p, Everything(graph));
    assert forall b: string, i :: b in graph && 0 <= i < |graph[b]| ==> graph[b][i] in graph[b];
    assert EMPTY !in Universe(graph);
  }
}
