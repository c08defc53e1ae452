/** What the FOLLOW sets are worth when the loop stops: exactly when they are the least solution of
    the equations, and what makes sure of it. */
module FollowStop {
  import opened ContextFree
  import opened Follow

  /** What a nonterminal contributes to itself has gone on twice: to those that inherit from it, and from
      them to those that inherit from these. */
  ghost predicate TwoOn(graph: Graph, f: Sets) {
    forall b: string, e: Edge, d: Edge, h: Edge
      | Chain(graph, b, e, d, h) && h.target in f
      :: e.adds <= f[h.target]
  }

  /** `b` contributes to itself by `e`, passes on to the target of `d`, and this to the target of `h`. */
  ghost predicate Chain(graph: Graph, b: string, e: Edge, d: Edge, h: Edge) {
    && b in graph && e in graph[b] && e.target == b
    && d in graph[b] && d.inherits
    && d.target in graph && h in graph[d.target] && h.inherits
  }

  /** What a visit brings to a set comes from an occurrence of that set's nonterminal: it is contributed
      there, or is in the visited nonterminal's own set. */
  lemma {:induction false} VisitSource(f: Sets, b: string, es: seq<Edge>, a: string, c: Code)
    requires b in f && a in f && (forall e :: e in es ==> e.target in f)
    requires c in Visit(f, b, es)[a] && c !in f[a]
    ensures exists d :: d in es && d.target == a && (c in d.adds || (d.inherits && c in Visit(f, b, es)[b]))
  {
    var n := |es| - 1;
    var d, before := es[n], Visit(f, b, es[..n]);
    if c in before[a] {
      VisitSource(f, b, es[..n], a, c);
      var d' :| d' in es[..n] && d'.target == a && (c in d'.adds || (d'.inherits && c in before[b]));
      assert d' in es;
    } else {
      assert d in es;
    }
  }

  /** `b`, visited `j`-th, brings `c` to the set of `a`. */
  ghost predicate Brings(graph: Graph, f: Sets, order: seq<string>, j: nat, a: string, c: Code)
    requires Setting(graph, f, order)
  {
    && j < |order|
    && exists d :: d in graph[order[j]] && d.target == a
                   && (c in d.adds || (d.inherits && c in Counted(graph, f, order, j)))
  }

  /** What a set has by the end of a pass and had not after the first `i` visits, a later visit brought. */
  lemma {:induction false} LateArrival(graph: Graph, f: Sets, order: seq<string>, i: nat, m: nat, a: string, c: Code)
    returns (j: nat)
    requires Setting(graph, f, order) && i <= m <= |order| && a in graph
    requires c in After(graph, f, order, m)[a] && c !in After(graph, f, order, i)[a]
    ensures i <= j < m && Brings(graph, f, order, j, a, c)
    decreases m
  {
    AfterStep(graph, f, order, m);
    var before := After(graph, f, order, m - 1);
    if c in before[a] {
      j := LateArrival(graph, f, order, i, m - 1, a, c);
    } else {
      j := m - 1;
      VisitSource(before, order[j], graph[order[j]], a, c);
    }
  }

  lemma AfterFirst(graph: Graph, f: Sets, order: seq<string>)
    requires Setting(graph, f, order)
    ensures After(graph, f, order, 0) == f
  {
  }

  lemma PassIs(graph: Graph, f: Sets, order: seq<string>)
    requires Setting(graph, f, order)
    ensures Pass(graph, f, order) == After(graph, f, order, |order|)
  {
  }

  /** What a visit of the second of two passes with the same total brings, the first pass had brought
      already, unless it is the visited nonterminal's own contribution on its way. */
  lemma BroughtBefore(graph: Graph, f: Sets, order: seq<string>, j: nat, a: string, c: Code)
    requires Setting(graph, f, order) && Setting(graph, Pass(graph, f, order), order) && a in graph
    requires Brings(graph, Pass(graph, f, order), order, j, a, c)
    requires Counted(graph, f, order, j) == Counted(graph, Pass(graph, f, order), order, j)
    ensures c in Pass(graph, f, order)[a] || OwnOnItsWay(graph, order[j], a, c)
  {
    hide Pass, PassSum, Visit, WellFormedGraph, After, Apply;
    PassIs(graph, f, order);
    var f1, b, x := Pass(graph, f, order), order[j], After(graph, f, order, j);
    var d :| d in graph[b] && d.target == a && (c in d.adds || (d.inherits && c in Counted(graph, f1, order, j)));
    PassAbsorbsAdds(graph, f, order, b, d);
    if c !in d.adds {
      AfterStep(graph, f, order, j + 1);
      VisitOwn(x, b, graph[b], c);
      VisitAbsorbs(x, b, graph[b], d);
      AfterGrows(graph, f, order, j + 1, |order|);
    }
  }

  /** `b` contributes `c` to itself, and `a` inherits from it. */
  ghost predicate OwnOnItsWay(graph: Graph, b: string, a: string, c: Code) {
    && b in graph
    && (exists e :: e in graph[b] && e.target == b && c in e.adds)
    && (exists d :: d in graph[b] && d.target == a && d.inherits)
  }

  /** A code that is in a set after the second of two passes with the same total was there when the set's
      nonterminal was visited, or is another's own contribution on its way. */
  lemma ThereOrOnItsWay(graph: Graph, f: Sets, order: seq<string>, i: nat, c: Code)
    requires Setting(graph, f, order) && Setting(graph, Pass(graph, f, order), order) && i < |order|
    requires PassSum(graph, f, order) == PassSum(graph, Pass(graph, f, order), order)
    requires c in Pass(graph, Pass(graph, f, order), order)[order[i]]
    ensures c in After(graph, Pass(graph, f, order), order, i)[order[i]]
            || exists b :: OwnOnItsWay(graph, b, order[i], c)
  {
    hide Pass, PassSum, Visit, OwnOnItsWay, WellFormedGraph;
    var f1, a := Pass(graph, f, order), order[i];
    PassSumGrows(graph, f, order);
    AfterFirst(graph, f1, order);
    AfterGrows(graph, f1, order, 0, i);
    if c in After(graph, f1, order, i + 1)[a] {
      AfterStep(graph, f1, order, i + 1);
      OwnIsThere(graph, f, order, i, c);
    } else {
      PassIs(graph, f1, order);
      var j := LateArrival(graph, f1, order, i + 1, |order|, a, c);
      BroughtBefore(graph, f, order, j, a, c);
    }
  }

  /** From the second pass on, a visit brings nothing new to the visited nonterminal itself. */
  lemma OwnIsThere(graph: Graph, f: Sets, order: seq<string>, i: nat, c: Code)
    requires Setting(graph, f, order) && Setting(graph, Pass(graph, f, order), order) && i < |order|
    requires c in After(graph, Pass(graph, f, order), order, i + 1)[order[i]]
    ensures c in After(graph, Pass(graph, f, order), order, i)[order[i]]
  {
    hide Pass, PassSum, Visit, WellFormedGraph;
    var f1, a := Pass(graph, f, order), order[i];
    AfterStep(graph, f1, order, i + 1);
    VisitOwn(After(graph, f1, order, i), a, graph[a], c);
    AfterFirst(graph, f1, order);
    AfterGrows(graph, f1, order, 0, i);
    forall e | e in graph[a] && e.target == a ensures e.adds <= f1[a] {
      PassAbsorbsAdds(graph, f, order, a, e);
    }
  }

  lemma InheritedTwoOn(graph: Graph, f: Sets, order: seq<string>, a: string, h: Edge)
    requires Setting(graph, f, order) && Setting(graph, Pass(graph, f, order), order)
    requires PassSum(graph, f, order) == PassSum(graph, Pass(graph, f, order), order)
    requires TwoOn(graph, Pass(graph, Pass(graph, f, order), order))
    requires a in order && h in graph[a] && h.inherits
    ensures Pass(graph, Pass(graph, f, order), order)[a] <= Pass(graph, Pass(graph, f, order), order)[h.target]
  {
    hide Pass, PassSum, Visit;
    var f1 := Pass(graph, f, order);
    var r := Pass(graph, f1, order);
    var i :| 0 <= i < |order| && order[i] == a;
    AfterStep(graph, f1, order, i + 1);
    VisitAbsorbs(After(graph, f1, order, i), a, graph[a], h);
    AfterGrows(graph, f1, order, i + 1, |order|);
    PassIs(graph, f1, order);
    forall c | c in r[a] ensures c in r[h.target] {
      ThereOrOnItsWay(graph, f, order, i, c);
      if c !in After(graph, f1, order, i)[a] {
        var b :| OwnOnItsWay(graph, b, a, c);
        var e :| e in graph[b] && e.target == b && c in e.adds;
        var d :| d in graph[b] && d.target == a && d.inherits;
        assert Chain(graph, b, e, d, h);
      }
    }
  }

  /** When two passes in a row report the same total, the sets after them satisfy every equation if and
      only if own contributions have gone on twice. */
  lemma ClosedIffTwoOn(graph: Graph, f: Sets, order: seq<string>)
    requires Setting(graph, f, order) && Setting(graph, Pass(graph, f, order), order)
    requires forall a :: a in graph ==> a in order
    requires PassSum(graph, f, order) == PassSum(graph, Pass(graph, f, order), order)
    ensures var r := Pass(graph, Pass(graph, f, order), order); Closed(graph, r) <==> TwoOn(graph, r)
  {
    hide Pass, PassSum;
    var f1 := Pass(graph, f, order);
    var r := Pass(graph, f1, order);
    if Closed(graph, r) {
      forall b: string, e: Edge, d: Edge, h: Edge | Chain(graph, b, e, d, h) ensures e.adds <= r[h.target] {
        assert Absorbed(r, b, e) && Absorbed(r, b, d) && Absorbed(r, d.target, h);
      }
    }
    if TwoOn(graph, r) {
      forall a: string, e: Edge | a in graph && e in graph[a] ensures Absorbed(r, a, e) {
        PassAbsorbsAdds(graph, f1, order, a, e);
        if e.inherits { InheritedTwoOn(graph, f, order, a, e); }
      }
    }
  }

  /** Whenever the loop stops, the FOLLOW sets are the least solution of the equations if and only if what
      nonterminals contribute to themselves has gone on twice. */
  lemma StopIff(graph: Graph, start: string, order: seq<string>, p: nat)
    requires Visits(graph, start, order) && p > 0
    requires Reported(graph, start, order, p) == Reported(graph, start, order, p - 1)
    ensures IsLeastSolution(graph, start, Passes(graph, start, order, p))
            <==> TwoOn(graph, Passes(graph, start, order, p))
    ensures Closed(graph, Passes(graph, start, order, p)) <==> TwoOn(graph, Passes(graph, start, order, p))
  {
    StopFacts(graph, start, order, p);
    hide Pass, PassSum, Passes, Reported, Closed, TwoOn, WellFormedGraph, Leq;
    ClosedIffTwoOn(graph, Passes(graph, start, order, p - 2), order);
    if Closed(graph, Passes(graph, start, order, p)) { ClosedIsLeast(graph, start, order, p); }
  }

  /** A condition on the rules and the traversal order alone: own contributions that go on twice at all have a direct
      way there, or come back, or go on in time. */
  ghost predicate DirectWays(graph: Graph, order: seq<string>) {
    forall b: string, e: Edge, d: Edge, h: Edge
      | Chain(graph, b, e, d, h) && e.adds != {}
      :: h.target == b || h.target == d.target || (exists k :: k in graph[b] && k.target == h.target && k.inherits)
         || InTime(graph, order, b, e, d)
  }

  /** Two passes are enough for what `b` contributes to itself by `e` to go on by `d` and once more: the target of `d`
      is visited after `b`, or `d` stands behind `e` in the rules of `b`. */
  ghost predicate InTime(graph: Graph, order: seq<string>, b: string, e: Edge, d: Edge)
    requires b in graph
  {
    || (exists i, j :: 0 <= i < j < |order| && order[i] == b && order[j] == d.target)
    || (exists m, n :: 0 <= m < n < |graph[b]| && graph[b][m] == e && graph[b][n] == d)
  }

  /** An occurrence behind an own contribution passes it on in the same visit. */
  lemma {:induction false} VisitPassesOwn(f: Sets, a: string, es: seq<Edge>, m: nat, n: nat)
    requires a in f && (forall e :: e in es ==> e.target in f)
    requires m < n < |es| && es[m].target == a && es[n].inherits
    ensures es[m].adds <= Visit(f, a, es)[es[n].target]
  {
    var init := es[..|es| - 1];
    if n < |init| {
      VisitPassesOwn(f, a, init, m, n);
    } else {
      assert init[m] == es[m];
      VisitAbsorbs(f, a, init, es[m]);
    }
  }

  /** What a nonterminal has before a pass gets two occurrences further in it when the first leads to one visited
      later. */
  lemma LaterVisit(graph: Graph, f: Sets, order: seq<string>, i: nat, j: nat, d: Edge, h: Edge)
    requires Setting(graph, f, order) && i < j < |order|
    requires d in graph[order[i]] && d.inherits && d.target == order[j] && h in graph[order[j]] && h.inherits
    ensures f[order[i]] <= Pass(graph, f, order)[h.target]
  {
    hide Visit, WellFormedGraph;
    AfterGrows(graph, f, order, 0, i);
    AfterStep(graph, f, order, i + 1);
    VisitAbsorbs(After(graph, f, order, i), order[i], graph[order[i]], d);
    AfterGrows(graph, f, order, i + 1, j);
    AfterStep(graph, f, order, j + 1);
    VisitAbsorbs(After(graph, f, order, j), order[j], graph[order[j]], h);
    AfterGrows(graph, f, order, j + 1, |order|);
  }

  lemma PassPassesOwn(graph: Graph, f: Sets, order: seq<string>, b: string, m: nat, n: nat)
    requires Setting(graph, f, order) && b in order && m < n < |graph[b]|
    requires graph[b][m].target == b && graph[b][n].inherits
    ensures graph[b][m].adds <= Pass(graph, f, order)[graph[b][n].target]
  {
    hide Visit, WellFormedGraph;
    var i :| 0 <= i < |order| && order[i] == b;
    AfterStep(graph, f, order, i + 1);
    VisitPassesOwn(After(graph, f, order, i), b, graph[b], m, n);
    assert graph[b][n] in graph[b];
    AfterGrows(graph, f, order, i + 1, |order|);
  }

  lemma ChainKnown(graph: Graph, f: Sets, order: seq<string>, b: string, e: Edge, d: Edge, h: Edge)
    requires Setting(graph, f, order) && Chain(graph, b, e, d, h)
    ensures h.target in f
  {
  }

  /** Contributions that go on in time have gone on twice after two passes. */
  lemma InTimeTwoOn(graph: Graph, f: Sets, order: seq<string>, b: string, e: Edge, d: Edge, h: Edge)
    requires Setting(graph, f, order) && Setting(graph, Pass(graph, f, order), order)
    requires (forall a :: a in graph ==> a in order) && Chain(graph, b, e, d, h) && InTime(graph, order, b, e, d)
    ensures h.target in f && e.adds <= Pass(graph, Pass(graph, f, order), order)[h.target]
  {
    hide Pass, WellFormedGraph;
    var f1 := Pass(graph, f, order);
    ChainKnown(graph, f, order, b, e, d, h);
    PassAbsorbsAdds(graph, f, order, b, e);
    if i, j :| 0 <= i < j < |order| && order[i] == b && order[j] == d.target {
      LaterVisit(graph, f1, order, i, j, d, h);
    } else {
      var m, n :| 0 <= m < n < |graph[b]| && graph[b][m] == e && graph[b][n] == d;
      PassPassesOwn(graph, f, order, b, m, n);
      PassPassesOn(graph, f1, order, d.target, h);
    }
  }

  /** Each pass takes a contribution one occurrence further. */
  lemma PassesTake(graph: Graph, start: string, order: seq<string>, p: nat, a: string, e: Edge)
    requires Visits(graph, start, order) && p > 0 && a in graph && e in graph[a]
    ensures e.adds <= Passes(graph, start, order, p)[e.target]
    ensures e.inherits ==> Passes(graph, start, order, p - 1)[a] <= Passes(graph, start, order, p)[e.target]
  {
    hide Pass;
    var f := Passes(graph, start, order, p - 1);
    PassAbsorbsAdds(graph, f, order, a, e);
    if e.inherits { PassPassesOn(graph, f, order, a, e); }
  }

  /** When the loop stops after `p` passes, the sets are the least solution, provided that it made at least
      three passes or that the equations have direct ways for the order of the visits. */
  lemma StopIsLeastSolution(graph: Graph, start: string, order: seq<string>, p: nat)
    requires Visits(graph, start, order)
    requires p > 0 && Reported(graph, start, order, p) == Reported(graph, start, order, p - 1)
    requires p >= 3 || DirectWays(graph, order)
    ensures TwoOn(graph, Passes(graph, start, order, p))
    ensures IsLeastSolution(graph, start, Passes(graph, start, order, p))
  {
    StopFacts(graph, start, order, p);
    hide Pass, PassSum, Passes, Reported, Closed, WellFormedGraph, IsLeastSolution, InTime;
    var f := Passes(graph, start, order, p);
    forall b: string, e: Edge, d: Edge, h: Edge | Chain(graph, b, e, d, h) ensures e.adds <= f[h.target] {
      PassesTake(graph, start, order, p, b, e);
      PassesTake(graph, start, order, p - 1, b, e);
      PassesTake(graph, start, order, p, b, d);
      if p >= 3 {
        PassesTake(graph, start, order, p - 2, b, e);
        PassesTake(graph, start, order, p - 1, b, d);
        PassesTake(graph, start, order, p, d.target, h);
      } else if e.adds != {} && h.target != b && h.target != d.target {
        if InTime(graph, order, b, e, d) {
          InTimeTwoOn(graph, Passes(graph, start, order, p - 2), order, b, e, d, h);
        } else {
          var k :| k in graph[b] && k.target == h.target && k.inherits;
          PassesTake(graph, start, order, p, b, k);
        }
      }
    }
    StopIff(graph, start, order, p);
  }
}
