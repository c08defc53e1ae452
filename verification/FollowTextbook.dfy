/** When the FOLLOW sets are exactly the textbook ones, and how the code departs from the
    textbook otherwise. */
module FollowTextbook {
  import opened Wrappers
  import opened ContextFree
  import opened Follow
  import opened LL1

  /** With EMPTY among the codes gathered so far, the codes of every entry are added. */
  lemma {:induction false} GatherAll(g: Cfg, fs: Sets, rest: Form, acc: set<Code>, c: Code)
    requires ExactFirsts(g, fs) && Known(fs, rest) && EMPTY in acc
    ensures c in Gather(fs, rest, acc) <==> c in acc || exists i :: 0 <= i < |rest| && First(g, [rest[i]], c)
  {
    if rest != [] {
      EntryFirstsExact(g, fs, rest[0]);
      GatherAll(g, fs, rest[1..], acc + EntryFirsts(fs, rest[0]), c);
      assert forall i :: 0 <= i < |rest| - 1 ==> rest[1..][i] == rest[i + 1];
      assert forall i :: 0 < i < |rest| ==> rest[i] == rest[1..][i - 1];
    }
  }

  /** What is gathered behind an occurrence: the codes of the next entry, and if that can vanish, the codes of every
      later entry too, those behind an entry that cannot vanish among them. */
  lemma GatherIs(g: Cfg, fs: Sets, rest: Form, c: Code)
    requires ExactFirsts(g, fs) && Known(fs, rest) && rest != []
    ensures c in Gather(fs, rest, {}) <==>
            || First(g, [rest[0]], c)
            || (First(g, [rest[0]], EMPTY) && exists i :: 0 < i < |rest| && First(g, [rest[i]], c))
  {
    hide First;
    EntryFirstsExact(g, fs, rest[0]);
    var more := {} + EntryFirsts(fs, rest[0]);
    if EMPTY in more {
      GatherAll(g, fs, rest[1..], more, c);
      assert forall i :: 0 <= i < |rest| - 1 ==> rest[1..][i] == rest[i + 1];
      assert forall i :: 0 < i < |rest| ==> rest[i] == rest[1..][i - 1];
    }
  }

  /** In a form that vanishes as a whole, every entry can be the leading one. */
  lemma {:induction false} VanishingLeads(g: Cfg, rest: Form, i: nat, c: Code)
    requires First(g, rest, EMPTY) && i < |rest| && First(g, [rest[i]], c)
    ensures First(g, rest, c)
  {
    assert rest == [rest[0]] + rest[1..];
    FirstConcat(g, [rest[0]], rest[1..], EMPTY);
    FirstConcat(g, [rest[0]], rest[1..], c);
    if i > 0 { VanishingLeads(g, rest[1..], i - 1, c); }
  }

  /** The codes gathered behind an occurrence are the FIRST set of what stands there exactly when
      the next entry cannot vanish or everything behind can. In between, codes are added that
      cannot come next. */
  lemma GatherExactIff(g: Cfg, fs: Sets, rest: Form)
    requires ExactFirsts(g, fs) && Known(fs, rest) && rest != []
    ensures IsFirst(g, rest, Gather(fs, rest, {})) <==> (First(g, [rest[0]], EMPTY) ==> First(g, rest, EMPTY))
  {
    EntryFirstsExact(g, fs, rest[0]);
    assert rest == [rest[0]] + rest[1..];
    if First(g, [rest[0]], EMPTY) {
      GatherKeeps(fs, rest[1..], {} + EntryFirsts(fs, rest[0]));
      assert EMPTY in Gather(fs, rest, {});
      if First(g, rest, EMPTY) {
        forall c ensures c in Gather(fs, rest, {}) <==> First(g, rest, c) {
          if First(g, rest, c) { GatherCovers(g, fs, rest, {}, c); }
          if c in Gather(fs, rest, {}) {
            GatherIs(g, fs, rest, c);
            var i :| 0 <= i < |rest| && First(g, [rest[i]], c);
            VanishingLeads(g, rest, i, c);
          }
        }
      }
    } else {
      assert Gather(fs, rest, {}) == EntryFirsts(fs, rest[0]);
      forall c ensures c in Gather(fs, rest, {}) <==> First(g, rest, c) { FirstConcat(g, [rest[0]], rest[1..], c); }
    }
  }

  /** Behind every occurrence of a nonterminal, either the next entry cannot vanish or everything can. */
  ghost predicate NoGaps(g: Cfg) {
    forall a, k, j | a in g.rules && 0 <= k < |g.rules[a]| && 0 <= j < |g.rules[a][k]| - 1 && g.rules[a][k][j].N? ::
      First(g, [g.rules[a][k][j + 1]], EMPTY) ==> First(g, g.rules[a][k][j + 1..], EMPTY)
  }

  ghost predicate OccursAt(g: Cfg, path: seq<(nat, nat)>, i: nat, a: string) {
    FormAfter(g, path).Some? && i < |FormAfter(g, path).value| && FormAfter(g, path).value[i] == N(a)
  }

  /** Every nonterminal occurs in some form derived from the start symbol. */
  ghost predicate AllReachable(g: Cfg) {
    forall a :: a in g.rules ==> exists path: seq<(nat, nat)>, i: nat :: OccursAt(g, path, i, a)
  }

  /** The textbook FOLLOW sets. */
  ghost function Textbook(g: Cfg, u: set<Code>): (f: Sets)
    ensures f.Keys == g.rules.Keys
  {
    map a | a in g.rules :: set t | t in u && TextbookFollow(g, a, t)
  }

  /** What comes after `b` in a rule of `a` comes after `b` in any form that contains `a`. */
  lemma FollowInRule(g: Cfg, path: seq<(nat, nat)>, i: nat, a: string, k: nat, j: nat, t: Code)
    requires OccursAt(g, path, i, a) && a in g.rules && k < |g.rules[a]| && j < |g.rules[a][k]| && g.rules[a][k][j].N?
    requires var rest, post := g.rules[a][k][j + 1..], FormAfter(g, path).value[i + 1..];
             (t != EMPTY && First(g, rest, t)) || (First(g, rest, EMPTY) && CanFollow(g, post, t))
    ensures TextbookFollow(g, g.rules[a][k][j].name, t)
  {
    var form, rhs := FormAfter(g, path).value, g.rules[a][k];
    var rest, post := rhs[j + 1..], form[i + 1..];
    var path' := path + [(i, k)];
    assert path'[..|path'| - 1] == path;
    var form' := form[..i] + rhs + post;
    assert FormAfter(g, path') == Some(form');
    assert form'[i + j] == rhs[j] && form'[i + j + 1..] == rest + post;
    FirstConcat(g, rest, post, t);
    FirstConcat(g, rest, post, EMPTY);
    assert FollowsIn(g, path', i + j, rhs[j].name, t);
  }

  lemma TextbookSolves(g: Cfg, fs: Sets)
    requires g.WellFormed() && ExactFirsts(g, fs) && NoGaps(g) && AllReachable(g)
    ensures var graph := FollowGraph(g, fs);
            Closed(graph, Textbook(g, Universe(graph))) && Leq(Initial(graph, g.start), Textbook(g, Universe(graph)))
  {
    hide First;
    var graph := FollowGraph(g, fs);
    var u := Universe(graph);
    var f := Textbook(g, u);
    forall a: string, e: Edge | a in graph && e in graph[a] ensures Absorbed(f, a, e) {
      var k, j := EdgesOnly(fs, g.rules[a], |g.rules[a]|, e);
      OccurrenceAbsorbed(g, fs, a, k, j);
    }
    assert FollowsIn(g, [], 0, g.start, END) by {
      var form: Form := [N(g.start)];
      assert FormAfter(g, []) == Some(form) && form[1..] == [];
      FirstNothing(g, EMPTY);
    }
  }

  lemma OccurrenceAbsorbed(g: Cfg, fs: Sets, a: string, k: nat, j: nat)
    requires g.WellFormed() && ExactFirsts(g, fs) && NoGaps(g) && AllReachable(g)
    requires a in g.rules && k < |g.rules[a]| && j < |g.rules[a][k]| && g.rules[a][k][j].N?
    ensures Known(fs, g.rules[a][k])
    ensures Absorbed(Textbook(g, Universe(FollowGraph(g, fs))), a, EdgeAt(fs, g.rules[a][k], j))
  {
    hide First;
    var graph, rhs := FollowGraph(g, fs), g.rules[a][k];
    var u, rest, e, b := Universe(graph), rhs[j + 1..], EdgeAt(fs, rhs, j), rhs[j].name;
    var f := Textbook(g, u);
    EdgesCover(fs, g.rules[a], |g.rules[a]|, k, j);
    if rest == [] {
      FirstNothing(g, EMPTY);
    } else {
      GatherExactIff(g, fs, rest);
      assert IsFirst(g, rest, Gather(fs, rest, {}));
    }
    forall t | t in e.adds ensures t in f[b] {
      var path: seq<(nat, nat)>, i: nat :| OccursAt(g, path, i, a);
      FollowInRule(g, path, i, a, k, j, t);
      var n :| 0 <= n < |graph[a]| && graph[a][n] == e;
      assert t in graph[a][n].adds;
    }
    if e.inherits {
      assert First(g, rest, EMPTY);
      forall t | t in f[a] ensures t in f[b] {
        var path: seq<(nat, nat)>, i: nat :| FollowsIn(g, path, i, a, t);
        assert OccursAt(g, path, i, a);
        FollowInRule(g, path, i, a, k, j, t);
      }
    }
  }

  /** The least solution of the code's equations is the textbook's FOLLOW, for grammars without
      gaps and without unreachable nonterminals. */
  lemma FollowIsTextbook(g: Cfg, fs: Sets, f: Sets, a: string, t: Code)
    requires g.WellFormed() && ExactFirsts(g, fs) && IsLeastSolution(FollowGraph(g, fs), g.start, f)
    requires NoGaps(g) && AllReachable(g) && a in g.rules
    ensures t in f[a] <==> TextbookFollow(g, a, t)
  {
    TextbookSolves(g, fs);
    assert Leq(f, Textbook(g, Universe(FollowGraph(g, fs))));
    if TextbookFollow(g, a, t) { FollowContainsTextbook(g, fs, f, a, t); }
  }

  const B: Code := 'b' as int
  const C: Code := 'c' as int

  // S := A B 'c' ;  A := 'b' ;  B := 'b' |
  const GAP: Cfg := Cfg(map["S" := [[N("A"), N("B"), T(C)]], "A" := [[T(B)]], "B" := [[T(B)], []]], "S")

  /** Behind A, `b` or nothing, then `c`: that cannot vanish, but EMPTY is gathered with it, and A inherits what
      follows S. */
  lemma GapInherits(fs: Sets)
    requires ExactFirsts(GAP, fs)
    ensures var rhs := GAP.rules["S"][0];
            && Known(fs, rhs) && !First(GAP, rhs[1..], EMPTY)
            && EMPTY in Gather(fs, rhs[1..], {}) && EdgeAt(fs, rhs, 0).inherits
  {
    hide First;
    var g, rhs := GAP, GAP.rules["S"][0];
    var rest := rhs[1..];
    assert rest == [N("B")] + [T(C)];
    FirstConcat(g, [N("B")], [T(C)], EMPTY);
    FirstTerminal(g, C, EMPTY);
    FirstNothing(g, EMPTY);
    assert g.rules["B"][1] == [];
    FirstNonterminal(g, "B", EMPTY);
    EntryFirstsExact(g, fs, rest[0]);
    GatherKeeps(fs, rest[1..], {} + EntryFirsts(fs, rest[0]));
  }

  /** The symbols of the rules, of which END is none. */
  ghost predicate GapSymbols(form: Form) {
    forall i :: 0 <= i < |form| ==> form[i] in {N("A"), N("B"), T(B), T(C)}
  }

  lemma {:induction false} GapNeverEnd(form: Form)
    requires GapSymbols(form)
    ensures !First(GAP, form, END)
  {
    hide First;
    var g := GAP;
    FirstNothing(g, END);
    if form != [] {
      GapNeverEnd(form[1..]);
      assert form == [form[0]] + form[1..];
      FirstConcat(g, [form[0]], form[1..], END);
      FirstTerminal(g, B, END);
      FirstTerminal(g, C, END);
      FirstNonterminal(g, "A", END);
      FirstNonterminal(g, "B", END);
      assert g.rules["A"][0] == [T(B)] && g.rules["B"][0] == [T(B)] && g.rules["B"][1] == [];
    }
  }

  /** Every form derived from S but S itself ends in `c`. */
  lemma {:induction false} GapForms(path: seq<(nat, nat)>)
    requires FormAfter(GAP, path).Some?
    ensures var form := FormAfter(GAP, path).value;
            form == [N("S")] || (form != [] && form[|form| - 1] == T(C) && GapSymbols(form))
  {
    if path != [] {
      var before := path[..|path| - 1];
      var (p, k) := path[|path| - 1];
      GapForms(before);
      var form := FormAfter(GAP, before).value;
      var rhs, after := GAP.rules[form[p].name][k], FormAfter(GAP, path).value;
      assert after == form[..p] + rhs + form[p + 1..];
      if form == [N("S")] {
        assert after == rhs;
      } else {
        assert after[|after| - 1] == form[|form| - 1];
      }
    }
  }

  lemma GapCannotFollow(path: seq<(nat, nat)>, i: nat)
    ensures !FollowsIn(GAP, path, i, "A", END)
  {
    hide First, FormAfter;
    if FollowsIn(GAP, path, i, "A", END) {
      GapForms(path);
      var form := FormAfter(GAP, path).value;
      var rest := form[i + 1..];
      GapNeverEnd(rest);
      assert rest == rest[..|rest| - 1] + [T(C)];
      FirstConcat(GAP, rest[..|rest| - 1], [T(C)], EMPTY);
      FirstTerminal(GAP, C, EMPTY);
    }
  }

  /** So END, which every solution of the equations has in the set of A, cannot follow it. */
  lemma GapAddsEnd(fs: Sets, f: Sets)
    requires FollowSolution(GAP, fs, f)
    ensures "A" in f && END in f["A"] && !TextbookFollow(GAP, "A", END)
  {
    GapInherits(fs);
    GapEdge(fs, f);
    forall path: seq<(nat, nat)>, i: nat ensures !FollowsIn(GAP, path, i, "A", END) { GapCannotFollow(path, i); }
  }

  lemma GapEdge(fs: Sets, f: Sets)
    requires FollowSolution(GAP, fs, f) && Known(fs, GAP.rules["S"][0]) && EdgeAt(fs, GAP.rules["S"][0], 0).inherits
    ensures "A" in f && END in f["A"]
  {
    var g, rhs := GAP, GAP.rules["S"][0];
    EdgesCover(fs, g.rules["S"], 1, 0, 0);
    assert EdgeAt(fs, rhs, 0) in FollowGraph(g, fs)["S"];
    assert Absorbed(f, "S", EdgeAt(fs, rhs, 0));
    assert END in Initial(FollowGraph(g, fs), "S")["S"];
  }
}
