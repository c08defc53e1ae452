/** What the FIRST and FOLLOW sets are for: a parse table built from them predicts every
    step of every leftmost derivation. */
module LL1 {
  import opened Wrappers
  import opened ContextFree
  import opened Follow

  /** The computed FIRST sets are the textbook ones. */
  ghost predicate ExactFirsts(g: Cfg, fs: Sets) {
    fs.Keys == g.rules.Keys && forall n :: n in g.rules ==> IsFirst(g, [N(n)], fs[n])
  }

  /** `f` solves the FOLLOW equations that the exact FIRST sets give rise to. */
  ghost predicate FollowSolution(g: Cfg, fs: Sets, f: Sets) {
    && g.WellFormed() && ExactFirsts(g, fs)
    && Closed(FollowGraph(g, fs), f) && Leq(Initial(FollowGraph(g, fs), g.start), f)
  }

  // ---------- FOLLOW contains the textbook FOLLOW ----------

  /** The form reached from the start symbol by rewriting, at each step, position `p` with rule `k`. */
  ghost function FormAfter(g: Cfg, path: seq<(nat, nat)>): Option<Form> {
    if path == [] then Some([N(g.start)])
    else
      var (p, k) := path[|path| - 1];
      match FormAfter(g, path[..|path| - 1])
      case None => None
      case Some(form) =>
        if p < |form| && form[p].N? && form[p].name in g.rules && k < |g.rules[form[p].name]|
        then Some(form[..p] + g.rules[form[p].name][k] + form[p + 1..])
        else None
  }

  /** `t` can come right after the occurrence of `a` at position `i` of a sentential form. */
  ghost predicate FollowsIn(g: Cfg, path: seq<(nat, nat)>, i: nat, a: string, t: Code) {
    && FormAfter(g, path).Some?
    && var form := FormAfter(g, path).value;
    && i < |form| && form[i] == N(a) && CanFollow(g, form[i + 1..], t)
  }

  ghost predicate CanFollow(g: Cfg, rest: Form, t: Code) {
    (t != EMPTY && First(g, rest, t)) || (t == END && First(g, rest, EMPTY))
  }

  ghost predicate TextbookFollow(g: Cfg, a: string, t: Code) {
    exists path: seq<(nat, nat)>, i: nat :: FollowsIn(g, path, i, a, t)
  }

  /** Whatever can come after a nonterminal of `form` is in its set. */
  ghost predicate Covers(g: Cfg, f: Sets, form: Form) {
    forall i, t :: 0 <= i < |form| && form[i].N? && CanFollow(g, form[i + 1..], t) ==> InFollow(f, form[i].name, t)
  }

  ghost predicate InFollow(f: Sets, a: string, t: Code) {
    a in f && t in f[a]
  }

  lemma {:induction false} GatherKeeps(fs: Sets, rest: Form, acc: set<Code>)
    requires Known(fs, rest)
    ensures acc <= Gather(fs, rest, acc)
  {
    if rest != [] && EMPTY in acc + EntryFirsts(fs, rest[0]) {
      GatherKeeps(fs, rest[1..], acc + EntryFirsts(fs, rest[0]));
    }
  }

  lemma {:induction false} GatherCovers(g: Cfg, fs: Sets, rest: Form, acc: set<Code>, c: Code)
    requires ExactFirsts(g, fs) && Known(fs, rest) && rest != [] && First(g, rest, c)
    ensures c in Gather(fs, rest, acc)
  {
    var s, more := rest[0], acc + EntryFirsts(fs, rest[0]);
    assert rest == [s] + rest[1..];
    FirstConcat(g, [s], rest[1..], c);
    EntryFirstsExact(g, fs, s);
    if EMPTY in more { GatherKeeps(fs, rest[1..], more); }
    if !(c != EMPTY && First(g, [s], c)) {
      if rest[1..] == [] {
        FirstNothing(g, c);
      } else {
        GatherCovers(g, fs, rest[1..], more, c);
      }
    }
  }

  lemma EntryFirstsExact(g: Cfg, fs: Sets, s: Symbol)
    requires ExactFirsts(g, fs) && (s.N? ==> s.name in fs)
    ensures IsFirst(g, [s], EntryFirsts(fs, s))
  {
    if s.T? {
      forall c ensures c in EntryFirsts(fs, s) <==> First(g, [s], c) { FirstTerminal(g, s.code, c); }
    }
  }

  /** Inside a rule that stands before `post`, the equations account for what follows each nonterminal. */
  lemma RuleCovered(g: Cfg, fs: Sets, f: Sets, a: string, k: nat, j: nat, post: Form, t: Code)
    requires FollowSolution(g, fs, f)
    requires a in g.rules && k < |g.rules[a]| && j < |g.rules[a][k]| && g.rules[a][k][j].N?
    requires forall u :: CanFollow(g, post, u) ==> InFollow(f, a, u)
    requires CanFollow(g, g.rules[a][k][j + 1..] + post, t)
    ensures InFollow(f, g.rules[a][k][j].name, t)
  {
    var rhs := g.rules[a][k];
    var rest := rhs[j + 1..];
    var e := EdgeAt(fs, rhs, j);
    EdgesCover(fs, g.rules[a], |g.rules[a]|, k, j);
    assert e in FollowGraph(g, fs)[a];
    assert Absorbed(f, a, e);
    var c := if t != EMPTY && First(g, rest + post, t) then t else EMPTY;
    FirstConcat(g, rest, post, c);
    if c != EMPTY && First(g, rest, c) {
      if rest == [] { FirstNothing(g, c); } else { GatherCovers(g, fs, rest, {}, c); }
    } else {
      assert CanFollow(g, post, t);
      if rest != [] { GatherCovers(g, fs, rest, {}, EMPTY); }
    }
  }

  lemma StepKeepsCovers(g: Cfg, fs: Sets, f: Sets, pre: Form, a: string, k: nat, post: Form)
    requires FollowSolution(g, fs, f) && Covers(g, f, pre + [N(a)] + post)
    requires a in g.rules && k < |g.rules[a]|
    ensures Covers(g, f, pre + g.rules[a][k] + post)
  {
    var rhs := g.rules[a][k];
    var old_, new_ := pre + [N(a)] + post, pre + rhs + post;
    forall i, t | 0 <= i < |new_| && new_[i].N? && CanFollow(g, new_[i + 1..], t)
      ensures InFollow(f, new_[i].name, t)
    {
      if i < |pre| {
        var mid := pre[i + 1..];
        assert new_[i + 1..] == mid + rhs + post && old_[i + 1..] == mid + [N(a)] + post && old_[i] == new_[i];
        RewriteFirst(g, mid, a, k, post, t);
        RewriteFirst(g, mid, a, k, post, EMPTY);
        assert CanFollow(g, old_[i + 1..], t);
      } else if i < |pre| + |rhs| {
        var j := i - |pre|;
        assert new_[i] == rhs[j] && new_[i + 1..] == rhs[j + 1..] + post;
        assert old_[|pre|] == N(a) && old_[|pre| + 1..] == post;
        assert forall u :: CanFollow(g, post, u) ==> InFollow(f, a, u);
        RuleCovered(g, fs, f, a, k, j, post, t);
      } else {
        var j := i - |rhs| + 1;
        assert old_[j] == new_[i] && old_[j + 1..] == new_[i + 1..];
      }
    }
  }

  /** What a rewritten form exposes, the form before exposes too. */
  lemma RewriteFirst(g: Cfg, pre: Form, a: string, k: nat, post: Form, c: Code)
    requires a in g.rules && k < |g.rules[a]|
    ensures First(g, pre + g.rules[a][k] + post, c) ==> First(g, pre + [N(a)] + post, c)
  {
    var rhs := g.rules[a][k];
    FirstConcat(g, pre + rhs, post, c);
    FirstConcat(g, pre + [N(a)], post, c);
    forall d | d == c || d == EMPTY
      ensures First(g, pre + rhs, d) ==> First(g, pre + [N(a)], d)
    {
      FirstConcat(g, pre, rhs, d);
      FirstConcat(g, pre, [N(a)], d);
      FirstNonterminal(g, a, d);
    }
  }

  lemma StartCovered(g: Cfg, fs: Sets, f: Sets)
    requires FollowSolution(g, fs, f)
    ensures Covers(g, f, [N(g.start)])
  {
    var form: Form := [N(g.start)];
    forall i, t | 0 <= i < |form| && CanFollow(g, form[i + 1..], t) ensures InFollow(f, form[i].name, t) {
      assert form[i + 1..] == [];
      FirstNothing(g, t);
      assert END in Initial(FollowGraph(g, fs), g.start)[g.start];
    }
  }

  lemma {:induction false} SententialCovered(g: Cfg, fs: Sets, f: Sets, path: seq<(nat, nat)>)
    requires FollowSolution(g, fs, f) && FormAfter(g, path).Some?
    ensures Covers(g, f, FormAfter(g, path).value)
  {
    if path == [] {
      StartCovered(g, fs, f);
    } else {
      var init := path[..|path| - 1];
      var (p, k) := path[|path| - 1];
      SententialCovered(g, fs, f, init);
      var form := FormAfter(g, init).value;
      assert form == form[..p] + [form[p]] + form[p + 1..];
      StepKeepsCovers(g, fs, f, form[..p], form[p].name, k, form[p + 1..]);
    }
  }

  /** Every solution of the code's FOLLOW equations contains the textbook FOLLOW sets. */
  lemma FollowContainsTextbook(g: Cfg, fs: Sets, f: Sets, a: string, t: Code)
    requires FollowSolution(g, fs, f) && TextbookFollow(g, a, t)
    ensures a in f && t in f[a]
  {
    var path: seq<(nat, nat)>, i: nat :| FollowsIn(g, path, i, a, t);
    SententialCovered(g, fs, f, path);
    var form := FormAfter(g, path).value;
    assert InFollow(f, form[i].name, t);
  }

  // ---------- prediction ----------

  /** The table of `a` gets an entry for rule `k` at `t`, unless an earlier rule has taken it. */
  ghost predicate Predicts(g: Cfg, f: Sets, a: string, k: nat, t: Code) {
    && a in g.rules && k < |g.rules[a]| && a in f
    && ((t != EMPTY && First(g, g.rules[a][k], t)) || (First(g, g.rules[a][k], EMPTY) && t in f[a]))
  }

  /** What the LL(1) check tests: the FIRST sets of the rules of a nonterminal are pairwise disjoint. */
  ghost predicate FirstsDisjoint(g: Cfg) {
    forall a :: a in g.rules ==> DisjointAt(g, a)
  }

  ghost predicate DisjointAt(g: Cfg, a: string)
    requires a in g.rules
  {
    forall i, j, c :: 0 <= i < j < |g.rules[a]| && First(g, g.rules[a][i], c) ==> !First(g, g.rules[a][j], c)
  }

  /** What the LL(1) check leaves out: a vanishing rule against the tokens that lead the other rules. */
  ghost predicate FollowsDisjoint(g: Cfg, f: Sets) {
    forall a, i, j, c :: a in g.rules && a in f && 0 <= i < |g.rules[a]| && 0 <= j < |g.rules[a]| && i != j
                         && First(g, g.rules[a][i], EMPTY) && c in f[a]
                         ==> !First(g, g.rules[a][j], c)
  }

  type Table = map<string, map<Code, nat>>

  /** The table holds, for each nonterminal and token, the first rule that is predicted, and nothing else. */
  ghost predicate IsTable(g: Cfg, f: Sets, table: Table) {
    table.Keys == g.rules.Keys && forall a :: a in table ==> TableAt(g, f, table, a)
  }

  ghost predicate TableAt(g: Cfg, f: Sets, table: Table, a: string)
    requires a in table
  {
    && (forall t :: t in table[a] ==> Predicts(g, f, a, table[a][t], t))
    && (forall k, t :: Predicts(g, f, a, k, t) ==> t in table[a] && table[a][t] <= k)
  }

  /** The next token, END at the end of the input. */
  function Lookahead(w: seq<Code>): Code {
    if w == [] then END else w[0]
  }

  /** A leftmost derivation each of whose choices is the table's entry for the next token. */
  ghost predicate Driven(g: Cfg, table: Table, form: Form, w: seq<Code>, ks: seq<nat>)
    decreases |ks|, |form|
  {
    if form == [] then w == [] && ks == []
    else match form[0]
      case T(x) =>
        if x == EMPTY then Driven(g, table, form[1..], w, ks)
        else w != [] && w[0] == x && Driven(g, table, form[1..], w[1..], ks)
      case N(a) =>
        && ks != [] && a in g.rules && ks[0] < |g.rules[a]|
        && a in table && Lookahead(w) in table[a] && table[a][Lookahead(w)] == ks[0]
        && Driven(g, table, g.rules[a][ks[0]] + form[1..], w, ks[1..])
  }

  lemma DerivesAt(g: Cfg, table: Table, form: Form, w: seq<Code>, ks: seq<nat>)
    requires form != [] && Derives(g, form, w, ks)
    ensures form[0].T? ==>
              var v := if form[0].code == EMPTY then w else w[1..];
              (form[0].code != EMPTY ==> w != [] && w[0] == form[0].code)
              && Derives(g, form[1..], v, ks) && (Driven(g, table, form[1..], v, ks) ==> Driven(g, table, form, w, ks))
    ensures form[0].N? ==>
              var a, t := form[0].name, Lookahead(w);
              && ks != [] && a in g.rules && ks[0] < |g.rules[a]|
              && Derives(g, g.rules[a][ks[0]] + form[1..], w, ks[1..])
    ensures form[0].N? && form[0].name in table && Lookahead(w) in table[form[0].name]
              && table[form[0].name][Lookahead(w)] == ks[0]
              && Driven(g, table, g.rules[form[0].name][ks[0]] + form[1..], w, ks[1..])
            ==> Driven(g, table, form, w, ks)
  {
  }

  lemma SolutionKeys(g: Cfg, fs: Sets, f: Sets)
    requires FollowSolution(g, fs, f)
    ensures f.Keys == g.rules.Keys
  {
  }

  lemma {:induction false} DrivenDerives(g: Cfg, table: Table, form: Form, w: seq<Code>, ks: seq<nat>)
    requires Driven(g, table, form, w, ks)
    ensures Derives(g, form, w, ks)
    decreases |ks|, |form|
  {
    if form != [] {
      match form[0]
      case T(x) => DrivenDerives(g, table, form[1..], if x == EMPTY then w else w[1..], ks);
      case N(a) => DrivenDerives(g, table, g.rules[a][ks[0]] + form[1..], w, ks[1..]);
    }
  }

  /** Following the table leaves no choice. */
  lemma {:induction false} DrivenUnique(g: Cfg, table: Table, form: Form, w: seq<Code>, ks: seq<nat>, ls: seq<nat>)
    requires Driven(g, table, form, w, ks) && Driven(g, table, form, w, ls)
    ensures ks == ls
    decreases |ks|, |form|
  {
    if form != [] {
      match form[0]
      case T(x) => DrivenUnique(g, table, form[1..], if x == EMPTY then w else w[1..], ks, ls);
      case N(a) =>
        DrivenUnique(g, table, g.rules[a][ks[0]] + form[1..], w, ks[1..], ls[1..]);
        assert ks == [ks[0]] + ks[1..] && ls == [ls[0]] + ls[1..];
    }
  }
}
