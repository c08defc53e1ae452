/** Context-free grammars as values, and what they derive.

    A leftmost derivation is named by the sequence of rule numbers it uses, so
    "has a derivation" is an existential over sequences of numbers and
    "has at most one derivation" is an equality of such sequences. */
module ContextFree {

  /** A token code, as in `token_code_t`. */
  type Code = int

  const EMPTY: Code := 2
  const END: Code := 12

  /** One entry of a rule: a terminal with its token code, or a nonterminal by name. */
  datatype Symbol = T(code: Code) | N(name: string)

  type Form = seq<Symbol>

  datatype Cfg = Cfg(rules: map<string, seq<Form>>, start: string) {
    /** Every nonterminal that is mentioned is in the grammar. */
    ghost predicate WellFormed() {
      && start in rules
      && forall a, k, j :: a in rules && 0 <= k < |rules[a]| && 0 <= j < |rules[a][k]| && rules[a][k][j].N?
                           ==> rules[a][k][j].name in rules
    }

    ghost predicate EveryNonterminalHasRules() {
      forall a :: a in rules ==> rules[a] != []
    }
  }

  /** Choosing rules `ks` for the leftmost nonterminals of `form` leaves `c` as the
      leading terminal, or, when `c` is EMPTY, leaves nothing at all. */
  ghost predicate Exposes(g: Cfg, form: Form, ks: seq<nat>, c: Code)
    decreases |ks|, |form|
  {
    if form == [] then ks == [] && c == EMPTY
    else match form[0]
      case T(x) => if x == EMPTY then Exposes(g, form[1..], ks, c) else ks == [] && c == x
      case N(a) =>
        && ks != [] && a in g.rules && ks[0] < |g.rules[a]|
        && Exposes(g, g.rules[a][ks[0]] + form[1..], ks[1..], c)
  }

  /** The textbook FIRST set: the terminals that can lead a form derived from `form`,
      with EMPTY standing for "derives the empty string". */
  ghost predicate First(g: Cfg, form: Form, c: Code) {
    exists ks :: Exposes(g, form, ks, c)
  }

  ghost predicate IsFirst(g: Cfg, form: Form, codes: set<Code>) {
    forall c :: c in codes <==> First(g, form, c)
  }

  /** The leftmost derivation that uses rules `ks` turns `form` into the tokens `w`. */
  ghost predicate Derives(g: Cfg, form: Form, w: seq<Code>, ks: seq<nat>)
    decreases |ks|, |form|
  {
    if form == [] then w == [] && ks == []
    else match form[0]
      case T(x) =>
        if x == EMPTY then Derives(g, form[1..], w, ks)
        else w != [] && w[0] == x && Derives(g, form[1..], w[1..], ks)
      case N(a) =>
        && ks != [] && a in g.rules && ks[0] < |g.rules[a]|
        && Derives(g, g.rules[a][ks[0]] + form[1..], w, ks[1..])
  }

  lemma {:induction false} ExposesAppend(g: Cfg, a: Form, b: Form, ks: seq<nat>, ls: seq<nat>, c: Code)
    requires Exposes(g, a, ks, EMPTY) && Exposes(g, b, ls, c)
    ensures Exposes(g, a + b, ks + ls, c)
    decreases |ks|, |a|
  {
    if a == [] {
      assert a + b == b && ks + ls == ls;
    } else {
      assert (a + b)[1..] == a[1..] + b;
      match a[0]
      case T(x) => ExposesAppend(g, a[1..], b, ks, ls, c);
      case N(n) =>
        var rhs := g.rules[n][ks[0]];
        ExposesAppend(g, rhs + a[1..], b, ks[1..], ls, c);
        assert (ks + ls)[1..] == ks[1..] + ls;
        assert rhs + (a + b)[1..] == rhs + a[1..] + b;
    }
  }

  lemma {:induction false} ExposesPrefix(g: Cfg, a: Form, b: Form, ks: seq<nat>, c: Code)
    requires Exposes(g, a, ks, c) && c != EMPTY
    ensures Exposes(g, a + b, ks, c)
    decreases |ks|, |a|
  {
    assert (a + b)[1..] == a[1..] + b;
    match a[0]
    case T(x) => if x == EMPTY { ExposesPrefix(g, a[1..], b, ks, c); }
    case N(n) =>
      var rhs := g.rules[n][ks[0]];
      ExposesPrefix(g, rhs + a[1..], b, ks[1..], c);
      assert rhs + (a + b)[1..] == rhs + a[1..] + b;
  }

  /** What `a + b` exposes, either `a` exposes by itself, or `a` vanishes after `i` choices. */
  lemma {:induction false} ExposesSplit(g: Cfg, a: Form, b: Form, ks: seq<nat>, c: Code) returns (i: nat)
    requires Exposes(g, a + b, ks, c)
    ensures i <= |ks|
    ensures (c != EMPTY && Exposes(g, a, ks, c)) || (Exposes(g, a, ks[..i], EMPTY) && Exposes(g, b, ks[i..], c))
    decreases |ks|, |a|
  {
    if a == [] {
      i := 0;
      assert a + b == b && ks[0..] == ks;
    } else {
      assert (a + b)[1..] == a[1..] + b;
      match a[0]
      case T(x) =>
        if x == EMPTY { i := ExposesSplit(g, a[1..], b, ks, c); } else { i := 0; }
      case N(n) =>
        var rhs := g.rules[n][ks[0]];
        assert rhs + (a + b)[1..] == rhs + a[1..] + b;
        var j := ExposesSplit(g, rhs + a[1..], b, ks[1..], c);
        i := j + 1;
        assert ks[1..][..j] == ks[..i][1..] && ks[1..][j..] == ks[i..];
    }
  }

  lemma FirstConcat(g: Cfg, a: Form, b: Form, c: Code)
    ensures First(g, a + b, c) <==> (c != EMPTY && First(g, a, c)) || (First(g, a, EMPTY) && First(g, b, c))
  {
    if First(g, a + b, c) {
      var ks :| Exposes(g, a + b, ks, c);
      var i := ExposesSplit(g, a, b, ks, c);
    }
    if c != EMPTY && First(g, a, c) {
      var ks :| Exposes(g, a, ks, c);
      ExposesPrefix(g, a, b, ks, c);
    }
    if First(g, a, EMPTY) && First(g, b, c) {
      var ks :| Exposes(g, a, ks, EMPTY);
      var ls :| Exposes(g, b, ls, c);
      ExposesAppend(g, a, b, ks, ls, c);
    }
  }

  lemma FirstNothing(g: Cfg, c: Code)
    ensures First(g, [], c) <==> c == EMPTY
  {
    assert Exposes(g, [], [], EMPTY);
  }

  lemma FirstTerminal(g: Cfg, x: Code, c: Code)
    ensures First(g, [T(x)], c) <==> c == x
  {
    var form := [T(x)];
    assert form[1..] == [];
    assert Exposes(g, form, [], x);
    if First(g, form, c) {
      var ks :| Exposes(g, form, ks, c);
      assert x == EMPTY ==> Exposes(g, form[1..], ks, c);
    }
  }

  lemma FirstNonterminal(g: Cfg, n: string, c: Code)
    requires n in g.rules
    ensures First(g, [N(n)], c) <==> exists k :: 0 <= k < |g.rules[n]| && First(g, g.rules[n][k], c)
  {
    var form := [N(n)];
    assert forall rhs: Form :: rhs + form[1..] == rhs;
    if First(g, form, c) {
      var ks :| Exposes(g, form, ks, c);
      assert g.rules[n][ks[0]] + form[1..] == g.rules[n][ks[0]];
      assert Exposes(g, g.rules[n][ks[0]], ks[1..], c);
    }
    if k :| 0 <= k < |g.rules[n]| && First(g, g.rules[n][k], c) {
      var ks :| Exposes(g, g.rules[n][k], ks, c);
      assert ([k] + ks)[1..] == ks;
      assert Exposes(g, form, [k] + ks, c);
    }
  }

  /** A derivation of a token string witnesses its first token, or nullability. */
  lemma {:induction false} DerivesFirst(g: Cfg, form: Form, w: seq<Code>, ks: seq<nat>)
    requires Derives(g, form, w, ks)
    ensures if w == [] then First(g, form, EMPTY) else w[0] != EMPTY && First(g, form, w[0])
    decreases |ks|, |form|
  {
    var c := if w == [] then EMPTY else w[0];
    if form == [] {
      FirstNothing(g, EMPTY);
    } else {
      assert form == [form[0]] + form[1..];
      FirstConcat(g, [form[0]], form[1..], c);
      match form[0]
      case T(x) =>
        FirstTerminal(g, x, x);
        if x == EMPTY { DerivesFirst(g, form[1..], w, ks); }
      case N(n) =>
        var rhs := g.rules[n][ks[0]];
        DerivesFirst(g, rhs + form[1..], w, ks[1..]);
        var ls :| Exposes(g, rhs + form[1..], ls, c);
        assert ([ks[0]] + ls)[1..] == ls;
        assert Exposes(g, form, [ks[0]] + ls, c);
    }
  }

  // ---------- left recursion ----------

  /** Some rule of `a` can begin with `b`, the entries before it vanishing. */
  ghost predicate LeftEdge(g: Cfg, a: string, b: string) {
    && a in g.rules && b in g.rules
    && exists k, j :: LeftOccurrence(g, a, b, k, j)
  }

  ghost predicate LeftOccurrence(g: Cfg, a: string, b: string, k: nat, j: nat)
    requires a in g.rules
  {
    && k < |g.rules[a]| && j < |g.rules[a][k]| && g.rules[a][k][j] == N(b)
    && First(g, g.rules[a][k][..j], EMPTY)
  }

  ghost predicate LeftPath(g: Cfg, p: seq<string>) {
    |p| >= 2 && forall i :: 0 <= i < |p| - 1 ==> LeftEdge(g, p[i], p[i + 1])
  }

  /** No nonterminal can lead a form derived from itself, directly or behind vanishing entries. */
  ghost predicate NoLeftRecursion(g: Cfg) {
    forall p :: LeftPath(g, p) ==> p[0] != p[|p| - 1]
  }

  ghost predicate LeftReaches(g: Cfg, a: string, b: string) {
    exists p :: LeftPath(g, p) && p[0] == a && p[|p| - 1] == b
  }

  /** The number of nonterminals that can lead `a`. It falls along left edges. */
  ghost function Rank(g: Cfg, a: string): nat {
    |set b | b in g.rules && LeftReaches(g, a, b)|
  }

  lemma SubsetSize<X>(small: set<X>, big: set<X>)
    requires small <= big
    ensures |small| <= |big|
    ensures small != big ==> |small| < |big|
  {
    assert big == small + (big - small);
    assert |big| == |small| + |big - small|;
    if small != big {
      var x :| x in big - small;
    }
  }

  lemma Inhabited(codes: set<Code>)
    requires codes != {}
    ensures exists c :: c in codes
  {
    assert (forall c :: c !in codes) ==> codes == {};
  }

  lemma PathHasEdges(g: Cfg, p: seq<string>)
    requires LeftPath(g, p)
    ensures |p| >= 2 && LeftEdge(g, p[0], p[1]) && (|p| > 2 ==> LeftEdge(g, p[1], p[2]))
  {
  }

  lemma ReachesOn(g: Cfg, a: string, b: string, c: string)
    requires LeftEdge(g, a, b) && LeftReaches(g, b, c)
    ensures LeftReaches(g, a, c)
  {
    var p :| LeftPath(g, p) && p[0] == b && p[|p| - 1] == c;
    var q := [a] + p;
    assert forall i :: 1 <= i < |q| ==> q[i] == p[i - 1];
    assert LeftPath(g, q) && q[0] == a && q[|q| - 1] == c;
  }

  lemma EdgeReaches(g: Cfg, a: string, b: string)
    requires LeftEdge(g, a, b)
    ensures LeftReaches(g, a, b)
  {
    var q := [a, b];
    assert LeftPath(g, q) && q[0] == a && q[|q| - 1] == b;
  }

  lemma RankFalls(g: Cfg, a: string, b: string)
    requires LeftEdge(g, a, b) && !LeftReaches(g, b, b)
    ensures Rank(g, b) < Rank(g, a)
  {
    hide LeftReaches;
    var below := set c | c in g.rules && LeftReaches(g, b, c);
    var above := set c | c in g.rules && LeftReaches(g, a, c);
    forall c | c in below ensures c in above { ReachesOn(g, a, b, c); }
    EdgeReaches(g, a, b);
    assert b in above && b !in below;
    SubsetSize(below, above);
  }

  // ---------- nonterminals whose FIRST set is computed exactly ----------

  ghost predicate Fine(g: Cfg, a: string) {
    a in g.rules && g.rules[a] != [] && !LeftReaches(g, a, a)
  }

  /** The nonterminal, and each that can lead it, has rules and is not left-recursive. */
  ghost predicate Tame(g: Cfg, a: string) {
    g.WellFormed() && Fine(g, a) && forall b :: LeftReaches(g, a, b) ==> Fine(g, b)
  }

  lemma TameEdge(g: Cfg, a: string, b: string)
    requires Tame(g, a) && LeftEdge(g, a, b)
    ensures Tame(g, b) && Rank(g, b) < Rank(g, a)
  {
    hide LeftReaches, LeftEdge;
    EdgeReaches(g, a, b);
    RankFalls(g, a, b);
    forall c | LeftReaches(g, b, c) ensures Fine(g, c) { ReachesOn(g, a, b, c); }
  }

  lemma TameMeans(g: Cfg, a: string)
    requires Tame(g, a)
    ensures a in g.rules && g.rules[a] != []
  {
  }

  /** All nonterminals are tame in a grammar without left recursion whose nonterminals all have rules. */
  lemma AllTame(g: Cfg)
    requires g.WellFormed()
    ensures (forall a :: a in g.rules ==> Tame(g, a)) <==> g.EveryNonterminalHasRules() && NoLeftRecursion(g)
  {
    hide LeftPath, LeftEdge;
    if g.EveryNonterminalHasRules() && NoLeftRecursion(g) {
      forall a | a in g.rules ensures Tame(g, a) {
        forall b | LeftReaches(g, a, b) ensures Fine(g, b) { ReachedIsKnown(g, a, b); }
      }
    }
    if forall a :: a in g.rules ==> Tame(g, a) {
      forall p | LeftPath(g, p) ensures |p| > 0 && p[0] != p[|p| - 1] {
        PathIsKnown(g, p);
        assert Tame(g, p[0]);
        assert !LeftReaches(g, p[0], p[0]);
      }
    }
  }

  lemma PathIsKnown(g: Cfg, p: seq<string>)
    requires LeftPath(g, p)
    ensures |p| >= 2 && p[0] in g.rules && p[|p| - 1] in g.rules
  {
    assert LeftEdge(g, p[0], p[1]) && LeftEdge(g, p[|p| - 2], p[|p| - 1]);
  }

  lemma ReachedIsKnown(g: Cfg, a: string, b: string)
    requires LeftReaches(g, a, b)
    ensures b in g.rules
  {
    var p :| LeftPath(g, p) && p[0] == a && p[|p| - 1] == b;
    PathIsKnown(g, p);
  }
}
