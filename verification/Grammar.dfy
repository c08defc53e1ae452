/** The grammar objects and the analysis that fills their memo fields. */
module Grammars {
  import opened Wrappers
  import opened ContextFree
  import opened FirstMemo
  import opened Follow
  import opened FollowStop
  import opened FollowTextbook
  import opened LL1
  import opened LL1Exact
  import opened LeftExact

  class Rule {
    const entries: Form
    var firsts: Option<set<Code>>

    constructor (entries: Form)
      ensures this.entries == entries && firsts == None
    {
      this.entries := entries;
      firsts := None;
    }
  }

  class Nonterminal {
    const name: string
    const rules: seq<Rule>
    var firsts: Option<set<Code>>
    var follows: Option<set<Code>>
    var parseTable: Option<map<Code, Rule>>

    constructor (name: string, rules: seq<Rule>)
      ensures this.name == name && this.rules == rules
      ensures firsts == None && follows == None && parseTable == None
    {
      this.name, this.rules := name, rules;
      firsts, follows, parseTable := None, None, None;
    }
  }

  function Forms(rules: seq<Rule>): (forms: seq<Form>)
    ensures |forms| == |rules|
  {
    seq(|rules|, i requires 0 <= i < |rules| => rules[i].entries)
  }

  /** Grammars all of whose nonterminals are tame. */
  ghost predicate Regular(g: Cfg) {
    g.WellFormed() && g.EveryNonterminalHasRules() && NoLeftRecursion(g)
  }

  /** Adding one more entry to a vanishing prefix, as the loop over a rule's entries does. */
  lemma FirstOfLonger(g: Cfg, rhs: Form, j: nat, cur: set<Code>, more: set<Code>)
    requires j < |rhs| && EMPTY in cur && Exact(g, rhs[..j], cur) && Exact(g, [rhs[j]], more)
    ensures Exact(g, rhs[..j + 1], cur - {EMPTY} + more)
  {
    forall c ensures c in cur - {EMPTY} + more <==> First(g, rhs[..j + 1], c) {
      assert rhs[..j + 1] == rhs[..j] + [rhs[j]];
      FirstConcat(g, rhs[..j], [rhs[j]], c);
      assert EMPTY in cur <==> First(g, rhs[..j], EMPTY);
    }
  }

  /** Entries behind one that cannot vanish do not matter. */
  lemma FirstOfWhole(g: Cfg, rhs: Form, j: nat, cur: set<Code>)
    requires j <= |rhs| && Exact(g, rhs[..j], cur) && (j == |rhs| || EMPTY !in cur)
    ensures Exact(g, rhs, cur)
  {
    assert rhs == rhs[..j] + rhs[j..];
    assert EMPTY in cur <==> First(g, rhs[..j], EMPTY);
    forall c ensures c in cur <==> First(g, rhs, c) {
      FirstConcat(g, rhs[..j], rhs[j..], c);
      if j == |rhs| { assert rhs[..j] == rhs; }
    }
  }

  /** `cur` is the union of the FIRST sets of the first `i` forms. */
  ghost predicate IsUnion(g: Cfg, forms: seq<Form>, i: nat, cur: set<Code>) {
    i <= |forms| && forall c :: c in cur <==> exists k :: 0 <= k < i && First(g, forms[k], c)
  }

  lemma UnionGrows(g: Cfg, forms: seq<Form>, i: nat, cur: set<Code>, more: set<Code>)
    requires i < |forms| && IsUnion(g, forms, i, cur) && Exact(g, forms[i], more)
    ensures IsUnion(g, forms, i + 1, cur + more) && cur + more != {}
  {
    forall c ensures c in cur + more <==> exists k :: 0 <= k < i + 1 && First(g, forms[k], c) {
      if c in cur {
        var k :| 0 <= k < i && First(g, forms[k], c);
      }
    }
  }

  lemma UnionIsFirst(g: Cfg, n: string, cur: set<Code>)
    requires n in g.rules && IsUnion(g, g.rules[n], |g.rules[n]|, cur) && cur != {}
    ensures Exact(g, [N(n)], cur)
  {
    forall c ensures c in cur <==> First(g, [N(n)], c) {
      FirstNonterminal(g, n, c);
    }
  }

  // ---------- the memo fields as a value ----------

  /** No memo field is reset or changed once set. */
  ghost predicate Kept(m: Memo, m': Memo) {
    && (forall a :: a in m.nts ==> a in m'.nts && m'.nts[a] == m.nts[a])
    && (forall r :: r in m.rules ==> r in m'.rules && m'.rules[r] == m.rules[r])
  }

  /** The nonterminals `busyN` and rules `busyR` are under construction. Every other memoised
      nonterminal has a set with something in it and all its rules memoised, and every other memoised set of a
      tame nonterminal or one of its rules is exact. */
  ghost predicate Sound(g: Cfg, m: Memo, busyN: set<string>, busyR: set<(string, nat)>) {
    && (forall a, k: nat :: (a, k) in busyR ==> a in busyN)
    && RulesDone(g, m, busyN)
    && (forall a :: a in m.nts && a !in busyN ==> m.nts[a] != {})
    && NonterminalsExact(g, m.nts, busyN) && RulesExact(g, m.rules, busyR)
  }

  ghost predicate RulesDone(g: Cfg, m: Memo, busyN: set<string>) {
    forall a, k: nat :: a in m.nts && a !in busyN && a in g.rules && k < |g.rules[a]| ==> (a, k) in m.rules
  }

  ghost predicate NonterminalsExact(g: Cfg, nts: Sets, busyN: set<string>) {
    forall a :: a in nts && a !in busyN && Tame(g, a) ==> Exact(g, [N(a)], nts[a])
  }

  ghost predicate RulesExact(g: Cfg, rules: map<(string, nat), set<Code>>, busyR: set<(string, nat)>) {
    forall a, k: nat :: (a, k) in rules && (a, k) !in busyR && a in g.rules && k < |g.rules[a]| && Tame(g, a)
                        ==> Exact(g, g.rules[a][k], rules[(a, k)])
  }

  ghost predicate Exact(g: Cfg, form: Form, codes: set<Code>) {
    codes != {} && IsFirst(g, form, codes)
  }

  /** The nonterminals under construction are memoised. If one of them is tame, so is `a`, which it asks for, and ranks
      at least `less` below. */
  ghost predicate Pending(g: Cfg, m: Memo, busyN: set<string>, a: string, less: nat) {
    forall b :: b in busyN ==> b in m.nts && (Tame(g, b) ==> Tame(g, a) && Rank(g, a) + less <= Rank(g, b))
  }

  /** What asking for an entry takes. */
  ghost predicate Asking(g: Cfg, m: Memo, busyN: set<string>, s: Symbol) {
    s.N? ==> Pending(g, m, busyN, s.name, 1)
  }

  // ---------- building one nonterminal's set ----------

  /** `m`, reached from `m0`, has the first `i` rules of `a` done and their union in `a`'s field. */
  ghost predicate Building(g: Cfg, m0: Memo, m: Memo, busyN: set<string>, busyR: set<(string, nat)>, a: string,
                           i: nat) {
    && a in g.rules && i <= |g.rules[a]| && a !in m0.nts && a in m.nts && Kept(m0, m)
    && Pending(g, m, busyN + {a}, a, 0) && Sound(g, m, busyN + {a}, busyR)
    && (forall k: nat :: (a, k) !in busyR)
    && (forall k: nat :: k < i ==> (a, k) in m.rules)
    && (Tame(g, a) ==> IsUnion(g, g.rules[a], i, m.nts[a]) && (i > 0 ==> m.nts[a] != {}))
  }

  lemma SoundAtFirst(g: Cfg)
    ensures Sound(g, Memo(map[], map[]), {}, {})
  {}

  lemma PendingNothing(g: Cfg, m: Memo, a: string, less: nat)
    ensures Pending(g, m, {}, a, less)
  {}

  lemma BuildStart(g: Cfg, m0: Memo, busyN: set<string>, busyR: set<(string, nat)>, a: string)
    requires a in g.rules && a !in m0.nts
    requires Pending(g, m0, busyN, a, 1) && Sound(g, m0, busyN, busyR)
    ensures Building(g, m0, m0.(nts := m0.nts[a := {}]), busyN, busyR, a, 0)
  {
    hide Tame, Exact, Rank;
  }

  lemma BuildStep(g: Cfg, m0: Memo, m: Memo, m': Memo, busyN: set<string>, busyR: set<(string, nat)>, a: string,
                  i: nat, r: set<Code>)
    requires Building(g, m0, m, busyN, busyR, a, i) && i < |g.rules[a]|
    requires Kept(m, m') && Sound(g, m', busyN + {a}, busyR) && (a, i) in m'.rules
    requires Tame(g, a) ==> Exact(g, g.rules[a][i], r)
    ensures Building(g, m0, m'.(nts := m'.nts[a := m'.nts[a] + r]), busyN, busyR, a, i + 1)
  {
    hide Tame, Exact, Rank, IsUnion;
    if Tame(g, a) { UnionGrows(g, g.rules[a], i, m.nts[a], r); }
  }

  lemma BuildDone(g: Cfg, m0: Memo, m: Memo, m': Memo, busyN: set<string>, busyR: set<(string, nat)>, a: string)
    requires a in g.rules && Building(g, m0, m, busyN, busyR, a, |g.rules[a]|)
    requires m' == if m.nts[a] == {} then m.(nts := m.nts[a := {EMPTY}]) else m
    ensures Kept(m0, m') && Sound(g, m', busyN, busyR)
    ensures Tame(g, a) ==> Exact(g, [N(a)], m'.nts[a])
  {
    hide Tame, Exact, Rank, IsUnion;
    if Tame(g, a) {
      TameMeans(g, a);
      UnionIsFirst(g, a, m.nts[a]);
    }
  }

  /** A memoised nonterminal that is not under construction is done. No tame nonterminal under construction is asked
      for again. */
  lemma MemoisedExact(g: Cfg, m: Memo, busyN: set<string>, busyR: set<(string, nat)>, a: string)
    requires Pending(g, m, busyN, a, 1) && Sound(g, m, busyN, busyR) && a in m.nts && a in g.rules
    ensures Tame(g, a) ==> Exact(g, [N(a)], m.nts[a])
  {
    hide Tame, Exact, Rank;
  }

  // ---------- building one rule's set ----------

  /** `m`, reached from `m0`, has the set of the first `j` entries of rule `k` of `a` in the rule's field. */
  ghost predicate Scanning(g: Cfg, m0: Memo, m: Memo, busyN: set<string>, busyR: set<(string, nat)>, a: string,
                           k: nat, j: nat) {
    && a in g.rules && k < |g.rules[a]| && j <= |g.rules[a][k]| && a in busyN
    && (a, k) !in m0.rules && (a, k) !in busyR && (a, k) in m.rules && Kept(m0, m)
    && Pending(g, m, busyN, a, 0) && Sound(g, m, busyN, busyR + {(a, k)})
    && (Tame(g, a) ==> Exact(g, g.rules[a][k][..j], m.rules[(a, k)]))
  }

  lemma FirstOfEmptyPrefix(g: Cfg, rhs: Form)
    ensures Exact(g, rhs[..0], {EMPTY})
  {
    forall c ensures c in {EMPTY} <==> First(g, rhs[..0], c) { FirstNothing(g, c); }
  }

  lemma ScanStart(g: Cfg, m0: Memo, busyN: set<string>, busyR: set<(string, nat)>, a: string, k: nat)
    requires a in g.rules && k < |g.rules[a]| && (a, k) !in m0.rules && (a, k) !in busyR && a in busyN
    requires Pending(g, m0, busyN, a, 0) && Sound(g, m0, busyN, busyR)
    ensures Scanning(g, m0, m0.(rules := m0.rules[(a, k) := {EMPTY}]), busyN, busyR, a, k, 0)
  {
    hide Tame, Exact, Rank;
    FirstOfEmptyPrefix(g, g.rules[a][k]);
  }

  lemma MemoisedRuleExact(g: Cfg, m: Memo, busyN: set<string>, busyR: set<(string, nat)>, a: string, k: nat)
    requires Sound(g, m, busyN, busyR) && a in g.rules && k < |g.rules[a]| && (a, k) in m.rules && (a, k) !in busyR
    ensures Tame(g, a) ==> Exact(g, g.rules[a][k], m.rules[(a, k)])
  {
    hide Tame, Exact;
  }

  /** An entry behind a vanishing prefix leads a nonterminal of lower rank. */
  lemma EntryRanksBelow(g: Cfg, a: string, k: nat, j: nat, cur: set<Code>)
    requires Tame(g, a) && a in g.rules && k < |g.rules[a]| && j < |g.rules[a][k]| && g.rules[a][k][j].N?
    requires Exact(g, g.rules[a][k][..j], cur) && EMPTY in cur
    ensures Tame(g, g.rules[a][k][j].name) && Rank(g, g.rules[a][k][j].name) < Rank(g, a)
  {
    hide LeftReaches, Fine;
    assert LeftOccurrence(g, a, g.rules[a][k][j].name, k, j);
    TameEdge(g, a, g.rules[a][k][j].name);
  }

  /** With EMPTY taken out of the rule's field, the next entry may be asked for its codes. */
  lemma ScanAsk(g: Cfg, m0: Memo, m: Memo, busyN: set<string>, busyR: set<(string, nat)>, a: string, k: nat, j: nat,
                cur: set<Code>)
    requires Scanning(g, m0, m, busyN, busyR, a, k, j) && j < |g.rules[a][k]| && EMPTY in m.rules[(a, k)]
    requires g.WellFormed()
    ensures Sound(g, m.(rules := m.rules[(a, k) := cur]), busyN, busyR + {(a, k)})
    ensures Asking(g, m.(rules := m.rules[(a, k) := cur]), busyN, g.rules[a][k][j])
  {
    hide Tame, Exact, Rank;
    if Tame(g, a) && g.rules[a][k][j].N? { EntryRanksBelow(g, a, k, j, m.rules[(a, k)]); }
  }

  lemma ScanStep(g: Cfg, m0: Memo, m: Memo, m': Memo, busyN: set<string>, busyR: set<(string, nat)>,
                 a: string, k: nat, j: nat, more: set<Code>)
    requires Scanning(g, m0, m, busyN, busyR, a, k, j) && j < |g.rules[a][k]| && EMPTY in m.rules[(a, k)]
    requires Kept(m.(rules := m.rules[(a, k) := m.rules[(a, k)] - {EMPTY}]), m')
            && Sound(g, m', busyN, busyR + {(a, k)})
    requires var s := g.rules[a][k][j]; s.T? || Tame(g, s.name) ==> Exact(g, [s], more)
    ensures Scanning(g, m0, m'.(rules := m'.rules[(a, k) := m.rules[(a, k)] - {EMPTY} + more]), busyN, busyR,
                     a, k, j + 1)
  {
    hide Tame, Exact, Rank;
    if Tame(g, a) {
      if g.rules[a][k][j].N? { EntryRanksBelow(g, a, k, j, m.rules[(a, k)]); }
      FirstOfLonger(g, g.rules[a][k], j, m.rules[(a, k)], more);
    }
  }

  lemma ScanDone(g: Cfg, m0: Memo, m: Memo, busyN: set<string>, busyR: set<(string, nat)>, a: string, k: nat, j: nat)
    requires Scanning(g, m0, m, busyN, busyR, a, k, j)
    requires j == |g.rules[a][k]| || EMPTY !in m.rules[(a, k)]
    ensures Kept(m0, m) && Sound(g, m, busyN, busyR)
    ensures Tame(g, a) ==> Exact(g, g.rules[a][k], m.rules[(a, k)])
  {
    hide Tame, Exact, Rank;
    if Tame(g, a) { FirstOfWhole(g, g.rules[a][k], j, m.rules[(a, k)]); }
  }

  lemma RuleHasKey(g: Cfg, a: string, k: nat)
    requires a in g.rules && k < |g.rules[a]|
    ensures (a, k) in RuleKeys(g)
  {
  }

  // ---------- the LL(1) check ----------

  /** What the LL(1) check asks of a pair of rules: their FIRST sets are disjoint, and if END is in
      the later one, the earlier one is disjoint from the FOLLOW set as well. */
  ghost predicate PairOk(firsts: seq<set<Code>>, follows: set<Code>, i: nat, j: nat)
    requires i < |firsts| && j < |firsts|
  {
    firsts[i] * firsts[j] == {} && (END in firsts[j] ==> firsts[i] * follows == {})
  }

  ghost predicate ChecksOut(firsts: seq<set<Code>>, follows: set<Code>) {
    forall i: nat, j: nat :: i < j < |firsts| ==> PairOk(firsts, follows, i, j)
  }

  /** The pairs that the nested loops have compared by the time they reach `i` and `j`. */
  ghost predicate CheckedUpTo(firsts: seq<set<Code>>, follows: set<Code>, i: nat, j: nat) {
    forall k: nat, l: nat :: k < l < |firsts| && (k < i || (k == i && l < j)) ==> PairOk(firsts, follows, k, l)
  }

  lemma CheckedNext(firsts: seq<set<Code>>, follows: set<Code>, i: nat, j: nat)
    requires i < j < |firsts|
    ensures CheckedUpTo(firsts, follows, i, j + 1)
            == (CheckedUpTo(firsts, follows, i, j) && PairOk(firsts, follows, i, j))
  {}

  lemma CheckedRow(firsts: seq<set<Code>>, follows: set<Code>, i: nat)
    requires i <= |firsts|
    ensures CheckedUpTo(firsts, follows, 0, 0)
    ensures CheckedUpTo(firsts, follows, i, 0) == CheckedUpTo(firsts, follows, i, i + 1)
    ensures CheckedUpTo(firsts, follows, i, |firsts|) == CheckedUpTo(firsts, follows, i + 1, 0)
    ensures CheckedUpTo(firsts, follows, |firsts|, 0) == ChecksOut(firsts, follows)
  {}

  lemma DisjointFirsts(g: Cfg, f1: Form, f2: Form, s1: set<Code>, s2: set<Code>)
    requires IsFirst(g, f1, s1) && IsFirst(g, f2, s2)
    ensures s1 * s2 == {} <==> forall c :: !(First(g, f1, c) && First(g, f2, c))
  {
    hide First;
    if forall c :: !(First(g, f1, c) && First(g, f2, c)) {
      assert forall c :: c !in s1 * s2;
      assert s1 * s2 == {};
    } else {
      var c :| First(g, f1, c) && First(g, f2, c);
      assert c in s1 * s2;
    }
  }

  // ---------- parse tables ----------

  /** Rule `k` claims token `t`: the token is in its FIRST set, or the rule can vanish and the
      token is in the FOLLOW set. */
  ghost predicate Claims(firsts: seq<set<Code>>, follows: set<Code>, k: nat, t: Code)
    requires k < |firsts|
  {
    (t != EMPTY && t in firsts[k]) || (EMPTY in firsts[k] && t in follows)
  }

  /** The tokens that rule `k` claims. */
  function Claimed(first: set<Code>, follows: set<Code>): set<Code> {
    first - {EMPTY} + if EMPTY in first then follows else {}
  }

  /** `table` with `rule` put at those of `codes` that have no entry yet. */
  function Filled(table: map<Code, Rule>, codes: set<Code>, rule: Rule): map<Code, Rule> {
    map t | t in table.Keys + codes :: if t in table then table[t] else rule
  }

  lemma FilledNothing(table: map<Code, Rule>, rule: Rule)
    ensures Filled(table, {}, rule) == table
  {}

  lemma FilledTwice(table: map<Code, Rule>, codes: set<Code>, more: set<Code>, rule: Rule)
    ensures Filled(Filled(table, codes, rule), more, rule) == Filled(table, codes + more, rule)
  {}

  /** Each token claimed by one of the first `i` rules has the earliest rule that claims it, and no other
      token has an entry. */
  ghost predicate TableOf(table: map<Code, Rule>, rules: seq<Rule>, firsts: seq<set<Code>>, follows: set<Code>, i: nat)
    requires |rules| == |firsts| && i <= |rules|
  {
    && (forall t :: t in table ==> exists k :: 0 <= k < i && table[t] == rules[k] && Earliest(firsts, follows, k, t))
    && (forall k: nat, t :: k < i && Claims(firsts, follows, k, t) ==> t in table)
  }

  ghost predicate Earliest(firsts: seq<set<Code>>, follows: set<Code>, k: nat, t: Code)
    requires k < |firsts|
  {
    Claims(firsts, follows, k, t) && forall l: nat :: l < k ==> !Claims(firsts, follows, l, t)
  }

  lemma TableEmpty(rules: seq<Rule>, firsts: seq<set<Code>>, follows: set<Code>)
    requires |rules| == |firsts|
    ensures TableOf(map[], rules, firsts, follows, 0)
  {}

  lemma TableNextRule(table: map<Code, Rule>, rules: seq<Rule>, firsts: seq<set<Code>>, follows: set<Code>, i: nat)
    requires |rules| == |firsts| && i < |rules| && TableOf(table, rules, firsts, follows, i)
    ensures TableOf(Filled(table, Claimed(firsts[i], follows), rules[i]), rules, firsts, follows, i + 1)
  {
    var codes := Claimed(firsts[i], follows);
    var table' := Filled(table, codes, rules[i]);
    assert forall t :: t in codes <==> Claims(firsts, follows, i, t);
    forall t | t in table'
      ensures exists k :: 0 <= k < i + 1 && table'[t] == rules[k] && Earliest(firsts, follows, k, t)
    {
      if t in table {
        var k :| 0 <= k < i && table[t] == rules[k] && Earliest(firsts, follows, k, t);
        assert table'[t] == rules[k];
      } else {
        assert Earliest(firsts, follows, i, t);
      }
    }
  }

  lemma GatherStep(fs: Sets, rhs: Form, k: nat, acc: set<Code>)
    requires k < |rhs| && Known(fs, rhs)
    ensures var more := acc + EntryFirsts(fs, rhs[k]);
            Gather(fs, rhs[k..], acc) == if EMPTY in more then Gather(fs, rhs[k + 1..], more) else more
  {
    assert rhs[k..][1..] == rhs[k + 1..];
  }

  lemma GatherEnd(fs: Sets, rhs: Form, acc: set<Code>)
    requires Known(fs, rhs)
    ensures Gather(fs, rhs[|rhs|..], acc) == acc
  {
  }

  class Grammar {
    const nonterminals: map<string, Nonterminal>
    /** The order in which the dictionary of nonterminals is traversed. */
    const order: seq<Nonterminal>
    const entrypoint: Nonterminal
    /** The FIRST memo fields of all nonterminals and rules together. */
    ghost var memo: Memo
    /** The FOLLOW sets of all nonterminals together, and the names of those whose field is set. */
    ghost var follow: Sets
    ghost var created: set<string>
    /** How many FOLLOW passes have been made. */
    ghost var rounds: nat

    ghost predicate Valid() {
      && entrypoint in order
      && (forall i, j :: 0 <= i < j < |order| ==> order[i] != order[j])
      && (forall n :: n in order ==> n.name in nonterminals && nonterminals[n.name] == n)
      && (forall a :: a in nonterminals ==> nonterminals[a] in order && nonterminals[a].name == a)
      && (forall n, i, m, j | n in order && m in order && 0 <= i < |n.rules| && 0 <= j < |m.rules| ::
            n.rules[i] == m.rules[j] ==> n == m && i == j)
      && (forall n, k, j | n in order && 0 <= k < |n.rules| && 0 <= j < |n.rules[k].entries| ::
            n.rules[k].entries[j].N? ==> n.rules[k].entries[j].name in nonterminals)
    }

    constructor (nonterminals: map<string, Nonterminal>, order: seq<Nonterminal>, entrypoint: Nonterminal)
      requires forall n | n in order :: n.firsts == None && n.follows == None
      requires forall n, k: nat | n in order && k < |n.rules| :: n.rules[k].firsts == None
      ensures this.nonterminals == nonterminals && this.order == order && this.entrypoint == entrypoint
      ensures Valid() ==> Ready() && rounds == 0
      ensures memo == Memo(map[], map[])
    {
      this.nonterminals, this.order, this.entrypoint := nonterminals, order, entrypoint;
      memo := Memo(map[], map[]);
      follow := map a | a in nonterminals :: if a == entrypoint.name then {END} else {};
      created := {};
      rounds := 0;
      new;
      if Valid() { NewIsReady(); }
    }

    lemma NewIsReady()
      requires Valid() && memo == Memo(map[], map[]) && rounds == 0 && created == {}
      requires follow == map a | a in nonterminals :: if a == entrypoint.name then {END} else {}
      requires forall n | n in order :: n.firsts == None && n.follows == None
      requires forall n, k: nat | n in order && k < |n.rules| :: n.rules[k].firsts == None
      ensures Ready()
    {
      hide Value, Sound;
      SoundAtFirst(Value());
    }

    /** The grammar as a value. */
    ghost function Value(): (g: Cfg) {
      Cfg(map a | a in nonterminals :: Forms(nonterminals[a].rules), entrypoint.name)
    }

    ghost function Nts(): set<Nonterminal> { set n | n in order }

    ghost function Rls(): set<Rule> { set n, k | n in order && 0 <= k < |n.rules| :: n.rules[k] }

    lemma RulesOf(n: Nonterminal)
      requires Valid() && n in order
      ensures n.name in Value().rules && Value().rules[n.name] == Forms(n.rules)
    {}

    lemma ValueWellFormed()
      requires Valid()
      ensures Value().WellFormed()
    {}

    // ---------- FIRST ----------

    /** The ghost memo says what the memo fields hold. */
    ghost predicate Linked()
      reads this`memo, Nts()`firsts, Rls()`firsts
    {
      && memo.nts.Keys <= nonterminals.Keys
      && (forall n | n in order :: n.firsts == if n.name in memo.nts then Some(memo.nts[n.name]) else None)
      && (forall n, k: nat | n in order && k < |n.rules| ::
            n.rules[k].firsts == if (n.name, k) in memo.rules then Some(memo.rules[(n.name, k)]) else None)
    }

    method SetNonterminalFirsts(n: Nonterminal, f: set<Code>)
      requires Valid() && Linked() && n in order
      modifies n`firsts, this`memo
      ensures Linked() && memo == old(memo).(nts := old(memo).nts[n.name := f]) && n.firsts == Some(f)
    {
      n.firsts := Some(f);
      memo := memo.(nts := memo.nts[n.name := f]);
    }

    method SetRuleFirsts(n: Nonterminal, k: nat, r: Rule, f: set<Code>)
      requires Valid() && Linked() && n in order && k < |n.rules| && r == n.rules[k]
      modifies r`firsts, this`memo
      ensures Linked() && memo == old(memo).(rules := old(memo).rules[(n.name, k) := f]) && r.firsts == Some(f)
    {
      r.firsts := Some(f);
      memo := memo.(rules := memo.rules[(n.name, k) := f]);
    }

    lemma FieldIs(n: Nonterminal)
      requires Linked() && n in order
      ensures n.firsts == if n.name in memo.nts then Some(memo.nts[n.name]) else None
    {
    }

    method NonterminalGetFirsts(n: Nonterminal, ghost busyN: set<string>, ghost busyR: set<(string, nat)>)
      returns (f: set<Code>)
      requires Valid() && Linked() && n in order
      requires Pending(Value(), memo, busyN, n.name, 1) && Sound(Value(), memo, busyN, busyR)
      modifies Nts()`firsts, Rls()`firsts, this`memo
      ensures Linked() && Kept(old(memo), memo) && Sound(Value(), memo, busyN, busyR)
      ensures Value().WellFormed() && n.name in Value().rules
      ensures memo == NonterminalMemo(Value(), old(memo), n.name) && f == memo.nts[n.name]
      ensures n.name in old(memo).nts ==> memo == old(memo)
      ensures Tame(Value(), n.name) ==> Exact(Value(), [N(n.name)], f)
      decreases Value().rules.Keys - memo.nts.Keys, RuleKeys(Value()) - memo.rules.Keys, 0
    {
      hide Valid, Value, Tame, Exact, Rank, Sound, Pending, IsUnion, RuleKeys;
      hide NonterminalMemo, RulesMemo, RuleMemo, Linked;
      FieldIs(n);
      RulesOf(n);
      ValueWellFormed();
      ghost var g, a, m0 := Value(), n.name, memo;
      NonterminalIs(g, m0, a);
      if n.firsts == None {
        BuildStart(g, m0, busyN, busyR, a);
        SetNonterminalFirsts(n, {});
        ghost var start := memo;
        var i := 0;
        while i < |n.rules|
          invariant Linked() && Building(g, m0, memo, busyN, busyR, a, i) && memo == RulesMemo(g, start, a, i)
        {
          ghost var m := memo;
          var r := RuleGetFirsts(n, i, busyN + {a}, busyR);
          BuildStep(g, m0, m, memo, busyN, busyR, a, i, r);
          RulesNext(g, start, a, i);
          FieldIs(n);
          SetNonterminalFirsts(n, n.firsts.value + r);
          i := i + 1;
        }
        ghost var m := memo;
        FieldIs(n);
        if n.firsts.value == {} {
          SetNonterminalFirsts(n, {EMPTY});
        }
        BuildDone(g, m0, m, memo, busyN, busyR, a);
      } else {
        MemoisedExact(g, memo, busyN, busyR, a);
      }
      FieldIs(n);
      f := n.firsts.value;
    }

    lemma EntryKnown(n: Nonterminal, k: nat, j: nat)
      requires Valid() && n in order && k < |n.rules| && j < |n.rules[k].entries|
      ensures n.rules[k].entries[j].N? ==> n.rules[k].entries[j].name in nonterminals
    {
    }

    method RuleGetFirsts(n: Nonterminal, k: nat, ghost busyN: set<string>, ghost busyR: set<(string, nat)>)
      returns (f: set<Code>)
      requires Valid() && Linked() && n in order && k < |n.rules|
      requires Pending(Value(), memo, busyN, n.name, 0) && Sound(Value(), memo, busyN, busyR)
      requires (n.name, k) !in busyR && (n.name in busyN || (n.name, k) in memo.rules)
      modifies Nts()`firsts, Rls()`firsts, this`memo
      ensures Linked() && Kept(old(memo), memo) && Sound(Value(), memo, busyN, busyR)
      ensures Value().WellFormed() && n.name in Value().rules && k < |Value().rules[n.name]|
      ensures memo == RuleMemo(Value(), old(memo), n.name, k) && f == memo.rules[(n.name, k)]
      ensures (n.name, k) in old(memo).rules ==> memo == old(memo)
      ensures Tame(Value(), n.name) ==> Exact(Value(), Value().rules[n.name][k], f)
      decreases Value().rules.Keys - memo.nts.Keys, RuleKeys(Value()) - memo.rules.Keys
    {
      hide Valid, Value, Tame, Exact, Rank, Sound, Pending, NonterminalMemo, RuleMemo, EntriesMemo, EntryMemo;
      hide RuleKeys;
      RulesOf(n);
      ValueWellFormed();
      var r := n.rules[k];
      ghost var g, a, m0 := Value(), n.name, memo;
      RuleIs(g, m0, a, k);
      if r.firsts == None {
        ScanStart(g, m0, busyN, busyR, a, k);
        SetRuleFirsts(n, k, r, {EMPTY});
        var j := 0;
        while EMPTY in r.firsts.value && j < |r.entries|
          invariant Linked() && Scanning(g, m0, memo, busyN, busyR, a, k, j)
          invariant RuleMemo(g, m0, a, k) == EntriesMemo(g, memo, a, k, j)
        {
          RuleHasKey(g, a, k);
          ScanEntry(n, k, j, m0, busyN, busyR);
          j := j + 1;
        }
        ScanDone(g, m0, memo, busyN, busyR, a, k, j);
        EntriesNext(g, memo, a, k, j);
      } else {
        MemoisedRuleExact(g, memo, busyN, busyR, a, k);
      }
      f := r.firsts.value;
    }

    /** One entry of a rule whose earlier entries can all vanish: EMPTY is taken out, and the entry's codes put in. */
    method ScanEntry(n: Nonterminal, k: nat, j: nat, ghost m0: Memo, ghost busyN: set<string>,
                     ghost busyR: set<(string, nat)>)
      requires Valid() && Linked() && n in order && k < |n.rules| && j < |n.rules[k].entries|
      requires Value().WellFormed() && Scanning(Value(), m0, memo, busyN, busyR, n.name, k, j)
      requires EMPTY in memo.rules[(n.name, k)]
      modifies Nts()`firsts, Rls()`firsts, this`memo
      ensures Linked() && Scanning(Value(), m0, memo, busyN, busyR, n.name, k, j + 1)
      ensures EntriesMemo(Value(), memo, n.name, k, j + 1) == EntriesMemo(Value(), old(memo), n.name, k, j)
      ensures old(memo).nts.Keys <= memo.nts.Keys && old(memo).rules.Keys <= memo.rules.Keys
      decreases Value().rules.Keys - memo.nts.Keys, RuleKeys(Value()) - memo.rules.Keys, 2
    {
      hide Valid, Value, Tame, Exact, Rank, Sound, Pending, EntriesMemo, EntryMemo, RuleKeys;
      RulesOf(n);
      ghost var g, a, m := Value(), n.name, memo;
      var r := n.rules[k];
      EntriesNext(g, m, a, k, j);
      ScanAsk(g, m0, m, busyN, busyR, a, k, j, m.rules[(a, k)] - {EMPTY});
      SetRuleFirsts(n, k, r, r.firsts.value - {EMPTY});
      EntryKnown(n, k, j);
      var f := EntryGetFirsts(r.entries[j], r.firsts.value, busyN, busyR + {(a, k)});
      ScanStep(g, m0, m, memo, busyN, busyR, a, k, j, EntryFirsts(memo.nts, r.entries[j]));
      SetRuleFirsts(n, k, r, f);
    }

    method EntryGetFirsts(s: Symbol, firsts: set<Code>, ghost busyN: set<string>, ghost busyR: set<(string, nat)>)
      returns (f: set<Code>)
      requires Valid() && Linked() && (s.N? ==> s.name in nonterminals) && Sound(Value(), memo, busyN, busyR)
      requires Asking(Value(), memo, busyN, s)
      modifies Nts()`firsts, Rls()`firsts, this`memo
      ensures Linked() && Kept(old(memo), memo) && Sound(Value(), memo, busyN, busyR)
      ensures Value().WellFormed() && (s.N? ==> s.name in Value().rules) && memo == EntryMemo(Value(), old(memo), s)
      ensures f == firsts + EntryFirsts(memo.nts, s)
      ensures (s.N? ==> s.name in old(memo).nts) ==> memo == old(memo)
      ensures s.T? || Tame(Value(), s.name) ==> Exact(Value(), [s], EntryFirsts(memo.nts, s))
      decreases Value().rules.Keys - memo.nts.Keys, RuleKeys(Value()) - memo.rules.Keys, 1
    {
      hide Tame, Rank, Sound, Pending, RuleKeys, NonterminalMemo;
      ValueWellFormed();
      match s
      case T(x) =>
        f := firsts + {x};
        forall c ensures First(Value(), [s], c) <==> c == x { FirstTerminal(Value(), x, c); }
      case N(a) =>
        var r := NonterminalGetFirsts(nonterminals[a], busyN, busyR);
        f := firsts + r;
    }

    // ---------- FOLLOW ----------

    /** The ghost FOLLOW sets are the fields', an unset field standing for what it is created with. */
    ghost predicate FollowsLinked()
      reads this`follow, this`created, Nts()`follows
    {
      && follow.Keys == nonterminals.Keys && created <= nonterminals.Keys
      && (forall n | n in order ::
            && n.name in follow && follow[n.name] == (if n.follows.Some? then n.follows.value else CreatedWith(n))
            && (n.follows.Some? <==> n.name in created))
    }

    function CreatedWith(n: Nonterminal): set<Code> {
      if n == entrypoint then {END} else {}
    }

    /** Every nonterminal has its FIRST set. */
    ghost predicate FirstsDone()
      reads this`memo, Nts()`firsts, Rls()`firsts
    {
      Linked() && memo.nts.Keys == nonterminals.Keys && Sound(Value(), memo, {}, {})
    }

    method NonterminalGetFollows(n: Nonterminal) returns (f: set<Code>)
      requires Valid() && FollowsLinked() && n in order
      modifies n`follows, this`created
      ensures FollowsLinked() && f == follow[n.name] && n.follows == Some(f) && created == old(created) + {n.name}
      ensures old(FirstsDone()) ==> FirstsDone()
    {
      hide FirstsDone;
      if n.follows == None {
        n.follows := Some({});
        if n == entrypoint {
          n.follows := Some(n.follows.value + {END});
        }
        created := created + {n.name};
      }
      f := n.follows.value;
    }

    method AddToFollows(n: Nonterminal, codes: set<Code>)
      requires Valid() && FollowsLinked() && n in order && n.follows.Some?
      modifies n`follows, this`follow
      ensures FollowsLinked() && follow == old(follow)[n.name := old(follow)[n.name] + codes]
      ensures n.follows.Some?
      ensures old(FirstsDone()) ==> FirstsDone()
    {
      hide FirstsDone;
      n.follows := Some(n.follows.value + codes);
      follow := follow[n.name := follow[n.name] + codes];
    }

    lemma RuleKnown(n: Nonterminal, i: nat)
      requires Valid() && memo.nts.Keys == nonterminals.Keys && n in order && i < |n.rules|
      ensures Known(memo.nts, n.rules[i].entries)
      ensures forall e | e in RuleEdges(memo.nts, n.rules[i].entries, |n.rules[i].entries|) :: e.target in nonterminals
    {
      var rhs := n.rules[i].entries;
      forall e | e in RuleEdges(memo.nts, rhs, |rhs|) ensures e.target in nonterminals {
        var j := RuleEdgesOnly(memo.nts, rhs, |rhs|, e);
      }
    }

    /** The codes gathered behind position `j` of a rule, and whether there is any entry there. */
    method GatherNext(rhs: Form, j: nat) returns (next: set<Code>, any: bool)
      requires Valid() && FirstsDone() && j < |rhs| && Known(memo.nts, rhs)
      modifies Nts()`firsts, Rls()`firsts, this`memo
      ensures FirstsDone() && memo == old(memo)
      ensures next == Gather(memo.nts, rhs[j + 1..], {}) && any == (j + 1 < |rhs|)
    {
      hide Gather, Value;
      next, any := {}, false;
      var k := j + 1;
      while k < |rhs|
        invariant j + 1 <= k <= |rhs| && FirstsDone() && memo == old(memo) && any == (k > j + 1)
        invariant Gather(memo.nts, rhs[k..], next) == Gather(memo.nts, rhs[j + 1..], {})
      {
        any := true;
        GatherStep(memo.nts, rhs, k, next);
        next := EntryGetFirsts(rhs[k], next, {}, {});
        if EMPTY !in next { return; }
        k := k + 1;
      }
      GatherEnd(memo.nts, rhs, next);
    }

    /** The equations that the FOLLOW passes solve. */
    ghost function Equations(): Graph
      requires Valid() && FirstsDone()
      reads this`memo, Nts()`firsts, Rls()`firsts
    {
      ValueWellFormed();
      FollowGraph(Value(), memo.nts)
    }

    lemma FollowKeys()
      requires Valid() && FirstsDone() && FollowsLinked()
      ensures follow.Keys == nonterminals.Keys == memo.nts.Keys && created <= nonterminals.Keys
      ensures forall n :: n in order ==> n.name in nonterminals
      ensures forall a :: a in nonterminals ==> nonterminals[a] in order && nonterminals[a].name == a
      ensures forall n :: n in order && n.follows.Some? ==> n.follows.value == follow[n.name]
      ensures forall n :: n in order ==> (n.follows.Some? <==> n.name in created)
    {}

    /** One occurrence of a nonterminal in a rule: the body of the inner loop. */
    method FollowsOfEntry(n: Nonterminal, rhs: Form, j: nat)
      requires Valid() && FirstsDone() && FollowsLinked() && n in order && n.follows.Some?
      requires j < |rhs| && rhs[j].N? && rhs[j].name in nonterminals && Known(memo.nts, rhs)
      modifies Nts()`firsts, Rls()`firsts, Nts()`follows, this`memo, this`follow, this`created
      ensures FirstsDone() && memo == old(memo) && FollowsLinked() && old(created) <= created
      ensures n.name in old(follow) && rhs[j].name in old(follow)
              && follow == Apply(old(follow), n.name, EdgeAt(memo.nts, rhs, j))
    {
      hide Valid, Value, FirstsDone, FollowsLinked, Gather, Apply;
      FollowKeys();
      ghost var f0 := follow;
      var next, any := GatherNext(rhs, j);
      var nt := nonterminals[rhs[j].name];
      var f := NonterminalGetFollows(nt);
      if !any || EMPTY in next {
        AddToFollows(nt, n.follows.value);
      }
      next := next - {EMPTY};
      TwoUnions(f0, follow, n.name, EdgeAt(memo.nts, rhs, j));
      AddToFollows(nt, next);
    }

    method FollowsOfRule(n: Nonterminal, i: nat)
      requires Valid() && FirstsDone() && FollowsLinked() && n in order && i < |n.rules| && n.follows.Some?
      modifies Nts()`firsts, Rls()`firsts, Nts()`follows, this`memo, this`follow, this`created
      ensures FirstsDone() && memo == old(memo) && FollowsLinked() && old(created) <= created
      ensures Known(memo.nts, n.rules[i].entries)
      ensures n.name in old(follow) && (forall e :: e in RuleEdgesOf(n, i) ==> e.target in old(follow))
              && follow == Visit(old(follow), n.name, RuleEdgesOf(n, i))
    {
      hide Valid, Value, FirstsDone, FollowsLinked, EdgeAt, Visit, Apply, RuleEdges;
      ghost var f0 := follow;
      FollowKeys();
      var rhs := n.rules[i].entries;
      RuleKnown(n, i);
      VisitNothing(f0, n.name, memo.nts, rhs);
      var j := 0;
      while j < |rhs|
        invariant 0 <= j <= |rhs| && FirstsDone() && memo == old(memo) && FollowsLinked() && old(created) <= created
        invariant forall e :: e in RuleEdges(memo.nts, rhs, j) ==> e.target in old(follow)
        invariant follow == Visit(old(follow), n.name, RuleEdges(memo.nts, rhs, j))
      {
        FollowKeys();
        VisitRuleStep(f0, n.name, memo.nts, rhs, j);
        if rhs[j].N? {
          FollowsOfEntry(n, rhs, j);
        }
        j := j + 1;
      }
    }

    ghost function RuleEdgesOf(n: Nonterminal, i: nat): seq<Edge>
      requires i < |n.rules| && Known(memo.nts, n.rules[i].entries)
      reads this`memo
    {
      RuleEdges(memo.nts, n.rules[i].entries, |n.rules[i].entries|)
    }

    method FollowsReducer(n: Nonterminal, currentSum: nat) returns (sum: nat)
      requires Valid() && FirstsDone() && FollowsLinked() && n in order
      modifies Nts()`firsts, Rls()`firsts, Nts()`follows, this`memo, this`follow, this`created
      ensures FirstsDone() && memo == old(memo) && FollowsLinked() && old(created) + {n.name} <= created
      ensures WellFormedGraph(Equations()) && n.name in old(follow) && old(follow).Keys == Equations().Keys
              && follow == Visit(old(follow), n.name, Equations()[n.name])
      ensures sum == currentSum + |follow[n.name]|
    {
      hide Valid, Value, FirstsDone, FollowsLinked, Visit, Edges;
      FollowKeys();
      EquationsOf(n);
      ghost var f0, forms := follow, Forms(n.rules);
      var f := NonterminalGetFollows(n);
      var i := 0;
      VisitNoRules(f0, n.name, memo.nts, forms);
      while i < |n.rules|
        invariant 0 <= i <= |n.rules| && FirstsDone() && memo == old(memo) && FollowsLinked()
        invariant old(created) + {n.name} <= created
        invariant forall e :: e in Edges(memo.nts, forms, i) ==> e.target in f0
        invariant follow == Visit(f0, n.name, Edges(memo.nts, forms, i))
      {
        FollowKeys();
        FollowsOfRule(n, i);
        VisitNextRule(f0, n.name, memo.nts, forms, i);
        i := i + 1;
      }
      FollowKeys();
      sum := currentSum + |n.follows.value|;
    }

    lemma EquationsOf(n: Nonterminal)
      requires Valid() && FirstsDone() && n in order
      ensures WellFormedGraph(Equations()) && Equations().Keys == nonterminals.Keys && n.name in nonterminals
      ensures forall k :: 0 <= k < |n.rules| ==> Known(memo.nts, n.rules[k].entries)
      ensures Equations()[n.name] == Edges(memo.nts, Forms(n.rules), |n.rules|)
    {
      ValueWellFormed();
      FollowGraphWellFormed(Value(), memo.nts);
      forall k | 0 <= k < |n.rules| ensures Known(memo.nts, n.rules[k].entries) { RuleKnown(n, k); }
    }

    /** The names of the nonterminals in traversal order. */
    ghost function Names(): (names: seq<string>)
      ensures |names| == |order|
    {
      seq(|order|, i requires 0 <= i < |order| => order[i].name)
    }

    lemma NamesVisit()
      requires Valid() && FirstsDone()
      ensures Visits(Equations(), entrypoint.name, Names()) && Equations().Keys == nonterminals.Keys
      ensures WellFormedGraph(Equations()) && forall a :: a in Names() ==> a in Equations()
    {
      hide FirstsDone, Value, FollowGraph, WellFormedGraph;
      EquationsOf(entrypoint);
      forall a ensures a in Names() <==> a in Equations() {
        if a in Equations() {
          var i :| 0 <= i < |order| && order[i] == nonterminals[a];
          assert Names()[i] == a;
        }
      }
    }

    lemma NameAt(i: nat)
      requires i < |order|
      ensures Names()[i] == order[i].name
    {
    }

    lemma AllCreated(names: set<string>)
      requires Valid() && FirstsDone() && names <= nonterminals.Keys
      requires forall k :: 0 <= k < |order| ==> Names()[k] in names
      ensures names == nonterminals.Keys
    {
      hide FirstsDone, Value;
      NamesVisit();
    }

    /** One pass of the loop in `grammar_analyze`. */
    method FollowPass() returns (sum: nat)
      requires Valid() && FirstsDone() && FollowsLinked()
      modifies Nts()`firsts, Rls()`firsts, Nts()`follows, this`memo, this`follow, this`created
      ensures FirstsDone() && memo == old(memo) && FollowsLinked() && created == nonterminals.Keys
      ensures Visits(Equations(), entrypoint.name, Names()) && old(follow).Keys == Equations().Keys
      ensures follow == Pass(Equations(), old(follow), Names())
      ensures sum == PassSum(Equations(), old(follow), Names())
    {
      hide Valid, Value, FirstsDone, FollowsLinked, Visit, After, CountedSets, Total, FollowGraph, Pass, PassSum;
      hide Counted, Names, Visits, WellFormedGraph;
      FollowKeys();
      NamesVisit();
      ghost var names, f0, graph := Names(), follow, Equations();
      sum := 0;
      var i := 0;
      PassBegins(graph, f0, names);
      while i < |order|
        invariant 0 <= i <= |order| && FirstsDone() && memo == old(memo) && FollowsLinked()
        invariant created <= nonterminals.Keys
        invariant Equations() == graph
        invariant forall k :: 0 <= k < i ==> names[k] in created
        invariant follow == After(graph, f0, names, i)
        invariant sum == Total(CountedSets(graph, f0, names)[..i])
      {
        NameAt(i);
        sum := FollowsReducer(order[i], sum);
        FollowKeys();
        VisitInPass(graph, f0, names, i);
        i := i + 1;
      }
      PassComplete(graph, f0, names);
      AllCreated(created);
    }

    /** The FOLLOW sets are those after the passes made so far. */
    ghost predicate Followed()
      requires Valid() && FirstsDone()
      reads this`memo, this`follow, this`rounds, Nts()`firsts, Rls()`firsts
    {
      && Visits(Equations(), entrypoint.name, Names())
      && follow == Passes(Equations(), entrypoint.name, Names(), rounds)
    }

    /** Before the first pass. */
    lemma NotFollowed()
      requires Valid() && FirstsDone() && rounds == 0 && follow.Keys == nonterminals.Keys
      requires forall a :: a in follow ==> follow[a] == if a == entrypoint.name then {END} else {}
      ensures Followed()
    {
      hide FirstsDone, Value, FollowGraph, Visits;
      NamesVisit();
      assert follow == Initial(Equations(), entrypoint.name);
    }

    /** The `do ... while (sum != prev_sum)` loop. It starts from the sets that are there, and makes at least
        two passes, because the first never reports nothing. */
    method BuildFollows()
      requires Valid() && FirstsDone() && FollowsLinked() && Followed()
      modifies Nts()`firsts, Rls()`firsts, Nts()`follows, this`memo, this`follow, this`created, this`rounds
      ensures FirstsDone() && memo == old(memo) && FollowsLinked() && created == nonterminals.Keys
      ensures Stopped() && rounds >= old(rounds) + 2 && NoEarlierStop(old(rounds))
    {
      hide Valid, Value, FirstsDone, FollowsLinked, Pass, PassSum, FollowGraph, Visits, Passes, Reported, SumBound;
      hide WellFormedGraph, Names;
      NamesVisit();
      ghost var graph, start, names, before := Equations(), entrypoint.name, Names(), rounds;
      var sum, again := 0, true;
      while again
        invariant FirstsDone() && memo == old(memo) && FollowsLinked() && Equations() == graph
        invariant Visits(graph, start, names) && WellFormedGraph(graph) && forall a :: a in names ==> a in graph
        invariant before <= rounds && follow == Passes(graph, start, names, rounds)
        invariant sum == if rounds == before then 0 else Reported(graph, start, names, rounds)
        invariant rounds > before ==> created == nonterminals.Keys
        invariant again || (rounds >= before + 2 && sum == Reported(graph, start, names, rounds - 1))
        invariant forall p: nat | before + 2 <= p <= rounds && (again || p < rounds) ::
                    Reported(graph, start, names, p) != Reported(graph, start, names, p - 1)
        decreases SumBound(graph, names) - sum, again
      {
        var prev := sum;
        sum := FollowPass();
        NextPass(graph, start, names, rounds);
        rounds := rounds + 1;
        ReportedBounded(graph, start, names, rounds);
        ReportedPositive(graph, start, names, rounds);
        again := sum != prev;
      }
    }

    /** The FOLLOW sets are those after the passes made, the last two of which reported the same total. */
    ghost predicate Stopped()
      requires Valid() && FirstsDone()
      reads this`memo, this`follow, this`rounds, Nts()`firsts, Rls()`firsts
    {
      && Followed() && rounds > 0
      && Reported(Equations(), entrypoint.name, Names(), rounds)
         == Reported(Equations(), entrypoint.name, Names(), rounds - 1)
    }

    /** No two passes in a row reported the same total before, counted from the state after `before` passes. */
    ghost predicate NoEarlierStop(before: nat)
      requires Valid() && FirstsDone()
      reads this`memo, this`rounds, Nts()`firsts, Rls()`firsts
    {
      && Visits(Equations(), entrypoint.name, Names())
      && forall p: nat | before + 2 <= p < rounds ::
           Reported(Equations(), entrypoint.name, Names(), p) != Reported(Equations(), entrypoint.name, Names(), p - 1)
    }

    twostate lemma NoEarlierStopKept(before: nat)
      requires old(Valid() && FirstsDone() && NoEarlierStop(before))
      requires FirstsDone() && memo == old(memo) && rounds == old(rounds)
      ensures NoEarlierStop(before)
    {
      hide FirstsDone, Reported, Visits, FollowGraph, Value;
    }

    twostate lemma StoppedKept()
      requires old(Valid() && FirstsDone() && Stopped())
      requires FirstsDone() && memo == old(memo) && follow == old(follow) && rounds == old(rounds)
      ensures Stopped()
    {
      hide FirstsDone, Passes, Reported, Visits, FollowGraph, Value;
    }

    // ---------- the LL(1) check ----------

    /** All rules of all nonterminals have their FIRST sets. */
    ghost predicate AllRulesDone()
      reads this`memo
    {
      forall n, k: nat :: n in order && k < |n.rules| ==> (n.name, k) in memo.rules
    }

    lemma DoneRules()
      requires Valid() && FirstsDone()
      ensures AllRulesDone()
    {
      forall n, k: nat | n in order && k < |n.rules| ensures (n.name, k) in memo.rules { RulesOf(n); }
    }

    /** The FIRST sets memoised for the rules of `n`. */
    ghost function RuleFirsts(n: Nonterminal): (firsts: seq<set<Code>>)
      requires AllRulesDone() && n in order
      reads this`memo
      ensures |firsts| == |n.rules| && forall k :: 0 <= k < |n.rules| ==> firsts[k] == memo.rules[(n.name, k)]
    {
      var (rules, a) := (memo.rules, n.name);
      seq(|n.rules|, k requires 0 <= k < |n.rules| && (a, k) in rules => rules[(a, k)])
    }

    method NonterminalCheckLL1(n: Nonterminal) returns (ret: bool)
      requires Valid() && FirstsDone() && FollowsLinked() && n in order && n.follows.Some?
      modifies Nts()`firsts, Rls()`firsts, this`memo
      ensures FirstsDone() && memo == old(memo) && FollowsLinked()
      ensures AllRulesDone() && n.name in follow && ret == ChecksOut(RuleFirsts(n), follow[n.name])
    {
      hide Valid, Value, FirstsDone, FollowsLinked, CheckedUpTo, ChecksOut;
      FollowKeys();
      DoneRules();
      ghost var firsts, follows := RuleFirsts(n), follow[n.name];
      ret := true;
      var i := 0;
      CheckedRow(firsts, follows, 0);
      while i < |n.rules|
        invariant 0 <= i <= |n.rules| && FirstsDone() && memo == old(memo) && FollowsLinked()
        invariant ret == CheckedUpTo(firsts, follows, i, 0)
      {
        var fi := CheckedRuleFirsts(n, i);
        var j := i + 1;
        CheckedRow(firsts, follows, i);
        while j < |n.rules|
          invariant i < j <= |n.rules| && FirstsDone() && memo == old(memo) && FollowsLinked()
          invariant ret == CheckedUpTo(firsts, follows, i, j)
        {
          var fj := CheckedRuleFirsts(n, j);
          FollowKeys();
          var ok := fi * fj == {};
          ret := ret && ok;
          if END in fj {
            // The rule's own FOLLOW set is never built, and the disjointness test against it has no effect.
            ret := ret && fi * n.follows.value == {};
          }
          CheckedNext(firsts, follows, i, j);
          j := j + 1;
        }
        i := i + 1;
      }
      CheckedRow(firsts, follows, i);
    }

    /** A rule's FIRST set, asked for after all have been built. */
    method CheckedRuleFirsts(n: Nonterminal, k: nat) returns (f: set<Code>)
      requires Valid() && FirstsDone() && n in order && k < |n.rules|
      modifies Nts()`firsts, Rls()`firsts, this`memo
      ensures FirstsDone() && memo == old(memo)
      ensures AllRulesDone() && f == RuleFirsts(n)[k]
      ensures old(FollowsLinked()) ==> FollowsLinked()
    {
      hide Valid, Value, Sound, FollowsLinked;
      DoneRules();
      f := RuleGetFirsts(n, k, {}, {});
    }

    // ---------- parse tables ----------

    /** Puts `rule` at `code`, or, when `code` is EMPTY, at every code of the FOLLOW set. The
        recursion ends because EMPTY is in no FOLLOW set. */
    method AddParseTableEntry(n: Nonterminal, rule: Rule, code: Code)
      requires n.follows.Some? && EMPTY !in n.follows.value && n.parseTable.Some?
      modifies n`parseTable
      ensures n.parseTable == Some(Filled(old(n.parseTable.value), Claimed({code}, n.follows.value), rule))
      decreases if code == EMPTY then 1 else 0
    {
      if code != EMPTY {
        if code !in n.parseTable.value {
          n.parseTable := Some(n.parseTable.value[code := rule]);
        }
        assert Claimed({code}, n.follows.value) == {code};
        assert n.parseTable.value == Filled(old(n.parseTable.value), {code}, rule);
      } else {
        ghost var table := n.parseTable.value;
        FilledNothing(table, rule);
        var rest := n.follows.value;
        while rest != {}
          invariant rest <= n.follows.value && n.parseTable.Some?
          invariant n.parseTable.value == Filled(table, n.follows.value - rest, rule)
          decreases rest
        {
          Inhabited(rest);
          var c :| c in rest;
          FilledTwice(table, n.follows.value - rest, {c}, rule);
          assert n.follows.value - rest + {c} == n.follows.value - (rest - {c});
          AddParseTableEntry(n, rule, c);
          rest := rest - {c};
        }
        assert n.follows.value - {} == Claimed({code}, n.follows.value);
      }
    }

    method RuleBuildParseTable(n: Nonterminal, rule: Rule)
      requires n.follows.Some? && EMPTY !in n.follows.value && n.parseTable.Some? && rule.firsts.Some?
      modifies n`parseTable
      ensures n.parseTable == Some(Filled(old(n.parseTable.value), Claimed(rule.firsts.value, n.follows.value), rule))
    {
      ghost var table, follows, firsts := n.parseTable.value, n.follows.value, rule.firsts.value;
      FilledNothing(table, rule);
      var rest := rule.firsts.value;
      while rest != {}
        invariant rest <= firsts && n.parseTable.Some?
        invariant n.parseTable.value == Filled(table, Claimed(firsts - rest, follows), rule)
        decreases rest
      {
        Inhabited(rest);
        var c :| c in rest;
        FilledTwice(table, Claimed(firsts - rest, follows), Claimed({c}, follows), rule);
        assert Claimed(firsts - rest, follows) + Claimed({c}, follows) == Claimed(firsts - (rest - {c}), follows);
        AddParseTableEntry(n, rule, c);
        rest := rest - {c};
      }
      assert firsts - {} == firsts;
    }

    method NonterminalBuildParseTable(n: Nonterminal)
      requires Valid() && FirstsDone() && FollowsLinked() && n in order && n.follows.Some? && EMPTY !in n.follows.value
      modifies n`parseTable
      ensures FirstsDone() && FollowsLinked() && AllRulesDone() && n.name in follow
      ensures n.parseTable.Some? && TableOf(n.parseTable.value, n.rules, RuleFirsts(n), follow[n.name], |n.rules|)
    {
      hide Value, Sound, Filled, TableOf, Claimed;
      FollowKeys();
      DoneRules();
      ghost var firsts, follows := RuleFirsts(n), follow[n.name];
      n.parseTable := Some(map[]);
      TableEmpty(n.rules, firsts, follows);
      var k := 0;
      while k < |n.rules|
        invariant 0 <= k <= |n.rules| && n.parseTable.Some?
        invariant TableOf(n.parseTable.value, n.rules, firsts, follows, k)
      {
        TableNextRule(n.parseTable.value, n.rules, firsts, follows, k);
        assert n.rules[k].firsts == Some(firsts[k]);
        RuleBuildParseTable(n, n.rules[k]);
        k := k + 1;
      }
    }

    // ---------- the analysis ----------

    /** The grammar as it has been parsed, or as an analysis leaves it. */
    ghost predicate Ready()
      requires Valid()
      reads this`memo, this`follow, this`created, this`rounds, Nts()`firsts, Rls()`firsts, Nts()`follows
    {
      && Linked() && Sound(Value(), memo, {}, {}) && FollowsLinked()
      && if rounds == 0 then forall a :: a in follow ==> follow[a] == if a == entrypoint.name then {END} else {}
         else FirstsDone() && Followed()
    }

    ghost predicate NamesKnown() {
      Value().WellFormed() && forall a :: a in Names() ==> a in Value().rules
    }

    lemma AllNamesKnown()
      requires Valid()
      ensures NamesKnown()
    {
    }

    /** Builds the FIRST sets of all nonterminals, and with them those of all rules, as far as they are not
        there yet. */
    method BuildFirsts()
      requires Valid() && Linked() && Sound(Value(), memo, {}, {})
      modifies Nts()`firsts, Rls()`firsts, this`memo
      ensures FirstsDone() && (old(FirstsDone()) ==> memo == old(memo))
      ensures NamesKnown() && memo == NamesMemo(Value(), old(memo), Names())
    {
      hide Value, Sound, Pending, Tame, NonterminalMemo, NamesMemo, Exact, Valid, Names, Linked;
      AllNamesKnown();
      InOrder(0);
      ghost var m0, names := memo, Names();
      NamesNext(Value(), m0, names, 0);
      var i := 0;
      while i < |order|
        invariant 0 <= i <= |order| && Linked() && Sound(Value(), memo, {}, {})
        invariant memo == NamesMemo(Value(), m0, names[..i])
        invariant forall a :: a in m0.nts ==> a in memo.nts
        invariant m0.nts.Keys == nonterminals.Keys ==> memo == m0
        invariant forall k :: 0 <= k < i ==> names[k] in memo.nts
      {
        InOrder(i);
        PendingNothing(Value(), memo, names[i], 1);
        NamesNext(Value(), m0, names, i);
        var f := NonterminalGetFirsts(order[i], {}, {});
        i := i + 1;
      }
      assert names[..i] == names;
      AllMemoised();
    }

    lemma InOrder(i: nat)
      requires Valid() && i <= |order|
      ensures |order| > 0 && (i < |order| ==> Names()[i] == order[i].name && order[i].name in nonterminals)
    {
    }

    lemma AllMemoised()
      requires Valid() && Linked() && forall k :: 0 <= k < |order| ==> Names()[k] in memo.nts
      ensures memo.nts.Keys == nonterminals.Keys
    {
      forall a | a in nonterminals ensures a in memo.nts {
        var k :| 0 <= k < |order| && order[k] == nonterminals[a];
        assert Names()[k] == a;
      }
    }

    /** The result of checking every nonterminal. */
    ghost predicate AllCheckOut()
      requires AllRulesDone() && forall n :: n in order ==> n.name in follow
      reads this`memo, this`follow
    {
      forall n :: n in order ==> ChecksOut(RuleFirsts(n), follow[n.name])
    }

    method CheckLL1() returns (ok: bool)
      requires Valid() && FirstsDone() && FollowsLinked() && created == nonterminals.Keys && Stopped()
      modifies Nts()`firsts, Rls()`firsts, this`memo
      ensures FirstsDone() && memo == old(memo) && FollowsLinked() && Stopped()
      ensures AllRulesDone() && (forall n :: n in order ==> n.name in follow) && ok == AllCheckOut()
    {
      hide Valid, Value, FirstsDone, FollowsLinked, ChecksOut, Stopped;
      FollowKeys();
      DoneRules();
      ok := true;
      var i := 0;
      while i < |order|
        invariant 0 <= i <= |order| && FirstsDone() && memo == old(memo) && FollowsLinked()
        invariant ok == forall k :: 0 <= k < i ==> ChecksOut(RuleFirsts(order[k]), follow[order[k].name])
      {
        if ok {
          FollowKeys();
          ok := NonterminalCheckLL1(order[i]);
        }
        i := i + 1;
      }
      StoppedKept();
    }

    /** Every nonterminal's parse table holds exactly what its rules claim. */
    ghost predicate AllTablesBuilt()
      requires AllRulesDone() && forall n :: n in order ==> n.name in follow
      reads this`memo, this`follow, Nts()`parseTable
    {
      forall n | n in order :: TableBuilt(n)
    }

    ghost predicate TableBuilt(n: Nonterminal)
      requires AllRulesDone() && n in order && n.name in follow
      reads this`memo, this`follow, n`parseTable
    {
      n.parseTable.Some? && TableOf(n.parseTable.value, n.rules, RuleFirsts(n), follow[n.name], |n.rules|)
    }

    method BuildTables()
      requires Valid() && FirstsDone() && FollowsLinked() && created == nonterminals.Keys
      requires forall a :: a in follow ==> EMPTY !in follow[a]
      modifies Nts()`parseTable
      ensures FirstsDone() && FollowsLinked()
      ensures AllRulesDone() && (forall n :: n in order ==> n.name in follow) && AllTablesBuilt()
    {
      hide Value, FirstsDone, FollowsLinked, TableOf;
      FollowKeys();
      DoneRules();
      var i := 0;
      while i < |order|
        invariant 0 <= i <= |order| && FirstsDone() && FollowsLinked()
        invariant forall k :: 0 <= k < i ==> TableBuilt(order[k])
      {
        NonterminalBuildParseTable(order[i]);
        i := i + 1;
      }
    }

    /** The analysis has accepted the grammar. */
    ghost predicate Accepted()
      reads this`memo, this`follow, Nts()`firsts, Rls()`firsts, Nts()`parseTable
    {
      && Valid() && FirstsDone() && AllRulesDone() && follow.Keys == nonterminals.Keys
      && (forall n :: n in order ==> n.name in follow)
      && AllCheckOut() && AllTablesBuilt()
    }

    /** `grammar_analyze`. The result says whether the grammar passed the LL(1) check; only then are
        the parse tables built. */
    method Analyze() returns (ok: bool)
      requires Valid() && Ready()
      modifies Nts(), Rls()`firsts, this`memo, this`follow, this`created, this`rounds
      ensures Ready() && FirstsDone() && FollowsLinked() && created == nonterminals.Keys
      ensures Stopped() && rounds >= old(rounds) + 2 && NoEarlierStop(old(rounds))
      ensures NamesKnown() && memo == NamesMemo(Value(), old(memo), Names())
      ensures AllRulesDone() && (forall n :: n in order ==> n.name in follow)
      ensures ok == AllCheckOut()
      ensures if ok then Accepted() else forall n :: n in order ==> n.parseTable == old(n.parseTable)
    {
      hide Value, FirstsDone, FollowsLinked, FollowGraph, Stopped, Followed, AllCheckOut, TableBuilt, Valid, NamesMemo;
      hide NoEarlierStop;
      BuildSets();
      label Built:
      ok := CheckLL1();
      NoEarlierStopKept@Built(old(rounds));
      if ok {
        FollowHasNoEmpty();
        BuildTables();
        FollowKeys();
      }
      StaysReady();
    }

    /** The first half of the analysis: FIRST and FOLLOW. */
    method BuildSets()
      requires Valid() && Ready()
      modifies Nts()`firsts, Rls()`firsts, Nts()`follows, this`memo, this`follow, this`created, this`rounds
      ensures FirstsDone() && FollowsLinked() && created == nonterminals.Keys
      ensures Stopped() && rounds >= old(rounds) + 2 && NoEarlierStop(old(rounds))
      ensures NamesKnown() && memo == NamesMemo(Value(), old(memo), Names())
    {
      hide Value, FirstsDone, FollowsLinked, FollowGraph, Stopped, Sound, Linked, Valid, Passes, Visits, NamesMemo;
      hide NoEarlierStop;
      BuildFirsts();
      FollowKeys();
      if rounds == 0 { NotFollowed(); }
      BuildFollows();
    }

    lemma FollowHasNoEmpty()
      requires Valid() && FirstsDone() && FollowsLinked() && Stopped()
      ensures forall a :: a in follow ==> EMPTY !in follow[a]
    {
      hide FirstsDone, FollowsLinked, FollowGraph, Value, Passes, Reported, WellFormedGraph;
      forall a | a in follow ensures EMPTY !in follow[a] {
        NeverEmpty(Equations(), entrypoint.name, Names(), rounds, a);
      }
    }

    lemma StaysReady()
      requires Valid() && FirstsDone() && FollowsLinked() && Stopped()
      ensures Ready()
    {
      hide FollowGraph, Passes, Reported, FollowsLinked, Visits, Sound;
    }

    // ---------- what the analysis establishes ----------

    lemma RegularMeans(g: Cfg)
      ensures Regular(g) <==> g.WellFormed() && g.EveryNonterminalHasRules() && NoLeftRecursion(g)
    {}

    /** In any grammar, the FIRST set of a tame nonterminal is exact: it, and each nonterminal that can lead it, has
        rules and is not left-recursive. */
    lemma TameFirstsExact(a: string)
      requires Valid() && FirstsDone() && Tame(Value(), a)
      ensures a in memo.nts && IsFirst(Value(), [N(a)], memo.nts[a])
    {
      hide First, Tame;
      TameMeans(Value(), a);
      PendingNothing(Value(), memo, a, 1);
      MemoisedExact(Value(), memo, {}, {}, a);
    }

    /** So the FIRST sets are exact for every grammar without left recursion whose nonterminals all
        have rules. A nonterminal without rules always spoils them: it is given {EMPTY} although nothing derives
        from it. */
    lemma FirstsExactIff()
      requires Valid() && FirstsDone()
      ensures NoLeftRecursion(Value()) ==> (ExactFirsts(Value(), memo.nts) <==> Value().EveryNonterminalHasRules())
      ensures ExactFirsts(Value(), memo.nts) ==> Value().EveryNonterminalHasRules()
    {
      hide First, NoLeftRecursion, Tame;
      var g := Value();
      ValueWellFormed();
      if g.EveryNonterminalHasRules() {
        AllTame(g);
        if NoLeftRecursion(g) {
          forall a | a in g.rules ensures IsFirst(g, [N(a)], memo.nts[a]) { TameFirstsExact(a); }
        }
      } else {
        var a :| a in g.rules && g.rules[a] == [];
        assert memo.nts[a] != {};
        Inhabited(memo.nts[a]);
        var c :| c in memo.nts[a];
        FirstNonterminal(g, a, c);
      }
    }

    /** The rules' own FIRST sets, which the LL(1) check and the tables use, are exact as well. */
    lemma RuleFirstsExact(n: Nonterminal, k: nat)
      requires Valid() && FirstsDone() && AllRulesDone() && Tame(Value(), n.name) && n in order && k < |n.rules|
      ensures IsFirst(Value(), Value().rules[n.name][k], RuleFirsts(n)[k])
    {
      hide First, Tame;
      RulesOf(n);
      MemoisedRuleExact(Value(), memo, {}, {}, n.name, k);
    }

    /** The FOLLOW sets that the analysis leaves are the least solution of the equations if and only if own
        contributions have gone on twice, as they have after three passes, or when the equations have
        direct ways. */
    lemma FollowsSolve()
      requires Valid() && FirstsDone() && Stopped()
      ensures var graph := Equations();
              && WellFormedGraph(graph) && Visits(graph, entrypoint.name, Names())
              && (IsLeastSolution(graph, entrypoint.name, follow) <==> TwoOn(graph, follow))
              && (rounds >= 3 || DirectWays(graph, Names()) ==> TwoOn(graph, follow))
              && (Regular(Value()) ==> (FollowSolution(Value(), memo.nts, follow) <==> TwoOn(graph, follow)))
    {
      hide FirstsDone, Value, FollowGraph, Reported, Closed, IsLeastSolution, TwoOn, DirectWays, Regular, Leq, Passes;
      hide ExactFirsts, Visits, WellFormedGraph, Names;
      var graph, start := Equations(), entrypoint.name;
      NamesVisit();
      StopIff(graph, start, Names(), rounds);
      PassesGrow(graph, start, Names(), rounds);
      if rounds >= 3 || DirectWays(graph, Names()) { StopIsLeastSolution(graph, start, Names(), rounds); }
      ValueWellFormed();
      if Regular(Value()) {
        RegularMeans(Value());
        FirstsExactIff();
        EquationsAre();
      }
    }

    lemma EquationsAre()
      requires Valid() && FirstsDone()
      ensures Value().WellFormed() && Value().start == entrypoint.name && memo.nts.Keys == Value().rules.Keys
      ensures Equations() == FollowGraph(Value(), memo.nts)
    {
      ValueWellFormed();
    }

    /** The check tests that the FIRST sets of the rules of a tame nonterminal are pairwise disjoint, and nothing more
        when END leads no rule. */
    lemma CheckTestsRules(n: Nonterminal)
      requires Valid() && FirstsDone() && AllRulesDone() && Tame(Value(), n.name) && n in order && n.name in follow
      ensures n.name in Value().rules && |Value().rules[n.name]| == |n.rules|
      ensures ChecksOut(RuleFirsts(n), follow[n.name]) ==> DisjointAt(Value(), n.name)
      ensures (forall k: nat | k < |n.rules| :: !First(Value(), Value().rules[n.name][k], END))
              ==> (ChecksOut(RuleFirsts(n), follow[n.name]) <==> DisjointAt(Value(), n.name))
    {
      hide First, Tame, FirstsDone;
      var g, firsts := Value(), RuleFirsts(n);
      RulesOf(n);
      var rules := g.rules[n.name];
      forall i: nat, j: nat | i < j < |n.rules|
        ensures firsts[i] * firsts[j] == {} <==> forall c :: !(First(g, rules[i], c) && First(g, rules[j], c))
        ensures END in firsts[j] <==> First(g, rules[j], END)
      {
        RuleFirstsExact(n, i);
        RuleFirstsExact(n, j);
        DisjointFirsts(g, rules[i], rules[j], firsts[i], firsts[j]);
      }
      if ChecksOut(firsts, follow[n.name]) {
        forall i, j, c | 0 <= i < j < |rules| && First(g, rules[i], c) ensures !First(g, rules[j], c) {
          assert PairOk(firsts, follow[n.name], i, j);
        }
      }
    }

    lemma CheckTestsFirsts()
      requires Valid() && FirstsDone() && AllRulesDone() && Regular(Value())
      requires forall n :: n in order ==> n.name in follow
      ensures AllCheckOut() ==> FirstsDisjoint(Value())
      ensures (forall a, k: nat | a in nonterminals && k < |Value().rules[a]| ::
                 !First(Value(), Value().rules[a][k], END))
              ==> (AllCheckOut() <==> FirstsDisjoint(Value()))
    {
      hide First, FirstsDone, Tame, DisjointAt, ChecksOut;
      var g := Value();
      AllTame(g);
      forall n | n in order
        ensures n.name in g.rules && nonterminals[n.name] == n
        ensures ChecksOut(RuleFirsts(n), follow[n.name]) ==> DisjointAt(g, n.name)
        ensures (forall k: nat | k < |g.rules[n.name]| :: !First(g, g.rules[n.name][k], END))
                ==> (ChecksOut(RuleFirsts(n), follow[n.name]) <==> DisjointAt(g, n.name))
      {
        RulesOf(n);
        CheckTestsRules(n);
      }
    }

    ghost function RuleIndex(n: Nonterminal, r: Rule): (k: nat)
      requires r in n.rules
      ensures k < |n.rules| && n.rules[k] == r
    {
      var k :| 0 <= k < |n.rules| && n.rules[k] == r; k
    }

    /** The parse tables as a value: rule numbers in the place of rules. */
    ghost function TableValue(): Table
      requires Valid() && AllRulesDone() && (forall n :: n in order ==> n.name in follow) && AllTablesBuilt()
      reads this`memo, this`follow, Nts()`parseTable
    {
      map a | a in nonterminals :: NonterminalTable(nonterminals[a])
    }

    ghost function NonterminalTable(n: Nonterminal): map<Code, nat>
      requires Valid() && AllRulesDone() && n in order && n.name in follow && TableBuilt(n)
      reads this`memo, this`follow, n`parseTable
    {
      map t | t in n.parseTable.value && n.parseTable.value[t] in n.rules :: RuleIndex(n, n.parseTable.value[t])
    }

    /** A rule claims a token when the token predicts the rule. */
    lemma ClaimsArePredictions(n: Nonterminal, k: nat, t: Code)
      requires Valid() && FirstsDone() && AllRulesDone() && Tame(Value(), n.name)
      requires n in order && k < |n.rules| && n.name in follow
      ensures Claims(RuleFirsts(n), follow[n.name], k, t) <==> Predicts(Value(), follow, n.name, k, t)
    {
      hide First, Tame, FirstsDone;
      RulesOf(n);
      RuleFirstsExact(n, k);
    }

    lemma NonterminalTableMeans(n: Nonterminal)
      requires Valid() && AllRulesDone() && n in order && n.name in follow && TableBuilt(n)
      ensures NonterminalTable(n).Keys == n.parseTable.value.Keys
      ensures forall t | t in NonterminalTable(n) ::
                NonterminalTable(n)[t] < |n.rules| && Earliest(RuleFirsts(n), follow[n.name], NonterminalTable(n)[t], t)
      ensures forall k: nat, t | k < |n.rules| && Claims(RuleFirsts(n), follow[n.name], k, t) ::
                t in NonterminalTable(n)
    {
      var table, firsts, follows := n.parseTable.value, RuleFirsts(n), follow[n.name];
      forall t | t in table
        ensures t in NonterminalTable(n) && NonterminalTable(n)[t] < |n.rules|
                && Earliest(firsts, follows, NonterminalTable(n)[t], t)
      {
        var k :| 0 <= k < |n.rules| && table[t] == n.rules[k] && Earliest(firsts, follows, k, t);
        assert RuleIndex(n, table[t]) == k;
      }
    }

    /** The table of a tame nonterminal, as a value, is that of the prediction relation. */
    lemma TablesAreTables(a: string)
      requires Accepted() && Tame(Value(), a)
      ensures a in TableValue() && TableAt(Value(), follow, TableValue(), a)
    {
      hide Predicts, Claims, TableOf, Tame, FirstsDone, NonterminalTable;
      var g, tables := Value(), TableValue();
      TameMeans(g, a);
      var n := nonterminals[a];
      RulesOf(n);
      assert TableBuilt(n);
      NonterminalTableMeans(n);
      forall k: nat, t | k < |g.rules[a]|
        ensures Claims(RuleFirsts(n), follow[a], k, t) <==> Predicts(g, follow, a, k, t)
      {
        ClaimsArePredictions(n, k, t);
      }
      forall k: nat, t | Predicts(g, follow, a, k, t) ensures t in tables[a] && tables[a][t] <= k {
        PredictedRuleExists(g, follow, a, k, t);
        assert Claims(RuleFirsts(n), follow[a], k, t);
      }
    }

    lemma PredictedRuleExists(g: Cfg, f: Sets, a: string, k: nat, t: Code)
      requires Predicts(g, f, a, k, t)
      ensures a in g.rules && k < |g.rules[a]|
    {}

    // ---------- the main theorems ----------

    /** For a grammar that the analysis accepts, the leftmost derivations of any token string are the runs of the
        tables, and there is at most one, where the nonterminals in use are tame, FIRST and FOLLOW do not really
        conflict and there is enough in the FOLLOW sets. */
    lemma TablesPredict(w: seq<Code>, ks: seq<nat>, ls: seq<nat>)
      requires Accepted() && TameInUse(Value()) && NoRealConflict(Value(), follow) && FollowsEnough(Value(), follow)
      ensures Derives(Value(), [N(entrypoint.name)], w, ks)
              <==> Driven(Value(), TableValue(), [N(entrypoint.name)], w, ks)
      ensures Derives(Value(), [N(entrypoint.name)], w, ks) && Derives(Value(), [N(entrypoint.name)], w, ls)
              ==> ks == ls
    {
      hide FirstsDone, AllCheckOut, AllTablesBuilt, Derives, Driven, NoRealConflict, FollowsEnough, TameInUse;
      hide DisjointInUse, TableInUse, TableValue;
      AcceptedMeans();
      var g, table := Value(), TableValue();
      DerivesIffDriven(g, follow, table, w, ks);
      if Derives(g, [N(g.start)], w, ks) && Derives(g, [N(g.start)], w, ls) {
        AtMostOneDerivation(g, follow, table, w, ks, ls);
      }
    }

    /** What the tables of an accepted grammar are worth, exactly. Where the nonterminals in use all derive
        something, the tables drive every leftmost derivation if and only if no nonterminal in use is left-recursive,
        FIRST and FOLLOW do not really conflict, and there is enough in the FOLLOW sets. The LL(1) check tests none
        of the three. */
    lemma TablesPredictIff()
      requires Accepted() && Productive(Value())
      ensures AllDriven(Value(), TableValue(), [N(entrypoint.name)])
              <==> NoneLeftRecursive(Value()) && NoRealConflict(Value(), follow) && FollowsEnough(Value(), follow)
      ensures AllReachable(Value()) ==> (NoneLeftRecursive(Value()) <==> NoLeftRecursion(Value()))
    {
      hide FirstsDone, AllCheckOut, AllTablesBuilt, AllDriven, NoRealConflict, FollowsEnough, TameInUse;
      hide DisjointInUse, TableInUse, TableValue;
      hide NoneLeftRecursive, Productive, AllReachable, NoLeftRecursion;
      AcceptedValue();
      var g, table := Value(), TableValue();
      TameIffNone(g);
      if AllReachable(g) { NoneIsNoLeftRecursion(g); }
      if AllDriven(g, table, [N(g.start)]) { NoneNeeded(g, table); }
      if TameInUse(g) {
        AcceptedMeans();
        DrivenIff(g, follow, table);
      }
    }

    lemma AcceptedValue()
      requires Accepted()
      ensures Value().WellFormed() && Value().start == entrypoint.name && Value().rules.Keys == follow.Keys
    {
      ValueWellFormed();
    }

    lemma AcceptedMeans()
      requires Accepted() && TameInUse(Value())
      ensures Value().start == entrypoint.name
      ensures DisjointInUse(Value()) && TableInUse(Value(), follow, TableValue())
    {
      hide Tame, Occurs, FirstsDone, DisjointAt, TableAt, ChecksOut;
      var g := Value();
      forall a | a in g.rules && Occurs(g, a)
        ensures DisjointAt(g, a) && a in TableValue() && TableAt(g, follow, TableValue(), a)
      {
        CheckTestsRules(nonterminals[a]);
        TablesAreTables(a);
      }
    }

    /** When the FOLLOW sets solve the equations, there is enough in them. */
    lemma TablesPredictIffSolved()
      requires Accepted() && Regular(Value()) && Stopped() && TwoOn(Equations(), follow) && Productive(Value())
      ensures AllDriven(Value(), TableValue(), [N(entrypoint.name)]) <==> NoRealConflict(Value(), follow)
      ensures FollowsDisjoint(Value(), follow) ==> NoRealConflict(Value(), follow)
    {
      hide AllDriven, FollowSolution, NoRealConflict, FollowsEnough, TwoOn, Regular, TameInUse, NoneLeftRecursive;
      hide FollowsDisjoint, Productive, Stopped, TableValue, FirstsDone, AllCheckOut, AllTablesBuilt, FollowGraph;
      FollowsSolve();
      SolutionIsEnough(Value(), memo.nts, follow);
      NoneIfRegular(Value());
      TablesPredictIff();
      DisjointIsNoConflict(Value(), follow);
    }

    lemma NoneIfRegular(g: Cfg)
      requires Regular(g)
      ensures NoneLeftRecursive(g) && TameInUse(g)
    {
      hide Tame, Occurs;
      AllTame(g);
      forall a | a in g.rules ensures !LeftReaches(g, a, a) {
        assert forall p :: LeftPath(g, p) ==> p[0] != p[|p| - 1];
      }
    }

    /** On grammars whose FOLLOW sets are the textbook's, that comes to the test the LL(1) check leaves out: the
        tables drive all derivations if and only if the FOLLOW set of each nonterminal with a vanishing rule is
        disjoint from what its other rules can begin with. */
    lemma TablesPredictIffDisjoint()
      requires Accepted() && Regular(Value()) && Stopped() && TwoOn(Equations(), follow) && Productive(Value())
      requires NoGaps(Value()) && AllReachable(Value()) && FollowsLinked()
      ensures AllDriven(Value(), TableValue(), [N(entrypoint.name)]) <==> FollowsDisjoint(Value(), follow)
    {
      hide First, Regular, AllDriven, FollowSolution, AllTablesBuilt, AllCheckOut, TwoOn, FirstsDone, TableInUse;
      hide FollowsDisjoint, Productive, NoGaps, AllReachable, TextbookFollow, FollowGraph, ExactFirsts, IsLeastSolution;
      hide FollowsLinked, Value, Stopped, TableValue, DisjointInUse, TameInUse;
      FollowsSolve();
      EquationsAre();
      FollowHasNoEmpty();
      NoneIfRegular(Value());
      AcceptedMeans();
      SolutionExact(Value(), memo.nts, follow);
      forall a, t | a in follow ensures t in follow[a] <==> TextbookFollow(Value(), a, t) {
        FollowIsTextbook(Value(), memo.nts, follow, a, t);
      }
      DrivenIffDisjoint(Value(), follow, TableValue());
    }

    lemma SolutionExact(g: Cfg, fs: Sets, f: Sets)
      requires FollowSolution(g, fs, f)
      ensures g.WellFormed() && ExactFirsts(g, fs) && f.Keys == g.rules.Keys
    {
      SolutionKeys(g, fs, f);
    }
  }
}
