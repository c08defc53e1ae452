/** The memoised FIRST computation as a function of the memo fields, for any grammar: what is set and returned early
    because it is under construction included. */
module FirstMemo {
  import opened ContextFree
  import opened Follow

  /** The FIRST sets memoised so far, of nonterminals and of rules; a missing key is a NULL field. */
  datatype Memo = Memo(nts: Sets, rules: map<(string, nat), set<Code>>)

  ghost function RuleKeys(g: Cfg): set<(string, nat)> {
    set a, k: nat | a in g.rules && 0 <= k < |g.rules[a]| :: (a, k)
  }

  ghost predicate Grown(m: Memo, m': Memo) {
    m.nts.Keys <= m'.nts.Keys && m.rules.Keys <= m'.rules.Keys
  }

  function PutNonterminal(m: Memo, a: string, codes: set<Code>): Memo { m.(nts := m.nts[a := codes]) }

  function PutRule(m: Memo, a: string, k: nat, codes: set<Code>): Memo { m.(rules := m.rules[(a, k) := codes]) }

  /** The field of a nonterminal is set to the empty set before its rules are asked, and returned as it is when it
      is set. */
  ghost function NonterminalMemo(g: Cfg, m: Memo, a: string): (m': Memo)
    requires g.WellFormed() && a in g.rules
    ensures Grown(m, m') && a in m'.nts
    decreases g.rules.Keys - m.nts.Keys, RuleKeys(g) - m.rules.Keys, 0
  {
    if a in m.nts then m
    else
      var done := RulesMemo(g, PutNonterminal(m, a, {}), a, |g.rules[a]|);
      if done.nts[a] == {} then PutNonterminal(done, a, {EMPTY}) else done
  }

  ghost function RulesMemo(g: Cfg, m: Memo, a: string, i: nat): (m': Memo)
    requires g.WellFormed() && a in g.rules && i <= |g.rules[a]| && a in m.nts
    ensures Grown(m, m')
    decreases g.rules.Keys - m.nts.Keys, RuleKeys(g) - m.rules.Keys, 2, i
  {
    if i == 0 then m
    else
      var before := RulesMemo(g, m, a, i - 1);
      var asked := RuleMemo(g, before, a, i - 1);
      PutNonterminal(asked, a, asked.nts[a] + asked.rules[(a, i - 1)])
  }

  /** The field of a rule is set to {EMPTY} before its entries are asked. */
  ghost function RuleMemo(g: Cfg, m: Memo, a: string, k: nat): (m': Memo)
    requires g.WellFormed() && a in g.rules && k < |g.rules[a]|
    ensures Grown(m, m') && (a, k) in m'.rules
    decreases g.rules.Keys - m.nts.Keys, RuleKeys(g) - m.rules.Keys, 0
  {
    if (a, k) in m.rules then m else
      assert (a, k) in RuleKeys(g);
      EntriesMemo(g, PutRule(m, a, k, {EMPTY}), a, k, 0)
  }

  /** The entries are asked from `j` on, for as long as everything before them can vanish. */
  ghost function EntriesMemo(g: Cfg, m: Memo, a: string, k: nat, j: nat): (m': Memo)
    requires g.WellFormed() && a in g.rules && k < |g.rules[a]| && j <= |g.rules[a][k]| && (a, k) in m.rules
    ensures Grown(m, m')
    decreases g.rules.Keys - m.nts.Keys, RuleKeys(g) - m.rules.Keys, 2, |g.rules[a][k]| - j
  {
    if EMPTY !in m.rules[(a, k)] || j == |g.rules[a][k]| then m
    else
      var codes := m.rules[(a, k)] - {EMPTY};
      var asked := EntryMemo(g, PutRule(m, a, k, codes), g.rules[a][k][j]);
      EntriesMemo(g, PutRule(asked, a, k, codes + EntryFirsts(asked.nts, g.rules[a][k][j])), a, k, j + 1)
  }

  ghost function EntryMemo(g: Cfg, m: Memo, s: Symbol): (m': Memo)
    requires g.WellFormed() && (s.N? ==> s.name in g.rules)
    ensures Grown(m, m') && (s.N? ==> s.name in m'.nts)
    decreases g.rules.Keys - m.nts.Keys, RuleKeys(g) - m.rules.Keys, 1
  {
    match s
    case T(_) => m
    case N(b) => NonterminalMemo(g, m, b)
  }

  /** One nonterminal after the other, as the traversal of the dictionary does. */
  ghost function NamesMemo(g: Cfg, m: Memo, names: seq<string>): (m': Memo)
    requires g.WellFormed() && forall a :: a in names ==> a in g.rules
    ensures Grown(m, m')
  {
    if names == [] then m
    else NonterminalMemo(g, NamesMemo(g, m, names[..|names| - 1]), names[|names| - 1])
  }

  // ---------- one step each ----------

  lemma NonterminalIs(g: Cfg, m: Memo, a: string)
    requires g.WellFormed() && a in g.rules
    ensures a in m.nts ==> NonterminalMemo(g, m, a) == m
    ensures a !in m.nts ==>
              var start := PutNonterminal(m, a, {});
              var done := RulesMemo(g, start, a, |g.rules[a]|);
              && RulesMemo(g, start, a, 0) == start && a in done.nts
              && NonterminalMemo(g, m, a) == if done.nts[a] == {} then PutNonterminal(done, a, {EMPTY}) else done
  {
  }

  lemma RulesNext(g: Cfg, m: Memo, a: string, i: nat)
    requires g.WellFormed() && a in g.rules && i < |g.rules[a]| && a in m.nts
    ensures var asked := RuleMemo(g, RulesMemo(g, m, a, i), a, i);
            && a in asked.nts && (a, i) in asked.rules
            && RulesMemo(g, m, a, i + 1) == PutNonterminal(asked, a, asked.nts[a] + asked.rules[(a, i)])
  {
  }

  lemma RuleIs(g: Cfg, m: Memo, a: string, k: nat)
    requires g.WellFormed() && a in g.rules && k < |g.rules[a]|
    ensures (a, k) in m.rules ==> RuleMemo(g, m, a, k) == m
    ensures (a, k) !in m.rules ==> RuleMemo(g, m, a, k) == EntriesMemo(g, PutRule(m, a, k, {EMPTY}), a, k, 0)
  {
  }

  lemma EntriesNext(g: Cfg, m: Memo, a: string, k: nat, j: nat)
    requires g.WellFormed() && a in g.rules && k < |g.rules[a]| && j <= |g.rules[a][k]| && (a, k) in m.rules
    ensures EMPTY !in m.rules[(a, k)] || j == |g.rules[a][k]| ==> EntriesMemo(g, m, a, k, j) == m
    ensures EMPTY in m.rules[(a, k)] && j < |g.rules[a][k]| ==>
              var s, codes := g.rules[a][k][j], m.rules[(a, k)] - {EMPTY};
              var asked := EntryMemo(g, PutRule(m, a, k, codes), s);
              && (s.N? ==> s.name in asked.nts)
              && EntriesMemo(g, m, a, k, j)
                 == EntriesMemo(g, PutRule(asked, a, k, codes + EntryFirsts(asked.nts, s)), a, k, j + 1)
  {
  }

  lemma NamesNext(g: Cfg, m: Memo, names: seq<string>, i: nat)
    requires g.WellFormed() && (forall a :: a in names ==> a in g.rules) && i < |names|
    ensures NamesMemo(g, m, names[..0]) == m && names[i] in g.rules
    ensures NamesMemo(g, m, names[..i + 1]) == NonterminalMemo(g, NamesMemo(g, m, names[..i]), names[i])
  {
    assert names[..i + 1][..i] == names[..i];
  }
}
