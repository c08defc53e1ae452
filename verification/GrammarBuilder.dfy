/** The grammar objects for a grammar given as a value. */
module GrammarBuilders {
  import opened Wrappers
  import opened ContextFree
  import opened FirstMemo
  import opened Grammars

  /** A nonterminal with new, different rule objects. */
  method BuildNonterminal(name: string, forms: seq<Form>) returns (n: Nonterminal)
    ensures fresh(n) && IsBuilt(n, name, forms) && forall k :: 0 <= k < |n.rules| ==> fresh(n.rules[k])
  {
    var rules: seq<Rule> := [];
    while |rules| < |forms|
      invariant |rules| <= |forms| && forall k :: 0 <= k < |rules| ==> rules[k].entries == forms[k]
      invariant forall k :: 0 <= k < |rules| ==> fresh(rules[k]) && rules[k].firsts == None
      invariant forall i, j :: 0 <= i < j < |rules| ==> rules[i] != rules[j]
    {
      var rule := new Rule(forms[|rules|]);
      rules := rules + [rule];
    }
    n := new Nonterminal(name, rules);
  }

  /** The objects of the first nonterminals of the order. */
  ghost predicate Built(value: Cfg, order: seq<string>, nts: seq<Nonterminal>)
    requires forall a :: a in order ==> a in value.rules
    reads nts, RulesOf(nts)
  {
    && |nts| <= |order|
    && (forall i :: 0 <= i < |nts| ==> IsBuilt(nts[i], order[i], value.rules[order[i]]))
    && (forall i, k, j, l | 0 <= i < |nts| && 0 <= j < |nts| && 0 <= k < |nts[i].rules| && 0 <= l < |nts[j].rules| ::
          nts[i].rules[k] == nts[j].rules[l] ==> i == j && k == l)
  }

  ghost function RulesOf(nts: seq<Nonterminal>): set<Rule> { set n, k | n in nts && 0 <= k < |n.rules| :: n.rules[k] }

  ghost predicate IsBuilt(n: Nonterminal, name: string, forms: seq<Form>)
    reads n, n.rules
  {
    && n.name == name && Forms(n.rules) == forms && n.firsts == None && n.follows == None && n.parseTable == None
    && (forall k :: 0 <= k < |n.rules| ==> n.rules[k].firsts == None)
    && (forall i, j :: 0 <= i < j < |n.rules| ==> n.rules[i] != n.rules[j])
  }

  ghost predicate Named(order: seq<string>, nts: seq<Nonterminal>, named: map<string, Nonterminal>) {
    && |nts| <= |order|
    && (forall i :: 0 <= i < |nts| ==> order[i] in named && named[order[i]] == nts[i])
    && (forall a :: a in named ==> exists i :: 0 <= i < |nts| && order[i] == a)
  }

  lemma BuiltNext(value: Cfg, order: seq<string>, nts: seq<Nonterminal>, n: Nonterminal)
    requires IsOrder(value, order) && Built(value, order, nts) && |nts| < |order|
    requires IsBuilt(n, order[|nts|], value.rules[order[|nts|]])
    requires forall k :: 0 <= k < |n.rules| ==> n.rules[k] !in RulesOf(nts)
    ensures Built(value, order, nts + [n])
  {
    var all := nts + [n];
    forall i, k, j, l | 0 <= i < |all| && 0 <= j < |all| && 0 <= k < |all[i].rules| && 0 <= l < |all[j].rules|
      ensures all[i].rules[k] == all[j].rules[l] ==> i == j && k == l
    {
      if i < |nts| { assert all[i].rules[k] in RulesOf(nts); }
      if j < |nts| { assert all[j].rules[l] in RulesOf(nts); }
    }
  }

  lemma NamedNext(value: Cfg, order: seq<string>, nts: seq<Nonterminal>, named: map<string, Nonterminal>,
                  n: Nonterminal)
    requires IsOrder(value, order) && Named(order, nts, named) && |nts| < |order|
    ensures Named(order, nts + [n], named[order[|nts|] := n])
  {
    var all, a := nts + [n], order[|nts|];
    var after := named[a := n];
    forall b | b in after ensures exists i :: 0 <= i < |all| && order[i] == b {
      if b == a { assert order[|nts|] == b; }
    }
  }

  /** All nonterminals, each once, as a traversal of the dictionary has them. */
  ghost predicate IsOrder(value: Cfg, order: seq<string>) {
    (forall a :: a in order <==> a in value.rules) && forall i, j :: 0 <= i < j < |order| ==> order[i] != order[j]
  }

  method BuildAll(value: Cfg, order: seq<string>) returns (nts: seq<Nonterminal>, named: map<string, Nonterminal>)
    requires IsOrder(value, order)
    ensures |nts| == |order| && Built(value, order, nts) && Named(order, nts, named)
    ensures (forall n :: n in nts ==> fresh(n)) && fresh(RulesOf(nts))
  {
    hide Built, IsBuilt, Named;
    nts, named := [], map[];
    NoneBuilt(value, order);
    while |nts| < |order|
      invariant |nts| <= |order| && Built(value, order, nts) && Named(order, nts, named)
      invariant (forall n :: n in nts ==> fresh(n)) && fresh(RulesOf(nts))
    {
      var a := order[|nts|];
      var n := BuildNonterminal(a, value.rules[a]);
      BuiltNext(value, order, nts, n);
      NamedNext(value, order, nts, named, n);
      assert RulesOf(nts + [n]) == RulesOf(nts) + RulesOf([n]) && forall r :: r in RulesOf([n]) ==> r in n.rules;
      nts, named := nts + [n], named[a := n];
    }
  }

  lemma NoneBuilt(value: Cfg, order: seq<string>)
    requires IsOrder(value, order)
    ensures Built(value, order, []) && Named(order, [], map[])
  {
  }

  /** The grammar objects, ready for the analysis. */
  method Build(value: Cfg, order: seq<string>) returns (g: Grammar)
    requires value.WellFormed() && IsOrder(value, order)
    ensures fresh(g) && fresh(g.Nts()) && fresh(g.Rls())
    ensures g.Valid() && g.Ready() && g.rounds == 0 && g.memo == Memo(map[], map[])
    ensures g.Value() == value && g.Names() == order && forall n :: n in g.order ==> n.parseTable == None
  {
    var nts, named := BuildAll(value, order);
    g := new Grammar(named, nts, named[value.start]);
    BuiltIsValue(g, value, order);
  }

  lemma BuiltIsValue(g: Grammar, value: Cfg, order: seq<string>)
    requires value.WellFormed() && IsOrder(value, order) && |g.order| == |order|
    requires Built(value, order, g.order) && Named(order, g.order, g.nonterminals)
    requires g.entrypoint == g.nonterminals[value.start]
    ensures g.Valid() && g.Value() == value && g.Names() == order
  {
    assert value.start in value.rules;
    hide Cfg.WellFormed;
    NamedMeans(g, value, order);
    assert g.Names() == order;
    forall a ensures a in g.nonterminals <==> a in value.rules {}
    forall a | a in value.rules ensures Forms(g.nonterminals[a].rules) == value.rules[a] {}
    assert g.Value().rules == value.rules;
    assert g.Value() == value;
    BuiltIsValid(g, value, order);
  }

  lemma NamedMeans(g: Grammar, value: Cfg, order: seq<string>)
    requires IsOrder(value, order) && |g.order| == |order|
    requires Built(value, order, g.order) && Named(order, g.order, g.nonterminals)
    ensures forall a :: a in g.nonterminals <==> a in value.rules
    ensures forall a :: a in value.rules ==> g.nonterminals[a] in g.order && g.nonterminals[a].name == a
    ensures forall a :: a in value.rules ==> Forms(g.nonterminals[a].rules) == value.rules[a]
    ensures forall n :: n in g.order ==> n.name in value.rules && g.nonterminals[n.name] == n
    ensures forall i, j :: 0 <= i < j < |g.order| ==> g.order[i] != g.order[j]
  {
    forall a | a in value.rules
      ensures a in g.nonterminals && g.nonterminals[a] in g.order && g.nonterminals[a].name == a
      ensures Forms(g.nonterminals[a].rules) == value.rules[a]
    {
      var i :| 0 <= i < |order| && order[i] == a;
      assert g.nonterminals[order[i]] == g.order[i];
    }
    forall n | n in g.order ensures n.name in value.rules && g.nonterminals[n.name] == n {
      var i :| 0 <= i < |g.order| && g.order[i] == n;
      assert order[i] in order;
    }
    forall i, j | 0 <= i < j < |g.order| ensures g.order[i] != g.order[j] {
      assert g.order[i].name == order[i] && g.order[j].name == order[j];
    }
  }

  lemma BuiltIsValid(g: Grammar, value: Cfg, order: seq<string>)
    requires value.WellFormed() && IsOrder(value, order) && |g.order| == |order|
    requires Built(value, order, g.order) && Named(order, g.order, g.nonterminals)
    requires g.entrypoint == g.nonterminals[value.start]
    ensures g.Valid()
  {
    hide Named;
    NamedMeans(g, value, order);
    forall n, i, m, j | n in g.order && m in g.order && 0 <= i < |n.rules| && 0 <= j < |m.rules|
      ensures n.rules[i] == m.rules[j] ==> n == m && i == j
    {
      var p :| 0 <= p < |g.order| && g.order[p] == n;
      var q :| 0 <= q < |g.order| && g.order[q] == m;
    }
    forall n, k, j | n in g.order && 0 <= k < |n.rules| && 0 <= j < |n.rules[k].entries| && n.rules[k].entries[j].N?
      ensures n.rules[k].entries[j].name in g.nonterminals
    {
      assert value.rules[n.name] == Forms(n.rules) && value.rules[n.name][k] == n.rules[k].entries;
    }
  }
}
