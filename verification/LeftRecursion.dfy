/** What the memoised FIRST computation gives where it is not exact: under left recursion, and for a nonterminal
    without rules. */
module LeftRecursion {
  import opened ContextFree
  import opened FirstMemo
  import opened Follow
  import opened LL1
  import opened Grammars
  import opened GrammarBuilders

  const X: Code := 'x' as int
  const Y: Code := 'y' as int

  // A := A 'x' | 'y'
  const LEFT: Cfg := Cfg(map["A" := [[N("A"), T(X)], [T(Y)]]], "A")
  const NOTHING := Memo(map[], map[])

  function At(nt: set<Code>, first: set<Code>): Memo { Memo(map["A" := nt], map[("A", 0) := first]) }

  /** The first rule of `A` asks for `A`, whose field is set and empty. */
  lemma FirstRule()
    requires LEFT.WellFormed()
    ensures RuleMemo(LEFT, PutNonterminal(NOTHING, "A", {}), "A", 0) == At({}, {})
  {
    hide NonterminalMemo, RulesMemo, RuleMemo, EntriesMemo;
    var g, start := LEFT, PutNonterminal(NOTHING, "A", {});
    RuleIs(g, start, "A", 0);
    assert PutRule(start, "A", 0, {EMPTY}) == At({}, {EMPTY});
    EntriesNext(g, At({}, {EMPTY}), "A", 0, 0);
    assert {EMPTY} - {EMPTY} == {} && PutRule(At({}, {EMPTY}), "A", 0, {}) == At({}, {});
    NonterminalIs(g, At({}, {}), "A");
    assert g.rules["A"][0][0] == N("A") && EntryFirsts(At({}, {}).nts, N("A")) == {};
    var none: set<Code> := {};
    assert none + none == none;
    assert PutRule(At({}, {}), "A", 0, {}) == At({}, {});
    EntriesNext(g, At({}, {}), "A", 0, 1);
  }

  lemma SecondRule()
    requires LEFT.WellFormed()
    ensures RuleMemo(LEFT, At({}, {}), "A", 1) == PutRule(At({}, {}), "A", 1, {Y})
  {
    hide NonterminalMemo, RulesMemo, RuleMemo, EntriesMemo;
    var g, m := LEFT, At({}, {});
    RuleIs(g, m, "A", 1);
    EntriesNext(g, PutRule(m, "A", 1, {EMPTY}), "A", 1, 0);
    assert g.rules["A"][1][0] == T(Y) && {EMPTY} - {EMPTY} == {} && {} + {Y} == {Y};
    assert PutRule(PutRule(PutRule(m, "A", 1, {EMPTY}), "A", 1, {}), "A", 1, {Y}) == PutRule(m, "A", 1, {Y});
    EntriesNext(g, PutRule(m, "A", 1, {Y}), "A", 1, 1);
  }

  /** `A` is under construction when its first rule asks for it, and has nothing yet: so the rule gets the empty set,
      although `y` can lead it. */
  lemma LeftMemo()
    ensures LEFT.WellFormed()
    ensures NonterminalMemo(LEFT, NOTHING, "A") == Memo(map["A" := {Y}], map[("A", 0) := {}, ("A", 1) := {Y}])
    ensures First(LEFT, LEFT.rules["A"][0], Y)
  {
    hide NonterminalMemo, RulesMemo, RuleMemo, EntriesMemo, First;
    var g, start := LEFT, PutNonterminal(NOTHING, "A", {});
    FirstRule();
    SecondRule();
    NonterminalIs(g, NOTHING, "A");
    RulesNext(g, start, "A", 0);
    var none: set<Code> := {};
    assert none + none == none && PutNonterminal(At(none, none), "A", none) == At(none, none);
    RulesNext(g, start, "A", 1);
    assert {} + {Y} == {Y};
    FirstTerminal(g, Y, Y);
    FirstNonterminal(g, "A", Y);
    assert g.rules["A"][0] == [N("A")] + [T(X)] && g.rules["A"][1] == [T(Y)];
    FirstConcat(g, [N("A")], [T(X)], Y);
  }

  lemma LeftClaims(firsts: seq<set<Code>>, follows: set<Code>)
    requires firsts == [{}, {Y}]
    ensures forall t :: !Claims(firsts, follows, 0, t) && (Claims(firsts, follows, 1, t) <==> t == Y)
  {
  }

  lemma LeftFirsts(g: Grammar)
    requires g.Valid() && g.Value() == LEFT && g.AllRulesDone()
    requires g.memo == Memo(map["A" := {Y}], map[("A", 0) := {}, ("A", 1) := {Y}])
    ensures "A" in g.nonterminals && g.nonterminals["A"] in g.order && g.nonterminals["A"].name == "A"
    ensures |g.nonterminals["A"].rules| == 2 && g.RuleFirsts(g.nonterminals["A"]) == [{}, {Y}]
    ensures forall n :: n in g.order ==> n == g.nonterminals["A"]
  {
    assert LEFT.rules.Keys == {"A"};
    g.RulesOf(g.nonterminals["A"]);
    forall n | n in g.order ensures n == g.nonterminals["A"] { g.RulesOf(n); }
  }

  /** The table of `A` knows `y` only, and gives the second rule for it. */
  lemma LeftTable(g: Grammar)
    requires g.Valid() && g.Value() == LEFT && g.AllRulesDone() && (forall n :: n in g.order ==> n.name in g.follow)
    requires g.memo == Memo(map["A" := {Y}], map[("A", 0) := {}, ("A", 1) := {Y}])
    requires g.AllTablesBuilt()
    ensures "A" in g.TableValue() && g.TableValue()["A"].Keys == {Y} && g.TableValue()["A"][Y] == 1
  {
    hide Grammar.Valid, Grammar.Value, Grammar.AllRulesDone, Grammar.NonterminalTable, Grammar.TableBuilt, Claims;
    LeftFirsts(g);
    var n := g.nonterminals["A"];
    var firsts, follows := g.RuleFirsts(n), g.follow[n.name];
    LeftClaims(firsts, follows);
    assert g.TableBuilt(n);
    g.NonterminalTableMeans(n);
    assert Claims(firsts, follows, 1, Y) && g.TableValue()["A"] == g.NonterminalTable(n);
    forall t | t in g.NonterminalTable(n) ensures t == Y && g.NonterminalTable(n)[t] == 1 {
      var k := g.NonterminalTable(n)[t];
      assert Earliest(firsts, follows, k, t) && (k == 0 || k == 1);
    }
  }

  lemma LeftChecksOut(g: Grammar)
    requires g.Valid() && g.Value() == LEFT && g.AllRulesDone() && (forall n :: n in g.order ==> n.name in g.follow)
    requires g.memo == Memo(map["A" := {Y}], map[("A", 0) := {}, ("A", 1) := {Y}])
    ensures g.AllCheckOut()
  {
    hide Grammar.Valid, Grammar.Value, Grammar.AllRulesDone;
    LeftFirsts(g);
  }

  lemma LeftDerivation()
    ensures Derives(LEFT, [N("A")], [Y, X], [0, 1])
  {
    var g := LEFT;
    assert [X][1..] == [] && [Y, X][1..] == [X] && [T(X)][1..] == [];
    assert Derives(g, [T(X)], [X], []);
    var second: seq<nat> := [1];
    var form: Form := [N("A"), T(X)];
    assert g.rules["A"][1] + form[1..] == [T(Y), T(X)] && [T(Y), T(X)][1..] == [T(X)] && second[1..] == [];
    assert Derives(g, [T(Y), T(X)], [Y, X], []);
    assert Derives(g, form, [Y, X], second);
    var start: Form := [N("A")];
    var both: seq<nat> := [0, 1];
    assert g.rules["A"][0] + start[1..] == form && both[1..] == second;
  }

  lemma LeftDrivenNot(table: Table, ks: seq<nat>)
    requires "A" in table && table["A"].Keys == {Y} && table["A"][Y] == 1
    ensures !Driven(LEFT, table, [N("A")], [Y, X], ks)
  {
    var g := LEFT;
    var start: Form := [N("A")];
    assert g.rules["A"][1] + start[1..] == [T(Y)] && [Y, X][1..] == [X] && [T(Y)][1..] == [];
    if ks != [] {
      assert !Driven(g, table, [], [X], ks[1..]);
      assert !Driven(g, table, [T(Y)], [Y, X], ks[1..]);
    }
  }

  /** The grammar passes the check, and its tables reject `yx`, which it generates. */
  method AnalyzeLeft() returns (g: Grammar, ok: bool)
    ensures g.Valid() && g.Value() == LEFT && ok
    ensures g.Accepted() && Derives(LEFT, [N("A")], [Y, X], [0, 1])
    ensures forall ks :: !Driven(LEFT, g.TableValue(), [N("A")], [Y, X], ks)
  {
    LeftNames();
    g := Build(LEFT, ["A"]);
    ok := g.Analyze();
    LeftOutcome(g);
  }

  lemma LeftNames()
    ensures LEFT.WellFormed() && NamesMemo(LEFT, NOTHING, ["A"])
            == Memo(map["A" := {Y}], map[("A", 0) := {}, ("A", 1) := {Y}])
  {
    hide NonterminalMemo;
    LeftMemo();
    var names := ["A"];
    assert names[..0] == [] && NamesMemo(LEFT, NOTHING, []) == NOTHING;
  }

  lemma LeftOutcome(g: Grammar)
    requires g.Valid() && g.Value() == LEFT && g.AllRulesDone() && (forall n :: n in g.order ==> n.name in g.follow)
    requires g.memo == Memo(map["A" := {Y}], map[("A", 0) := {}, ("A", 1) := {Y}])
    ensures g.AllCheckOut() && Derives(LEFT, [N("A")], [Y, X], [0, 1])
    ensures g.AllTablesBuilt() ==> forall ks :: !Driven(LEFT, g.TableValue(), [N("A")], [Y, X], ks)
  {
    LeftChecksOut(g);
    LeftDerivation();
    if g.AllTablesBuilt() {
      LeftTable(g);
      forall ks ensures !Driven(LEFT, g.TableValue(), [N("A")], [Y, X], ks) { LeftDrivenNot(g.TableValue(), ks); }
    }
  }

  // ---------- the same rules the other way round ----------

  // A := 'y' | A 'x'
  const SWAPPED: Cfg := Cfg(map["A" := [[T(Y)], [N("A"), T(X)]]], "A")

  function With(nt: set<Code>, rules: map<(string, nat), set<Code>>): Memo { Memo(map["A" := nt], rules) }

  lemma SwappedFirst()
    requires SWAPPED.WellFormed()
    ensures RuleMemo(SWAPPED, With({}, map[]), "A", 0) == With({}, map[("A", 0) := {Y}])
  {
    hide NonterminalMemo, RulesMemo, RuleMemo, EntriesMemo;
    var g, m := SWAPPED, With({}, map[]);
    RuleIs(g, m, "A", 0);
    EntriesNext(g, PutRule(m, "A", 0, {EMPTY}), "A", 0, 0);
    assert g.rules["A"][0][0] == T(Y) && {EMPTY} - {EMPTY} == {} && {} + {Y} == {Y};
    assert PutRule(PutRule(PutRule(m, "A", 0, {EMPTY}), "A", 0, {}), "A", 0, {Y}) == With({}, map[("A", 0) := {Y}]);
    EntriesNext(g, With({}, map[("A", 0) := {Y}]), "A", 0, 1);
  }

  /** By the time the second rule asks for `A`, the field of `A` has what there is. */
  lemma SwappedSecond()
    requires SWAPPED.WellFormed()
    ensures var m := With({Y}, map[("A", 0) := {Y}]); RuleMemo(SWAPPED, m, "A", 1) == PutRule(m, "A", 1, {Y})
  {
    hide NonterminalMemo, RulesMemo, RuleMemo, EntriesMemo;
    var g, m := SWAPPED, With({Y}, map[("A", 0) := {Y}]);
    RuleIs(g, m, "A", 1);
    EntriesNext(g, PutRule(m, "A", 1, {EMPTY}), "A", 1, 0);
    assert g.rules["A"][1][0] == N("A") && {EMPTY} - {EMPTY} == {} && {} + {Y} == {Y};
    var asked := PutRule(PutRule(m, "A", 1, {EMPTY}), "A", 1, {});
    NonterminalIs(g, asked, "A");
    assert PutRule(asked, "A", 1, {Y}) == PutRule(m, "A", 1, {Y});
    EntriesNext(g, PutRule(m, "A", 1, {Y}), "A", 1, 1);
  }

  lemma {:induction false} SwappedExposes(rest: Form, ks: seq<nat>, c: Code)
    requires Exposes(SWAPPED, [N("A")] + rest, ks, c)
    ensures c == Y
    decreases |ks|
  {
    var g := SWAPPED;
    assert ([N("A")] + rest)[1..] == rest;
    if ks[0] == 0 {
      assert g.rules["A"][0] + rest == [T(Y)] + rest;
    } else {
      assert g.rules["A"][1] + rest == [N("A")] + ([T(X)] + rest);
      SwappedExposes([T(X)] + rest, ks[1..], c);
    }
  }

  /** Being tame is sufficient only: this grammar is left-recursive as well, and its FIRST sets are exact. */
  lemma SwappedIsExact()
    ensures SWAPPED.WellFormed() && !Tame(SWAPPED, "A")
    ensures var m := NonterminalMemo(SWAPPED, NOTHING, "A");
            && IsFirst(SWAPPED, [N("A")], m.nts["A"])
            && forall k | 0 <= k < 2 ::
                 ("A", k) in m.rules && IsFirst(SWAPPED, SWAPPED.rules["A"][k], m.rules[("A", k)])
  {
    hide NonterminalMemo, RulesMemo, RuleMemo, EntriesMemo, First;
    var g, start := SWAPPED, PutNonterminal(NOTHING, "A", {});
    assert start == With({}, map[]) && {} + {Y} == {Y} && {Y} + {Y} == {Y};
    SwappedFirst();
    NonterminalIs(g, NOTHING, "A");
    RulesNext(g, start, "A", 0);
    assert PutNonterminal(With({}, map[("A", 0) := {Y}]), "A", {Y}) == With({Y}, map[("A", 0) := {Y}]);
    SwappedSecond();
    RulesNext(g, start, "A", 1);
    SwappedFirsts();
    SwappedNotTame();
  }

  lemma SwappedFirsts()
    ensures IsFirst(SWAPPED, [N("A")], {Y})
    ensures IsFirst(SWAPPED, SWAPPED.rules["A"][0], {Y}) && IsFirst(SWAPPED, SWAPPED.rules["A"][1], {Y})
  {
    var g := SWAPPED;
    forall c ensures (First(g, [N("A")], c) <==> c == Y) {
      FirstTerminal(g, Y, c);
      FirstNonterminal(g, "A", c);
      assert g.rules["A"][0] == [T(Y)];
      if First(g, [N("A")], c) {
        var ks :| Exposes(g, [N("A")], ks, c);
        assert [N("A")] + [] == [N("A")];
        SwappedExposes([], ks, c);
      }
    }
    forall c ensures First(g, g.rules["A"][1], c) <==> c == Y {
      assert g.rules["A"][1] == [N("A")] + [T(X)];
      FirstConcat(g, [N("A")], [T(X)], c);
    }
    forall c ensures First(g, g.rules["A"][0], c) <==> c == Y { FirstTerminal(g, Y, c); }
  }

  lemma SwappedNotTame()
    ensures !Tame(SWAPPED, "A")
  {
    var g := SWAPPED;
    FirstNothing(g, EMPTY);
    assert g.rules["A"][1][..0] == [] && g.rules["A"][1][0] == N("A");
    assert LeftOccurrence(g, "A", "A", 1, 0);
    EdgeReaches(g, "A", "A");
  }

  // ---------- a nonterminal without rules ----------

  // S := 'x' B ;  B
  const BARE: Cfg := Cfg(map["S" := [[T(X), N("B")]], "B" := []], "S")

  /** `B` is given EMPTY although nothing derives from it. */
  lemma BareIsGivenEmpty(m: Memo)
    requires "B" !in m.nts
    ensures BARE.WellFormed() && NonterminalMemo(BARE, m, "B").nts["B"] == {EMPTY}
    ensures forall c :: !First(BARE, [N("B")], c)
  {
    hide First, NonterminalMemo;
    NonterminalIs(BARE, m, "B");
    forall c ensures !First(BARE, [N("B")], c) { FirstNonterminal(BARE, "B", c); }
  }
}
