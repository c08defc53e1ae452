/** From the text of a grammar to its parse tables. */
module EndToEnd {
  import opened Wrappers
  import opened ContextFree
  import opened FirstMemo
  import opened LL1
  import opened LL1Exact
  import opened LeftExact
  import opened Grammars
  import opened GrammarBuilders
  import E = Ebnf
  import T = GrammarTexts
  import P = GrammarParsers
  import S = GrammarSpellings
  import U = GrammarNames

  /** The tables accept the token string. */
  ghost predicate TablesAccept(g: Cfg, table: Table, w: seq<Code>) {
    exists ks: seq<nat> :: Driven(g, table, [N(g.start)], w, ks)
  }

  /** The grammar that is analysed is the one stored for the text. */
  ghost predicate IsReadFrom(g: Grammar, text: T.GrammarText)
    requires text != []
  {
    g.Value() == T.ToCfg(T.Stored(text), text[0].name)
  }

  /** The tables of a grammar that was read, analysed and accepted accept exactly the token strings that its text
      describes, where the nonterminals in use are tame, FIRST and FOLLOW do not really conflict and there is enough
      in the FOLLOW sets. */
  lemma TextToTables(text: T.GrammarText, g: Grammar, w: seq<Code>)
    requires text != [] && T.Consistent(T.Claims(text)) && T.NoStrays(text) && IsReadFrom(g, text)
    requires g.Accepted() && TameInUse(g.Value())
    requires NoRealConflict(g.Value(), g.follow) && FollowsEnough(g.Value(), g.follow)
    ensures E.Generates(T.Written(text), [E.Ref(text[0].name)], w) <==> TablesAccept(g.Value(), g.TableValue(), w)
  {
    hide T.Claims, T.Consistent, T.NoStrays, T.Written, T.ToCfg, T.Stored, E.Generates, Derives, Driven;
    hide TameInUse, NoRealConflict, FollowsEnough, Grammar.Valid, Grammar.FirstsDone, Grammar.AllCheckOut;
    hide Grammar.AllTablesBuilt, Grammar.AllRulesDone, Grammar.TableValue, Grammar.Value;
    T.ReadGrammarGenerates(text, w);
    StartIs(g, text);
    var table := g.TableValue();
    if T.Accepts(g.Value(), w) {
      var ks: seq<nat> :| Derives(g.Value(), [N(g.Value().start)], w, ks);
      g.TablesPredict(w, ks, ks);
    }
    if TablesAccept(g.Value(), table, w) {
      var ks: seq<nat> :| Driven(g.Value(), table, [N(g.Value().start)], w, ks);
      g.TablesPredict(w, ks, ks);
    }
  }

  /** The same for a text whose names do not collide, from how it is written alone. */
  lemma UnambiguousTextToTables(text: T.GrammarText, g: Grammar, w: seq<Code>)
    requires text != [] && U.PlainlySpelled(text) && U.Unambiguous(text) && U.AllDeclared(text) && IsReadFrom(g, text)
    requires g.Accepted() && TameInUse(g.Value())
    requires NoRealConflict(g.Value(), g.follow) && FollowsEnough(g.Value(), g.follow)
    ensures E.Generates(T.Written(text), [E.Ref(text[0].name)], w) <==> TablesAccept(g.Value(), g.TableValue(), w)
  {
    hide U.PlainlySpelled, U.Unambiguous, U.AllDeclared, T.Claims, T.Consistent, T.NoStrays, IsReadFrom, Grammar.Valid;
    hide Grammar.Accepted, TameInUse, NoRealConflict, FollowsEnough, E.Generates, TablesAccept, Grammar.FirstsDone;
    U.UnambiguousIsConsistent(text);
    U.NoneStrays(text);
    TextToTables(text, g, w);
  }

  lemma StartIs(g: Grammar, text: T.GrammarText)
    requires text != [] && IsReadFrom(g, text)
    ensures g.Value().start == g.entrypoint.name == text[0].name
  {
  }

  /** Some order of the nonterminals. */
  method OrderOf(value: Cfg) returns (order: seq<string>)
    ensures IsOrder(value, order)
  {
    order := [];
    var rest := value.rules.Keys;
    while rest != {}
      invariant rest <= value.rules.Keys && forall a :: a in order <==> a in value.rules.Keys - rest
      invariant forall i, j :: 0 <= i < j < |order| ==> order[i] != order[j]
      decreases rest
    {
      var a :| a in rest;
      OrderNext(order, a);
      order, rest := order + [a], rest - {a};
    }
  }

  lemma OrderNext(order: seq<string>, a: string)
    requires a !in order && forall i, j :: 0 <= i < j < |order| ==> order[i] != order[j]
    ensures forall b :: b in order + [a] <==> b in order || b == a
    ensures forall i, j :: 0 <= i < j < |order| + 1 ==> (order + [a])[i] != (order + [a])[j]
  {
  }

  /** The end of the input leads no rule. */
  ghost predicate EndLeadsNone(value: Cfg) {
    forall a, k: nat | a in value.rules && k < |value.rules[a]| :: !First(value, value.rules[a][k], END)
  }

  /** `grammar_parser_parse`: the tokens of a text, however it is spelled, are read into a new grammar, and the grammar
      is analysed: whatever the result, FIRST and FOLLOW are built, the result is that of the LL(1) check, and the parse
      tables are there if and only if it passed. A regular grammar passes only if the rules of each nonterminal have
      disjoint FIRST sets, and it does pass if moreover END leads no rule. */
  method Read(ts: seq<P.Lexeme>, ghost text: T.GrammarText, ghost cs: seq<S.Change>) returns (g: Grammar, ok: bool)
    requires text != [] && S.AllAllowed(P.TextTokens(text), cs) && ts == S.Spelled(P.TextTokens(text), cs)
    requires T.ToCfg(T.Stored(text), text[0].name).WellFormed()
    ensures fresh(g) && IsReadFrom(g, text) && g.Valid()
    ensures g.FirstsDone() && g.FollowsLinked() && g.created == g.nonterminals.Keys
    ensures g.NamesKnown() && g.memo == NamesMemo(g.Value(), Memo(map[], map[]), g.Names())
    ensures g.Stopped() && g.rounds >= 2 && g.NoEarlierStop(0)
    ensures g.AllRulesDone() && (forall n :: n in g.order ==> n.name in g.follow) && ok == g.AllCheckOut()
    ensures if ok then g.Accepted() else forall n :: n in g.order ==> n.parseTable == None
    ensures Regular(g.Value()) ==>
              (ok ==> FirstsDisjoint(g.Value())) && (EndLeadsNone(g.Value()) ==> (ok <==> FirstsDisjoint(g.Value())))
  {
    hide Grammar.Value, Grammar.Valid, Grammar.Ready, Grammar.FirstsDone, Grammar.FollowsLinked, Grammar.Stopped;
    hide Grammar.NoEarlierStop, Grammar.AllCheckOut, Grammar.Accepted, NamesMemo, FirstsDisjoint, EndLeadsNone;
    hide T.Stored, S.AllAllowed, S.Spelled, P.TextTokens, Cfg.WellFormed;
    S.SpelledRead(text, cs);
    var parser := new P.GrammarParser();
    parser.Parse(ts);
    var value := T.ToCfg(parser.Stored(), parser.entrypoint.value);
    var order := OrderOf(value);
    g := Build(value, order);
    ok := g.Analyze();
    if Regular(g.Value()) { ChecksOutIff(g); }
  }

  /** What the result of the check says about the grammar as a value. */
  lemma ChecksOutIff(g: Grammar)
    requires g.Valid() && g.FirstsDone() && g.AllRulesDone() && Regular(g.Value())
    requires forall n :: n in g.order ==> n.name in g.follow
    ensures g.AllCheckOut() ==> FirstsDisjoint(g.Value())
    ensures EndLeadsNone(g.Value()) ==> (g.AllCheckOut() <==> FirstsDisjoint(g.Value()))
  {
    hide Grammar.Valid, Grammar.FirstsDone, Grammar.AllRulesDone, Grammar.AllCheckOut, Regular, FirstsDisjoint, First;
    g.CheckTestsFirsts();
    ValueKeys(g);
  }

  lemma ValueKeys(g: Grammar)
    ensures g.Value().rules.Keys == g.nonterminals.Keys
  {
  }
}
