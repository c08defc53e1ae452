# Obelix, modelled and proved in Dafny

Obelix is a scripting language system in C: a parser generator with its lexer, a container library and an
interprocess call layer. This project models the parts of it that carry the most reasoning, and proves what they are for.

- **Grammar analysis** (`ContextFree`, `FirstMemo`, `Follow`, `FollowStop`, `FollowTextbook`, `LL1`, `LL1Exact`, `LeftExact`,
  `Grammar`, `GrammarBuilder`, `Counterexamples`, `LeftRecursion`). FIRST sets by memoised mutual recursion, FOLLOW sets by passes until the summed sizes repeat, the LL(1) check, and the parse
  tables, as classes with memo fields. The meaning of all of it is defined by derivations, and the main theorem, `TablesPredictIff`, says
  exactly when the tables stored for an accepted grammar drive its leftmost derivations. The sizes are summed while a pass is still running; it is proved exactly when the
  sets that the loop leaves solve the equations nevertheless, and a grammar is given for which they do not.
- **Reading a grammar** (`Ebnf`, `GrammarText`, `GrammarNames`, `GrammarParser`, `GrammarSpelling`, `EndToEnd`). The grammar parser is a state machine over tokens that builds nonterminals
  and rules as it goes; `?`, `*`, `+` and their forms with a separator become synthetic nonterminals. The stored grammar generates what
  the text says when no name is claimed for two different things, which can be seen from the text (`ConsistentIff`), and a string is lost in an example where one is. `TextToTables` joins this
  to the analysis: the tables accept what the text describes.
- **Lexer** (`Token`, `Lexer`, `LexerConfig`, `Keyword`, `QString`, `Number`, `Scanners`). Scanners compete over one buffer. The driver is proved
  against a specification for any scanners; the keyword, quoted-string and number scanners are methods on the same lexer
  object, each proved to make exactly the offer its specification says, and put behind one lexer in the order of the configuration.
- **Client pool** (`Mountpoint`). Threads check clients out and return them under a recursive mutex and a condition
  variable: a state machine over the threads' steps, with safety in every interleaving.
- **Containers** (`Dict`, `LinkedList`, `Hierarchy`). The hash table with its growth and iterators refines a map, the sentinel list is a linked
  chain with split and join, and the label tree refines a map from names to data.

Where the code and its comments or its purpose differ, the code is modelled, and lemmas say when the promise holds or give an input for which it does not:

- The FOLLOW loop can stop before the sets satisfy the equations (`StopsTooSoon`, `AnalyzeHasty`); `StopIff` says exactly when it does not.
- FOLLOW is larger than the rules in the comment say when a vanishing entry is followed by one that does not vanish (`GatherExactIff`, `GapInherits`, `GapAddsEnd`).
- FIRST holds Empty for a nonterminal without rules (`FirstsExactIff`, `BareIsGivenEmpty`).
- Under left recursion FIRST is memoised before it is complete, and the check passes grammars whose tables reject what they generate (`AnalyzeLeft`);
  `NotLeftRecursive` says that no table is right for a grammar with a left-recursive nonterminal in use, if those in use derive something, and `TameFirstsExact` which sets are exact all the same.
- The LL(1) check does not look at FOLLOW (`CheckMissesConflict`, `AnalyzeConflict`); `TablesPredictIff` says exactly when the tables are right.
- Synthetic names can collide with declared ones, whose rules are then lost (`MetIffConsistent`, `ConsistentIff`, `CollisionLosesStrings`).
- A carriage return that no scanner wants has the code of end of file and ends the token stream (`CoversUnlessBareReturn`, `ReturnCutsRun`).
- A skip can keep an earlier, shorter token for a longer span (`WinnersToken`, `SkipKeepsToken`).
- The keyword scanner keeps a keyword it has read past (`ExactUnlessGaps`, `GapTakenForMatch`), and passes over a keyword at the end of the
  input when a longer one goes on (`PassesOnlyAtEnd`, `KeywordPassedAtEnd`).
- The number scanner takes `0x` for a hexadecimal and `+.e5` for a float, reads `0e5` no further than its zero, and offers nothing for an integer other than zero with a bare point behind it (`NumberIff`, `PointNeedsDigit`).
- A quoted string does not come back when its quote is the backslash or one of `r`, `n`, `t` (`RoundTrip`, `AwkwardQuote`).
- The pool locks again after a sleep that already holds the lock, and the level is never given back: all others are locked out (`SleepKeepsLock`, `OthersLockedOut`, `SleeperKeepsLock`).

A token code, a nonterminal's name and a rule's number are values; sets are Dafny sets. Methods that the code calls through
tables of functions (scanners, hash and comparison functions) are function values. I/O, readers that deliver the input in pieces, and creating
a client are parameters or nondeterministic choices.

## Model

| member | source | states |
|---|---|---|
| Grammars.Grammar.NonterminalGetFirsts | src/grammar/nonterminal.c:114-131 | The memoised mutual recursion terminates on every grammar, left-recursive ones included, because the unset memo fields decrease; no field is ever reset, a nonterminal without rules gets {Empty}, and the set is the exact one for every tame nonterminal: it and each that can lead it have rules and are not left-recursive; on any grammar, left-recursive ones included, the fields are those of the function `NonterminalMemo` |
| Grammars.Grammar.RuleGetFirsts | src/grammar/rule.c:99-115 | The same for a rule: the loop takes Empty out before each entry and stops at the first entry that cannot vanish; for a tame nonterminal the set is the FIRST set of the whole right-hand side, and on any grammar that of `RuleMemo` |
| Grammars.Grammar.EntryGetFirsts | src/grammar/rule_entry.c:107-119 | The third leg of the recursion adds exactly the entry's FIRST codes to the caller's set |
| Grammars.Grammar.ScanEntry | src/grammar/rule.c:107-111 | One round of that loop on the objects, exact for tame nonterminals and equal to the function for all |
| Grammars.BuildStep | src/grammar/nonterminal.c:121-124 | The union over the first rules of a nonterminal grows by exactly one rule's FIRST set while other sets are built in between |
| Grammars.ScanStep | src/grammar/rule.c:106-110 | The union over the first entries of a rule, behind a prefix that vanishes, is the FIRST set of the longer prefix |
| ContextFree.FirstConcat | src/grammar/rule.c:99-115 | FIRST of a concatenation: that of the first part, and that of the second part when the first vanishes, derived from the derivations themselves |
| ContextFree.DerivesFirst | src/grammar/rule.c:99-115 | A derivation of a token string witnesses its first token in FIRST, or nullability when the string is empty |
| ContextFree.RankFalls | src/grammar/nonterminal.c:118-119 | The number of nonterminals that can lead a nonterminal falls along an edge to one that is not left-recursive, directly or behind vanishing entries |
| ContextFree.TameEdge | src/grammar/nonterminal.c:118-119 | What can lead a tame nonterminal is tame and ranks lower, so no tame nonterminal is asked for while it is being built, whatever else is |
| Grammars.Grammar.BuildFirsts | src/grammar/grammar.c:227-235 | After the visit of all nonterminals each has its FIRST set, the one that `NamesMemo` gives for the traversal order, on any grammar |
| Grammars.Grammar.TameFirstsExact | src/grammar/nonterminal.c:114-131 | In any grammar the FIRST set of each tame nonterminal is the textbook one, Empty standing for nullability |
| Grammars.Grammar.FirstsExactIff | src/grammar/nonterminal.c:114-131 | Without left recursion all FIRST sets are exact if and only if every nonterminal has a rule, and one without rules spoils them in any grammar |
| Grammars.Grammar.RuleFirstsExact | src/grammar/rule.c:99-115 | So are the FIRST sets of the rules of tame nonterminals |
| LeftRecursion.LeftMemo | src/grammar/nonterminal.c:118-125 | Where A is `A x` or `y` the first rule gets the empty set, because A is under construction when the rule asks for it, although y can lead it |
| LeftRecursion.SwappedIsExact | src/grammar/nonterminal.c:118-125 | Being tame is sufficient only: with the rules the other way round, `y` or `A x`, the FIRST sets of A and its rules are exact |
| LeftRecursion.AnalyzeLeft | src/grammar/nonterminal.c:114-188 | The objects of the grammar with the rules `A x` and `y` pass the LL(1) check, and their table rejects `yx`, which the grammar generates |
| LeftRecursion.BareIsGivenEmpty | src/grammar/nonterminal.c:125-127 | A nonterminal without rules gets {Empty}, although nothing derives from it |
| Grammars.Grammar.GatherNext | src/grammar/grammar.c:262-275 | What is gathered behind an occurrence: entry after entry is added until Empty is not in the set; Empty stays in between, so later entries are added as well |
| Grammars.Grammar.FollowsOfEntry | src/grammar/grammar.c:261-286 | One occurrence of a nonterminal has the effect of its equation on the FOLLOW sets, the two unions in the order of the code |
| Grammars.Grammar.FollowsReducer | src/grammar/grammar.c:248-291 | One visit of a nonterminal solves its equations one after the other and adds the size its set has by then to the running sum |
| Grammars.Grammar.FollowPass | src/grammar/grammar.c:374-378 | One pass over the nonterminals in their fixed order computes `Pass` and reports `PassSum` |
| Grammars.Grammar.BuildFollows | src/grammar/grammar.c:372-379 | The loop terminates; it stops at the first pass that reports the same sum as the one before, and the FOLLOW sets are those after its passes |
| Grammars.Grammar.NonterminalGetFollows | src/grammar/nonterminal.c:145-153 | A FOLLOW set is created empty, with End for the entry point |
| Follow.VisitAbsorbs | src/grammar/grammar.c:276-286 | A visit leaves nothing out of what the visited nonterminal contributes |
| Follow.PassSumGrows | src/grammar/grammar.c:289-289 | The sums reported by successive passes never fall, and when they are equal every set counted in the one was the same when counted in the other |
| Follow.EqualSumsClosedIff | src/grammar/grammar.c:374-382 | Equal sums in two passes: the sets between them satisfy every equation if and only if what nonterminals contribute to themselves has gone on to those that inherit from them |
| Follow.LastPassStable | src/grammar/grammar.c:374-379 | Whenever the loop stops, its last pass changed nothing if and only if that held before it; then the result is the least solution |
| FollowStop.BroughtBefore | src/grammar/grammar.c:374-379 | What a visit of the second of two passes with equal sums brings, the first pass brought already, unless it is the visited nonterminal's own contribution on its way |
| FollowStop.StopIff | src/grammar/grammar.c:374-379 | Whenever the loop stops, the FOLLOW sets it leaves are the least solution of the equations, and satisfy the equations at all, if and only if what nonterminals contribute to themselves has gone on twice: to those that inherit from them, and from these to those that inherit from them |
| FollowStop.InTimeTwoOn | src/grammar/grammar.c:374-379 | Two passes take a contribution of a nonterminal to itself two occurrences further when the visits come in that order |
| FollowStop.StopIsLeastSolution | src/grammar/grammar.c:374-379 | That is so after three passes or more, and after two when the equations have direct ways for the order of the visits, which can be seen before: what a nonterminal contributes to itself and passes on twice has a direct way, or comes back, or the one that it passes it to is visited later, or stands behind it in the rules |
| Follow.ReportedBounded | src/grammar/grammar.c:374-379 | The reported sums are monotone and bounded, so the loop stops on every grammar |
| Follow.NeverEmpty | src/grammar/grammar.c:285-286 | No FOLLOW set ever contains Empty |
| Follow.PassesBelow | src/grammar/grammar.c:248-291 | No FOLLOW set ever leaves any solution of the equations |
| Follow.FirstPassReports | src/grammar/grammar.c:372-379 | The first pass never stops the loop: it counts End |
| Grammars.Grammar.FollowsSolve | src/grammar/grammar.c:374-379 | The same for the objects: the FOLLOW fields that the analysis leaves are the least solution, and solve the equations for the exact FIRST sets, if and only if own contributions have gone on twice; three passes or direct ways are enough |
| LL1.FollowContainsTextbook | src/grammar/grammar.c:237-247 | Every solution of the code's equations contains the textbook FOLLOW sets, defined by sentential forms |
| LL1.StepKeepsCovers | src/grammar/grammar.c:237-247 | Rewriting a nonterminal in a sentential form keeps what can follow each of its nonterminals inside their FOLLOW sets |
| FollowTextbook.GatherIs | src/grammar/grammar.c:262-275 | Behind an occurrence the codes of the next entry are gathered, and, if that can vanish, the codes of every later entry too, whether the ones in between can vanish or not |
| FollowTextbook.GatherExactIff | src/grammar/grammar.c:262-275 | The codes gathered behind an occurrence are the FIRST set of what stands there if and only if the next entry cannot vanish or all of it can |
| FollowTextbook.GapInherits | src/grammar/grammar.c:262-286 | In `S := A B c`, where B is `b` or nothing, Empty is gathered behind A, which inherits from S, although `B c` cannot vanish |
| FollowTextbook.GapAddsEnd | src/grammar/grammar.c:237-247 | There End is in the FOLLOW set of A in every solution of the equations, and cannot follow A in any form derived from S |
| FollowTextbook.FollowIsTextbook | src/grammar/grammar.c:237-247 | On grammars where that holds behind every occurrence and every nonterminal is reachable, the least solution is exactly the textbook FOLLOW |
| Counterexamples.HastyGraph | src/grammar/grammar.c:261-286 | The equations of a grammar whose analysis stops too soon |
| Counterexamples.HastyEquations | src/grammar/grammar.c:261-286 | They are those of the objects, from the FIRST sets that the recursion gives |
| Counterexamples.StopsTooSoon | src/grammar/grammar.c:374-379 | On that grammar the loop stops after two passes although the FOLLOW sets do not satisfy the equations |
| Counterexamples.AnalyzeHasty | src/grammar/grammar.c:368-397 | On the objects: the analysis accepts that grammar after two passes with FOLLOW sets that do not satisfy the equations, and its tables drive all derivations all the same |
| Grammars.Grammar.NonterminalCheckLL1 | src/grammar/nonterminal.c:155-188 | The nested loops compute the conjunction over all pairs of rules of what the LL(1) check asks of a pair |
| Grammars.Grammar.CheckLL1 | src/grammar/grammar.c:293-301 | All nonterminals are checked until one fails |
| Grammars.Grammar.CheckTestsRules | src/grammar/nonterminal.c:162-188 | For a tame nonterminal that passes, the FIRST sets of its rules are disjoint, and that is all that is tested when End leads none of them |
| Grammars.Grammar.CheckTestsFirsts | src/grammar/nonterminal.c:162-188 | A grammar that passes has pairwise disjoint FIRST sets; when End leads no rule that is all the LL(1) check tests |
| Counterexamples.CheckMissesConflict | src/grammar/nonterminal.c:162-188 | A grammar with disjoint FIRST sets whose table, for any FOLLOW sets, rejects a string it generates: the LL(1) check does not look at FOLLOW |
| Counterexamples.AnalyzeConflict | src/grammar/grammar.c:368-397 | On the objects: the analysis accepts that grammar, and its tables reject that string |
| Grammars.Grammar.AddParseTableEntry | src/grammar/rule.c:121-134 | A code gets the rule unless it has one; Empty does so for every code of FOLLOW, and the recursion ends because FOLLOW never contains Empty |
| Grammars.Grammar.RuleBuildParseTable | src/grammar/rule.c:136-140 | A rule's pass fills exactly the tokens the rule claims that have no entry yet |
| Grammars.Grammar.NonterminalBuildParseTable | src/grammar/nonterminal.c:190-195 | The table has token t if and only if some rule claims t (t in FIRST, or Empty in FIRST and t in FOLLOW), and holds the earliest such rule |
| Grammars.Grammar.BuildTables | src/grammar/grammar.c:303-308 | Every nonterminal gets its table |
| Grammars.Grammar.Analyze | src/grammar/grammar.c:368-397 | The whole analysis: FIRST, FOLLOW, check, and tables only if the LL(1) check passes |
| Grammars.Grammar.TablesAreTables | src/grammar/nonterminal.c:190-195 | The table of a tame nonterminal, as a value, is that of the prediction relation |
| LL1Exact.UsedCanBeUsed | src/grammar/rule.c:121-140 | In a leftmost derivation the rule used for the leading nonterminal is one that the next token leads, or that vanishes where the token can follow, End at the end of the input |
| LL1Exact.StoredIsUsed | src/grammar/rule.c:121-140 | Without a real conflict, and with enough in the FOLLOW sets, that rule is the one stored in the table at the next token |
| LL1Exact.DerivesIffDriven | src/grammar/rule.c:121-140 | Then the leftmost derivations from the entry point are exactly the runs of the tables, whatever sets the tables took for FOLLOW |
| LL1Exact.AtMostOneDerivation | src/grammar/rule.c:121-140 | Then every token string has at most one leftmost derivation |
| LL1Exact.DrivenAhead | src/grammar/rule.c:121-140 | Expanding a nonterminal in advance, behind what derives the tokens before it, keeps a run of the table |
| LL1Exact.UsedIsStored | src/grammar/rule.c:121-140 | When a table drives all derivations of a grammar whose nonterminals all derive something, it holds every rule that can be used, at every token that can come next, which is therefore unique |
| LL1Exact.RealConflict | src/grammar/rule.c:121-134 | No table at all drives all derivations when a rule vanishes where a token can follow that leads another rule |
| LL1Exact.VanishingIsStored | src/grammar/rule.c:121-134 | When tables drive all derivations, a vanishing rule is predicted at every token that can follow its nonterminal |
| LL1Exact.DrivenIff | src/grammar/rule.c:121-140 | For tables built from any sets at all, where the nonterminals in use have disjoint FIRST sets and derive something: they drive all derivations if and only if there is no real conflict (where a token in the set of a nonterminal in use leads one rule while another vanishes, the token never really follows and the rule it leads is the earlier one) and the sets have enough in them (each token that really follows, for each vanishing rule that it does not lead) |
| LL1Exact.SolutionIsEnough | src/grammar/grammar.c:237-247 | A solution of the FOLLOW equations for exact FIRST sets always has enough in it |
| LL1Exact.DrivenIffDisjoint | src/grammar/rule.c:121-140 | With the textbook FOLLOW sets that is disjointness of FIRST and FOLLOW |
| LeftExact.LeftPathLeads | src/grammar/rule.c:121-140 | Along a left path the first nonterminal leads to the last by leftmost choices that read no token |
| LeftExact.ForcedAlong | src/grammar/rule.c:121-134 | A run that begins with such choices fixes the table along them: every other run with the same next token begins with them too |
| LeftExact.NoRunAlong | src/grammar/rule.c:121-134 | So no run follows such choices from a nonterminal back to itself |
| LeftExact.NotLeftRecursive | src/grammar/rule.c:121-140 | No table at all drives all derivations of a grammar with a left-recursive nonterminal in use, when the nonterminals in use derive something |
| LeftExact.TameIffNone | src/grammar/nonterminal.c:114-131 | Where the nonterminals in use derive something, they are tame if and only if none of them is left-recursive |
| Grammars.Grammar.TablesPredict | src/grammar/grammar.c:368-397 | For the objects after the analysis of a grammar it accepts, where the nonterminals in use are tame, FIRST and FOLLOW do not really conflict and there is enough in the FOLLOW sets: the leftmost derivations of any token string are exactly the runs of the stored tables, and there is at most one |
| Grammars.Grammar.TablesPredictIff | src/grammar/grammar.c:368-397 | The main theorem. For every grammar that the analysis accepts and whose nonterminals in use derive something, left-recursive or not, and wherever the FOLLOW loop stopped: the stored tables drive all leftmost derivations if and only if no nonterminal in use is left-recursive, FIRST and FOLLOW do not really conflict, and there is enough in the FOLLOW sets |
| Grammars.Grammar.TablesPredictIffSolved | src/grammar/grammar.c:368-397 | When the FOLLOW sets solve the equations of a grammar without left recursion, that is the absence of a real conflict |
| Grammars.Grammar.TablesPredictIffDisjoint | src/grammar/grammar.c:368-397 | When moreover they are the textbook ones: if and only if FOLLOW is disjoint from what the other rules of a nonterminal with a vanishing rule begin with |
| GrammarParsers.GrammarParser.CreateNonterminal | src/grammar/nonterminal.c:50-68 | A nonterminal whose name is taken is created all the same, but not entered in the grammar; the first one is the entry point |
| GrammarParsers.GrammarParser.ReplaceEntry | src/grammar/grammarparser.c:137-154 | The last entry of the current rule gives way to a reference to the synthetic nonterminal |
| GrammarParsers.GrammarParser.MakeOptional | src/grammar/grammarparser.c:156-182 | `entry ?`: the synthetic nonterminal is built if its name is new, and the entry is replaced |
| GrammarParsers.GrammarParser.ExpandModifier | src/grammar/grammarparser.c:184-233 | `entry +` and `entry *`, with or without a separator: the three synthetic nonterminals are built where their names are new, and the entry is replaced |
| GrammarParsers.GrammarParser.HandleRule | src/grammar/grammarparser.c:421-477 | A token inside a rule: a new rule, the end of the nonterminal, an option block, or one more entry |
| GrammarParsers.GrammarParser.HandleModifier | src/grammar/grammarparser.c:501-511 | A modifier waits for one more token: a comma announces a separator, any other completes the modifier and is then read itself |
| GrammarParsers.GrammarParser.Handle | src/grammar/grammarparser.c:235-526 | Each token in each state does to the objects what `Step` says |
| GrammarParsers.GrammarParser.Parse | src/grammar/grammarparser.c:534-546 | Tokens are handled one after the other until one is in error |
| GrammarParsers.GrammarParser.ParseText | src/grammar/grammarparser.c:578-612 | From the tokens of a text, a new parser stores for each name the rules of who claims it first, a declaration or a modifier, and takes the first declaration as entry point |
| GrammarParsers.TextRead | src/grammar/grammarparser.c:235-526 | The same for the state machine, by induction over declarations, rules, entries and modifiers; a text that ends in a rule ends without error |
| GrammarSpellings.SpelledRead | src/grammar/grammarparser.c:277-477 | However the text is spelled, the same is stored: terminals may stand for themselves instead of being quoted, separators may be names, and option blocks may stand at the start, between nonterminals, in rules and behind entries, any number of them |
| GrammarSpellings.BlockPasses | src/grammar/grammarparser.c:271-361 | An option block, names with values or without, leads back to where it began and leaves everything else as it was |
| GrammarSpellings.BareIsQuoted | src/grammar/grammarparser.c:459-471 | A character, number or back-quoted string is read like a quoted terminal |
| GrammarSpellings.NameIsQuoted | src/grammar/grammarparser.c:513-526 | A name as separator is read as an identifier token |
| GrammarParsers.FailsWithinRule | src/grammar/grammarparser.c:421-526 | Within a rule the parser fails exactly at a second `:=`, at the end of the text, and at a token that is no character or number |
| GrammarParsers.RuleRefused | src/grammar/grammarparser.c:421-526 | The tokens of a rule, up to its end or an option block, are refused if and only if one of them is such |
| GrammarParsers.FailsOutsideRule | src/grammar/grammarparser.c:235-419 | Outside of a rule it fails exactly at a token that begins neither a declaration nor its rules nor an option block, and at the end of the text if that comes at once or a declaration waits for its rules |
| GrammarParsers.ModifyMidway | src/grammar/grammarparser.c:137-233 | Completing a modifier in the middle of a text adds its synthetic nonterminals to what the text claims so far, and puts the reference in the place of the entry |
| GrammarTexts.MetIffConsistent | src/grammar/nonterminal.c:61-63 | The stored grammar has what the text asks for under every name if and only if no name is claimed for two different things |
| GrammarNames.ConsistentIff | src/grammar/grammarparser.c:159-195 | For texts spelled as the scanners deliver them: no name is claimed for two different things if and only if the text is unambiguous, which speaks of its entries and separators only: declarations of the same name agree, optional entries with the same text are the same, and no separator followed by an entry makes up another such pair, an entry with a mark and a separator, or a name that is declared as anything but what the pair stands for |
| GrammarNames.MarkSplits | src/grammar/grammarparser.c:161-195 | Names with a mark tell the text of the entry, the mark and the text of the separator: optional, plus and star names of different entries or separators differ |
| GrammarNames.UnambiguousKeepsLanguage | src/grammar/grammarparser.c:137-233 | So reading an unambiguous text that declares what it mentions keeps its language |
| GrammarNames.OrdinaryIsUnambiguous | src/grammar/grammarparser.c:159-195 | Where names are words and separators are single punctuation characters no names collide, if each nonterminal is declared once and what is modified or separates is the same token if it has the same text |
| GrammarNames.TwoSeparatorsKept | src/grammar/grammarparser.c:192-195 | An instance: with `A+,"x"` and `A+,"y"` in one rule the stored grammar generates what the text says |
| GrammarTexts.ReadingKeepsLanguage | src/grammar/grammarparser.c:137-233 | If so, and no synthetic name is that of a nonterminal mentioned and not declared, reading keeps the language: from each declared nonterminal the stored grammar generates what the text says, modifiers read as repetition and choice |
| GrammarTexts.StoredForward | src/grammar/grammarparser.c:137-233 | A derivation in the grammar as written becomes one in the grammar as stored |
| GrammarTexts.StoredBackward | src/grammar/grammarparser.c:137-233 | And back |
| GrammarTexts.DerivesAsCfg | src/grammar/grammarparser.c:137-233 | The stored rules, which have no modifiers, derive what they derive as a context-free grammar, by the same choices |
| GrammarParsers.ParsedGrammarGenerates | src/grammar/grammarparser.c:578-612 | From the tokens of a text to the analysis: the grammar that is analysed derives from its entry point exactly the token strings that the text describes |
| Ebnf.SyntheticLanguage | src/grammar/grammarparser.c:159-176 | A synthetic nonterminal generates exactly the readings of the modified entry: the entry or nothing; the entry repeated, the separator in between; that or nothing |
| Ebnf.RepeatForward | src/grammar/grammarparser.c:206-224 | Every number of repetitions can be derived from the synthetic nonterminal |
| Ebnf.RepeatBackward | src/grammar/grammarparser.c:206-224 | Every derivation from the synthetic nonterminal repeats the entry some number of times |
| GrammarParsers.CollisionLosesStrings | src/grammar/grammarparser.c:192-195 | With the rules `xA` and `A+ ,"x"` for s, `"yes"` for A and `"no"` for xA, the separator and the entry make up the name xA: the rules declared for it later are lost, and with them the string `no` |
| GrammarBuilders.Build | src/grammar/nonterminal.c:50-68 | The grammar objects for a well-formed grammar, in any order of its nonterminals, ready for the analysis |
| EndToEnd.Read | src/grammar/grammarparser.c:578-612 | The tokens of a text, however it is spelled, are read into a parser and the grammar is analysed, whatever the result: FIRST memoised in traversal order, FOLLOW built until two passes report the same, the result that of the LL(1) check, and tables if and only if it passes. A regular grammar passes only if its rules have disjoint FIRST sets, and if End leads no rule it passes exactly then |
| EndToEnd.TextToTables | src/grammar/grammarparser.c:578-612 | From the text to the tables: when a text that claims no name twice has been read, analysed and accepted, its tables accept exactly the token strings that the text describes, where the nonterminals in use are tame, FIRST and FOLLOW do not really conflict and there is enough in the FOLLOW sets |
| EndToEnd.UnambiguousTextToTables | src/grammar/grammarparser.c:578-612 | The same for a text that is unambiguous and declares what it mentions, without a condition on the names it claims |
| Dicts.BucketFindEntry | src/lib/dict.c:244-270 | The position of the one entry with the key, or that there is none |
| Dicts.BucketPut | src/lib/dict.c:272-286 | The value for the key is replaced, or an entry is appended with its position; the result is the number of entries added |
| Dicts.BucketRemove | src/lib/dict.c:222-236 | The entry goes and the later ones are moved up and renumbered |
| Dicts.Dict.Rehash | src/lib/dict.c:302-347 | Twice as many buckets, every entry in the bucket its hash selects now; the map is the same |
| Dicts.DistributeRepresents | src/lib/dict.c:302-347 | Distributing distinct entries over any number of buckets represents the map of them |
| Dicts.Dict.Put | src/lib/dict.c:613-630 | The map gets the pair; the table grows at most by one doubling, after which 4 * size <= 3 * buckets and the bucket count is still 4 * 2^k |
| Dicts.LoadExceeded | src/lib/dict.c:613-620 | The load factor test over the reals is the integer comparison 4 * size > 3 * buckets |
| Dicts.LoadIsFloat | src/lib/dict.c:613-620 | With up to 2^24 entries the sizes and their quotient are values of the type float, the number of buckets being a power of two: nothing is rounded in that test |
| Dicts.Dict.Get | src/lib/dict.c:644-656 | The map's value for the key, NULL without one |
| Dicts.Dict.Contains | src/lib/dict.c:683-685 | Whether the map has the key |
| Dicts.Dict.Remove | src/lib/dict.c:632-642 | The map loses the key; whether it had it is reported, and the other entries keep their order |
| Dicts.Dict.Pop | src/lib/dict.c:666-685 | The map loses the key and its value is returned |
| Dicts.Dict.Clear | src/lib/dict.c:605-611 | The map is empty, the buckets stay |
| Dicts.AppendRepresents | src/lib/dict.c:272-286 | A new key at the end of its bucket keeps the table a representation: bucket by hash, position numbers, unique keys, size |
| Dicts.RemoveRepresents | src/lib/dict.c:222-236 | So does taking an entry out of its bucket |
| Dicts.RemoveKeepsOrder | src/lib/dict.c:222-236 | Taking an entry out leaves the others in the order in which they are visited |
| Dicts.FlatIsContents | src/lib/dict.c:447-460 | The entries bucket after bucket are those of the map, each once |
| Dicts.DictIterator.Next | src/lib/dict.c:968-981 | Moves to the next entry in bucket order, skipping empty buckets, or stays at the end |
| Dicts.DictIterator.Prev | src/lib/dict.c:983-996 | Moves to the previous entry, or stays at the start |
| Dicts.IterateForward | src/lib/dict.c:968-981 | Stepping from the head yields every entry once, in the order of `dict_reduce`, for every distribution over buckets |
| Dicts.IterateBackward | src/lib/dict.c:983-996 | Stepping back from the tail yields the reverse |
| Dicts.Reduce | src/lib/dict.c:447-460 | `dict_reduce` visits the entries bucket after bucket |
| Mountpoint.LockStep | src/lib/mutex.c:117-145 | Every step keeps the recursive mutex consistent: its depth is the number of levels its owner has, and nobody else has one |
| Mountpoint.MutualExclusion | src/ipc/mountpoint.c:127-153 | Only one thread at a time is between taking the lock and giving it back |
| Mountpoint.ClientStep | src/ipc/mountpoint.c:127-153 | Every step keeps clients idle or held by one thread, idle plus held being the number created |
| Mountpoint.NoneLostStep | src/ipc/mountpoint.c:127-153 | Every step keeps each created client idle or held |
| Mountpoint.WakeStep | src/lib/mutex.c:353-392 | Every step keeps this: while a thread sleeps there are no more idle clients than threads that are woken or about to wake one |
| Mountpoint.InvStep | src/ipc/mountpoint.c:127-153 | Every step of every thread keeps the whole invariant |
| Mountpoint.PoolIsSafe | src/ipc/mountpoint.c:127-153 | In every interleaving: current <= max(0, maxclients), each created client is idle or held by exactly one thread, idle + held = current, and no wakeup is lost |
| Mountpoint.SleepsOnlyWhenFull | src/ipc/mountpoint.c:127-146 | Wherever in a run a thread takes the step that leads to its sleep, as many clients are created as the limit allows and each of them is held |
| Mountpoint.RoomMeansNew | src/ipc/mountpoint.c:131-138 | Where there is room and none is idle, a thread that looks creates a client at its next step, whatever the others do before it, and gets it, a client that nobody had before, unless creating it fails; then none counts as created |
| Mountpoint.RoomForAll | src/ipc/mountpoint.c:131-138 | Whatever the limit is, as many threads can each get a client without a wait |
| Mountpoint.HandedOutInTurn | src/ipc/mountpoint.c:127-153 | Clients are handed out in the order in which they came back: while one waits that was idle when another came back, that one is behind it |
| Mountpoint.SleepKeepsLock | src/ipc/mountpoint.c:131-140 | The loop locks again after a sleep that has given the lock back already: from then on the thread never gives up the mutex, and all others stay out |
| Mountpoint.SleepsNeverFall | src/ipc/mountpoint.c:131-140 | The levels left over from sleeps are never given back along a run |
| Mountpoint.OthersLockedOut | src/ipc/mountpoint.c:127-153 | Once a thread has come back from a sleep, in whatever way the run goes on, other threads only call the pool functions or wake up: none takes or gives back a client, or creates one |
| Mountpoint.SleeperKeepsLock | src/ipc/mountpoint.c:127-153 | A run in which that happens: with room for one client, a thread sleeps until it is returned, takes it, and keeps the mutex |
| Lexing.Lexer.GetChar | src/lexer/lexer.c:462-497 | The next character of the buffer, NUL behind its end |
| Lexing.Lexer.DoPushAs | src/lexer/lexer.c:447-456 | A character is appended to the token (none for NUL) and the scan counted |
| Lexing.Lexer.Rewind | src/lexer/lexer.c:361-376 | Back to the start of the buffer with an empty token |
| Lexing.Lexer.Reset | src/lexer/lexer.c:381-397 | What has been spoken for leaves the buffer and is counted, so the buffer is the uncounted rest of the input |
| Lexing.Lexer.DoSkip | src/lexer/lexer.c:419-426 | A longer span than any before is spoken for, and the lexer rewound |
| Lexing.Lexer.AcceptToken | src/lexer/lexer.c:409-417 | The same for a token: it counts only if it is longer than everything before |
| Lexing.Lexer.DoAccept | src/lexer/lexer.c:399-407 | The same with the pushed text as token |
| Lexing.Lexer.Scan | src/lexer/lexer.c:246-255 | A scanner call takes its offer into account and leaves the buffer as it was |
| Lexing.Lexer.Pass | src/lexer/lexer.c:242-255 | A pass over the scanners folds their offers in priority order |
| Lexing.Lexer.MatchToken | src/lexer/lexer.c:234-307 | One match consumes and delivers what `Match` says |
| Lexing.Lexer.NextToken | src/lexer/lexer.c:325-348 | Matches until a token is there; the spans so far and those of the rest stay the run of the input |
| Lexing.Lexer.Tokenize | src/lexer/lexer.c:316-323 | The delivered tokens are those of the run, and the counter ends at the length of its spans |
| Lexing.LongestOfferWins | src/lexer/lexer.c:409-426 | What is spoken for is the longest offer, the earliest of equally long ones |
| Lexing.WinnersToken | src/lexer/lexer.c:409-426 | The token is the winner's, unless the winner skips: then an earlier, shorter token is kept for the longer span |
| Lexing.SkipKeepsToken | src/lexer/lexer.c:409-426 | One character accepted and two skipped by a later scanner give a span of two characters with a token of one |
| Lexing.MatchIsLongest | src/lexer/lexer.c:234-307 | A span is the longest offered on the first pass, or else on the second, ties going to the earliest scanner, with its token unless it skips past one; one character if nothing is offered; empty only at the end of the input |
| Lexing.SpansAreContiguous | src/lexer/lexer.c:325-397 | The spans of a run are contiguous, each is what matching at its start comes to, all but the last are non-empty, and there are at most one more than characters |
| Lexing.CoversUnlessCut | src/lexer/lexer.c:325-348 | A run delivers the whole input if and only if no span short of the end carries the end-of-file code |
| Lexing.CoversUnlessBareReturn | src/lexer/lexer.c:279-291 | With scanners that do not use that code: if and only if the run never comes to a carriage return that no scanner wants with more input behind it |
| Lexing.ReturnCutsRun | src/lexer/lexer.c:279-291 | A carriage return that no scanner wants ends the run: its code, 13, is that of end of file |
| LexerConfigs.LexerConfig.AddScanner | src/lexer/lexercfg.c:146-178 | The doubly linked list gets the scanner in front of the first one with a lower priority, and stays sorted by priority, then age |
| LexerConfigs.LexerConfig.Set | src/lexer/lexercfg.c:230-245 | A scanner is added once |
| LexerConfigs.LexerConfig.GetScanner | src/lexer/lexercfg.c:221-228 | The scanner with a code, or that there is none |
| LexerConfigs.InsertedOrdered | src/lexer/lexercfg.c:155-160 | The insertion is stable: behind everything of its own priority or higher |
| ConcreteScanners.Configure | src/lexer/lexercfg.c:146-178 | With the keyword scanner added last, the list has keyword, number and quoted-string scanners in that order |
| ConcreteScanners.StandardMatch | src/lexer/lexer.c:234-307 | One match with these three: the longest of their offers, a keyword before a number before a string, and otherwise one character |
| ConcreteScanners.StandardRun | src/lexer/lexer.c:316-397 | A run with these three: contiguous spans, each the match of what is left, and the whole input if and only if it never comes to a carriage return without a keyword for it and with more input behind it |
| ConcreteScanners.Tokenize | src/lexer/lexer.c:316-323 | A lexer so configured delivers the tokens of that run |
| Keywords.KeywordConfig.AddKeyword | src/lexer/keyword.c:190-232 | The array of keywords gets the keyword in its sorted place; a duplicate changes nothing and fails when its code differs |
| Keywords.InsertedSorted | src/lexer/keyword.c:203-228 | Insertion keeps the keywords sorted and distinct, and adds exactly the new one |
| Keywords.KeywordConfig.ShiftUp | src/lexer/keyword.c:221-222 | The keywords behind the slot move up by one, in place |
| Keywords.KeywordScanner.Narrow | src/lexer/keyword.c:302-320 | The loop makes the window exactly the keywords that begin with the scanned text, and finds the keyword equal to it |
| Keywords.NarrowStep | src/lexer/keyword.c:307-320 | What one keyword does to the window, from the string order |
| Keywords.KeywordScanner.MatchChar | src/lexer/keyword.c:283-391 | After every character the window is exact, and the state says how many keywords are left and whether one has been read in full |
| Keywords.KeywordScanner.Scan | src/lexer/keyword.c:402-441 | Scanning goes on as long as some keyword begins with the text, and ends in the state for that |
| Keywords.KeywordScanner.Match | src/lexer/keyword.c:443-465 | A call of the scanner makes the offer `KeywordOffer` |
| Keywords.PassesOnlyAtEnd | src/lexer/keyword.c:457-464 | With a keyword at the start of the input, the scanner passes if and only if the input ends while several keywords go on |
| Keywords.KeywordPassedAtEnd | src/lexer/keyword.c:457-464 | With `a` and `ab` as keywords the text `a` is passed over |
| Keywords.ExactUnlessGaps | src/lexer/keyword.c:358-390 | On texts without the NUL character, every accepted token is the longest keyword the input begins with, with its length consumed, if and only if no string between a keyword and a longer one is left as a place to stop |
| Keywords.GapTakenForMatch | src/lexer/keyword.c:348-364 | With `a` and `abc` as keywords, `ab!` is accepted as `a` with the text `ab` |
| QStrings.QStrScanner.Match | src/lexer/qstring.c:153-220 | A call of the scanner makes the offer `QStrOffer`; what that is, the next rows say |
| QStrings.AcceptsIff | src/lexer/qstring.c:186-213 | Whatever stands between two quotes and behind them, the scanner accepts up to the second quote if and only if that is where the string ends, and then as the text it stands for: behind a backslash `r`, `n` and `t` stand for carriage return, newline and tab, and every other character for itself |
| QStrings.UnterminatedIff | src/lexer/qstring.c:153-220 | The error token is given if and only if the string ends nowhere in the input |
| QStrings.BodyReads | src/lexer/qstring.c:186-213 | The same from any place in the string, character by character |
| QStrings.RoundTrip | src/lexer/qstring.c:153-220 | A text written with carriage return, newline and tab as `\r`, `\n` and `\t`, and the quote and the backslash behind a backslash, is accepted as the original, consuming exactly what was written whatever follows, if and only if no character of it is awkward: with the backslash as quote those written with a backslash, with `r`, `n` or `t` as quote the quote itself; with ordinary quotes none |
| QStrings.AwkwardQuote | src/lexer/qstring.c:186-213 | With `n` as quote, the text `n` is read back as a newline |
| Numbers.NumScanner.Process | src/lexer/number.c:117-246 | One character: the next state, the leading zero chopped or not, the character pushed unless the scanner stops |
| Numbers.NumScanner.Match | src/lexer/number.c:248-266 | A call of the scanner makes the offer `NumOffer` |
| Numbers.NumberIff | src/lexer/number.c:117-266 | What is offered, from the input alone: an integer, a float or a hexadecimal of n characters if and only if the input begins with a numeral of that kind and length that ends there, the error token if and only if it begins with a mantissa and an exponent without digits that ends there, and nothing if and only if it begins with neither |
| Numbers.NumeralOffered | src/lexer/number.c:117-266 | Such a numeral is offered with its own length consumed, and its text without redundant leading zeros as token |
| Numbers.TokenKeepsValue | src/lexer/number.c:166-177 | That token is a numeral of the same kind with the same sign, fraction and exponent or hexadecimal digits, whose whole part has the same value and no redundant leading zero |
| Numbers.ReachedNumeral | src/lexer/number.c:117-246 | As far as the scanner gets it has read a numeral or the beginning of one, and is in the state for it |
| Numbers.NumeralReached | src/lexer/number.c:117-246 | Behind every numeral, or beginning of one, that the input begins with, the scanner gets, in that state and with its stripped text as token |
| Numbers.FloatRead | src/lexer/number.c:194-236 | With the default configuration `-007.50E+3` is read as the float `-7.50E+3` |
| Numbers.HexadecimalRead | src/lexer/number.c:238-243 | `00xFf` is read as the hexadecimal `0xFf` |
| Numbers.MalformedRead | src/lexer/number.c:215-236 | `2e+` is malformed |
| Numbers.PointNeedsDigit | src/lexer/number.c:155-164 | An integer other than zero with a point behind it and no digit or exponent is not accepted at all; a zero with a point is a float |
| LinkedLists.List.Append | src/lib/list.c:175-187 | The list gets a node at its end, both link directions and the size kept |
| LinkedLists.List.Unshift | src/lib/list.c:189-200 | The list gets a node at its start |
| LinkedLists.List.Shift | src/lib/list.c:340-356 | The first node goes and its data is returned; nothing happens to an empty list |
| LinkedLists.List.Pop | src/lib/list.c:358-374 | The last node goes and its data is returned |
| LinkedLists.List.AppendFragment | src/lib/list.c:74-102 | The fragment comes behind the data nodes in order, every node changes owner, and the size grows by their number |
| LinkedLists.List.Split | src/lib/list.c:461-477 | In front of a data node: the prefix stays and the suffix is the new list, with sizes, owners and both link directions; on a sentinel nothing is split off |
| LinkedLists.List.Join | src/lib/list.c:221-234 | The target gets the nodes of the source behind its own |
| LinkedLists.List.SplitAndJoin | src/lib/list.c:461-477 | Split and then join restores the list, node by node, from every position |
| LinkedLists.ListIterator.Next | src/lib/list.c:539-546 | The next data node, or the iterator stays |
| LinkedLists.ListIterator.Insert | src/lib/list.c:561-585 | A node behind the current one, anywhere but behind the tail sentinel |
| LinkedLists.ListIterator.Remove | src/lib/list.c:587-599 | The current data node goes and the iterator moves on; sentinels stay |
| LinkedLists.LinksGlue | src/lib/list.c:90-96 | Two linked chains whose ends point at each other are one linked chain |
| Hierarchies.Hierarchy.Insert | src/lib/hierarchy.c:188-205 | The map from names to data gets the pair; missing nodes on the way come without data |
| Hierarchies.InsertedIs | src/lib/hierarchy.c:188-205 | Inserting changes what is at the name and nothing else there was |
| Hierarchies.Hierarchy.Remove | src/lib/hierarchy.c:207-230 | The name and everything below it goes, nothing else changes; the root and unknown names are refused |
| Hierarchies.RemoveUndoesInsert | src/lib/hierarchy.c:207-230 | Removing undoes inserting at a new name, but for the nodes on the way to it |
| Hierarchies.Hierarchy.Find | src/lib/hierarchy.c:280-295 | The node at the name, found if and only if `match` would match the whole name |
| Hierarchies.Hierarchy.Match | src/lib/hierarchy.c:297-319 | The node at the longest part of the name that leads to one, and its length |
| Hierarchies.DepthIs | src/lib/hierarchy.c:297-319 | That length is the one prefix that is there with the next one missing |
| Hierarchies.Node.GetByLabel | src/lib/hierarchy.c:232-246 | A branch with the label, or that there is none |
| Hierarchies.AppendKeepsTree | src/lib/hierarchy.c:180-186 | A new branch under a label that is not there keeps sibling labels distinct and every node at one name |
| Hierarchies.RemoveKeepsTree | src/lib/hierarchy.c:214-225 | So does taking a branch out |

## Left out

- Reference counts, `free` functions, unions, function tables and debug output: representation only.
- Sets are values: that `set_union` of a set with itself iterates over the table it adds to is not modelled.
- The grammar's structure is fixed during the analysis, and a rule is told its nonterminal by its caller instead of by its owner field.
- FollowStop.StopIsLeastSolution: three passes or direct ways are sufficient conditions; `StopIff` has the exact one, on the sets the loop leaves.
- Grammars.Grammar.TameFirstsExact: for nonterminals that are not tame the memoised sets are those of `NonterminalMemo`, which can be exact too (`SwappedIsExact`); no
  simpler condition is given. In a grammar accepted with right tables there are none in use.
- Grammars.Grammar.TablesPredictIff: a nonterminal in use that derives nothing at all is excluded; what its table holds does not matter for any derivation.
- Grammars.Grammar.NonterminalCheckLL1: the branch for End asks for a rule FOLLOW set that is never built; comparing with it has no effect here, as in the code.
- GrammarNames.ConsistentIff: texts in which a name holds a mark, or a modified terminal has a mark right behind a single quote, are excluded; `MetIffConsistent` covers them.
- GrammarTexts.ReadingKeepsLanguage: consistent claims are sufficient. They are exactly what it takes for the stored grammar to be the one that was asked for, but
  an inconsistent text can by chance generate the same strings, and whether two context-free grammars do is undecidable.
- GrammarParsers.GrammarParser.Handle: quoted strings arrive with the terminal they stand for; giving out keyword codes and refusing empty or long strings
  happens before. The attributes that option blocks set are not stored. Syntax errors end the parse without a message.
- The actions and attributes of grammars, and the parser that runs the tables.
- Dicts.LoadExceeded: the load factor is a real number; beyond the 2^24 entries of `LoadIsFloat` the rounding of sizes is not modelled.
- Dict buckets are a sequence of sequences: the two-level array of buckets and the capacity of a bucket are not modelled. Equal keys
  have equal hashes because keys are compared as values. `dict_copy` and `dict_put_all` are left out.
- Mountpoint.PoolIsSafe: safety only. That a waiting thread gets a client is not claimed; after a sleep it is not even so that the mutex becomes free again.
  Waiting on a recursive mutex is taken to give back one level of it.
- The lexer's line, column and position fields, reconfiguring a scanner between tokens, and readers that fill the buffer in pieces: the buffer is the whole rest
  of the input. Characters are positive; the NUL character and bytes that a signed `char` makes negative, which the driver takes for the end of the input, are excluded.
- Lexing.Lexer.Scan: one call of a scanner makes at most one offer, which all scanners of the repository do; an offer depends on the rest of the input only.
- Comment, identifier, position and whitespace scanners, and changing a scanner's priority after it has been added.
- LexerConfigs.LexerConfig.AddScanner: the priority is the one the scanner type is created with.
- Keywords.KeywordScanner.Match: the scanned text is unbounded; the scratch buffer sized for the longest keyword of the time of the first call is not modelled.
- Numbers.TokenKeepsValue: the value is that of the whole part; what number a fraction or an exponent stands for is not defined, as the scanner keeps their characters.
- The list's own iterator is a separate object, and the node it is on is passed to `Split`; an iterator left on a node that has gone to another list is not followed.
- `list_free` of the joined list, and sorting, reducing and printing lists.
- `hierarchy_name`, whose index starts one too high, positions, depth and the methods callable from scripts.
- `array_split` and the growable array, string buffers, files, sockets, the message protocol, the virtual machine and script loading.
