/** Other ways to write the same grammar: terminals that stand for themselves instead of quoted ones, names for
    separators, and option blocks, which the parser reads over. */
module GrammarSpellings {
  import opened Wrappers
  import opened TokenCodes
  import opened Ebnf
  import opened GrammarTexts
  import opened GrammarParsers

  const MARKS := {PIPE, SEMICOLON, QUESTION_MARK, PLUS, ASTERISK, COMMA, OPEN_BRACKET}

  /** A character, number or back-quoted string that can be written without double or single quotes. */
  predicate CanBeBare(t: Lexeme) {
    t.Quoted? && IsTerminal(t.terminal) && t.terminal.code !in MARKS
  }

  /** A separator that is an identifier is written as its name. */
  predicate CanBeName(t: Lexeme) {
    t.Quoted? && t.terminal.code == IDENTIFIER
  }

  predicate IsAssignment(t: Lexeme) { Is(t, COLON) || Is(t, EQUALS) }

  /** Names of options, each with a value or without. */
  predicate Options(body: seq<Lexeme>) {
    || body == []
    || (body[0].Name? && Options(body[1..]))
    || (body[0].Name? && |body| >= 3 && IsAssignment(body[1]) && IsOptionValue(body[2]) && Options(body[3..]))
  }

  function Opening(s: State): Lexeme { Mark(if s == Start then PERCENT else OPEN_BRACKET) }

  function Closing(s: State): Lexeme { Mark(if s == Start then PERCENT else CLOSE_BRACKET) }

  /** At the start a block stands between percent signs, elsewhere between brackets. */
  function Block(s: State, body: seq<Lexeme>): seq<Lexeme> {
    [Opening(s)] + body + [Closing(s)]
  }

  datatype Change = Bare(at: nat) | Named(at: nat) | Insert(at: nat, body: seq<Lexeme>)

  /** The change can be made where the parser is by then. */
  predicate Allowed(ts: seq<Lexeme>, c: Change) {
    match c
    case Bare(at) =>
      at < |ts| && CanBeBare(ts[at]) && Run(INITIAL, ts[..at]).state in {InRule, InEntry, InModifier, InSeparator}
    case Named(at) => at < |ts| && CanBeName(ts[at]) && Run(INITIAL, ts[..at]).state == InSeparator
    case Insert(at, body) =>
      at <= |ts| && Options(body) && Run(INITIAL, ts[..at]).state in {Start, InNonterminal, InRule, InEntry}
  }

  function Changed(ts: seq<Lexeme>, c: Change): seq<Lexeme>
    requires Allowed(ts, c)
  {
    match c
    case Bare(at) => ts[..at] + [Other(ts[at].terminal)] + ts[at + 1..]
    case Named(at) => ts[..at] + [Name(ts[at].terminal.text)] + ts[at + 1..]
    case Insert(at, body) => ts[..at] + Block(Run(INITIAL, ts[..at]).state, body) + ts[at..]
  }

  predicate AllAllowed(ts: seq<Lexeme>, cs: seq<Change>)
    decreases |cs|
  {
    cs == [] || (Allowed(ts, cs[0]) && AllAllowed(Changed(ts, cs[0]), cs[1..]))
  }

  /** The tokens after any number of changes. */
  function Spelled(ts: seq<Lexeme>, cs: seq<Change>): seq<Lexeme>
    requires AllAllowed(ts, cs)
    decreases |cs|
  {
    if cs == [] then ts else Spelled(Changed(ts, cs[0]), cs[1..])
  }

  // ---------- what the parser remembers of a block ----------

  predicate InBlock(s: State) { s in {InOptions, InOptionName, InOptionValue} }

  /** The same but for where the last option block led back to. */
  ghost predicate Alike(p: Progress, q: Progress) {
    p == q || (p.(back := Start) == q.(back := Start) && !InBlock(p.state))
  }

  lemma ModifyAlike(p: Progress, q: Progress, item: Item)
    requires p.HasEntry() && q.HasEntry() && !item.Plain?
    requires p.(back := Start, state := Start) == q.(back := Start, state := Start)
    ensures Modify(p, item).(back := Start) == Modify(q, item).(back := Start)
  {
    hide AddAll;
  }

  lemma RuleStepAlike(p: Progress, q: Progress, t: Lexeme)
    requires p.Sane() && q.Sane() && p.state in {InRule, InEntry} && p.(back := Start) == q.(back := Start)
    ensures Alike(RuleStep(p, t), RuleStep(q, t))
  {
    hide WithRule;
  }

  lemma StepAlike(p: Progress, q: Progress, t: Lexeme)
    requires p.Sane() && q.Sane() && Alike(p, q)
    ensures Alike(Step(p, t), Step(q, t))
  {
    hide Modify, RuleStep, AddAll;
    if p != q {
      match p.state
      case InRule => RuleStepAlike(p, q, t);
      case InEntry =>
        ModifyAlike(p, q, Optional(p.LastEntry()));
        RuleStepAlike(p, q, t);
      case InModifier =>
        var item := Repeated(p.LastEntry(), p.star, None);
        ModifyAlike(p, q, item);
        RuleStepAlike(Modify(p, item), Modify(q, item), t);
      case InSeparator => if Separator(t).Some? { ModifyAlike(p, q, Repeated(p.LastEntry(), p.star, Separator(t))); }
      case _ =>
    }
  }

  lemma {:induction false} RunAlike(p: Progress, q: Progress, ts: seq<Lexeme>)
    requires p.Sane() && q.Sane() && Alike(p, q)
    ensures Alike(Run(p, ts), Run(q, ts))
  {
    hide Step, Alike;
    if ts != [] {
      RunAlike(p, q, ts[..|ts| - 1]);
      StepAlike(Run(p, ts[..|ts| - 1]), Run(q, ts[..|ts| - 1]), ts[|ts| - 1]);
    }
  }

  /** A terminal that stands for itself is read like a quoted one. */
  lemma BareIsQuoted(p: Progress, t: Lexeme)
    requires p.Sane() && CanBeBare(t) && p.state in {InRule, InEntry, InModifier, InSeparator}
    ensures Step(p, Other(t.terminal)) == Step(p, t)
  {
    hide Modify, AddEntry;
  }

  /** The name of an identifier stands for it as a separator. */
  lemma NameIsQuoted(p: Progress, t: Lexeme)
    requires p.Sane() && CanBeName(t) && p.state == InSeparator
    ensures Step(p, Name(t.terminal.text)) == Step(p, t) && Step(p, t).state == InRule
    ensures Step(p, t) == Modify(p, Repeated(p.LastEntry(), p.star, Some(Token(IDENTIFIER, t.terminal.text))))
  {
    hide Modify;
  }

  /** The names and values of options leave everything as it is. */
  lemma {:induction false} OptionsPass(p: Progress, body: seq<Lexeme>)
    requires p.Sane() && Options(body) && p.state in {InOptions, InOptionName}
    ensures var q := Run(p, body); q.state in {InOptions, InOptionName} && q == p.(state := q.state)
    decreases |body|
  {
    if body != [] {
      var name := body[0];
      var named := p.(state := InOptionName);
      RunOne(p, name);
      assert Step(p, name) == named;
      if Options(body[1..]) {
        OptionsPass(named, body[1..]);
        RunAppend(p, [name], body[1..]);
        assert [name] + body[1..] == body;
      } else {
        var valued := named.(state := InOptions);
        RunOne(named, body[1]);
        RunOne(named.(state := InOptionValue), body[2]);
        OptionsPass(valued, body[3..]);
        RunAppend(p, [name], [body[1]]);
        RunAppend(p, [name] + [body[1]], [body[2]]);
        RunAppend(p, [name] + [body[1]] + [body[2]], body[3..]);
        assert [name] + [body[1]] + [body[2]] + body[3..] == body;
      }
    }
  }

  lemma Opens(p: Progress)
    requires p.Sane() && p.state in {Start, InNonterminal, InRule, InEntry}
    ensures Step(p, Opening(p.state)) == p.(back := p.state, state := InOptions)
  {
    hide Modify, AddEntry;
  }

  lemma Closes(p: Progress, q: Progress)
    requires p.Sane() && q.Sane() && p.state in {Start, InNonterminal, InRule, InEntry}
    requires q.state in {InOptions, InOptionName} && q == p.(back := p.state, state := q.state)
    ensures Alike(Step(q, Closing(p.state)), p)
  {
    hide Modify, RuleStep;
  }

  /** A whole block leads back to where it began. */
  lemma BlockPasses(p: Progress, body: seq<Lexeme>)
    requires p.Sane() && Options(body) && p.state in {Start, InNonterminal, InRule, InEntry}
    ensures Alike(Run(p, Block(p.state, body)), p)
  {
    hide Step, Alike, Options;
    Opens(p);
    var open, inside := Opening(p.state), Step(p, Opening(p.state));
    RunOne(p, open);
    OptionsPass(inside, body);
    var q := Run(inside, body);
    Closes(p, q);
    RunOne(q, Closing(p.state));
    RunAppend(p, [open], body);
    RunAppend(p, [open] + body, [Closing(p.state)]);
  }

  /** Another token in the place of one that is read the same way. */
  lemma ReplacePasses(ts: seq<Lexeme>, at: nat, u: Lexeme)
    requires at < |ts| && Step(Run(INITIAL, ts[..at]), u) == Step(Run(INITIAL, ts[..at]), ts[at])
    ensures Alike(Run(INITIAL, ts[..at] + [u] + ts[at + 1..]), Run(INITIAL, ts))
  {
    hide Step, Alike, Run;
    var a, t, b := ts[..at], ts[at], ts[at + 1..];
    var p := Run(INITIAL, a);
    RunOne(p, t);
    RunOne(p, u);
    RunAppend(INITIAL, a, [t]);
    RunAppend(INITIAL, a + [t], b);
    RunAppend(INITIAL, a, [u]);
    RunAppend(INITIAL, a + [u], b);
    assert a + [t] + b == ts;
    SameIsAlike(Run(INITIAL, ts));
  }

  lemma ChangePasses(ts: seq<Lexeme>, c: Change)
    requires Allowed(ts, c)
    ensures Alike(Run(INITIAL, Changed(ts, c)), Run(INITIAL, ts))
  {
    hide Step, Alike;
    match c
    case Bare(at) =>
      BareIsQuoted(Run(INITIAL, ts[..at]), ts[at]);
      ReplacePasses(ts, at, Other(ts[at].terminal));
    case Named(at) =>
      NameIsQuoted(Run(INITIAL, ts[..at]), ts[at]);
      ReplacePasses(ts, at, Name(ts[at].terminal.text));
    case Insert(at, body) =>
      var a, b := ts[..at], ts[at..];
      var p := Run(INITIAL, a);
      var block := Block(p.state, body);
      BlockPasses(p, body);
      RunAppend(INITIAL, a, block);
      RunAppend(INITIAL, a + block, b);
      RunAppend(INITIAL, a, b);
      assert a + b == ts;
      RunAlike(Run(p, block), p, b);
  }

  lemma SameIsAlike(p: Progress)
    ensures Alike(p, p)
  {
  }

  lemma AlikeChain(p: Progress, q: Progress, r: Progress)
    requires Alike(p, q) && Alike(q, r)
    ensures Alike(p, r)
  {
  }

  lemma {:induction false} SpelledAlike(ts: seq<Lexeme>, cs: seq<Change>)
    requires AllAllowed(ts, cs)
    ensures Alike(Run(INITIAL, Spelled(ts, cs)), Run(INITIAL, ts))
    decreases |cs|
  {
    hide Alike, Allowed;
    if cs == [] {
      SameIsAlike(Run(INITIAL, ts));
    } else {
      var next := Changed(ts, cs[0]);
      ChangePasses(ts, cs[0]);
      SpelledAlike(next, cs[1..]);
      AlikeChain(Run(INITIAL, Spelled(ts, cs)), Run(INITIAL, next), Run(INITIAL, ts));
    }
  }

  /** However a text is spelled, the parser stores what its claims come to. */
  lemma SpelledRead(text: GrammarText, cs: seq<Change>)
    requires AllAllowed(TextTokens(text), cs)
    ensures var p := Run(INITIAL, Spelled(TextTokens(text), cs));
            && p.stored == Stored(text) && p.start == (if text == [] then None else Some(text[0].name))
            && (text != [] && text[|text| - 1].rules != [] ==> p.state == InNonterminal && p.current.None?)
  {
    hide Step, Stored, TextTokens, AllAllowed, Spelled;
    TextRead(text);
    TextEnds(text);
    SpelledAlike(TextTokens(text), cs);
  }

  lemma TextEnds(text: GrammarText)
    ensures text != [] && text[|text| - 1].rules != [] ==>
              Run(INITIAL, TextTokens(text)).state == InNonterminal && Run(INITIAL, TextTokens(text)).current.None?
  {
    hide Stored, TextTokens;
    TextRead(text);
    if text != [] && text[|text| - 1].rules != [] { EndMeans(Run(INITIAL, TextTokens(text))); }
  }

  lemma EndMeans(p: Progress)
    requires p.Sane() && p.state in {Start, InNonterminal} && Step(p, EndOfText) == p
    ensures p.state == InNonterminal && p.current.None?
  {
  }
}
