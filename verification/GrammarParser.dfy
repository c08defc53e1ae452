/** The grammar parser: a state machine over the tokens of a grammar's text, which builds nonterminals, rules and
    entries as it goes, and rewrites a modified entry when the modifier is complete. */
module GrammarParsers {
  import opened Wrappers
  import opened TokenCodes
  import opened Ebnf
  import opened GrammarTexts
  import T = GrammarTexts
  import ContextFree

  const PIPE := '|' as int
  const SEMICOLON := ';' as int
  const QUESTION_MARK := '?' as int
  const PLUS := '+' as int
  const ASTERISK := '*' as int
  const COMMA := ',' as int
  const PERCENT := '%' as int
  const OPEN_BRACKET := '[' as int
  const CLOSE_BRACKET := ']' as int
  const COLON := ':' as int
  const EQUALS := '=' as int
  const IDENTIFIER := 'i' as int

  /** What the scanners deliver. `Quoted` is a quoted string with the terminal that it stands for. */
  datatype Lexeme =
    | Name(name: string)
    | Define
    | Quoted(terminal: Token)
    | Other(token: Token)
    | EndOfText

  datatype State =
    | Start | InNonterminal | InRule | InEntry | InModifier | InSeparator
    | InOptions | InOptionName | InOptionValue | Failed

  /** The nonterminal being read. It is not linked if its name was taken: then nobody will find its rules. */
  datatype Current = Current(name: string, linked: bool, forms: seq<Form>)

  datatype Progress = Progress(stored: Rules, start: Option<string>, current: Option<Current>,
                               state: State, back: State, star: bool)
  {
    predicate HasRule() { current.Some? && current.value.forms != [] }

    function Forms(): seq<Form>
      requires HasRule()
    {
      current.value.forms
    }

    function Rule(): Form
      requires HasRule()
    {
      Forms()[|Forms()| - 1]
    }

    /** The rule being read ends in an entry without a modifier. */
    predicate HasEntry() { HasRule() && Rule() != [] && Rule()[|Rule()| - 1].Plain? }

    function LastEntry(): Entry
      requires HasEntry()
    {
      Rule()[|Rule()| - 1].entry
    }

    predicate Fits(s: State) {
      match s
      case InRule => HasRule()
      case InEntry | InModifier | InSeparator => HasEntry()
      case _ => true
    }

    predicate Sane() {
      && Fits(state) && (state in {InOptions, InOptionName, InOptionValue} ==> Fits(back))
      && (current.Some? && current.value.linked ==>
            current.value.name in stored && stored[current.value.name] == current.value.forms)
    }
  }

  const INITIAL := Progress(map[], None, None, Start, Start, false)

  // ---------- building ----------

  /** A nonterminal is created; only a new name is entered into the grammar. */
  function Declare(p: Progress, name: string): (q: Progress)
    ensures q.Sane()
  {
    p.(stored := AddIfMissing(p.stored, (name, [])),
       start := if p.start.None? then Some(name) else p.start,
       current := Some(Current(name, name !in p.stored, [])),
       state := InNonterminal)
  }

  function PutForms(p: Progress, forms: seq<Form>, state: State): (q: Progress)
    requires p.current.Some?
    ensures q.state == state && q.back == p.back && q.current.Some? && q.current.value.forms == forms
    ensures q.current.value.linked ==> q.current.value.name in q.stored && q.stored[q.current.value.name] == forms
  {
    var c := p.current.value;
    p.(stored := if c.linked then p.stored[c.name := forms] else p.stored,
       current := Some(c.(forms := forms)), state := state)
  }

  function OpenRule(p: Progress): (q: Progress)
    requires p.current.Some?
    ensures q.Sane() && q.state == InRule
  {
    PutForms(p, p.current.value.forms + [[]], InRule)
  }

  function WithRule(forms: seq<Form>, rule: Form): (r: seq<Form>)
    requires forms != []
    ensures |r| == |forms| && r[|r| - 1] == rule
  {
    forms[..|forms| - 1] + [rule]
  }

  function AddEntry(p: Progress, e: Entry): (q: Progress)
    requires p.HasRule()
    ensures q.Sane() && q.state == InEntry
  {
    PutForms(p, WithRule(p.Forms(), p.Rule() + [Plain(e)]), InEntry)
  }

  /** The synthetic nonterminals for an item are built if their names are new, and a reference takes the place
      of the entry read last. */
  function Modify(p: Progress, item: Item): (q: Progress)
    requires p.HasEntry() && !item.Plain?
    ensures q.Sane() && q.state == InRule
  {
    var built := p.(stored := AddAll(p.stored, ItemClaims(item)));
    PutForms(built, WithRule(p.Forms(), p.Rule()[..|p.Rule()| - 1] + [PlainItem(item)]), InRule)
  }

  function Repeated(e: Entry, star: bool, sep: Option<Token>): Item {
    if star then Star(e, sep) else Plus(e, sep)
  }

  // ---------- one token ----------

  /** Characters, numbers and back-quoted strings can stand for themselves in a rule. */
  predicate IsTerminal(t: Token) { '!' as int <= t.code <= '~' as int }

  predicate Is(t: Lexeme, code: int) { t.Other? && t.token.code == code }

  predicate IsOptionValue(t: Lexeme) {
    t.Name? || t.Quoted? || (t.Other? && t.token.code in {'d' as int, 'x' as int, 'f' as int, '`' as int})
  }

  /** The separator that a token stands for. */
  function Separator(t: Lexeme): Option<Token> {
    match t
    case Name(name) => Some(Token(IDENTIFIER, name))
    case Quoted(terminal) => Some(terminal)
    case Other(token) => if IsTerminal(token) then Some(token) else None
    case _ => None
  }

  function OptionsStep(p: Progress, t: Lexeme): (q: Progress)
    requires p.Sane() && p.state in {InOptions, InOptionName}
    ensures q.Sane()
  {
    if t.Name? then p.(state := InOptionName)
    else if Is(t, if p.back == Start then PERCENT else CLOSE_BRACKET) then p.(state := p.back)
    else p.(state := Failed)
  }

  function OutsideStep(p: Progress, t: Lexeme): (q: Progress)
    requires p.Sane() && p.state in {Start, InNonterminal}
    ensures q.Sane()
  {
    if t.Name? then Declare(p, t.name)
    else if Is(t, PERCENT) && p.state == Start then p.(back := Start, state := InOptions)
    else if Is(t, OPEN_BRACKET) then p.(back := InNonterminal, state := InOptions)
    else if t.Define? && p.state == InNonterminal && p.current.Some? then OpenRule(p)
    else if t.EndOfText? && p.state == InNonterminal && p.current.None? then p
    else p.(state := Failed)
  }

  function RuleStep(p: Progress, t: Lexeme): (q: Progress)
    requires p.Sane() && p.state in {InRule, InEntry}
    ensures q.Sane()
  {
    match t
    case Name(name) => AddEntry(p, Nonterminal(name))
    case Quoted(terminal) => AddEntry(p, Terminal(terminal))
    case Other(token) =>
      if token.code == PIPE then OpenRule(p)
      else if token.code == SEMICOLON then p.(current := None, state := InNonterminal)
      else if token.code == OPEN_BRACKET then p.(back := p.state, state := InOptions)
      else if IsTerminal(token) then AddEntry(p, Terminal(token))
      else p.(state := Failed)
    case _ => p.(state := Failed)
  }

  /** What the parser makes of a token. */
  function Step(p: Progress, t: Lexeme): (q: Progress)
    requires p.Sane()
    ensures q.Sane()
  {
    match p.state
    case Start | InNonterminal => OutsideStep(p, t)
    case InRule => RuleStep(p, t)
    case InEntry =>
      if Is(t, QUESTION_MARK) then Modify(p, Optional(p.LastEntry()))
      else if Is(t, PLUS) || Is(t, ASTERISK) then p.(state := InModifier, star := Is(t, ASTERISK))
      else RuleStep(p, t)
    case InModifier =>
      if Is(t, COMMA) then p.(state := InSeparator)
      else RuleStep(Modify(p, Repeated(p.LastEntry(), p.star, None)), t)
    case InSeparator =>
      if Separator(t).Some? then Modify(p, Repeated(p.LastEntry(), p.star, Separator(t))) else p.(state := Failed)
    case InOptions => OptionsStep(p, t)
    case InOptionName =>
      if Is(t, COLON) || Is(t, EQUALS) then p.(state := InOptionValue) else OptionsStep(p, t)
    case InOptionValue => p.(state := if IsOptionValue(t) then InOptions else Failed)
    case Failed => p
  }

  function Run(p: Progress, ts: seq<Lexeme>): (q: Progress)
    requires p.Sane()
    ensures q.Sane()
  {
    if ts == [] then p else Step(Run(p, ts[..|ts| - 1]), ts[|ts| - 1])
  }

  // ---------- a text as tokens ----------

  function Mark(code: int): Lexeme { Other(Token(code, "")) }

  function EntryToken(e: Entry): Lexeme {
    match e
    case Terminal(token) => Quoted(token)
    case Nonterminal(name) => Name(name)
  }

  function SepTokens(sep: Option<Token>): seq<Lexeme> {
    if sep.Some? then [Mark(COMMA), Quoted(sep.value)] else []
  }

  function ItemTokens(item: Item): seq<Lexeme> {
    match item
    case Plain(e) => [EntryToken(e)]
    case Optional(e) => [EntryToken(e), Mark(QUESTION_MARK)]
    case Plus(e, sep) => [EntryToken(e), Mark(PLUS)] + SepTokens(sep)
    case Star(e, sep) => [EntryToken(e), Mark(ASTERISK)] + SepTokens(sep)
  }

  function FormTokens(form: Form): seq<Lexeme> {
    if form == [] then [] else FormTokens(form[..|form| - 1]) + ItemTokens(form[|form| - 1])
  }

  function RuleTokens(forms: seq<Form>): seq<Lexeme> {
    if forms == [] then []
    else RuleTokens(forms[..|forms| - 1]) + [if |forms| == 1 then Define else Mark(PIPE)]
            + FormTokens(forms[|forms| - 1])
  }

  function DeclarationTokens(d: Declaration): seq<Lexeme> {
    [Name(d.name)] + RuleTokens(d.rules) + if d.rules == [] then [] else [Mark(SEMICOLON)]
  }

  function TextTokens(text: GrammarText): seq<Lexeme> {
    if text == [] then [] else TextTokens(text[..|text| - 1]) + DeclarationTokens(text[|text| - 1])
  }

  lemma {:induction false} RunAppend(p: Progress, a: seq<Lexeme>, b: seq<Lexeme>)
    requires p.Sane()
    ensures Run(p, a + b) == Run(Run(p, a), b)
  {
    hide Step;
    if b == [] {
      assert a + b == a;
    } else {
      assert (a + b)[..|a + b| - 1] == a + b[..|b| - 1];
      RunAppend(p, a, b[..|b| - 1]);
    }
  }

  lemma RunOne(p: Progress, t: Lexeme)
    requires p.Sane()
    ensures Run(p, [t]) == Step(p, t)
  {
    hide Step;
    var none: seq<Lexeme> := [t][..0];
    assert none == [] && Run(p, none) == p;
  }

  // ---------- what is not a grammar ----------

  /** A token that an entry, a modifier, a separator or the end of a rule can be written with. */
  predicate CanStandInRule(t: Lexeme) {
    t.Name? || t.Quoted? || (t.Other? && IsTerminal(t.token))
  }

  predicate WithinRule(s: State) { s in {InRule, InEntry, InModifier, InSeparator} }

  /** Within a rule the parser fails exactly at a second `:=`, at the end of the text, and at a token that is no
      character or number. */
  lemma FailsWithinRule(p: Progress, t: Lexeme)
    requires p.Sane() && WithinRule(p.state)
    ensures Step(p, t).state == Failed <==> t.Define? || t.EndOfText? || (t.Other? && !IsTerminal(t.token))
    ensures t.Define? || t.EndOfText? || (t.Other? && !IsTerminal(t.token)) <==> !CanStandInRule(t)
    ensures Step(p, t).state != Failed && !Is(t, SEMICOLON) && !Is(t, OPEN_BRACKET) ==> WithinRule(Step(p, t).state)
  {
    hide Modify, AddEntry, OpenRule;
  }

  /** Outside of one, it fails at a token that can neither begin a declaration nor its rules nor an option block, and at
      the end of the text, unless no declaration waits for its rules. */
  lemma FailsOutsideRule(p: Progress, t: Lexeme)
    requires p.Sane() && p.state in {Start, InNonterminal}
    ensures Step(p, t).state == Failed
            <==> || t.Quoted?
                 || (t.Define? && (p.state == Start || p.current.None?))
                 || (t.EndOfText? && (p.state == Start || p.current.Some?))
                 || (t.Other? && !Is(t, OPEN_BRACKET) && !(p.state == Start && Is(t, PERCENT)))
  {
    hide OpenRule, AddIfMissing;
  }

  /** The tokens of a rule, up to its end or an option block, are refused if and only if one of them cannot stand in a
      rule. */
  lemma {:induction false} RuleRefused(p: Progress, ts: seq<Lexeme>)
    requires p.Sane() && WithinRule(p.state)
    requires forall t :: t in ts ==> !Is(t, SEMICOLON) && !Is(t, OPEN_BRACKET)
    ensures Run(p, ts).state == Failed <==> exists t :: t in ts && !CanStandInRule(t)
    ensures Run(p, ts).state == Failed || WithinRule(Run(p, ts).state)
  {
    hide Step, CanStandInRule;
    if ts != [] {
      var before, last := ts[..|ts| - 1], ts[|ts| - 1];
      assert ts == before + [last] && forall t :: t in ts <==> t in before || t == last;
      RuleRefused(p, before);
      if Run(p, before).state != Failed {
        FailsWithinRule(Run(p, before), last);
      } else {
        StaysFailed(Run(p, before), last);
      }
    }
  }

  lemma StaysFailed(p: Progress, t: Lexeme)
    requires p.Sane() && p.state == Failed
    ensures Step(p, t) == p
  {
  }

  // ---------- reading a text stores it ----------

  lemma {:induction false} AddAllAppend(r: Rules, a: seq<Claim>, b: seq<Claim>)
    ensures AddAll(r, a + b) == AddAll(AddAll(r, a), b)
  {
    if b == [] {
      assert a + b == a;
    } else {
      assert (a + b)[..|a + b| - 1] == a + b[..|b| - 1];
      AddAllAppend(r, a, b[..|b| - 1]);
    }
  }

  /** Changing what a claim asks for changes the rules of its name, unless the name was taken before. */
  lemma {:induction false} ChangeClaim(r: Rules, n: string, f: seq<Form>, g: seq<Form>, claims: seq<Claim>)
    requires n !in r
    ensures AddAll(r[n := g], claims) == AddAll(r[n := f], claims)[n := g]
    ensures n in AddAll(r[n := f], claims) && AddAll(r[n := f], claims)[n] == f
  {
    if claims != [] { ChangeClaim(r, n, f, g, claims[..|claims| - 1]); }
  }

  /** A modifier that still waits for a separator is taken as complete. */
  function Settle(p: Progress): Progress
    requires p.Sane()
  {
    if p.state == InModifier then Modify(p, Repeated(p.LastEntry(), p.star, None)) else p
  }

  /** What the claims come to while the rules of `n` are read: so far they are `forms`. */
  function Partial(r: Rules, n: string, forms: seq<Form>, claims: seq<Claim>): Rules {
    AddAll(AddIfMissing(r, (n, forms)), claims)
  }

  /** In the middle of the rules of `n`, which was met with the grammar `r`. */
  ghost predicate Midway(p: Progress, r: Rules, n: string, forms: seq<Form>, claims: seq<Claim>) {
    && p.Sane() && p.state in {InRule, InEntry, InModifier}
    && var q := Settle(p);
       q.stored == Partial(r, n, forms, claims) && q.current == Some(Current(n, n !in r, forms))
  }

  lemma PutMidway(p: Progress, r: Rules, n: string, forms: seq<Form>, claims: seq<Claim>, next: seq<Form>, s: State)
    requires p.stored == Partial(r, n, forms, claims) && p.current == Some(Current(n, n !in r, forms))
    ensures var q := PutForms(p, next, s);
            q.stored == Partial(r, n, next, claims) && q.current == Some(Current(n, n !in r, next))
  {
    if n !in r { ChangeClaim(r, n, forms, next, claims); }
  }

  /** A token that is no modifier is read as if the one before it were settled. */
  lemma StepSettles(p: Progress, t: Lexeme)
    requires p.Sane() && p.state in {InRule, InEntry, InModifier}
    requires t.Name? || t.Quoted? || Is(t, PIPE) || Is(t, SEMICOLON)
    ensures Settle(p).Sane() && Settle(p).state in {InRule, InEntry}
    ensures Step(p, t) == RuleStep(Settle(p), t)
  {
    hide Modify;
  }

  lemma SettleKeepsStart(p: Progress)
    requires p.Sane()
    ensures Settle(p).start == p.start
  {
    hide AddAll, ItemClaims, PlainItem;
  }

  lemma EntryMidway(p: Progress, r: Rules, n: string, forms: seq<Form>, claims: seq<Claim>, e: Entry)
    returns (q: Progress)
    requires Midway(p, r, n, forms, claims) && forms != []
    ensures q == Step(p, EntryToken(e)) && q.state == InEntry && q.start == p.start
    ensures Midway(q, r, n, WithRule(forms, forms[|forms| - 1] + [Plain(e)]), claims)
    ensures q.HasEntry() && q.LastEntry() == e
    ensures q.current.value.forms == WithRule(forms, forms[|forms| - 1] + [Plain(e)])
  {
    hide AddAll, Modify, Partial;
    StepSettles(p, EntryToken(e));
    SettleKeepsStart(p);
    q := Step(p, EntryToken(e));
    PutMidway(Settle(p), r, n, forms, claims, WithRule(forms, forms[|forms| - 1] + [Plain(e)]), InEntry);
  }

  /** Carrying out a modifier adds its claims and puts the reference in the place of the entry. */
  lemma ModifyMidway(p: Progress, r: Rules, n: string, forms: seq<Form>, form: Form, e: Entry, claims: seq<Claim>,
                     item: Item)
    requires p.HasEntry() && !item.Plain? && forms != []
    requires p.current == Some(Current(n, n !in r, WithRule(forms, form + [Plain(e)])))
    requires p.stored == Partial(r, n, p.current.value.forms, claims)
    ensures Midway(Modify(p, item), r, n, WithRule(forms, form + [PlainItem(item)]), claims + ItemClaims(item))
    ensures Modify(p, item).start == p.start
  {
    var next := WithRule(forms, form + [PlainItem(item)]);
    var built := p.(stored := AddAll(p.stored, ItemClaims(item)));
    AddAllAppend(AddIfMissing(r, (n, p.Forms())), claims, ItemClaims(item));
    assert p.Rule()[..|p.Rule()| - 1] == form;
    assert WithRule(p.Forms(), form + [PlainItem(item)]) == next;
    PutMidway(built, r, n, p.Forms(), claims + ItemClaims(item), next, InRule);
  }

  lemma ItemMidway(p: Progress, r: Rules, n: string, forms: seq<Form>, form: Form, claims: seq<Claim>, item: Item)
    requires Midway(p, r, n, forms + [form], claims)
    ensures var q := Run(p, ItemTokens(item));
            Midway(q, r, n, forms + [form + [PlainItem(item)]], claims + ItemClaims(item)) && q.start == p.start
  {
    hide AddAll, Modify, Partial, ItemClaims, Settle, Step;
    var all := forms + [form];
    assert forall f: Form :: WithRule(all, f) == forms + [f];
    var q := EntryMidway(p, r, n, all, claims, item.entry);
    RunOne(p, EntryToken(item.entry));
    ModifierMidway(q, r, n, all, form, claims, item);
    RunAppend(p, [EntryToken(item.entry)], ItemTokens(item)[1..]);
    assert ItemTokens(item) == [EntryToken(item.entry)] + ItemTokens(item)[1..];
  }

  lemma ModifierMidway(p: Progress, r: Rules, n: string, forms: seq<Form>, form: Form, claims: seq<Claim>, item: Item)
    requires p.Sane() && p.state == InEntry && p.HasEntry() && p.LastEntry() == item.entry && forms != []
    requires Midway(p, r, n, WithRule(forms, form + [Plain(item.entry)]), claims)
    ensures var q := Run(p, ItemTokens(item)[1..]);
            Midway(q, r, n, WithRule(forms, form + [PlainItem(item)]), claims + ItemClaims(item)) && q.start == p.start
  {
    hide AddAll, Modify, Partial, Midway, ItemClaims, Step, WithRule;
    assert (item.Plus? || item.Star?) ==>
             ItemTokens(item)[1..] == [Mark(if item.Star? then ASTERISK else PLUS)] + SepTokens(item.sep);
    match item
    case Plain(_) => NothingClaimed(claims, item);
    case Optional(_) => OptionalMidway(p, r, n, forms, form, claims);
    case Plus(_, sep) => RepeatMidway(p, r, n, forms, form, claims, false, sep);
    case Star(_, sep) => RepeatMidway(p, r, n, forms, form, claims, true, sep);
  }

  lemma NothingClaimed(claims: seq<Claim>, item: Item)
    requires item.Plain?
    ensures claims + ItemClaims(item) == claims
  {
  }

  lemma OptionalMidway(p: Progress, r: Rules, n: string, forms: seq<Form>, form: Form, claims: seq<Claim>)
    requires p.Sane() && p.state == InEntry && p.HasEntry() && forms != []
    requires Midway(p, r, n, WithRule(forms, form + [Plain(p.LastEntry())]), claims)
    ensures var item, q := Optional(p.LastEntry()), Run(p, [Mark(QUESTION_MARK)]);
            Midway(q, r, n, WithRule(forms, form + [PlainItem(item)]), claims + ItemClaims(item)) && q.start == p.start
  {
    hide AddAll, Modify, Partial, ItemClaims, PlainItem;
    ModifyMidway(p, r, n, forms, form, p.LastEntry(), claims, Optional(p.LastEntry()));
    RunOne(p, Mark(QUESTION_MARK));
  }

  lemma RepeatMidway(p: Progress, r: Rules, n: string, forms: seq<Form>, form: Form, claims: seq<Claim>,
                     star: bool, sep: Option<Token>)
    requires p.Sane() && p.state == InEntry && p.HasEntry() && forms != []
    requires Midway(p, r, n, WithRule(forms, form + [Plain(p.LastEntry())]), claims)
    ensures var item := Repeated(p.LastEntry(), star, sep);
            var q := Run(p, [Mark(if star then ASTERISK else PLUS)] + SepTokens(sep));
            Midway(q, r, n, WithRule(forms, form + [PlainItem(item)]), claims + ItemClaims(item)) && q.start == p.start
  {
    hide AddAll, Modify, Partial, ItemClaims;
    var t := Mark(if star then ASTERISK else PLUS);
    var q := p.(state := InModifier, star := star);
    RunOne(p, t);
    assert Step(p, t) == q;
    ModifyMidway(q, r, n, forms, form, p.LastEntry(), claims, Repeated(p.LastEntry(), star, sep));
    RunAppend(p, [t], SepTokens(sep));
    if sep.Some? {
      var comma := [Mark(COMMA)];
      RunOne(q, Mark(COMMA));
      RunAppend(q, comma, [Quoted(sep.value)]);
      RunOne(Run(q, comma), Quoted(sep.value));
      assert SepTokens(sep) == comma + [Quoted(sep.value)];
      SeparatorForgets(q, Repeated(p.LastEntry(), star, sep));
    }
  }

  lemma SeparatorForgets(p: Progress, item: Item)
    requires p.HasEntry() && !item.Plain?
    ensures Modify(p.(state := InSeparator), item) == Modify(p, item)
  {
    hide AddAll;
  }

  lemma {:induction false} FormMidway(p: Progress, r: Rules, n: string, forms: seq<Form>, claims: seq<Claim>,
                                      form: Form)
    requires Midway(p, r, n, forms + [[]], claims)
    ensures var q := Run(p, FormTokens(form));
            Midway(q, r, n, forms + [PlainForm(form)], claims + FormClaims(form)) && q.start == p.start
  {
    hide Settle, Step, Partial, ItemClaims, ItemTokens, PlainItem;
    if form == [] {
      assert PlainForm(form) == [] && claims + [] == claims;
    } else {
      var before, item := form[..|form| - 1], form[|form| - 1];
      FormMidway(p, r, n, forms, claims, before);
      RunAppend(p, FormTokens(before), ItemTokens(item));
      ItemMidway(Run(p, FormTokens(before)), r, n, forms, PlainForm(before), claims + FormClaims(before), item);
      assert PlainForm(form) == PlainForm(before) + [PlainItem(item)];
      assert claims + FormClaims(form) == claims + FormClaims(before) + ItemClaims(item);
    }
  }

  /** The nonterminal `n` has just been met, with the grammar `r`. */
  ghost predicate JustMet(p: Progress, r: Rules, n: string) {
    && p.Sane() && p.state == InNonterminal && p.current == Some(Current(n, n !in r, []))
    && p.stored == AddIfMissing(r, (n, []))
  }

  lemma OpenMidway(p: Progress, r: Rules, n: string, forms: seq<Form>, claims: seq<Claim>)
    requires if forms == [] then JustMet(p, r, n) && claims == [] else Midway(p, r, n, forms, claims)
    ensures var q := Step(p, if forms == [] then Define else Mark(PIPE));
            Midway(q, r, n, forms + [[]], claims) && q.start == p.start
  {
    hide Modify;
    if forms == [] {
      PutMidway(p, r, n, [], [], [[]], InRule);
      assert forms + [[]] == [[]];
    } else {
      StepSettles(p, Mark(PIPE));
      SettleKeepsStart(p);
      PutMidway(Settle(p), r, n, forms, claims, forms + [[]], InRule);
    }
  }

  lemma {:induction false} RulesMidway(p: Progress, r: Rules, n: string, forms: seq<Form>)
    requires JustMet(p, r, n)
    ensures var q := Run(p, RuleTokens(forms));
            q.start == p.start && if forms == [] then q == p else Midway(q, r, n, PlainForms(forms), FormsClaims(forms))
  {
    hide Settle, Step, Partial, FormClaims, FormTokens, PlainForm;
    if forms != [] {
      var before, form := forms[..|forms| - 1], forms[|forms| - 1];
      RulesMidway(p, r, n, before);
      var q, t := Run(p, RuleTokens(before)), if before == [] then Define else Mark(PIPE);
      OpenMidway(q, r, n, PlainForms(before), FormsClaims(before));
      RunOne(q, t);
      RunAppend(p, RuleTokens(before), [t]);
      FormMidway(Step(q, t), r, n, PlainForms(before), FormsClaims(before), form);
      RunAppend(p, RuleTokens(before) + [t], FormTokens(form));
      assert PlainForms(forms) == PlainForms(before) + [PlainForm(form)];
    }
  }

  /** Between two declarations. */
  ghost predicate Between(p: Progress, r: Rules) {
    p.Sane() && p.state in {Start, InNonterminal} && p.stored == r
  }

  lemma DeclarationRead(p: Progress, r: Rules, d: Declaration)
    requires Between(p, r)
    ensures var q := Run(p, DeclarationTokens(d));
            && Between(q, AddAll(r, DeclarationClaims(d))) && q.state == InNonterminal
            && q.start == (if p.start.None? then Some(d.name) else p.start)
            && (d.rules != [] ==> q.current.None?)
  {
    hide Modify, FormsClaims, RuleTokens, PlainForms;
    var q := Step(p, Name(d.name));
    RunOne(p, Name(d.name));
    RulesMidway(q, r, d.name, d.rules);
    RunAppend(p, [Name(d.name)], RuleTokens(d.rules));
    var own := [(d.name, PlainForms(d.rules))];
    AddAllAppend(r, own, FormsClaims(d.rules));
    OwnClaim(r, d.name, PlainForms(d.rules));
    if d.rules == [] {
      NoRules(d);
      assert [Name(d.name)] + RuleTokens(d.rules) + [] == [Name(d.name)] + RuleTokens(d.rules);
    } else {
      var end := Run(q, RuleTokens(d.rules));
      StepSettles(end, Mark(SEMICOLON));
      SettleKeepsStart(end);
      RunAppend(p, [Name(d.name)] + RuleTokens(d.rules), [Mark(SEMICOLON)]);
      RunOne(end, Mark(SEMICOLON));
    }
  }

  lemma OwnClaim(r: Rules, n: string, forms: seq<Form>)
    ensures AddAll(r, [(n, forms)]) == AddIfMissing(r, (n, forms))
  {
    var one: seq<Claim> := [(n, forms)];
    assert one[..0] == [] && AddAll(r, []) == r;
  }

  lemma NoRules(d: Declaration)
    requires d.rules == []
    ensures PlainForms(d.rules) == [] && FormsClaims(d.rules) == [] && RuleTokens(d.rules) == []
  {
  }

  /** Reading the tokens of a text stores what the claims of the text come to: each name goes to who claims it first. */
  lemma {:induction false} TextRead(text: GrammarText)
    ensures var p := Run(INITIAL, TextTokens(text));
            && Between(p, Stored(text)) && p.start == (if text == [] then None else Some(text[0].name))
            && (text != [] && text[|text| - 1].rules != [] ==> Step(p, EndOfText) == p)
  {
    hide Step, DeclarationClaims, DeclarationTokens;
    if text != [] {
      var before, d := text[..|text| - 1], text[|text| - 1];
      TextRead(before);
      DeclarationRead(Run(INITIAL, TextTokens(before)), Stored(before), d);
      RunAppend(INITIAL, TextTokens(before), DeclarationTokens(d));
      AddAllAppend(map[], Claims(before), DeclarationClaims(d));
      EndIsFine(Run(INITIAL, TextTokens(text)));
    }
  }

  lemma EndIsFine(p: Progress)
    requires p.Sane() && p.state == InNonterminal
    ensures p.current.None? ==> Step(p, EndOfText) == p
  {
  }

  /** The grammar that the parser stores derives from its entry point what the text says. */
  lemma ParsedGrammarGenerates(text: GrammarText, w: seq<ContextFree.Code>)
    requires text != [] && Consistent(Claims(text)) && NoStrays(text)
    ensures var p := Run(INITIAL, TextTokens(text));
            && p.start == Some(text[0].name)
            && (Generates(Written(text), [Ref(p.start.value)], w) <==> Accepts(ToCfg(p.stored, p.start.value), w))
  {
    hide Claims, Consistent, NoStrays, Written, Accepts, Generates, ToCfg, Stored, TextTokens;
    TextRead(text);
    ReadGrammarGenerates(text, w);
  }

  // ---------- the parser's objects ----------

  class Definition {
    const name: string
    var rules: seq<Form>

    constructor (name: string)
      ensures this.name == name && rules == []
    {
      this.name := name;
      rules := [];
    }

    method CreateRule()
      modifies this
      ensures rules == old(rules) + [[]]
    {
      rules := rules + [[]];
    }

    /** An entry goes to the end of the last rule. */
    method PushEntry(e: Entry)
      requires rules != []
      modifies this
      ensures rules == WithRule(old(rules), old(rules)[|old(rules)| - 1] + [Plain(e)])
    {
      rules := rules[..|rules| - 1] + [rules[|rules| - 1] + [Plain(e)]];
    }

    method PopEntry()
      requires rules != [] && rules[|rules| - 1] != []
      modifies this
      ensures var rule := old(rules)[|old(rules)| - 1]; rules == WithRule(old(rules), rule[..|rule| - 1])
    {
      var rule := rules[|rules| - 1];
      rules := rules[..|rules| - 1] + [rule[..|rule| - 1]];
    }
  }

  class GrammarParser {
    var nonterminals: map<string, Definition>
    var entrypoint: Option<string>
    var nonterminal: Option<Definition>
    var state: State
    var oldState: State
    var star: bool

    ghost predicate Valid()
      reads this
    {
      && (forall a :: a in nonterminals ==> nonterminals[a].name == a)
      && (nonterminal.Some? ==> nonterminal.value.name in nonterminals && entrypoint.Some?)
    }

    function Stored(): Rules
      reads this, nonterminals.Values
    {
      map a | a in nonterminals :: nonterminals[a].rules
    }

    ghost function View(): Progress
      reads this, nonterminals.Values, if nonterminal.Some? then {nonterminal.value} else {}
    {
      Progress(Stored(), entrypoint,
               if nonterminal.None? then None
               else Some(Current(nonterminal.value.name,
                                 nonterminal.value.name in nonterminals
                                 && nonterminals[nonterminal.value.name] == nonterminal.value,
                                 nonterminal.value.rules)),
               state, oldState, star)
    }

    ghost function Objects(): set<Definition>
      reads this
    {
      nonterminals.Values + if nonterminal.Some? then {nonterminal.value} else {}
    }

    constructor ()
      ensures Valid() && View() == INITIAL && Objects() == {}
    {
      nonterminals, entrypoint, nonterminal, state, oldState, star := map[], None, None, Start, Start, false;
    }

    /** A nonterminal whose name is taken is created all the same, but not entered. */
    method CreateNonterminal(name: string) returns (d: Definition)
      requires Valid()
      modifies this`nonterminals, this`entrypoint
      ensures Valid() && fresh(d) && d.name == name && d.rules == []
      ensures nonterminals == if name in old(nonterminals) then old(nonterminals) else old(nonterminals)[name := d]
      ensures entrypoint == if old(entrypoint).None? then Some(name) else old(entrypoint)
    {
      d := new Definition(name);
      if name !in nonterminals { nonterminals := nonterminals[name := d]; }
      if entrypoint.None? { entrypoint := Some(name); }
    }

    method DeclareNonterminal(name: string)
      requires Valid()
      modifies this
      ensures Valid() && View() == Declare(old(View()), name) && fresh(Objects() - old(Objects()))
    {
      var d := CreateNonterminal(name);
      nonterminal, state := Some(d), InNonterminal;
      assert Stored() == AddIfMissing(old(Stored()), (name, []));
    }

    method CreateRule()
      requires Valid() && nonterminal.Some?
      modifies this, nonterminal.value
      ensures Valid() && View() == OpenRule(old(View())) && Objects() == old(Objects())
    {
      nonterminal.value.CreateRule();
      state := InRule;
    }

    method PushEntry(e: Entry)
      requires Valid() && View().HasRule()
      modifies this, nonterminal.value
      ensures Valid() && View() == AddEntry(old(View()), e) && Objects() == old(Objects())
    {
      nonterminal.value.PushEntry(e);
      state := InEntry;
    }

    /** The entry read last gives way to a reference to the nonterminal `name`. */
    method ReplaceEntry(name: string)
      requires Valid() && View().HasEntry()
      modifies this, nonterminal.value
      ensures Valid() && Objects() == old(Objects())
      ensures var p := old(View());
              View() == PutForms(p, WithRule(p.Forms(), p.Rule()[..|p.Rule()| - 1] + [Ref(name)]), InRule)
    {
      nonterminal.value.PopEntry();
      nonterminal.value.PushEntry(Nonterminal(name));
      state := InRule;
    }

    /** Entering a new nonterminal under a new name changes nothing else. */
    twostate lemma Entered(name: string, new d: Definition)
      requires old(Valid()) && fresh(d) && d.name == name && name !in old(nonterminals)
      requires nonterminal == old(nonterminal) && nonterminal.Some? && forall o :: o in old(Objects()) ==> unchanged(o)
      requires nonterminals == old(nonterminals)[name := d] && entrypoint == old(entrypoint)
      requires state == old(state) && oldState == old(oldState) && star == old(star)
      ensures Valid() && View() == old(View()).(stored := old(Stored())[name := d.rules])
      ensures fresh(Objects() - old(Objects()))
    {
      forall a | a in old(nonterminals) ensures nonterminals[a].rules == old(nonterminals[a].rules) {
        assert old(nonterminals)[a] in old(Objects());
      }
      assert Stored() == old(Stored())[name := d.rules];
      assert Objects() <= old(Objects()) + {d};
    }

    method BuildOptional(name: string, e: Entry)
      requires Valid() && nonterminal.Some?
      modifies this`nonterminals, this`entrypoint
      ensures Valid() && fresh(Objects() - old(Objects()))
      ensures View() == old(View()).(stored := AddIfMissing(old(Stored()), (name, OptionalRules(e))))
    {
      if name !in nonterminals {
        var d := CreateNonterminal(name);
        d.CreateRule();
        d.PushEntry(e);
        d.CreateRule();
        assert d.rules[0] == [Plain(e)] && d.rules == OptionalRules(e);
        Entered(name, d);
      }
    }

    method BuildStar(name: string, plus: string)
      requires Valid() && nonterminal.Some?
      modifies this`nonterminals, this`entrypoint
      ensures Valid() && fresh(Objects() - old(Objects()))
      ensures View() == old(View()).(stored := AddIfMissing(old(Stored()), (name, StarRules(plus))))
    {
      if name !in nonterminals {
        var d := CreateNonterminal(name);
        d.CreateRule();
        d.PushEntry(Nonterminal(plus));
        d.CreateRule();
        assert d.rules[0] == [Ref(plus)] && d.rules == StarRules(plus);
        Entered(name, d);
      }
    }

    method BuildPlus(name: string, e: Entry, more: string)
      requires Valid() && nonterminal.Some?
      modifies this`nonterminals, this`entrypoint
      ensures Valid() && fresh(Objects() - old(Objects()))
      ensures View() == old(View()).(stored := AddIfMissing(old(Stored()), (name, PlusRules(e, more))))
    {
      if name !in nonterminals {
        var d := CreateNonterminal(name);
        d.CreateRule();
        d.PushEntry(e);
        d.PushEntry(Nonterminal(more));
        assert d.rules[0] == [Plain(e), Ref(more)] && d.rules == PlusRules(e, more);
        Entered(name, d);
      }
    }

    method BuildMore(name: string, sep: Option<Token>, plus: string)
      requires Valid() && nonterminal.Some?
      modifies this`nonterminals, this`entrypoint
      ensures Valid() && fresh(Objects() - old(Objects()))
      ensures View() == old(View()).(stored := AddIfMissing(old(Stored()), (name, MoreRules(sep, plus))))
    {
      if name !in nonterminals {
        var d := CreateNonterminal(name);
        d.CreateRule();
        if sep.Some? { d.PushEntry(Terminal(sep.value)); }
        d.PushEntry(Nonterminal(plus));
        d.CreateRule();
        assert d.rules[0] == SepForm(sep) + [Ref(plus)] && d.rules == MoreRules(sep, plus);
        Entered(name, d);
      }
    }

    lemma ViewIs()
      ensures View().state == state && View().back == oldState && View().star == star
      ensures View().current.Some? <==> nonterminal.Some?
      ensures View().stored == Stored()
      ensures nonterminal.Some? ==> nonterminal.value in Objects()
    {
    }

    method ReadEntry() returns (e: Entry)
      requires Valid() && View().HasEntry()
      ensures e == View().LastEntry()
    {
      var rule := nonterminal.value.rules[|nonterminal.value.rules| - 1];
      e := rule[|rule| - 1].entry;
    }

    method MakeOptional()
      requires Valid() && View().HasEntry()
      modifies this, nonterminal.value
      ensures Valid() && View() == Modify(old(View()), Optional(old(View()).LastEntry()))
      ensures fresh(Objects() - old(Objects()))
    {
      hide AddAll, AddIfMissing, Valid, View, WithRule;
      ViewIs();
      var e := ReadEntry();
      var name := e.ToString() + "?";
      OptionalAdds(Stored(), e);
      BuildOptional(name, e);
      ReplaceEntry(name);
    }

    method BuildRepeat(e: Entry, sep: Option<Token>, starName: string, plusName: string, moreName: string)
      requires Valid() && nonterminal.Some?
      requires starName == StarName(e, sep) && plusName == PlusName(e, sep) && moreName == MoreName(e, sep)
      modifies this`nonterminals, this`entrypoint
      ensures Valid() && fresh(Objects() - old(Objects()))
      ensures View() == old(View()).(stored := AddAll(old(Stored()), RepeatClaims(e, sep)))
    {
      hide AddAll, AddIfMissing;
      RepeatAdds(Stored(), e, sep);
      BuildStar(starName, plusName);
      BuildPlus(plusName, e, moreName);
      BuildMore(moreName, sep, plusName);
    }

    method ExpandModifier(sep: Option<Token>)
      requires Valid() && View().HasEntry()
      modifies this, nonterminal.value
      ensures Valid() && View() == Modify(old(View()), Repeated(old(View()).LastEntry(), old(star), sep))
      ensures fresh(Objects() - old(Objects()))
    {
      hide AddAll, Valid, View, WithRule;
      ViewIs();
      var e := ReadEntry();
      var sepText := if sep.Some? then sep.value.text else "[None]";
      var starName, plusName := e.ToString() + "*" + sepText, e.ToString() + "+" + sepText;
      var moreName := sepText + e.ToString();
      BuildRepeat(e, sep, starName, plusName, moreName);
      ViewIs();
      ReplaceEntry(if star then starName else plusName);
    }

    method Enter(s: State)
      requires Valid()
      modifies this`state
      ensures Valid() && View() == old(View()).(state := s) && Objects() == old(Objects())
    {
      state := s;
    }

    /** The option brackets lead back to the state `back`. */
    method EnterOptions(back: State)
      requires Valid()
      modifies this`state, this`oldState
      ensures Valid() && View() == old(View()).(back := back, state := InOptions) && Objects() == old(Objects())
    {
      oldState, state := back, InOptions;
    }

    method CloseNonterminal()
      requires Valid()
      modifies this`state, this`nonterminal
      ensures Valid() && View() == old(View()).(current := None, state := InNonterminal)
      ensures Objects() <= old(Objects())
    {
      nonterminal, state := None, InNonterminal;
    }

    method HandleOptions(t: Lexeme)
      requires Valid() && View().Sane() && state in {InOptions, InOptionName}
      modifies this`state
      ensures Valid() && View().Sane() && View() == OptionsStep(old(View()), t) && Objects() == old(Objects())
    {
      hide View, Valid, Objects;
      ViewIs();
      Enter(if t.Name? then InOptionName
            else if Is(t, if oldState == Start then PERCENT else CLOSE_BRACKET) then oldState
            else Failed);
    }

    method HandleOutside(t: Lexeme)
      requires Valid() && View().Sane() && state in {Start, InNonterminal}
      modifies this, Objects()
      ensures Valid() && View() == OutsideStep(old(View()), t) && fresh(Objects() - old(Objects()))
    {
      hide View, Valid, Objects, Declare, OpenRule;
      ViewIs();
      if t.Name? {
        DeclareNonterminal(t.name);
      } else if Is(t, PERCENT) && state == Start {
        EnterOptions(Start);
      } else if Is(t, OPEN_BRACKET) {
        EnterOptions(InNonterminal);
      } else if t.Define? && state == InNonterminal && nonterminal.Some? {
        CreateRule();
      } else if !(t.EndOfText? && state == InNonterminal && nonterminal.None?) {
        Enter(Failed);
      }
    }

    method HandleRule(t: Lexeme)
      requires Valid() && View().Sane() && state in {InRule, InEntry}
      modifies this, Objects()
      ensures Valid() && View() == RuleStep(old(View()), t) && fresh(Objects() - old(Objects()))
    {
      hide View, Valid, Objects, AddEntry, OpenRule;
      ViewIs();
      match t
      case Name(name) => PushEntry(Nonterminal(name));
      case Quoted(terminal) => PushEntry(Terminal(terminal));
      case Other(token) =>
        if token.code == PIPE {
          CreateRule();
        } else if token.code == SEMICOLON {
          CloseNonterminal();
        } else if token.code == OPEN_BRACKET {
          EnterOptions(state);
        } else if IsTerminal(token) {
          PushEntry(Terminal(token));
        } else {
          Enter(Failed);
        }
      case Define => Enter(Failed);
      case EndOfText => Enter(Failed);
    }

    /** A modifier without a separator is complete when the next token, which is no comma, is there. */
    method HandleModifier(t: Lexeme)
      requires Valid() && View().Sane() && state == InModifier
      modifies this, Objects()
      ensures Valid() && View() == Step(old(View()), t) && fresh(Objects() - old(Objects()))
    {
      hide View, Valid, Modify, RuleStep;
      ViewIs();
      if Is(t, COMMA) {
        Enter(InSeparator);
      } else {
        ExpandModifier(None);
        ViewIs();
        HandleRule(t);
      }
    }

    method HandleSeparator(t: Lexeme)
      requires Valid() && View().Sane() && state == InSeparator
      modifies this, Objects()
      ensures Valid() && View() == Step(old(View()), t) && fresh(Objects() - old(Objects()))
    {
      hide View, Valid, Objects, Modify;
      ViewIs();
      var sep := Separator(t);
      if sep.Some? { ExpandModifier(sep); } else { Enter(Failed); }
    }

    method HandleEntry(t: Lexeme)
      requires Valid() && View().Sane() && state == InEntry
      modifies this, Objects()
      ensures Valid() && View() == Step(old(View()), t) && fresh(Objects() - old(Objects()))
    {
      hide View, Valid, Objects, Modify, RuleStep;
      ViewIs();
      if Is(t, QUESTION_MARK) {
        MakeOptional();
      } else if Is(t, PLUS) || Is(t, ASTERISK) {
        TakeModifier(Is(t, ASTERISK));
      } else {
        HandleRule(t);
      }
    }

    method TakeModifier(asterisk: bool)
      requires Valid()
      modifies this`state, this`star
      ensures Valid() && View() == old(View()).(state := InModifier, star := asterisk) && Objects() == old(Objects())
    {
      state, star := InModifier, asterisk;
    }

    /** One token, in the current state. */
    method Handle(t: Lexeme)
      requires Valid() && View().Sane()
      modifies this, Objects()
      ensures Valid() && View() == Step(old(View()), t) && fresh(Objects() - old(Objects()))
    {
      hide View, Valid, Objects, OutsideStep, RuleStep, OptionsStep, Modify;
      ViewIs();
      match state
      case Start | InNonterminal => HandleOutside(t);
      case InRule => HandleRule(t);
      case InEntry => HandleEntry(t);
      case InModifier => HandleModifier(t);
      case InSeparator => HandleSeparator(t);
      case InOptions => HandleOptions(t);
      case InOptionName => if Is(t, COLON) || Is(t, EQUALS) { Enter(InOptionValue); } else { HandleOptions(t); }
      case InOptionValue => Enter(if IsOptionValue(t) then InOptions else Failed);
      case Failed =>
    }

    /** Tokens are handled one after the other, until one of them is in error. */
    method Parse(ts: seq<Lexeme>)
      requires Valid() && View().Sane()
      modifies this, Objects()
      ensures Valid() && View() == Run(old(View()), ts) && fresh(Objects() - old(Objects()))
    {
      hide Step, View, Valid;
      ViewIs();
      var i := 0;
      while i < |ts| && state != Failed
        invariant 0 <= i <= |ts|
        invariant Valid() && View() == Run(old(View()), ts[..i]) && fresh(Objects() - old(Objects()))
        invariant View().state == state
      {
        assert ts[..i + 1][..i] == ts[..i];
        Handle(ts[i]);
        ViewIs();
        i := i + 1;
      }
      FailedStays(Run(old(View()), ts[..i]), ts[i..]);
      RunAppend(old(View()), ts[..i], ts[i..]);
      assert ts[..i] + ts[i..] == ts;
    }

    /** Reading a grammar's text into a new parser: the dictionary of nonterminals ends as what the claims come to. */
    method ParseText(text: GrammarText)
      requires Valid() && View() == INITIAL
      modifies this, Objects()
      ensures Valid() && Stored() == T.Stored(text)
      ensures entrypoint == if text == [] then None else Some(text[0].name)
    {
      TextRead(text);
      Parse(TextTokens(text));
    }
  }

  lemma {:induction false} FailedStays(p: Progress, ts: seq<Lexeme>)
    requires p.Sane()
    ensures p.state == Failed || ts == [] ==> Run(p, ts) == p
  {
    if ts != [] { FailedStays(p, ts[..|ts| - 1]); }
  }

  lemma OptionalAdds(r: Rules, e: Entry)
    ensures AddAll(r, ItemClaims(Optional(e))) == AddIfMissing(r, (OptionalName(e), OptionalRules(e)))
  {
    OwnClaim(r, OptionalName(e), OptionalRules(e));
  }

  lemma RepeatAdds(r: Rules, e: Entry, sep: Option<Token>)
    ensures var starName, plusName, moreName := StarName(e, sep), PlusName(e, sep), MoreName(e, sep);
            AddAll(r, RepeatClaims(e, sep))
            == AddIfMissing(AddIfMissing(AddIfMissing(r, (starName, StarRules(plusName))),
                                         (plusName, PlusRules(e, moreName))), (moreName, MoreRules(sep, plusName)))
  {
    var c := RepeatClaims(e, sep);
    assert c == [c[0]] + [c[1]] + [c[2]];
    AddAllAppend(r, [c[0]] + [c[1]], [c[2]]);
    AddAllAppend(r, [c[0]], [c[1]]);
    OwnClaim(r, c[0].0, c[0].1);
    OwnClaim(AddIfMissing(r, c[0]), c[1].0, c[1].1);
    OwnClaim(AddIfMissing(AddIfMissing(r, c[0]), c[1]), c[2].0, c[2].1);
  }

  // ---------- a name claimed twice ----------

  const X := Token(300, "x")
  const YES := Token(301, "yes")
  const NO := Token(302, "no")

  /** `s := xA | A+ ,"x" ; A := "yes" ; xA := "no" ;` in which the separator and `A` make up the name `xA` as well. */
  const TAKEN: GrammarText := [
    Declaration("s", [[Ref("xA")], [Plus(Nonterminal("A"), Some(X))]]),
    Declaration("A", [[Plain(Terminal(YES))]]),
    Declaration("xA", [[Plain(Terminal(NO))]])]

  lemma {:induction false} ClaimIsThere(claims: seq<Claim>, i: nat)
    requires i < |claims| && forall j :: 0 <= j < i ==> claims[j].0 != claims[i].0
    ensures claims[i].0 in FirstWins(claims) && FirstWins(claims)[claims[i].0] == claims[i].1
  {
    var before := claims[..|claims| - 1];
    if i < |claims| - 1 {
      ClaimIsThere(before, i);
      assert before[i] == claims[i];
    } else {
      FirstWinsKeys(before);
      assert claims[i].0 !in FirstWins(before);
      assert FirstWins(claims) == AddIfMissing(FirstWins(before), claims[i]);
    }
  }

  lemma StartClaims()
    ensures var a := Nonterminal("A"); var plus := PlusName(a, Some(X));
            DeclarationClaims(TAKEN[0]) == [("s", [[Ref("xA")], [Ref(plus)]]), (StarName(a, Some(X)), StarRules(plus)),
                                            (plus, PlusRules(a, "xA")), ("xA", MoreRules(Some(X), plus))]
  {
    var rules, more := TAKEN[0].rules, Plus(Nonterminal("A"), Some(X));
    assert "x" + "A" == "xA";
    FormClaimsOf(Ref("xA"));
    FormClaimsOf(more);
    assert rules == [[Ref("xA")], [more]] && rules[..1] == [[Ref("xA")]] && rules[..1][..0] == [];
    assert FormsClaims(rules) == FormsClaims(rules[..1]) + ItemClaims(more);
    assert FormsClaims(rules[..1]) == FormsClaims(rules[..1][..0]) + ItemClaims(Ref("xA"));
    assert PlainForms(rules) == [[Ref("xA")], [Ref(PlusName(Nonterminal("A"), Some(X)))]];
  }

  lemma TakenClaims()
    ensures Claims(TAKEN)
            == DeclarationClaims(TAKEN[0]) + [("A", [[Plain(Terminal(YES))]])] + [("xA", [[Plain(Terminal(NO))]])]
  {
    hide Claims, DeclarationClaims;
    var s, a, xa := TAKEN[0], TAKEN[1], TAKEN[2];
    OneClaim(a, YES);
    OneClaim(xa, NO);
    ClaimsEnd([s, a], xa);
    ClaimsEnd([s], a);
    ClaimsEnd([], s);
    assert [s, a] + [xa] == TAKEN && [s] + [a] == [s, a] && [] + [s] == [s];
    NoClaims();
  }

  lemma NoClaims()
    ensures Claims([]) == []
  {
  }

  lemma FormClaimsOf(item: Item)
    ensures FormClaims([item]) == ItemClaims(item) && PlainForm([item]) == [PlainItem(item)]
  {
    assert [item][..0] == [];
  }

  lemma OneClaim(d: Declaration, t: Token)
    requires d.rules == [[Plain(Terminal(t))]]
    ensures DeclarationClaims(d) == [(d.name, [[Plain(Terminal(t))]])]
  {
    FormClaimsOf(Plain(Terminal(t)));
    var rest := d.rules[..0];
    assert rest == [] && FormsClaims(d.rules) == FormsClaims(rest) + FormClaims(d.rules[0]) && FormsClaims(rest) == [];
    assert PlainForms(d.rules) == [PlainForm(d.rules[0])];
  }

  lemma ClaimsEnd(text: GrammarText, d: Declaration)
    ensures Claims(text + [d]) == Claims(text) + DeclarationClaims(d)
  {
    assert (text + [d])[..|text|] == text;
  }

  lemma TakenStored()
    ensures var y := Stored(TAKEN); var plus := PlusName(Nonterminal("A"), Some(X));
            && "s" in y && y["s"] == [[Ref("xA")], [Ref(plus)]]
            && plus in y && y[plus] == PlusRules(Nonterminal("A"), "xA")
            && "xA" in y && y["xA"] == MoreRules(Some(X), plus)
            && "A" in y && y["A"] == [[Plain(Terminal(YES))]]
  {
    hide FirstWins, Claims, PlusRules, MoreRules, StarRules;
    StartClaims();
    TakenClaims();
    var c := Claims(TAKEN);
    assert c[2].0[1] == '+' && c[1].0[1] == '*';
    ClaimIsThere(c, 0);
    ClaimIsThere(c, 2);
    ClaimIsThere(c, 3);
    ClaimIsThere(c, 4);
  }

  /** In the stored grammar `A` is `yes`, and `xA` begins with the separator or is empty. */
  lemma NoIsLost(ks: seq<nat>)
    ensures !Derives(Stored(TAKEN), [Ref("s")], [NO.code], ks)
  {
    hide Stored;
    TakenStored();
    var y, w, a := Stored(TAKEN), [NO.code], Nonterminal("A");
    var plus := PlusName(a, Some(X));
    if Derives(y, [Ref("s")] + [], w, ks) {
      PopChoice(y, Ref("s"), [], w, ks);
      if ks[0] == 0 {
        assert y["s"][0] + [] == [Ref("xA")] + [];
        PopChoice(y, Ref("xA"), [], w, ks[1..]);
      } else {
        assert y["s"][1] + [] == [Ref(plus)] + [];
        PopChoice(y, Ref(plus), [], w, ks[1..]);
        assert y[plus][0] + [] == [Plain(a)] + [Ref("xA")];
        PopChoice(y, Plain(a), [Ref("xA")], w, ks[1..][1..]);
      }
    }
    assert [Ref("s")] + [] == [Ref("s")];
  }

  lemma NoIsWritten()
    ensures Derives(Written(TAKEN), [Ref("s")], [NO.code], [0, 0])
  {
    var x, w := Written(TAKEN), [NO.code];
    WrittenIs(TAKEN);
    assert TAKEN[0].name == "s" && TAKEN[1].name == "A" && TAKEN[2].name == "xA";
    assert Declared(TAKEN, "s") && Declared(TAKEN, "xA");
    assert "s" in x && x["s"] == TAKEN[0].rules && "xA" in x && x["xA"] == TAKEN[2].rules;
    assert Derives(x, [Plain(Terminal(NO))] + [], w, []);
    PushChoice(x, Ref("xA"), [], w, 0, []);
    PushChoice(x, Ref("s"), [], w, 0, [0] + []);
    assert [0] + ([0] + []) == [0, 0] && [Ref("s")] + [] == [Ref("s")];
  }

  /** The rules of the declared `xA` are lost: `no` is in the language that the text describes, and cannot be
      derived in the stored grammar. */
  lemma CollisionLosesStrings()
    ensures !Consistent(Claims(TAKEN)) && NoStrays(TAKEN)
    ensures Generates(Written(TAKEN), [Ref("s")], [NO.code]) && !Generates(Stored(TAKEN), [Ref("s")], [NO.code])
  {
    hide Derives, Claims, Written, Stored;
    StartClaims();
    TakenClaims();
    NoIsWritten();
    forall ks: seq<nat> ensures !Derives(Stored(TAKEN), [Ref("s")], [NO.code], ks) { NoIsLost(ks); }
    assert Claims(TAKEN)[3].0 == Claims(TAKEN)[5].0;
    assert TAKEN[1].name == "A" && TAKEN[2].name == "xA";
    assert Declared(TAKEN, "A") && Declared(TAKEN, "xA");
  }
}
