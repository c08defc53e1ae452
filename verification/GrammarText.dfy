/** Reading a grammar: its text claims names, for the nonterminals it declares and for those that modifiers stand for.
    The stored grammar meets all claims if and only if no name is claimed for two different things, and then it
    generates what the text says. */
module GrammarTexts {
  import opened Wrappers
  import opened TokenCodes
  import opened Ebnf
  import ContextFree

  /** A nonterminal with its rules as they are written. */
  datatype Declaration = Declaration(name: string, rules: seq<Form>)

  type GrammarText = seq<Declaration>

  // ---------- names ----------

  function OptionalName(e: Entry): string { e.ToString() + "?" }
  function SepName(sep: Option<Token>): string { if sep.Some? then sep.value.text else "[None]" }
  function StarName(e: Entry, sep: Option<Token>): string { e.ToString() + "*" + SepName(sep) }
  function PlusName(e: Entry, sep: Option<Token>): string { e.ToString() + "+" + SepName(sep) }
  function MoreName(e: Entry, sep: Option<Token>): string { SepName(sep) + e.ToString() }

  /** A modified entry gives way to a reference to its synthetic nonterminal. */
  function PlainItem(item: Item): Item {
    match item
    case Plain(_) => item
    case Optional(e) => Ref(OptionalName(e))
    case Plus(e, sep) => Ref(PlusName(e, sep))
    case Star(e, sep) => Ref(StarName(e, sep))
  }

  function PlainForm(form: Form): (t: Form)
    ensures |t| == |form|
  {
    seq(|form|, i requires 0 <= i < |form| => PlainItem(form[i]))
  }

  function PlainForms(forms: seq<Form>): (t: seq<Form>)
    ensures |t| == |forms|
  {
    seq(|forms|, i requires 0 <= i < |forms| => PlainForm(forms[i]))
  }

  // ---------- claims ----------

  /** A name, and the rules it is to stand for. */
  type Claim = (string, seq<Form>)

  /** The synthetic nonterminals that a modifier builds. */
  function ItemClaims(item: Item): seq<Claim> {
    match item
    case Plain(_) => []
    case Optional(e) => [(OptionalName(e), OptionalRules(e))]
    case Plus(e, sep) => RepeatClaims(e, sep)
    case Star(e, sep) => RepeatClaims(e, sep)
  }

  function RepeatClaims(e: Entry, sep: Option<Token>): seq<Claim> {
    var star, plus, more := StarName(e, sep), PlusName(e, sep), MoreName(e, sep);
    [(star, StarRules(plus)), (plus, PlusRules(e, more)), (more, MoreRules(sep, plus))]
  }

  function FormClaims(form: Form): seq<Claim> {
    if form == [] then [] else FormClaims(form[..|form| - 1]) + ItemClaims(form[|form| - 1])
  }

  function FormsClaims(forms: seq<Form>): seq<Claim> {
    if forms == [] then [] else FormsClaims(forms[..|forms| - 1]) + FormClaims(forms[|forms| - 1])
  }

  function DeclarationClaims(d: Declaration): seq<Claim> {
    [(d.name, PlainForms(d.rules))] + FormsClaims(d.rules)
  }

  /** Everything a grammar's text claims names for, in the order in which it is read. */
  function Claims(text: GrammarText): seq<Claim> {
    if text == [] then [] else Claims(text[..|text| - 1]) + DeclarationClaims(text[|text| - 1])
  }

  function AddIfMissing(r: Rules, claim: Claim): Rules {
    if claim.0 in r then r else r[claim.0 := claim.1]
  }

  /** Who claims a name first has it. */
  function AddAll(r: Rules, claims: seq<Claim>): Rules {
    if claims == [] then r else AddIfMissing(AddAll(r, claims[..|claims| - 1]), claims[|claims| - 1])
  }

  function FirstWins(claims: seq<Claim>): Rules { AddAll(map[], claims) }

  /** No name is claimed for two different things. */
  predicate Consistent(claims: seq<Claim>) {
    forall i, j :: 0 <= i < |claims| && 0 <= j < |claims| && claims[i].0 == claims[j].0 ==> claims[i].1 == claims[j].1
  }

  /** Every claim is met. */
  predicate Met(r: Rules, claims: seq<Claim>) {
    forall i :: 0 <= i < |claims| ==> claims[i].0 in r && r[claims[i].0] == claims[i].1
  }

  lemma {:induction false} FirstWinsKeys(claims: seq<Claim>)
    ensures forall n :: n in FirstWins(claims) <==> exists i :: 0 <= i < |claims| && claims[i].0 == n
    ensures forall n | n in FirstWins(claims) ::
              exists i :: 0 <= i < |claims| && claims[i] == (n, FirstWins(claims)[n])
  {
    if claims != [] {
      var last := |claims| - 1;
      var before := claims[..last];
      FirstWinsKeys(before);
      forall n | n in FirstWins(claims)
        ensures exists i :: 0 <= i < |claims| && claims[i] == (n, FirstWins(claims)[n])
      {
        if n in FirstWins(before) {
          var i :| 0 <= i < |before| && before[i] == (n, FirstWins(before)[n]);
          assert claims[i] == (n, FirstWins(claims)[n]);
        } else {
          assert claims[last] == (n, FirstWins(claims)[n]);
        }
      }
      forall i | 0 <= i < |claims| ensures claims[i].0 in FirstWins(claims) {
        assert i < last ==> before[i].0 in FirstWins(before);
      }
    }
  }

  /** The stored grammar meets every claim of the text if and only if the claims are consistent. */
  lemma MetIffConsistent(claims: seq<Claim>)
    ensures Met(FirstWins(claims), claims) <==> Consistent(claims)
  {
    FirstWinsKeys(claims);
    if Consistent(claims) {
      forall i | 0 <= i < |claims|
        ensures claims[i].0 in FirstWins(claims) && FirstWins(claims)[claims[i].0] == claims[i].1
      {
        var n := claims[i].0;
        var j :| 0 <= j < |claims| && claims[j] == (n, FirstWins(claims)[n]);
        assert claims[j].0 == claims[i].0;
      }
    }
  }

  // ---------- the language is kept ----------

  /** The grammar as it is written. */
  function Written(text: GrammarText): Rules {
    if text == [] then map[]
    else AddIfMissing(Written(text[..|text| - 1]), (text[|text| - 1].name, text[|text| - 1].rules))
  }

  /** The grammar that is stored. */
  function Stored(text: GrammarText): Rules {
    FirstWins(Claims(text))
  }

  /** The synthetic nonterminals for an item are there. */
  predicate ItemMet(y: Rules, item: Item) {
    Met(y, ItemClaims(item))
  }

  /** What an entry refers to is written, unless it is not stored either. */
  ghost predicate Grounded(x: Rules, y: Rules, e: Entry) {
    e.Nonterminal? && e.name in y ==> e.name in x
  }

  /** Every entry is grounded, and the synthetic nonterminals of every modifier are stored. */
  ghost predicate Supported(x: Rules, y: Rules, form: Form) {
    forall i :: 0 <= i < |form| ==> ItemMet(y, form[i]) && Grounded(x, y, form[i].entry)
  }

  /** `y` stores what `x` says. */
  ghost predicate Stores(x: Rules, y: Rules) {
    forall a | a in x ::
      && a in y && y[a] == PlainForms(x[a])
      && forall k :: 0 <= k < |x[a]| ==> Supported(x, y, x[a][k])
  }

  lemma MetRealises(y: Rules, item: Item)
    requires ItemMet(y, item) && !item.Plain?
    ensures PlainItem(item).entry.Nonterminal? && Realises(y, item, PlainItem(item).entry.name)
  {
    match item
    case Optional(e) =>
      assert y[ItemClaims(item)[0].0] == ItemClaims(item)[0].1;
    case Plus(e, sep) => RepeatMet(y, e, sep);
    case Star(e, sep) => RepeatMet(y, e, sep);
  }

  lemma RepeatMet(y: Rules, e: Entry, sep: Option<Token>)
    requires Met(y, RepeatClaims(e, sep))
    ensures StarName(e, sep) in y && y[StarName(e, sep)] == StarRules(PlusName(e, sep))
    ensures RepeatsAt(y, e, sep, PlusName(e, sep), MoreName(e, sep))
  {
    var c := RepeatClaims(e, sep);
    assert c[0].0 in y && c[1].0 in y && c[2].0 in y;
  }

  lemma PlainFormAppend(a: Form, b: Form)
    ensures PlainForm(a + b) == PlainForm(a) + PlainForm(b)
  {
  }

  lemma {:induction false} RepeatIsPlain(e: Entry, sep: Option<Token>, n: nat)
    ensures PlainForm(Repeat(e, sep, n)) == Repeat(e, sep, n)
  {
    if n > 0 { RepeatIsPlain(e, sep, n - 1); }
  }

  lemma ReadingIsPlain(item: Item, k: nat)
    requires !item.Plain? && Reading(item, k).Some?
    ensures PlainForm(Reading(item, k).value) == Reading(item, k).value
  {
    match item
    case Optional(e) =>
    case Plus(e, sep) => RepeatIsPlain(e, sep, k);
    case Star(e, sep) => if k > 0 { RepeatIsPlain(e, sep, k - 1); }
  }

  lemma SupportedConcat(x: Rules, y: Rules, a: Form, b: Form)
    ensures Supported(x, y, a + b) <==> Supported(x, y, a) && Supported(x, y, b)
  {
    var c := a + b;
    if Supported(x, y, c) {
      forall i | 0 <= i < |a| ensures ItemMet(y, a[i]) && Grounded(x, y, a[i].entry) {
        assert c[i] == a[i];
      }
      forall i | 0 <= i < |b| ensures ItemMet(y, b[i]) && Grounded(x, y, b[i].entry) {
        assert c[|a| + i] == b[i];
      }
    }
  }

  lemma {:induction false} RepeatSupported(x: Rules, y: Rules, e: Entry, sep: Option<Token>, n: nat)
    requires Grounded(x, y, e)
    ensures Supported(x, y, Repeat(e, sep, n))
  {
    if n > 0 {
      RepeatSupported(x, y, e, sep, n - 1);
      SupportedConcat(x, y, [Plain(e)], SepForm(sep));
      SupportedConcat(x, y, [Plain(e)] + SepForm(sep), Repeat(e, sep, n - 1));
    }
  }

  lemma ReadingSupported(x: Rules, y: Rules, item: Item, k: nat)
    requires !item.Plain? && Reading(item, k).Some? && Grounded(x, y, item.entry)
    ensures Supported(x, y, Reading(item, k).value)
  {
    match item
    case Optional(e) =>
    case Plus(e, sep) => RepeatSupported(x, y, e, sep, k);
    case Star(e, sep) => if k > 0 { RepeatSupported(x, y, e, sep, k - 1); }
  }

  /** What a choice puts in the place of an item is supported, and comes to the same in the stored grammar. */
  lemma ChosenSupported(x: Rules, y: Rules, item: Item, k: nat)
    requires Stores(x, y) && Supported(x, y, [item]) && !(item.Plain? && item.entry.Terminal?)
    requires if item.Plain? then item.entry.name in x && k < |x[item.entry.name]| else Reading(item, k).Some?
    ensures Supported(x, y, Chosen(x, item, k))
    ensures if item.Plain? then item.entry.name in y && k < |y[item.entry.name]|
                                && PlainForm(Chosen(x, item, k)) == Chosen(y, item, k)
            else PlainForm(Chosen(x, item, k)) == Reading(item, k).value
  {
    assert [item][0] == item;
    if !item.Plain? {
      ReadingSupported(x, y, item, k);
      ReadingIsPlain(item, k);
    }
  }

  lemma Front(x: Rules, y: Rules, s: Form)
    requires Supported(x, y, s) && s != []
    ensures Supported(x, y, [s[0]]) && Supported(x, y, s[1..])
    ensures PlainForm(s) == [PlainItem(s[0])] + PlainForm(s[1..])
    ensures Grounded(x, y, s[0].entry)
    ensures !s[0].Plain? ==> ItemMet(y, s[0])
  {
    assert s == [s[0]] + s[1..];
    SupportedConcat(x, y, [s[0]], s[1..]);
    PlainFormAppend([s[0]], s[1..]);
  }

  lemma {:induction false} StoredForward(x: Rules, y: Rules, s: Form, w: seq<ContextFree.Code>, ks: seq<nat>)
    returns (ls: seq<nat>)
    requires Stores(x, y) && Supported(x, y, s) && Derives(x, s, w, ks)
    ensures Derives(y, PlainForm(s), w, ls)
    decreases |ks|, |s|
  {
    hide Derives, Stores, Supported, ItemMet, Chosen;
    DerivesNothing(x, w, ks);
    DerivesNothing(y, w, ks);
    if s == [] {
      ls := [];
      return;
    }
    Front(x, y, s);
    DerivesStep(x, s, w, ks);
    var t, rest := PlainForm(s), PlainForm(s[1..]);
    if s[0].Plain? && s[0].entry.Terminal? {
      ls := StoredForward(x, y, s[1..], if s[0].entry.token.code == ContextFree.EMPTY then w else w[1..], ks);
      DerivesStep(y, t, w, ls);
      assert t[1..] == rest;
    } else {
      var rhs := Chosen(x, s[0], ks[0]);
      assert s == [s[0]] + s[1..];
      PopChoice(x, s[0], s[1..], w, ks);
      ChosenSupported(x, y, s[0], ks[0]);
      SupportedConcat(x, y, rhs, s[1..]);
      PlainFormAppend(rhs, s[1..]);
      ls := StoredForward(x, y, rhs + s[1..], w, ks[1..]);
      if s[0].Plain? {
        PushChoice(y, s[0], rest, w, ks[0], ls);
        ls := [ks[0]] + ls;
      } else {
        MetRealises(y, s[0]);
        ReadingIsChosen(x, s[0], ks[0]);
        ls := NameForward(y, s[0], PlainItem(s[0]).entry.name, ks[0], rest, w, ls);
      }
    }
  }

  lemma ReadingIsChosen(x: Rules, item: Item, k: nat)
    requires !item.Plain? && Reading(item, k).Some?
    ensures Chosen(x, item, k) == Reading(item, k).value
    ensures PlainItem(item) == Ref(PlainItem(item).entry.name)
  {
  }

  lemma {:induction false} StoredBackward(x: Rules, y: Rules, s: Form, w: seq<ContextFree.Code>, ks: seq<nat>)
    returns (ls: seq<nat>)
    requires Stores(x, y) && Supported(x, y, s) && Derives(y, PlainForm(s), w, ks)
    ensures Derives(x, s, w, ls)
    decreases |ks|, |s|
  {
    hide Derives, Stores, Supported, ItemMet, Chosen;
    DerivesNothing(x, w, ks);
    DerivesNothing(y, w, ks);
    if s == [] {
      ls := [];
      return;
    }
    Front(x, y, s);
    var t, rest := PlainForm(s), PlainForm(s[1..]);
    assert s == [s[0]] + s[1..] && t[1..] == rest;
    if s[0].Plain? && s[0].entry.Terminal? {
      DerivesStep(y, t, w, ks);
      ls := StoredBackward(x, y, s[1..], if s[0].entry.token.code == ContextFree.EMPTY then w else w[1..], ks);
      DerivesStep(x, s, w, ls);
    } else {
      var k, ms;
      if s[0].Plain? {
        PopChoice(y, s[0], rest, w, ks);
        k, ms := ks[0], ks[1..];
        ChoiceWritten(x, y, s[0].entry.name, k);
      } else {
        MetRealises(y, s[0]);
        ReadingIsChosen(x, s[0], 0);
        k, ms := NameBackward(y, s[0], PlainItem(s[0]).entry.name, rest, w, ks);
        ReadingIsChosen(x, s[0], k);
      }
      var rhs := Chosen(x, s[0], k);
      ChosenSupported(x, y, s[0], k);
      SupportedConcat(x, y, rhs, s[1..]);
      PlainFormAppend(rhs, s[1..]);
      ls := StoredBackward(x, y, rhs + s[1..], w, ms);
      PushChoice(x, s[0], s[1..], w, k, ls);
      ls := [k] + ls;
    }
  }

  lemma ChoiceWritten(x: Rules, y: Rules, a: string, k: nat)
    requires Stores(x, y) && a in x && a in y && k < |y[a]|
    ensures k < |x[a]|
  {
    hide Supported;
  }

  lemma StoresSameLanguage(x: Rules, y: Rules, form: Form, w: seq<ContextFree.Code>)
    requires Stores(x, y) && Supported(x, y, form)
    ensures Generates(x, form, w) <==> Generates(y, PlainForm(form), w)
  {
    hide Derives, Stores, Supported;
    if Generates(x, form, w) {
      var ks :| Derives(x, form, w, ks);
      var ls := StoredForward(x, y, form, w, ks);
    }
    if Generates(y, PlainForm(form), w) {
      var ks :| Derives(y, PlainForm(form), w, ks);
      var ls := StoredBackward(x, y, form, w, ks);
    }
  }

  // ---------- whole texts ----------

  ghost predicate Declared(text: GrammarText, name: string) {
    exists i :: 0 <= i < |text| && text[i].name == name
  }

  /** No synthetic nonterminal has the name of one that is mentioned and not declared. */
  ghost predicate NoStrays(text: GrammarText) {
    forall i, k, j | 0 <= i < |text| && 0 <= k < |text[i].rules| && 0 <= j < |text[i].rules[k]| ::
      IsNoStray(text, text[i].rules[k][j].entry)
  }

  ghost predicate IsNoStray(text: GrammarText, e: Entry) {
    e.Nonterminal? && e.name in Stored(text) ==> Declared(text, e.name)
  }

  lemma {:induction false} FormClaimsHas(form: Form, j: nat)
    requires j < |form|
    ensures forall c :: c in ItemClaims(form[j]) ==> c in FormClaims(form)
  {
    if j < |form| - 1 { FormClaimsHas(form[..|form| - 1], j); }
  }

  lemma {:induction false} FormsClaimsHas(forms: seq<Form>, k: nat)
    requires k < |forms|
    ensures forall c :: c in FormClaims(forms[k]) ==> c in FormsClaims(forms)
  {
    if k < |forms| - 1 { FormsClaimsHas(forms[..|forms| - 1], k); }
  }

  lemma {:induction false} ClaimsHas(text: GrammarText, i: nat)
    requires i < |text|
    ensures forall c :: c in DeclarationClaims(text[i]) ==> c in Claims(text)
  {
    if i < |text| - 1 { ClaimsHas(text[..|text| - 1], i); }
  }

  lemma MetPart(r: Rules, part: seq<Claim>, claims: seq<Claim>)
    requires Met(r, claims) && forall c :: c in part ==> c in claims
    ensures Met(r, part)
  {
    forall i | 0 <= i < |part| ensures part[i].0 in r && r[part[i].0] == part[i].1 {
      assert part[i] in part && part[i] in claims;
    }
  }

  lemma {:induction false} WrittenIs(text: GrammarText)
    ensures forall a :: a in Written(text) <==> Declared(text, a)
    ensures forall a | a in Written(text) ::
              exists i :: 0 <= i < |text| && text[i] == Declaration(a, Written(text)[a])
  {
    if text != [] {
      var last := |text| - 1;
      var before := text[..last];
      WrittenIs(before);
      forall a | a in Written(text) ensures exists i :: 0 <= i < |text| && text[i] == Declaration(a, Written(text)[a]) {
        if a in Written(before) {
          var i :| 0 <= i < |before| && before[i] == Declaration(a, Written(before)[a]);
          assert text[i] == Declaration(a, Written(text)[a]);
        } else {
          assert text[last] == Declaration(a, Written(text)[a]);
        }
      }
      forall i | 0 <= i < |text| ensures text[i].name in Written(text) {
        if i < last { assert before[i] == text[i] && Declared(before, before[i].name); }
      }
    }
  }

  lemma ConsistentStores(text: GrammarText)
    requires Consistent(Claims(text)) && NoStrays(text)
    ensures Stores(Written(text), Stored(text))
  {
    hide Consistent, Claims, Written, FirstWins;
    var x, y := Written(text), Stored(text);
    MetIffConsistent(Claims(text));
    WrittenIs(text);
    forall a | a in x
      ensures a in y && y[a] == PlainForms(x[a]) && forall k :: 0 <= k < |x[a]| ==> Supported(x, y, x[a][k])
    {
      var i :| 0 <= i < |text| && text[i] == Declaration(a, x[a]);
      ClaimsHas(text, i);
      var claims := DeclarationClaims(text[i]);
      MetPart(y, claims, Claims(text));
      assert claims[0] == (a, PlainForms(x[a]));
      forall k | 0 <= k < |x[a]| ensures Supported(x, y, x[a][k]) { RuleSupported(text, y, i, k); }
    }
  }

  lemma RuleSupported(text: GrammarText, y: Rules, i: nat, k: nat)
    requires NoStrays(text) && y == Stored(text) && Met(y, Claims(text)) && i < |text| && k < |text[i].rules|
    ensures Supported(Written(text), y, text[i].rules[k])
  {
    hide Claims, Written, Met;
    WrittenIs(text);
    ClaimsHas(text, i);
    FormsClaimsHas(text[i].rules, k);
    var form := text[i].rules[k];
    forall j | 0 <= j < |form|
      ensures ItemMet(y, form[j]) && Grounded(Written(text), y, form[j].entry)
    {
      FormClaimsHas(form, j);
      MetPart(y, ItemClaims(form[j]), Claims(text));
    }
  }

  /** Reading a grammar keeps its language: what the text says can be derived from a declared nonterminal is what the
      stored grammar derives from it, if no name is claimed for two different things. */
  lemma ReadingKeepsLanguage(text: GrammarText, a: string, w: seq<ContextFree.Code>)
    requires Consistent(Claims(text)) && NoStrays(text) && Declared(text, a)
    ensures Generates(Written(text), [Ref(a)], w) <==> Generates(Stored(text), [Ref(a)], w)
  {
    hide Consistent, Claims, Written, Generates, NoStrays;
    ConsistentStores(text);
    WrittenIs(text);
    var form: Form := [Ref(a)];
    assert Supported(Written(text), Stored(text), form);
    assert PlainForm(form) == form;
    StoresSameLanguage(Written(text), Stored(text), form, w);
  }

  // ---------- the stored grammar is what the analysis works on ----------

  ghost predicate AllPlain(form: Form) {
    forall i :: 0 <= i < |form| ==> form[i].Plain?
  }

  ghost predicate PlainRules(y: Rules) {
    forall a, k :: a in y && 0 <= k < |y[a]| ==> AllPlain(y[a][k])
  }

  function ToSymbol(item: Item): ContextFree.Symbol {
    match item.entry
    case Terminal(t) => ContextFree.T(t.code)
    case Nonterminal(name) => ContextFree.N(name)
  }

  function ToForm(form: Form): (f: ContextFree.Form)
    ensures |f| == |form|
  {
    seq(|form|, i requires 0 <= i < |form| => ToSymbol(form[i]))
  }

  function ToForms(forms: seq<Form>): (f: seq<ContextFree.Form>)
    ensures |f| == |forms|
  {
    seq(|forms|, i requires 0 <= i < |forms| => ToForm(forms[i]))
  }

  /** Stored rules as a context-free grammar. */
  function ToCfg(y: Rules, start: string): ContextFree.Cfg {
    ContextFree.Cfg(map a | a in y :: ToForms(y[a]), start)
  }

  /** Derivations in the stored grammar are those of the context-free grammar. */
  lemma {:induction false} DerivesAsCfg(y: Rules, start: string, form: Form, w: seq<ContextFree.Code>, ks: seq<nat>)
    requires PlainRules(y) && AllPlain(form)
    ensures Derives(y, form, w, ks) <==> ContextFree.Derives(ToCfg(y, start), ToForm(form), w, ks)
    decreases |ks|, |form|
  {
    if form != [] {
      assert ToForm(form)[1..] == ToForm(form[1..]);
      if form[0].entry.Terminal? {
        DerivesAsCfg(y, start, form[1..], w, ks);
        if w != [] { DerivesAsCfg(y, start, form[1..], w[1..], ks); }
      } else {
        var a := form[0].entry.name;
        if ks != [] && a in y && ks[0] < |y[a]| {
          var next := y[a][ks[0]] + form[1..];
          assert ToForm(next) == ToForm(y[a][ks[0]]) + ToForm(form[1..]);
          DerivesAsCfg(y, start, next, w, ks[1..]);
        }
      }
    }
  }

  /** Every claim is for plain rules. */
  ghost predicate ClaimsPlain(claims: seq<Claim>) {
    forall i, k :: 0 <= i < |claims| && 0 <= k < |claims[i].1| ==> AllPlain(claims[i].1[k])
  }

  lemma {:induction false} StoredIsPlain(claims: seq<Claim>)
    requires ClaimsPlain(claims)
    ensures PlainRules(FirstWins(claims))
  {
    if claims != [] { StoredIsPlain(claims[..|claims| - 1]); }
  }

  lemma ClaimsPlainAppend(a: seq<Claim>, b: seq<Claim>)
    requires ClaimsPlain(a) && ClaimsPlain(b)
    ensures ClaimsPlain(a + b)
  {
  }

  lemma ItemClaimsPlain(item: Item)
    ensures ClaimsPlain(ItemClaims(item))
  {
    var claims := ItemClaims(item);
    forall i, k | 0 <= i < |claims| && 0 <= k < |claims[i].1| ensures AllPlain(claims[i].1[k]) {
    }
  }

  lemma {:induction false} FormClaimsPlain(form: Form)
    ensures ClaimsPlain(FormClaims(form))
  {
    if form != [] {
      FormClaimsPlain(form[..|form| - 1]);
      ItemClaimsPlain(form[|form| - 1]);
      ClaimsPlainAppend(FormClaims(form[..|form| - 1]), ItemClaims(form[|form| - 1]));
    }
  }

  lemma {:induction false} FormsClaimsPlain(forms: seq<Form>)
    ensures ClaimsPlain(FormsClaims(forms))
  {
    if forms != [] {
      FormsClaimsPlain(forms[..|forms| - 1]);
      FormClaimsPlain(forms[|forms| - 1]);
      ClaimsPlainAppend(FormsClaims(forms[..|forms| - 1]), FormClaims(forms[|forms| - 1]));
    }
  }

  lemma {:induction false} TextClaimsPlain(text: GrammarText)
    ensures ClaimsPlain(Claims(text))
  {
    if text != [] {
      var d := text[|text| - 1];
      TextClaimsPlain(text[..|text| - 1]);
      FormsClaimsPlain(d.rules);
      assert ClaimsPlain([(d.name, PlainForms(d.rules))]);
      ClaimsPlainAppend([(d.name, PlainForms(d.rules))], FormsClaims(d.rules));
      ClaimsPlainAppend(Claims(text[..|text| - 1]), DeclarationClaims(d));
    }
  }

  /** The token string has a leftmost derivation from the entry point. */
  ghost predicate Accepts(g: ContextFree.Cfg, w: seq<ContextFree.Code>) {
    exists ks: seq<nat> :: ContextFree.Derives(g, [ContextFree.N(g.start)], w, ks)
  }

  lemma StoredAccepts(y: Rules, start: string, w: seq<ContextFree.Code>)
    requires PlainRules(y)
    ensures Generates(y, [Ref(start)], w) <==> Accepts(ToCfg(y, start), w)
  {
    hide PlainRules;
    var form: Form := [Ref(start)];
    assert ToForm(form) == [ContextFree.N(start)] && ToCfg(y, start).start == start;
    if Generates(y, form, w) {
      var ks :| Derives(y, form, w, ks);
      DerivesAsCfg(y, start, form, w, ks);
    }
    if Accepts(ToCfg(y, start), w) {
      var ks :| ContextFree.Derives(ToCfg(y, start), [ContextFree.N(start)], w, ks);
      DerivesAsCfg(y, start, form, w, ks);
    }
  }

  lemma TextPlain(text: GrammarText)
    ensures PlainRules(Stored(text))
  {
    TextClaimsPlain(text);
    StoredIsPlain(Claims(text));
  }

  /** From the text to the analysis: a token string that the text says can be derived from its first
      nonterminal has a leftmost derivation in the grammar that is analysed, and the other way round. */
  lemma ReadGrammarGenerates(text: GrammarText, w: seq<ContextFree.Code>)
    requires text != [] && Consistent(Claims(text)) && NoStrays(text)
    ensures var start := text[0].name;
            Generates(Written(text), [Ref(start)], w) <==> Accepts(ToCfg(Stored(text), start), w)
  {
    hide Consistent, Claims, Written, NoStrays, Stored, PlainRules, Generates, Accepts, ToCfg;
    var start := text[0].name;
    assert Declared(text, start);
    ReadingKeepsLanguage(text, start, w);
    TextPlain(text);
    StoredAccepts(Stored(text), start, w);
  }
}
