/** When the names that a grammar's text claims are consistent, from the text alone: names made with different marks,
    from different entries or for different separators differ, and only what stands for "more" can collide. */
module GrammarNames {
  import opened Wrappers
  import opened TokenCodes
  import opened Ebnf
  import opened GrammarTexts
  import ContextFree

  // ---------- spellings ----------

  predicate IsMark(ch: char) { ch == '?' || ch == '*' || ch == '+' }

  /** Identifiers are such: no mark, and no quote in front. */
  predicate IsName(s: string) {
    s != "" && s[0] != '\'' && forall i :: 0 <= i < |s| ==> !IsMark(s[i])
  }

  /** A name, or a terminal that has no mark right behind a single quote. */
  predicate IsPlainlySpelled(e: Entry) {
    match e
    case Nonterminal(name) => IsName(name)
    case Terminal(Token(_, text)) => forall i :: 0 <= i < |text| - 1 && text[i] == '\'' ==> !IsMark(text[i + 1])
  }

  predicate IsPlainlySpelledItem(item: Item) {
    (item.Plain? && item.entry.Terminal?) || IsPlainlySpelled(item.entry)
  }

  predicate IsRepeated(item: Item) { item.Plus? || item.Star? }

  /** The separator's text and the entry's, one behind the other. */
  function Joined(item: Item): string
    requires IsRepeated(item)
  {
    SepName(item.sep) + item.entry.ToString()
  }

  /** The entry's text, a mark, and the separator's text. */
  function Marked(item: Item, mark: char): string
    requires IsRepeated(item)
  {
    item.entry.ToString() + [mark] + SepName(item.sep)
  }

  ghost predicate Mentions(text: GrammarText, item: Item) {
    exists i, k, j | 0 <= i < |text| && 0 <= k < |text[i].rules| && 0 <= j < |text[i].rules[k]| ::
      text[i].rules[k][j] == item
  }

  /** What the scanners deliver as names and quoted strings is spelled so. */
  ghost predicate PlainlySpelled(text: GrammarText) {
    && (forall d :: d in text ==> IsName(d.name))
    && forall x :: Mentions(text, x) ==> IsPlainlySpelledItem(x)
  }

  // ---------- where claims come from ----------

  datatype Origin =
    | OfDeclaration(declaration: Declaration)
    | OfOptional(item: Item)
    | OfStar(item: Item)
    | OfPlus(item: Item)
    | OfMore(item: Item)
  {
    ghost predicate In(text: GrammarText) {
      match this
      case OfDeclaration(d) => d in text
      case OfOptional(x) => Mentions(text, x) && x.Optional?
      case _ => Mentions(text, item) && IsRepeated(item)
    }

    function Claim(): Claim
      requires !OfDeclaration? ==> if OfOptional? then item.Optional? else IsRepeated(item)
    {
      match this
      case OfDeclaration(d) => (d.name, PlainForms(d.rules))
      case OfOptional(x) => (OptionalName(x.entry), OptionalRules(x.entry))
      case OfStar(x) => (StarName(x.entry, x.sep), StarRules(PlusName(x.entry, x.sep)))
      case OfPlus(x) => (PlusName(x.entry, x.sep), PlusRules(x.entry, MoreName(x.entry, x.sep)))
      case OfMore(x) => (MoreName(x.entry, x.sep), MoreRules(x.sep, PlusName(x.entry, x.sep)))
    }
  }

  lemma {:induction false} FormClaimFrom(form: Form, c: Claim) returns (j: nat)
    requires c in FormClaims(form)
    ensures j < |form| && c in ItemClaims(form[j])
  {
    var last := |form| - 1;
    if c in ItemClaims(form[last]) { j := last; } else { j := FormClaimFrom(form[..last], c); }
  }

  lemma {:induction false} FormsClaimFrom(forms: seq<Form>, c: Claim) returns (k: nat)
    requires c in FormsClaims(forms)
    ensures k < |forms| && c in FormClaims(forms[k])
  {
    var last := |forms| - 1;
    if c in FormClaims(forms[last]) { k := last; } else { k := FormsClaimFrom(forms[..last], c); }
  }

  lemma {:induction false} ClaimFrom(text: GrammarText, c: Claim) returns (i: nat)
    requires c in Claims(text)
    ensures i < |text| && c in DeclarationClaims(text[i])
  {
    var last := |text| - 1;
    if c in DeclarationClaims(text[last]) { i := last; } else { i := ClaimFrom(text[..last], c); }
  }

  lemma OriginOf(text: GrammarText, c: Claim) returns (o: Origin)
    requires c in Claims(text)
    ensures o.In(text) && o.Claim() == c
  {
    var i := ClaimFrom(text, c);
    var d := text[i];
    if c == (d.name, PlainForms(d.rules)) {
      o := OfDeclaration(d);
    } else {
      var k := FormsClaimFrom(d.rules, c);
      var j := FormClaimFrom(d.rules[k], c);
      var x := text[i].rules[k][j];
      assert Mentions(text, x);
      o := if x.Optional? then OfOptional(x)
           else if c == OfStar(x).Claim() then OfStar(x)
           else if c == OfPlus(x).Claim() then OfPlus(x)
           else OfMore(x);
    }
  }

  lemma ClaimIn(text: GrammarText, o: Origin)
    requires o.In(text)
    ensures o.Claim() in Claims(text)
  {
    hide Claims, FormsClaims, FormClaims, PlainForms;
    if o.OfDeclaration? {
      var i :| 0 <= i < |text| && text[i] == o.declaration;
      ClaimsHas(text, i);
      assert o.Claim() == DeclarationClaims(text[i])[0];
    } else {
      var i, k, j :| 0 <= i < |text| && 0 <= k < |text[i].rules| && 0 <= j < |text[i].rules[k]|
                     && text[i].rules[k][j] == o.item;
      ClaimsHas(text, i);
      FormsClaimsHas(text[i].rules, k);
      FormClaimsHas(text[i].rules[k], j);
      assert o.Claim() in ItemClaims(o.item);
    }
  }

  // ---------- a mark is found again ----------

  lemma EntryEnds(e: Entry)
    requires IsPlainlySpelled(e)
    ensures var s := e.ToString();
            s != "" && if e.Terminal? then |s| >= 2 && s[0] == s[|s| - 1] == '\'' else s[0] != '\''
  {
  }

  /** A mark in the text of an entry stands behind no quote but the first. */
  lemma MarkBehind(f: Entry, n: nat)
    requires IsPlainlySpelled(f) && n < |f.ToString()| && IsMark(f.ToString()[n])
    ensures f.Terminal? && n > 0 && (n >= 2 ==> f.ToString()[n - 1] != '\'')
  {
    if f.Terminal? && n >= 2 {
      var t, text := f.ToString(), f.token.text;
      assert t[|t| - 1] == '\'' && text[n - 1] == t[n] && text[n - 2] == t[n - 1];
    }
  }

  /** The text of an entry with a mark behind it is not the beginning of another entry's text. */
  lemma MarkIsNoPart(e: Entry, f: Entry, n: nat)
    requires IsPlainlySpelled(e) && IsPlainlySpelled(f)
    requires n == |e.ToString()| < |f.ToString()| && f.ToString()[..n] == e.ToString()
    ensures !IsMark(f.ToString()[n])
  {
    var s, t := e.ToString(), f.ToString();
    EntryEnds(e);
    EntryEnds(f);
    assert t[0] == s[0] && t[n - 1] == s[n - 1];
    if IsMark(t[n]) { MarkBehind(f, n); }
  }

  /** What is made of an entry and a mark tells both of them, and what is behind the mark. */
  lemma MarkSplits(e: Entry, f: Entry, m: char, n: char, r: string, s: string)
    requires IsPlainlySpelled(e) && IsPlainlySpelled(f) && IsMark(m) && IsMark(n)
    requires e.ToString() + [m] + r == f.ToString() + [n] + s
    ensures e.ToString() == f.ToString() && m == n && r == s
  {
    var x, y, all := e.ToString(), f.ToString(), e.ToString() + [m] + r;
    assert all[..|x|] == x && all[|x|] == m && all[|x| + 1..] == r;
    assert all[..|y|] == y && all[|y|] == n && all[|y| + 1..] == s;
    if |x| < |y| {
      assert y[..|x|] == all[..|y|][..|x|] == x && y[|x|] == all[..|y|][|x|];
      MarkIsNoPart(e, f, |x|);
    } else if |y| < |x| {
      assert x[..|y|] == all[..|x|][..|y|] == y && x[|y|] == all[..|x|][|y|];
      MarkIsNoPart(f, e, |y|);
    }
  }

  lemma MarkedIsNoName(front: string, mark: char, back: string)
    requires IsMark(mark)
    ensures !IsName(front + [mark] + back)
  {
    assert (front + [mark] + back)[|front|] == mark;
  }

  lemma JoinedIsNotOptional(front: string, e: Entry, other: string)
    requires IsPlainlySpelled(e)
    ensures front + e.ToString() != other + "?"
  {
    var s := front + e.ToString();
    assert s[|s| - 1] == e.ToString()[|e.ToString()| - 1];
  }

  // ---------- consistent or not ----------

  /** The rules of "more" as they can be written. */
  function WrittenMore(x: Item): seq<Form>
    requires IsRepeated(x)
  {
    [SepForm(x.sep) + [Plus(x.entry, x.sep)], []]
  }

  /** A nonterminal is declared once, or always with the same rules. */
  ghost predicate DeclaredOnce(text: GrammarText) {
    forall i, j :: 0 <= i < |text| && 0 <= j < |text| && text[i].name == text[j].name ==> text[i].rules == text[j].rules
  }

  /** Optional entries with the same text are the same. */
  ghost predicate OptionalsDiffer(text: GrammarText) {
    forall x, y | Mentions(text, x) && Mentions(text, y) && x.Optional? && y.Optional? ::
      x.entry.ToString() == y.entry.ToString() ==> x == y
  }

  /** No separator's text followed by an entry's makes up a declared name, unless it is declared as what it would stand
      for; no other repetition's separator and entry, and no entry with a mark and a separator. */
  ghost predicate JoinedApart(text: GrammarText, x: Item)
    requires IsRepeated(x)
  {
    && (forall d :: d in text && d.name == Joined(x) ==> d.rules == WrittenMore(x))
    && (forall y | Mentions(text, y) && IsRepeated(y) ::
          && (Joined(x) == Joined(y) ==> x.entry == y.entry && x.sep == y.sep)
          && Joined(x) != Marked(y, '+') && Joined(x) != Marked(y, '*'))
  }

  ghost predicate Unambiguous(text: GrammarText) {
    && DeclaredOnce(text) && OptionalsDiffer(text)
    && forall x :: Mentions(text, x) && IsRepeated(x) ==> JoinedApart(text, x)
  }

  lemma MoreIsPlain(x: Item)
    requires IsRepeated(x)
    ensures PlainForms(WrittenMore(x)) == MoreRules(x.sep, PlusName(x.entry, x.sep))
  {
    var written, plain := WrittenMore(x), MoreRules(x.sep, PlusName(x.entry, x.sep));
    assert PlainForm(written[0]) == plain[0] && PlainForm(written[1]) == plain[1];
  }

  /** The name with a mark that an origin claims. */
  predicate ClaimsMarked(o: Origin) { o.OfOptional? || o.OfStar? || o.OfPlus? }

  function MarkOf(o: Origin): char {
    match o
    case OfOptional(_) => '?'
    case OfStar(_) => '*'
    case _ => '+'
  }

  function BehindMark(o: Origin): string {
    if (o.OfStar? || o.OfPlus?) && IsRepeated(o.item) then SepName(o.item.sep) else ""
  }

  lemma NameIsMarked(text: GrammarText, o: Origin)
    requires PlainlySpelled(text) && o.In(text) && ClaimsMarked(o)
    ensures o.Claim().0 == o.item.entry.ToString() + [MarkOf(o)] + BehindMark(o)
    ensures IsMark(MarkOf(o)) && IsPlainlySpelled(o.item.entry)
  {
    assert IsPlainlySpelledItem(o.item);
    assert "?" == ['?'] && "*" == ['*'] && "+" == ['+'];
  }

  /** Names with marks are the same only if they are made of the same. */
  lemma MarkedAgree(text: GrammarText, o: Origin, p: Origin)
    requires PlainlySpelled(text) && Unambiguous(text)
    requires o.In(text) && p.In(text) && ClaimsMarked(o) && ClaimsMarked(p) && o.Claim().0 == p.Claim().0
    ensures o.Claim().1 == p.Claim().1
  {
    NameIsMarked(text, o);
    NameIsMarked(text, p);
    MarkSplits(o.item.entry, p.item.entry, MarkOf(o), MarkOf(p), BehindMark(o), BehindMark(p));
    if !o.OfOptional? {
      assert Joined(o.item) == Joined(p.item) && JoinedApart(text, o.item);
    }
  }

  lemma MoreAgrees(text: GrammarText, o: Origin, p: Origin)
    requires PlainlySpelled(text) && Unambiguous(text)
    requires o.In(text) && p.In(text) && o.OfMore? && o.Claim().0 == p.Claim().0
    ensures o.Claim().1 == p.Claim().1
  {
    assert JoinedApart(text, o.item) && Joined(o.item) == o.Claim().0;
    match p
    case OfDeclaration(d) => MoreIsPlain(o.item);
    case OfOptional(_) =>
      assert IsPlainlySpelledItem(o.item);
      JoinedIsNotOptional(SepName(o.item.sep), o.item.entry, p.item.entry.ToString());
    case OfMore(_) => assert Joined(p.item) == p.Claim().0;
    case _ => NameIsMarked(text, p);
  }

  lemma DeclarationAgrees(text: GrammarText, o: Origin, p: Origin)
    requires PlainlySpelled(text) && Unambiguous(text)
    requires o.In(text) && p.In(text) && o.OfDeclaration? && !p.OfMore? && o.Claim().0 == p.Claim().0
    ensures o.Claim().1 == p.Claim().1
  {
    if ClaimsMarked(p) {
      NameIsMarked(text, p);
      MarkedIsNoName(p.item.entry.ToString(), MarkOf(p), BehindMark(p));
    }
  }

  lemma OriginsAgree(text: GrammarText, o: Origin, p: Origin)
    requires PlainlySpelled(text) && Unambiguous(text)
    requires o.In(text) && p.In(text) && o.Claim().0 == p.Claim().0
    ensures o.Claim().1 == p.Claim().1
  {
    hide PlainlySpelled, Unambiguous, Origin.In, Origin.Claim;
    if o.OfMore? {
      MoreAgrees(text, o, p);
    } else if p.OfMore? {
      MoreAgrees(text, p, o);
    } else if o.OfDeclaration? {
      DeclarationAgrees(text, o, p);
    } else if p.OfDeclaration? {
      DeclarationAgrees(text, p, o);
    } else {
      MarkedAgree(text, o, p);
    }
  }

  lemma UnambiguousIsConsistent(text: GrammarText)
    requires PlainlySpelled(text) && Unambiguous(text)
    ensures Consistent(Claims(text))
  {
    hide PlainlySpelled, Unambiguous, Claims, Origin.In, Origin.Claim;
    var claims := Claims(text);
    forall i, j | 0 <= i < |claims| && 0 <= j < |claims| && claims[i].0 == claims[j].0
      ensures claims[i].1 == claims[j].1
    {
      var o := OriginOf(text, claims[i]);
      var p := OriginOf(text, claims[j]);
      OriginsAgree(text, o, p);
    }
  }

  // ---------- only then ----------

  lemma ClaimsAgree(text: GrammarText, o: Origin, p: Origin)
    requires Consistent(Claims(text)) && o.In(text) && p.In(text) && o.Claim().0 == p.Claim().0
    ensures o.Claim().1 == p.Claim().1
  {
    hide Claims, Origin.In, Origin.Claim;
    ClaimIn(text, o);
    ClaimIn(text, p);
  }

  lemma OptionalsAgree(text: GrammarText, x: Item, y: Item)
    requires Consistent(Claims(text)) && Mentions(text, x) && Mentions(text, y) && x.Optional? && y.Optional?
    requires x.entry.ToString() == y.entry.ToString()
    ensures x == y
  {
    hide Consistent;
    ClaimsAgree(text, OfOptional(x), OfOptional(y));
    assert OptionalRules(x.entry)[0][0] == OptionalRules(y.entry)[0][0];
  }

  /** The rules of "more" tell the separator and the name that they refer to. */
  lemma MoreRulesTell(s: Option<Token>, p: string, t: Option<Token>, q: string)
    requires MoreRules(s, p) == MoreRules(t, q)
    ensures s == t && p == q
  {
    var a, b := MoreRules(s, p)[0], MoreRules(t, q)[0];
    assert |a| == |b| && a[0] == b[0] && a[|a| - 1] == b[|b| - 1];
    assert a[|a| - 1] == Ref(p) && b[|b| - 1] == Ref(q);
  }

  lemma PlusAgrees(text: GrammarText, x: Item, y: Item)
    requires PlainlySpelled(text) && Consistent(Claims(text))
    requires Mentions(text, x) && Mentions(text, y) && IsRepeated(x) && IsRepeated(y)
    requires PlusName(x.entry, x.sep) == PlusName(y.entry, y.sep)
    ensures x.entry == y.entry && SepName(x.sep) == SepName(y.sep)
  {
    hide Consistent;
    NameIsMarked(text, OfPlus(x));
    NameIsMarked(text, OfPlus(y));
    MarkSplits(x.entry, y.entry, '+', '+', SepName(x.sep), SepName(y.sep));
    ClaimsAgree(text, OfPlus(x), OfPlus(y));
    assert OfPlus(x).Claim().1[0][0] == OfPlus(y).Claim().1[0][0];
  }

  lemma JoinedAgree(text: GrammarText, x: Item, y: Item)
    requires PlainlySpelled(text) && Consistent(Claims(text))
    requires Mentions(text, x) && Mentions(text, y) && IsRepeated(x) && IsRepeated(y) && Joined(x) == Joined(y)
    ensures x.entry == y.entry && x.sep == y.sep
  {
    hide Consistent, PlainlySpelled;
    assert Joined(x) == OfMore(x).Claim().0 && Joined(y) == OfMore(y).Claim().0;
    ClaimsAgree(text, OfMore(x), OfMore(y));
    MoreRulesTell(x.sep, PlusName(x.entry, x.sep), y.sep, PlusName(y.entry, y.sep));
    PlusAgrees(text, x, y);
  }

  lemma JoinedIsNotMarked(text: GrammarText, x: Item, y: Item)
    requires PlainlySpelled(text) && Consistent(Claims(text))
    requires Mentions(text, x) && Mentions(text, y) && IsRepeated(x) && IsRepeated(y)
    ensures Joined(x) != Marked(y, '+') && Joined(x) != Marked(y, '*')
  {
    hide Consistent, PlainlySpelled;
    NameIsMarked(text, OfPlus(y));
    NameIsMarked(text, OfStar(y));
    assert Joined(x) == OfMore(x).Claim().0;
    if Joined(x) == Marked(y, '+') {
      ClaimsAgree(text, OfMore(x), OfPlus(y));
    }
    if Joined(x) == Marked(y, '*') {
      ClaimsAgree(text, OfMore(x), OfStar(y));
      var plus := PlusName(y.entry, y.sep);
      assert SepForm(None) + [Ref(plus)] == [Ref(plus)] && StarRules(plus) == MoreRules(None, plus);
      MoreRulesTell(x.sep, PlusName(x.entry, x.sep), None, plus);
      PlusAgrees(text, x, y);
    }
  }

  lemma PlainItemTells(text: GrammarText, x: Item, y: Item)
    requires PlainlySpelled(text) && Consistent(Claims(text)) && Mentions(text, x) && Mentions(text, y)
    requires PlainItem(x) == PlainItem(y)
    ensures x == y
  {
    hide Consistent, Mentions;
    assert IsPlainlySpelledItem(x) && IsPlainlySpelledItem(y);
    if x.Plain? || y.Plain? {
      NameOrNot(text, x);
      NameOrNot(text, y);
    } else {
      var o, p := RefersTo(x), RefersTo(y);
      NameIsMarked(text, o);
      NameIsMarked(text, p);
      MarkSplits(x.entry, y.entry, MarkOf(o), MarkOf(p), BehindMark(o), BehindMark(p));
      if x.Optional? { OptionalsAgree(text, x, y); } else { JoinedAgree(text, x, y); }
    }
  }

  /** The claim whose name takes the place of an item. */
  function RefersTo(x: Item): Origin {
    if x.Optional? then OfOptional(x) else if x.Star? then OfStar(x) else OfPlus(x)
  }

  lemma NameOrNot(text: GrammarText, x: Item)
    requires PlainlySpelled(text) && Mentions(text, x)
    ensures PlainItem(x).entry.Nonterminal? ==> (IsName(PlainItem(x).entry.name) <==> x.Plain?)
    ensures !x.Plain? ==> PlainItem(x) == Ref(RefersTo(x).Claim().0)
  {
    assert IsPlainlySpelledItem(x);
    if !x.Plain? {
      var o := RefersTo(x);
      NameIsMarked(text, o);
      MarkedIsNoName(x.entry.ToString(), MarkOf(o), BehindMark(o));
    }
  }

  ghost predicate AllMentioned(text: GrammarText, rules: seq<Form>) {
    forall k, j | 0 <= k < |rules| && 0 <= j < |rules[k]| :: Mentions(text, rules[k][j])
  }

  lemma RulesMentioned(text: GrammarText, d: Declaration)
    requires d in text
    ensures AllMentioned(text, d.rules)
  {
    var i :| 0 <= i < |text| && text[i] == d;
    forall k, j | 0 <= k < |d.rules| && 0 <= j < |d.rules[k]| ensures Mentions(text, d.rules[k][j]) {
      assert text[i].rules[k][j] == d.rules[k][j];
    }
  }

  lemma PlainFormsTell(text: GrammarText, a: seq<Form>, b: seq<Form>)
    requires PlainlySpelled(text) && Consistent(Claims(text)) && AllMentioned(text, a) && AllMentioned(text, b)
    requires PlainForms(a) == PlainForms(b)
    ensures a == b
  {
    hide Consistent, Mentions, PlainlySpelled, PlainItem, Claims;
    assert |a| == |PlainForms(a)| == |b|;
    forall k | 0 <= k < |a| ensures a[k] == b[k] {
      assert PlainForm(a[k]) == PlainForms(a)[k] == PlainForms(b)[k] == PlainForm(b[k]);
      assert |a[k]| == |PlainForm(a[k])| == |b[k]|;
      forall j | 0 <= j < |a[k]| ensures a[k][j] == b[k][j] {
        assert PlainItem(a[k][j]) == PlainForm(a[k])[j] == PlainForm(b[k])[j] == PlainItem(b[k][j]);
        PlainItemTells(text, a[k][j], b[k][j]);
      }
    }
  }

  lemma IsWrittenPlus(text: GrammarText, x: Item, y: Item)
    requires PlainlySpelled(text) && Consistent(Claims(text)) && Mentions(text, x) && Mentions(text, y)
    requires IsRepeated(x) && PlainItem(y) == Ref(PlusName(x.entry, x.sep))
    ensures y == Plus(x.entry, x.sep)
  {
    hide Consistent, Mentions, PlainlySpelled, Claims;
    NameIsMarked(text, OfPlus(x));
    MarkedIsNoName(x.entry.ToString(), '+', SepName(x.sep));
    NameOrNot(text, y);
    var p := RefersTo(y);
    NameIsMarked(text, p);
    MarkSplits(x.entry, y.entry, '+', MarkOf(p), SepName(x.sep), BehindMark(p));
    JoinedAgree(text, x, y);
  }

  /** A declaration with the name of a "more" that is claimed consistently is written as what that stands for. */
  lemma IsWrittenMore(text: GrammarText, x: Item, d: Declaration)
    requires PlainlySpelled(text) && Consistent(Claims(text)) && Mentions(text, x)
    requires d in text && IsRepeated(x) && d.name == Joined(x)
    ensures d.rules == WrittenMore(x)
  {
    hide Consistent, Mentions, PlainlySpelled, Claims;
    assert OfMore(x).Claim().0 == Joined(x);
    ClaimsAgree(text, OfDeclaration(d), OfMore(x));
    RulesMentioned(text, d);
    var forms, plain := d.rules, MoreRules(x.sep, PlusName(x.entry, x.sep));
    assert PlainForms(forms) == plain && |forms| == 2;
    assert PlainForm(forms[0]) == plain[0] && PlainForm(forms[1]) == plain[1];
    var last := |forms[0]| - 1;
    assert |forms[0]| == |plain[0]| && PlainItem(forms[0][last]) == plain[0][last] == Ref(PlusName(x.entry, x.sep));
    IsWrittenPlus(text, x, forms[0][last]);
    assert x.sep.Some? ==> PlainItem(forms[0][0]) == plain[0][0];
    assert forms[0] == SepForm(x.sep) + [Plus(x.entry, x.sep)];
  }

  lemma ConsistentIsUnambiguous(text: GrammarText)
    requires PlainlySpelled(text) && Consistent(Claims(text))
    ensures Unambiguous(text)
  {
    hide Consistent, Mentions, PlainlySpelled, Claims;
    forall i, j | 0 <= i < |text| && 0 <= j < |text| && text[i].name == text[j].name
      ensures text[i].rules == text[j].rules
    {
      ClaimsAgree(text, OfDeclaration(text[i]), OfDeclaration(text[j]));
      RulesMentioned(text, text[i]);
      RulesMentioned(text, text[j]);
      PlainFormsTell(text, text[i].rules, text[j].rules);
    }
    forall x, y | Mentions(text, x) && Mentions(text, y) && x.Optional? && y.Optional?
      ensures x.entry.ToString() == y.entry.ToString() ==> x == y
    {
      if x.entry.ToString() == y.entry.ToString() { OptionalsAgree(text, x, y); }
    }
    forall x | Mentions(text, x) && IsRepeated(x) ensures JoinedApart(text, x) { JoinedApartThen(text, x); }
  }

  lemma JoinedApartThen(text: GrammarText, x: Item)
    requires PlainlySpelled(text) && Consistent(Claims(text)) && Mentions(text, x) && IsRepeated(x)
    ensures JoinedApart(text, x)
  {
    hide Consistent, Mentions, PlainlySpelled, Claims, Joined, Marked;
    forall d | d in text && d.name == Joined(x) ensures d.rules == WrittenMore(x) { IsWrittenMore(text, x, d); }
    forall y | Mentions(text, y) && IsRepeated(y)
      ensures Joined(x) == Joined(y) ==> x.entry == y.entry && x.sep == y.sep
      ensures Joined(x) != Marked(y, '+') && Joined(x) != Marked(y, '*')
    {
      JoinedIsNotMarked(text, x, y);
      if Joined(x) == Joined(y) { JoinedAgree(text, x, y); }
    }
  }

  /** What a text claims is consistent if and only if the text is unambiguous. */
  lemma ConsistentIff(text: GrammarText)
    requires PlainlySpelled(text)
    ensures Consistent(Claims(text)) <==> Unambiguous(text)
  {
    if Unambiguous(text) { UnambiguousIsConsistent(text); }
    if Consistent(Claims(text)) { ConsistentIsUnambiguous(text); }
  }

  // ---------- the language is kept ----------

  /** Everything that is mentioned is declared. */
  ghost predicate AllDeclared(text: GrammarText) {
    forall x :: Mentions(text, x) && x.entry.Nonterminal? ==> Declared(text, x.entry.name)
  }

  lemma NoneStrays(text: GrammarText)
    requires AllDeclared(text)
    ensures NoStrays(text)
  {
    hide Declared, Stored;
    forall i, k, j | 0 <= i < |text| && 0 <= k < |text[i].rules| && 0 <= j < |text[i].rules[k]|
      ensures IsNoStray(text, text[i].rules[k][j].entry)
    {
      assert Mentions(text, text[i].rules[k][j]);
    }
  }

  /** Reading an unambiguous text that declares what it mentions keeps its language. */
  lemma UnambiguousKeepsLanguage(text: GrammarText, a: string, w: seq<ContextFree.Code>)
    requires PlainlySpelled(text) && Unambiguous(text) && AllDeclared(text) && Declared(text, a)
    ensures Generates(Written(text), [Ref(a)], w) <==> Generates(Stored(text), [Ref(a)], w)
  {
    hide PlainlySpelled, Unambiguous, AllDeclared, Declared, Consistent, Generates, Written, Stored, NoStrays;
    UnambiguousIsConsistent(text);
    NoneStrays(text);
    ReadingKeepsLanguage(text, a, w);
  }

  // ---------- the ordinary case ----------

  predicate IsWordChar(ch: char) {
    'a' <= ch <= 'z' || 'A' <= ch <= 'Z' || '0' <= ch <= '9' || ch == '_'
  }

  predicate IsWord(s: string) {
    s != "" && forall i :: 0 <= i < |s| ==> IsWordChar(s[i])
  }

  /** No separator, or a single-quoted character that belongs to no word. */
  predicate IsPunctuation(sep: Option<Token>) {
    sep.Some? ==> |sep.value.text| == 1 && !IsWordChar(sep.value.text[0]) && sep.value.text != "'"
  }

  predicate IsOrdinary(x: Item) {
    && (if x.entry.Nonterminal? then IsWord(x.entry.name) else IsPlainlySpelledItem(x))
    && (IsRepeated(x) ==> IsPunctuation(x.sep))
  }

  /** Names are words, and separators are punctuation. */
  ghost predicate Ordinary(text: GrammarText) {
    (forall d :: d in text ==> IsWord(d.name)) && forall x :: Mentions(text, x) ==> IsOrdinary(x)
  }

  /** What is modified is the same if it has the same text, and so is what separates. */
  ghost predicate SameTextSameToken(text: GrammarText) {
    forall x, y | Mentions(text, x) && Mentions(text, y) && !x.Plain? && !y.Plain? ::
      && (x.entry.ToString() == y.entry.ToString() ==> x.entry == y.entry)
      && (IsRepeated(x) && IsRepeated(y) && SepName(x.sep) == SepName(y.sep) ==> x.sep == y.sep)
  }

  lemma OrdinaryEntry(x: Item)
    requires IsOrdinary(x) && !x.Plain?
    ensures var s := x.entry.ToString();
            && s != "" && (s[0] == '\'' || IsWordChar(s[0]))
            && forall t :: s != "None]" + t
  {
    if x.entry.Nonterminal? {
      forall t ensures x.entry.name != "None]" + t { assert ("None]" + t)[4] == ']'; }
    }
  }

  lemma NoneIsNoOther(sep: string, s: string, t: string)
    requires s != "None]" + t
    ensures |sep| == 1 ==> sep + s != "[None]" + t
  {
    if |sep| == 1 {
      assert (sep + s)[1..] == s && ("[None]" + t)[1..] == "None]" + t;
    }
  }

  lemma JoinedTells(x: Item, y: Item)
    requires IsOrdinary(x) && IsOrdinary(y) && IsRepeated(x) && IsRepeated(y) && Joined(x) == Joined(y)
    ensures x.entry.ToString() == y.entry.ToString() && SepName(x.sep) == SepName(y.sep)
  {
    var s, t := x.entry.ToString(), y.entry.ToString();
    OrdinaryEntry(x);
    OrdinaryEntry(y);
    var m, n := |SepName(x.sep)|, |SepName(y.sep)|;
    assert Joined(x)[..m] == SepName(x.sep) && Joined(x)[m..] == s;
    assert Joined(y)[..n] == SepName(y.sep) && Joined(y)[n..] == t;
    NoneIsNoOther(SepName(x.sep), s, t);
    NoneIsNoOther(SepName(y.sep), t, s);
  }

  lemma JoinedStarts(x: Item)
    requires IsOrdinary(x) && IsRepeated(x)
    ensures Joined(x) != "" && !IsWordChar(Joined(x)[0]) && Joined(x)[0] != '\''
  {
  }

  lemma MarkedStarts(y: Item, mark: char)
    requires IsOrdinary(y) && IsRepeated(y)
    ensures Marked(y, mark) != "" && (IsWordChar(Marked(y, mark)[0]) || Marked(y, mark)[0] == '\'')
  {
    OrdinaryEntry(y);
  }

  lemma WordIsName(s: string)
    ensures IsWord(s) ==> IsName(s) && s != "" && IsWordChar(s[0])
  {
  }

  /** With punctuation for separators, nonterminals whose names are words never collide with those that modifiers make,
      nor do these with each other. */
  lemma OrdinaryIsUnambiguous(text: GrammarText)
    requires Ordinary(text) && DeclaredOnce(text) && SameTextSameToken(text)
    ensures PlainlySpelled(text) && Unambiguous(text)
  {
    hide Mentions, Joined, Marked, IsWord, IsName, DeclaredOnce, IsPlainlySpelledItem;
    forall d | d in text ensures IsName(d.name) && d.name != "" && IsWordChar(d.name[0]) { WordIsName(d.name); }
    forall x | Mentions(text, x) ensures IsPlainlySpelledItem(x) { OrdinaryIsPlain(x); }
    forall x | Mentions(text, x) && IsRepeated(x) ensures JoinedApart(text, x) {
      JoinedStarts(x);
      forall y | Mentions(text, y) && IsRepeated(y)
        ensures Joined(x) == Joined(y) ==> x.entry == y.entry && x.sep == y.sep
        ensures Joined(x) != Marked(y, '+') && Joined(x) != Marked(y, '*')
      {
        MarkedStarts(y, '+');
        MarkedStarts(y, '*');
        if Joined(x) == Joined(y) { JoinedTells(x, y); }
      }
    }
  }

  lemma OrdinaryIsPlain(x: Item)
    ensures IsOrdinary(x) ==> IsPlainlySpelledItem(x)
  {
    if x.entry.Nonterminal? { WordIsName(x.entry.name); }
  }

  // ---------- an instance ----------

  const A := Nonterminal("A")
  const B := Nonterminal("B")
  const X := Token(300, "x")
  const Y := Token(301, "y")

  /** `S := A+,"x" B A+,"y" ; A := "a" ; B := "b" ;` */
  function TwoSeparators(): GrammarText {
    [Declaration("S", [[Plus(A, Some(X)), Plain(B), Plus(A, Some(Y))]]),
     Declaration("A", [[Plain(Terminal(Token(302, "a")))]]),
     Declaration("B", [[Plain(Terminal(Token(303, "b")))]])]
  }

  lemma TwoSeparatorsMentions(x: Item)
    ensures Mentions(TwoSeparators(), x) ==>
              || x == Plus(A, Some(X)) || x == Plus(A, Some(Y)) || x == Plain(B)
              || (x.Plain? && x.entry.Terminal?)
  {
    hide Entry.ToString;
  }

  lemma TwoSeparatorsTexts()
    ensures forall x | x == Plus(A, Some(X)) || x == Plus(A, Some(Y)) ::
              Joined(x) !in {"S", "A", "B"} && forall y | y == Plus(A, Some(X)) || y == Plus(A, Some(Y)) ::
                Joined(x) != Marked(y, '+') && Joined(x) != Marked(y, '*') && (Joined(x) == Joined(y) ==> x == y)
  {
    assert Joined(Plus(A, Some(X))) == "xA" && Joined(Plus(A, Some(Y))) == "yA";
    assert forall m: char :: Marked(Plus(A, Some(X)), m)[0] == 'A' && Marked(Plus(A, Some(Y)), m)[0] == 'A';
  }

  lemma TwoSeparatorsSpelled()
    ensures PlainlySpelled(TwoSeparators()) && AllDeclared(TwoSeparators())
  {
    hide Mentions;
    var text := TwoSeparators();
    forall x { TwoSeparatorsMentions(x); }
    assert text[1].name == "A" && text[2].name == "B" && Declared(text, "A") && Declared(text, "B");
  }

  lemma TwoSeparatorsUnambiguous()
    ensures Unambiguous(TwoSeparators())
  {
    hide Mentions, Joined, Marked;
    var text := TwoSeparators();
    forall x { TwoSeparatorsMentions(x); }
    TwoSeparatorsTexts();
    assert forall d :: d in text ==> d.name in {"S", "A", "B"};
    assert DeclaredOnce(text) && OptionalsDiffer(text);
    hide DeclaredOnce, OptionalsDiffer;
  }

  /** The two repetitions stay apart: the stored grammar generates what the text says. */
  lemma TwoSeparatorsKept(w: seq<ContextFree.Code>)
    ensures Generates(Written(TwoSeparators()), [Ref("S")], w) <==> Generates(Stored(TwoSeparators()), [Ref("S")], w)
  {
    TwoSeparatorsSpelled();
    TwoSeparatorsUnambiguous();
    hide PlainlySpelled, Unambiguous, AllDeclared, Generates, Written, Stored;
    assert TwoSeparators()[0].name == "S" && Declared(TwoSeparators(), "S");
    UnambiguousKeepsLanguage(TwoSeparators(), "S", w);
  }
}
