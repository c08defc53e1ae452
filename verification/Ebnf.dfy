/** EBNF modifiers and what they mean: the synthetic nonterminals that stand for `entry?`, `entry*`, `entry+`
    and their forms with a separator generate exactly the readings of the modified entry. */
module Ebnf {
  import opened Wrappers
  import opened TokenCodes
  import opened ContextFree

  datatype Entry = Terminal(token: Token) | Nonterminal(name: string) {
    /** The text of an entry, from which synthetic names are made. */
    function ToString(): string {
      match this
      case Terminal(token) => "'" + token.text + "'"
      case Nonterminal(name) => name
    }
  }

  /** An entry as it is written in a grammar: plain or with a modifier. */
  datatype Item =
    | Plain(entry: Entry)
    | Optional(entry: Entry)
    | Plus(entry: Entry, sep: Option<Token>)
    | Star(entry: Entry, sep: Option<Token>)

  type Form = seq<Item>
  type Rules = map<string, seq<Form>>

  function SepForm(sep: Option<Token>): Form {
    if sep.Some? then [Plain(Terminal(sep.value))] else []
  }

  /** One entry and `n` more, each behind a separator. */
  function Repeat(e: Entry, sep: Option<Token>, n: nat): Form {
    if n == 0 then [Plain(e)] else [Plain(e)] + SepForm(sep) + Repeat(e, sep, n - 1)
  }

  /** What a modified entry means: a choice between the forms it stands for. */
  function Reading(item: Item, k: nat): Option<Form>
    requires !item.Plain?
  {
    match item
    case Optional(e) => if k == 0 then Some([Plain(e)]) else if k == 1 then Some([]) else None
    case Plus(e, sep) => Some(Repeat(e, sep, k))
    case Star(e, sep) => if k == 0 then Some([]) else Some(Repeat(e, sep, k - 1))
  }

  /** The leftmost derivation that makes the choices `ks` turns `form` into the tokens `w`. */
  ghost predicate Derives(x: Rules, form: Form, w: seq<Code>, ks: seq<nat>)
    decreases |ks|, |form|
  {
    if form == [] then w == [] && ks == []
    else match form[0]
      case Plain(Terminal(t)) =>
        if t.code == EMPTY then Derives(x, form[1..], w, ks)
        else w != [] && w[0] == t.code && Derives(x, form[1..], w[1..], ks)
      case Plain(Nonterminal(a)) =>
        && ks != [] && a in x && ks[0] < |x[a]|
        && Derives(x, x[a][ks[0]] + form[1..], w, ks[1..])
      case _ =>
        && ks != [] && Reading(form[0], ks[0]).Some?
        && Derives(x, Reading(form[0], ks[0]).value + form[1..], w, ks[1..])
  }

  ghost predicate Generates(x: Rules, form: Form, w: seq<Code>) {
    exists ks :: Derives(x, form, w, ks)
  }

  /** One step of a derivation. */
  lemma DerivesStep(x: Rules, form: Form, w: seq<Code>, ks: seq<nat>)
    requires form != []
    ensures Derives(x, form, w, ks) <==>
            if form[0].Plain? && form[0].entry.Terminal? then
              if form[0].entry.token.code == EMPTY then Derives(x, form[1..], w, ks)
              else w != [] && w[0] == form[0].entry.token.code && Derives(x, form[1..], w[1..], ks)
            else if form[0].Plain? then
              && ks != [] && form[0].entry.name in x && ks[0] < |x[form[0].entry.name]|
              && Derives(x, x[form[0].entry.name][ks[0]] + form[1..], w, ks[1..])
            else
              && ks != [] && Reading(form[0], ks[0]).Some?
              && Derives(x, Reading(form[0], ks[0]).value + form[1..], w, ks[1..])
  {
  }

  lemma DerivesNothing(x: Rules, w: seq<Code>, ks: seq<nat>)
    ensures Derives(x, [], w, ks) <==> w == [] && ks == []
  {
  }

  lemma {:induction false} DerivesAppend(x: Rules, a: Form, b: Form, v: seq<Code>, w: seq<Code>, ks: seq<nat>,
                                         ls: seq<nat>)
    requires Derives(x, a, v, ks) && Derives(x, b, w, ls)
    ensures Derives(x, a + b, v + w, ks + ls)
    decreases |ks|, |a|
  {
    hide Derives, Reading;
    if a == [] {
      DerivesNothing(x, v, ks);
      assert a + b == b && v + w == w && ks + ls == ls;
    } else {
      DerivesStep(x, a, v, ks);
      DerivesStep(x, a + b, v + w, ks + ls);
      assert (a + b)[1..] == a[1..] + b;
      if a[0].Plain? && a[0].entry.Terminal? {
        if a[0].entry.token.code == EMPTY {
          DerivesAppend(x, a[1..], b, v, w, ks, ls);
        } else {
          DerivesAppend(x, a[1..], b, v[1..], w, ks, ls);
          assert (v + w)[1..] == v[1..] + w;
        }
      } else {
        var rhs := Chosen(x, a[0], ks[0]);
        DerivesAppend(x, rhs + a[1..], b, v, w, ks[1..], ls);
        assert (ks + ls)[1..] == ks[1..] + ls;
        assert rhs + (a + b)[1..] == rhs + a[1..] + b;
      }
    }
  }

  /** What choice `k` puts in the place of an item that is not a terminal. */
  ghost function Chosen(x: Rules, item: Item, k: nat): Form
    requires item.Plain? ==> item.entry.Nonterminal? && item.entry.name in x && k < |x[item.entry.name]|
    requires !item.Plain? ==> Reading(item, k).Some?
  {
    if item.Plain? then x[item.entry.name][k] else Reading(item, k).value
  }

  /** The part of a derivation of `a + b` that comes from `a` uses the first `i` tokens and `j` choices. */
  lemma {:induction false} DerivesSplit(x: Rules, a: Form, b: Form, w: seq<Code>, ks: seq<nat>)
    returns (i: nat, j: nat)
    requires Derives(x, a + b, w, ks)
    ensures i <= |w| && j <= |ks| && Derives(x, a, w[..i], ks[..j]) && Derives(x, b, w[i..], ks[j..])
    decreases |ks|, |a|
  {
    if a == [] {
      i, j := 0, 0;
      assert a + b == b && w[0..] == w && ks[0..] == ks;
    } else {
      assert (a + b)[1..] == a[1..] + b;
      if a[0].Plain? && a[0].entry.Terminal? {
        if a[0].entry.token.code == EMPTY {
          i, j := DerivesSplit(x, a[1..], b, w, ks);
        } else {
          var i', j' := DerivesSplit(x, a[1..], b, w[1..], ks);
          i, j := i' + 1, j';
          assert w[..i][1..] == w[1..][..i'] && w[i..] == w[1..][i'..];
        }
      } else {
        var rhs := Chosen(x, a[0], ks[0]);
        assert rhs + (a + b)[1..] == rhs + a[1..] + b;
        var i', j' := DerivesSplit(x, rhs + a[1..], b, w, ks[1..]);
        i, j := i', j' + 1;
        assert ks[..j][1..] == ks[1..][..j'] && ks[j..] == ks[1..][j'..];
      }
    }
  }

  // ---------- synthetic nonterminals ----------

  function Ref(name: string): Item { Plain(Nonterminal(name)) }

  function OptionalRules(e: Entry): seq<Form> { [[Plain(e)], []] }
  function StarRules(plus: string): seq<Form> { [[Ref(plus)], []] }
  function PlusRules(e: Entry, more: string): seq<Form> { [[Plain(e), Ref(more)]] }
  function MoreRules(sep: Option<Token>, plus: string): seq<Form> { [SepForm(sep) + [Ref(plus)], []] }

  /** `plus` and `more` have the rules built for a repetition. */
  ghost predicate RepeatsAt(y: Rules, e: Entry, sep: Option<Token>, plus: string, more: string) {
    plus in y && more in y && y[plus] == PlusRules(e, more) && y[more] == MoreRules(sep, plus)
  }

  lemma PushChoice(x: Rules, item: Item, rest: Form, w: seq<Code>, k: nat, ks: seq<nat>)
    requires item.Plain? ==> item.entry.Nonterminal? && item.entry.name in x && k < |x[item.entry.name]|
    requires !item.Plain? ==> Reading(item, k).Some?
    requires Derives(x, Chosen(x, item, k) + rest, w, ks)
    ensures Derives(x, [item] + rest, w, [k] + ks)
  {
    assert ([item] + rest)[1..] == rest && ([k] + ks)[1..] == ks;
  }

  lemma PopChoice(x: Rules, item: Item, rest: Form, w: seq<Code>, ks: seq<nat>)
    requires Derives(x, [item] + rest, w, ks) && !(item.Plain? && item.entry.Terminal?)
    ensures ks != [] && (item.Plain? ==> item.entry.name in x && ks[0] < |x[item.entry.name]|)
    ensures !item.Plain? ==> Reading(item, ks[0]).Some?
    ensures Derives(x, Chosen(x, item, ks[0]) + rest, w, ks[1..])
  {
    assert ([item] + rest)[1..] == rest;
  }

  lemma PlusOnce(y: Rules, e: Entry, sep: Option<Token>, plus: string, more: string, rest: Form, w: seq<Code>,
                 ks: seq<nat>)
    requires RepeatsAt(y, e, sep, plus, more) && Derives(y, [Plain(e)] + ([Ref(more)] + rest), w, ks)
    ensures Derives(y, [Ref(plus)] + rest, w, [0] + ks)
  {
    assert y[plus][0] + rest == [Plain(e)] + ([Ref(more)] + rest);
    PushChoice(y, Ref(plus), rest, w, 0, ks);
  }

  lemma MoreStop(y: Rules, e: Entry, sep: Option<Token>, plus: string, more: string, rest: Form, w: seq<Code>,
                 ks: seq<nat>)
    requires RepeatsAt(y, e, sep, plus, more) && Derives(y, rest, w, ks)
    ensures Derives(y, [Ref(more)] + rest, w, [1] + ks)
  {
    assert y[more][1] + rest == rest;
    PushChoice(y, Ref(more), rest, w, 1, ks);
  }

  lemma MoreAgain(y: Rules, e: Entry, sep: Option<Token>, plus: string, more: string, rest: Form, w: seq<Code>,
                  ks: seq<nat>)
    requires RepeatsAt(y, e, sep, plus, more) && Derives(y, SepForm(sep) + ([Ref(plus)] + rest), w, ks)
    ensures Derives(y, [Ref(more)] + rest, w, [0] + ks)
  {
    assert y[more][0] + rest == SepForm(sep) + ([Ref(plus)] + rest);
    PushChoice(y, Ref(more), rest, w, 0, ks);
  }

  /** Any number of repetitions can be derived from the synthetic nonterminal. */
  lemma {:induction false} RepeatForward(y: Rules, e: Entry, sep: Option<Token>, plus: string, more: string, n: nat,
                                         rest: Form, w: seq<Code>, ks: seq<nat>) returns (ls: seq<nat>)
    requires RepeatsAt(y, e, sep, plus, more) && Derives(y, Repeat(e, sep, n) + rest, w, ks)
    ensures Derives(y, [Ref(plus)] + rest, w, ls)
    decreases n
  {
    hide Derives, RepeatsAt;
    var one, s := [Plain(e)], SepForm(sep);
    var tail := if n == 0 then rest else s + (Repeat(e, sep, n - 1) + rest);
    assert Repeat(e, sep, n) + rest == one + tail;
    var i, j := DerivesSplit(y, one, tail, w, ks);
    var v, ms := w[i..], ks[j..];
    if n == 0 {
      MoreStop(y, e, sep, plus, more, rest, v, ms);
      ms := [1] + ms;
    } else {
      var i', j' := DerivesSplit(y, s, Repeat(e, sep, n - 1) + rest, v, ms);
      var again := RepeatForward(y, e, sep, plus, more, n - 1, rest, v[i'..], ms[j'..]);
      DerivesAppend(y, s, [Ref(plus)] + rest, v[..i'], v[i'..], ms[..j'], again);
      assert v[..i'] + v[i'..] == v;
      MoreAgain(y, e, sep, plus, more, rest, v, ms[..j'] + again);
      ms := [0] + (ms[..j'] + again);
    }
    DerivesAppend(y, one, [Ref(more)] + rest, w[..i], v, ks[..j], ms);
    assert w[..i] + v == w;
    PlusOnce(y, e, sep, plus, more, rest, w, ks[..j] + ms);
    ls := [0] + (ks[..j] + ms);
  }

  lemma PlusOpens(y: Rules, e: Entry, sep: Option<Token>, plus: string, more: string, rest: Form, w: seq<Code>,
                  ks: seq<nat>)
    requires RepeatsAt(y, e, sep, plus, more) && Derives(y, [Ref(plus)] + rest, w, ks)
    ensures ks != [] && Derives(y, [Plain(e)] + ([Ref(more)] + rest), w, ks[1..])
  {
    PopChoice(y, Ref(plus), rest, w, ks);
    assert y[plus][0] + rest == [Plain(e)] + ([Ref(more)] + rest);
  }

  lemma MoreOpens(y: Rules, e: Entry, sep: Option<Token>, plus: string, more: string, rest: Form, w: seq<Code>,
                  ks: seq<nat>)
    requires RepeatsAt(y, e, sep, plus, more) && Derives(y, [Ref(more)] + rest, w, ks)
    ensures ks != []
    ensures Derives(y, rest, w, ks[1..]) || Derives(y, SepForm(sep) + ([Ref(plus)] + rest), w, ks[1..])
  {
    hide Derives;
    PopChoice(y, Ref(more), rest, w, ks);
    assert y[more][1] + rest == rest;
    assert y[more][0] + rest == SepForm(sep) + ([Ref(plus)] + rest);
  }

  lemma RepeatOnce(e: Entry, sep: Option<Token>, rest: Form)
    ensures Repeat(e, sep, 0) + rest == [Plain(e)] + rest
  {
  }

  lemma RepeatOnceMore(e: Entry, sep: Option<Token>, n: nat, rest: Form)
    ensures Repeat(e, sep, n + 1) + rest == [Plain(e)] + (SepForm(sep) + (Repeat(e, sep, n) + rest))
  {
  }

  /** A derivation from the synthetic nonterminal repeats the entry some number of times, and spends
      choices on the synthetic rules. */
  lemma {:induction false} RepeatBackward(y: Rules, e: Entry, sep: Option<Token>, plus: string, more: string,
                                          rest: Form, w: seq<Code>, ks: seq<nat>) returns (n: nat, ls: seq<nat>)
    requires RepeatsAt(y, e, sep, plus, more) && Derives(y, [Ref(plus)] + rest, w, ks)
    ensures Derives(y, Repeat(e, sep, n) + rest, w, ls) && |ls| < |ks|
    decreases |ks|
  {
    hide Derives, RepeatsAt, Repeat, SepForm;
    RepeatOnce(e, sep, rest);
    var one, s := [Plain(e)], SepForm(sep);
    PlusOpens(y, e, sep, plus, more, rest, w, ks);
    var i, j := DerivesSplit(y, one, [Ref(more)] + rest, w, ks[1..]);
    var v, ms := w[i..], ks[1..][j..];
    MoreOpens(y, e, sep, plus, more, rest, v, ms);
    var tail := rest;
    n, ls := 0, ms[1..];
    if !Derives(y, rest, v, ms[1..]) {
      var i', j' := DerivesSplit(y, s, [Ref(plus)] + rest, v, ms[1..]);
      n, ls := RepeatBackward(y, e, sep, plus, more, rest, v[i'..], ms[1..][j'..]);
      tail := s + (Repeat(e, sep, n) + rest);
      DerivesAppend(y, s, Repeat(e, sep, n) + rest, v[..i'], v[i'..], ms[1..][..j'], ls);
      assert v[..i'] + v[i'..] == v;
      RepeatOnceMore(e, sep, n, rest);
      n, ls := n + 1, ms[1..][..j'] + ls;
    }
    DerivesAppend(y, one, tail, w[..i], v, ks[1..][..j], ls);
    assert Repeat(e, sep, n) + rest == one + tail;
    assert w[..i] + v == w;
    ls := ks[1..][..j] + ls;
  }

  /** The nonterminal `name` of `y` has the rules that are built for `item`. */
  ghost predicate Realises(y: Rules, item: Item, name: string) {
    match item
    case Plain(_) => false
    case Optional(e) => name in y && y[name] == OptionalRules(e)
    case Plus(e, sep) => exists more :: RepeatsAt(y, e, sep, name, more)
    case Star(e, sep) =>
      exists plus, more :: name in y && y[name] == StarRules(plus) && RepeatsAt(y, e, sep, plus, more)
  }

  /** Each reading of the modified entry can be derived from the synthetic nonterminal. */
  lemma NameForward(y: Rules, item: Item, name: string, k: nat, rest: Form, w: seq<Code>, ks: seq<nat>)
    returns (ls: seq<nat>)
    requires Realises(y, item, name) && Reading(item, k).Some? && Derives(y, Reading(item, k).value + rest, w, ks)
    ensures Derives(y, [Ref(name)] + rest, w, ls)
  {
    hide Derives, RepeatsAt;
    match item
    case Optional(e) =>
      assert y[name][k] == Reading(item, k).value;
      PushChoice(y, Ref(name), rest, w, k, ks);
      ls := [k] + ks;
    case Plus(e, sep) =>
      var more :| RepeatsAt(y, e, sep, name, more);
      ls := RepeatForward(y, e, sep, name, more, k, rest, w, ks);
    case Star(e, sep) =>
      var plus, more :| y[name] == StarRules(plus) && RepeatsAt(y, e, sep, plus, more);
      if k == 0 {
        assert y[name][1] == [];
        PushChoice(y, Ref(name), rest, w, 1, ks);
        ls := [1] + ks;
      } else {
        ls := RepeatForward(y, e, sep, plus, more, k - 1, rest, w, ks);
        assert y[name][0] == [Ref(plus)];
        PushChoice(y, Ref(name), rest, w, 0, ls);
        ls := [0] + ls;
      }
  }

  /** Whatever is derived from the synthetic nonterminal is derived from some reading of the modified entry. */
  lemma NameBackward(y: Rules, item: Item, name: string, rest: Form, w: seq<Code>, ks: seq<nat>)
    returns (k: nat, ls: seq<nat>)
    requires Realises(y, item, name) && Derives(y, [Ref(name)] + rest, w, ks)
    ensures Reading(item, k).Some? && Derives(y, Reading(item, k).value + rest, w, ls) && |ls| < |ks|
  {
    hide Derives, RepeatsAt;
    match item
    case Optional(e) =>
      PopChoice(y, Ref(name), rest, w, ks);
      k, ls := ks[0], ks[1..];
      assert y[name][k] == Reading(item, k).value;
    case Plus(e, sep) =>
      var more :| RepeatsAt(y, e, sep, name, more);
      k, ls := RepeatBackward(y, e, sep, name, more, rest, w, ks);
    case Star(e, sep) =>
      var plus, more :| y[name] == StarRules(plus) && RepeatsAt(y, e, sep, plus, more);
      PopChoice(y, Ref(name), rest, w, ks);
      if ks[0] == 1 {
        k, ls := 0, ks[1..];
      } else {
        assert y[name][0] == [Ref(plus)];
        k, ls := RepeatBackward(y, e, sep, plus, more, rest, w, ks[1..]);
        k := k + 1;
      }
  }

  /** A synthetic nonterminal generates exactly what the readings of the modified entry generate. */
  lemma SyntheticLanguage(y: Rules, item: Item, name: string, w: seq<Code>)
    requires Realises(y, item, name)
    ensures Generates(y, [Ref(name)], w)
            <==> exists k: nat :: Reading(item, k).Some? && Generates(y, Reading(item, k).value, w)
  {
    assert forall f: Form :: f + [] == f;
    if Generates(y, [Ref(name)], w) {
      var ks :| Derives(y, [Ref(name)], w, ks);
      var k, ls := NameBackward(y, item, name, [], w, ks);
      assert Generates(y, Reading(item, k).value, w);
    }
    if k: nat :| Reading(item, k).Some? && Generates(y, Reading(item, k).value, w) {
      var ks :| Derives(y, Reading(item, k).value, w, ks);
      var ls := NameForward(y, item, name, k, [], w, ks);
    }
  }
}
