/** Exactly when the tables of a grammar that passes the LL(1) check drive all its derivations: what the
    check leaves out, FIRST against FOLLOW, is necessary as well. */
module LL1Exact {
  import opened Wrappers
  import opened ContextFree
  import opened Follow
  import opened LL1
  import opened FollowTextbook

  // ---------- putting derivations together ----------

  lemma {:induction false} DerivesAppend(g: Cfg, a: Form, b: Form, v: seq<Code>, w: seq<Code>, ks: seq<nat>,
                                         ls: seq<nat>)
    requires Derives(g, a, v, ks) && Derives(g, b, w, ls)
    ensures Derives(g, a + b, v + w, ks + ls)
    decreases |ks|, |a|
  {
    if a == [] {
      assert a + b == b && v + w == w && ks + ls == ls;
    } else {
      assert (a + b)[1..] == a[1..] + b;
      match a[0]
      case T(x) =>
        if x == EMPTY {
          DerivesAppend(g, a[1..], b, v, w, ks, ls);
        } else {
          DerivesAppend(g, a[1..], b, v[1..], w, ks, ls);
          assert (v + w)[1..] == v[1..] + w;
        }
      case N(n) =>
        var rhs := g.rules[n][ks[0]];
        DerivesAppend(g, rhs + a[1..], b, v, w, ks[1..], ls);
        assert (ks + ls)[1..] == ks[1..] + ls;
        assert rhs + (a + b)[1..] == rhs + a[1..] + b;
    }
  }

  /** The part of a derivation of `a + b` that comes from `a` uses the first `i` tokens and `j` choices. */
  lemma {:induction false} DerivesSplit(g: Cfg, a: Form, b: Form, w: seq<Code>, ks: seq<nat>) returns (i: nat, j: nat)
    requires Derives(g, a + b, w, ks)
    ensures i <= |w| && j <= |ks| && Derives(g, a, w[..i], ks[..j]) && Derives(g, b, w[i..], ks[j..])
    decreases |ks|, |a|
  {
    if a == [] {
      i, j := 0, 0;
      assert a + b == b && w[0..] == w && ks[0..] == ks;
    } else {
      assert (a + b)[1..] == a[1..] + b;
      match a[0]
      case T(x) =>
        if x == EMPTY {
          i, j := DerivesSplit(g, a[1..], b, w, ks);
        } else {
          var i', j' := DerivesSplit(g, a[1..], b, w[1..], ks);
          i, j := i' + 1, j';
          assert w[..i][1..] == w[1..][..i'] && w[i..] == w[1..][i'..];
        }
      case N(n) =>
        var rhs := g.rules[n][ks[0]];
        assert rhs + (a + b)[1..] == rhs + a[1..] + b;
        var i', j' := DerivesSplit(g, rhs + a[1..], b, w, ks[1..]);
        i, j := i', j' + 1;
        assert ks[..j][1..] == ks[1..][..j'] && ks[j..] == ks[1..][j'..];
    }
  }

  // ---------- the part of a grammar that is in use ----------

  ghost predicate Occurs(g: Cfg, a: string) {
    exists path: seq<(nat, nat)>, i: nat :: OccursAt(g, path, i, a)
  }

  /** Every nonterminal in use derives some token string. */
  ghost predicate Productive(g: Cfg) {
    forall a :: a in g.rules && Occurs(g, a) ==> Derivable(g, a)
  }

  ghost predicate Derivable(g: Cfg, a: string) {
    exists w, ks :: Derives(g, [N(a)], w, ks)
  }

  /** The nonterminals of the form are in use. */
  ghost predicate Mentions(g: Cfg, form: Form) {
    forall i :: 0 <= i < |form| && form[i].N? ==> form[i].name in g.rules && Occurs(g, form[i].name)
  }

  /** The rules of a nonterminal in use mention nonterminals in use. */
  lemma RuleMentions(g: Cfg, a: string, k: nat)
    requires g.WellFormed() && Occurs(g, a) && a in g.rules && k < |g.rules[a]|
    ensures Mentions(g, g.rules[a][k])
  {
    var path: seq<(nat, nat)>, p: nat :| OccursAt(g, path, p, a);
    var form, rhs, next := FormAfter(g, path).value, g.rules[a][k], path + [(p, k)];
    assert next[..|next| - 1] == path;
    var form' := form[..p] + rhs + form[p + 1..];
    assert FormAfter(g, next) == Some(form');
    forall i | 0 <= i < |rhs| && rhs[i].N? ensures rhs[i].name in g.rules && Occurs(g, rhs[i].name) {
      assert form'[p + i] == rhs[i];
      assert OccursAt(g, next, p + i, rhs[i].name);
    }
  }

  lemma MentionsConcat(g: Cfg, a: Form, b: Form)
    requires Mentions(g, a) && Mentions(g, b)
    ensures Mentions(g, a + b)
  {
  }

  lemma {:induction false} Yields(g: Cfg, form: Form) returns (w: seq<Code>, ks: seq<nat>)
    requires Productive(g) && Mentions(g, form)
    ensures Derives(g, form, w, ks)
  {
    if form == [] {
      w, ks := [], [];
    } else {
      var v, ls := Yields(g, form[1..]);
      var u, ms := YieldsOne(g, form[0]);
      DerivesAppend(g, [form[0]], form[1..], u, v, ms, ls);
      assert [form[0]] + form[1..] == form;
      w, ks := u + v, ms + ls;
    }
  }

  lemma YieldsOne(g: Cfg, s: Symbol) returns (w: seq<Code>, ks: seq<nat>)
    requires Productive(g) && (s.N? ==> s.name in g.rules && Occurs(g, s.name))
    ensures Derives(g, [s], w, ks)
  {
    match s
    case T(x) =>
      w, ks := if x == EMPTY then [] else [x], [];
      assert [s][1..] == [];
      assert w != [] ==> w[1..] == [];
      assert Derives(g, [s][1..], [], []);
    case N(a) =>
      assert Derivable(g, a);
      w, ks :| Derives(g, [N(a)], w, ks);
  }

  /** A form that can be led by `c` derives a token string that begins with it. */
  lemma {:induction false} LedYields(g: Cfg, form: Form, c: Code, ks: seq<nat>) returns (w: seq<Code>, ls: seq<nat>)
    requires g.WellFormed() && Productive(g) && Mentions(g, form) && Exposes(g, form, ks, c)
    ensures Derives(g, form, w, ls)
    ensures if c == EMPTY then w == [] else w != [] && w[0] == c
    decreases |ks|, |form|
  {
    if form == [] {
      w, ls := [], [];
    } else {
      match form[0]
      case T(x) =>
        if x == EMPTY {
          w, ls := LedYields(g, form[1..], c, ks);
        } else {
          var v;
          v, ls := Yields(g, form[1..]);
          w := [x] + v;
          assert w[1..] == v;
        }
      case N(a) =>
        RuleMentions(g, a, ks[0]);
        MentionsConcat(g, g.rules[a][ks[0]], form[1..]);
        var v, ms := LedYields(g, g.rules[a][ks[0]] + form[1..], c, ks[1..]);
        w, ls := v, [ks[0]] + ms;
        assert ls[1..] == ms;
    }
  }

  // ---------- driven derivations ----------

  /** Every derivation of the form is driven by the table. */
  ghost predicate AllDriven(g: Cfg, table: Table, form: Form) {
    forall w, ks :: Derives(g, form, w, ks) ==> Driven(g, table, form, w, ks)
  }

  lemma DrivenStep(g: Cfg, table: Table, form: Form, w: seq<Code>, ks: seq<nat>)
    requires form != []
    ensures Driven(g, table, form, w, ks) <==>
            if form[0].T? then
              if form[0].code == EMPTY then Driven(g, table, form[1..], w, ks)
              else w != [] && w[0] == form[0].code && Driven(g, table, form[1..], w[1..], ks)
            else
              var a := form[0].name;
              && ks != [] && a in g.rules && ks[0] < |g.rules[a]|
              && a in table && Lookahead(w) in table[a] && table[a][Lookahead(w)] == ks[0]
              && Driven(g, table, g.rules[a][ks[0]] + form[1..], w, ks[1..])
  {
  }

  /** Expanding a nonterminal in advance, behind what derives `v`, keeps a derivation driven. */
  lemma {:induction false} DrivenAhead(g: Cfg, table: Table, pre: Form, b: string, post: Form, v: seq<Code>,
                                       w: seq<Code>, k: nat, ms: seq<nat>, ls: seq<nat>)
    requires Derives(g, pre, v, ms) && b in g.rules && k < |g.rules[b]|
    requires Driven(g, table, pre + [N(b)] + post, v + w, ms + [k] + ls)
    ensures Driven(g, table, pre + g.rules[b][k] + post, v + w, ms + ls)
    ensures b in table && Lookahead(w) in table[b] && table[b][Lookahead(w)] == k
    decreases |ms|, |pre|
  {
    hide Driven;
    var form, ks := pre + [N(b)] + post, ms + [k] + ls;
    var form', ks' := pre + g.rules[b][k] + post, ms + ls;
    DrivenStep(g, table, form, v + w, ks);
    if pre == [] {
      assert form[1..] == post && ks[1..] == ls && ks' == ls && v + w == w && form' == g.rules[b][k] + post;
    } else {
      DrivenStep(g, table, form', v + w, ks');
      assert form[1..] == pre[1..] + [N(b)] + post && form'[1..] == pre[1..] + g.rules[b][k] + post;
      match pre[0]
      case T(x) =>
        if x == EMPTY {
          DrivenAhead(g, table, pre[1..], b, post, v, w, k, ms, ls);
        } else {
          assert (v + w)[1..] == v[1..] + w;
          DrivenAhead(g, table, pre[1..], b, post, v[1..], w, k, ms, ls);
        }
      case N(a) =>
        var rhs := g.rules[a][ms[0]];
        assert ks[1..] == ms[1..] + [k] + ls && ks'[1..] == ms[1..] + ls;
        assert rhs + form[1..] == rhs + pre[1..] + [N(b)] + post;
        assert rhs + form'[1..] == rhs + pre[1..] + g.rules[b][k] + post;
        DrivenAhead(g, table, rhs + pre[1..], b, post, v, w, k, ms[1..], ls);
    }
  }

  lemma AllDrivenStep(g: Cfg, table: Table, pre: Form, b: string, post: Form, k: nat)
    requires AllDriven(g, table, pre + [N(b)] + post) && b in g.rules && k < |g.rules[b]|
    ensures AllDriven(g, table, pre + g.rules[b][k] + post)
  {
    hide Driven, Derives;
    var rhs := g.rules[b][k];
    forall w, ks | Derives(g, pre + rhs + post, w, ks) ensures Driven(g, table, pre + rhs + post, w, ks) {
      assert pre + rhs + post == pre + (rhs + post);
      var i, j := DerivesSplit(g, pre, rhs + post, w, ks);
      DerivesExpand(g, b, post, k, w[i..], ks[j..]);
      DerivesAppend(g, pre, [N(b)] + post, w[..i], w[i..], ks[..j], [k] + ks[j..]);
      assert pre + ([N(b)] + post) == pre + [N(b)] + post && w[..i] + w[i..] == w;
      assert ks[..j] + ([k] + ks[j..]) == ks[..j] + [k] + ks[j..] && ks[..j] + ks[j..] == ks;
      DrivenAhead(g, table, pre, b, post, w[..i], w[i..], k, ks[..j], ks[j..]);
    }
  }

  lemma DerivesExpand(g: Cfg, b: string, post: Form, k: nat, w: seq<Code>, ks: seq<nat>)
    requires b in g.rules && k < |g.rules[b]| && Derives(g, g.rules[b][k] + post, w, ks)
    ensures Derives(g, [N(b)] + post, w, [k] + ks)
  {
    assert ([N(b)] + post)[1..] == post && ([k] + ks)[1..] == ks;
  }

  /** If every derivation from the start symbol is driven, so is every one from a sentential form. */
  lemma {:induction false} SententialDriven(g: Cfg, table: Table, path: seq<(nat, nat)>)
    requires AllDriven(g, table, [N(g.start)]) && FormAfter(g, path).Some?
    ensures AllDriven(g, table, FormAfter(g, path).value)
  {
    if path != [] {
      hide AllDriven;
      var (p, k) := path[|path| - 1];
      SententialDriven(g, table, path[..|path| - 1]);
      var form := FormAfter(g, path[..|path| - 1]).value;
      var b := form[p].name;
      assert form == form[..p] + [N(b)] + form[p + 1..];
      AllDrivenStep(g, table, form[..p], b, form[p + 1..], k);
    }
  }

  lemma SententialMentions(g: Cfg, path: seq<(nat, nat)>)
    requires g.WellFormed() && FormAfter(g, path).Some?
    ensures Mentions(g, FormAfter(g, path).value)
  {
    var form := FormAfter(g, path).value;
    forall i | 0 <= i < |form| && form[i].N? ensures form[i].name in g.rules && Occurs(g, form[i].name) {
      SententialKnown(g, path, i);
      assert OccursAt(g, path, i, form[i].name);
    }
  }

  lemma {:induction false} SententialKnown(g: Cfg, path: seq<(nat, nat)>, i: nat)
    requires g.WellFormed() && FormAfter(g, path).Some?
    requires i < |FormAfter(g, path).value| && FormAfter(g, path).value[i].N?
    ensures FormAfter(g, path).value[i].name in g.rules
  {
    if path != [] {
      var (p, k) := path[|path| - 1];
      var before := path[..|path| - 1];
      var form := FormAfter(g, before).value;
      var rhs := g.rules[form[p].name][k];
      var after := form[..p] + rhs + form[p + 1..];
      if i < p {
        SententialKnown(g, before, i);
      } else if i < p + |rhs| {
        assert after[i] == rhs[i - p];
      } else {
        assert after[i] == form[i - |rhs| + 1];
        SententialKnown(g, before, i - |rhs| + 1);
      }
    }
  }

  /** When all derivations are driven, the table of a nonterminal in a sentential form holds every rule that
      can be used there, at every token that can come next. */
  lemma UsedIsStored(g: Cfg, table: Table, path: seq<(nat, nat)>, i: nat, a: string, k: nat,
                     z: seq<Code>, zs: seq<nat>, y: seq<Code>, ys: seq<nat>)
    requires g.WellFormed() && Productive(g) && AllDriven(g, table, [N(g.start)])
    requires OccursAt(g, path, i, a) && a in g.rules && k < |g.rules[a]|
    requires Derives(g, g.rules[a][k], z, zs) && Derives(g, FormAfter(g, path).value[i + 1..], y, ys)
    ensures a in table && Lookahead(z + y) in table[a] && table[a][Lookahead(z + y)] == k
  {
    hide Driven, Derives, Productive;
    SententialDriven(g, table, path);
    SententialMentions(g, path);
    var form := FormAfter(g, path).value;
    var pre, post := form[..i], form[i + 1..];
    assert form == pre + [N(a)] + post;
    var v, ms := Yields(g, pre);
    DerivesAppend(g, g.rules[a][k], post, z, y, zs, ys);
    DerivesExpand(g, a, post, k, z + y, zs + ys);
    DerivesAppend(g, pre, [N(a)] + post, v, z + y, ms, [k] + (zs + ys));
    assert pre + ([N(a)] + post) == form && ms + ([k] + (zs + ys)) == ms + [k] + (zs + ys);
    DrivenAhead(g, table, pre, a, post, v, z + y, k, ms, zs + ys);
  }

  // ---------- the exact condition ----------

  /** Rules `i` and `j` of `a` both want token `c`: rule `j` can be led by it, and rule `i` can vanish in
      front of what the table takes for FOLLOW. */
  ghost predicate Contested(g: Cfg, f: Sets, a: string, i: nat, j: nat, c: Code) {
    && a in g.rules && a in f && i < |g.rules[a]| && j < |g.rules[a]| && i != j
    && First(g, g.rules[a][i], EMPTY) && c != EMPTY && First(g, g.rules[a][j], c) && c in f[a]
  }

  /** No token that can really follow a nonterminal is contested; and one that only the table takes for
      following goes to the rule that it leads, because that comes first. */
  ghost predicate NoRealConflict(g: Cfg, f: Sets) {
    forall a, i: nat, j: nat, c | Contested(g, f, a, i, j, c) && Occurs(g, a) ::
      !TextbookFollow(g, a, c) && j < i
  }

  /** Every token that can really follow a nonterminal is in the set that the table takes for FOLLOW, as far as the
      table needs it: where a rule vanishes in front of the token and is not led by it as well. */
  ghost predicate FollowsEnough(g: Cfg, f: Sets) {
    forall a, i: nat, c | a in g.rules && a in f && i < |g.rules[a]| && First(g, g.rules[a][i], EMPTY)
      && TextbookFollow(g, a, c) && !First(g, g.rules[a][i], c) :: c in f[a]
  }

  /** The rules of the nonterminals in use have disjoint FIRST sets. */
  ghost predicate DisjointInUse(g: Cfg) {
    forall a :: a in g.rules && Occurs(g, a) ==> DisjointAt(g, a)
  }

  /** The tables of the nonterminals in use are those of the prediction relation. */
  ghost predicate TableInUse(g: Cfg, f: Sets, table: Table) {
    table.Keys == g.rules.Keys == f.Keys && forall a :: a in table && Occurs(g, a) ==> TableAt(g, f, table, a)
  }

  /** Of two rules that both want a token which can follow, no table can have both. */
  lemma RealConflict(g: Cfg, table: Table, a: string, i: nat, j: nat, c: Code)
    requires g.WellFormed() && Productive(g) && AllDriven(g, table, [N(g.start)])
    requires a in g.rules && i < |g.rules[a]| && j < |g.rules[a]|
    requires First(g, g.rules[a][i], EMPTY) && c != EMPTY && First(g, g.rules[a][j], c) && TextbookFollow(g, a, c)
    ensures i == j
  {
    hide Driven, Derives, Productive, Exposes, AllDriven;
    var path: seq<(nat, nat)>, p: nat :| FollowsIn(g, path, p, a, c);
    var post := FormAfter(g, path).value[p + 1..];
    assert OccursAt(g, path, p, a);
    SententialMentions(g, path);
    var y, ys := FollowYields(g, post, c);
    RuleMentions(g, a, i);
    RuleMentions(g, a, j);
    var none, ns := FirstYields(g, g.rules[a][i], EMPTY);
    UsedIsStored(g, table, path, p, a, i, none, ns, y, ys);
    assert none + y == y;
    var z, zs := FirstYields(g, g.rules[a][j], c);
    UsedIsStored(g, table, path, p, a, j, z, zs, y, ys);
  }

  lemma FirstYields(g: Cfg, form: Form, c: Code) returns (w: seq<Code>, ks: seq<nat>)
    requires g.WellFormed() && Productive(g) && Mentions(g, form) && First(g, form, c)
    ensures Derives(g, form, w, ks)
    ensures if c == EMPTY then w == [] else w != [] && w[0] == c
  {
    var ls :| Exposes(g, form, ls, c);
    w, ks := LedYields(g, form, c, ls);
  }

  lemma FollowYields(g: Cfg, post: Form, c: Code) returns (w: seq<Code>, ks: seq<nat>)
    requires g.WellFormed() && Productive(g) && Mentions(g, post) && CanFollow(g, post, c)
    ensures Derives(g, post, w, ks) && Lookahead(w) == c
  {
    w, ks := FirstYields(g, post, if c != EMPTY && First(g, post, c) then c else EMPTY);
  }

  /** A table that gives a token to an earlier vanishing rule fails the rule that the token leads. */
  lemma StoredConflict(g: Cfg, f: Sets, table: Table, a: string, i: nat, j: nat, c: Code)
    requires g.WellFormed() && Productive(g) && AllDriven(g, table, [N(g.start)]) && TableInUse(g, f, table)
    requires Contested(g, f, a, i, j, c) && Occurs(g, a)
    ensures j < i
  {
    hide Driven, Derives, Productive, Exposes, AllDriven, First;
    var path: seq<(nat, nat)>, p: nat :| OccursAt(g, path, p, a);
    SententialMentions(g, path);
    var post := FormAfter(g, path).value[p + 1..];
    var y, ys := Yields(g, post);
    RuleMentions(g, a, j);
    var z, zs := FirstYields(g, g.rules[a][j], c);
    UsedIsStored(g, table, path, p, a, j, z, zs, y, ys);
    assert Lookahead(z + y) == c;
    assert Predicts(g, f, a, i, c);
  }

  lemma ConflictNeeded(g: Cfg, f: Sets, table: Table)
    requires g.WellFormed() && Productive(g) && AllDriven(g, table, [N(g.start)]) && TableInUse(g, f, table)
    ensures NoRealConflict(g, f)
  {
    hide Driven, Derives, Productive, Exposes, AllDriven, First, TableInUse, TextbookFollow, Occurs;
    forall a, i: nat, j: nat, c | Contested(g, f, a, i, j, c) && Occurs(g, a)
      ensures !TextbookFollow(g, a, c) && j < i
    {
      StoredConflict(g, f, table, a, i, j, c);
      if TextbookFollow(g, a, c) { RealConflict(g, table, a, i, j, c); }
    }
  }

  lemma EnoughNeeded(g: Cfg, f: Sets, table: Table)
    requires g.WellFormed() && Productive(g) && AllDriven(g, table, [N(g.start)]) && TableInUse(g, f, table)
    ensures FollowsEnough(g, f)
  {
    hide Driven, Derives, Productive, Exposes, AllDriven, First, TableInUse, TextbookFollow, Occurs;
    forall a, i: nat, c | a in g.rules && a in f && i < |g.rules[a]| && First(g, g.rules[a][i], EMPTY)
      && TextbookFollow(g, a, c) && !First(g, g.rules[a][i], c)
      ensures c in f[a]
    {
      VanishingIsStored(g, f, table, a, i, c);
    }
  }

  /** A rule that vanishes is stored at every token that can follow. */
  lemma VanishingIsStored(g: Cfg, f: Sets, table: Table, a: string, i: nat, c: Code)
    requires g.WellFormed() && Productive(g) && AllDriven(g, table, [N(g.start)]) && TableInUse(g, f, table)
    requires a in g.rules && i < |g.rules[a]| && First(g, g.rules[a][i], EMPTY) && TextbookFollow(g, a, c)
    ensures Predicts(g, f, a, i, c)
  {
    hide Driven, Derives, Productive, Exposes, AllDriven, First;
    var path: seq<(nat, nat)>, p: nat :| FollowsIn(g, path, p, a, c);
    var post := FormAfter(g, path).value[p + 1..];
    assert OccursAt(g, path, p, a) && Occurs(g, a);
    SententialMentions(g, path);
    var y, ys := FollowYields(g, post, c);
    RuleMentions(g, a, i);
    var none, ns := FirstYields(g, g.rules[a][i], EMPTY);
    UsedIsStored(g, table, path, p, a, i, none, ns, y, ys);
    assert none + y == y;
  }

  /** Rule `k` of `a` is one that a derivation can use when `t` comes next. */
  ghost predicate CanUse(g: Cfg, a: string, k: nat, t: Code) {
    && a in g.rules && k < |g.rules[a]| && t != EMPTY
    && (First(g, g.rules[a][k], t) || (First(g, g.rules[a][k], EMPTY) && TextbookFollow(g, a, t)))
  }

  lemma NotContested(g: Cfg, f: Sets, a: string, i: nat, j: nat, c: Code)
    requires NoRealConflict(g, f) && Contested(g, f, a, i, j, c) && Occurs(g, a)
    ensures !TextbookFollow(g, a, c) && j < i
  {
  }

  /** A rule that the token leads goes before every other that the table has for it. */
  lemma LedGoesFirst(g: Cfg, f: Sets, a: string, k: nat, m: nat, t: Code)
    requires DisjointInUse(g) && NoRealConflict(g, f) && Occurs(g, a) && t != EMPTY
    requires a in g.rules && k < |g.rules[a]| && First(g, g.rules[a][k], t) && Predicts(g, f, a, m, t)
    ensures m == k || k < m
  {
    hide First, Occurs, TextbookFollow, NoRealConflict;
    if m != k && !First(g, g.rules[a][m], t) { NotContested(g, f, a, m, k, t); }
  }

  /** A rule that vanishes in front of a token that can follow is the only one that the table has for it. */
  lemma VanishingIsAlone(g: Cfg, f: Sets, a: string, k: nat, m: nat, t: Code)
    requires DisjointInUse(g) && NoRealConflict(g, f) && Occurs(g, a) && t != EMPTY
    requires a in g.rules && k < |g.rules[a]| && First(g, g.rules[a][k], EMPTY) && TextbookFollow(g, a, t)
    requires Predicts(g, f, a, m, t) && t in f[a]
    ensures m == k
  {
    hide First, Occurs, TextbookFollow, NoRealConflict;
    if m != k && First(g, g.rules[a][m], t) { NotContested(g, f, a, k, m, t); }
  }

  /** Without a real conflict, and with enough in the FOLLOW sets, the table holds the rule that is used. */
  lemma StoredIsUsed(g: Cfg, f: Sets, table: Table, a: string, k: nat, t: Code)
    requires DisjointInUse(g) && TableInUse(g, f, table) && NoRealConflict(g, f) && FollowsEnough(g, f)
    requires CanUse(g, a, k, t) && Occurs(g, a)
    ensures a in table && t in table[a] && table[a][t] == k
  {
    hide TextbookFollow, First, Occurs, DisjointInUse, NoRealConflict;
    assert Predicts(g, f, a, k, t);
    var m := table[a][t];
    assert Predicts(g, f, a, m, t) && m <= k;
    if First(g, g.rules[a][k], t) {
      LedGoesFirst(g, f, a, k, m, t);
    } else {
      VanishingIsAlone(g, f, a, k, m, t);
    }
  }

  /** The rule that a derivation uses next can be used when its next token comes. */
  lemma UsedCanBeUsed(g: Cfg, path: seq<(nat, nat)>, pre: Form, form: Form, w: seq<Code>, ks: seq<nat>)
    requires FormAfter(g, path) == Some(pre + form) && form != [] && form[0].N? && Derives(g, form, w, ks)
    ensures ks != [] && CanUse(g, form[0].name, ks[0], Lookahead(w)) && Occurs(g, form[0].name)
  {
    var a, rest := form[0].name, form[1..];
    var rhs := g.rules[a][ks[0]];
    var c := if w == [] then EMPTY else w[0];
    DerivesFirst(g, rhs + rest, w, ks[1..]);
    FirstConcat(g, rhs, rest, c);
    assert (pre + form)[|pre|] == form[0] && (pre + form)[|pre| + 1..] == rest;
    assert OccursAt(g, path, |pre|, a);
    if !(c != EMPTY && First(g, rhs, c)) {
      assert CanFollow(g, rest, Lookahead(w));
      assert FollowsIn(g, path, |pre|, a, Lookahead(w));
    }
  }

  lemma {:induction false} DrivenWithoutConflict(g: Cfg, f: Sets, table: Table, path: seq<(nat, nat)>, pre: Form,
                                                 form: Form, w: seq<Code>, ks: seq<nat>)
    requires DisjointInUse(g) && TableInUse(g, f, table) && NoRealConflict(g, f) && FollowsEnough(g, f)
    requires FormAfter(g, path) == Some(pre + form) && Derives(g, form, w, ks)
    ensures Driven(g, table, form, w, ks)
    decreases |ks|, |form|
  {
    if form != [] {
      hide Derives, Driven, DisjointInUse, TableInUse, NoRealConflict, FollowsEnough, CanUse, Occurs;
      DerivesAt(g, table, form, w, ks);
      if form[0].T? {
        assert pre + form == (pre + [form[0]]) + form[1..];
        var rest := if form[0].code == EMPTY then w else w[1..];
        DrivenWithoutConflict(g, f, table, path, pre + [form[0]], form[1..], rest, ks);
      } else {
        var a, k := form[0].name, ks[0];
        UsedCanBeUsed(g, path, pre, form, w, ks);
        StoredIsUsed(g, f, table, a, k, Lookahead(w));
        var next := path + [(|pre|, k)];
        ExpandFirst(g, path, pre, form, k);
        DrivenWithoutConflict(g, f, table, next, pre, g.rules[a][k] + form[1..], w, ks[1..]);
      }
    }
  }

  lemma ExpandFirst(g: Cfg, path: seq<(nat, nat)>, pre: Form, form: Form, k: nat)
    requires FormAfter(g, path) == Some(pre + form) && form != [] && form[0].N?
    requires form[0].name in g.rules && k < |g.rules[form[0].name]|
    ensures FormAfter(g, path + [(|pre|, k)]) == Some(pre + (g.rules[form[0].name][k] + form[1..]))
  {
    var next, all := path + [(|pre|, k)], pre + form;
    assert next[..|next| - 1] == path;
    assert all[..|pre|] == pre && all[|pre|] == form[0] && all[|pre| + 1..] == form[1..];
    assert pre + g.rules[form[0].name][k] + form[1..] == pre + (g.rules[form[0].name][k] + form[1..]);
  }

  lemma StartForm(g: Cfg)
    ensures FormAfter(g, []) == Some([] + [N(g.start)])
  {
    assert [] + [N(g.start)] == [N(g.start)];
  }

  /** Without a real conflict, and with enough in the FOLLOW sets, the leftmost derivations from the entry point are
      exactly the runs of the table. */
  lemma DerivesIffDriven(g: Cfg, f: Sets, table: Table, w: seq<Code>, ks: seq<nat>)
    requires DisjointInUse(g) && TableInUse(g, f, table) && NoRealConflict(g, f) && FollowsEnough(g, f)
    ensures Derives(g, [N(g.start)], w, ks) <==> Driven(g, table, [N(g.start)], w, ks)
  {
    hide Derives, Driven, DisjointInUse, TableInUse, NoRealConflict, FollowsEnough;
    if Derives(g, [N(g.start)], w, ks) {
      StartForm(g);
      DrivenWithoutConflict(g, f, table, [], [], [N(g.start)], w, ks);
    }
    if Driven(g, table, [N(g.start)], w, ks) { DrivenDerives(g, table, [N(g.start)], w, ks); }
  }

  /** Unambiguity: a token string has at most one leftmost derivation. */
  lemma AtMostOneDerivation(g: Cfg, f: Sets, table: Table, w: seq<Code>, ks: seq<nat>, ls: seq<nat>)
    requires DisjointInUse(g) && TableInUse(g, f, table) && NoRealConflict(g, f) && FollowsEnough(g, f)
    requires Derives(g, [N(g.start)], w, ks) && Derives(g, [N(g.start)], w, ls)
    ensures ks == ls
  {
    DerivesIffDriven(g, f, table, w, ks);
    DerivesIffDriven(g, f, table, w, ls);
    DrivenUnique(g, table, [N(g.start)], w, ks, ls);
  }

  /** Prediction, exactly, whatever sets the table takes for FOLLOW: where the nonterminals in use have disjoint FIRST
      sets and derive something, the tables drive every leftmost derivation from the entry point if and only if
      there is no real conflict between FIRST and FOLLOW and the FOLLOW sets have enough in them. */
  lemma DrivenIff(g: Cfg, f: Sets, table: Table)
    requires g.WellFormed() && DisjointInUse(g) && TableInUse(g, f, table) && Productive(g)
    ensures AllDriven(g, table, [N(g.start)]) <==> NoRealConflict(g, f) && FollowsEnough(g, f)
  {
    hide Derives, Driven, DisjointInUse, TableInUse, NoRealConflict, FollowsEnough, Productive;
    if NoRealConflict(g, f) && FollowsEnough(g, f) {
      forall w, ks | Derives(g, [N(g.start)], w, ks) ensures Driven(g, table, [N(g.start)], w, ks) {
        DerivesIffDriven(g, f, table, w, ks);
      }
    }
    if AllDriven(g, table, [N(g.start)]) {
      ConflictNeeded(g, f, table);
      EnoughNeeded(g, f, table);
    }
  }

  /** A solution of the equations has enough in it. */
  lemma SolutionIsEnough(g: Cfg, fs: Sets, f: Sets)
    requires FollowSolution(g, fs, f)
    ensures f.Keys == g.rules.Keys && FollowsEnough(g, f)
  {
    hide First, TextbookFollow, FollowSolution;
    SolutionKeys(g, fs, f);
    forall a, t | TextbookFollow(g, a, t) ensures a in f && t in f[a] { FollowContainsTextbook(g, fs, f, a, t); }
  }

  /** Disjoint FOLLOW and FIRST sets leave no conflict; and where the table's FOLLOW is the textbook's, only
      they do. */
  lemma DisjointIsNoConflict(g: Cfg, f: Sets)
    ensures FollowsDisjoint(g, f) ==> NoRealConflict(g, f)
    ensures (forall a, t :: a in f && t in f[a] ==> t != EMPTY && TextbookFollow(g, a, t)) && NoRealConflict(g, f)
            ==> FollowsDisjoint(g, f)
  {
    hide First, TextbookFollow, Occurs;
    if (forall a, t :: a in f && t in f[a] ==> t != EMPTY && TextbookFollow(g, a, t)) && NoRealConflict(g, f) {
      forall a, i: nat, j: nat, c | a in g.rules && a in f && i < |g.rules[a]| && j < |g.rules[a]| && i != j
                      && First(g, g.rules[a][i], EMPTY) && c in f[a]
        ensures !First(g, g.rules[a][j], c)
      {
        FollowOccurs(g, a, c);
        assert First(g, g.rules[a][j], c) ==> Contested(g, f, a, i, j, c);
      }
    }
  }

  lemma FollowOccurs(g: Cfg, a: string, t: Code)
    requires TextbookFollow(g, a, t)
    ensures Occurs(g, a)
  {
    var path: seq<(nat, nat)>, i: nat :| FollowsIn(g, path, i, a, t);
    assert OccursAt(g, path, i, a);
  }

  /** With the textbook's FOLLOW sets, disjointness of FIRST and FOLLOW is exactly what the tables need. */
  lemma DrivenIffDisjoint(g: Cfg, f: Sets, table: Table)
    requires g.WellFormed() && DisjointInUse(g) && TableInUse(g, f, table) && Productive(g)
    requires forall a, t :: a in f ==> (t in f[a] <==> TextbookFollow(g, a, t))
    requires forall a :: a in f ==> EMPTY !in f[a]
    ensures AllDriven(g, table, [N(g.start)]) <==> FollowsDisjoint(g, f)
  {
    hide Derives, Driven, DisjointInUse, TableInUse, NoRealConflict, TextbookFollow, Productive, FollowsDisjoint, First;
    DrivenIff(g, f, table);
    DisjointIsNoConflict(g, f);
  }
}
