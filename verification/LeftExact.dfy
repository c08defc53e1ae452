/** Tables and left recursion: no table at all drives the derivations of a grammar in which a nonterminal in use
    can lead a form derived from itself. */
module LeftExact {
  import opened ContextFree
  import opened Follow
  import opened LL1
  import opened FollowTextbook
  import opened LL1Exact

  /** The leftmost choices `cs` turn `form` into `after` without reading a token. */
  ghost predicate Leads(g: Cfg, form: Form, cs: seq<nat>, after: Form)
    decreases |cs|, |form|
  {
    || (cs == [] && form == after)
    || (form != [] && match form[0]
        case T(x) => x == EMPTY && Leads(g, form[1..], cs, after)
        case N(a) =>
          cs != [] && a in g.rules && cs[0] < |g.rules[a]|
          && Leads(g, g.rules[a][cs[0]] + form[1..], cs[1..], after))
  }

  lemma {:induction false} LeadsBefore(g: Cfg, form: Form, cs: seq<nat>, after: Form, rest: Form)
    requires Leads(g, form, cs, after)
    ensures Leads(g, form + rest, cs, after + rest)
    decreases |cs|, |form|
  {
    if !(cs == [] && form == after) {
      assert (form + rest)[1..] == form[1..] + rest;
      match form[0]
      case T(x) => LeadsBefore(g, form[1..], cs, after, rest);
      case N(a) =>
        LeadsBefore(g, g.rules[a][cs[0]] + form[1..], cs[1..], after, rest);
        assert g.rules[a][cs[0]] + form[1..] + rest == g.rules[a][cs[0]] + (form + rest)[1..];
    }
  }

  lemma {:induction false} LeadsOn(g: Cfg, form: Form, cs: seq<nat>, between: Form, ds: seq<nat>, after: Form)
    requires Leads(g, form, cs, between) && Leads(g, between, ds, after)
    ensures Leads(g, form, cs + ds, after)
    decreases |cs|, |form|
  {
    if cs == [] && form == between {
      assert cs + ds == ds;
    } else {
      match form[0]
      case T(x) => LeadsOn(g, form[1..], cs, between, ds, after);
      case N(a) =>
        LeadsOn(g, g.rules[a][cs[0]] + form[1..], cs[1..], between, ds, after);
        assert (cs + ds)[1..] == cs[1..] + ds;
    }
  }

  /** What vanishes leads to what stands behind it. */
  lemma {:induction false} VanishingLeads(g: Cfg, form: Form, ks: seq<nat>, rest: Form)
    requires Exposes(g, form, ks, EMPTY)
    ensures Leads(g, form + rest, ks, rest)
    decreases |ks|, |form|
  {
    if form == [] {
      assert form + rest == rest;
    } else {
      assert (form + rest)[1..] == form[1..] + rest;
      match form[0]
      case T(x) => VanishingLeads(g, form[1..], ks, rest);
      case N(a) =>
        VanishingLeads(g, g.rules[a][ks[0]] + form[1..], ks[1..], rest);
        assert g.rules[a][ks[0]] + form[1..] + rest == g.rules[a][ks[0]] + (form + rest)[1..];
    }
  }

  lemma LeftEdgeLeads(g: Cfg, a: string, b: string) returns (cs: seq<nat>, more: Form)
    requires LeftEdge(g, a, b)
    ensures cs != [] && Leads(g, [N(a)], cs, [N(b)] + more)
  {
    var k: nat, j: nat :| LeftOccurrence(g, a, b, k, j);
    var rhs := g.rules[a][k];
    var ks :| Exposes(g, rhs[..j], ks, EMPTY);
    more := rhs[j + 1..];
    VanishingLeads(g, rhs[..j], ks, [N(b)] + more);
    assert rhs == rhs[..j] + ([N(b)] + more);
    cs := [k] + ks;
    var form: Form := [N(a)];
    assert rhs + form[1..] == rhs && cs[1..] == ks;
  }

  /** Along a left path the first nonterminal leads to the last. */
  lemma {:induction false} LeftPathLeads(g: Cfg, p: seq<string>) returns (cs: seq<nat>, more: Form)
    requires LeftPath(g, p)
    ensures cs != [] && Leads(g, [N(p[0])], cs, [N(p[|p| - 1])] + more)
  {
    hide Leads, LeftEdge;
    cs, more := LeftEdgeLeads(g, p[0], p[1]);
    if |p| > 2 {
      var q := p[1..];
      assert forall i :: 0 <= i < |q| - 1 ==> LeftEdge(g, q[i], q[i + 1]) by {
        forall i | 0 <= i < |q| - 1 ensures LeftEdge(g, q[i], q[i + 1]) { assert LeftEdge(g, p[i + 1], p[i + 2]); }
      }
      var ds, more' := LeftPathLeads(g, q);
      LeadsBefore(g, [N(p[1])], ds, [N(p[|p| - 1])] + more', more);
      LeadsOn(g, [N(p[0])], cs, [N(p[1])] + more, ds, [N(p[|p| - 1])] + more' + more);
      assert [N(p[|p| - 1])] + more' + more == [N(p[|p| - 1])] + (more' + more);
      cs, more := cs + ds, more' + more;
    }
  }

  // ---------- derivations along a lead ----------

  lemma {:induction false} DerivesAlong(g: Cfg, form: Form, cs: seq<nat>, after: Form, w: seq<Code>, ks: seq<nat>)
    requires Leads(g, form, cs, after) && Derives(g, after, w, ks)
    ensures Derives(g, form, w, cs + ks)
    decreases |cs|, |form|
  {
    if cs == [] && form == after {
      assert cs + ks == ks;
    } else {
      match form[0]
      case T(x) => DerivesAlong(g, form[1..], cs, after, w, ks);
      case N(a) =>
        DerivesAlong(g, g.rules[a][cs[0]] + form[1..], cs[1..], after, w, ks);
        assert (cs + ks)[1..] == cs[1..] + ks;
    }
  }

  /** A run that begins with the choices of a lead fixes the table along it: every other run with the same next token
      begins with them as well. */
  lemma {:induction false} ForcedAlong(g: Cfg, table: Table, form: Form, cs: seq<nat>, after: Form, rest: Form,
                                       w: seq<Code>, ks: seq<nat>, rest': Form, w': seq<Code>, ks': seq<nat>)
    requires Leads(g, form, cs, after) && Driven(g, table, form + rest, w, cs + ks)
    requires Driven(g, table, form + rest', w', ks') && Lookahead(w) == Lookahead(w')
    ensures cs <= ks' && Driven(g, table, after + rest', w', ks'[|cs|..])
    decreases |cs|, |form|
  {
    if cs == [] && form == after {
      assert ks'[0..] == ks';
    } else {
      assert (form + rest)[1..] == form[1..] + rest && (form + rest')[1..] == form[1..] + rest';
      match form[0]
      case T(x) => ForcedAlong(g, table, form[1..], cs, after, rest, w, ks, rest', w', ks');
      case N(a) =>
        var rhs := g.rules[a][cs[0]];
        assert (cs + ks)[1..] == cs[1..] + ks;
        assert rhs + form[1..] + rest == rhs + (form + rest)[1..];
        assert rhs + form[1..] + rest' == rhs + (form + rest')[1..];
        ForcedAlong(g, table, rhs + form[1..], cs[1..], after, rest, w, ks, rest', w', ks'[1..]);
        assert cs == [cs[0]] + cs[1..] && ks' == [ks'[0]] + ks'[1..];
        assert ks'[1..][|cs[1..]|..] == ks'[|cs|..];
    }
  }

  /** So no run at all follows a lead from a nonterminal to itself: it would have to do so for ever. */
  lemma {:induction false} NoRunAlong(g: Cfg, table: Table, a: string, cs: seq<nat>, more: Form, rest: Form,
                                      w: seq<Code>, ks: seq<nat>, rest': Form, w': seq<Code>, ks': seq<nat>)
    requires cs != [] && Leads(g, [N(a)], cs, [N(a)] + more) && Driven(g, table, [N(a)] + rest, w, cs + ks)
    requires Lookahead(w) == Lookahead(w')
    ensures !Driven(g, table, [N(a)] + rest', w', ks')
    decreases |ks'|
  {
    hide Driven, Leads;
    if Driven(g, table, [N(a)] + rest', w', ks') {
      ForcedAlong(g, table, [N(a)], cs, [N(a)] + more, rest, w, ks, rest', w', ks');
      assert [N(a)] + more + rest' == [N(a)] + (more + rest');
      NoRunAlong(g, table, a, cs, more, rest, w, ks, more + rest', w', ks'[|cs|..]);
    }
  }

  // ---------- left recursion ----------

  /** Behind what derives `v`, the rest of a driven derivation is driven. */
  lemma {:induction false} DrivenBehind(g: Cfg, table: Table, pre: Form, post: Form, v: seq<Code>, w: seq<Code>,
                                        ms: seq<nat>, ks: seq<nat>)
    requires Derives(g, pre, v, ms) && Driven(g, table, pre + post, v + w, ms + ks)
    ensures Driven(g, table, post, w, ks)
    decreases |ms|, |pre|
  {
    if pre == [] {
      assert pre + post == post && v + w == w && ms + ks == ks;
    } else {
      assert (pre + post)[1..] == pre[1..] + post;
      match pre[0]
      case T(x) =>
        if x == EMPTY {
          DrivenBehind(g, table, pre[1..], post, v, w, ms, ks);
        } else {
          assert (v + w)[1..] == v[1..] + w;
          DrivenBehind(g, table, pre[1..], post, v[1..], w, ms, ks);
        }
      case N(a) =>
        var rhs := g.rules[a][ms[0]];
        assert (ms + ks)[1..] == ms[1..] + ks && rhs + (pre + post)[1..] == rhs + pre[1..] + post;
        DrivenBehind(g, table, rhs + pre[1..], post, v, w, ms[1..], ks);
    }
  }

  lemma {:induction false} LeadsMentions(g: Cfg, form: Form, cs: seq<nat>, after: Form)
    requires g.WellFormed() && Leads(g, form, cs, after) && Mentions(g, form)
    ensures Mentions(g, after)
    decreases |cs|, |form|
  {
    if !(cs == [] && form == after) {
      match form[0]
      case T(x) => LeadsMentions(g, form[1..], cs, after);
      case N(a) =>
        RuleMentions(g, a, cs[0]);
        MentionsConcat(g, g.rules[a][cs[0]], form[1..]);
        LeadsMentions(g, g.rules[a][cs[0]] + form[1..], cs[1..], after);
    }
  }

  /** No table drives all derivations when a nonterminal in use is left-recursive. */
  lemma NotLeftRecursive(g: Cfg, table: Table, p: seq<string>)
    requires g.WellFormed() && Productive(g) && AllDriven(g, table, [N(g.start)])
    requires LeftPath(g, p) && Occurs(g, p[0])
    ensures p[0] != p[|p| - 1]
  {
    hide Driven, Derives, Productive, AllDriven, Leads, LeftEdge;
    var a := p[0];
    if p[|p| - 1] == a {
      var cs, more := LeftPathLeads(g, p);
      var path: seq<(nat, nat)>, i: nat :| OccursAt(g, path, i, a);
      var form := FormAfter(g, path).value;
      var pre, post := form[..i], form[i + 1..];
      assert form == pre + ([N(a)] + post);
      SententialMentions(g, path);
      var v, ms := Yields(g, pre);
      LeadsMentions(g, [N(a)], cs, [N(a)] + more);
      MentionsConcat(g, [N(a)] + more, post);
      var w, ks := Yields(g, [N(a)] + more + post);
      LeadsBefore(g, [N(a)], cs, [N(a)] + more, post);
      DerivesAlong(g, [N(a)] + post, cs, [N(a)] + more + post, w, ks);
      DerivesAppend(g, pre, [N(a)] + post, v, w, ms, cs + ks);
      SententialDriven(g, table, path);
      RunHere(g, table, form, v + w, ms + (cs + ks));
      DrivenBehind(g, table, pre, [N(a)] + post, v, w, ms, cs + ks);
      NoRunAlong(g, table, a, cs, more, post, w, ks, post, w, cs + ks);
    }
  }

  lemma RunHere(g: Cfg, table: Table, form: Form, w: seq<Code>, ks: seq<nat>)
    requires AllDriven(g, table, form) && Derives(g, form, w, ks)
    ensures Driven(g, table, form, w, ks)
  {
  }

  /** No nonterminal in use is left-recursive. */
  ghost predicate NoneLeftRecursive(g: Cfg) {
    forall a :: a in g.rules && Occurs(g, a) ==> !LeftReaches(g, a, a)
  }

  lemma NoneNeeded(g: Cfg, table: Table)
    requires g.WellFormed() && Productive(g) && AllDriven(g, table, [N(g.start)])
    ensures NoneLeftRecursive(g)
  {
    hide AllDriven, Productive, LeftEdge;
    forall p | LeftPath(g, p) && Occurs(g, p[0]) ensures p[0] != p[|p| - 1] { NotLeftRecursive(g, table, p); }
  }

  /** When all nonterminals are in use, that is the absence of left recursion. */
  lemma NoneIsNoLeftRecursion(g: Cfg)
    requires AllReachable(g)
    ensures NoneLeftRecursive(g) <==> NoLeftRecursion(g)
  {
    hide LeftEdge;
    if NoneLeftRecursive(g) {
      forall p | LeftPath(g, p) ensures p[0] != p[|p| - 1] {
        PathStarts(g, p);
        PathIsKnown(g, p);
        assert !LeftReaches(g, p[0], p[0]);
      }
    }
  }

  lemma PathStarts(g: Cfg, p: seq<string>)
    requires AllReachable(g) && LeftPath(g, p)
    ensures Occurs(g, p[0])
  {
    assert LeftEdge(g, p[0], p[1]);
  }

  /** The nonterminals in use are tame. */
  ghost predicate TameInUse(g: Cfg) {
    forall a :: a in g.rules && Occurs(g, a) ==> Tame(g, a)
  }

  /** In a grammar whose nonterminals in use all derive something, they are tame if and only if none of them is
      left-recursive. */
  lemma TameIffNone(g: Cfg)
    requires g.WellFormed() && Productive(g)
    ensures TameInUse(g) <==> NoneLeftRecursive(g)
  {
    hide LeftPath, LeftEdge, OccursAt, Derives, LeftReaches, Occurs;
    if NoneLeftRecursive(g) {
      forall a | a in g.rules && Occurs(g, a) ensures Tame(g, a) {
        DerivableHasRules(g, a);
        forall b | LeftReaches(g, a, b) ensures Fine(g, b) {
          ReachedOccurs(g, a, b);
          DerivableHasRules(g, b);
        }
      }
    }
  }

  lemma DerivableHasRules(g: Cfg, a: string)
    requires a in g.rules && Productive(g) && Occurs(g, a)
    ensures g.rules[a] != []
  {
    assert Derivable(g, a);
    var w, ks :| Derives(g, [N(a)], w, ks);
  }

  lemma ReachedOccurs(g: Cfg, a: string, b: string)
    requires g.WellFormed() && Occurs(g, a) && LeftReaches(g, a, b)
    ensures b in g.rules && Occurs(g, b)
  {
    hide Occurs;
    var p :| LeftPath(g, p) && p[0] == a && p[|p| - 1] == b;
    PathOccurs(g, p, |p| - 1);
  }

  lemma {:induction false} PathOccurs(g: Cfg, p: seq<string>, i: nat)
    requires g.WellFormed() && LeftPath(g, p) && i < |p| && Occurs(g, p[0])
    ensures p[i] in g.rules && Occurs(g, p[i])
  {
    hide Occurs;
    if i == 0 {
      assert LeftEdge(g, p[0], p[1]);
    } else {
      PathOccurs(g, p, i - 1);
      assert LeftEdge(g, p[i - 1], p[i]);
      var k: nat, j: nat :| LeftOccurrence(g, p[i - 1], p[i], k, j);
      RuleMentions(g, p[i - 1], k);
    }
  }
}
