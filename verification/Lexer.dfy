/** The lexer's driver: competing scanners over one buffer, with rewind, accept, skip and reset. */
module Lexing {
  import opened Wrappers
  import opened TokenCodes

  /** What a scanner does with a character it has read: push it on the token, push another one
      instead (the NUL character for none at all), or chop the token's last one and push it. */
  datatype Move = Push | PushAs(ch: char) | ChopPush

  /** What one call of a scanner comes to: after some moves it accepts what it pushed, accepts a token
      of its own (possibly none), skips, or does none of these. */
  datatype Offer =
    | Pass
    | Accept(moves: seq<Move>, code: int)
    | Give(moves: seq<Move>, token: Option<Token>)
    | Skip(moves: seq<Move>)
  {
    function Length(): nat {
      if Pass? then 0 else |moves|
    }

    /** A scanner reads no further than the input goes, and skips only over something. */
    predicate Fits(rest: string) {
      Length() <= |rest| && (Skip? ==> 0 < Length())
    }

    function Offered(rest: string): Option<Token>
      requires Fits(rest)
    {
      match this
      case Accept(moves, code) => Some(Token(code, Text(moves, rest)))
      case Give(_, token) => token
      case _ => None
    }
  }

  function Moved(token: string, move: Move, ch: char): string {
    match move
    case Push => token + [ch]
    case PushAs(c) => if c == '\0' then token else token + [c]
    case ChopPush => (if token == "" then "" else token[..|token| - 1]) + [ch]
  }

  /** The text a scanner's moves put on the token. */
  function Text(moves: seq<Move>, rest: string): string
    requires |moves| <= |rest|
  {
    if moves == [] then ""
    else
      var n := |moves| - 1;
      Moved(Text(moves[..n], rest), moves[n], rest[n])
  }

  lemma NoText(input: string)
    ensures Text([], input) == ""
  {
  }

  lemma TextNext(moves: seq<Move>, move: Move, input: string)
    requires |moves| < |input|
    ensures Text(moves + [move], input) == Moved(Text(moves, input), move, input[|moves|])
  {
    assert (moves + [move])[..|moves|] == moves;
  }

  /** A scanner that pushes what it reads accepts what it reads. */
  lemma {:induction false} TextVerbatim(moves: seq<Move>, rest: string)
    requires |moves| <= |rest| && forall i :: 0 <= i < |moves| ==> moves[i] == Push
    ensures Text(moves, rest) == rest[..|moves|]
  {
    if moves != [] { TextVerbatim(moves[..|moves| - 1], rest); }
  }

  type Matcher = string -> Offer

  datatype Scanner = Scanner(first: Option<Matcher>, second: Option<Matcher>)

  ghost predicate Honest(m: Option<Matcher>) {
    m.Some? ==> forall rest: string :: m.value(rest).Fits(rest)
  }

  ghost predicate AllHonest(scanners: seq<Scanner>) {
    forall i :: 0 <= i < |scanners| ==> Honest(scanners[i].first) && Honest(scanners[i].second)
  }

  function Call(m: Option<Matcher>, rest: string): (offer: Offer)
    ensures Honest(m) ==> offer.Fits(rest)
  {
    match m
    case None => Pass
    case Some(f) => f(rest)
  }

  function Offers(scanners: seq<Scanner>, second: bool, rest: string): (offers: seq<Offer>)
    ensures |offers| == |scanners|
    ensures AllHonest(scanners) ==> AllFit(offers, rest)
  {
    seq(|scanners|, i requires 0 <= i < |scanners| =>
      Call(if second then scanners[i].second else scanners[i].first, rest))
  }

  predicate AllFit(offers: seq<Offer>, rest: string) {
    forall i :: 0 <= i < |offers| ==> offers[i].Fits(rest)
  }

  /** The characters spoken for so far, and the token for them. */
  datatype Pick = Pick(scanned: nat, token: Option<Token>)

  /** An offer counts only if it is longer than every one before it. */
  function Taken(p: Pick, offer: Offer, rest: string): Pick
    requires offer.Fits(rest)
  {
    if offer.Length() <= p.scanned then p
    else if offer.Skip? then Pick(offer.Length(), p.token)
    else Pick(offer.Length(), offer.Offered(rest))
  }

  function Picked(offers: seq<Offer>, rest: string): Pick
    requires AllFit(offers, rest)
  {
    if offers == [] then Pick(0, None)
    else Taken(Picked(offers[..|offers| - 1], rest), offers[|offers| - 1], rest)
  }

  /** Offer `k` is longer than those before it and no shorter than those after it. */
  predicate Wins(offers: seq<Offer>, k: nat) {
    && k < |offers|
    && 0 < offers[k].Length()
    && (forall i :: 0 <= i < k ==> offers[i].Length() < offers[k].Length())
    && (forall i :: k <= i < |offers| ==> offers[i].Length() <= offers[k].Length())
  }

  /** The longest offer is taken, the earliest of equally long ones; there is none to take if and only
      if every offer is empty. */
  lemma {:induction false} LongestOfferWins(offers: seq<Offer>, rest: string)
    requires AllFit(offers, rest)
    ensures Picked(offers, rest).scanned <= |rest|
    ensures forall i :: 0 <= i < |offers| ==> offers[i].Length() <= Picked(offers, rest).scanned
    ensures Picked(offers, rest).scanned > 0 ==>
              exists k: nat :: Wins(offers, k) && Picked(offers, rest).scanned == offers[k].Length()
    ensures Picked(offers, rest).scanned == 0 ==> Picked(offers, rest).token == None
  {
    if offers != [] {
      var n := |offers| - 1;
      LongestOfferWins(offers[..n], rest);
      var p := Picked(offers[..n], rest);
      forall i | 0 <= i < n ensures offers[i].Length() <= p.scanned {
        assert offers[..n][i].Length() <= p.scanned;
      }
      if offers[n].Length() <= p.scanned {
        if p.scanned > 0 {
          var k: nat :| Wins(offers[..n], k) && p.scanned == offers[..n][k].Length();
          forall i | 0 <= i < k ensures offers[i].Length() < offers[k].Length() {
            assert offers[..n][i].Length() < offers[..n][k].Length();
          }
          assert Wins(offers, k);
        }
      } else {
        assert Wins(offers, n);
      }
    }
  }

  /** The token is the winner's own unless the winner skips: then it is what was picked before it, so a
      skip past an earlier accept leaves that scanner's shorter token for the longer span. */
  lemma {:induction false} WinnersToken(offers: seq<Offer>, rest: string, k: nat)
    requires AllFit(offers, rest) && Wins(offers, k)
    ensures Picked(offers, rest).scanned == offers[k].Length()
    ensures Picked(offers, rest).token ==
            if offers[k].Skip? then Picked(offers[..k], rest).token else offers[k].Offered(rest)
  {
    var n := |offers| - 1;
    if k == n {
      LongestOfferWins(offers[..n], rest);
      if Picked(offers[..n], rest).scanned > 0 {
        var j: nat :| Wins(offers[..n], j) && Picked(offers[..n], rest).scanned == offers[..n][j].Length();
        assert offers[j].Length() < offers[k].Length();
      }
    } else {
      WinnersToken(offers[..n], rest, k);
      assert offers[..n][..k] == offers[..k];
      assert offers[n].Length() <= offers[k].Length();
    }
  }

  /** One character accepted, and two skipped by a later scanner: the span has two characters, and the token one. */
  lemma SkipKeepsToken(code: int)
    ensures var offers := [Accept([Push], code), Skip([Push, Push])];
            AllFit(offers, "ab") && Picked(offers, "ab") == Pick(2, Some(Token(code, "a")))
  {
    var first, second := Accept([Push], code), Skip([Push, Push]);
    var offers := [first, second];
    assert offers[..1] == [first] && offers[..1][..0] == [] && "ab"[..1] == "a";
    TextVerbatim([Push], "ab");
    assert Picked(offers[..1], "ab") == Taken(Picked([], "ab"), first, "ab");
  }

  /** A skip wins over a scanner before it that offered a token. */
  predicate SkipsPast(offers: seq<Offer>, k: nat)
    requires k < |offers|
  {
    offers[k].Skip? && exists i :: 0 <= i < k && 0 < offers[i].Length() && !offers[i].Skip?
  }

  lemma {:induction false} SkipsPickNothing(offers: seq<Offer>, rest: string)
    requires AllFit(offers, rest)
    requires forall i :: 0 <= i < |offers| ==> offers[i].Length() == 0 || offers[i].Skip?
    ensures Picked(offers, rest).token == None
  {
    if offers != [] { SkipsPickNothing(offers[..|offers| - 1], rest); }
  }

  /** What a pass picks: the winner's span, and unless it skips past an offered token its token. */
  lemma PickedIsLongest(offers: seq<Offer>, rest: string)
    requires AllFit(offers, rest)
    ensures var p := Picked(offers, rest);
            && p.scanned <= |rest|
            && (p.scanned == 0 <==> forall i :: 0 <= i < |offers| ==> offers[i].Length() == 0)
            && (p.scanned > 0 ==>
                  exists k: nat :: Wins(offers, k) && p.scanned == offers[k].Length()
                    && (!SkipsPast(offers, k) ==> p.token == offers[k].Offered(rest)))
  {
    LongestOfferWins(offers, rest);
    var p := Picked(offers, rest);
    if p.scanned > 0 {
      var k: nat :| Wins(offers, k) && p.scanned == offers[k].Length();
      WinnersToken(offers, rest, k);
      if offers[k].Skip? && !SkipsPast(offers, k) { SkipsPickNothing(offers[..k], rest); }
    }
  }

  /** What one match comes to: how much is consumed, and the token for it (none when skipping). */
  datatype Outcome = Outcome(consumed: nat, token: Option<Token>)

  function Chosen(scanners: seq<Scanner>, rest: string): Pick
    requires AllHonest(scanners)
  {
    var p := Picked(Offers(scanners, false, rest), rest);
    if p.scanned == 0 then Picked(Offers(scanners, true, rest), rest) else p
  }

  function Match(scanners: seq<Scanner>, rest: string): Outcome
    requires AllHonest(scanners)
  {
    var p := Chosen(scanners, rest);
    if p.scanned > 0 then Outcome(p.scanned, p.token)
    else if rest == "" then Outcome(0, Some(Token(TOKEN_EOF, "EOF")))
    else Outcome(1, Some(Token(rest[0] as int, [rest[0]])))
  }

  /** One match: a span is the longest offered on the first pass, or on the second when the first
      offers nothing, ties going to the earliest scanner, and its token is that scanner's, unless it skips
      past an offered token; without any offer it is one character, with that character as token. Only at
      the end of the input is it empty. */
  lemma MatchIsLongest(scanners: seq<Scanner>, rest: string)
    requires AllHonest(scanners)
    ensures var o := Match(scanners, rest);
            var first, second := Offers(scanners, false, rest), Offers(scanners, true, rest);
            var firstNone := forall i :: 0 <= i < |first| ==> first[i].Length() == 0;
            var secondNone := forall i :: 0 <= i < |second| ==> second[i].Length() == 0;
            var offers := if firstNone then second else first;
            && o.consumed <= |rest|
            && (o.consumed == 0 <==> rest == "")
            && (firstNone && secondNone && rest != "" ==>
                  o == Outcome(1, Some(Token(rest[0] as int, [rest[0]]))))
            && (!(firstNone && secondNone) ==>
                  exists k: nat :: Wins(offers, k) && o.consumed == offers[k].Length()
                    && (!SkipsPast(offers, k) ==> o.token == offers[k].Offered(rest)))
  {
    hide Picked, SkipsPast, Wins, Offers;
    PickedIsLongest(Offers(scanners, false, rest), rest);
    PickedIsLongest(Offers(scanners, true, rest), rest);
  }

  /** A stretch of the input consumed by one match, and the token delivered for it. */
  datatype Span = Span(text: string, token: Option<Token>) {
    predicate Ends() {
      token.Some? && token.value.code == TOKEN_EOF
    }
  }

  /** The matches of a whole run: the lexer stops after the first token with the end-of-file code. */
  function Spans(scanners: seq<Scanner>, rest: string): (spans: seq<Span>)
    requires AllHonest(scanners)
    ensures spans != []
    decreases |rest|
  {
    MatchIsLongest(scanners, rest);
    var o := Match(scanners, rest);
    var span := Span(rest[..o.consumed], o.token);
    if span.Ends() then [span] else [span] + Spans(scanners, rest[o.consumed..])
  }

  function Joined(spans: seq<Span>): string {
    if spans == [] then "" else spans[0].text + Joined(spans[1..])
  }

  lemma {:induction false} JoinedLast(spans: seq<Span>, span: Span)
    ensures Joined(spans + [span]) == Joined(spans) + span.text
  {
    if spans == [] {
      assert Joined([span]) == span.text + Joined([]);
    } else {
      assert (spans + [span])[1..] == spans[1..] + [span];
      JoinedLast(spans[1..], span);
    }
  }

  function Tokens(spans: seq<Span>): seq<Token> {
    if spans == [] then []
    else (if spans[0].token.Some? then [spans[0].token.value] else []) + Tokens(spans[1..])
  }

  /** Where span `k` of a run starts. */
  function Start(spans: seq<Span>, k: nat): nat
    requires k <= |spans|
  {
    |Joined(spans[..k])|
  }

  lemma StartNext(spans: seq<Span>, k: nat)
    requires k < |spans|
    ensures Start(spans, k + 1) == Start(spans, k) + |spans[k].text|
  {
    JoinedLast(spans[..k], spans[k]);
    assert spans[..k + 1] == spans[..k] + [spans[k]];
  }

  lemma StartShift(spans: seq<Span>, k: nat)
    requires 0 < k <= |spans|
    ensures Start(spans, k) == |spans[0].text| + Start(spans[1..], k - 1)
  {
    assert spans[..k][1..] == spans[1..][..k - 1];
  }

  /** A span that starts at `start` is what matching from there comes to; unless it is the last one
      it does not end the run and is not empty. */
  ghost predicate SpanAt(scanners: seq<Scanner>, rest: string, start: nat, span: Span, last: bool)
    requires AllHonest(scanners)
  {
    && start <= |rest|
    && var o := Match(scanners, rest[start..]);
       && o.consumed <= |rest| - start
       && span == Span(rest[start..][..o.consumed], o.token)
       && (if last then span.Ends() else !span.Ends() && 0 < o.consumed)
  }

  lemma SpansUnfold(scanners: seq<Scanner>, rest: string)
    requires AllHonest(scanners)
    ensures var o := Match(scanners, rest);
            var spans := Spans(scanners, rest);
            && o.consumed <= |rest|
            && spans[0] == Span(rest[..o.consumed], o.token)
            && (o.consumed == 0 ==> spans[0].Ends())
            && spans[1..] == (if spans[0].Ends() then [] else Spans(scanners, rest[o.consumed..]))
  {
    MatchIsLongest(scanners, rest);
  }

  /** Contiguous spans: each starts where the one before it ends and is what matching from there
      comes to; only one that ends the run can be empty, so there are at most as many as there are
      characters, and one more. */
  lemma {:induction false} SpansAreContiguous(scanners: seq<Scanner>, rest: string)
    requires AllHonest(scanners)
    ensures var spans := Spans(scanners, rest);
            && Joined(spans) <= rest
            && |spans| <= |rest| + 1
            && (forall k: nat :: k < |spans| ==>
                  SpanAt(scanners, rest, Start(spans, k), spans[k], k == |spans| - 1))
    decreases |rest|
  {
    hide Match, Spans, AllHonest;
    SpansUnfold(scanners, rest);
    var o := Match(scanners, rest);
    var spans := Spans(scanners, rest);
    assert rest[0..] == rest && Start(spans, 0) == 0;
    if !spans[0].Ends() {
      var tail := rest[o.consumed..];
      SpansAreContiguous(scanners, tail);
      assert Joined(spans) == rest[..o.consumed] + Joined(spans[1..]);
      forall k: nat | 0 < k < |spans|
        ensures SpanAt(scanners, rest, Start(spans, k), spans[k], k == |spans| - 1)
      {
        StartShift(spans, k);
        var start := Start(spans[1..], k - 1);
        assert SpanAt(scanners, tail, start, spans[1..][k - 1], k == |spans| - 1);
        assert rest[o.consumed + start..] == tail[start..];
      }
    }
  }

  /** A run delivers the whole input if and only if no span short of the end carries the end-of-file
      code. */
  lemma CoversUnlessCut(scanners: seq<Scanner>, input: string)
    requires AllHonest(scanners)
    ensures var spans := Spans(scanners, input);
            Joined(spans) == input <==>
            forall k: nat :: k < |spans| && spans[k].Ends() ==> Start(spans, k) + |spans[k].text| == |input|
  {
    hide Match, Spans, AllHonest;
    SpansAreContiguous(scanners, input);
    var spans := Spans(scanners, input);
    var n := |spans| - 1;
    assert SpanAt(scanners, input, Start(spans, n), spans[n], true);
    StartNext(spans, n);
    assert spans[..n + 1] == spans;
    forall k: nat | k < |spans| && spans[k].Ends() ensures k == n {
      assert SpanAt(scanners, input, Start(spans, k), spans[k], k == n);
    }
  }

  /** No scanner's token has the end-of-file code. */
  ghost predicate NeverEnds(scanners: seq<Scanner>)
    requires AllHonest(scanners)
  {
    forall rest: string :: var p := Chosen(scanners, rest); p.token.Some? ==> p.token.value.code != TOKEN_EOF
  }

  /** A character no scanner wants is its own token code, and the end-of-file code is that of a
      carriage return. */
  predicate BareReturn(scanners: seq<Scanner>, rest: string)
    requires AllHonest(scanners)
  {
    |rest| > 1 && rest[0] == '\r' && Chosen(scanners, rest).scanned == 0
  }

  lemma EndsAtReturn(scanners: seq<Scanner>, rest: string)
    requires AllHonest(scanners) && NeverEnds(scanners)
    ensures var o := Match(scanners, rest);
            && o.consumed <= |rest|
            && (BareReturn(scanners, rest) <==>
                o.token.Some? && o.token.value.code == TOKEN_EOF && o.consumed != |rest|)
  {
    MatchIsLongest(scanners, rest);
    hide Picked, Offers;
    var p := Chosen(scanners, rest);
    assert p.token.Some? ==> p.token.value.code != TOKEN_EOF;
  }

  /** With scanners that never use that code, the run delivers the whole input if and only if it
      never comes to a carriage return that no scanner wants with more input behind it. */
  lemma CoversUnlessBareReturn(scanners: seq<Scanner>, input: string)
    requires AllHonest(scanners) && NeverEnds(scanners)
    ensures var spans := Spans(scanners, input);
            && (forall k: nat :: k < |spans| ==> Start(spans, k) <= |input|)
            && (Joined(spans) == input <==>
                forall k: nat :: k < |spans| ==> !BareReturn(scanners, input[Start(spans, k)..]))
  {
    hide Match, Spans, AllHonest, Chosen, NeverEnds, Start, Joined, BareReturn;
    SpansAreContiguous(scanners, input);
    CoversUnlessCut(scanners, input);
    var spans := Spans(scanners, input);
    forall k: nat | k < |spans|
      ensures Start(spans, k) <= |input|
      ensures BareReturn(scanners, input[Start(spans, k)..])
              <==> spans[k].Ends() && Start(spans, k) + |spans[k].text| != |input|
    {
      var start := Start(spans, k);
      assert SpanAt(scanners, input, start, spans[k], k == |spans| - 1);
      EndsAtReturn(scanners, input[start..]);
    }
  }

  /** Without scanners, a carriage return in front of other text ends the run: its own code is the
      end-of-file code. */
  lemma ReturnCutsRun()
    ensures Spans([], "\rx") == [Span("\r", Some(Token(TOKEN_EOF, "\r")))]
    ensures Joined(Spans([], "\rx")) != "\rx"
  {
    var spans := Spans([], "\rx");
    assert Offers([], false, "\rx") == [] && Offers([], true, "\rx") == [];
    assert Match([], "\rx") == Outcome(1, Some(Token(13, ['\r'])));
    assert "\rx"[..1] == "\r" && ['\r'] == "\r";
    assert spans[1..] == [];
    assert Joined(spans) == "\r";
  }

  datatype State = Init | Success | Done

  class Lexer {
    const scanners: seq<Scanner>
    ghost const input: string
    var buffer: string
    var pos: nat
    var token: string
    var current: char
    var state: State
    var lastToken: Option<Token>
    var scanned: nat
    var count: nat
    var scanCount: nat

    /** What is left in the buffer is what has not been counted. */
    ghost predicate Valid()
      reads this
    {
      && AllHonest(scanners)
      && '\0' !in input
      && count <= |input|
      && buffer == input[count..]
    }

    constructor (scanners: seq<Scanner>, text: string)
      requires AllHonest(scanners) && '\0' !in text
      ensures Valid() && Ready() && input == text && this.scanners == scanners
      ensures Delivered([])
    {
      this.scanners, input, buffer := scanners, text, text;
      pos, token, current := 0, "", '\0';
      state, lastToken := Init, None;
      scanned, count, scanCount := 0, 0, 0;
      new;
      NothingYet(scanners, text);
    }

    /** Nothing read, pushed or spoken for since the last reset. */
    predicate Ready()
      reads this
    {
      pos == 0 && token == "" && scanned == 0 && scanCount == 0
    }

    predicate Rewound()
      reads this
    {
      pos == 0 && token == "" && scanCount == 0
    }

    /** A scanner has made these moves since the last rewind. */
    predicate At(moves: seq<Move>)
      reads this
    {
      |moves| <= |buffer| && pos == scanCount == |moves| && token == Text(moves, buffer)
    }

    /** One more character has been read, and not pushed yet. */
    predicate Reading(moves: seq<Move>)
      reads this
    {
      && |moves| < |buffer|
      && pos == |moves| + 1 && scanCount == |moves| && token == Text(moves, buffer)
      && current == buffer[|moves|] && current != '\0'
    }

    method GetChar() returns (ch: char)
      modifies `pos, `current
      ensures ch == if old(pos) < |buffer| then buffer[old(pos)] else '\0'
      ensures pos == old(pos) + 1 && current == ch
    {
      ch := if pos < |buffer| then buffer[pos] else '\0';
      pos := pos + 1;
      current := ch;
    }

    method DoPushAs(ch: char)
      modifies `token, `current, `scanCount
      ensures token == old(token) + (if ch == '\0' then "" else [ch])
      ensures scanCount == old(scanCount) + 1 && current == '\0'
    {
      if ch != '\0' { token := token + [ch]; }
      current := '\0';
      scanCount := scanCount + 1;
    }

    method DoPush()
      modifies `token, `current, `scanCount
      ensures token == old(token) + (if old(current) == '\0' then "" else [old(current)])
      ensures scanCount == old(scanCount) + 1 && current == '\0'
    {
      DoPushAs(current);
    }

    method Discard()
      modifies `token, `current, `scanCount
      ensures token == old(token)
      ensures scanCount == old(scanCount) + 1 && current == '\0'
    {
      DoPushAs('\0');
    }

    /** Reads a character for a scanner that has made `moves`. */
    method ReadNext(ghost moves: seq<Move>) returns (ch: char)
      requires Valid() && At(moves)
      modifies `pos, `current
      ensures ch == '\0' <==> |moves| == |buffer|
      ensures current == ch && (ch != '\0' ==> Reading(moves))
    {
      assert |moves| < |buffer| ==> buffer[|moves|] == input[count + |moves|];
      ch := GetChar();
    }

    method Chop()
      modifies `token
      ensures token == if old(token) == "" then "" else old(token)[..|old(token)| - 1]
    {
      if token != "" { token := token[..|token| - 1]; }
    }

    method Rewind()
      modifies `token, `pos, `scanCount
      ensures Rewound()
    {
      token, pos, scanCount := "", 0, 0;
    }

    method SkipChars(n: nat)
      modifies `pos
      ensures pos == if old(pos) + n > |buffer| then |buffer| else old(pos) + n
    {
      pos := if pos + n > |buffer| then |buffer| else pos + n;
    }

    /** Everything spoken for leaves the buffer. */
    method Reset()
      requires Valid() && scanned <= |buffer|
      modifies this
      ensures Valid() && Ready()
      ensures buffer == old(buffer)[old(scanned)..] && count == old(count) + old(scanned)
      ensures lastToken == old(lastToken) && state == old(state)
    {
      pos := 0;
      SkipChars(scanned);
      buffer, pos := buffer[pos..], 0;
      current := '\0';
      token := "";
      count := count + scanned;
      scanned, scanCount := 0, 0;
    }

    method DoSkip()
      modifies `scanned, `state, `token, `pos, `scanCount
      ensures scanCount == 0 || scanCount == old(scanCount)
      ensures if old(scanned) == 0 || old(scanCount) > old(scanned)
              then scanned == old(scanCount) && state == Success && Rewound()
              else scanned == old(scanned) && state == old(state) && pos == old(pos) && token == old(token)
    {
      if scanned == 0 || scanCount > scanned {
        scanned := scanCount;
        Rewind();
        state := Success;
      }
    }

    method AcceptToken(t: Option<Token>)
      modifies `scanned, `state, `token, `pos, `scanCount, `lastToken
      ensures if old(scanCount) > old(scanned)
              then lastToken == t && scanned == old(scanCount) && state == Success && Rewound()
              else lastToken == old(lastToken) && scanned == old(scanned) && state == old(state)
    {
      if scanCount > 0 && (scanned == 0 || scanCount > scanned) {
        lastToken := t;
        DoSkip();
      }
    }

    method DoAccept(code: int)
      modifies `scanned, `state, `token, `pos, `scanCount, `lastToken
      ensures if old(scanCount) > old(scanned)
              then lastToken == Some(Token(code, old(token))) && scanned == old(scanCount)
                   && state == Success && Rewound()
              else lastToken == old(lastToken) && scanned == old(scanned) && state == old(state)
    {
      AcceptToken(Some(Token(code, token)));
    }

    function SpokenFor(): Pick
      reads this
    {
      Pick(scanned, lastToken)
    }

    /** A scanner's moves: each reads one character and pushes it, or something for it. */
    method MakeMoves(moves: seq<Move>)
      requires Valid() && Rewound() && |moves| <= |buffer|
      modifies `pos, `current, `token, `scanCount
      ensures At(moves)
    {
      var i := 0;
      while i < |moves|
        invariant 0 <= i <= |moves| && At(moves[..i])
      {
        var ch := GetChar();
        assert ch == input[count + i];
        match moves[i] {
          case Push => DoPush();
          case PushAs(c) => DoPushAs(c);
          case ChopPush => Chop(); DoPush();
        }
        assert moves[..i + 1][..i] == moves[..i];
        i := i + 1;
      }
      assert moves[..i] == moves;
    }

    /** One call of a scanner, given what it comes to. */
    method Scan(offer: Offer)
      requires Valid() && Rewound() && offer.Fits(buffer)
      requires state == Success <==> scanned > 0
      modifies this
      ensures Valid() && buffer == old(buffer) && count == old(count)
      ensures SpokenFor() == Taken(old(SpokenFor()), offer, buffer)
      ensures state == (if scanned > 0 then Success else old(state))
    {
      hide Text, AllHonest;
      if offer.Pass? { return; }
      MakeMoves(offer.moves);
      match offer {
        case Accept(_, code) => DoAccept(code);
        case Give(_, t) => AcceptToken(t);
        case Skip(_) => DoSkip();
      }
    }

    /** One pass over the scanners. */
    method Pass(second: bool)
      requires Valid() && scanned == 0 && lastToken == None && state == Init
      modifies this
      ensures Valid() && buffer == old(buffer) && count == old(count)
      ensures AllFit(Offers(scanners, second, buffer), buffer)
      ensures SpokenFor() == Picked(Offers(scanners, second, buffer), buffer)
      ensures state == (if scanned > 0 then Success else Init)
    {
      ghost var offers := Offers(scanners, second, buffer);
      var i := 0;
      while i < |scanners|
        invariant 0 <= i <= |scanners|
        invariant Valid() && buffer == old(buffer) && count == old(count)
        invariant SpokenFor() == Picked(offers[..i], buffer)
        invariant state == (if scanned > 0 then Success else Init)
      {
        scanCount := 0;
        var m := if second then scanners[i].second else scanners[i].first;
        assert offers[..i + 1][..i] == offers[..i] && offers[i] == Call(m, buffer);
        if m.Some? {
          Rewind();
          Scan(m.value(buffer));
        }
        i := i + 1;
      }
      assert offers[..i] == offers;
    }

    method MatchToken()
      requires Valid() && Ready() && lastToken == None
      modifies this
      ensures Valid() && Ready()
      ensures var o := Match(scanners, old(buffer));
              && o.consumed <= |old(buffer)|
              && buffer == old(buffer)[o.consumed..]
              && count == old(count) + o.consumed
              && lastToken == o.token
    {
      hide Picked, Taken, Offers;
      LongestOfferWins(Offers(scanners, false, buffer), buffer);
      LongestOfferWins(Offers(scanners, true, buffer), buffer);
      state := Init;
      scanned := 0;
      Pass(false);
      if lastToken == None && state != Success {
        Pass(true);
      }
      if lastToken == None {
        if state != Success {
          Rewind();
          var ch := GetChar();
          assert buffer != "" ==> buffer[0] == input[count];
          if ch != '\0' {
            DoPush();
            assert ch == buffer[0] && token == [ch];
            DoAccept(ch as int);
          } else {
            state := Done;
            lastToken := Some(Token(TOKEN_EOF, "EOF"));
          }
        } else {
          assert scanned > 0;
        }
      }
      if lastToken.Some? {
        state := Success;
      }
      Reset();
    }

    /** The next token: matches until one delivers a token. With `past` the matches so far, and
        `more` those made now, the run stays the run of the whole input. */
    method NextToken(ghost past: seq<Span>) returns (t: Option<Token>, ghost more: seq<Span>)
      requires Valid() && Ready() && Delivered(past)
      modifies this
      ensures Valid() && Ready() && Delivered(past + more)
      ensures t == None <==> past != [] && past[|past| - 1].Ends()
      ensures t == None ==> more == []
      ensures t.Some? ==> t == lastToken && more != [] && Tokens(more) == [t.value]
      ensures t.Some? ==> more[|more| - 1].Ends() || |buffer| < |old(buffer)|
      ensures |buffer| <= |old(buffer)|
    {
      hide Match, Spans, AllHonest, Joined, Tokens;
      more := [];
      assert past + more == past;
      if lastToken.Some? {
        if lastToken.value.code == TOKEN_EOF {
          t := None;
          return;
        }
        lastToken := None;
      }
      assert Tokens([]) == [] by { NoTokens(); }
      while true
        invariant Valid() && Ready() && lastToken == None
        invariant Tokens(more) == []
        invariant Midway(scanners, input, past + more, buffer)
        invariant |buffer| <= |old(buffer)|
        decreases |buffer|
      {
        ghost var rest, done := buffer, more;
        Advance(scanners, input, past + done, rest);
        MatchToken();
        ghost var o := Match(scanners, rest);
        ghost var span := Span(rest[..o.consumed], o.token);
        more := done + [span];
        assert past + more == (past + done) + [span];
        TokensLast(done, span);
        if lastToken.Some? {
          break;
        }
      }
      t := lastToken;
      assert (past + more)[|past + more| - 1] == more[|more| - 1];
    }

    /** A whole run: the tokens of the input's spans, counted up to where the run stops. */
    method Tokenize() returns (tokens: seq<Token>)
      requires Valid() && Ready() && Delivered([])
      modifies this
      ensures Valid()
      ensures tokens == Tokens(Spans(scanners, input))
      ensures count == |Joined(Spans(scanners, input))|
    {
      hide Match, Spans, AllHonest;
      tokens := [];
      ghost var spans: seq<Span> := [];
      while true
        invariant Valid() && Ready() && Delivered(spans)
        invariant tokens == Tokens(spans)
        decreases |buffer|, spans == [] || !spans[|spans| - 1].Ends()
      {
        var t;
        ghost var more;
        t, more := NextToken(spans);
        if t == None { break; }
        TokensJoin(spans, more);
        tokens := tokens + [t.value];
        spans := spans + more;
      }
    }

    /** `past` are the matches made so far, the last of which delivered the last token. */
    ghost predicate Delivered(past: seq<Span>)
      requires Valid()
      reads this
    {
      && lastToken == (if past == [] then None else past[|past| - 1].token)
      && (past != [] ==> lastToken.Some?)
      && Joined(past) == input[..count]
      && (if past != [] && past[|past| - 1].Ends() then past == Spans(scanners, input)
          else Midway(scanners, input, past, buffer))
    }
  }

  /** The matches so far, then those of the rest, are the run of the input. */
  ghost predicate Midway(scanners: seq<Scanner>, input: string, past: seq<Span>, rest: string)
    requires AllHonest(scanners)
  {
    && Joined(past) + rest == input
    && past + Spans(scanners, rest) == Spans(scanners, input)
  }

  lemma SplitOff<T>(a: seq<T>, b: seq<T>)
    requires b != []
    ensures a + b == a + [b[0]] + b[1..]
  {
    assert b == [b[0]] + b[1..];
  }

  lemma Advance(scanners: seq<Scanner>, input: string, past: seq<Span>, rest: string)
    requires AllHonest(scanners) && Midway(scanners, input, past, rest)
    ensures var o := Match(scanners, rest);
            && o.consumed <= |rest|
            && var span := Span(rest[..o.consumed], o.token);
               && Joined(past + [span]) + rest[o.consumed..] == input
               && (o.consumed == 0 ==> span.Ends())
               && (if span.Ends() then past + [span] == Spans(scanners, input)
                   else Midway(scanners, input, past + [span], rest[o.consumed..]))
  {
    hide Match, AllHonest, Spans, Joined, Span.Ends;
    SpansUnfold(scanners, rest);
    var o := Match(scanners, rest);
    var span := Span(rest[..o.consumed], o.token);
    JoinedLast(past, span);
    assert rest == span.text + rest[o.consumed..];
    var spans := Spans(scanners, rest);
    SplitOff(past, spans);
    assert past + [span] + [] == past + [span];
  }

  lemma NothingYet(scanners: seq<Scanner>, input: string)
    requires AllHonest(scanners)
    ensures Midway(scanners, input, [], input)
  {
    assert [] + Spans(scanners, input) == Spans(scanners, input);
  }

  lemma NoTokens()
    ensures Tokens([]) == []
  {
  }

  lemma TokensLast(spans: seq<Span>, span: Span)
    ensures Tokens(spans + [span]) == Tokens(spans) + if span.token.Some? then [span.token.value] else []
  {
    TokensJoin(spans, [span]);
    assert [span][1..] == [];
    assert Tokens([span]) == if span.token.Some? then [span.token.value] else [];
  }

  lemma {:induction false} TokensJoin(a: seq<Span>, b: seq<Span>)
    ensures Tokens(a + b) == Tokens(a) + Tokens(b)
  {
    if a == [] {
      assert a + b == b;
    } else {
      assert (a + b)[1..] == a[1..] + b;
      TokensJoin(a[1..], b);
    }
  }
}
