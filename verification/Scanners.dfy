/** The keyword, number and quoted-string scanners behind one lexer. */
module ConcreteScanners {
  import opened Wrappers
  import opened TokenCodes
  import opened Lexing
  import opened Keywords
  import opened LexerConfigs
  import opened Numbers
  import opened QStrings

  /** The settings of the three scanners. */
  datatype Settings = Settings(keywords: seq<Token>, numbers: NumConfig, quotes: string)

  function MatcherFor(code: string, s: Settings): Option<Matcher> {
    if code == "keyword" then Some((input: string) => KeywordOffer(s.keywords, input))
    else if code == "number" then Some((input: string) => NumOffer(s.numbers, input))
    else if code == "qstring" then Some((input: string) => QStrOffer(s.quotes, input))
    else None
  }

  /** The scanners of a configuration, in its order; none of them has a second pass. */
  ghost function ScannersOf(order: seq<ScannerConfig>, s: Settings): seq<Scanner> {
    seq(|order|, i requires 0 <= i < |order| => Scanner(MatcherFor(order[i].code, s), None))
  }

  function Standard(s: Settings): seq<Scanner> {
    [Scanner(MatcherFor("keyword", s), None), Scanner(MatcherFor("number", s), None),
     Scanner(MatcherFor("qstring", s), None)]
  }

  /** Keywords come first even when they are added last: their priority is 10, that of the others 0. */
  method Configure(s: Settings) returns (config: LexerConfig)
    ensures fresh(config) && config.Valid() && ScannersOf(config.order, s) == Standard(s)
  {
    config := new LexerConfig();
    var number := config.AddScanner("number", 0);
    var qstring := config.AddScanner("qstring", 0);
    var keyword := config.AddScanner("keyword", 10);
    assert config.order == [keyword, number, qstring];
  }

  lemma NoScanners(s: Settings)
    ensures ScannersOf([], s) == []
  {
  }

  lemma OneMore(order: seq<ScannerConfig>, k: nat, s: Settings)
    requires k < |order|
    ensures ScannersOf(order[..k + 1], s)
            == ScannersOf(order[..k], s) + [Scanner(MatcherFor(order[k].code, s), None)]
  {
  }

  /** The scanners in the order of the list. */
  method Collect(config: LexerConfig, s: Settings) returns (scanners: seq<Scanner>)
    requires config.Valid()
    ensures scanners == ScannersOf(config.order, s)
  {
    hide Proper, ScannersOf, MatcherFor;
    scanners := [];
    NoScanners(s);
    var scanner := config.scanners;
    ghost var k := 0;
    while scanner != null
      invariant 0 <= k <= |config.order| && scanner == LexerConfigs.At(config.order, k)
      invariant scanners == ScannersOf(config.order[..k], s)
      decreases |config.order| - k
    {
      OneMore(config.order, k, s);
      scanners := scanners + [Scanner(MatcherFor(scanner.code, s), None)];
      scanner := scanner.next;
      k := k + 1;
    }
    assert config.order[..k] == config.order;
  }

  lemma StandardIsHonest(s: Settings)
    ensures AllHonest(Standard(s))
  {
    hide KeywordOffer, NumOffer, QStrOffer;
  }

  lemma StandardOffers(s: Settings, rest: string)
    ensures Offers(Standard(s), false, rest)
            == [KeywordOffer(s.keywords, rest), NumOffer(s.numbers, rest), QStrOffer(s.quotes, rest)]
    ensures Offers(Standard(s), true, rest) == [Pass, Pass, Pass]
  {
  }

  lemma {:induction false} BodySkipsNot(quote: char, input: string, i: nat, escape: bool, moves: seq<Move>)
    requires i == |moves| <= |input|
    ensures var offer := Body(quote, input, i, escape, moves);
            !offer.Skip? && (offer.Accept? ==> offer.code == quote as int)
            && (offer.Give? ==> offer.token == Some(Token(TOKEN_ERROR, "Unterminated string")))
    decreases |input| - i
  {
    if i < |input| && !(!escape && input[i] == quote) {
      var move := if escape then Escaped(input[i]) else if input[i] == '\\' then DISCARD else Push;
      BodySkipsNot(quote, input, i + 1, !escape && input[i] == '\\', moves + [move]);
    }
  }

  lemma {:induction false} RunSkipsNot(config: NumConfig, input: string, p: Progress)
    requires p.Fits(input)
    ensures var offer := Run(config, input, p);
            !offer.Skip? && (offer.Accept? ==> offer.code in {TOKEN_INTEGER, TOKEN_HEX, TOKEN_FLOAT})
            && (offer.Give? ==> offer.token == Some(Token(TOKEN_ERROR, "Malformed number")))
    decreases |input| - |p.moves|
  {
    if !p.Stops(config, input) { RunSkipsNot(config, input, p.Advance(config, input)); }
  }

  /** Which of three offers is taken: the longest, and of equally long ones the earliest. */
  function Longest3(a: Offer, b: Offer, c: Offer): Offer {
    if b.Length() <= a.Length() && c.Length() <= a.Length() then a
    else if c.Length() <= b.Length() then b
    else c
  }

  lemma PickedOfThree(a: Offer, b: Offer, c: Offer, rest: string)
    requires a.Fits(rest) && b.Fits(rest) && c.Fits(rest) && !a.Skip? && !b.Skip? && !c.Skip?
    ensures var best := Longest3(a, b, c);
            Picked([a, b, c], rest)
            == if best.Length() == 0 then Pick(0, None) else Pick(best.Length(), best.Offered(rest))
  {
    var offers := [a, b, c];
    assert offers[..2] == [a, b] && offers[..2][..1] == [a] && offers[..1][..0] == [];
    assert Picked(offers[..1], rest) == Taken(Picked([], rest), a, rest);
    assert Picked(offers[..2], rest) == Taken(Picked(offers[..1], rest), b, rest);
  }

  /** One match with the three scanners: the longest of their offers, a keyword's before a number's before a
      string's, and otherwise one character. */
  lemma StandardMatch(s: Settings, rest: string)
    ensures AllHonest(Standard(s))
    ensures var best := Longest3(KeywordOffer(s.keywords, rest), NumOffer(s.numbers, rest), QStrOffer(s.quotes, rest));
            Match(Standard(s), rest) ==
            if best.Length() > 0 then Outcome(best.Length(), best.Offered(rest))
            else if rest == "" then Outcome(0, Some(Token(TOKEN_EOF, "EOF")))
            else Outcome(1, Some(Token(rest[0] as int, [rest[0]])))
  {
    hide KeywordOffer, Body, Run, Picked, Offers;
    StandardIsHonest(s);
    StandardOffers(s, rest);
    RunSkipsNot(s.numbers, rest, START);
    if rest != "" && rest[0] in s.quotes { BodySkipsNot(rest[0], rest, 1, false, [DISCARD]); }
    KeywordSkipsNot(s.keywords, rest);
    PickedOfThree(KeywordOffer(s.keywords, rest), NumOffer(s.numbers, rest), QStrOffer(s.quotes, rest), rest);
    PickedOfThree(Pass, Pass, Pass, rest);
  }

  lemma KeywordSkipsNot(ks: seq<Token>, rest: string)
    ensures var offer := KeywordOffer(ks, rest); !offer.Skip? && !offer.Give?
    ensures var offer := KeywordOffer(ks, rest); offer.Accept? ==> exists t :: t in ks && t.code == offer.code
  {
    var n := Reach(ks, rest, 0);
    LongestIsLongest(ks, rest[..n]);
  }

  /** No keyword has the end-of-file code, and no quote is the character with that code. */
  predicate KeepsEndFree(s: Settings) {
    (forall t :: t in s.keywords ==> t.code != TOKEN_EOF) && '\r' !in s.quotes
  }

  lemma StandardNeverEnds(s: Settings)
    requires AllHonest(Standard(s)) && KeepsEndFree(s)
    ensures NeverEnds(Standard(s))
  {
    hide KeywordOffer, Body, Run, Picked, Offers;
    forall rest: string
      ensures var p := Lexing.Chosen(Standard(s), rest); p.token.Some? ==> p.token.value.code != TOKEN_EOF
    {
      StandardOffers(s, rest);
      RunSkipsNot(s.numbers, rest, START);
      if rest != "" && rest[0] in s.quotes { BodySkipsNot(rest[0], rest, 1, false, [DISCARD]); }
      KeywordSkipsNot(s.keywords, rest);
      PickedOfThree(KeywordOffer(s.keywords, rest), NumOffer(s.numbers, rest), QStrOffer(s.quotes, rest), rest);
      PickedOfThree(Pass, Pass, Pass, rest);
    }
  }

  /** A run of the three scanners: contiguous spans, each the match of what is left, and the whole input if and
      only if it never comes to a carriage return that no keyword takes with more input behind it. */
  lemma StandardRun(s: Settings, input: string)
    ensures AllHonest(Standard(s))
    ensures var spans := Spans(Standard(s), input);
            && Joined(spans) <= input && |spans| <= |input| + 1
            && (forall k: nat :: k < |spans| ==>
                  SpanAt(Standard(s), input, Lexing.Start(spans, k), spans[k], k == |spans| - 1))
            && (KeepsEndFree(s) ==>
                  (Joined(spans) == input <==>
                   forall k: nat :: k < |spans| ==> !ReturnAhead(s, input[Lexing.Start(spans, k)..])))
  {
    hide Match, Spans, AllHonest, NeverEnds, Standard, Lexing.Start, Joined;
    StandardIsHonest(s);
    SpansAreContiguous(Standard(s), input);
    if KeepsEndFree(s) {
      StandardNeverEnds(s);
      CoversUnlessBareReturn(Standard(s), input);
      forall rest: string ensures ReturnAhead(s, rest) <==> BareReturn(Standard(s), rest) { ReturnIsBare(s, rest); }
    }
  }

  /** A carriage return with more input behind it, and no keyword for it. */
  predicate ReturnAhead(s: Settings, rest: string) {
    |rest| > 1 && rest[0] == '\r' && KeywordOffer(s.keywords, rest).Length() == 0
  }

  lemma ReturnIsBare(s: Settings, rest: string)
    requires AllHonest(Standard(s)) && KeepsEndFree(s)
    ensures ReturnAhead(s, rest) <==> BareReturn(Standard(s), rest)
  {
    hide KeywordOffer, Body, Picked, Offers;
    if |rest| > 1 && rest[0] == '\r' {
      StandardOffers(s, rest);
      RunSkipsNot(s.numbers, rest, START);
      KeywordSkipsNot(s.keywords, rest);
      PickedOfThree(KeywordOffer(s.keywords, rest), NumOffer(s.numbers, rest), QStrOffer(s.quotes, rest), rest);
      PickedOfThree(Pass, Pass, Pass, rest);
      NoNumber(s.numbers, rest);
    }
  }

  lemma NoNumber(config: NumConfig, rest: string)
    requires rest != "" && rest[0] == '\r'
    ensures NumOffer(config, rest).Length() == 0
  {
    assert START.Stops(config, rest);
  }

  /** A configured lexer delivers the tokens of that run. */
  method Tokenize(s: Settings, input: string) returns (tokens: seq<Token>)
    requires '\0' !in input
    ensures AllHonest(Standard(s)) && tokens == Tokens(Spans(Standard(s), input))
  {
    hide Match, Spans, Standard, AllHonest;
    StandardIsHonest(s);
    var config := Configure(s);
    var scanners := Collect(config, s);
    var lexer := new Lexer(scanners, input);
    tokens := lexer.Tokenize();
  }
}
