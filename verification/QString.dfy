/** The quoted-string scanner: a state machine that drops the quotes and undoes the escapes. */
module QStrings {
  import opened Wrappers
  import opened TokenCodes
  import opened Lexing

  const DISCARD := PushAs('\0')

  /** What is pushed for a character behind a backslash. */
  function Escaped(ch: char): Move {
    if ch == 'r' then PushAs('\r')
    else if ch == 'n' then PushAs('\n')
    else if ch == 't' then PushAs('\t')
    else Push
  }

  /** What the scanner makes of the input from `i` on, having made `moves` before. */
  function Body(quote: char, input: string, i: nat, escape: bool, moves: seq<Move>): (offer: Offer)
    requires i == |moves| <= |input|
    ensures offer.Fits(input)
    decreases |input| - i
  {
    if i == |input| then Give(moves, Some(Token(TOKEN_ERROR, "Unterminated string")))
    else if escape then Body(quote, input, i + 1, false, moves + [Escaped(input[i])])
    else if input[i] == quote then Accept(moves + [DISCARD], quote as int)
    else if input[i] == '\\' then Body(quote, input, i + 1, true, moves + [DISCARD])
    else Body(quote, input, i + 1, false, moves + [Push])
  }

  function QStrOffer(quotes: string, input: string): (offer: Offer)
    ensures offer.Fits(input)
  {
    if input == "" || input[0] !in quotes then Pass
    else Body(input[0], input, 1, false, [DISCARD])
  }

  /** What a character behind a backslash stands for. */
  function Meant(ch: char): char {
    match ch
    case 'r' => '\r'
    case 'n' => '\n'
    case 't' => '\t'
    case _ => ch
  }

  /** The text that stands between the quotes as `written`; none, if a quote in it ends the string before that, or a
      last backslash keeps it from ending there. */
  function Unescaped(quote: char, written: string): Option<string> {
    if written == "" then Some("")
    else if written[0] == quote || written == "\\" then None
    else
      var length := if written[0] == '\\' then 2 else 1;
      match Unescaped(quote, written[length..])
      case None => None
      case Some(text) => Some([if length == 2 then Meant(written[1]) else written[0]] + text)
  }

  /** The scanner accepts this text, and consumes this much. */
  predicate Accepts(offer: Offer, input: string, quote: char, text: string, length: nat)
    requires offer.Fits(input)
  {
    offer.Accept? && offer.code == quote as int && offer.Length() == length && Text(offer.moves, input) == text
  }

  /** The scanner accepts a string of this length. */
  predicate AcceptsSome(offer: Offer, length: nat) {
    offer.Accept? && offer.Length() == length
  }

  lemma Behind(input: string, i: nat, front: string, more: string)
    requires i <= |input| && input[i..] == front + more
    ensures i + |front| <= |input| && input[i + |front|..] == more
    ensures forall k :: 0 <= k < |front| ==> input[i + k] == front[k]
  {
    assert input[i..][|front|..] == more;
    forall k | 0 <= k < |front| ensures input[i + k] == front[k] {
      assert input[i..][k] == front[k];
    }
  }

  lemma {:induction false} AcceptsBehind(quote: char, input: string, i: nat, escape: bool, moves: seq<Move>)
    requires i == |moves| <= |input|
    ensures var offer := Body(quote, input, i, escape, moves);
            offer.Accept? ==> i < offer.Length() <= |input| && input[offer.Length() - 1] == quote
    decreases |input| - i
  {
    hide Escaped;
    if i < |input| && (escape || input[i] != quote) {
      var move := if escape then Escaped(input[i]) else if input[i] == '\\' then DISCARD else Push;
      AcceptsBehind(quote, input, i + 1, !escape && input[i] == '\\', moves + [move]);
    }
  }

  /** What is pushed for one written character, or for a backslash and one. */
  lemma OneWritten(quote: char, input: string, i: nat, moves: seq<Move>, written: string, more: string)
    returns (after: seq<Move>)
    requires i == |moves| <= |input| && input[i..] == written + more && '\0' !in written
    requires written != "" && written[0] != quote && |written| == if written[0] == '\\' then 2 else 1
    ensures |after| == i + |written| <= |input| && input[|after|..] == more
    ensures Body(quote, input, i, false, moves) == Body(quote, input, |after|, false, after)
    ensures Text(after, input) ==
            Text(moves, input) + [if written[0] == '\\' then Meant(written[1]) else written[0]]
  {
    hide Text;
    Behind(input, i, written, more);
    if written[0] == '\\' {
      var escaped := moves + [DISCARD];
      after := escaped + [Escaped(written[1])];
      TextNext(moves, DISCARD, input);
      TextNext(escaped, Escaped(written[1]), input);
      BodyStep(quote, input, moves, false);
      BodyStep(quote, input, escaped, true);
    } else {
      after := moves + [Push];
      TextNext(moves, Push, input);
    }
  }

  lemma {:induction false} BodyReads(quote: char, input: string, i: nat, moves: seq<Move>, written: string,
                                     rest: string)
    requires i == |moves| <= |input| && '\0' !in written && input[i..] == written + [quote] + rest
    ensures var offer, text := Body(quote, input, i, false, moves), Unescaped(quote, written);
            if text.Some? then Accepts(offer, input, quote, Text(moves, input) + text.value, i + |written| + 1)
            else !AcceptsSome(offer, i + |written| + 1)
    decreases |written|
  {
    hide Text, Escaped;
    if written == "" {
      assert input[i..] == [quote] + rest;
      Behind(input, i, [quote], rest);
      TextNext(moves, DISCARD, input);
    } else if written[0] == quote || written == "\\" {
      Behind(input, i, written + [quote], rest);
      assert (written + [quote])[0] == written[0];
      if written[0] != quote {
        assert (written + [quote])[1] == quote;
        AcceptsBehind(quote, input, i + 1, true, moves + [DISCARD]);
        EscapedQuote(quote, input, i + 1, moves + [DISCARD]);
      }
    } else {
      var length := if written[0] == '\\' then 2 else 1;
      var front, back := written[..length], written[length..];
      assert written == front + back;
      assert input[i..] == front + (back + [quote] + rest);
      var after := OneWritten(quote, input, i, moves, front, back + [quote] + rest);
      hide Body;
      BodyReads(quote, input, |after|, after, back, rest);
      UnescapedNext(quote, written);
      var next := Unescaped(quote, back);
      if next.Some? { Regroup(Text(moves, input), Unescaped(quote, written).value[0], next.value); }
    }
  }

  lemma EscapedQuote(quote: char, input: string, i: nat, moves: seq<Move>)
    requires i == |moves| < |input|
    ensures var offer := Body(quote, input, i, true, moves); offer.Accept? ==> offer.Length() > i + 1
  {
    AcceptsBehind(quote, input, i + 1, false, moves + [Escaped(input[i])]);
  }

  lemma UnescapedNext(quote: char, written: string)
    requires written != "" && written[0] != quote && written != "\\"
    ensures var length := if written[0] == '\\' then 2 else 1;
            var next := Unescaped(quote, written[length..]);
            if next == None then Unescaped(quote, written) == None
            else
              var ch := if length == 2 then Meant(written[1]) else written[0];
              Unescaped(quote, written) == Some([ch] + next.value)
  {
    hide Meant;
  }

  lemma Regroup(before: string, ch: char, text: string)
    ensures before + [ch] + text == before + ([ch] + text)
  {
  }

  /** Whatever stands between the quotes and behind them, the scanner accepts the string up to the second quote if and
      only if that is where it ends, and then as the text that it stands for. */
  lemma AcceptsIff(quotes: string, quote: char, written: string, rest: string, text: string)
    requires quote in quotes && '\0' !in written
    ensures var input := [quote] + written + [quote] + rest;
            Accepts(QStrOffer(quotes, input), input, quote, text, |written| + 2)
            <==> Unescaped(quote, written) == Some(text)
  {
    hide Body, Unescaped, Text;
    var input := [quote] + written + [quote] + rest;
    assert input[0] == quote && input[1..] == written + [quote] + rest;
    StartText(input);
    BodyReads(quote, input, 1, [DISCARD], written, rest);
  }

  /** The string that begins the input ends at this quote. */
  predicate ClosesAt(input: string, n: nat) {
    0 < n < |input| && input[n] == input[0] && Unescaped(input[0], input[1..n]).Some?
  }

  /** The error token is given exactly for a string that ends nowhere. */
  lemma UnterminatedIff(quotes: string, input: string)
    requires input != "" && input[0] in quotes && '\0' !in input
    ensures var offer := QStrOffer(quotes, input);
            && (offer.Give? <==> forall n: nat :: !ClosesAt(input, n))
            && (offer.Give? ==> offer.token == Some(Token(TOKEN_ERROR, "Unterminated string")))
  {
    hide Body, Unescaped, Text;
    var quote, offer := input[0], QStrOffer(quotes, input);
    OnlyTheError(quote, input, 1, false, [DISCARD]);
    forall n: nat | ClosesAt(input, n) ensures offer.Accept? {
      assert input == [quote] + input[1..n] + [quote] + input[n + 1..];
      AcceptsIff(quotes, quote, input[1..n], input[n + 1..], Unescaped(quote, input[1..n]).value);
    }
    if offer.Accept? {
      AcceptsBehind(quote, input, 1, false, [DISCARD]);
      var n := offer.Length() - 1;
      assert input == [quote] + input[1..n] + [quote] + input[n + 1..];
      assert input[1..] == input[1..n] + [quote] + input[n + 1..];
      BodyReads(quote, input, 1, [DISCARD], input[1..n], input[n + 1..]);
      assert ClosesAt(input, n);
    }
  }

  lemma {:induction false} OnlyTheError(quote: char, input: string, i: nat, escape: bool, moves: seq<Move>)
    requires i == |moves| <= |input|
    ensures var offer := Body(quote, input, i, escape, moves);
            offer.Accept? || (offer.Give? && offer.token == Some(Token(TOKEN_ERROR, "Unterminated string")))
    decreases |input| - i
  {
    hide Escaped;
    if i < |input| && (escape || input[i] != quote) {
      var move := if escape then Escaped(input[i]) else if input[i] == '\\' then DISCARD else Push;
      OnlyTheError(quote, input, i + 1, !escape && input[i] == '\\', moves + [move]);
    }
  }

  // ---------- writing a text ----------

  /** How a character can be written: the quote and the backslash behind a backslash, and those that `r`, `n` and `t`
      stand for as these. */
  function Written(quote: char, ch: char): string {
    if ch == '\r' then "\\r"
    else if ch == '\n' then "\\n"
    else if ch == '\t' then "\\t"
    else if ch == quote || ch == '\\' then ['\\', ch]
    else [ch]
  }

  function Encoded(quote: char, text: string): string {
    if text == "" then "" else Written(quote, text[0]) + Encoded(quote, text[1..])
  }

  function Quoted(quote: char, text: string, rest: string): string {
    [quote] + Encoded(quote, text) + [quote] + rest
  }

  /** The characters that cannot be written between these quotes: behind a backslash `r`, `n` and `t` are something
      else, and where the backslash is the quote itself it escapes nothing. */
  predicate Awkward(quote: char, ch: char) {
    if quote == '\\' then ch in "\\\r\n\t" else ch == quote && ch in "rnt"
  }

  lemma WrittenReads(quote: char, ch: char, back: string, text: string)
    requires ch != '\0'
    ensures '\0' !in Written(quote, ch)
    ensures Unescaped(quote, Written(quote, ch) + back) == Some([ch] + text)
            <==> !Awkward(quote, ch) && Unescaped(quote, back) == Some(text)
  {
    var front := Written(quote, ch);
    var all := front + back;
    assert all[|front|..] == back && all[0] == front[0] && (|front| == 2 ==> all[1] == front[1]);
    assert |front| == 2 <==> front[0] == '\\';
    if front[0] != quote {
      hide Unescaped;
      UnescapedNext(quote, all);
      var next := Unescaped(quote, back);
      if next.Some? {
        SameFront(if |front| == 2 then Meant(front[1]) else ch, next.value, ch, text);
      }
    }
  }

  lemma SameFront(a: char, s: string, b: char, t: string)
    ensures [a] + s == [b] + t <==> a == b && s == t
  {
    if [a] + s == [b] + t {
      assert ([a] + s)[0] == ([b] + t)[0] && ([a] + s)[1..] == ([b] + t)[1..];
    }
  }

  lemma {:induction false} EncodedReads(quote: char, text: string)
    requires '\0' !in text
    ensures '\0' !in Encoded(quote, text)
    ensures Unescaped(quote, Encoded(quote, text)) == Some(text) <==> forall ch :: ch in text ==> !Awkward(quote, ch)
  {
    if text != "" {
      hide Unescaped, Written, Awkward;
      EncodedReads(quote, text[1..]);
      WrittenReads(quote, text[0], Encoded(quote, text[1..]), text[1..]);
      assert text == [text[0]] + text[1..];
    } else {
      assert Unescaped(quote, "") == Some("");
    }
  }

  /** Round trip: a text, written for a configured quote and put between quotes, is accepted as the original text,
      consuming exactly what was written whatever follows, if and only if no character of it is awkward between such
      quotes. With single, double or back quotes none is. */
  lemma RoundTrip(quotes: string, quote: char, text: string, rest: string)
    requires quote in quotes && '\0' !in text
    ensures var input := Quoted(quote, text, rest);
            Accepts(QStrOffer(quotes, input), input, quote, text, |Encoded(quote, text)| + 2)
            <==> forall ch :: ch in text ==> !Awkward(quote, ch)
    ensures quote in "'\"`" ==> forall ch :: ch in text ==> !Awkward(quote, ch)
  {
    hide Accepts, Encoded, Unescaped;
    EncodedReads(quote, text);
    AcceptsIff(quotes, quote, Encoded(quote, text), rest, text);
  }

  /** With `n` as quote, the text "n" is written with a backslash in front, which is read as a newline. */
  lemma AwkwardQuote()
    ensures Quoted('n', "n", "") == "n\\nn"
    ensures Accepts(QStrOffer("n", "n\\nn"), "n\\nn", 'n', "\n", 4)
  {
    assert "n"[1..] == "" && Encoded('n', "n") == "\\n";
    assert ['n'] + "\\n" + ['n'] + "" == "n\\nn";
    var written := "\\n";
    assert written[2..] == "" && Unescaped('n', "") == Some("");
    assert [Meant('n')] + "" == "\n" && Unescaped('n', written) == Some("\n");
    AcceptsIff("n", 'n', "\\n", "", "\n");
  }

  lemma StartText(input: string)
    requires input != ""
    ensures Text([DISCARD], input) == ""
    ensures forall s: string :: Text([DISCARD], input) + s == s
  {
    TextNext([], DISCARD, input);
  }

  datatype QState = Start | InString | Escape | Finished

  class QStrScanner {
    var quotechars: string
    var quote: char
    var state: QState

    constructor (quotechars: string)
      ensures this.quotechars == quotechars
    {
      this.quotechars, quote, state := quotechars, '\0', Start;
    }

    /** One call of the scanner comes to what the specification says. */
    method Match(lexer: Lexer)
      requires lexer.Valid() && lexer.Rewound()
      requires lexer.state == Success <==> lexer.scanned > 0
      modifies this, lexer
      ensures quotechars == old(quotechars)
      ensures lexer.Valid() && lexer.buffer == old(lexer.buffer) && lexer.count == old(lexer.count)
      ensures lexer.SpokenFor() == Taken(old(lexer.SpokenFor()), QStrOffer(quotechars, lexer.buffer), lexer.buffer)
      ensures lexer.state == (if lexer.scanned > 0 then Success else old(lexer.state))
    {
      if quotechars == "" {
        return;
      }
      hide Text, AllHonest, Body;
      ghost var input := lexer.buffer;
      state := Start;
      assert lexer.At([]) by { NoText(input); }
      var ch := lexer.ReadNext([]);
      if ch == '\0' {
        return;
      }
      if ch !in quotechars {
        state := Finished;
        return;
      }
      Open(lexer, ch);
      MatchBody(lexer);
    }

    method Open(lexer: Lexer, ch: char)
      requires lexer.Reading([]) && ch == lexer.current
      modifies this`quote, this`state, lexer`token, lexer`current, lexer`scanCount
      ensures lexer.At([DISCARD]) && quote == ch && state == InString
    {
      TextNext([], DISCARD, lexer.buffer);
      lexer.Discard();
      quote := ch;
      state := InString;
      assert [] + [DISCARD] == [DISCARD];
    }

    /** One character of the string, other than the closing quote. */
    method OnChar(lexer: Lexer, ch: char, ghost moves: seq<Move>) returns (ghost more: seq<Move>)
      requires lexer.Reading(moves) && ch == lexer.current
      requires state == Escape || (state == InString && ch != quote)
      modifies this`state, lexer`token, lexer`current, lexer`scanCount
      ensures more == moves + [if old(state) == Escape then Escaped(ch) else if ch == '\\' then DISCARD else Push]
      ensures state == if old(state) == InString && ch == '\\' then Escape else InString
      ensures lexer.At(more)
    {
      hide Text;
      if state == InString {
        if ch == '\\' {
          more := moves + [DISCARD];
          lexer.Discard();
          state := Escape;
        } else {
          more := moves + [Push];
          lexer.DoPush();
        }
      } else {
        more := moves + [Escaped(ch)];
        if ch == 'r' {
          lexer.DoPushAs('\r');
        } else if ch == 'n' {
          lexer.DoPushAs('\n');
        } else if ch == 't' {
          lexer.DoPushAs('\t');
        } else {
          lexer.DoPush();
        }
        state := InString;
      }
      TextNext(moves, more[|moves|], lexer.buffer);
    }

    method MatchBody(lexer: Lexer)
      requires lexer.Valid() && lexer.At([DISCARD]) && state == InString
      requires lexer.state == Success <==> lexer.scanned > 0
      modifies this`state, lexer
      ensures lexer.Valid() && lexer.buffer == old(lexer.buffer) && lexer.count == old(lexer.count)
      ensures var offer := Body(quote, lexer.buffer, 1, false, [DISCARD]);
              lexer.SpokenFor() == Taken(old(lexer.SpokenFor()), offer, lexer.buffer)
      ensures lexer.state == (if lexer.scanned > 0 then Success else old(lexer.state))
    {
      hide Text, AllHonest, Body;
      ghost var offer, moves := Body(quote, lexer.buffer, 1, false, [DISCARD]), [DISCARD];
      var ch := lexer.ReadNext(moves);
      while ch != '\0'
        invariant lexer.Valid() && (state == InString || state == Escape)
        invariant lexer.buffer == old(lexer.buffer) && lexer.count == old(lexer.count)
        invariant lexer.SpokenFor() == old(lexer.SpokenFor()) && lexer.state == old(lexer.state)
        invariant |moves| <= |lexer.buffer| && lexer.scanCount == |moves| && lexer.token == Text(moves, lexer.buffer)
        invariant if ch == '\0' then |moves| == |lexer.buffer| else lexer.Reading(moves) && lexer.current == ch
        invariant offer == Body(quote, lexer.buffer, |moves|, state == Escape, moves)
        decreases |lexer.buffer| - |moves|
      {
        BodyStep(quote, lexer.buffer, moves, state == Escape);
        if state == InString && ch == quote {
          TextNext(moves, DISCARD, lexer.buffer);
          lexer.Discard();
          lexer.DoAccept(ch as int);
          state := Finished;
          return;
        }
        moves := OnChar(lexer, ch, moves);
        ch := lexer.ReadNext(moves);
      }
      BodyStep(quote, lexer.buffer, moves, state == Escape);
      lexer.AcceptToken(Some(Token(TOKEN_ERROR, "Unterminated string")));
    }
  }

  lemma BodyStep(quote: char, input: string, moves: seq<Move>, escape: bool)
    requires |moves| <= |input|
    ensures Body(quote, input, |moves|, escape, moves) ==
            if |moves| == |input| then Give(moves, Some(Token(TOKEN_ERROR, "Unterminated string")))
            else var ch := input[|moves|];
              if !escape && ch == quote then Accept(moves + [DISCARD], quote as int)
              else var move := if escape then Escaped(ch) else if ch == '\\' then DISCARD else Push;
                Body(quote, input, |moves| + 1, !escape && ch == '\\', moves + [move])
  {
  }
}
