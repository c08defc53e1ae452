/** The number scanner: a state machine for integers, floats and hexadecimals that strips leading
    zeros from the token as it goes. */
module Numbers {
  import opened Wrappers
  import opened TokenCodes
  import opened Lexing

  const TOKEN_INTEGER := 'd' as int
  const TOKEN_HEX := 'x' as int
  const TOKEN_FLOAT := 'f' as int

  datatype NumConfig = NumConfig(scientific: bool, sign: bool, hex: bool, flt: bool)

  datatype NumState =
    | Nothing
    | PlusMinus
    | Zero
    | Number
    | Period
    | Float
    | SciFloat
    | SciFloatExpSign
    | SciFloatExp
    | HexInteger
    | Finished
    | Malformed

  predicate IsDigit(ch: char) {
    '0' <= ch <= '9'
  }

  function Lower(ch: char): char {
    if 'A' <= ch <= 'Z' then (ch as int + 32) as char else ch
  }

  predicate IsHex(ch: char) {
    IsDigit(ch) || 'a' <= ch <= 'f'
  }

  /** The next state, whether the last character of the token is chopped, and the code of the token if
      that is complete. */
  datatype Verdict = Verdict(state: NumState, chop: bool, code: Option<int>)

  function Go(state: NumState): Verdict {
    Verdict(state, false, None)
  }

  function Step(config: NumConfig, state: NumState, ch: char, length: nat): Verdict {
    match state
    case Nothing =>
      if config.sign && (ch == '-' || ch == '+') then Go(PlusMinus)
      else if ch == '0' then Go(Zero)
      else if IsDigit(ch) then Go(Number)
      else if config.flt && ch == '.' then Go(Period)
      else Go(Finished)
    case PlusMinus =>
      if ch == '0' then Go(Zero)
      else if config.flt && ch == '.' then Go(Period)
      else if IsDigit(ch) then Go(Number)
      else Go(Finished)
    case Period =>
      if IsDigit(ch) then Go(Float)
      else if config.scientific && ch == 'e' && length > 1 then Go(SciFloat)
      else Go(Finished)
    case Zero =>
      if ch == '0' then Verdict(Zero, true, None)
      else if IsDigit(ch) then Verdict(Number, true, None)
      else if config.flt && ch == '.' then Go(Float)
      else if config.hex && ch == 'x' then Go(HexInteger)
      else Verdict(Finished, false, Some(TOKEN_INTEGER))
    case Number =>
      if config.flt && ch == '.' then Go(Period)
      else if config.scientific && ch == 'e' then Go(SciFloat)
      else if !IsDigit(ch) then Verdict(Finished, false, Some(TOKEN_INTEGER))
      else Go(Number)
    case Float =>
      if config.scientific && ch == 'e' then Go(SciFloat)
      else if !IsDigit(ch) then Verdict(Finished, false, Some(TOKEN_FLOAT))
      else Go(Float)
    case SciFloat =>
      if ch == '+' || ch == '-' then Go(SciFloatExpSign)
      else if IsDigit(ch) then Go(SciFloatExp)
      else Go(Malformed)
    case SciFloatExp =>
      if !IsDigit(ch) then Verdict(Finished, false, Some(TOKEN_FLOAT)) else Go(SciFloatExp)
    case SciFloatExpSign =>
      if IsDigit(ch) then Go(SciFloatExp) else Go(Malformed)
    case HexInteger =>
      if !IsHex(ch) then Verdict(Finished, false, Some(TOKEN_HEX)) else Go(HexInteger)
    case _ => Go(state)
  }

  /** The state and the moves made while the scanner reads on. */
  datatype Progress = Progress(state: NumState, moves: seq<Move>) {
    predicate Fits(input: string) {
      |moves| <= |input| && state != Finished && state != Malformed
    }

    /** What the next character does; at the end of the input it is the NUL character. */
    function Next(config: NumConfig, input: string): Verdict
      requires Fits(input)
    {
      var ch := if |moves| < |input| then Lower(input[|moves|]) else '\0';
      Step(config, state, ch, |Text(moves, input)|)
    }

    /** The scanner stops here, before the next character. */
    predicate Stops(config: NumConfig, input: string)
      requires Fits(input)
    {
      Next(config, input).state == Finished || Next(config, input).state == Malformed
    }

    function Offer(config: NumConfig, input: string): (offer: Offer)
      requires Fits(input) && Stops(config, input)
      ensures offer.Fits(input)
    {
      var v := Next(config, input);
      if v.state == Malformed then Give(moves, Some(Token(TOKEN_ERROR, "Malformed number")))
      else if v.code.Some? then Accept(moves, v.code.value)
      else Pass
    }

    function Advance(config: NumConfig, input: string): (p: Progress)
      requires Fits(input) && !Stops(config, input)
      ensures p.Fits(input) && |p.moves| == |moves| + 1
    {
      StopsAtEnd(config, input);
      var v := Next(config, input);
      Progress(v.state, moves + [if v.chop then ChopPush else Push])
    }

    lemma StopsAtEnd(config: NumConfig, input: string)
      requires Fits(input)
      ensures |moves| == |input| ==> Stops(config, input)
    {
    }
  }

  function Run(config: NumConfig, input: string, p: Progress): (offer: Offer)
    requires p.Fits(input)
    ensures offer.Fits(input)
    decreases |input| - |p.moves|
  {
    if p.Stops(config, input) then p.Offer(config, input)
    else Run(config, input, p.Advance(config, input))
  }

  const START := Progress(Nothing, [])

  function NumOffer(config: NumConfig, input: string): (offer: Offer)
    ensures offer.Fits(input)
  {
    Run(config, input, START)
  }

  /** The progress after `n` characters, if the scanner gets that far. */
  function Reached(config: NumConfig, input: string, n: nat): (p: Option<Progress>)
    requires n <= |input|
    ensures p.Some? ==> p.value.Fits(input) && |p.value.moves| == n
  {
    if n == 0 then Some(START)
    else match Reached(config, input, n - 1)
      case None => None
      case Some(p) => if p.Stops(config, input) then None else Some(p.Advance(config, input))
  }

  lemma {:induction false} RunThrough(config: NumConfig, input: string, n: nat)
    requires n <= |input| && Reached(config, input, n).Some?
    ensures NumOffer(config, input) == Run(config, input, Reached(config, input, n).value)
  {
    if n > 0 { RunThrough(config, input, n - 1); }
  }

  lemma {:induction false} RunEnds(config: NumConfig, input: string, p: Progress) returns (q: Progress)
    requires p.Fits(input) && Reached(config, input, |p.moves|) == Some(p)
    ensures q.Fits(input) && Reached(config, input, |q.moves|) == Some(q)
    ensures q.Stops(config, input) && Run(config, input, p) == q.Offer(config, input)
    decreases |input| - |p.moves|
  {
    if p.Stops(config, input) {
      q := p;
    } else {
      q := RunEnds(config, input, p.Advance(config, input));
    }
  }

  // ---------- numerals ----------

  predicate Digits(d: string) {
    forall i :: 0 <= i < |d| ==> IsDigit(d[i])
  }

  predicate Zeros(d: string) {
    d != "" && forall i :: 0 <= i < |d| ==> d[i] == '0'
  }

  predicate IsHexDigit(ch: char) {
    IsDigit(ch) || 'a' <= ch <= 'f' || 'A' <= ch <= 'F'
  }

  predicate HexDigits(d: string) {
    forall i :: 0 <= i < |d| ==> IsHexDigit(d[i])
  }

  predicate IsPlusMinus(s: string) {
    s == "" || s == "+" || s == "-"
  }

  function Stripped(d: string): string {
    if |d| > 1 && d[0] == '0' then Stripped(d[1..]) else d
  }

  datatype Exponent = Exponent(mark: char, sign: string, digits: string)

  /** The parts of a numeral, or of the beginning of one. */
  datatype Numeral =
    | Decimal(sign: string, whole: string, fraction: Option<string>, exponent: Option<Exponent>)
    | Hexadecimal(sign: string, whole: string, mark: char, digits: string)
  {
    /** What stands behind the whole part. */
    function Rest(): string {
      match this
      case Decimal(_, _, fraction, exponent) =>
        (if fraction.Some? then "." + fraction.value else "")
        + (if exponent.Some? then [exponent.value.mark] + exponent.value.sign + exponent.value.digits else "")
      case Hexadecimal(_, _, mark, digits) => [mark] + digits
    }

    function Spelled(): string { sign + whole + Rest() }

    /** Without redundant leading zeros. */
    function Shortened(): string { sign + Stripped(whole) + Rest() }
  }

  predicate SignedWhole(config: NumConfig, p: Numeral) {
    IsPlusMinus(p.sign) && (p.sign != "" ==> config.sign) && Digits(p.whole)
  }

  /** A sign where that is allowed, digits, a point, and digits behind it; these can be missing behind zeros only. */
  predicate IsPointed(config: NumConfig, p: Numeral) {
    && p.Decimal? && p.exponent.None? && p.fraction.Some? && config.flt && SignedWhole(config, p)
    && Digits(p.fraction.value) && (p.fraction.value != "" || Zeros(p.whole))
  }

  /** What an exponent can stand behind: an integer other than zero, or anything with a point but the point alone. */
  predicate IsMantissa(config: NumConfig, p: Numeral) {
    && p.Decimal? && SignedWhole(config, p)
    && if p.fraction.None? then p.whole != "" && !Zeros(p.whole)
       else config.flt && Digits(p.fraction.value) && p.sign + p.whole + p.fraction.value != ""
  }

  /** A mantissa, the exponent's mark, a sign or none, and digits, if there are any yet. */
  predicate HasExponent(config: NumConfig, p: Numeral) {
    && p.Decimal? && p.exponent.Some? && config.scientific && IsMantissa(config, p)
    && var e := p.exponent.value;
       (e.mark == 'e' || e.mark == 'E') && IsPlusMinus(e.sign) && Digits(e.digits)
  }

  predicate IsFloat(config: NumConfig, p: Numeral) {
    IsPointed(config, p) || (HasExponent(config, p) && p.exponent.value.digits != "")
  }

  /** Any number of zeros, but one at least, behind a sign or none, an x, and hexadecimal digits or none. */
  predicate IsHexadecimal(config: NumConfig, p: Numeral) {
    && p.Hexadecimal? && config.hex && SignedWhole(config, p) && Zeros(p.whole)
    && (p.mark == 'x' || p.mark == 'X') && HexDigits(p.digits)
  }

  /** The scanner's state behind a numeral, or behind the beginning of one. */
  function StateOf(config: NumConfig, p: Numeral): Option<NumState> {
    if p.Hexadecimal? then if IsHexadecimal(config, p) then Some(HexInteger) else None
    else if p.exponent.Some? then
      if !HasExponent(config, p) then None
      else if p.exponent.value.digits != "" then Some(SciFloatExp)
      else if p.exponent.value.sign != "" then Some(SciFloatExpSign)
      else Some(SciFloat)
    else if IsPointed(config, p) then Some(Float)
    else if !SignedWhole(config, p) then None
    else if p.fraction.Some? then if config.flt && p.fraction.value == "" then Some(Period) else None
    else if Zeros(p.whole) then Some(Zero)
    else if p.whole != "" then Some(Number)
    else if p.sign != "" then Some(PlusMinus)
    else Some(Nothing)
  }

  /** A numeral with one more character, which leads to this state. */
  function Extended(q: Numeral, state: NumState, c: char): Numeral {
    match state
    case PlusMinus => q.(sign := [c])
    case Zero | Number => q.(whole := q.whole + [c])
    case Period => if q.Decimal? then q.(fraction := Some("")) else q
    case Float =>
      if q.Hexadecimal? then q
      else q.(fraction := if q.fraction.Some? then Some(q.fraction.value + [c]) else Some(""))
    case SciFloat => if q.Decimal? then q.(exponent := Some(Exponent(c, "", ""))) else q
    case SciFloatExpSign =>
      if q.Decimal? && q.exponent.Some? then q.(exponent := Some(q.exponent.value.(sign := [c]))) else q
    case SciFloatExp =>
      if q.Decimal? && q.exponent.Some? then
        q.(exponent := Some(q.exponent.value.(digits := q.exponent.value.digits + [c])))
      else q
    case HexInteger => if q.Decimal? then Hexadecimal(q.sign, q.whole, c, "") else q.(digits := q.digits + [c])
    case _ => q
  }

  // ---------- one more character ----------

  lemma DigitsNext(d: string, c: char)
    ensures Digits(d + [c]) <==> Digits(d) && IsDigit(c)
    ensures HexDigits(d + [c]) <==> HexDigits(d) && IsHexDigit(c)
    ensures Zeros(d + [c]) <==> (d == "" || Zeros(d)) && c == '0'
  {
    assert (d + [c])[|d|] == c;
    assert forall i :: 0 <= i < |d| ==> (d + [c])[i] == d[i];
  }

  lemma NoDigits()
    ensures Digits("") && HexDigits("") && !Zeros("")
  {
  }

  /** Stripping leaves no leading zero but that of a lone zero. */
  lemma {:induction false} StrippedIs(d: string)
    requires Digits(d)
    ensures Digits(Stripped(d)) && (Stripped(d) == "" <==> d == "") && (Stripped(d) == "0" <==> Zeros(d))
    ensures d != "" ==> Stripped(d) == "0" || Stripped(d)[0] != '0'
  {
    if |d| > 1 && d[0] == '0' {
      StrippedIs(d[1..]);
      assert Zeros(d) <==> Zeros(d[1..]);
    } else if |d| == 1 {
      assert Zeros(d) <==> d[0] == '0';
    }
  }

  lemma {:induction false} StrippedNext(d: string, c: char)
    requires d != "" && Digits(d)
    ensures Stripped(d + [c]) == if Zeros(d) then [c] else Stripped(d) + [c]
  {
    if d[0] == '0' {
      assert (d + [c])[1..] == d[1..] + [c];
      if |d| > 1 {
        StrippedNext(d[1..], c);
        assert Zeros(d) <==> Zeros(d[1..]);
      } else {
        assert d == "0";
      }
    }
  }

  /** The whole part grows. */
  lemma FrontGrows(q: Numeral, c: char)
    requires q.Decimal? && q.fraction.None? && q.exponent.None? && Digits(q.whole)
    ensures var p := Decimal(q.sign, q.whole + [c], None, None);
            && p.Spelled() == q.Spelled() + [c]
            && p.Shortened() == Moved(q.Shortened(), if Zeros(q.whole) then ChopPush else Push, c)
  {
    StrippedIs(q.whole);
    if q.whole != "" {
      StrippedNext(q.whole, c);
      assert Zeros(q.whole) ==> q.Shortened() == q.sign + "0";
    }
  }

  lemma SignGrows(q: Numeral, c: char)
    requires q == Decimal("", "", None, None)
    ensures var p := Decimal([c], "", None, None);
            p.Spelled() == q.Spelled() + [c] && p.Shortened() == Moved(q.Shortened(), Push, c)
  {
  }

  /** What stands behind it grows. */
  lemma RestGrows(q: Numeral, p: Numeral, c: char)
    requires p.sign == q.sign && p.whole == q.whole && p.Rest() == q.Rest() + [c]
    ensures p.Spelled() == q.Spelled() + [c] && p.Shortened() == Moved(q.Shortened(), Push, c)
  {
  }

  lemma LowerMeans(c: char)
    ensures IsDigit(Lower(c)) <==> IsDigit(c)
    ensures IsHex(Lower(c)) <==> IsHexDigit(c)
    ensures Lower(c) == 'e' <==> c == 'e' || c == 'E'
    ensures Lower(c) == 'x' <==> c == 'x' || c == 'X'
    ensures c !in "eExX" && !('A' <= c <= 'Z') ==> Lower(c) == c
    ensures Lower(c) in "+-.0" ==> Lower(c) == c
  {
  }

  /** The scanner's step, where it does not stop, is one more character of the numeral. */
  ghost predicate Follows(config: NumConfig, q: Numeral, c: char)
    requires StateOf(config, q).Some?
  {
    var v := Step(config, StateOf(config, q).value, Lower(c), |q.Shortened()|);
    v.state != Finished && v.state != Malformed ==>
      var p := Extended(q, v.state, c);
      && StateOf(config, p) == Some(v.state) && p.Spelled() == q.Spelled() + [c]
      && p.Shortened() == Moved(q.Shortened(), if v.chop then ChopPush else Push, c)
  }

  lemma ShortenedLength(q: Numeral)
    requires q.Decimal? && q.fraction.Some? && Digits(q.whole)
    ensures |q.Shortened()| > 1 <==> q.sign + q.whole + q.fraction.value != "" || q.exponent.Some?
  {
    StrippedIs(q.whole);
  }

  lemma SignFollows(config: NumConfig, q: Numeral, c: char)
    requires q == Decimal(q.sign, "", None, None) && StateOf(config, q).Some?
    ensures Follows(config, q, c)
  {
    hide Lower, Stripped, Digits, Zeros, HexDigits, Moved, Numeral.Spelled, Numeral.Shortened;
    LowerMeans(c);
    NoDigits();
    DigitsNext("", c);
    FrontGrows(q, c);
    if q.sign == "" { SignGrows(q, c); }
    RestGrows(q, q.(fraction := Some("")), '.');
  }

  lemma WholeFollows(config: NumConfig, q: Numeral, c: char)
    requires q == Decimal(q.sign, q.whole, None, None) && q.whole != "" && StateOf(config, q).Some?
    ensures Follows(config, q, c)
  {
    hide Lower, Stripped, Digits, Zeros, HexDigits, Moved, Numeral.Spelled, Numeral.Shortened;
    LowerMeans(c);
    NoDigits();
    DigitsNext(q.whole, c);
    FrontGrows(q, c);
    var v := Step(config, StateOf(config, q).value, Lower(c), |q.Shortened()|);
    var p := Extended(q, v.state, c);
    if v.state != Zero && v.state != Number && v.state != Finished && v.state != Malformed {
      assert p.Rest() == q.Rest() + [c];
      RestGrows(q, p, c);
    }
  }

  lemma FractionFollows(config: NumConfig, q: Numeral, c: char)
    requires q.Decimal? && q.fraction.Some? && q.exponent.None? && StateOf(config, q).Some?
    ensures Follows(config, q, c)
  {
    hide Lower, Stripped, Digits, Zeros, HexDigits, Moved, Numeral.Spelled, Numeral.Shortened;
    LowerMeans(c);
    NoDigits();
    ShortenedLength(q);
    DigitsNext(q.fraction.value, c);
    var v := Step(config, StateOf(config, q).value, Lower(c), |q.Shortened()|);
    var p := Extended(q, v.state, c);
    if v.state != Finished && v.state != Malformed {
      assert p.Rest() == q.Rest() + [c];
      RestGrows(q, p, c);
    }
  }

  lemma ExponentFollows(config: NumConfig, q: Numeral, c: char)
    requires q.Decimal? && q.exponent.Some? && StateOf(config, q).Some?
    ensures Follows(config, q, c)
  {
    hide Lower, Stripped, Digits, Zeros, HexDigits, Moved, Numeral.Spelled, Numeral.Shortened;
    LowerMeans(c);
    DigitsNext(q.exponent.value.digits, c);
    var v := Step(config, StateOf(config, q).value, Lower(c), |q.Shortened()|);
    var p := Extended(q, v.state, c);
    if v.state != Finished && v.state != Malformed {
      assert p.Rest() == q.Rest() + [c];
      RestGrows(q, p, c);
    }
  }

  lemma HexFollows(config: NumConfig, q: Numeral, c: char)
    requires q.Hexadecimal? && StateOf(config, q).Some?
    ensures Follows(config, q, c)
  {
    hide Lower, Stripped, Digits, Zeros, HexDigits, Moved, Numeral.Spelled, Numeral.Shortened;
    LowerMeans(c);
    DigitsNext(q.digits, c);
    var v := Step(config, StateOf(config, q).value, Lower(c), |q.Shortened()|);
    var p := Extended(q, v.state, c);
    if v.state != Finished && v.state != Malformed {
      assert p.Rest() == q.Rest() + [c];
      RestGrows(q, p, c);
    }
  }

  lemma FollowsAlways(config: NumConfig, q: Numeral, c: char)
    requires StateOf(config, q).Some?
    ensures Follows(config, q, c)
  {
    hide Follows, StateOf;
    if q.Hexadecimal? {
      HexFollows(config, q, c);
    } else if q.exponent.Some? {
      ExponentFollows(config, q, c);
    } else if q.fraction.Some? {
      FractionFollows(config, q, c);
    } else if q.whole != "" {
      WholeFollows(config, q, c);
    } else {
      SignFollows(config, q, c);
    }
  }

  // ---------- one character less ----------

  /** The numeral without its last character, and that character. */
  function Retracted(p: Numeral): (Numeral, char)
    requires p.Spelled() != ""
  {
    match p
    case Hexadecimal(sign, whole, mark, digits) =>
      if digits == "" then (Decimal(sign, whole, None, None), mark)
      else (p.(digits := Front(digits)), Last(digits))
    case Decimal(sign, whole, fraction, Some(Exponent(mark, esign, digits))) =>
      if digits != "" then (p.(exponent := Some(Exponent(mark, esign, Front(digits)))), Last(digits))
      else if esign != "" then (p.(exponent := Some(Exponent(mark, Front(esign), ""))), Last(esign))
      else (p.(exponent := None), mark)
    case Decimal(sign, whole, Some(f), None) =>
      if f != "" then (p.(fraction := Some(Front(f))), Last(f)) else (p.(fraction := None), '.')
    case Decimal(sign, whole, None, None) =>
      if whole != "" then (Decimal(sign, Front(whole), None, None), Last(whole))
      else (Decimal(Front(sign), "", None, None), Last(sign))
  }

  function Front(s: string): string
    requires s != ""
  {
    s[..|s| - 1]
  }

  function Last(s: string): char
    requires s != ""
  {
    s[|s| - 1]
  }

  ghost predicate Leads(config: NumConfig, p: Numeral)
    requires StateOf(config, p).Some? && p.Spelled() != ""
  {
    var (q, c) := Retracted(p);
    && StateOf(config, q).Some?
    && Step(config, StateOf(config, q).value, Lower(c), |q.Shortened()|).state == StateOf(config, p).value
    && Extended(q, StateOf(config, p).value, c) == p
  }

  lemma LastDigit(d: string)
    requires d != ""
    ensures d == Front(d) + [Last(d)]
    ensures Digits(d) <==> Digits(Front(d)) && IsDigit(Last(d))
    ensures HexDigits(d) <==> HexDigits(Front(d)) && IsHexDigit(Last(d))
    ensures Zeros(d) <==> (Front(d) == "" || Zeros(Front(d))) && Last(d) == '0'
  {
    DigitsNext(Front(d), Last(d));
  }

  lemma SignLeads(config: NumConfig, p: Numeral)
    requires p == Decimal(p.sign, "", None, None) && StateOf(config, p).Some? && p.Spelled() != ""
    ensures Leads(config, p)
  {
    hide Stripped, Digits, Zeros, HexDigits, Numeral.Shortened;
    NoDigits();
    assert p.sign == [p.sign[0]];
  }

  lemma WholeLeads(config: NumConfig, p: Numeral)
    requires p == Decimal(p.sign, p.whole, None, None) && StateOf(config, p).Some? && p.whole != ""
    requires p.Spelled() != ""
    ensures Leads(config, p)
  {
    hide Lower, Stripped, Digits, Zeros, HexDigits, Numeral.Shortened, Numeral.Spelled, Front, Last;
    NoDigits();
    LastDigit(p.whole);
    LowerMeans(Retracted(p).1);
  }

  lemma FractionLeads(config: NumConfig, p: Numeral)
    requires p.Decimal? && p.fraction.Some? && p.exponent.None? && StateOf(config, p).Some? && p.Spelled() != ""
    ensures Leads(config, p)
  {
    hide Lower, Stripped, Digits, Zeros, HexDigits, Numeral.Shortened, Numeral.Spelled;
    NoDigits();
    if p.fraction.value != "" { LastDigit(p.fraction.value); }
    LowerMeans(Retracted(p).1);
  }

  lemma MarkLeads(config: NumConfig, p: Numeral)
    requires p.Decimal? && p.exponent.Some? && p.exponent.value.sign == p.exponent.value.digits == ""
    requires StateOf(config, p).Some? && p.Spelled() != ""
    ensures Leads(config, p)
  {
    hide Lower, Stripped, Digits, Zeros, HexDigits, Numeral.Shortened, Numeral.Spelled;
    var (q, c) := Retracted(p);
    LowerMeans(c);
    NoDigits();
    if q.fraction.Some? { ShortenedLength(q); }
  }

  lemma MantissaSame(config: NumConfig, p: Numeral, q: Numeral)
    requires p.Decimal? && q.Decimal? && p.sign == q.sign && p.whole == q.whole && p.fraction == q.fraction
    ensures IsMantissa(config, p) == IsMantissa(config, q)
  {
  }

  lemma ExponentSignLeads(config: NumConfig, p: Numeral)
    requires p.Decimal? && p.exponent.Some? && p.exponent.value.sign != "" && p.exponent.value.digits == ""
    requires StateOf(config, p).Some? && p.Spelled() != ""
    ensures Leads(config, p)
  {
    hide Lower, Stripped, Digits, Zeros, HexDigits, Numeral.Shortened, Numeral.Spelled, IsMantissa, SignedWhole;
    var (q, c) := Retracted(p);
    LowerMeans(c);
    assert p.exponent.value.sign == [c] && q.exponent.value.sign == "";
    MantissaSame(config, p, q);
  }

  lemma ExponentDigitsLead(config: NumConfig, p: Numeral)
    requires p.Decimal? && p.exponent.Some? && p.exponent.value.digits != ""
    requires StateOf(config, p).Some? && p.Spelled() != ""
    ensures Leads(config, p)
  {
    hide Lower, Stripped, Digits, Zeros, HexDigits, Numeral.Shortened, Numeral.Spelled, IsMantissa, SignedWhole;
    hide Front, Last, IsPlusMinus;
    LastDigit(p.exponent.value.digits);
    var (q, c) := Retracted(p);
    LowerMeans(c);
    MantissaSame(config, p, q);
    assert HasExponent(config, q);
  }

  lemma HexLeads(config: NumConfig, p: Numeral)
    requires p.Hexadecimal? && StateOf(config, p).Some? && p.Spelled() != ""
    ensures Leads(config, p)
  {
    hide Lower, Stripped, Digits, Zeros, Numeral.Shortened;
    NoDigits();
    if p.digits != "" { LastDigit(p.digits); }
    LowerMeans(Retracted(p).1);
  }

  lemma LeadsAlways(config: NumConfig, p: Numeral)
    requires StateOf(config, p).Some? && p.Spelled() != ""
    ensures Leads(config, p) && p.Spelled() == Retracted(p).0.Spelled() + [Retracted(p).1]
  {
    hide StateOf, Step, Retracted, Extended, Numeral.Spelled, Numeral.Shortened, Moved;
    if p.Hexadecimal? {
      HexLeads(config, p);
    } else if p.exponent.Some? {
      if p.exponent.value.digits != "" {
        ExponentDigitsLead(config, p);
      } else if p.exponent.value.sign != "" {
        ExponentSignLeads(config, p);
      } else {
        MarkLeads(config, p);
      }
    } else if p.fraction.Some? {
      FractionLeads(config, p);
    } else if p.whole != "" {
      WholeLeads(config, p);
    } else {
      SignLeads(config, p);
    }
    StateIsOpen(config, p);
    FollowsAlways(config, Retracted(p).0, Retracted(p).1);
  }

  lemma StateIsOpen(config: NumConfig, p: Numeral)
    ensures StateOf(config, p) != Some(Finished) && StateOf(config, p) != Some(Malformed)
  {
  }

  // ---------- the scanner reads numerals ----------

  /** The scanner's progress is that of reading `p`. */
  predicate Reads(config: NumConfig, input: string, at: Option<Progress>, p: Numeral)
  {
    && at.Some? && at.value.Fits(input) && |at.value.moves| == |p.Spelled()|
    && StateOf(config, p) == Some(at.value.state) && Text(at.value.moves, input) == p.Shortened()
  }

  /** From one character to the next, the progress follows the numeral. */
  lemma ReadsNext(config: NumConfig, input: string, at: Progress, q: Numeral)
    requires |at.moves| < |input| && Reads(config, input, Some(at), q)
    ensures var v := at.Next(config, input);
            !at.Stops(config, input) ==>
              var p := Extended(q, v.state, input[|at.moves|]);
              && Reads(config, input, Some(at.Advance(config, input)), p)
              && p.Spelled() == q.Spelled() + [input[|at.moves|]]
  {
    hide StateOf, Step, Extended, Numeral.Spelled, Numeral.Shortened, Text, Lower, Moved;
    FollowsAlways(config, q, input[|at.moves|]);
    var v := at.Next(config, input);
    TextNext(at.moves, if v.chop then ChopPush else Push, input);
  }

  const NONE_READ := Decimal("", "", None, None)

  lemma ReadsNothing(config: NumConfig, input: string)
    ensures Reads(config, input, Some(START), NONE_READ) && NONE_READ.Spelled() == ""
    ensures Reached(config, input, 0) == Some(START)
  {
    NoDigits();
  }

  /** As far as the scanner gets, it has read a numeral or the beginning of one. */
  lemma {:induction false} ReachedNumeral(config: NumConfig, input: string, n: nat) returns (p: Numeral)
    requires n <= |input| && Reached(config, input, n).Some?
    ensures p.Spelled() == input[..n] && Reads(config, input, Reached(config, input, n), p)
  {
    hide Reads, Numeral.Spelled, Extended;
    ReadsNothing(config, input);
    if n == 0 {
      p := NONE_READ;
    } else {
      var q := ReachedNumeral(config, input, n - 1);
      var at := Reached(config, input, n - 1).value;
      ReadsNext(config, input, at, q);
      p := Extended(q, at.Next(config, input).state, input[n - 1]);
      assert input[..n] == input[..n - 1] + [input[n - 1]];
    }
  }

  /** Whatever numeral, or beginning of one, stands at the start of the input, the scanner gets behind it. */
  lemma {:induction false} NumeralReached(config: NumConfig, input: string, p: Numeral)
    requires StateOf(config, p).Some? && |p.Spelled()| <= |input| && p.Spelled() == input[..|p.Spelled()|]
    ensures Reads(config, input, Reached(config, input, |p.Spelled()|), p)
    decreases |p.Spelled()|
  {
    hide StateOf, Step, Extended, Numeral.Spelled, Numeral.Shortened, Text, Lower, Moved, Retracted;
    var n := |p.Spelled()|;
    ReadsNothing(config, input);
    if n == 0 {
      OnlyNothing(config, p);
    } else {
      LeadsAlways(config, p);
      var (q, c) := Retracted(p);
      assert |q.Spelled()| == n - 1 && q.Spelled() == input[..n - 1] && c == input[n - 1];
      NumeralReached(config, input, q);
      StateIsOpen(config, p);
      ReadsNext(config, input, Reached(config, input, n - 1).value, q);
    }
  }

  lemma OnlyNothing(config: NumConfig, p: Numeral)
    requires StateOf(config, p).Some? && p.Spelled() == ""
    ensures p == NONE_READ
  {
  }

  // ---------- what the scanner offers ----------

  predicate IsInteger(config: NumConfig, p: Numeral) {
    p.Decimal? && p.fraction.None? && p.exponent.None? && SignedWhole(config, p) && p.whole != ""
  }

  /** The next character is one that does not end the numeral. */
  predicate GoesOn(config: NumConfig, p: Numeral, ch: char) {
    if p.Hexadecimal? then IsHexDigit(ch)
    else
      || IsDigit(ch)
      || (p.exponent.Some? && p.exponent.value.sign == p.exponent.value.digits == "" && (ch == '+' || ch == '-'))
      || (p.exponent.None? && p.fraction.None? && config.flt && ch == '.')
      || (p.exponent.None? && config.scientific && (ch == 'e' || ch == 'E') && (p.fraction.None? ==> !Zeros(p.whole)))
      || (p.exponent.None? && p.fraction.None? && config.hex && (ch == 'x' || ch == 'X') && Zeros(p.whole))
  }

  /** The input begins with the numeral, and it ends there. */
  predicate Begins(config: NumConfig, input: string, p: Numeral) {
    p.Spelled() <= input && (|p.Spelled()| < |input| ==> !GoesOn(config, p, input[|p.Spelled()|]))
  }

  /** A mantissa with an exponent's mark, and a sign or none, but no digit. */
  predicate BreaksOff(config: NumConfig, p: Numeral) {
    HasExponent(config, p) && p.exponent.value.digits == ""
  }

  /** What a numeral is offered as. */
  function OfferFor(config: NumConfig, p: Numeral, moves: seq<Move>): Offer {
    if IsInteger(config, p) then Accept(moves, TOKEN_INTEGER)
    else if IsFloat(config, p) then Accept(moves, TOKEN_FLOAT)
    else if IsHexadecimal(config, p) then Accept(moves, TOKEN_HEX)
    else if BreaksOff(config, p) then Give(moves, Some(Token(TOKEN_ERROR, "Malformed number")))
    else Pass
  }

  /** A sign, a point or nothing, which is no numeral yet. */
  predicate IsComplete(config: NumConfig, p: Numeral) {
    IsInteger(config, p) || IsFloat(config, p) || IsHexadecimal(config, p) || BreaksOff(config, p)
  }

  lemma StopsAs(config: NumConfig, input: string, at: Progress, p: Numeral)
    requires Reads(config, input, Some(at), p)
    ensures var n := |at.moves|;
            && (IsComplete(config, p) ==>
                  (at.Stops(config, input) <==> n < |input| ==> !GoesOn(config, p, input[n])))
            && (at.Stops(config, input) ==> at.Offer(config, input) == OfferFor(config, p, at.moves))
  {
    hide Text, Stripped, Lower, Numeral.Spelled, Numeral.Shortened;
    if |at.moves| < |input| { LowerMeans(input[|at.moves|]); }
  }

  /** A numeral at the beginning of the input that ends there is offered as what it is, without its redundant zeros. */
  lemma NumeralOffered(config: NumConfig, input: string, p: Numeral)
    requires IsComplete(config, p) && Begins(config, input, p)
    ensures var offer := NumOffer(config, input);
            && offer != Pass && offer == OfferFor(config, p, offer.moves) && offer.Length() == |p.Spelled()|
            && Text(offer.moves, input) == p.Shortened()
  {
    hide Text, GoesOn, Numeral.Spelled, Numeral.Shortened, Run, Reached;
    CompleteState(config, p);
    NumeralReached(config, input, p);
    var at := Reached(config, input, |p.Spelled()|).value;
    hide StateOf, OfferFor;
    StopsAs(config, input, at, p);
    OfferShape(config, p, at.moves);
    RunThrough(config, input, |p.Spelled()|);
    RunOnce(config, input, at);
  }

  lemma CompleteState(config: NumConfig, p: Numeral)
    ensures IsComplete(config, p) ==> StateOf(config, p).Some?
  {
    NoDigits();
  }

  lemma OfferShape(config: NumConfig, p: Numeral, moves: seq<Move>)
    ensures !OfferFor(config, p, moves).Pass? <==> IsComplete(config, p)
    ensures var offer := OfferFor(config, p, moves); !offer.Pass? ==> !offer.Skip? && offer.moves == moves
  {
  }

  /** Nothing is offered but for such a numeral. */
  lemma OfferedNumeral(config: NumConfig, input: string) returns (p: Numeral)
    requires NumOffer(config, input) != Pass
    ensures IsComplete(config, p) && Begins(config, input, p)
  {
    hide Text, GoesOn, Numeral.Spelled, Numeral.Shortened, StateOf, OfferFor, IsComplete, Run, Reached;
    ReadsNothing(config, input);
    RunThrough(config, input, 0);
    var at := RunEnds(config, input, START);
    var n := |at.moves|;
    p := ReachedNumeral(config, input, n);
    StopsAs(config, input, at, p);
    OfferShape(config, p, at.moves);
    assert p.Spelled() == input[..n];
  }

  /** What the scanner offers, from the input alone: an integer, a float or a hexadecimal of `n` characters, if and only
      if the input begins with such a numeral, of that length, that ends there; and the error token, if and only if it
      begins with a mantissa and an exponent's mark, and perhaps a sign, without a digit behind it. */
  lemma NumberIff(config: NumConfig, input: string, n: nat)
    ensures var offer := NumOffer(config, input);
            && (Accepts(offer, TOKEN_INTEGER, n) <==>
                exists p :: IsInteger(config, p) && |p.Spelled()| == n && Begins(config, input, p))
            && (Accepts(offer, TOKEN_FLOAT, n) <==>
                exists p :: IsFloat(config, p) && |p.Spelled()| == n && Begins(config, input, p))
            && (Accepts(offer, TOKEN_HEX, n) <==>
                exists p :: IsHexadecimal(config, p) && |p.Spelled()| == n && Begins(config, input, p))
            && (IsMalformed(offer, n) <==>
                exists p :: BreaksOff(config, p) && |p.Spelled()| == n && Begins(config, input, p))
            && (offer == Pass <==> forall p :: IsComplete(config, p) ==> !Begins(config, input, p))
  {
    hide Text, Numeral.Spelled, Numeral.Shortened, NumOffer, Begins, IsInteger, IsFloat, IsHexadecimal, BreaksOff;
    var offer := NumOffer(config, input);
    forall p | IsComplete(config, p) && Begins(config, input, p)
      ensures offer != Pass && offer == OfferFor(config, p, offer.moves) && offer.Length() == |p.Spelled()|
    {
      NumeralOffered(config, input, p);
    }
    forall p { Apart(config, p); }
    if offer != Pass { var p := OfferedNumeral(config, input); }
  }

  predicate Accepts(offer: Offer, code: int, n: nat) {
    offer.Accept? && offer.code == code && |offer.moves| == n
  }

  predicate IsMalformed(offer: Offer, n: nat) {
    offer.Give? && offer.token == Some(Token(TOKEN_ERROR, "Malformed number")) && |offer.moves| == n
  }

  /** A numeral is of one kind only. */
  lemma Apart(config: NumConfig, p: Numeral)
    ensures IsInteger(config, p) ==> !IsFloat(config, p) && !IsHexadecimal(config, p) && !BreaksOff(config, p)
    ensures IsFloat(config, p) ==> !IsHexadecimal(config, p) && !BreaksOff(config, p)
    ensures IsHexadecimal(config, p) ==> !BreaksOff(config, p)
  {
  }

  // ---------- the number that a token stands for ----------

  function Value(d: string): int {
    if d == "" then 0 else Value(d[..|d| - 1]) * 10 + (d[|d| - 1] as int - '0' as int)
  }

  lemma {:induction false} LeadingZero(d: string)
    requires d != "" && d[0] == '0'
    ensures Value(d) == Value(d[1..])
  {
    var n := |d| - 1;
    if n == 0 {
      assert d[..0] == "" && d[1..] == "";
    } else {
      LeadingZero(d[..n]);
      assert d[..n][1..] == d[1..][..n - 1];
    }
  }

  lemma {:induction false} StrippedKeepsValue(d: string)
    ensures Value(Stripped(d)) == Value(d)
  {
    if |d| > 1 && d[0] == '0' {
      LeadingZero(d);
      StrippedKeepsValue(d[1..]);
    }
  }

  /** The token of a numeral is a numeral of the same kind, with the same sign, fraction and exponent or hexadecimal
      digits, whose whole part has the same value and no redundant leading zero. */
  lemma TokenKeepsValue(config: NumConfig, input: string, p: Numeral)
    requires IsComplete(config, p) && !BreaksOff(config, p) && Begins(config, input, p)
    ensures var q, offer := p.(whole := Stripped(p.whole)), NumOffer(config, input);
            && offer.Accept? && Text(offer.moves, input) == q.Spelled() && Value(q.whole) == Value(p.whole)
            && (IsInteger(config, q) <==> IsInteger(config, p)) && (IsFloat(config, q) <==> IsFloat(config, p))
            && (IsHexadecimal(config, q) <==> IsHexadecimal(config, p))
            && (q.whole == "" || q.whole == "0" || q.whole[0] != '0') && (q.whole == "" <==> p.whole == "")
  {
    hide Begins, NumOffer, Text, Stripped, Digits, Zeros, HexDigits, IsInteger, IsFloat, IsHexadecimal, BreaksOff;
    NumeralOffered(config, input, p);
    CompleteIsSigned(config, p);
    StrippedIs(p.whole);
    StrippedKeepsValue(p.whole);
    StrippedSameKind(config, p);
  }

  lemma CompleteIsSigned(config: NumConfig, p: Numeral)
    ensures IsComplete(config, p) ==> SignedWhole(config, p) && Digits(p.whole)
  {
  }

  lemma StrippedSameKind(config: NumConfig, p: Numeral)
    requires SignedWhole(config, p)
    ensures var q := p.(whole := Stripped(p.whole));
            && (IsInteger(config, q) <==> IsInteger(config, p)) && (IsFloat(config, q) <==> IsFloat(config, p))
            && (IsHexadecimal(config, q) <==> IsHexadecimal(config, p))
  {
    hide Stripped, Digits, Zeros, HexDigits;
    StrippedIs(p.whole);
    LoneZero();
  }

  lemma LoneZero()
    ensures Zeros("0") && !Zeros("")
    ensures forall d :: Zeros(d) && d != "0" ==> d[0] == '0'
  {
  }

  const DEFAULT := NumConfig(true, true, true, true)

  lemma FloatRead()
    ensures var offer := NumOffer(DEFAULT, "-007.50E+3;");
            Accepts(offer, TOKEN_FLOAT, 10) && Text(offer.moves, "-007.50E+3;") == "-7.50E+3"
  {
    hide NumOffer, Text;
    var p := Decimal("-", "007", Some("50"), Some(Exponent('E', "+", "3")));
    assert p.Spelled() == "-007.50E+3" && p.Rest() == ".50E+3" && "007"[1..] == "07" && "07"[1..] == "7";
    assert Stripped("007") == Stripped("07") == Stripped("7") == "7" && p.Shortened() == "-7.50E+3";
    NumeralOffered(DEFAULT, "-007.50E+3;", p);
  }

  lemma HexadecimalRead()
    ensures var offer := NumOffer(DEFAULT, "00xFfg");
            Accepts(offer, TOKEN_HEX, 5) && Text(offer.moves, "00xFfg") == "0xFf"
  {
    hide NumOffer, Text;
    var p := Hexadecimal("", "00", 'x', "Ff");
    assert p.Spelled() == "00xFf" && p.Rest() == "xFf" && "00"[1..] == "0";
    assert Stripped("00") == Stripped("0") == "0" && p.Shortened() == "0xFf";
    NumeralOffered(DEFAULT, "00xFfg", p);
  }

  /** An exponent without digits. */
  lemma MalformedRead()
    ensures IsMalformed(NumOffer(DEFAULT, "2e+;"), 3)
  {
    hide NumOffer, Text;
    var p := Decimal("", "2", None, Some(Exponent('e', "+", "")));
    assert p.Rest() == "e+" && p.Spelled() == "2e+";
    assert "2"[0] == '2' && !Zeros("2") && IsMantissa(DEFAULT, p);
    NumeralOffered(DEFAULT, "2e+;", p);
  }

  /** A point behind an integer calls for a digit: without one (or an exponent) the scanner offers nothing at all, not
      even the integer, unless that is zero; then it is a float. */
  lemma PointNeedsDigit(config: NumConfig, input: string, p: Numeral)
    requires IsInteger(config, p) && config.flt && p.Spelled() + "." <= input
    requires var n := |p.Spelled()|; n + 1 == |input| || !(IsDigit(input[n + 1]) || input[n + 1] in "eE")
    ensures var offer := NumOffer(config, input);
            if Zeros(p.whole) then Accepts(offer, TOKEN_FLOAT, |p.Spelled()| + 1) else offer == Pass
  {
    hide Text, Stripped, Numeral.Spelled, Numeral.Shortened, Run, Reached, Lower;
    var n := |p.Spelled()|;
    assert p.Spelled() == input[..n] && input[n] == '.';
    NumeralReached(config, input, p);
    var at := Reached(config, input, n).value;
    LowerMeans('.');
    if n + 1 < |input| { LowerMeans(input[n + 1]); }
    RunThrough(config, input, n);
    RunOnce(config, input, at);
    RunOnce(config, input, at.Advance(config, input));
  }

  class NumScanner {
    const config: NumConfig
    var state: NumState

    constructor (config: NumConfig)
      ensures this.config == config
    {
      this.config, state := config, Nothing;
    }

    /** The scanner and the lexer are where `p` says. */
    ghost predicate At(lexer: Lexer, p: Progress)
      reads this, lexer
    {
      && p.Fits(lexer.buffer) && lexer.scanCount == |p.moves| && lexer.token == Text(p.moves, lexer.buffer)
      && state == p.state
    }

    /** One character: the next state, and the character pushed unless the scanner stops. */
    method Process(lexer: Lexer, ch: char, ghost p: Progress) returns (code: Option<int>)
      requires At(lexer, p)
      requires lexer.current == if |p.moves| < |lexer.buffer| then lexer.buffer[|p.moves|] else '\0'
      requires lexer.current == '\0' <==> |p.moves| == |lexer.buffer|
      requires ch == Lower(lexer.current)
      modifies this`state, lexer`token, lexer`current, lexer`scanCount
      ensures state == p.Next(config, lexer.buffer).state && code == p.Next(config, lexer.buffer).code
      ensures if p.Stops(config, lexer.buffer)
              then lexer.scanCount == old(lexer.scanCount) && lexer.token == old(lexer.token)
              else At(lexer, p.Advance(config, lexer.buffer))
    {
      hide Step, Text;
      p.StopsAtEnd(config, lexer.buffer);
      var v := Step(config, state, ch, |lexer.token|);
      assert v == p.Next(config, lexer.buffer);
      state, code := v.state, v.code;
      if v.chop {
        ChopsOnly(config, p.state, ch, |lexer.token|);
        lexer.Chop();
      }
      if state != Finished && state != Malformed {
        lexer.DoPush();
        TextNext(p.moves, if v.chop then ChopPush else Push, lexer.buffer);
      }
    }

    /** One call of the scanner comes to what the specification says. */
    method Match(lexer: Lexer)
      requires lexer.Valid() && lexer.Rewound()
      requires lexer.state == Success <==> lexer.scanned > 0
      modifies this, lexer
      ensures lexer.Valid() && lexer.buffer == old(lexer.buffer) && lexer.count == old(lexer.count)
      ensures lexer.SpokenFor() == Taken(old(lexer.SpokenFor()), NumOffer(config, lexer.buffer), lexer.buffer)
      ensures lexer.state == (if lexer.scanned > 0 then Success else old(lexer.state))
    {
      hide Step, Text, AllHonest, Run, Lower;
      ghost var input := lexer.buffer;
      ghost var offer, p := NumOffer(config, input), START;
      ghost var before: Option<Progress> := None;
      NoText(input);
      state := Nothing;
      var code: Option<int> := None;
      while state != Finished && state != Malformed
        invariant lexer.Valid() && lexer.buffer == input && lexer.count == old(lexer.count)
        invariant lexer.SpokenFor() == old(lexer.SpokenFor()) && lexer.state == old(lexer.state)
        invariant p.Fits(input) && lexer.scanCount == |p.moves| && lexer.token == Text(p.moves, input)
        invariant offer == Run(config, input, p)
        invariant if state == Finished || state == Malformed
                  then && p.Stops(config, input) && state == p.Next(config, input).state
                       && code == p.Next(config, input).code
                  else state == p.state && lexer.pos == |p.moves|
        decreases |input| - |p.moves|, state != Finished && state != Malformed
      {
        var ch := lexer.ReadNext(p.moves);
        LowerNul(ch);
        code := Process(lexer, Lower(ch), p);
        RunOnce(config, input, p);
        if !p.Stops(config, input) {
          p := p.Advance(config, input);
        }
      }
      RunOnce(config, input, p);
      if state == Malformed {
        lexer.AcceptToken(Some(Token(TOKEN_ERROR, "Malformed number")));
      } else if code.Some? {
        lexer.DoAccept(code.value);
      }
    }
  }

  lemma LowerNul(ch: char)
    ensures Lower(ch) == '\0' <==> ch == '\0'
    ensures Lower('\0') == '\0'
  {
  }

  lemma ChopsOnly(config: NumConfig, state: NumState, ch: char, length: nat)
    ensures Step(config, state, ch, length).chop ==>
              Step(config, state, ch, length).state == Zero || Step(config, state, ch, length).state == Number
  {
  }

  lemma RunOnce(config: NumConfig, input: string, p: Progress)
    requires p.Fits(input)
    ensures Run(config, input, p) ==
            if p.Stops(config, input) then p.Offer(config, input) else Run(config, input, p.Advance(config, input))
  {
  }
}
