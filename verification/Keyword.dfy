/** The keyword scanner: a sorted array of keywords, and a window on it that narrows with every
    character read. */
module Keywords {
  import opened Wrappers
  import opened TokenCodes
  import opened Lexing

  /** C's string comparison. */
  function Compare(a: string, b: string): int {
    if a == "" then (if b == "" then 0 else -1)
    else if b == "" then 1
    else if a[0] != b[0] then (if a[0] < b[0] then -1 else 1)
    else Compare(a[1..], b[1..])
  }

  lemma {:induction false} CompareEqual(a: string, b: string)
    ensures Compare(a, b) == 0 <==> a == b
    ensures Compare(a, b) == -Compare(b, a)
  {
    if a != "" && b != "" {
      CompareEqual(a[1..], b[1..]);
      assert a == [a[0]] + a[1..] && b == [b[0]] + b[1..];
    }
  }

  lemma {:induction false} CompareTransitive(a: string, b: string, c: string)
    requires Compare(a, b) <= 0 && Compare(b, c) < 0
    ensures Compare(a, c) < 0
  {
    if a != "" && a[0] == b[0] == c[0] { CompareTransitive(a[1..], b[1..], c[1..]); }
  }

  /** What lies between a string and one of its extensions extends it too. */
  lemma {:induction false} Between(s: string, a: string, b: string)
    requires s <= b && Compare(s, a) <= 0 && Compare(a, b) <= 0
    ensures s <= a
  {
    if s != "" {
      Between(s[1..], a[1..], b[1..]);
      assert s == [s[0]] + s[1..] && a == [a[0]] + a[1..];
    }
  }

  lemma {:induction false} PrefixBelow(s: string, a: string)
    requires s <= a
    ensures Compare(s, a) <= 0
  {
    if s != "" { PrefixBelow(s[1..], a[1..]); }
  }

  ghost predicate Sorted(ks: seq<Token>) {
    forall i, j :: 0 <= i < j < |ks| ==> Compare(ks[i].text, ks[j].text) < 0
  }

  lemma SortedDistinct(ks: seq<Token>)
    requires Sorted(ks)
    ensures forall i, j :: 0 <= i < |ks| && 0 <= j < |ks| && ks[i].text == ks[j].text ==> i == j
  {
    forall i, j | 0 <= i < j < |ks| ensures ks[i].text != ks[j].text {
      CompareEqual(ks[i].text, ks[j].text);
    }
  }

  /** Some keyword has this text. */
  predicate Has(ks: seq<Token>, s: string) {
    exists i :: 0 <= i < |ks| && ks[i].text == s
  }

  /** Keyword `i` begins with `s`. */
  predicate Extends(ks: seq<Token>, i: int, s: string) {
    0 <= i < |ks| && s <= ks[i].text
  }

  predicate Open(ks: seq<Token>, s: string) {
    exists i :: 0 <= i < |ks| && Extends(ks, i, s)
  }

  predicate Several(ks: seq<Token>, s: string) {
    exists i, j :: 0 <= i < |ks| && 0 <= j < |ks| && Extends(ks, i, s) && Extends(ks, j, s) && i != j
  }

  function Lookup(ks: seq<Token>, s: string): (t: Option<Token>)
    ensures t.Some? <==> Has(ks, s)
    ensures t.Some? ==> t.value in ks && t.value.text == s
  {
    if ks == [] then None else if ks[0].text == s then Some(ks[0]) else Lookup(ks[1..], s)
  }

  /** The longest keyword `s` begins with, other than the empty one. */
  function Longest(ks: seq<Token>, s: string): Option<Token>
  {
    if s == "" then None
    else if Has(ks, s) then Lookup(ks, s)
    else Longest(ks, s[..|s| - 1])
  }

  lemma {:induction false} LongestIsLongest(ks: seq<Token>, s: string)
    ensures Longest(ks, s).Some? ==>
              Longest(ks, s).value in ks && Longest(ks, s).value.text <= s && Longest(ks, s).value.text != ""
    ensures forall i :: 0 <= i < |ks| && ks[i].text != "" && ks[i].text <= s ==>
              Longest(ks, s).Some? && |ks[i].text| <= |Longest(ks, s).value.text|
  {
    if s != "" && !Has(ks, s) {
      LongestIsLongest(ks, s[..|s| - 1]);
      forall i | 0 <= i < |ks| && ks[i].text <= s ensures ks[i].text <= s[..|s| - 1] {
        assert ks[i].text != s;
      }
    }
  }

  /** How far the input goes on spelling the beginning of some keyword. */
  function Reach(ks: seq<Token>, input: string, n: nat): (r: nat)
    requires n <= |input|
    ensures n <= r <= |input|
    ensures r > n ==> Open(ks, input[..r])
    ensures r < |input| ==> !Open(ks, input[..r + 1])
    decreases |input| - n
  {
    if n < |input| && Open(ks, input[..n + 1]) then Reach(ks, input, n + 1) else n
  }

  lemma {:induction false} ReachIs(ks: seq<Token>, input: string, n: nat, r: nat)
    requires n <= r <= |input|
    requires r > n ==> Open(ks, input[..r])
    requires r < |input| ==> !Open(ks, input[..r + 1])
    ensures Reach(ks, input, n) == r
    decreases |input| - n
  {
    if n < r {
      var i :| 0 <= i < |ks| && Extends(ks, i, input[..r]);
      assert Extends(ks, i, input[..n + 1]);
      ReachIs(ks, input, n + 1, r);
    }
  }

  /** What the scanner makes of the input: it consumes as far as keywords reach, for the longest
      keyword found on the way; at the end of the input it needs to be left with one keyword only. */
  function KeywordOffer(ks: seq<Token>, input: string): (offer: Offer)
    ensures offer.Fits(input)
  {
    var n := Reach(ks, input, 0);
    var found := Longest(ks, input[..n]);
    if found.Some? && (n < |input| || !Several(ks, input)) then Accept(seq(n, _ => Push), found.value.code)
    else Pass
  }

  lemma KeywordText(ks: seq<Token>, input: string)
    requires KeywordOffer(ks, input).Accept?
    ensures var n := Reach(ks, input, 0);
            KeywordOffer(ks, input).Length() == n && Text(KeywordOffer(ks, input).moves, input) == input[..n]
  {
    TextVerbatim(KeywordOffer(ks, input).moves, input);
  }

  /** What is promised of an accepted keyword: it is the longest one the input begins with, and exactly
      its characters are consumed. */
  ghost predicate Exact(ks: seq<Token>, input: string) {
    var offer := KeywordOffer(ks, input);
    offer.Accept? ==>
      && Longest(ks, input).Some?
      && Text(offer.moves, input) == Longest(ks, input).value.text
      && offer.code == Longest(ks, input).value.code
  }

  /** A string on the way from a keyword to a longer one that is not a keyword itself. */
  ghost predicate Gap(ks: seq<Token>, u: string) {
    && !Has(ks, u)
    && Longest(ks, u).Some?
    && Open(ks, u)
  }

  /** The scanner cannot stop in a gap: more than one keyword goes on, and with every character. */
  ghost predicate NoStop(ks: seq<Token>, u: string) {
    Several(ks, u) && forall c: char | c != '\0' :: Open(ks, u + [c])
  }

  /** A text that the lexer can be given. */
  ghost predicate CanOccur(s: string) { '\0' !in s }

  /** Every accepted token is exact if and only if the scanner cannot stop in a gap: after a keyword the
      scanner takes a longer one's beginning for a match. */
  lemma ExactUnlessGaps(ks: seq<Token>)
    ensures (forall input: string | CanOccur(input) :: Exact(ks, input))
            <==> (forall u: string | CanOccur(u) :: Gap(ks, u) ==> NoStop(ks, u))
  {
    if forall u: string | CanOccur(u) :: Gap(ks, u) ==> NoStop(ks, u) {
      forall input: string | CanOccur(input) ensures Exact(ks, input) { ExactWithoutGaps(ks, input); }
    }
    if forall input: string | CanOccur(input) :: Exact(ks, input) {
      forall u: string | CanOccur(u) && Gap(ks, u) ensures NoStop(ks, u) { StopInGap(ks, u); }
    }
  }

  lemma ReachIsLongest(ks: seq<Token>, input: string)
    ensures Longest(ks, input) == Longest(ks, input[..Reach(ks, input, 0)])
  {
    LongestFrom(ks, input, Reach(ks, input, 0), |input|);
    assert input[..|input|] == input;
  }

  lemma HasOpens(ks: seq<Token>, s: string, p: string)
    requires Has(ks, s) && p <= s
    ensures Open(ks, p)
  {
    var i :| 0 <= i < |ks| && ks[i].text == s;
    assert Extends(ks, i, p);
  }

  lemma {:induction false} LongestFrom(ks: seq<Token>, input: string, n: nat, m: nat)
    requires n <= m <= |input| && n == Reach(ks, input, 0)
    ensures Longest(ks, input[..m]) == Longest(ks, input[..n])
  {
    if n < m {
      LongestFrom(ks, input, n, m - 1);
      assert input[..m][..m - 1] == input[..m - 1];
      if Has(ks, input[..m]) { HasOpens(ks, input[..m], input[..n + 1]); }
    }
  }

  lemma ExactIff(ks: seq<Token>, input: string)
    requires KeywordOffer(ks, input).Accept?
    ensures Exact(ks, input) <==> Has(ks, input[..Reach(ks, input, 0)])
  {
    KeywordText(ks, input);
    ReachIsLongest(ks, input);
    LongestIsLongest(ks, input);
  }

  lemma ExactWithoutGaps(ks: seq<Token>, input: string)
    requires CanOccur(input) && forall u: string | CanOccur(u) :: Gap(ks, u) ==> NoStop(ks, u)
    ensures Exact(ks, input)
  {
    if KeywordOffer(ks, input).Accept? {
      ExactIff(ks, input);
      var n := Reach(ks, input, 0);
      var u := input[..n];
      LongestIsLongest(ks, u);
      assert CanOccur(u) && (!Has(ks, u) ==> Gap(ks, u));
      assert n < |input| ==> input[..n + 1] == u + [input[n]];
      assert n == |input| ==> u == input;
    }
  }

  lemma StopInGap(ks: seq<Token>, u: string)
    requires forall input: string | CanOccur(input) :: Exact(ks, input)
    requires CanOccur(u) && Gap(ks, u)
    ensures NoStop(ks, u)
  {
    assert u[..|u|] == u;
    if !Several(ks, u) {
      ReachIs(ks, u, 0, |u|);
      ExactIff(ks, u);
    }
    forall c: char | c != '\0' ensures Open(ks, u + [c]) {
      var input := u + [c];
      assert CanOccur(input);
      if !Open(ks, input) {
        assert input[..|u|] == u && input[..|u| + 1] == input;
        ReachIs(ks, input, 0, |u|);
        ExactIff(ks, input);
      }
    }
  }

  /** When a keyword begins the input, the scanner passes if and only if the input ends while more than
      one keyword goes on from it. */
  lemma PassesOnlyAtEnd(ks: seq<Token>, input: string)
    ensures KeywordOffer(ks, input).Pass? <==>
            Longest(ks, input) == None || (Reach(ks, input, 0) == |input| && Several(ks, input))
  {
    ReachIsLongest(ks, input);
  }

  /** With keywords "a" and "ab", the text "a" is passed on, although it is a keyword. */
  lemma KeywordPassedAtEnd(a: Token, ab: Token)
    requires a.text == "a" && ab.text == "ab"
    ensures KeywordOffer([a, ab], "a").Pass? && Longest([a, ab], "a") == Some(a)
  {
    var ks, input := [a, ab], "a";
    assert input[..1] == "a" && "ab"[..1] == "a";
    assert Extends(ks, 0, "a") && Extends(ks, 1, "a");
    ReachIs(ks, input, 0, 1);
    assert ks[0].text == "a" && Has(ks, "a") && Lookup(ks, "a") == Some(a);
    PassesOnlyAtEnd(ks, input);
  }

  /** With keywords "a" and "abc", the text "ab!" gives the code of "a" with the text "ab". */
  lemma GapTakenForMatch(a: Token, abc: Token)
    requires a.text == "a" && abc.text == "abc"
    ensures var offer := KeywordOffer([a, abc], "ab!");
            && offer.Accept? && offer.code == a.code && Text(offer.moves, "ab!") == "ab"
            && Longest([a, abc], "ab!") == Some(a)
  {
    var ks, input := [a, abc], "ab!";
    assert input[..1] == "a" && input[..2] == "ab" && input[..3] == "ab!" && "ab"[..1] == "a";
    assert Extends(ks, 1, "ab") by { assert "abc"[..2] == "ab"; }
    assert "abc"[2] == 'c' && "ab!"[2] == '!';
    assert !Open(ks, "ab!");
    ReachIs(ks, input, 0, 2);
    assert ks[0].text == "a" && !Has(ks, "ab");
    assert Longest(ks, "ab") == Longest(ks, "a") == Lookup(ks, "a");
    assert Lookup(ks, "a") == Some(a);
    ReachIsLongest(ks, input);
    KeywordText(ks, input);
  }

  /** The first place whose keyword is not below `s`. */
  function Slot(ks: seq<Token>, s: string): (k: nat)
    ensures k <= |ks|
    ensures forall i :: 0 <= i < k ==> Compare(ks[i].text, s) < 0
    ensures k < |ks| ==> Compare(ks[k].text, s) >= 0
  {
    if ks == [] || Compare(ks[0].text, s) >= 0 then 0 else 1 + Slot(ks[1..], s)
  }

  ghost function Inserted(ks: seq<Token>, t: Token): seq<Token> {
    var k := Slot(ks, t.text);
    if k < |ks| && ks[k].text == t.text then ks else ks[..k] + [t] + ks[k..]
  }

  /** Adding keeps the keywords sorted, and adds the text if no keyword has it. */
  lemma InsertedSorted(ks: seq<Token>, t: Token)
    requires Sorted(ks)
    ensures Sorted(Inserted(ks, t))
    ensures forall x :: x in Inserted(ks, t) <==> x in ks || (x == t && !Has(ks, t.text))
  {
    hide Compare;
    var k := Slot(ks, t.text);
    if k < |ks| && ks[k].text == t.text {
      assert Has(ks, t.text);
    } else {
      if k < |ks| { CompareEqual(ks[k].text, t.text); }
      forall i | k <= i < |ks| ensures Compare(t.text, ks[i].text) < 0 {
        if k < i { CompareTransitive(t.text, ks[k].text, ks[i].text); }
      }
      forall i | 0 <= i < |ks| ensures ks[i].text != t.text {
        CompareEqual(ks[i].text, t.text);
        CompareEqual(t.text, ks[i].text);
      }
      SplicedSorted(ks, t, k);
    }
  }

  lemma SplicedSorted(ks: seq<Token>, t: Token, k: nat)
    requires Sorted(ks) && k <= |ks|
    requires forall i :: 0 <= i < k ==> Compare(ks[i].text, t.text) < 0
    requires forall i :: k <= i < |ks| ==> Compare(t.text, ks[i].text) < 0
    ensures Sorted(ks[..k] + [t] + ks[k..])
    ensures forall x :: x in ks[..k] + [t] + ks[k..] <==> x in ks || x == t
  {
    hide Compare;
    var after := ks[..k] + [t] + ks[k..];
    forall i, j | 0 <= i < j < |after| ensures Compare(after[i].text, after[j].text) < 0 {
      assert i < k ==> after[i] == ks[i];
      assert i > k ==> after[i] == ks[i - 1];
      assert j < k ==> after[j] == ks[j];
      assert j > k ==> after[j] == ks[j - 1];
    }
    forall x ensures x in after <==> x in ks || x == t {
      assert ks == ks[..k] + ks[k..];
    }
  }

  ghost predicate Longer(ks: seq<Token>, len: nat) {
    forall t :: t in ks ==> |t.text| <= len
  }

  class KeywordConfig {
    var keywords: array<Token>
    var numKeywords: nat
    var maxlen: nat

    ghost predicate Valid()
      reads this, keywords
    {
      && numKeywords <= keywords.Length
      && Sorted(Keywords())
      && Longer(Keywords(), maxlen)
    }

    ghost function Keywords(): seq<Token>
      requires numKeywords <= keywords.Length
      reads this, keywords
    {
      keywords[..numKeywords]
    }

    constructor ()
      ensures Valid() && Keywords() == []
    {
      keywords := new Token[0];
      numKeywords, maxlen := 0, 0;
    }

    /** Room for one more, by doubling. */
    method Grow()
      requires numKeywords == keywords.Length
      modifies this`keywords
      ensures fresh(keywords) && numKeywords < keywords.Length
      ensures keywords[..numKeywords] == old(keywords[..])
    {
      var newsz := if keywords.Length > 0 then 2 * keywords.Length else 4;
      var old_ := keywords;
      var bigger := new Token[newsz](i requires 0 <= i reads old_ =>
        if i < old_.Length then old_[i] else Token(0, ""));
      keywords := bigger;
    }

    /** The keyword takes its place among the others; a text that is there already stays as it is, and is an
        error when it comes with another code. */
    method AddKeyword(t: Token) returns (ok: bool)
      requires Valid()
      modifies this, keywords
      ensures Valid() && (keywords == old(keywords) || fresh(keywords))
      ensures Keywords() == Inserted(old(Keywords()), t)
      ensures ok <==> t in Keywords()
    {
      hide Sorted, Has, Compare, Slot, Longer;
      ghost var ks := Keywords();
      InsertedSorted(ks, t);
      if numKeywords == keywords.Length {
        Grow();
      }
      assert Keywords() == ks && Longer(ks, maxlen);
      var slot := FindSlot(t.text);
      if slot < numKeywords {
        CompareEqual(ks[slot].text, t.text);
        assert keywords[slot] == ks[slot];
      }
      if slot < numKeywords && Compare(keywords[slot].text, t.text) == 0 {
        ok := keywords[slot].code == t.code;
        InTwice(ks, t, slot);
        return;
      }
      InsertAt(slot, t);
      assert Keywords()[slot] == t;
      ok := true;
    }

    method FindSlot(s: string) returns (slot: nat)
      requires numKeywords <= keywords.Length
      ensures slot == Slot(Keywords(), s)
    {
      slot := 0;
      while slot < numKeywords && Compare(keywords[slot].text, s) < 0
        invariant 0 <= slot <= numKeywords
        invariant forall i :: 0 <= i < slot ==> Compare(keywords[i].text, s) < 0
      {
        slot := slot + 1;
      }
      SlotIs(Keywords(), s, slot);
    }

    method InsertAt(slot: nat, t: Token)
      requires slot <= numKeywords < keywords.Length && Longer(Keywords(), maxlen)
      modifies this`numKeywords, this`maxlen, keywords
      ensures numKeywords == old(numKeywords) + 1
      ensures Keywords() == old(Keywords()[..slot] + [t] + Keywords()[slot..]) && Longer(Keywords(), maxlen)
    {
      ShiftUp(slot);
      keywords[slot] := t;
      numKeywords := numKeywords + 1;
      assert Keywords() == old(Keywords()[..slot] + [t] + Keywords()[slot..]);
      if |t.text| > maxlen {
        maxlen := |t.text|;
      }
    }

    /** Moves what is behind a place up by one. */
    method ShiftUp(slot: nat)
      requires slot <= numKeywords < keywords.Length
      modifies keywords
      ensures forall i :: 0 <= i < slot ==> keywords[i] == old(keywords[i])
      ensures forall i :: slot <= i < numKeywords ==> keywords[i + 1] == old(keywords[i])
    {
      var i := numKeywords;
      while i > slot
        invariant slot <= i <= numKeywords
        invariant forall j :: 0 <= j < i ==> keywords[j] == old(keywords[j])
        invariant forall j :: i <= j < numKeywords ==> keywords[j + 1] == old(keywords[j])
      {
        keywords[i] := keywords[i - 1];
        i := i - 1;
      }
    }
  }

  lemma SlotIs(ks: seq<Token>, s: string, k: nat)
    requires k <= |ks|
    requires forall i :: 0 <= i < k ==> Compare(ks[i].text, s) < 0
    requires k < |ks| ==> Compare(ks[k].text, s) >= 0
    ensures Slot(ks, s) == k
  {
  }

  lemma InTwice(ks: seq<Token>, t: Token, slot: nat)
    requires Sorted(ks) && slot < |ks| && ks[slot].text == t.text
    ensures t in ks <==> ks[slot].code == t.code
  {
    SortedDistinct(ks);
    if ks[slot].code == t.code { assert ks[slot] == t; }
  }

  /** The keywords that begin with `s` are those from `min` up to `max`. */
  ghost predicate Window(ks: seq<Token>, s: string, min: int, max: int) {
    && 0 <= min <= max <= |ks|
    && (forall i :: Extends(ks, i, s) <==> min <= i < max)
  }

  lemma WindowCounts(ks: seq<Token>, s: string, min: int, max: int)
    requires Window(ks, s, min, max)
    ensures Open(ks, s) <==> max - min >= 1
    ensures Several(ks, s) <==> max - min > 1
  {
    if max - min >= 1 { assert Extends(ks, min, s); }
    if max - min > 1 { assert Extends(ks, min + 1, s); }
  }

  /** Having passed over the keywords before `ix` of the window for all but the last character of `s`,
      the scanner knows what keyword `ix` does to the window for `s`. */
  lemma BelowWindow(ks: seq<Token>, s: string, ix: int, i: int)
    requires Sorted(ks) && 0 <= ix < |ks| && Compare(ks[ix].text, s) < 0 && Extends(ks, i, s)
    ensures ix < i
  {
    PrefixBelow(s, ks[i].text);
    CompareEqual(ks[ix].text, s);
    if i < ix { CompareTransitive(s, ks[i].text, ks[ix].text); }
  }

  lemma WindowStep(ks: seq<Token>, s: string, min: int, ix: int, max: int)
    requires Sorted(ks) && s != "" && Window(ks, s[..|s| - 1], min, max)
    requires min <= ix < max
    ensures Compare(ks[ix].text, s) < 0 ==> forall i :: i <= ix ==> !Extends(ks, i, s)
    ensures Compare(ks[ix].text, s) == 0 <==> ks[ix].text == s
    ensures Compare(ks[ix].text, s) >= 0 && !(s <= ks[ix].text) ==> forall i :: ix <= i ==> !Extends(ks, i, s)
  {
    hide Compare;
    CompareEqual(ks[ix].text, s);
    CompareEqual(s, ks[ix].text);
    forall i | Extends(ks, i, s) && Compare(ks[ix].text, s) < 0 ensures i > ix {
      BelowWindow(ks, s, ix, i);
    }
    forall i | Extends(ks, i, s) && ix <= i && Compare(ks[ix].text, s) >= 0 ensures s <= ks[ix].text {
      if ix < i { Between(s, ks[ix].text, ks[i].text); }
    }
  }

  /** Of the keywords before `ix`, those that begin with `s` are the ones from `lo` on. */
  ghost predicate Seen(ks: seq<Token>, s: string, lo: int, ix: int) {
    && 0 <= lo <= ix <= |ks|
    && (forall i :: i < ix ==> (Extends(ks, i, s) <==> lo <= i))
  }

  /** One of the first `n` keywords has this text. */
  ghost predicate HasBefore(ks: seq<Token>, s: string, n: int) {
    exists i :: 0 <= i < n && i < |ks| && ks[i].text == s
  }

  lemma NarrowStart(ks: seq<Token>, s: string, min: int, max: int)
    requires s != "" && Window(ks, s[..|s| - 1], min, max)
    ensures Seen(ks, s, min, min) && !HasBefore(ks, s, min)
  {
    forall i | Extends(ks, i, s) ensures min <= i {
      assert Extends(ks, i, s[..|s| - 1]);
    }
    assert forall i :: 0 <= i < |ks| && ks[i].text == s ==> Extends(ks, i, s);
  }

  lemma HasStep(ks: seq<Token>, s: string, ix: int)
    requires 0 <= ix < |ks|
    ensures HasBefore(ks, s, ix + 1) <==> HasBefore(ks, s, ix) || ks[ix].text == s
  {
  }

  lemma HasStop(ks: seq<Token>, s: string, ix: int)
    requires forall i :: ix <= i ==> !Extends(ks, i, s)
    ensures HasBefore(ks, s, ix) == Has(ks, s)
  {
    assert forall i :: 0 <= i < |ks| && ks[i].text == s ==> Extends(ks, i, s);
  }

  lemma NarrowStep(ks: seq<Token>, s: string, min: int, lo: int, ix: int, max: int)
    requires Sorted(ks) && s != "" && Window(ks, s[..|s| - 1], min, max)
    requires min <= ix < max && Seen(ks, s, lo, ix)
    ensures var cmp := Compare(ks[ix].text, s);
            && (cmp < 0 ==> Seen(ks, s, ix + 1, ix + 1) && HasBefore(ks, s, ix + 1) == HasBefore(ks, s, ix))
            && (cmp == 0 ==> Seen(ks, s, lo, ix + 1) && HasBefore(ks, s, ix + 1) && Lookup(ks, s) == Some(ks[ix]))
            && (cmp > 0 ==> HasBefore(ks, s, ix + 1) == HasBefore(ks, s, ix))
            && (cmp > 0 && s <= ks[ix].text ==> Seen(ks, s, lo, ix + 1))
            && (cmp > 0 && !(s <= ks[ix].text) ==>
                  Window(ks, s, lo, ix) && HasBefore(ks, s, ix) == Has(ks, s))
  {
    hide Sorted, Compare, Has, HasBefore, Seen, Window;
    WindowBounds(ks, s[..|s| - 1], min, max);
    HasStep(ks, s, ix);
    var cmp := Compare(ks[ix].text, s);
    if cmp < 0 {
      NarrowBelow(ks, s, min, lo, ix, max);
    } else if s <= ks[ix].text {
      NarrowWithin(ks, s, lo, ix);
      CompareEqual(ks[ix].text, s);
      if cmp == 0 { LookupIs(ks, ix); }
    } else {
      CompareEqual(ks[ix].text, s);
      NarrowStop(ks, s, min, lo, ix, max);
    }
  }

  lemma NarrowBelow(ks: seq<Token>, s: string, min: int, lo: int, ix: int, max: int)
    requires Sorted(ks) && s != "" && Window(ks, s[..|s| - 1], min, max)
    requires min <= ix < max && Seen(ks, s, lo, ix) && Compare(ks[ix].text, s) < 0
    ensures Seen(ks, s, ix + 1, ix + 1) && ks[ix].text != s
  {
    hide Sorted, Compare;
    CompareEqual(ks[ix].text, s);
    WindowStep(ks, s, min, ix, max);
  }

  lemma NarrowWithin(ks: seq<Token>, s: string, lo: int, ix: int)
    requires 0 <= ix < |ks| && Seen(ks, s, lo, ix) && s <= ks[ix].text
    ensures Seen(ks, s, lo, ix + 1)
  {
    assert Extends(ks, ix, s);
  }

  lemma NarrowStop(ks: seq<Token>, s: string, min: int, lo: int, ix: int, max: int)
    requires Sorted(ks) && s != "" && Window(ks, s[..|s| - 1], min, max)
    requires min <= ix < max && Seen(ks, s, lo, ix) && Compare(ks[ix].text, s) >= 0 && !(s <= ks[ix].text)
    ensures Window(ks, s, lo, ix) && HasBefore(ks, s, ix) == Has(ks, s)
  {
    hide Sorted, Compare, Has, HasBefore;
    WindowStep(ks, s, min, ix, max);
    HasStop(ks, s, ix);
  }

  lemma NarrowEnd(ks: seq<Token>, s: string, min: int, lo: int, max: int)
    requires s != "" && Window(ks, s[..|s| - 1], min, max) && Seen(ks, s, lo, max)
    ensures Window(ks, s, lo, max) && HasBefore(ks, s, max) == Has(ks, s)
  {
    hide Has, HasBefore;
    forall i | Extends(ks, i, s) ensures i < max {
      assert Extends(ks, i, s[..|s| - 1]);
    }
    HasStop(ks, s, max);
  }

  datatype KeywordState =
    | Fresh
    | PrefixMatched
    | PrefixesMatched
    | FullMatch
    | FullMatchAndPrefixes
    | FullMatchLost
    | PrefixMatchLost
    | NoMatch

  /** The state after text that some keyword begins with. */
  ghost function Matching(ks: seq<Token>, s: string): KeywordState {
    if s == "" then Fresh
    else if Several(ks, s) then (if Longest(ks, s).Some? then FullMatchAndPrefixes else PrefixesMatched)
    else (if Longest(ks, s).Some? then FullMatch else PrefixMatched)
  }

  /** The state when no keyword begins with the text any more, and one did before the last character. */
  ghost function Lost(ks: seq<Token>, s: string): KeywordState {
    if s == "" then NoMatch
    else if Longest(ks, s).Some? then FullMatchLost
    else PrefixMatchLost
  }

  class KeywordScanner {
    var matchMin: int
    var matchMax: int
    var token: Option<Token>
    var scanned: string
    var state: KeywordState

    constructor ()
    {
      matchMin, matchMax, token, scanned, state := 0, 0, None, "", Fresh;
    }

    /** The scanner has read `s`, and the window is the one for `s`. */
    ghost predicate At(ks: seq<Token>, s: string)
      reads this
    {
      && token == Longest(ks, s)
      && state == Matching(ks, s)
      && (s != "" ==> scanned == s && Open(ks, s) && Window(ks, s, matchMin, matchMax))
    }

    method Reset()
      modifies `state, `token
      ensures state == Fresh && token == None
    {
      state, token := Fresh, None;
    }

    /** The window for what has been read, from the one for all but its last character. */
    method Narrow(config: KeywordConfig)
      requires config.Valid() && scanned != ""
      requires Window(config.Keywords(), scanned[..|scanned| - 1], matchMin, matchMax)
      modifies `matchMin, `matchMax, `token
      ensures Window(config.Keywords(), scanned, matchMin, matchMax)
      ensures token == if Has(config.Keywords(), scanned) then Lookup(config.Keywords(), scanned) else old(token)
    {
      ghost var ks, min, max, s := config.Keywords(), matchMin, matchMax, scanned;
      NarrowStart(ks, s, min, max);
      NarrowAll(config, ks, s);
    }

    method NarrowAll(config: KeywordConfig, ghost ks: seq<Token>, ghost s: string)
      requires config.Valid() && ks == config.Keywords() && s == scanned != ""
      requires Window(ks, s[..|s| - 1], matchMin, matchMax)
      requires Seen(ks, s, matchMin, matchMin) && !HasBefore(ks, s, matchMin)
      modifies `matchMin, `matchMax, `token
      ensures Window(ks, s, matchMin, matchMax)
      ensures token == if Has(ks, s) then Lookup(ks, s) else old(token)
    {
      hide Sorted, Compare, Window, Seen, HasBefore, Has, Longer;
      ghost var min, max := matchMin, matchMax;
      assert 0 <= min <= max <= |ks| by { WindowBounds(ks, s[..|s| - 1], min, max); }
      var ix := matchMin;
      while ix < matchMax
        invariant min <= ix <= matchMax == max
        invariant Seen(ks, s, matchMin, ix)
        invariant token == if HasBefore(ks, s, ix) then Lookup(ks, s) else old(token)
      {
        var kw := config.keywords[ix].text;
        assert kw == ks[ix].text;
        NarrowStep(ks, s, min, matchMin, ix, max);
        var cmp := Compare(kw, scanned);
        if cmp < 0 {
          matchMin := ix + 1;
        } else if cmp == 0 {
          token := Some(config.keywords[ix]);
        } else if !(scanned <= kw) {
          matchMax := ix;
          return;
        }
        ix := ix + 1;
      }
      NarrowEnd(ks, s, min, matchMin, max);
    }

    /** Reading one more character: the window stays exact, and the state says how many keywords are left
        and whether one was read in full on the way. */
    method MatchChar(config: KeywordConfig, ch: char, ghost s: string)
      requires config.Valid() && At(config.Keywords(), s)
      modifies this
      ensures config.numKeywords == 0 ==> state == NoMatch
      ensures var ks := config.Keywords();
              config.numKeywords > 0 ==>
              && scanned == s + [ch]
              && Window(ks, scanned, matchMin, matchMax)
              && (if Open(ks, scanned) then At(ks, scanned)
                  else token == Longest(ks, s) && state == Lost(ks, s))
    {
      hide Sorted, Window, Has, Lookup, Longest, Longer;
      if config.numKeywords == 0 {
        state := NoMatch;
        return;
      }
      ghost var ks := config.Keywords();
      var before := state;
      if before == Fresh {
        matchMin, matchMax, scanned := 0, config.numKeywords, "";
        WholeWindow(ks);
      }
      scanned := scanned + [ch];
      assert scanned[..|scanned| - 1] == s;
      Narrow(config);
      WindowCounts(ks, scanned, matchMin, matchMax);
      LongestNext(ks, s, ch);
      var matchcount := matchMax - matchMin;
      if matchcount <= 0 {
        state := match before
          case FullMatchAndPrefixes => FullMatchLost
          case FullMatch => FullMatchLost
          case PrefixesMatched => PrefixMatchLost
          case PrefixMatched => PrefixMatchLost
          case _ => NoMatch;
      } else if matchcount == 1 {
        state := if token.Some? then FullMatch else PrefixMatched;
      } else {
        state := if token.Some? then FullMatchAndPrefixes else PrefixesMatched;
      }
    }

    /** Reads the lexer's input as far as the keywords reach. */
    method Scan(config: KeywordConfig, lexer: Lexer)
      requires config.Valid() && config.numKeywords > 0 && lexer.Valid() && lexer.Rewound()
      modifies this, lexer`pos, lexer`current, lexer`token, lexer`scanCount
      ensures var ks, n := config.Keywords(), Reach(config.Keywords(), lexer.buffer, 0);
              && lexer.scanCount == n && lexer.token == lexer.buffer[..n]
              && token == Longest(ks, lexer.buffer[..n])
              && (if n == |lexer.buffer| then state == Matching(ks, lexer.buffer)
                  else state == (if token.Some? then FullMatchLost else NoMatch))
    {
      hide Sorted, Window, Has, Lookup, Longest, Longer, Several, Open, Reach;
      ghost var ks, input, n := config.Keywords(), lexer.buffer, 0;
      Reset();
      assert At(ks, "") by { LongestEmpty(ks); }
      var carryOn := true;
      var ch := lexer.GetChar();
      while ch != '\0' && carryOn
        invariant lexer.buffer == input && lexer.Valid() && config.Valid() && ks == config.Keywords()
        invariant n <= |input| && lexer.scanCount == n && lexer.token == input[..n]
        invariant lexer.current == ch && (carryOn ==> lexer.pos == n + 1)
        invariant carryOn ==> ch == if n < |input| then input[n] else '\0'
        invariant n > 0 ==> Open(ks, input[..n])
        invariant if carryOn then At(ks, input[..n])
                  else n < |input| && !Open(ks, input[..n + 1])
                       && token == Longest(ks, input[..n])
                       && state == (if token.Some? then FullMatchLost else NoMatch)
        decreases |input| - n, carryOn
      {
        assert input[n] == lexer.input[lexer.count + n];
        assert input[..n + 1] == input[..n] + [ch];
        MatchChar(config, ch, input[..n]);
        carryOn := false;
        match state {
          case FullMatch => carryOn := true;
          case FullMatchAndPrefixes => carryOn := true;
          case PrefixesMatched => carryOn := true;
          case PrefixMatched => carryOn := true;
          case PrefixMatchLost => state := NoMatch;
          case _ =>
        }
        if carryOn {
          lexer.DoPush();
          n := n + 1;
        }
        ch := lexer.GetChar();
      }
      ReachIs(ks, input, 0, n);
      assert n == |input| ==> input[..n] == input;
    }

    /** One call of the keyword scanner comes to what the specification says. */
    method Match(config: KeywordConfig, lexer: Lexer)
      requires config.Valid() && lexer.Valid() && lexer.Rewound()
      requires lexer.state == Success <==> lexer.scanned > 0
      modifies this, lexer
      ensures lexer.Valid() && lexer.buffer == old(lexer.buffer) && lexer.count == old(lexer.count)
      ensures lexer.SpokenFor() ==
              Taken(old(lexer.SpokenFor()), KeywordOffer(config.Keywords(), lexer.buffer), lexer.buffer)
      ensures lexer.state == (if lexer.scanned > 0 then Success else old(lexer.state))
    {
      hide Sorted, Has, Lookup, Longest, Several, Open, Reach, Longer, Text;
      ghost var ks, input := config.Keywords(), lexer.buffer;
      if config.numKeywords == 0 {
        NoKeywords(input);
        return;
      }
      Scan(config, lexer);
      OfferIs(ks, input);
      assert input[..|input|] == input;
      LongestEmpty(ks);
      if state == FullMatchLost || state == FullMatch {
        lexer.DoAccept(token.value.code);
      }
    }
  }

  lemma WholeWindow(ks: seq<Token>)
    ensures Window(ks, "", 0, |ks|)
  {
  }

  lemma LongestEmpty(ks: seq<Token>)
    ensures Longest(ks, "") == None
  {
  }

  lemma LongestNext(ks: seq<Token>, s: string, ch: char)
    ensures Longest(ks, s + [ch]) == if Has(ks, s + [ch]) then Lookup(ks, s + [ch]) else Longest(ks, s)
    ensures Has(ks, s + [ch]) ==> Lookup(ks, s + [ch]).Some?
    ensures !Open(ks, s + [ch]) ==> !Has(ks, s + [ch])
  {
    assert (s + [ch])[..|s|] == s;
    assert forall i :: 0 <= i < |ks| && ks[i].text == s + [ch] ==> Extends(ks, i, s + [ch]);
  }

  lemma NoKeywords(input: string)
    ensures KeywordOffer([], input) == Pass
  {
    LongestIsLongest([], input[..Reach([], input, 0)]);
  }

  lemma OfferIs(ks: seq<Token>, input: string)
    ensures var n := Reach(ks, input, 0);
            var found := Longest(ks, input[..n]);
            var offer := KeywordOffer(ks, input);
            if found.Some? && (n < |input| || !Several(ks, input))
            then && offer.Accept? && offer.Length() == n
                 && offer.Offered(input) == Some(Token(found.value.code, input[..n]))
            else offer.Pass?
  {
    if KeywordOffer(ks, input).Accept? { KeywordText(ks, input); }
  }

  lemma WindowBounds(ks: seq<Token>, s: string, min: int, max: int)
    requires Window(ks, s, min, max)
    ensures 0 <= min <= max <= |ks|
  {
  }

  lemma LookupIs(ks: seq<Token>, i: int)
    requires Sorted(ks) && 0 <= i < |ks|
    ensures Lookup(ks, ks[i].text) == Some(ks[i])
  {
    SortedDistinct(ks);
  }
}
