/** Decimal text: the SDK's LegacyDec.String and LegacyNewDecFromStr, and the bot's
    trimming of trailing zeros that turns a price into its canonical text. */
module PriceText {
  import opened Decimals
  import opened Options

  predicate IsDigit(c: char) {
    '0' <= c <= '9'
  }

  predicate AllDigits(s: string) {
    forall i :: 0 <= i < |s| ==> IsDigit(s[i])
  }

  predicate NoDot(s: string) {
    forall i :: 0 <= i < |s| ==> s[i] != '.'
  }

  function DigitChar(d: nat): (c: char)
    requires d < 10
    ensures IsDigit(c) && c as int - '0' as int == d
    ensures c == '0' <==> d == 0
  {
    ('0' as int + d) as char
  }

  /** The number a digit string denotes. */
  function DigitsValue(s: string): (v: nat)
    requires AllDigits(s)
  {
    if s == "" then 0
    else 10 * DigitsValue(s[..|s| - 1]) + (s[|s| - 1] as int - '0' as int)
  }

  /** n without leading zeros. */
  function NatText(n: nat): (s: string)
    ensures s != "" && AllDigits(s) && NoDot(s)
    ensures DigitsValue(s) == n
  {
    if n < 10 then [DigitChar(n)]
    else
      var s := NatText(n / 10) + [DigitChar(n % 10)];
      assert s[..|s| - 1] == NatText(n / 10);
      s
  }

  /** The last w digits of n, padded with zeros on the left. */
  function FixedText(n: nat, w: nat): (s: string)
    requires n < Pow10(w)
    ensures |s| == w && AllDigits(s) && NoDot(s)
    ensures DigitsValue(s) == n
  {
    if w == 0 then ""
    else
      var s := FixedText(n / 10, w - 1) + [DigitChar(n % 10)];
      assert s[..|s| - 1] == FixedText(n / 10, w - 1);
      s
  }

  function Zeros(n: nat): (s: string)
    ensures |s| == n && AllDigits(s)
    ensures forall i :: 0 <= i < n ==> s[i] == '0'
  {
    seq(n, _ => '0')
  }

  /** LegacyDec.String: an optional sign, the whole part, a dot and all 18 decimals. */
  function Render(d: Dec): (s: string) {
    (if d < 0 then "-" else "") + RenderNat(if d < 0 then -d else d)
  }

  function RenderNat(m: nat): (s: string) {
    NatText(m / ONE) + "." + FixedTextOf(m)
  }

  function TrimRight(s: string, c: char): (r: string)
    ensures |r| <= |s| && r == s[..|r|]
    ensures forall i :: |r| <= i < |s| ==> s[i] == c
    ensures r != "" ==> r[|r| - 1] != c
  {
    if s != "" && s[|s| - 1] == c then TrimRight(s[..|s| - 1], c) else s
  }

  function TrimAmountTrailingZeros(amount: string): (r: string) {
    if NoDot(amount) then amount
    else
      var cut := TrimRight(amount, '0');
      if cut != "" && cut[|cut| - 1] == '.' then cut[..|cut| - 1] else cut
  }

  /** The index of the first dot, or the length when there is none. */
  function FirstDot(s: string): (i: nat)
    ensures i <= |s| && NoDot(s[..i])
    ensures i < |s| ==> s[i] == '.'
  {
    if s == "" || s[0] == '.' then 0
    else
      var i := 1 + FirstDot(s[1..]);
      assert forall k :: 1 <= k < i ==> s[k] == s[1..][..i - 1][k - 1];
      i
  }

  /** LegacyNewDecFromStr; None is its error. */
  function Parse(s: string): Option<Dec> {
    if s != "" && s[0] == '-' then
      var m := ParseNat(s[1..]);
      if m.None? then None else Some(-m.value)
    else
      ParseNat(s)
  }

  function ParseNat(s: string): Option<Dec> {
    var i := FirstDot(s);
    if i == |s| then
      ParseParts(s, "")
    else if i == 0 || i == |s| - 1 || !NoDot(s[i + 1..]) then
      None
    else
      ParseParts(s[..i], s[i + 1..])
  }

  function ParseParts(whole: string, decimals: string): Option<Dec> {
    if whole == "" || |decimals| > PRECISION then None
    else
      var combined := whole + decimals + Zeros(PRECISION - |decimals|);
      if AllDigits(combined) then Some(DigitsValue(combined)) else None
  }

  /** The decimal a text denotes; texts that LegacyMustNewDecFromStr panics on are zero
      here and excluded where the code would parse them. */
  function PriceOf(s: string): Dec {
    var d := Parse(s);
    if d.Some? then d.value else 0
  }

  /** The canonical text of a price: what the ladder looks up and what it submits. */
  function Text(d: Dec): string {
    TrimAmountTrailingZeros(Render(d))
  }

  // ----- trimming keeps the value -----

  lemma ValueStep(x: int, p: int)
    ensures x * (10 * p) == 10 * (x * p)
  {
  }

  lemma {:induction false} ValueOfConcat(a: string, b: string)
    requires AllDigits(a) && AllDigits(b)
    ensures AllDigits(a + b)
    ensures DigitsValue(a + b) == DigitsValue(a) * Pow10(|b|) + DigitsValue(b)
  {
    if b == "" {
      assert a + b == a;
    } else {
      var b' := b[..|b| - 1];
      ValueOfConcat(a, b');
      assert (a + b)[..|a + b| - 1] == a + b';
      ValueStep(DigitsValue(a), Pow10(|b'|));
    }
  }

  lemma TrimRightOfDigitsAfterDot(head: string, tail: string)
    ensures TrimRight(head + "." + tail, '0') == head + "." + TrimRight(tail, '0')
    decreases |tail|
  {
    var s := head + "." + tail;
    if tail != "" && tail[|tail| - 1] == '0' {
      assert s[..|s| - 1] == head + "." + tail[..|tail| - 1];
      TrimRightOfDigitsAfterDot(head, tail[..|tail| - 1]);
    } else {
      assert s[|s| - 1] != '0';
    }
  }

  lemma TrimmedThenPadded(f: string)
    requires |f| == PRECISION
    ensures TrimRight(f, '0') + Zeros(PRECISION - |TrimRight(f, '0')|) == f
  {
  }

  lemma {:induction false} FirstDotUnique(s: string, i: nat)
    requires i <= |s| && NoDot(s[..i])
    requires i < |s| ==> s[i] == '.'
    ensures FirstDot(s) == i
  {
    if i > 0 {
      assert s[0] == s[..i][0];
      assert s[1..][..i - 1] == s[..i][1..];
      FirstDotUnique(s[1..], i - 1);
    }
  }

  /** Whole part, dot and 18 decimals: what trimming leaves, sign aside. */
  function Trimmed(w: string, f: string): string {
    var cut := TrimRight(f, '0');
    if cut == "" then w else w + "." + cut
  }

  lemma TrimRendered(sign: string, w: string, f: string)
    requires NoDot(f)
    ensures TrimAmountTrailingZeros(sign + (w + "." + f)) == sign + Trimmed(w, f)
  {
    var s := sign + (w + "." + f);
    assert s[|sign| + |w|] == '.';
    assert s == (sign + w) + "." + f;
    TrimRightOfDigitsAfterDot(sign + w, f);
    var cut := TrimRight(f, '0');
    var all := (sign + w) + "." + cut;
    if cut == "" {
      assert all[..|all| - 1] == sign + w;
    } else {
      assert f[|cut| - 1] == cut[|cut| - 1];
      assert all == sign + (w + "." + cut);
    }
  }

  lemma PartsValue(w: string, f: string)
    requires w != "" && AllDigits(w)
    requires |f| == PRECISION && AllDigits(f)
    ensures ParseParts(w, TrimRight(f, '0')) == Some(DigitsValue(w) * ONE + DigitsValue(f))
  {
    var cut := TrimRight(f, '0');
    TrimmedThenPadded(f);
    assert (w + cut) + Zeros(PRECISION - |cut|) == w + f;
    ValueOfConcat(w, f);
    Pow10Values();
  }

  lemma SplitAtDot(w: string, cut: string)
    requires w != "" && NoDot(w) && NoDot(cut)
    ensures ParseNat(if cut == "" then w else w + "." + cut) == ParseParts(w, cut)
  {
    var t := if cut == "" then w else w + "." + cut;
    assert t[..|w|] == w;
    FirstDotUnique(t, |w|);
    if cut != "" {
      assert t[|w| + 1..] == cut;
    }
  }

  lemma ParseTrimmed(w: string, f: string)
    requires w != "" && AllDigits(w) && NoDot(w)
    requires |f| == PRECISION && AllDigits(f) && NoDot(f)
    ensures ParseNat(Trimmed(w, f)) == Some(DigitsValue(w) * ONE + DigitsValue(f))
    ensures Trimmed(w, f) != "" && Trimmed(w, f)[0] == w[0]
  {
    SplitAtDot(w, TrimRight(f, '0'));
    PartsValue(w, f);
  }

  lemma ParseSigned(neg: bool, t: string, v: Dec)
    requires t != "" && t[0] != '-' && ParseNat(t) == Some(v)
    ensures Parse((if neg then "-" else "") + t) == Some(if neg then -v else v)
  {
    if neg {
      assert ("-" + t)[1..] == t;
    } else {
      assert "" + t == t;
    }
  }

  function FixedTextOf(m: nat): (s: string)
    ensures |s| == PRECISION && AllDigits(s) && NoDot(s) && DigitsValue(s) == m % ONE
  {
    Pow10Values();
    FixedText(m % ONE, PRECISION)
  }

  function Bare(m: nat): string {
    Trimmed(NatText(m / ONE), FixedTextOf(m))
  }

  lemma BareParses(m: nat)
    ensures Bare(m) != "" && Bare(m)[0] != '-' && ParseNat(Bare(m)) == Some(m)
  {
    ParseTrimmed(NatText(m / ONE), FixedTextOf(m));
  }

  lemma TextShape(d: Dec)
    ensures Text(d) == (if d < 0 then "-" else "") + Bare(if d < 0 then -d else d)
  {
    var m: nat := if d < 0 then -d else d;
    TrimRendered(if d < 0 then "-" else "", NatText(m / ONE), FixedTextOf(m));
  }

  /** Parsing the canonical text gives the decimal back, whatever its sign. */
  lemma TextRoundTrip(d: Dec)
    ensures Parse(Text(d)) == Some(d)
  {
    var m: nat := if d < 0 then -d else d;
    TextShape(d);
    BareParses(m);
    ParseSigned(d < 0, Bare(m), m);
  }

  /** So no two decimals share a text: the string-keyed lookup is a numeric one. */
  lemma TextInjective(a: Dec, b: Dec)
    ensures Text(a) == Text(b) <==> a == b
  {
    TextRoundTrip(a);
    TextRoundTrip(b);
  }

  /** Every text of a price has the same canonical text, so an owned order is found
      however its price was written. */
  lemma CanonicalOfAnyText(t: string, d: Dec)
    requires Parse(t).Some?
    ensures Text(PriceOf(t)) == Text(d) <==> Parse(t) == Some(d)
  {
    TextInjective(PriceOf(t), d);
  }

  // ----- which texts are decimals, and which ones they denote -----

  /** Digits, and after a dot between one and eighteen more. */
  predicate IsBareDecimal(w: string, f: string) {
    w != "" && AllDigits(w) && AllDigits(f) && |f| <= 18
  }

  function BareText(w: string, f: string): string {
    if f == "" then w else w + "." + f
  }

  function DecimalText(neg: bool, w: string, f: string): string {
    (if neg then "-" else "") + BareText(w, f)
  }

  lemma {:induction false} ZerosAreNought(n: nat)
    ensures DigitsValue(Zeros(n)) == 0
  {
    if n > 0 {
      ZerosAreNought(n - 1);
      assert Zeros(n)[..n - 1] == Zeros(n - 1);
    }
  }

  lemma CombinedValue(w: string, tail: string)
    requires AllDigits(w) && AllDigits(tail) && |tail| == 18
    ensures AllDigits(w + tail) && DigitsValue(w + tail) == DigitsValue(w) * ONE + DigitsValue(tail)
  {
    ValueOfConcat(w, tail);
    Pow10Values();
    assert Pow10(|tail|) == ONE;
  }

  lemma ScaledDigits(w: string, f: string, v: int)
    requires IsBareDecimal(w, f) && v == DigitsValue(f) * Pow10(18 - |f|)
    ensures ParseParts(w, f) == Some(DigitsValue(w) * ONE + v)
  {
    var tail := f + Zeros(18 - |f|);
    PaddedValue(f, 18 - |f|);
    CombinedValue(w, tail);
    CombinedIs(w, f, tail);
  }

  lemma CombinedIs(w: string, f: string, tail: string)
    requires IsBareDecimal(w, f) && tail == f + Zeros(18 - |f|) && AllDigits(w + tail)
    ensures ParseParts(w, f) == Some(DigitsValue(w + tail))
  {
    assert w + f + Zeros(18 - |f|) == w + tail;
  }

  lemma PaddedValue(f: string, n: nat)
    requires AllDigits(f)
    ensures AllDigits(f + Zeros(n)) && DigitsValue(f + Zeros(n)) == DigitsValue(f) * Pow10(n)
  {
    ValueOfConcat(f, Zeros(n));
    ZerosAreNought(n);
  }

  lemma DigitsHaveNoDot(s: string)
    ensures AllDigits(s) ==> NoDot(s)
  {
  }

  /** The value of a decimal text: whole part and decimals, each digit in its place. */
  lemma ParseValue(neg: bool, w: string, f: string, v: int)
    requires IsBareDecimal(w, f) && v == DigitsValue(w) * 1_000_000_000_000_000_000 + DigitsValue(f) * Pow10(18 - |f|)
    ensures Parse(DecimalText(neg, w, f)) == Some(if neg then -v else v)
  {
    ScaledDigits(w, f, DigitsValue(f) * Pow10(18 - |f|));
    ParseIsParts(neg, w, f, v);
  }

  lemma ParseIsParts(neg: bool, w: string, f: string, v: Dec)
    requires IsBareDecimal(w, f) && ParseParts(w, f) == Some(v)
    ensures Parse(DecimalText(neg, w, f)) == Some(if neg then -v else v)
  {
    DigitsHaveNoDot(w);
    DigitsHaveNoDot(f);
    SplitAtDot(w, f);
    BareTextStarts(w, f);
    ParseSigned(neg, BareText(w, f), v);
  }

  lemma BareTextStarts(w: string, f: string)
    requires w != "" && AllDigits(w)
    ensures BareText(w, f) != "" && BareText(w, f)[0] == w[0] && w[0] != '-'
  {
  }

  lemma PartsOf(s: string) returns (w: string, f: string)
    requires ParseNat(s).Some?
    ensures IsBareDecimal(w, f) && s == BareText(w, f)
  {
    var i := FirstDot(s);
    if i == |s| {
      w, f := s, "";
    } else {
      w, f := s[..i], s[i + 1..];
      assert s == w + "." + f;
    }
    var combined := w + f + Zeros(18 - |f|);
    assert forall k :: 0 <= k < |w| ==> w[k] == combined[k];
    assert forall k :: 0 <= k < |f| ==> f[k] == combined[|w| + k];
  }

  /** Exactly these texts are decimals, an optional minus sign before them. */
  lemma ParsesIff(s: string)
    ensures Parse(s).Some? <==> exists neg, w, f :: IsBareDecimal(w, f) && s == DecimalText(neg, w, f)
  {
    if Parse(s).Some? {
      var neg := s != "" && s[0] == '-';
      var w, f := PartsOf(if neg then s[1..] else s);
      assert s == DecimalText(neg, w, f);
    }
    forall neg, w, f | IsBareDecimal(w, f) && s == DecimalText(neg, w, f)
      ensures Parse(s).Some?
    {
      ParseValue(neg, w, f, DigitsValue(w) * ONE + DigitsValue(f) * Pow10(18 - |f|));
    }
  }

  /** A zero more after the dot changes nothing: own prices count however they were written. */
  lemma TrailingZeroIsNothing(neg: bool, w: string, f: string)
    requires IsBareDecimal(w, f) && |f| < 18
    ensures Parse(DecimalText(neg, w, f + "0")) == Parse(DecimalText(neg, w, f))
  {
    var part := DigitsValue(f) * Pow10(18 - |f|);
    var v := DigitsValue(w) * ONE + part;
    ScaledDigits(w, f, part);
    PartsIgnoreZero(w, f);
    ParseIsParts(neg, w, f, v);
    ParseIsParts(neg, w, f + "0", v);
  }

  lemma PartsIgnoreZero(w: string, f: string)
    requires IsBareDecimal(w, f) && |f| < 18
    ensures ParseParts(w, f + "0") == ParseParts(w, f)
  {
    assert w + (f + "0") + Zeros(17 - |f|) == w + f + Zeros(18 - |f|);
  }

  lemma FullParts(w: string, f: string)
    requires IsBareDecimal(w, f) && |f| == 18
    ensures ParseParts(w, f) == Some(DigitsValue(w) * ONE + DigitsValue(f))
  {
    assert f + Zeros(0) == f;
    CombinedValue(w, f);
    CombinedIs(w, f, f);
  }

  lemma RenderIsText(d: Dec, m: nat)
    requires m == if d < 0 then -d else d
    ensures Render(d) == DecimalText(d < 0, NatText(m / ONE), FixedTextOf(m))
  {
  }

  lemma RenderShape(neg: bool, w: string, f: string)
    requires w != "" && |f| == 18
    ensures var s := DecimalText(neg, w, f);
            |s| >= 20 && s[|s| - 19] == '.'
  {
  }

  /** The full rendering has eighteen decimals and parses back, like the trimmed one. */
  lemma RenderRoundTrip(d: Dec)
    ensures Parse(Render(d)) == Some(d)
    ensures |Render(d)| >= 20 && Render(d)[|Render(d)| - 19] == '.'
  {
    var m: nat := if d < 0 then -d else d;
    var w, f := NatText(m / ONE), FixedTextOf(m);
    RenderIsText(d, m);
    RenderShape(d < 0, w, f);
    FullParts(w, f);
    ParseIsParts(d < 0, w, f, m);
  }

  /** What trimming removes from any text with a dot: the zeros at its end, and the dot if it
      stands last then. */
  lemma TrimCuts(amount: string)
    ensures var r := TrimAmountTrailingZeros(amount);
            if NoDot(amount) then r == amount
            else
              && r <= amount && (forall i :: |r| < i < |amount| ==> amount[i] == '0')
              && (|r| < |amount| ==> amount[|r|] in {'0', '.'})
              && (r != "" && (|r| == |amount| || amount[|r|] == '0') ==> r[|r| - 1] !in {'0', '.'})
  {
    if !NoDot(amount) {
      var cut := TrimRight(amount, '0');
      assert cut == amount[..|cut|];
    }
  }

  lemma {:induction false} NoLeadingZero(n: nat)
    ensures NatText(n)[0] == '0' <==> n == 0
    ensures n == 0 ==> NatText(n) == "0"
  {
    if n >= 10 {
      NoLeadingZero(n / 10);
    }
  }

  /** The canonical text has no zero too many: none before the whole part, none at the end
      of the decimals, and no dot without decimals. */
  lemma TextIsTrimmed(d: Dec)
    ensures var t := if d < 0 then Text(d)[1..] else Text(d);
            && t != "" && (|t| > 1 && t[0] == '0' ==> t[1] == '.')
            && (!NoDot(t) ==> t[|t| - 1] != '0' && t[|t| - 1] != '.')
  {
    var m: nat := if d < 0 then -d else d;
    TextShape(d);
    NoLeadingZero(m / ONE);
    TrimmedEnds(NatText(m / ONE), FixedTextOf(m));
    var t := if d < 0 then Text(d)[1..] else Text(d);
    assert t == Bare(m);
  }

  lemma TrimmedEnds(w: string, f: string)
    requires w != "" && AllDigits(w) && NoDot(w) && AllDigits(f) && (w[0] == '0' ==> w == "0")
    ensures var t := Trimmed(w, f);
            && t != "" && (|t| > 1 && t[0] == '0' ==> t[1] == '.')
            && (!NoDot(t) ==> t[|t| - 1] != '0' && t[|t| - 1] != '.')
  {
    var cut := TrimRight(f, '0');
    if cut != "" {
      assert cut[|cut| - 1] == f[|cut| - 1];
      var t := w + "." + cut;
      assert t[|t| - 1] == cut[|cut| - 1];
    }
  }
}
