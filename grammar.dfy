/**
 * The two token grammars of `parseMessage`: the amount `^-?\d+(\.\d+)?$` and
 * the currency code `^[a-z]{3}$`, both over ASCII characters only.
 */
module Grammar {
  import opened Options
  import opened Text

  predicate IsDigit(c: char) { '0' <= c <= '9' }

  /** Every character is a decimal digit. */
  predicate AllDigits(s: string) {
    s == [] || (IsDigit(s[0]) && AllDigits(s[1..]))
  }

  lemma {:induction false} AllDigitsAt(s: string, k: nat)
    requires AllDigits(s) && k < |s|
    ensures IsDigit(s[k])
  {
    if k > 0 { AllDigitsAt(s[1..], k - 1); }
  }

  /** A token that matched the amount grammar: its sign, its integer digits and
      its fraction digits (empty when the token has no `.` part). */
  datatype Numeral = Numeral(negative: bool, whole: string, fraction: string)

  predicate WellFormed(n: Numeral) {
    n.whole != [] && AllDigits(n.whole) && AllDigits(n.fraction)
  }

  /** The text of a numeral: `-?` digits, then `.` digits when there is a fraction. */
  function Render(n: Numeral): string {
    (if n.negative then "-" else "") + n.whole + (if n.fraction == [] then "" else "." + n.fraction)
  }

  /** Matching against `^-?\d+(\.\d+)?$`: the numeral the token spells, or
      `None` when the regular expression does not match. */
  function ParseNumeral(t: string): Option<Numeral> {
    var negative := t != [] && t[0] == '-';
    ParseUnsigned(negative, if negative then t[1..] else t)
  }

  /** The part after the optional sign: `\d+(\.\d+)?`. */
  function ParseUnsigned(negative: bool, u: string): Option<Numeral> {
    var d := IndexOf(u, '.');
    var whole := u[..d];
    var fraction := if d < |u| then u[d + 1..] else [];
    if whole != [] && AllDigits(whole) && (d == |u| || (fraction != [] && AllDigits(fraction))) then
      Some(Numeral(negative, whole, fraction))
    else
      None
  }

  lemma DotSplit(u: string, d: nat)
    requires d <= |u| && (d < |u| ==> u[d] == '.')
    ensures u == u[..d] + (if d < |u| then "." + u[d + 1..] else "")
  {
    if d < |u| {
      assert u == u[..d] + [u[d]] + u[d + 1..];
    }
  }

  lemma SignSplit(t: string)
    ensures var negative := t != [] && t[0] == '-';
      t == (if negative then "-" else "") + (if negative then t[1..] else t)
  {
    if t != [] && t[0] == '-' { assert t == [t[0]] + t[1..]; }
  }

  lemma RenderParts(n: Numeral, u: string)
    requires u == n.whole + (if n.fraction == [] then "" else "." + n.fraction)
    ensures Render(n) == (if n.negative then "-" else "") + u
  {
  }

  /** What `ParseNumeral` finds is well formed and spells the token. */
  lemma RenderParse(t: string, n: Numeral)
    requires ParseNumeral(t) == Some(n)
    ensures WellFormed(n) && Render(n) == t
  {
    var negative := t != [] && t[0] == '-';
    var u := if negative then t[1..] else t;
    var d := IndexOf(u, '.');
    assert n == Numeral(negative, u[..d], if d < |u| then u[d + 1..] else []);
    DotSplit(u, d);
    RenderParts(n, u);
    SignSplit(t);
  }

  /** The states of an automaton for `-?\d+(\.\d+)?`. */
  datatype AmountState = Begin | Sign | Whole | Point | Fraction | Reject

  function Next(q: AmountState, c: char): AmountState {
    match q
    case Begin => if c == '-' then Sign else if IsDigit(c) then Whole else Reject
    case Sign => if IsDigit(c) then Whole else Reject
    case Whole => if IsDigit(c) then Whole else if c == '.' then Point else Reject
    case Point => if IsDigit(c) then Fraction else Reject
    case Fraction => if IsDigit(c) then Fraction else Reject
    case Reject => Reject
  }

  /** The automaton's state after reading `t` from `q`. */
  function Run(t: string, q: AmountState): AmountState {
    if t == [] then q else Run(t[1..], Next(q, t[0]))
  }

  /** `/^-?\d+(\.\d+)?$/.test(t)`: the whole token drives the automaton from
      its start to an accepting state. */
  predicate IsAmount(t: string) {
    var q := Run(t, Begin);
    q == Whole || q == Fraction
  }

  lemma {:induction false} RunReject(t: string)
    ensures Run(t, Reject) == Reject
  {
    if t != [] { RunReject(t[1..]); }
  }

  /** From `Whole` (or `Fraction`), a dot-free tail stays there exactly when it
      is all digits, and is rejected otherwise. */
  lemma {:induction false} RunDigits(t: string, q: AmountState)
    requires q == Whole || q == Fraction
    requires '.' !in t || q == Fraction
    ensures Run(t, q) == if AllDigits(t) then q else Reject
  {
    if t != [] {
      if IsDigit(t[0]) {
        RunDigits(t[1..], q);
      } else {
        RunReject(t[1..]);
      }
    }
  }

  lemma {:induction false} RunAppend(a: string, b: string, q: AmountState)
    ensures Run(a + b, q) == Run(b, Run(a, q))
  {
    if a == [] {
      assert a + b == b;
    } else {
      assert (a + b)[0] == a[0] && (a + b)[1..] == a[1..] + b;
      RunAppend(a[1..], b, Next(q, a[0]));
    }
  }

  /** Read from `Whole`, a digit run followed by the rest of an unsigned
      token accepts exactly as `ParseNumeral` would. */
  lemma RunUnsigned(u: string)
    requires u != [] && IsDigit(u[0])
    ensures var d := IndexOf(u, '.'); var q := Run(u[1..], Whole);
      (q == Whole || q == Fraction) <==>
        AllDigits(u[..d]) && (d == |u| || (u[d + 1..] != [] && AllDigits(u[d + 1..])))
  {
    var d := IndexOf(u, '.');
    var whole := u[..d];
    assert whole[1..] + u[d..] == u[1..];
    RunDigits(whole[1..], Whole);
    RunAppend(whole[1..], u[d..], Whole);
    if !AllDigits(whole[1..]) {
      RunReject(u[d..]);
    } else if d < |u| {
      var fraction := u[d + 1..];
      assert u[d..] == ['.'] + fraction;
      assert Run(u[d..], Whole) == Run(fraction, Point);
      if fraction != [] {
        if IsDigit(fraction[0]) {
          RunDigits(fraction[1..], Fraction);
        } else {
          RunReject(fraction[1..]);
        }
      }
    }
  }

  /** The automaton and the numeral decomposition accept the same tokens. */
  lemma AmountMatch(t: string)
    ensures IsAmount(t) <==> ParseNumeral(t).Some?
  {
    var negative := t != [] && t[0] == '-';
    var u := if negative then t[1..] else t;
    var q0 := if negative then Sign else Begin;
    assert Run(t, Begin) == Run(u, q0);
    if u == [] {
    } else if !IsDigit(u[0]) {
      RunReject(u[1..]);
    } else {
      assert Run(u, q0) == Run(u[1..], Whole);
      RunUnsigned(u);
    }
  }

  /** The token matches `^[a-z]{3}$`. */
  predicate IsCurrency(t: string) {
    |t| == 3 && forall k | 0 <= k < 3 :: IsAsciiLower(t[k])
  }

  lemma {:induction false} DotAfterDigits(w: string, v: string)
    requires AllDigits(w)
    requires v == [] || v[0] == '.'
    ensures IndexOf(w + v, '.') == |w|
    decreases |w|
  {
    if w != [] {
      assert (w + v)[1..] == w[1..] + v;
      DotAfterDigits(w[1..], v);
    }
  }

  lemma UnsignedRender(n: Numeral, u: string)
    requires WellFormed(n)
    requires u == n.whole + (if n.fraction == [] then "" else "." + n.fraction)
    ensures ParseUnsigned(n.negative, u) == Some(n)
  {
    var tail := if n.fraction == [] then "" else "." + n.fraction;
    DotAfterDigits(n.whole, tail);
    assert u[..|n.whole|] == n.whole;
    if n.fraction != [] {
      assert u[|n.whole| + 1..] == n.fraction;
    }
  }

  /** Parsing the rendered text of a well-formed numeral gives it back, so the
      matcher accepts exactly the texts of well-formed numerals. */
  lemma ParseRender(n: Numeral)
    requires WellFormed(n)
    ensures ParseNumeral(Render(n)) == Some(n)
  {
    var u := n.whole + (if n.fraction == [] then "" else "." + n.fraction);
    var t := Render(n);
    RenderParts(n, u);
    UnsignedRender(n, u);
    AllDigitsAt(n.whole, 0);
    assert u[0] == n.whole[0];
    if n.negative {
      assert t == "-" + u;
      assert t[0] == '-' && t[1..] == u;
    } else {
      assert t == u;
      assert t[0] != '-';
    }
    assert ParseNumeral(t) == ParseUnsigned(n.negative, u);
  }

  /** A token is an amount exactly when it is the text of a well-formed numeral. */
  lemma AmountGrammar(t: string)
    ensures IsAmount(t) <==> exists n :: WellFormed(n) && Render(n) == t
  {
    AmountMatch(t);
    if exists n :: WellFormed(n) && Render(n) == t {
      var n :| WellFormed(n) && Render(n) == t;
      ParseRender(n);
    }
    if IsAmount(t) {
      var n := ParseNumeral(t).value;
      RenderParse(t, n);
      assert WellFormed(n) && Render(n) == t;
    }
  }

  /** No token is both an amount and a currency code, so the two slots never
      compete for a token. */
  lemma AmountIsNotCurrency(t: string)
    requires IsAmount(t)
    ensures !IsCurrency(t)
  {
    if IsCurrency(t) {
      assert Next(Begin, t[0]) == Reject;
      RunReject(t[1..]);
    }
  }

  // ------------------------------------------------------------ values

  function DigitValue(c: char): nat {
    if IsDigit(c) then (c as int - '0' as int) else 0
  }

  /** The number a string of decimal digits denotes. */
  function DigitsValue(s: string): nat {
    if s == [] then 0 else 10 * DigitsValue(s[..|s| - 1]) + DigitValue(s[|s| - 1])
  }

  function Pow10(k: nat): (r: nat)
    ensures r >= 1
  {
    if k == 0 then 1 else 10 * Pow10(k - 1)
  }

  /** The exact value of a numeral, `parseFloat` without rounding. */
  function Value(n: Numeral): real {
    var magnitude := DigitsValue(n.whole) as real + DigitsValue(n.fraction) as real / Pow10(|n.fraction|) as real;
    if n.negative then -magnitude else magnitude
  }

  /** The value of a token that matched the amount grammar. */
  function AmountValue(t: string): real
    requires IsAmount(t)
  {
    AmountMatch(t);
    Value(ParseNumeral(t).value)
  }

  /** A trailing zero in the fraction does not change the value ("23.50" and
      "23.5" are the same amount). */
  lemma TrailingZero(n: Numeral)
    ensures Value(n.(fraction := n.fraction + "0")) == Value(n)
  {
    var f := n.fraction + "0";
    assert f[..|f| - 1] == n.fraction;
    var a, p := DigitsValue(n.fraction) as real, Pow10(|n.fraction|) as real;
    assert DigitsValue(f) as real == 10.0 * a;
    assert Pow10(|f|) as real == 10.0 * p;
    assert (10.0 * a) / (10.0 * p) == a / p;
  }

  /** The sign of the value follows the sign of the token. */
  lemma ValueSign(n: Numeral)
    ensures !n.negative ==> Value(n) >= 0.0
    ensures n.negative ==> Value(n) <= 0.0
  {
    var p := Pow10(|n.fraction|) as real;
    assert DigitsValue(n.fraction) as real / p >= 0.0;
  }
}
