/** The text a literal's value takes inside a JavaScript template
    (`${value}`), and the reading of a single-quoted string literal back into
    the text it denotes.  Numbers are restricted to integers, which render in
    plain decimal. */
module LiteralText {
  import opened Wrappers

  /** A literal's semantic value. */
  datatype LitValue = Bool(b: bool) | Num(n: int) | Str(s: string)

  predicate IsDigit(c: char)
  {
    '0' <= c <= '9'
  }

  function DigitChar(d: nat): (c: char)
    requires d < 10
    ensures IsDigit(c) && c as int - '0' as int == d
  {
    ('0' as int + d) as char
  }

  /** The decimal digits of `n`, most significant first, without leading zeros. */
  function NatText(n: nat): string
  {
    if n < 10 then [DigitChar(n)] else NatText(n / 10) + [DigitChar(n % 10)]
  }

  /** The decimal rendering of an integer, with a leading `-` when negative. */
  function IntText(i: int): string
  {
    if i < 0 then "-" + NatText(-i) else NatText(i)
  }

  /** The value of a non-empty string of decimal digits. */
  function DigitsValue(s: string): nat
    requires AllDigits(s)
  {
    assert IsDigit(s[|s| - 1]);
    var last: nat := s[|s| - 1] as int - '0' as int;
    if |s| == 1 then last else DigitsValue(s[..|s| - 1]) * 10 + last
  }

  predicate AllDigits(s: string)
  {
    |s| > 0 && forall k | 0 <= k < |s| :: IsDigit(s[k])
  }

  /** Reads an optionally negated decimal integer; `None` for anything else. */
  function ParseInt(t: string): (r: Option<int>)
    ensures r.Some? <==> AllDigits(t) || (|t| > 1 && t[0] == '-' && AllDigits(t[1..]))
    ensures r.Some? && t[0] != '-' ==> r.value >= 0
  {
    if AllDigits(t) then Some(DigitsValue(t))
    else if |t| > 1 && t[0] == '-' && AllDigits(t[1..]) then Some(0 - DigitsValue(t[1..]) as int)
    else None
  }

  /** JavaScript's `${value}` for the modelled values: booleans as `true` and
      `false`, integers in decimal, strings as themselves. */
  function ValueText(v: LitValue): string
  {
    match v
    case Bool(b) => if b then "true" else "false"
    case Num(n) => IntText(n)
    case Str(s) => s
  }

  /** The single-quoted rendering `'${value}'` of a text, with no escaping. */
  function Quoted(t: string): string
  {
    "'" + t + "'"
  }

  /** A character that may stand for itself inside a single-quoted string
      literal: not the closing quote, not an escape and not a line break. */
  predicate PlainChar(c: char)
  {
    c != '\'' && c != '\\' && c != '\n' && c != '\r'
  }

  predicate PlainText(t: string)
  {
    forall k | 0 <= k < |t| :: PlainChar(t[k])
  }

  /** The text denoted by a single-quoted string literal written without
      escape sequences; `None` when `raw` is not such a literal. */
  function Unquote(raw: string): (r: Option<string>)
    ensures r.Some? ==> |raw| >= 2 && raw[0] == '\'' && raw[|raw| - 1] == '\''
    ensures r.Some? ==> PlainText(r.value) && |r.value| == |raw| - 2
  {
    if |raw| >= 2 && raw[0] == '\'' && raw[|raw| - 1] == '\'' && PlainText(raw[1..|raw| - 1])
    then Some(raw[1..|raw| - 1])
    else None
  }

  /** The decimal rendering of a natural number is a non-empty digit string
      that reads back as the same number. */
  lemma {:induction false} NatTextRoundTrip(n: nat)
    ensures AllDigits(NatText(n))
    ensures DigitsValue(NatText(n)) == n
    decreases n
  {
    if n >= 10 {
      NatTextRoundTrip(n / 10);
      var s := NatText(n);
      assert s == NatText(n / 10) + [DigitChar(n % 10)];
      assert s[..|s| - 1] == NatText(n / 10);
    }
  }

  /** Reading an integer's decimal rendering gives back the integer. */
  lemma IntTextRoundTrip(i: int)
    ensures ParseInt(IntText(i)) == Some(i)
  {
    if i < 0 {
      NatTextRoundTrip(-i);
      var t := IntText(i);
      assert t[1..] == NatText(-i);
      assert !AllDigits(t) by { assert !IsDigit(t[0]); }
    } else {
      NatTextRoundTrip(i);
    }
  }

  /** Distinct integers have distinct renderings. */
  lemma IntTextInjective(i: int, j: int)
    ensures IntText(i) == IntText(j) <==> i == j
  {
    IntTextRoundTrip(i);
    IntTextRoundTrip(j);
  }

  /** The text of a boolean or a number never needs escaping. */
  lemma ValueTextPlain(v: LitValue)
    requires !v.Str?
    ensures PlainText(ValueText(v))
  {
    if v.Num? {
      var n := v.n;
      var m: nat := if n < 0 then -n else n;
      NatTextRoundTrip(m);
      var t := IntText(n);
      forall k | 0 <= k < |t| ensures PlainChar(t[k]) {
        if n < 0 && k > 0 {
          assert t[k] == NatText(m)[k - 1];
        }
      }
    }
  }

  /** Quoting then unquoting gives the text back exactly when the text holds
      no quote, backslash or line break; otherwise the quoted form is not an
      escape-free single-quoted literal at all. */
  lemma QuotedRoundTrip(t: string)
    ensures Unquote(Quoted(t)) == Some(t) <==> PlainText(t)
    ensures !PlainText(t) ==> Unquote(Quoted(t)) == None
  {
    var q := Quoted(t);
    assert q[1..|q| - 1] == t;
  }
}
