/** The string operations the translators rely on: `split`, `join`, integer printing and `parseInt`. */
module Text {

  /** A JavaScript number as `parseInt` can produce it. */
  datatype Number = Int(value: int) | NaN

  /** `s.split(sep)` for a non-empty separator. */
  function Split(s: string, sep: string): (parts: seq<string>)
    requires sep != ""
    ensures parts != []
    decreases |s|
  {
    if |s| < |sep| then [s]
    else if s[..|sep|] == sep then [""] + Split(s[|sep|..], sep)
    else
      var rest := Split(s[1..], sep);
      [[s[0]] + rest[0]] + rest[1..]
  }

  /** `parts.join(sep)`. */
  function Join(parts: seq<string>, sep: string): string
  {
    if |parts| == 0 then ""
    else if |parts| == 1 then parts[0]
    else parts[0] + sep + Join(parts[1..], sep)
  }

  /** A part that does not contain the separator's first character ends exactly where the separator begins. */
  lemma {:induction false} SplitPrefix(p: string, rest: string, sep: string)
    requires sep != "" && sep[0] !in p
    ensures Split(p + sep + rest, sep) == [p] + Split(rest, sep)
    decreases |p|
  {
    var s := p + sep + rest;
    if p == "" {
      assert s == sep + rest;
      assert s[..|sep|] == sep && s[|sep|..] == rest;
    } else {
      assert s[..|sep|][0] == p[0] != sep[0];
      assert s[1..] == p[1..] + sep + rest;
      SplitPrefix(p[1..], rest, sep);
      assert [s[0]] + p[1..] == p;
    }
  }

  lemma {:induction false} SplitAtom(p: string, sep: string)
    requires sep != "" && sep[0] !in p
    ensures Split(p, sep) == [p]
    decreases |p|
  {
    if |p| >= |sep| {
      assert p[..|sep|][0] == p[0] != sep[0];
      SplitAtom(p[1..], sep);
      assert [p[0]] + p[1..] == p;
    }
  }

  /** `join` then `split` recovers a non-empty list of separator-free parts. */
  lemma {:induction false} SplitJoin(parts: seq<string>, sep: string)
    requires sep != "" && parts != []
    requires forall p <- parts :: sep[0] !in p
    ensures Split(Join(parts, sep), sep) == parts
    decreases |parts|
  {
    if |parts| == 1 {
      SplitAtom(parts[0], sep);
    } else {
      SplitPrefix(parts[0], Join(parts[1..], sep), sep);
      SplitJoin(parts[1..], sep);
    }
  }

  /** Splitting on a character leaves parts without it, made of characters that were already there. */
  lemma {:induction false} SplitParts(s: string, c: char)
    ensures forall p <- Split(s, [c]) :: c !in p && forall d <- p :: d in s
    decreases |s|
  {
    if s != "" {
      assert s[..1] == [s[0]];
      SplitParts(s[1..], c);
      var rest := Split(s[1..], [c]);
      forall p <- Split(s, [c]) ensures c !in p && forall d <- p :: d in s {
        if s[0] == c {
          assert p == "" || p in rest;
        } else {
          assert p == [s[0]] + rest[0] || p in rest;
        }
      }
    }
  }

  lemma {:induction false} JoinChars(parts: seq<string>, sep: string, c: char)
    requires c !in sep && forall p <- parts :: c !in p
    ensures c !in Join(parts, sep)
    decreases |parts|
  {
    if |parts| > 1 {
      JoinChars(parts[1..], sep, c);
    }
  }

  const DIGITS := "0123456789"

  predicate IsDigit(c: char) { '0' <= c <= '9' }

  /** Decimal digits of a natural number, most significant first. */
  function Digits(n: nat): (s: string)
    ensures s != "" && forall c <- s :: IsDigit(c)
  {
    if n < 10 then [DIGITS[n]] else Digits(n / 10) + [DIGITS[n % 10]]
  }

  /** An integer inside a template literal. */
  function IntText(i: int): string
  {
    if i < 0 then "-" + Digits(-i) else Digits(i)
  }

  function DigitsValue(s: string): nat
    requires forall c <- s :: IsDigit(c)
  {
    if s == "" then 0
    else
      assert IsDigit(s[|s| - 1]);
      DigitsValue(s[..|s| - 1]) * 10 + (s[|s| - 1] as int - '0' as int)
  }

  /** The longest prefix of digits. */
  function DigitPrefix(s: string): (p: string)
    ensures forall c <- p :: IsDigit(c)
  {
    if s == "" || !IsDigit(s[0]) then "" else [s[0]] + DigitPrefix(s[1..])
  }

  predicate IsSpace(c: char) { c == ' ' || c == '\t' || c == '\n' || c == '\r' }

  function TrimStart(s: string): string
  {
    if s != "" && IsSpace(s[0]) then TrimStart(s[1..]) else s
  }

  function Unsigned(s: string): Number
  {
    var digits := DigitPrefix(s);
    if digits == "" then NaN else Int(DigitsValue(digits))
  }

  function Signed(s: string): Number
  {
    if s != "" && s[0] == '-' then
      var n := Unsigned(s[1..]);
      if n.NaN? then NaN else Int(-n.value)
    else Unsigned(if s != "" && s[0] == '+' then s[1..] else s)
  }

  /** `parseInt(s, 10)`: leading white space, an optional sign, then as many digits as there are. */
  function ParseInt(s: string): Number
  {
    Signed(TrimStart(s))
  }

  /** White space, a sign and anything after the digits are accepted; text without leading digits is not a number. */
  lemma ParseIntForms(d: string)
    ensures ParseInt(" " + d) == ParseInt(d)
    ensures ParseInt("+" + d) == Unsigned(d)
    ensures ParseInt("-" + d) == if Unsigned(d).NaN? then NaN else Int(-Unsigned(d).value)
    ensures ParseInt("") == ParseInt("x") == NaN && ParseInt("42x") == Int(42)
  {
    assert (" " + d)[1..] == ("+" + d)[1..] == ("-" + d)[1..] == d;
    assert "42x"[1..] == "2x" && "2x"[1..] == "x" && DigitPrefix("x") == "";
    assert DigitPrefix("42x") == "42" && "42"[..1] == "4" && "4"[..0] == "";
    assert DigitsValue("") == 0 && DigitsValue("4") == 4 && DigitsValue("42") == 42;
  }

  lemma {:induction false} DigitsRoundTrip(n: nat)
    ensures DigitsValue(Digits(n)) == n
  {
    var s := Digits(n);
    if n < 10 {
      assert s[..0] == "";
    } else {
      assert s[..|s| - 1] == Digits(n / 10);
      DigitsRoundTrip(n / 10);
    }
  }

  lemma {:induction false} DigitPrefixAll(s: string)
    requires forall c <- s :: IsDigit(c)
    ensures DigitPrefix(s) == s
  {
    if s != "" {
      DigitPrefixAll(s[1..]);
    }
  }

  lemma UnsignedDigits(n: nat)
    ensures Unsigned(Digits(n)) == Int(n) && IsDigit(Digits(n)[0])
  {
    assert Digits(n)[0] in Digits(n);
    DigitPrefixAll(Digits(n));
    DigitsRoundTrip(n);
  }

  lemma SignedMinus(d: string)
    ensures TrimStart("-" + d) == "-" + d
    ensures Signed("-" + d) == if Unsigned(d).NaN? then NaN else Int(-Unsigned(d).value)
  {
    assert ("-" + d)[1..] == d;
  }

  lemma SignedPlain(d: string)
    requires d != "" && IsDigit(d[0])
    ensures TrimStart(d) == d && Signed(d) == Unsigned(d)
  {
  }

  lemma IntTextChars(i: int)
    ensures forall c <- IntText(i) :: c == '-' || IsDigit(c)
  {
  }

  /** `parseInt` recovers every integer from its printed form. */
  lemma ParseIntText(i: int)
    ensures ParseInt(IntText(i)) == Int(i)
  {
    var n := if i < 0 then -i else i;
    UnsignedDigits(n);
    SignedMinus(Digits(n));
    SignedPlain(Digits(n));
  }

  /** Two decimal numerals with the same text are the same number. */
  lemma DigitsInjective(m: nat, n: nat)
    requires Digits(m) == Digits(n)
    ensures m == n
  {
    DigitsRoundTrip(m);
    DigitsRoundTrip(n);
  }
}
