/** String helpers with the semantics JavaScript gives them: `trim`, `startsWith`, decimal
    rendering of integers (`String(n)`), and `parseInt(s, 10)` as a leading-integer parse. */
module Text {
  import opened Wrappers

  /** ECMAScript WhiteSpace and LineTerminator code points: what `trim` removes and
      what `parseInt` skips before the number. */
  predicate IsSpace(c: char)
  {
    || c == '\t' || c == '\n' || c == '\U{000B}' || c == '\U{000C}' || c == '\r' || c == ' '
    || c == '\U{00A0}' || c == '\U{1680}' || ('\U{2000}' <= c <= '\U{200A}')
    || c == '\U{2028}' || c == '\U{2029}' || c == '\U{202F}' || c == '\U{205F}'
    || c == '\U{3000}' || c == '\U{FEFF}'
  }

  predicate AllSpace(s: string)
  {
    forall i :: 0 <= i < |s| ==> IsSpace(s[i])
  }

  /** Neither end of s is white space. */
  predicate IsTrimmed(s: string)
  {
    s == [] || (!IsSpace(s[0]) && !IsSpace(s[|s| - 1]))
  }

  function TrimStart(s: string): (r: string)
    ensures |r| <= |s| && r == s[|s| - |r|..]
    ensures r == [] || !IsSpace(r[0])
    ensures forall i :: 0 <= i < |s| - |r| ==> IsSpace(s[i])
  {
    if s != [] && IsSpace(s[0]) then TrimStart(s[1..]) else s
  }

  function TrimEnd(s: string): (r: string)
    ensures |r| <= |s| && r == s[..|r|]
    ensures r == [] || !IsSpace(r[|r| - 1])
    ensures forall i :: |r| <= i < |s| ==> IsSpace(s[i])
  {
    if s != [] && IsSpace(s[|s| - 1]) then TrimEnd(s[..|s| - 1]) else s
  }

  /** `String.prototype.trim`. */
  function Trim(s: string): (r: string)
    ensures IsTrimmed(r)
  {
    var t := TrimStart(s);
    var r := TrimEnd(t);
    assert r != [] ==> r[0] == t[0];
    r
  }

  lemma {:induction false} TrimStartOfTrimmed(s: string)
    requires s == [] || !IsSpace(s[0])
    ensures TrimStart(s) == s
  {
  }

  lemma {:induction false} TrimEndOfTrimmed(s: string)
    requires s == [] || !IsSpace(s[|s| - 1])
    ensures TrimEnd(s) == s
  {
  }

  /** Trimming a string without white space at either end changes nothing. */
  lemma TrimOfTrimmed(s: string)
    requires IsTrimmed(s)
    ensures Trim(s) == s
  {
    TrimStartOfTrimmed(s);
    TrimEndOfTrimmed(s);
  }

  /** `trim` is idempotent. */
  lemma TrimIdempotent(s: string)
    ensures Trim(Trim(s)) == Trim(s)
  {
    TrimOfTrimmed(Trim(s));
  }

  /** A string trims to `''` exactly when every character in it is white space. */
  lemma TrimEmptyIff(s: string)
    ensures Trim(s) == [] <==> AllSpace(s)
  {
    var t := TrimStart(s);
    if Trim(s) == [] {
      assert TrimEnd(t) == [];
      assert t == t[0..];
      assert AllSpace(t);
      assert s == s[..|s| - |t|] + t;
      assert AllSpace(s[..|s| - |t|]);
    } else {
      var r := Trim(s);
      assert r == TrimEnd(t) && r == t[..|r|];
      assert t[0] == s[|s| - |t|];
      assert !IsSpace(s[|s| - |t|]);
    }
  }

  predicate StartsWith(s: string, prefix: string)
  {
    |prefix| <= |s| && s[..|prefix|] == prefix
  }

  /** What the model needs of a database's per-character `LOWER`: folding twice is folding
      once, and a character is white space exactly when its folded form is. Which letters
      fold is up to the database's locale, so the fold is a parameter. */
  predicate IsCaseFold(lower: char -> char)
  {
    (forall c :: lower(lower(c)) == lower(c)) && (forall c :: IsSpace(lower(c)) <==> IsSpace(c))
  }

  /** `LOWER(s)` for a per-character fold. */
  function Lower(lower: char -> char, s: string): (r: string)
    ensures |r| == |s|
    ensures forall i :: 0 <= i < |s| ==> r[i] == lower(s[i])
  {
    if s == [] then [] else [lower(s[0])] + Lower(lower, s[1..])
  }

  lemma {:induction false} LowerIdempotent(lower: char -> char, s: string)
    requires IsCaseFold(lower)
    ensures Lower(lower, Lower(lower, s)) == Lower(lower, s)
  {
    var l := Lower(lower, s);
    var ll := Lower(lower, l);
    assert |ll| == |l|;
    forall i | 0 <= i < |l| ensures ll[i] == l[i] {
      assert l[i] == lower(s[i]);
    }
  }

  /** Folding keeps the ends of a trimmed string, since it maps no other character to white
      space. */
  lemma LowerKeepsTrimmed(lower: char -> char, s: string)
    requires IsCaseFold(lower) && IsTrimmed(s)
    ensures IsTrimmed(Lower(lower, s))
  {
    if s != [] {
      assert !IsSpace(lower(s[0])) && !IsSpace(lower(s[|s| - 1]));
    }
  }

  /** ASCII lower-casing: the fold of the C locale, one instance of a database `LOWER`. */
  function AsciiLower(c: char): (r: char)
    ensures 'A' <= c <= 'Z' ==> 'a' <= r <= 'z'
    ensures !('A' <= c <= 'Z') ==> r == c
  {
    if 'A' <= c <= 'Z' then (c as int + 32) as char else c
  }

  lemma AsciiLowerIsCaseFold()
    ensures IsCaseFold(AsciiLower)
  {
    forall c ensures AsciiLower(AsciiLower(c)) == AsciiLower(c) && (IsSpace(AsciiLower(c)) <==> IsSpace(c)) {
    }
  }

  // ----- decimal digits -----

  predicate IsDigit(c: char) { '0' <= c <= '9' }

  predicate AllDigits(s: string)
  {
    forall i :: 0 <= i < |s| ==> IsDigit(s[i])
  }

  function DigitChar(d: nat): (c: char)
    requires d < 10
    ensures IsDigit(c)
  {
    ('0' as int + d) as char
  }

  function DigitValue(c: char): (d: nat)
    requires IsDigit(c)
    ensures d < 10
  {
    c as int - '0' as int
  }

  /** The decimal rendering of a natural number, as `String(n)` gives it (no leading zeros). */
  function NatToDecimal(n: nat): (s: string)
    ensures |s| >= 1 && AllDigits(s)
    ensures |s| > 1 ==> s[0] != '0'
  {
    if n < 10 then [DigitChar(n)] else NatToDecimal(n / 10) + [DigitChar(n % 10)]
  }

  /** `String(n)` for an integer. */
  function IntToDecimal(n: int): (s: string)
    ensures |s| >= 1
    ensures n >= 0 ==> AllDigits(s)
    ensures n < 0 ==> s[0] == '-' && AllDigits(s[1..])
  {
    if n < 0 then "-" + NatToDecimal(-n) else NatToDecimal(n)
  }

  /** The value of a string of decimal digits. */
  function DigitsValue(s: string): nat
    requires AllDigits(s)
  {
    if s == [] then 0 else DigitsValue(s[..|s| - 1]) * 10 + DigitValue(s[|s| - 1])
  }

  lemma {:induction false} DecimalRoundTrip(n: nat)
    ensures DigitsValue(NatToDecimal(n)) == n
  {
    if n >= 10 {
      var s := NatToDecimal(n);
      assert s[..|s| - 1] == NatToDecimal(n / 10);
      DecimalRoundTrip(n / 10);
    }
  }

  /** The longest prefix of s made of decimal digits. */
  function LeadingDigits(s: string): (r: string)
    ensures |r| <= |s| && r == s[..|r|] && AllDigits(r)
    ensures |r| == |s| || !IsDigit(s[|r|])
  {
    if s != [] && IsDigit(s[0]) then [s[0]] + LeadingDigits(s[1..]) else []
  }

  /** A string that does not start with a digit ends any run of digits before it. */
  predicate StopsDigits(s: string)
  {
    s == [] || !IsDigit(s[0])
  }

  lemma {:induction false} LeadingDigitsOfDigits(d: string, rest: string)
    requires AllDigits(d) && StopsDigits(rest)
    ensures LeadingDigits(d + rest) == d
  {
    if d != [] {
      assert (d + rest)[1..] == d[1..] + rest;
      LeadingDigitsOfDigits(d[1..], rest);
    }
  }

  /** Appending text that starts with a non-digit never changes the leading digits. */
  lemma {:induction false} LeadingDigitsAppend(b: string, t: string)
    requires StopsDigits(t)
    ensures LeadingDigits(b + t) == LeadingDigits(b)
  {
    if b != [] {
      assert (b + t)[0] == b[0];
      if IsDigit(b[0]) {
        assert (b + t)[1..] == b[1..] + t;
        LeadingDigitsAppend(b[1..], t);
      }
    }
  }

  /** A non-empty run of leading digits: its value and what follows it. */
  function ParseNatPrefix(s: string): (r: Option<(nat, string)>)
    ensures r.None? <==> StopsDigits(s)
  {
    var d := LeadingDigits(s);
    if d == [] then None else Some((DigitsValue(d), s[|d|..]))
  }

  lemma NatPrefixRoundTrip(n: nat, rest: string)
    requires StopsDigits(rest)
    ensures ParseNatPrefix(NatToDecimal(n) + rest) == Some((n, rest))
  {
    var d := NatToDecimal(n);
    LeadingDigitsOfDigits(d, rest);
    DecimalRoundTrip(n);
    assert (d + rest)[|d|..] == rest;
  }

  /** The value of the leading digits of s, if there is at least one. */
  function DigitsPrefixValue(s: string): (r: Option<nat>)
    ensures r.None? <==> StopsDigits(s)
  {
    var d := LeadingDigits(s);
    if d == [] then None else Some(DigitsValue(d))
  }

  /** A read magnitude with its sign applied. */
  function Signed(negative: bool, v: Option<nat>): (r: Option<int>)
    ensures r.None? <==> v.None?
  {
    match v
    case None => None
    case Some(n) => Some(if negative then 0 - n else n)
  }

  /** The number at the start of t, after an optional sign. */
  function SignedPrefixValue(t: string): Option<int>
  {
    if t != [] && (t[0] == '-' || t[0] == '+') then Signed(t[0] == '-', DigitsPrefixValue(t[1..]))
    else Signed(false, DigitsPrefixValue(t))
  }

  /** `parseInt(s, 10)`: skip leading white space, read an optional sign and the digits that
      follow it; `None` stands for `NaN` (no digit after the optional sign). */
  function ParseInt(s: string): Option<int>
  {
    SignedPrefixValue(TrimStart(s))
  }

  lemma DigitsPrefixRoundTrip(n: nat, rest: string)
    requires StopsDigits(rest)
    ensures DigitsPrefixValue(NatToDecimal(n) + rest) == Some(n)
  {
    LeadingDigitsOfDigits(NatToDecimal(n), rest);
    DecimalRoundTrip(n);
  }

  lemma SignedPrefixRoundTrip(n: int, rest: string)
    requires StopsDigits(rest)
    ensures SignedPrefixValue(IntToDecimal(n) + rest) == Some(n)
  {
    if n < 0 {
      NegativePrefixRoundTrip(n, rest);
    } else {
      NonNegativePrefixRoundTrip(n, rest);
    }
  }

  /** The text of a negative number: a minus sign, then the digits of its magnitude. */
  lemma NegativeText(n: int, rest: string)
    requires n < 0
    ensures (IntToDecimal(n) + rest)[0] == '-'
    ensures (IntToDecimal(n) + rest)[1..] == NatToDecimal(-n) + rest
  {
    assert IntToDecimal(n) + rest == "-" + (NatToDecimal(-n) + rest);
  }

  lemma NegativePrefixRoundTrip(n: int, rest: string)
    requires n < 0 && StopsDigits(rest)
    ensures SignedPrefixValue(IntToDecimal(n) + rest) == Some(n)
  {
    var x := IntToDecimal(n) + rest;
    NegativeText(n, rest);
    DigitsPrefixRoundTrip(-n, rest);
    assert DigitsPrefixValue(x[1..]) == Some(-n);
    MinusPrefix(x, -n);
  }

  /** A minus sign followed by digits of value v reads as -v. */
  lemma MinusPrefix(x: string, v: nat)
    requires x != [] && x[0] == '-' && DigitsPrefixValue(x[1..]) == Some(v)
    ensures SignedPrefixValue(x) == Some(0 - v)
  {
  }

  lemma NonNegativePrefixRoundTrip(n: int, rest: string)
    requires n >= 0 && StopsDigits(rest)
    ensures SignedPrefixValue(IntToDecimal(n) + rest) == Some(n)
  {
    var d := NatToDecimal(n);
    assert IsDigit((d + rest)[0]);
    DigitsPrefixRoundTrip(n, rest);
  }

  /** `parseInt` reads back what `String(n)` wrote, whatever non-digit text follows it. */
  lemma ParseIntRoundTrip(n: int, rest: string)
    requires StopsDigits(rest)
    ensures ParseInt(IntToDecimal(n) + rest) == Some(n)
  {
    var s := IntToDecimal(n) + rest;
    assert s[0] == '-' || IsDigit(s[0]);
    TrimStartOfTrimmed(s);
    SignedPrefixRoundTrip(n, rest);
  }

  /** `parseInt` finds no number in a string that holds no digit. */
  lemma ParseIntNoDigits(s: string)
    requires forall i :: 0 <= i < |s| ==> !IsDigit(s[i])
    ensures ParseInt(s) == None
  {
    var t := TrimStart(s);
    assert t == s[|s| - |t|..];
    if t != [] {
      assert !IsDigit(t[0]);
      if |t| > 1 { assert !IsDigit(t[1..][0]); }
    }
  }

  /** White space after the number does not change what the sign-and-digits reader finds. */
  lemma SignedPrefixTrailingSpace(w: string, sp: string)
    requires AllSpace(sp)
    ensures SignedPrefixValue(w + sp) == SignedPrefixValue(w)
  {
    assert StopsDigits(sp);
    if w == [] {
      assert w + sp == sp;
    } else if w[0] == '-' || w[0] == '+' {
      assert (w + sp)[0] == w[0];
      assert (w + sp)[1..] == w[1..] + sp;
      LeadingDigitsAppend(w[1..], sp);
    } else {
      assert (w + sp)[0] == w[0];
      LeadingDigitsAppend(w, sp);
    }
  }

  /** `parseInt` ignores white space at either end, so it reads a trimmed string the same way. */
  lemma ParseIntTrim(s: string)
    ensures ParseInt(Trim(s)) == ParseInt(s)
  {
    var u := TrimStart(s);
    var w := Trim(s);
    assert w == TrimEnd(u);
    TrimStartOfTrimmed(w);
    TrimEndSplit(u);
    SignedPrefixTrailingSpace(w, u[|w|..]);
  }

  /** A string is its `trimEnd` followed by white space. */
  lemma TrimEndSplit(u: string)
    ensures u == TrimEnd(u) + u[|TrimEnd(u)|..]
    ensures AllSpace(u[|TrimEnd(u)|..])
  {
    var w := TrimEnd(u);
    assert u == u[..|w|] + u[|w|..];
  }
}
