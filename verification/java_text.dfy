/**
 * The few java.lang.String and java.lang.Integer behaviours the control-file
 * interpreter and the XML representation rely on, written out explicitly:
 * `String.trim()`, ASCII lower-casing, `Integer.parseInt(s)` (radix 10) and
 * its inverse `Integer.toString(i)`.
 */
module JavaText {

  /** A Java reference that may be null. */
  datatype Option<+T> = None | Some(value: T)

  /** `String.trim()` removes every leading and trailing char whose code is at most U+0020. */
  predicate IsBlankChar(c: char) {
    c <= ' '
  }

  predicate AllBlank(s: string) {
    forall k :: 0 <= k < |s| ==> IsBlankChar(s[k])
  }

  /** Number of blank chars at the front of `s`. */
  function LeadingBlanks(s: string): (k: nat)
    ensures k <= |s|
    ensures AllBlank(s[..k])
    ensures k == |s| || !IsBlankChar(s[k])
  {
    if |s| == 0 || !IsBlankChar(s[0]) then 0
    else
      var k' := LeadingBlanks(s[1..]);
      assert s[1..][..k'] == s[1..k' + 1];
      1 + k'
  }

  /** Number of blank chars at the back of `s`. */
  function TrailingBlanks(s: string): (k: nat)
    ensures k <= |s|
    ensures AllBlank(s[|s| - k..])
    ensures k == |s| || !IsBlankChar(s[|s| - k - 1])
  {
    if |s| == 0 || !IsBlankChar(s[|s| - 1]) then 0
    else
      var k' := TrailingBlanks(s[..|s| - 1]);
      assert s[..|s| - 1][|s| - 1 - k'..] == s[|s| - 1 - k'..|s| - 1];
      1 + k'
  }

  /** `s.trim()`: the slice of `s` left after dropping the blank chars at both ends. */
  function Trim(s: string): (r: string)
    ensures |r| <= |s|
    ensures r == "" || (!IsBlankChar(r[0]) && !IsBlankChar(r[|r| - 1]))
    ensures var i := LeadingBlanks(s);
            i + |r| <= |s| && r == s[i..i + |r|] && AllBlank(s[i + |r|..])
  {
    var i := LeadingBlanks(s);
    var t := s[i..];
    var j := TrailingBlanks(t);
    var r := t[..|t| - j];
    assert t[|t| - j..] == s[i + |t| - j..];
    assert r == s[i..i + |r|];
    assert r != "" ==> r[0] == s[i] && r[|r| - 1] == t[|t| - j - 1];
    r
  }

  /** Trimming twice is trimming once. */
  lemma TrimIdempotent(s: string)
    ensures Trim(Trim(s)) == Trim(s)
  {
    var r := Trim(s);
    if r != "" {
      assert LeadingBlanks(r) == 0;
      assert TrailingBlanks(r) == 0;
    }
  }

  /** A string trims to "" exactly when it consists of blank chars only. */
  lemma TrimEmptyIffBlank(s: string)
    ensures Trim(s) == "" <==> AllBlank(s)
  {
    var i := LeadingBlanks(s);
    if Trim(s) == "" {
      assert i == |s|;
      assert s[..i] == s;
    }
  }

  /**
   * `Trim` is determined by its shape: whenever `s` is `r` with only blank
   * chars before and after it, and `r` is empty or neither starts nor ends
   * with a blank char, `s` trims to `r`.
   */
  lemma TrimUnique(s: string, i: nat, r: string)
    requires i + |r| <= |s| && s[i..i + |r|] == r
    requires forall k :: 0 <= k < i ==> IsBlankChar(s[k])
    requires forall k :: i + |r| <= k < |s| ==> IsBlankChar(s[k])
    requires r == "" || (!IsBlankChar(r[0]) && !IsBlankChar(r[|r| - 1]))
    ensures Trim(s) == r
  {
    var t := Trim(s);
    var j := TrimPosition(s);
    assert t != "" ==> s[j] == t[0] && s[j + |t| - 1] == t[|t| - 1];
    assert r != "" ==> s[i] == r[0] && s[i + |r| - 1] == r[|r| - 1];
    if r != "" && t != "" {
      assert !(i < j) && !(j < i);
      assert !(i + |r| < j + |t|) && !(j + |t| < i + |r|);
    }
  }

  /** A string with only blank chars around its trimmed form trims to that form. */
  lemma TrimSurrounded(p: string, r: string, q: string)
    requires AllBlank(p) && AllBlank(q)
    requires r == "" || (!IsBlankChar(r[0]) && !IsBlankChar(r[|r| - 1]))
    ensures Trim(p + r + q) == r
  {
    var s := p + r + q;
    assert s[|p|..|p| + |r|] == r;
    forall k | |p| + |r| <= k < |s| ensures IsBlankChar(s[k]) {
      assert s[k] == q[k - |p| - |r|];
    }
    TrimUnique(s, |p|, r);
  }

  lemma AllBlankAppend(a: string, b: string)
    requires AllBlank(a) && AllBlank(b)
    ensures AllBlank(a + b)
  {
    forall k | 0 <= k < |a + b| ensures IsBlankChar((a + b)[k]) {
      if k >= |a| { assert (a + b)[k] == b[k - |a|]; }
    }
  }

  lemma SliceThree(u: string, i: nat, j: nat)
    requires i <= j <= |u|
    ensures u == u[..i] + u[i..j] + u[j..]
  {
    assert u[..j] == u[..i] + u[i..j];
  }

  lemma RegroupAround(b: string, f: string, r: string, k: string, e: string)
    ensures b + (f + r + k) + e == (b + f) + r + (k + e)
  {
  }

  /** Blank chars added before and after a string do not change its trimmed form. */
  lemma TrimDropsBlankEnds(b: string, u: string, e: string)
    requires AllBlank(b) && AllBlank(e)
    ensures Trim(b + u + e) == Trim(u)
  {
    var j := TrimPosition(u);
    var r := Trim(u);
    var front, back := u[..j], u[j + |r|..];
    SliceThree(u, j, j + |r|);
    RegroupAround(b, front, r, back, e);
    AllBlankAppend(b, front);
    AllBlankAppend(back, e);
    TrimSurrounded(b + front, r, back + e);
  }

  /** Where `Trim(s)` sits in `s`, with only blank chars before and after it. */
  lemma TrimPosition(s: string) returns (j: nat)
    ensures var t := Trim(s);
            j + |t| <= |s| && t == s[j..j + |t|]
            && (forall k :: 0 <= k < j ==> IsBlankChar(s[k]))
            && (forall k :: j + |t| <= k < |s| ==> IsBlankChar(s[k]))
  {
    var t := Trim(s);
    j := LeadingBlanks(s);
    assert forall k :: 0 <= k < j ==> s[..j][k] == s[k];
    assert forall k :: j + |t| <= k < |s| ==> s[j + |t|..][k - j - |t|] == s[k];
  }

  /** ASCII upper-case letters mapped to lower case, as `toLowerCase()` does on them. */
  function LowerChar(c: char): char {
    if 'A' <= c <= 'Z' then (c as int + 32) as char else c
  }

  function LowerCase(s: string): (r: string)
    ensures |r| == |s|
    ensures forall k :: 0 <= k < |s| ==> r[k] == LowerChar(s[k])
  {
    seq(|s|, k requires 0 <= k < |s| => LowerChar(s[k]))
  }

  /**
   * `toLowerCase()` on ASCII: no upper-case letter is left, each one becomes
   * the letter 32 code points later, and every other character is kept.
   */
  lemma LowerCaseMeaning(s: string)
    ensures |LowerCase(s)| == |s|
    ensures forall k :: 0 <= k < |s| ==> !('A' <= LowerCase(s)[k] <= 'Z')
    ensures forall k :: 0 <= k < |s| && 'A' <= s[k] <= 'Z' ==> LowerCase(s)[k] as int == s[k] as int + 32
    ensures forall k :: 0 <= k < |s| && !('A' <= s[k] <= 'Z') ==> LowerCase(s)[k] == s[k]
  {
  }

  /** Lower-casing twice is lower-casing once. */
  lemma LowerCaseIdempotent(s: string)
    ensures LowerCase(LowerCase(s)) == LowerCase(s)
  {
  }

  /** Lower-casing leaves blank chars alone. */
  lemma LowerCaseKeepsBlanks(b: string, t: string, e: string)
    requires AllBlank(b) && AllBlank(e)
    ensures LowerCase(b + t + e) == b + LowerCase(t) + e
  {
  }

  // ---------------------------------------------------------------------
  // Integer.parseInt(s) and Integer.toString(i)
  // ---------------------------------------------------------------------

  const IntMin: int := -0x8000_0000
  const IntMax: int := 0x7fff_ffff

  predicate InIntRange(v: int) {
    IntMin <= v <= IntMax
  }

  predicate IsDigit(c: char) {
    '0' <= c <= '9'
  }

  predicate AllDigits(s: string) {
    forall k :: 0 <= k < |s| ==> IsDigit(s[k])
  }

  function DigitValue(c: char): nat
    requires IsDigit(c)
  {
    c as int - '0' as int
  }

  function DigitChar(d: nat): (c: char)
    requires d < 10
    ensures IsDigit(c) && DigitValue(c) == d
  {
    ('0' as int + d) as char
  }

  /** Value of a run of decimal digits, most significant first. */
  function DigitsValue(s: string): nat
    requires AllDigits(s)
  {
    if |s| == 0 then 0
    else DigitsValue(s[..|s| - 1]) * 10 + DigitValue(s[|s| - 1])
  }

  /**
   * `Integer.parseInt(s)`: an optional '+' or '-', then one or more decimal
   * digits, and a value in the 32-bit range; no surrounding blanks are
   * tolerated. `None` stands for the NumberFormatException.
   */
  function ParseInt(s: string): (r: Option<int>)
    ensures r.Some? ==> InIntRange(r.value)
    ensures r.Some? ==> |s| > 0 && (IsDigit(s[0]) || s[0] == '-' || s[0] == '+')
    ensures r.Some? ==> forall k :: 1 <= k < |s| ==> IsDigit(s[k])
  {
    if |s| == 0 then None
    else
      var signed := s[0] == '-' || s[0] == '+';
      var digits := if signed then s[1..] else s;
      if |digits| == 0 || !AllDigits(digits) then None
      else
        var v: int := if s[0] == '-' then -(DigitsValue(digits) as int) else DigitsValue(digits);
        if InIntRange(v) then Some(v) else None
  }

  /** Decimal rendering of a natural number, without leading zeros. */
  function ShowNat(n: nat): (s: string)
    ensures |s| >= 1 && AllDigits(s)
    ensures |s| > 1 ==> s[0] != '0'
  {
    if n < 10 then [DigitChar(n)]
    else ShowNat(n / 10) + [DigitChar(n % 10)]
  }

  /** `Integer.toString(i)` (and `StringBuffer.append(int)`). */
  function ShowInt(i: int): (s: string)
    ensures |s| >= 1
  {
    if i < 0 then "-" + ShowNat(-i) else ShowNat(i)
  }

  lemma {:induction false} ShowNatValue(n: nat)
    ensures DigitsValue(ShowNat(n)) == n
  {
    if n >= 10 {
      var s := ShowNat(n);
      assert s[..|s| - 1] == ShowNat(n / 10);
      ShowNatValue(n / 10);
    }
  }

  /** Parsing the rendering of any 32-bit int gives the int back. */
  lemma ParseShowRoundTrip(i: int)
    requires InIntRange(i)
    ensures ParseInt(ShowInt(i)) == Some(i)
  {
    var s := ShowInt(i);
    if i < 0 {
      ShowNatValue(-i);
      assert s[0] == '-' && s[1..] == ShowNat(-i);
    } else {
      ShowNatValue(i);
      assert s == ShowNat(i) && IsDigit(s[0]);
    }
  }

  /** Blanks are not skipped, a lone sign is not a number, and the 32-bit bounds are exact. */
  lemma ParseIntEdgeCases()
    ensures ParseInt("") == None
    ensures ParseInt("-") == None && ParseInt("+") == None
    ensures ParseInt(" 1") == None && ParseInt("1 ") == None
    ensures ParseInt("+7") == Some(7) && ParseInt("-0") == Some(0)
    ensures ParseInt("2147483648") == None
  {
    assert !AllDigits(" 1") by { assert !IsDigit(" 1"[0]); }
    assert !AllDigits("1 ") by { assert !IsDigit("1 "[1]); }
    SingleDigitValues();
    assert "+7"[1..] == "7" && "-0"[1..] == "0";
    OverflowDigitsValue();
    assert AllDigits("2147483648");
  }

  lemma SingleDigitValues()
    ensures DigitsValue("7") == 7 && DigitsValue("0") == 0
  {
    assert "7"[..0] == "" && "0"[..0] == "";
  }

  /** The digits of one more than `IntMax`. */
  lemma OverflowDigitsValue()
    ensures DigitsValue("2147483648") == IntMax + 1
  {
    assert DigitsValue("2") == 2 by { assert "2"[..0] == ""; }
    assert DigitsValue("21") == 21 by { assert "21"[..1] == "2"; }
    assert DigitsValue("214") == 214 by { assert "214"[..2] == "21"; }
    assert DigitsValue("2147") == 2147 by { assert "2147"[..3] == "214"; }
    assert DigitsValue("21474") == 21474 by { assert "21474"[..4] == "2147"; }
    assert DigitsValue("214748") == 214748 by { assert "214748"[..5] == "21474"; }
    assert DigitsValue("2147483") == 2147483 by { assert "2147483"[..6] == "214748"; }
    assert DigitsValue("21474836") == 21474836 by { assert "21474836"[..7] == "2147483"; }
    assert DigitsValue("214748364") == 214748364 by { assert "214748364"[..8] == "21474836"; }
    assert DigitsValue("2147483648") == 2147483648 by { assert "2147483648"[..9] == "214748364"; }
  }
}
