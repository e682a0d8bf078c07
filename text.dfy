/** Character-level helpers applied to form input before it reaches the
    identity pipeline: Python's `str.strip`, ASCII `str.lower`, and the
    zero-padded decimal digits used in generated identifiers. */
module Text {

  /** Python's `str.isspace`: the code points Python strips and that the
      regular-expression class `\s` matches in a `str` pattern. */
  predicate IsSpace(c: char) {
    var n := c as int;
    (9 <= n <= 13) || (28 <= n <= 32) || n == 0x85 || n == 0xA0 || n == 0x1680
    || (0x2000 <= n <= 0x200A) || n == 0x2028 || n == 0x2029 || n == 0x202F
    || n == 0x205F || n == 0x3000
  }

  predicate IsDigit(c: char) { '0' <= c <= '9' }
  predicate IsUpper(c: char) { 'A' <= c <= 'Z' }
  predicate IsLower(c: char) { 'a' <= c <= 'z' }
  predicate IsLetter(c: char) { IsUpper(c) || IsLower(c) }

  predicate AllDigits(s: string) {
    forall i :: 0 <= i < |s| ==> IsDigit(s[i])
  }

  function LowerChar(c: char): (r: char)
    ensures !IsUpper(r)
    ensures IsLower(r) <==> IsLetter(c)
  {
    if IsUpper(c) then (c as int + 32) as char else c
  }

  function UpperChar(c: char): (r: char)
    ensures !IsLower(r)
    ensures IsUpper(r) <==> IsLetter(c)
  {
    if IsLower(c) then (c as int - 32) as char else c
  }

  /** `str.lower()` restricted to ASCII letters. */
  function Lower(s: string): (r: string)
    ensures |r| == |s|
    ensures forall i :: 0 <= i < |s| ==> r[i] == LowerChar(s[i])
  {
    if s == [] then [] else [LowerChar(s[0])] + Lower(s[1..])
  }

  /** `str.upper()` restricted to ASCII letters. */
  function Upper(s: string): (r: string)
    ensures |r| == |s|
    ensures forall i :: 0 <= i < |s| ==> r[i] == UpperChar(s[i])
  {
    if s == [] then [] else [UpperChar(s[0])] + Upper(s[1..])
  }

  /** `str.lstrip()`: drops the leading white space (see `TrimStartSpec`). */
  function TrimStart(s: string): (r: string)
    ensures |r| <= |s|
  {
    if |s| > 0 && IsSpace(s[0]) then TrimStart(s[1..]) else s
  }

  /** `str.rstrip()`: drops the trailing white space (see `TrimEndSpec`). */
  function TrimEnd(s: string): (r: string)
    ensures |r| <= |s|
  {
    if |s| > 0 && IsSpace(s[|s| - 1]) then TrimEnd(s[..|s| - 1]) else s
  }

  /** `lstrip` removes a prefix of white space and nothing more. */
  lemma {:induction false} TrimStartSpec(s: string)
    ensures var r := TrimStart(s);
      && r == s[|s| - |r|..]
      && (r == [] || !IsSpace(r[0]))
      && forall i :: 0 <= i < |s| - |r| ==> IsSpace(s[i])
  {
    if |s| > 0 && IsSpace(s[0]) {
      TrimStartSpec(s[1..]);
      var r := TrimStart(s[1..]);
      assert s[1..][|s| - 1 - |r|..] == s[|s| - |r|..];
      forall i | 0 <= i < |s| - |r| ensures IsSpace(s[i]) {
        if i > 0 { assert s[i] == s[1..][i - 1]; }
      }
    }
  }

  /** `rstrip` removes a suffix of white space and nothing more. */
  lemma {:induction false} TrimEndSpec(s: string)
    ensures var r := TrimEnd(s);
      && r == s[..|r|]
      && (r == [] || !IsSpace(r[|r| - 1]))
      && forall i :: |r| <= i < |s| ==> IsSpace(s[i])
  {
    if |s| > 0 && IsSpace(s[|s| - 1]) {
      TrimEndSpec(s[..|s| - 1]);
      var r := TrimEnd(s[..|s| - 1]);
      assert s[..|s| - 1][..|r|] == s[..|r|];
      forall i | |r| <= i < |s| ensures IsSpace(s[i]) {
        if i < |s| - 1 { assert s[i] == s[..|s| - 1][i]; }
      }
    }
  }

  /** `str.strip()` (see `StripSpec`). */
  function Strip(s: string): (r: string)
    ensures |r| <= |s|
  {
    TrimEnd(TrimStart(s))
  }

  /** `strip` keeps a slice of the input that neither starts nor ends with
      white space, and drops only white space around it. */
  lemma StripSpec(s: string)
    ensures var r := Strip(s); r == [] || (!IsSpace(r[0]) && !IsSpace(r[|r| - 1]))
    ensures exists i, j ::
      && 0 <= i <= j <= |s| && Strip(s) == s[i..j]
      && (forall k :: 0 <= k < i ==> IsSpace(s[k]))
      && (forall k :: j <= k < |s| ==> IsSpace(s[k]))
  {
    TrimStartSpec(s);
    var t := TrimStart(s);
    TrimEndSpec(t);
    var r := TrimEnd(t);
    var i, j := |s| - |t|, |s| - |t| + |r|;
    assert Strip(s) == s[i..j];
    forall k | j <= k < |s| ensures IsSpace(s[k]) {
      assert s[k] == t[k - i];
    }
  }

  /** How the portal normalises every e-mail it receives: `.lower().strip()`. */
  function NormalizeEmail(s: string): string {
    Strip(Lower(s))
  }

  function Digit(d: int): (c: char)
    requires 0 <= d < 10
    ensures IsDigit(c)
  {
    ('0' as int + d) as char
  }

  /** 10 to the power `k`. */
  function Pow10(k: nat): (p: nat)
    ensures p >= 1
  {
    if k == 0 then 1 else 10 * Pow10(k - 1)
  }

  /** The number a string of decimal digits spells, most significant first. */
  function DigitsValue(s: string): int {
    if |s| == 0 then 0 else 10 * DigitsValue(s[..|s| - 1]) + (s[|s| - 1] as int - '0' as int)
  }

  /** The last `width` decimal digits of `n`, zero-padded: `f"{n:0{width}d}"`
      for `n < 10^width`. */
  function Pad(n: nat, width: nat): (r: string)
    ensures |r| == width
    ensures AllDigits(r)
    ensures DigitsValue(r) == n % Pow10(width)
  {
    if width == 0 then "" else
      var r := Pad(n / 10, width - 1) + [Digit(n % 10)];
      assert r[..width - 1] == Pad(n / 10, width - 1);
      LastDigits(n, Pow10(width - 1));
      r
  }

  /** A number with at most `width` digits is spelled out exactly. */
  lemma PadExact(n: nat, width: nat)
    requires n < Pow10(width)
    ensures DigitsValue(Pad(n, width)) == n
  {
    ModUnique(n, Pow10(width), 0, n);
  }

  /** Splitting off the last digit: the last `k + 1` digits of `n` are the
      last `k` digits of `n / 10` followed by `n % 10`. */
  lemma LastDigits(n: nat, p: nat)
    requires p >= 1
    ensures n % (10 * p) == 10 * ((n / 10) % p) + n % 10
  {
    var q, r := (n / 10) / p, (n / 10) % p;
    assert n / 10 == p * q + r;
    assert n == 10 * p * q + (10 * r + n % 10);
    ModUnique(n, 10 * p, q, 10 * r + n % 10);
  }

  /** The remainder is the only `x` in `[0, m)` with `n == m * k + x`. */
  lemma ModUnique(n: int, m: int, k: int, x: int)
    requires m > 0 && 0 <= x < m && n == m * k + x
    ensures n % m == x
  {
    // m * (k - n / m) == n % m - x lies strictly between -m and m
    var j := k - n / m;
    assert m * j == n % m - x;
    if j >= 1 || j <= -1 {
      assert false;
    }
  }
}
