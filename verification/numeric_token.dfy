/**
 * The numeric token of a serial line: the leftmost match of the regular
 * expression `/[+-]?\d+(?:\.\d+)?/` and its `parseFloat` value, taken as the
 * exact decimal the token writes.
 */
module NumericToken {
  import opened Wrappers

  predicate IsDigit(c: char)
  {
    '0' <= c <= '9'
  }

  predicate IsSign(c: char)
  {
    c == '+' || c == '-'
  }

  /** Some match of the expression starts at `i`: a digit, or a sign directly followed by a digit. */
  predicate MatchStartsAt(s: string, i: int)
  {
    0 <= i < |s| && (IsDigit(s[i]) || (IsSign(s[i]) && i + 1 < |s| && IsDigit(s[i + 1])))
  }

  predicate HasDigit(s: string)
  {
    exists i :: 0 <= i < |s| && IsDigit(s[i])
  }

  predicate AllDigits(s: string)
  {
    forall i :: 0 <= i < |s| ==> IsDigit(s[i])
  }

  /** The end of the greedy `\d*` run that starts at `i`. */
  function DigitRunEnd(s: string, i: nat): (e: nat)
    requires i <= |s|
    ensures i <= e <= |s|
    ensures forall k :: i <= k < e ==> IsDigit(s[k])
    ensures e == |s| || !IsDigit(s[e])
    decreases |s| - i
  {
    if i < |s| && IsDigit(s[i]) then DigitRunEnd(s, i + 1) else i
  }

  /** The first position at or after `i` where a match starts, if any. */
  function FirstMatchFrom(s: string, i: nat): (r: Option<nat>)
    requires i <= |s|
    ensures r.Some? ==> i <= r.value && MatchStartsAt(s, r.value)
    ensures r.Some? ==> forall k :: i <= k < r.value ==> !MatchStartsAt(s, k)
    ensures r.None? ==> forall k :: i <= k < |s| ==> !MatchStartsAt(s, k)
    decreases |s| - i
  {
    if i == |s| then None
    else if MatchStartsAt(s, i) then Some(i)
    else FirstMatchFrom(s, i + 1)
  }

  /**
   * The parts of a match: the optional sign at `start`, the integer digits
   * `s[digits..point]` and, when a fraction was taken, the fraction digits
   * `s[point + 1..end]`; without one, `end == point`.
   */
  datatype Token = Token(start: nat, digits: nat, point: nat, end: nat)

  /** What the regular expression engine returns: the leftmost start, then greedy `\d+` and a greedy optional `\.\d+`. */
  function Find(s: string): (r: Option<Token>)
    ensures r.Some? ==> r.value.start <= r.value.digits < r.value.point <= r.value.end <= |s|
  {
    match FirstMatchFrom(s, 0)
    case None => None
    case Some(start) =>
      var digits := if IsDigit(s[start]) then start else start + 1;
      var point := DigitRunEnd(s, digits);
      var end :=
        if point + 1 < |s| && s[point] == '.' && IsDigit(s[point + 1]) then DigitRunEnd(s, point + 1)
        else point;
      Some(Token(start, digits, point, end))
  }

  /** A line yields a token exactly when it holds a digit. */
  lemma FindSomeIffDigit(s: string)
    ensures Find(s).Some? <==> HasDigit(s)
  {
    if HasDigit(s) {
      var i :| 0 <= i < |s| && IsDigit(s[i]);
      assert MatchStartsAt(s, i);
    }
  }

  /**
   * The token is the leftmost match, its sign is the character just before the
   * first digits when that is `+` or `-`, its digit runs are maximal, and a
   * fraction is taken exactly when a '.' followed by a digit ends the integer digits.
   */
  lemma FindShape(s: string)
    requires Find(s).Some?
    ensures var t := Find(s).value;
      && (forall k :: 0 <= k < t.start ==> !MatchStartsAt(s, k))
      && (t.digits == t.start + 1 <==> IsSign(s[t.start]))
      && t.digits <= t.start + 1
      && (forall k :: t.start <= k < t.digits ==> !IsDigit(s[k]))
      && (forall k :: t.digits <= k < t.point ==> IsDigit(s[k]))
      && (t.point == |s| || !IsDigit(s[t.point]))
      && (t.end > t.point <==> (t.point + 1 < |s| && s[t.point] == '.' && IsDigit(s[t.point + 1])))
      && (t.end > t.point ==> (forall k :: t.point < k < t.end ==> IsDigit(s[k])) && (t.end == |s| || !IsDigit(s[t.end])))
  {
  }

  /** A matched sign always stands right before the first digit of the line. */
  lemma SignOnlyBeforeFirstDigit(s: string, i: nat)
    requires i < |s| && IsDigit(s[i]) && (forall k :: 0 <= k < i ==> !IsDigit(s[k]))
    ensures Find(s).Some?
    ensures Find(s).value.digits == i
    ensures Find(s).value.start == (if i > 0 && IsSign(s[i - 1]) then i - 1 else i)
  {
    assert MatchStartsAt(s, i);
    if i > 0 && IsSign(s[i - 1]) {
      assert MatchStartsAt(s, i - 1);
    }
    var j := FirstMatchFrom(s, 0).value;
    assert j >= i - 1;
  }

  // ---------------------------------------------------------------------------
  // parseFloat of the token
  // ---------------------------------------------------------------------------

  function DigitValue(c: char): nat
    requires IsDigit(c)
  {
    (c - '0') as nat
  }

  /** The value of a run of decimal digits, most significant first. */
  function DigitsValue(ds: string): (v: nat)
    requires AllDigits(ds)
  {
    if ds == [] then 0 else 10 * DigitsValue(ds[..|ds| - 1]) + DigitValue(ds[|ds| - 1])
  }

  function Pow10(n: nat): (p: nat)
    ensures p >= 1
  {
    if n == 0 then 1 else 10 * Pow10(n - 1)
  }

  /** The exact value of the matched text: sign, integer digits and fraction digits. */
  function TokenValue(s: string, t: Token): real
    requires t.start <= t.digits < t.point <= t.end <= |s|
    requires forall k :: t.digits <= k < t.point ==> IsDigit(s[k])
    requires t.end > t.point ==> forall k :: t.point < k < t.end ==> IsDigit(s[k])
  {
    var whole := DigitsValue(s[t.digits..t.point]) as real;
    var frac := if t.end > t.point then s[t.point + 1..t.end] else "";
    var magnitude := whole + DigitsValue(frac) as real / Pow10(|frac|) as real;
    if t.digits > t.start && s[t.start] == '-' then -magnitude else magnitude
  }

  /**
   * `parseFloat(line.match(/[+-]?\d+(?:\.\d+)?/)[0])`, or `None` when the line
   * does not match.
   */
  function ParseSample(line: string): (r: Option<real>)
    ensures r.Some? <==> HasDigit(line)
  {
    FindSomeIffDigit(line);
    match Find(line)
    case None => None
    case Some(t) =>
      FindShape(line);
      Some(TokenValue(line, t))
  }

  // ---------------------------------------------------------------------------
  // Decimal text of a natural number
  // ---------------------------------------------------------------------------

  /** The shortest decimal digits of `n` (`String(n)` for a non-negative integer). */
  function NatToDecimal(n: nat): (ds: string)
    ensures |ds| >= 1 && AllDigits(ds)
    ensures |ds| > 1 ==> ds[0] != '0'
  {
    if n < 10 then ['0' + n as char]
    else NatToDecimal(n / 10) + ['0' + (n % 10) as char]
  }

  /** Reading back the digits written for `n` gives `n`. */
  lemma {:induction false} NatToDecimalValue(n: nat)
    ensures DigitsValue(NatToDecimal(n)) == n
  {
    var ds := NatToDecimal(n);
    if n >= 10 {
      NatToDecimalValue(n / 10);
      assert ds[..|ds| - 1] == NatToDecimal(n / 10);
    }
  }

  /** A prefix of at most one character that is not a digit: nothing, a sign, or some other symbol. */
  predicate ShortPrefix(pre: string)
  {
    |pre| <= 1 && (pre != "" ==> !IsDigit(pre[0]))
  }

  /** Where the match starts after a short prefix: on the prefix when it is a sign, else on the digits. */
  function PrefixStart(pre: string): nat
  {
    if pre != "" && !IsSign(pre[0]) then 1 else 0
  }

  /** The token of a short prefix, a block of digits and a suffix that does not continue the number. */
  lemma FindAfterPrefix(pre: string, ds: string, suffix: string)
    requires ShortPrefix(pre)
    requires |ds| >= 1 && AllDigits(ds)
    requires suffix == [] || (!IsDigit(suffix[0]) && suffix[0] != '.')
    ensures Find(pre + ds + suffix) == Some(Token(PrefixStart(pre), |pre|, |pre| + |ds|, |pre| + |ds|))
  {
    var line := pre + ds + suffix;
    var i := |pre|;
    assert line[i..i + |ds|] == ds;
    assert IsDigit(line[i]);
    if pre != "" {
      assert line[0] == pre[0];
    }
    SignOnlyBeforeFirstDigit(line, i);
    DigitRunEndOver(line, i, ds);
    if suffix != [] {
      assert line[i + |ds|] == suffix[0];
    }
  }

  /** A token without fraction is worth its integer digits, negated after a minus sign. */
  lemma IntegerTokenValue(line: string, t: Token)
    requires t.start <= t.digits < t.point == t.end <= |line|
    requires forall k :: t.digits <= k < t.point ==> IsDigit(line[k])
    ensures TokenValue(line, t) == var v := DigitsValue(line[t.digits..t.point]) as real;
      if t.digits > t.start && line[t.start] == '-' then -v else v
  {
    assert DigitsValue("") == 0;
  }

  /**
   * A line made of a short prefix, the decimal digits of `n` and a suffix
   * that does not continue the number parses to `-n` after a minus sign and
   * to `n` otherwise.
   */
  lemma ParseAfterPrefix(pre: string, n: nat, suffix: string)
    requires ShortPrefix(pre)
    requires suffix == [] || (!IsDigit(suffix[0]) && suffix[0] != '.')
    ensures ParseSample(pre + NatToDecimal(n) + suffix) == Some(if pre == "-" then -(n as real) else n as real)
  {
    var ds := NatToDecimal(n);
    var line := pre + ds + suffix;
    FindAfterPrefix(pre, ds, suffix);
    var t := Token(PrefixStart(pre), |pre|, |pre| + |ds|, |pre| + |ds|);
    assert line[t.digits..t.point] == ds;
    IntegerTokenValue(line, t);
    if pre != "" {
      assert line[0] == pre[0];
      assert pre == [pre[0]];
    }
    NatToDecimalValue(n);
  }

  /** The greedy run over a block of digits followed by a non-digit ends after the block. */
  lemma DigitRunEndOver(s: string, i: nat, ds: string)
    requires i + |ds| <= |s| && s[i..i + |ds|] == ds && AllDigits(ds)
    requires i + |ds| == |s| || !IsDigit(s[i + |ds|])
    ensures DigitRunEnd(s, i) == i + |ds|
  {
    assert forall k :: i <= k < i + |ds| ==> s[k] == ds[k - i];
  }
}
