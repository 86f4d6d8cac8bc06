/**
 Decimal text: what strconv.Itoa, strconv.FormatInt and strconv.Atoi do on the 64-bit integers,
 and strings.TrimSpace. Settings values, SQL placeholder numbers and polling tags go through it.
 */
module Decimal {
  import opened Wrappers

  const MIN_INT64 := -0x8000_0000_0000_0000
  const MAX_INT64 := 0x7FFF_FFFF_FFFF_FFFF

  predicate IsInt64(n: int) {
    MIN_INT64 <= n <= MAX_INT64
  }

  predicate IsDigit(c: char) {
    '0' <= c <= '9'
  }

  predicate AllDigits(s: string) {
    forall i :: 0 <= i < |s| ==> IsDigit(s[i])
  }

  function DigitChar(d: nat): (c: char)
    requires d < 10
    ensures IsDigit(c) && c as int - '0' as int == d
  {
    ('0' as int + d) as char
  }

  function FormatNat(n: nat): (s: string)
    ensures |s| >= 1 && AllDigits(s)
  {
    if n < 10 then [DigitChar(n)] else FormatNat(n / 10) + [DigitChar(n % 10)]
  }

  function FormatInt(n: int): string {
    if n < 0 then "-" + FormatNat(-n) else FormatNat(n)
  }

  /** The number a run of digits denotes. */
  function NatValue(s: string): nat
    requires AllDigits(s)
  {
    if s == [] then 0 else 10 * NatValue(s[..|s| - 1]) + (s[|s| - 1] as int - '0' as int)
  }

  /** strconv.Atoi: an optional sign, at least one digit, nothing else, and the value must fit. */
  function Atoi(s: string): Option<int> {
    var signed := s != [] && (s[0] == '-' || s[0] == '+');
    var digits := if signed then s[1..] else s;
    if digits == [] || !AllDigits(digits) then
      None
    else
      var v: int := NatValue(digits);
      var n := if signed && s[0] == '-' then -v else v;
      if IsInt64(n) then Some(n) else None
  }

  /** unicode.IsSpace. */
  predicate IsSpace(c: char) {
    || c == ' ' || '\U{9}' <= c <= '\U{D}' || c == '\U{85}' || c == '\U{A0}' || c == '\U{1680}'
    || '\U{2000}' <= c <= '\U{200A}' || c == '\U{2028}' || c == '\U{2029}' || c == '\U{202F}'
    || c == '\U{205F}' || c == '\U{3000}'
  }

  function TrimSpace(s: string): string {
    if s == [] then s
    else if IsSpace(s[0]) then TrimSpace(s[1..])
    else if IsSpace(s[|s| - 1]) then TrimSpace(s[..|s| - 1])
    else s
  }

  /** This piece of the text, with nothing but spaces around it. */
  ghost predicate PieceBetweenSpaces(s: string, i: nat, j: nat) {
    i <= j <= |s| && forall k :: 0 <= k < i || j <= k < |s| ==> IsSpace(s[k])
  }

  lemma SpaceBefore(s: string, i: nat, j: nat)
    requires s != [] && IsSpace(s[0]) && PieceBetweenSpaces(s[1..], i, j)
    ensures PieceBetweenSpaces(s, i + 1, j + 1) && s[1..][i..j] == s[i + 1..j + 1]
  {
    forall k | 0 <= k < i + 1 || j + 1 <= k < |s| ensures IsSpace(s[k]) {
      assert k > 0 ==> s[k] == s[1..][k - 1];
    }
  }

  lemma SpaceAfter(s: string, i: nat, j: nat)
    requires s != [] && IsSpace(s[|s| - 1]) && PieceBetweenSpaces(s[..|s| - 1], i, j)
    ensures PieceBetweenSpaces(s, i, j) && s[..|s| - 1][i..j] == s[i..j]
  {
    forall k | 0 <= k < i || j <= k < |s| ensures IsSpace(s[k]) {
      assert k < |s| - 1 ==> s[k] == s[..|s| - 1][k];
    }
  }

  /** TrimSpace cuts off exactly the spaces at both ends. */
  lemma {:induction false} TrimSpaceCuts(s: string) returns (i: nat, j: nat)
    ensures PieceBetweenSpaces(s, i, j) && TrimSpace(s) == s[i..j]
    ensures i < j ==> !IsSpace(s[i]) && !IsSpace(s[j - 1])
  {
    if s == [] {
      i, j := 0, 0;
    } else if IsSpace(s[0]) {
      i, j := TrimSpaceCuts(s[1..]);
      SpaceBefore(s, i, j);
      assert i < j ==> s[i + 1] == s[1..][i] && s[j] == s[1..][j - 1];
      i, j := i + 1, j + 1;
    } else if IsSpace(s[|s| - 1]) {
      i, j := TrimSpaceCuts(s[..|s| - 1]);
      SpaceAfter(s, i, j);
    } else {
      i, j := 0, |s|;
      assert s[0..|s|] == s;
    }
  }

  lemma TrimSpaceIdempotent(s: string)
    ensures TrimSpace(TrimSpace(s)) == TrimSpace(s)
  {
    var i, j := TrimSpaceCuts(s);
    if i < j {
      assert s[i..j][0] == s[i] && s[i..j][j - i - 1] == s[j - 1];
    }
  }

  /** A run of digits reads as its value, with or without a plus, and negated after a minus, if 64 bits hold it. */
  lemma AtoiOfDigits(d: string)
    requires d != "" && AllDigits(d)
    ensures var v: int := NatValue(d);
            && Atoi(d) == Atoi("+" + d) == (if v <= MAX_INT64 then Some(v) else None)
            && Atoi("-" + d) == if -v >= MIN_INT64 then Some(-v) else None
  {
    assert ("+" + d)[1..] == d && ("-" + d)[1..] == d;
    assert IsDigit(d[0]);
  }

  lemma {:induction false} ValueOfFormat(n: nat)
    ensures NatValue(FormatNat(n)) == n
  {
    if n >= 10 {
      ValueOfFormat(n / 10);
      assert FormatNat(n)[..|FormatNat(n)| - 1] == FormatNat(n / 10);
    }
  }

  /** Formatting and reading back is the identity on every 64-bit integer. */
  lemma AtoiOfFormatInt(n: int)
    requires IsInt64(n)
    ensures Atoi(FormatInt(n)) == Some(n)
    ensures TrimSpace(FormatInt(n)) == FormatInt(n)
  {
    var m := if n < 0 then -n else n;
    ValueOfFormat(m);
    assert n < 0 ==> FormatInt(n)[1..] == FormatNat(m);
    var s := FormatInt(n);
    assert s[|s| - 1] == FormatNat(m)[|FormatNat(m)| - 1];
  }
}
