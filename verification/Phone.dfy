/**
 The canonical phone form behind "one phone, one card" (service.go), and the form script whose
 output it reads back (enroll.gohtml). Text is a sequence of characters; lengths that Go takes in
 bytes are taken in UTF-8 bytes here too. unicode.IsDigit is a parameter that agrees with ASCII.
 */
module Phone {
  import opened Decimal
  import opened Wrappers

  function Utf8Len(c: char): nat {
    if c < '\U{80}' then 1 else if c < '\U{800}' then 2 else if c < '\U{10000}' then 3 else 4
  }

  function ByteLen(s: string): nat {
    if s == [] then 0 else Utf8Len(s[0]) + ByteLen(s[1..])
  }

  ghost predicate Faithful(isDigit: char -> bool) {
    forall c: char :: c < '\U{80}' ==> (isDigit(c) <==> IsDigit(c))
  }

  predicate IsAscii(s: string) {
    forall i :: 0 <= i < |s| ==> s[i] < '\U{80}'
  }

  function Keep(s: string, isDigit: char -> bool): string {
    if s == [] then [] else (if isDigit(s[0]) then [s[0]] else []) + Keep(s[1..], isDigit)
  }

  function Canonical(d: string): string {
    if d == "" then ""
    else
      var d1 := if ByteLen(d) == 11 && d[0] == '8' then "7" + d[1..] else d;
      "+" + if ByteLen(d1) == 10 then "7" + d1 else d1
  }

  function Normalized(raw: string, isDigit: char -> bool): string {
    Canonical(Keep(raw, isDigit))
  }

  method NormalizePhone(raw: string, isDigit: char -> bool) returns (phone: string)
    ensures phone == Normalized(raw, isDigit)
  {
    var digits := "";
    for i := 0 to |raw|
      invariant digits + Keep(raw[i..], isDigit) == Keep(raw, isDigit)
    {
      KeepNext(raw, i, isDigit);
      Associate(digits, [raw[i]], Keep(raw[i + 1..], isDigit));
      if isDigit(raw[i]) {
        digits := digits + [raw[i]];
      }
    }
    assert digits == Keep(raw, isDigit);
    if digits == "" {
      return "";
    }
    var d := digits;
    if ByteLen(d) == 11 && d[0] == '8' {
      d := "7" + d[1..];
    }
    if ByteLen(d) == 10 {
      d := "7" + d;
    }
    return "+" + d;
  }

  lemma KeepNext(raw: string, i: nat, isDigit: char -> bool)
    requires i < |raw|
    ensures Keep(raw[i..], isDigit) ==
              if isDigit(raw[i]) then [raw[i]] + Keep(raw[i + 1..], isDigit) else Keep(raw[i + 1..], isDigit)
  {
    assert raw[i..][1..] == raw[i + 1..];
  }

  predicate IsValidPhone(phone: string) {
    ByteLen(phone) == 12 && "+7" <= phone && AllDigits(phone[2..])
  }

  // ---- the canonical form --------------------------------------------------------------------

  lemma {:induction false} AsciiByteLen(s: string)
    requires IsAscii(s)
    ensures ByteLen(s) == |s|
  {
    if s != [] {
      AsciiByteLen(s[1..]);
    }
  }

  lemma {:induction false} KeepAll(s: string, isDigit: char -> bool)
    requires forall i :: 0 <= i < |s| ==> isDigit(s[i])
    ensures Keep(s, isDigit) == s
  {
    if s != [] {
      KeepAll(s[1..], isDigit);
    }
  }

  lemma {:induction false} KeptAreDigits(s: string, isDigit: char -> bool)
    ensures forall i :: 0 <= i < |Keep(s, isDigit)| ==> isDigit(Keep(s, isDigit)[i]) && Keep(s, isDigit)[i] in s
  {
    if s != [] {
      KeptAreDigits(s[1..], isDigit);
    }
  }

  lemma ReadBackCanonical(d: string, isDigit: char -> bool)
    requires Faithful(isDigit) && d != [] && forall i :: 0 <= i < |d| ==> isDigit(d[i])
    ensures Keep(Canonical(d), isDigit) == Canonical(d)[1..]
  {
    var rest := Canonical(d)[1..];
    assert isDigit('7') && !isDigit('+');
    KeepAll(rest, isDigit);
    assert Canonical(d) == "+" + rest && Canonical(d)[1..] == rest;
  }

  /** Normalising twice is normalising once, for every text and every notion of digit. */
  lemma NormalizeIsIdempotent(raw: string, isDigit: char -> bool)
    requires Faithful(isDigit)
    ensures Normalized(Normalized(raw, isDigit), isDigit) == Normalized(raw, isDigit)
  {
    var d := Keep(raw, isDigit);
    KeptAreDigits(raw, isDigit);
    if d != [] {
      ReadBackCanonical(d, isDigit);
      var d1 := if ByteLen(d) == 11 && d[0] == '8' then "7" + d[1..] else d;
      var d2 := if ByteLen(d1) == 10 then "7" + d1 else d1;
      assert Keep(Normalized(raw, isDigit), isDigit) == d2;
      assert ("7" + d[1..])[1..] == d[1..] && ("7" + d1)[1..] == d1;
    }
  }

  /** The ten national digits of an ASCII text, when it holds a Russian number. */
  function NationalNumber(raw: string): Option<string> {
    var d := Keep(raw, c => IsDigit(c));
    if |d| == 10 then Some(d)
    else if |d| == 11 && (d[0] == '7' || d[0] == '8') then Some(d[1..])
    else None
  }

  lemma {:induction false} KeepAgrees(s: string, isDigit: char -> bool)
    requires Faithful(isDigit) && IsAscii(s)
    ensures Keep(s, isDigit) == Keep(s, c => IsDigit(c))
  {
    if s != [] {
      KeepAgrees(s[1..], isDigit);
    }
  }

  lemma DigitsAreAscii(s: string)
    requires AllDigits(s)
    ensures IsAscii(s)
  {
  }

  /** The canonical form of ASCII digits: only ten digits, or eleven from 7 or 8, become a valid phone. */
  lemma CanonicalOfDigits(d: string)
    requires d != [] && AllDigits(d)
    ensures var ten := if |d| == 10 then d else if |d| == 11 && (d[0] == '7' || d[0] == '8') then d[1..] else "";
            && (IsValidPhone(Canonical(d)) <==> ten != "")
            && Canonical(d) == if ten != "" then "+7" + ten else "+" + d
  {
    DigitsAreAscii(d);
    AsciiByteLen(d);
    assert |d| == 11 ==> d == [d[0]] + d[1..];
    var d1 := if |d| == 11 && d[0] == '8' then "7" + d[1..] else d;
    AsciiByteLen(d1);
    var d2 := if |d1| == 10 then "7" + d1 else d1;
    AsciiByteLen("+" + d2);
    assert Canonical(d) == "+" + d2;
    if |d| == 10 {
      assert "+" + d2 == "+7" + d;
    } else if |d| == 11 && (d[0] == '7' || d[0] == '8') {
      assert "+" + d2 == "+7" + d[1..];
    } else if |d| == 11 {
      assert ("+" + d2)[1] == d[0];
    }
    assert |d2| == 11 ==> ("+" + d2)[2..] == d2[1..];
  }

  /** An ASCII text gives a valid phone exactly when it holds ten national digits, and the phone is +7 and them. */
  lemma ValidExactlyWithTenDigits(raw: string, isDigit: char -> bool)
    requires Faithful(isDigit) && IsAscii(raw)
    ensures IsValidPhone(Normalized(raw, isDigit)) <==> NationalNumber(raw).Some?
    ensures NationalNumber(raw).Some? ==> Normalized(raw, isDigit) == "+7" + NationalNumber(raw).value
    ensures NationalNumber(raw).None? ==>
              var d := Keep(raw, c => IsDigit(c));
              Normalized(raw, isDigit) == if d == "" then "" else "+" + d
  {
    KeepAgrees(raw, isDigit);
    var d := Keep(raw, c => IsDigit(c));
    KeptAreDigits(raw, c => IsDigit(c));
    if d != [] {
      CanonicalOfDigits(d);
    }
  }

  /** Two ASCII texts give the same valid phone exactly when their ten national digits agree. */
  lemma SamePhoneExactlyWithSameDigits(a: string, b: string, isDigit: char -> bool)
    requires Faithful(isDigit) && IsAscii(a) && IsAscii(b)
    ensures (IsValidPhone(Normalized(a, isDigit)) && Normalized(a, isDigit) == Normalized(b, isDigit))
       <==> (NationalNumber(a).Some? && NationalNumber(a) == NationalNumber(b))
  {
    ValidExactlyWithTenDigits(a, isDigit);
    ValidExactlyWithTenDigits(b, isDigit);
    if NationalNumber(a).Some? && NationalNumber(b).Some? {
      var x, y := NationalNumber(a).value, NationalNumber(b).value;
      assert ("+7" + x)[2..] == x && ("+7" + y)[2..] == y;
    }
  }

  // ---- the form script -----------------------------------------------------------------------

  function NationalDigits(raw: string): (d: string)
    ensures |d| <= 10
  {
    var digits := Keep(raw, c => IsDigit(c));
    var rest := if digits != [] && (digits[0] == '7' || digits[0] == '8') then digits[1..] else digits;
    if |rest| <= 10 then rest else rest[..10]
  }

  /** A run of digits on the form, after its separator. */
  datatype Group = Group(separator: string, size: nat)

  const LAST_PAIR := [Group("-", 2)]
  const PAIRS := [Group("-", 2)] + LAST_PAIR
  const SUBSCRIBER := [Group(") ", 3)] + PAIRS
  const GROUPS := [Group(" (", 3)] + SUBSCRIBER

  function Take(d: string, n: nat): string {
    if |d| <= n then d else d[..n]
  }

  function Drop(d: string, n: nat): string {
    if |d| <= n then "" else d[n..]
  }

  /** The groups filled in turn; a group without a digit is not written, nor is its separator. */
  function Filled(groups: seq<Group>, d: string): string {
    if d == "" || groups == [] then ""
    else groups[0].separator + Take(d, groups[0].size) + Filled(groups[1..], Drop(d, groups[0].size))
  }

  function Formatted(d: string): string {
    if d == "" then "" else "+7" + Filled(GROUPS, d)
  }

  method FormatPhone(raw: string) returns (out: string)
    ensures out == Formatted(NationalDigits(raw))
  {
    var d := NationalDigits(raw);
    if d == "" {
      return "";
    }
    ghost var whole := Formatted(d);
    out := "+7 (" + Take(d, 3);
    assert "+7 (" + Take(d, 3) == "+7" + (" (" + Take(d, 3));
    Peel("+7", Group(" (", 3), SUBSCRIBER, d);
    assert whole == out + Filled(SUBSCRIBER, Drop(d, 3));
    if |d| <= 3 {
      return out;
    }
    Peel(out, Group(") ", 3), PAIRS, Drop(d, 3));
    out := out + (") " + Take(Drop(d, 3), 3));
    assert whole == out + Filled(PAIRS, Drop(d, 6));
    if |d| <= 6 {
      return out;
    }
    Peel(out, Group("-", 2), LAST_PAIR, Drop(d, 6));
    out := out + ("-" + Take(Drop(d, 6), 2));
    assert whole == out + Filled(LAST_PAIR, Drop(d, 8));
    if |d| <= 8 {
      return out;
    }
    LastPeel(out, Drop(d, 8));
    return out + ("-" + Take(Drop(d, 8), 2));
  }

  lemma Peel(out: string, g: Group, rest: seq<Group>, d: string)
    requires d != ""
    ensures out + Filled([g] + rest, d) == out + (g.separator + Take(d, g.size)) + Filled(rest, Drop(d, g.size))
  {
    FillFirst([g] + rest, d);
    assert ([g] + rest)[1..] == rest;
  }

  lemma LastPeel(out: string, d: string)
    requires d != ""
    ensures out + Filled(LAST_PAIR, d) == out + ("-" + Take(d, 2))
  {
    FillFirst(LAST_PAIR, d);
    assert LAST_PAIR[1..] == [];
  }

  lemma FillFirst(groups: seq<Group>, d: string)
    requires groups != []
    ensures Filled(groups, d) ==
              if d == "" then ""
              else groups[0].separator + Take(d, groups[0].size) + Filled(groups[1..], Drop(d, groups[0].size))
  {
  }

  function Capacity(groups: seq<Group>): nat {
    if groups == [] then 0 else groups[0].size + Capacity(groups[1..])
  }

  lemma CapacityAdds(g: Group, rest: seq<Group>)
    ensures Capacity([g] + rest) == g.size + Capacity(rest)
  {
    assert ([g] + rest)[1..] == rest;
  }

  predicate PlainSeparators(groups: seq<Group>) {
    forall i :: 0 <= i < |groups| ==>
      IsAscii(groups[i].separator) && forall c :: c in groups[i].separator ==> !IsDigit(c)
  }

  lemma {:induction false} KeepConcat(a: string, b: string, isDigit: char -> bool)
    ensures Keep(a + b, isDigit) == Keep(a, isDigit) + Keep(b, isDigit)
  {
    if a == [] {
      assert a + b == b;
    } else {
      KeepConcat(a[1..], b, isDigit);
      KeepFirst(a + b, isDigit);
      KeepFirst(a, isDigit);
      assert (a + b)[0] == a[0];
      assert (a + b)[1..] == a[1..] + b;
      Associate(if isDigit(a[0]) then [a[0]] else [], Keep(a[1..], isDigit), Keep(b, isDigit));
    }
  }

  lemma KeepFirst(s: string, isDigit: char -> bool)
    requires s != []
    ensures Keep(s, isDigit) == (if isDigit(s[0]) then [s[0]] else []) + Keep(s[1..], isDigit)
  {
  }

  lemma {:induction false} KeepNone(s: string, isDigit: char -> bool)
    requires forall c :: c in s ==> !isDigit(c)
    ensures Keep(s, isDigit) == ""
  {
    if s != [] {
      KeepNone(s[1..], isDigit);
    }
  }

  lemma DigitsOfGroup(g: Group, digits: string, rest: string)
    requires AllDigits(digits) && forall c :: c in g.separator ==> !IsDigit(c)
    ensures Keep(g.separator + digits + rest, c => IsDigit(c)) == digits + Keep(rest, c => IsDigit(c))
  {
    var isDigit := c => IsDigit(c);
    KeepNone(g.separator, isDigit);
    KeepAll(digits, isDigit);
    calc {
      Keep(g.separator + digits + rest, isDigit);
    ==  { KeepConcat(g.separator + digits, rest, isDigit); }
      Keep(g.separator + digits, isDigit) + Keep(rest, isDigit);
    ==  { KeepConcat(g.separator, digits, isDigit); }
      Keep(g.separator, isDigit) + Keep(digits, isDigit) + Keep(rest, isDigit);
    ==
      digits + Keep(rest, isDigit);
    }
  }

  lemma TakeAndDrop(d: string, n: nat)
    ensures Take(d, n) + Drop(d, n) == d
    ensures |Drop(d, n)| == if |d| <= n then 0 else |d| - n
    ensures AllDigits(d) ==> AllDigits(Take(d, n)) && AllDigits(Drop(d, n))
  {
  }

  /** The digits of the filled groups are the digits filled in. */
  lemma {:induction false} DigitsOfFilled(groups: seq<Group>, d: string)
    requires AllDigits(d) && PlainSeparators(groups) && |d| <= Capacity(groups)
    ensures Keep(Filled(groups, d), c => IsDigit(c)) == d
  {
    if d != "" && groups != [] {
      var g := groups[0];
      var taken, left := Take(d, g.size), Drop(d, g.size);
      TakeAndDrop(d, g.size);
      DigitsOfFilled(groups[1..], left);
      DigitsOfGroup(g, taken, Filled(groups[1..], left));
      FillFirst(groups, d);
    }
  }

  lemma {:induction false} FilledIsAscii(groups: seq<Group>, d: string)
    requires AllDigits(d) && PlainSeparators(groups)
    ensures IsAscii(Filled(groups, d))
  {
    if d != "" && groups != [] {
      var g := groups[0];
      TakeAndDrop(d, g.size);
      FilledIsAscii(groups[1..], Drop(d, g.size));
      FillFirst(groups, d);
    }
  }

  lemma NationalDigitsAreDigits(raw: string)
    ensures AllDigits(NationalDigits(raw))
  {
    KeptAreDigits(raw, c => IsDigit(c));
  }

  lemma DigitsOfFormatted(d: string)
    requires AllDigits(d) && 1 <= |d| <= 10
    ensures Keep(Formatted(d), c => IsDigit(c)) == "7" + d
    ensures IsAscii(Formatted(d))
  {
    CapacityAdds(Group("-", 2), []);
    CapacityAdds(Group("-", 2), LAST_PAIR);
    CapacityAdds(Group(") ", 3), PAIRS);
    CapacityAdds(Group(" (", 3), SUBSCRIBER);
    DigitsOfFilled(GROUPS, d);
    FilledIsAscii(GROUPS, d);
    KeepConcat("+7", Filled(GROUPS, d), c => IsDigit(c));
    assert Keep("+7", c => IsDigit(c)) == "7";
  }

  /**
   The normaliser reads the form's text back as +7 and its ten digits. With nine digits it gives a
   valid phone too, but another one: the form's own submit check is what stops that.
   */
  lemma ReadsBackFormattedPhone(raw: string, isDigit: char -> bool)
    requires Faithful(isDigit)
    ensures var d := NationalDigits(raw);
            var phone := Normalized(Formatted(d), isDigit);
            && (IsValidPhone(phone) <==> |d| >= 9)
            && (|d| == 10 ==> phone == "+7" + d)
            && (|d| == 9 ==> phone == "+77" + d)
  {
    var d := NationalDigits(raw);
    NationalDigitsAreDigits(raw);
    if d != [] {
      DigitsOfFormatted(d);
      var text := Formatted(d);
      ValidExactlyWithTenDigits(text, isDigit);
      assert ("7" + d)[1..] == d;
      assert "+7" + ("7" + d) == "+77" + d;
    }
  }

  /** Ten digits are written in full as +7 (123) 456-78-90. */
  lemma FullNumberIsFormatted(d: string)
    requires |d| == 10
    ensures Formatted(d) == "+7" + " (" + d[..3] + ") " + d[3..6] + "-" + d[6..8] + "-" + d[8..]
  {
    var code := "+7" + " (" + d[..3];
    var area := code + ") " + d[3..6];
    assert d[3..][..3] == d[3..6] && d[3..][3..] == d[6..] && d[6..][..2] == d[6..8] && d[6..][2..] == d[8..];
    NextGroup("+7", Group(" (", 3), SUBSCRIBER, d);
    NextGroup(code, Group(") ", 3), PAIRS, d[3..]);
    NextGroup(area, Group("-", 2), LAST_PAIR, d[6..]);
    LastGroup(area + "-" + d[6..8], d[8..]);
  }

  lemma NextGroup(out: string, g: Group, rest: seq<Group>, d: string)
    requires g.size < |d|
    ensures out + Filled([g] + rest, d) == out + g.separator + d[..g.size] + Filled(rest, d[g.size..])
  {
    Peel(out, g, rest, d);
    Associate(out, g.separator, d[..g.size]);
  }

  lemma LastGroup(out: string, d: string)
    requires |d| == 2
    ensures out + Filled(LAST_PAIR, d) == out + "-" + d
  {
    LastPeel(out, d);
    Associate(out, "-", d);
  }

  /**
   The script takes the national digits the normaliser takes, exactly unless ten bare digits start
   with 7 or 8: there it drops the first, as if it were the country code.
   */
  lemma FormAgreesExactly(raw: string)
    requires NationalNumber(raw).Some?
    ensures NationalDigits(raw) == NationalNumber(raw).value <==>
              var d := Keep(raw, c => IsDigit(c)); |d| == 11 || (d[0] != '7' && d[0] != '8')
  {
  }

  /** Formatting what the script has formatted changes nothing, so the input handler settles. */
  lemma FormatIsIdempotent(raw: string)
    ensures Formatted(NationalDigits(Formatted(NationalDigits(raw)))) == Formatted(NationalDigits(raw))
  {
    var d := NationalDigits(raw);
    NationalDigitsAreDigits(raw);
    if d != [] {
      DigitsOfFormatted(d);
      assert ("7" + d)[1..] == d;
    }
  }
}
