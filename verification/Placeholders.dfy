/** Store.Q (store.go): numbering the ? placeholders of a query for Postgres. */
module Placeholders {
  import opened Decimal
  import opened Wrappers

  datatype Driver = Sqlite | Postgres

  /** The query from some point on, when n placeholders have been numbered before it. */
  function NumberedFrom(query: string, n: nat): string {
    if query == "" then ""
    else if query[0] == '?' then "$" + FormatNat(n + 1) + NumberedFrom(query[1..], n + 1)
    else [query[0]] + NumberedFrom(query[1..], n)
  }

  method Q(driver: Driver, query: string) returns (out: string)
    ensures driver == Sqlite ==> out == query
    ensures driver == Postgres ==> out == NumberedFrom(query, 0)
  {
    if driver != Postgres {
      return query;
    }
    out := "";
    var n := 0;
    for i := 0 to |query|
      invariant n >= 0
      invariant out + NumberedFrom(query[i..], n) == NumberedFrom(query, 0)
    {
      assert query[i..][1..] == query[i + 1..];
      if query[i] == '?' {
        Associate(out, "$" + FormatNat(n + 1), NumberedFrom(query[i + 1..], n + 1));
        n := n + 1;
        out := out + ("$" + FormatNat(n));
      } else {
        Associate(out, [query[i]], NumberedFrom(query[i + 1..], n));
        out := out + [query[i]];
      }
    }
    assert query[|query|..] == "";
    assert out + NumberedFrom("", n) == out;
  }

  // ---- reading the numbered query back ----------------------------------------------------------

  /** The leading run of digits. */
  function DigitRun(s: string): (d: string)
    ensures |d| <= |s| && AllDigits(d) && s == d + s[|d|..]
    ensures |d| < |s| ==> !IsDigit(s[|d|])
  {
    if s == "" || !IsDigit(s[0]) then "" else [s[0]] + DigitRun(s[1..])
  }

  /** Erase the numbers: every $ with its digits becomes a ? again. */
  function Erased(s: string): string
    decreases |s|
  {
    if s == "" then ""
    else if s[0] == '$' then "?" + Erased(s[1..][|DigitRun(s[1..])|..])
    else [s[0]] + Erased(s[1..])
  }

  /** The numbers after the $ signs, left to right. */
  function Numbers(s: string): seq<nat>
    decreases |s|
  {
    if s == "" then []
    else if s[0] == '$' then [NatValue(DigitRun(s[1..]))] + Numbers(s[1..][|DigitRun(s[1..])|..])
    else Numbers(s[1..])
  }

  function Ascending(first: nat, count: nat): seq<nat>
    decreases count
  {
    if count == 0 then [] else [first] + Ascending(first + 1, count - 1)
  }

  function CountMarks(query: string): nat {
    if query == "" then 0 else (if query[0] == '?' then 1 else 0) + CountMarks(query[1..])
  }

  /** No '$', and no digit right after a '?'. */
  predicate Renumberable(query: string) {
    && (forall i :: 0 <= i < |query| ==> query[i] != '$')
    && (forall i :: 0 <= i < |query| - 1 && query[i] == '?' ==> !IsDigit(query[i + 1]))
  }

  predicate StartsWithDigit(s: string) {
    s != "" && IsDigit(s[0])
  }

  lemma DigitRunOfConcat(d: string, rest: string)
    requires AllDigits(d) && !StartsWithDigit(rest)
    ensures DigitRun(d + rest) == d && (d + rest)[|d|..] == rest
  {
    if d == "" {
      assert d + rest == rest;
    } else {
      DigitRunOfConcat(d[1..], rest);
      assert (d + rest)[1..] == d[1..] + rest;
    }
  }

  lemma StartIsKept(query: string, n: nat)
    ensures StartsWithDigit(NumberedFrom(query, n)) <==> StartsWithDigit(query)
  {
  }

  lemma NumbersOfPlaceholder(n: nat, rest: string)
    requires !StartsWithDigit(rest)
    ensures Erased("$" + FormatNat(n) + rest) == "?" + Erased(rest)
    ensures Numbers("$" + FormatNat(n) + rest) == [n] + Numbers(rest)
  {
    var s := "$" + FormatNat(n) + rest;
    assert s[1..] == FormatNat(n) + rest;
    DigitRunOfConcat(FormatNat(n), rest);
    ValueOfFormat(n);
  }

  lemma RenumberableTail(query: string)
    requires query != ""
    ensures Renumberable(query) <==>
              query[0] != '$' && (query[0] == '?' ==> !StartsWithDigit(query[1..])) && Renumberable(query[1..])
  {
    if query[0] != '$' && (query[0] == '?' ==> !StartsWithDigit(query[1..])) && Renumberable(query[1..]) {
      forall i | 0 <= i < |query| ensures query[i] != '$' {
        assert i > 0 ==> query[i] == query[1..][i - 1];
      }
      forall i | 0 <= i < |query| - 1 && query[i] == '?' ensures !IsDigit(query[i + 1]) {
        assert query[i + 1] == query[1..][i];
        assert i > 0 ==> query[i] == query[1..][i - 1];
      }
    }
    if Renumberable(query) {
      forall i | 0 <= i < |query[1..]| - 1 && query[1..][i] == '?' ensures !IsDigit(query[1..][i + 1]) {
        assert query[i + 1] == '?';
      }
    }
  }

  /** The placeholders of a well-formed query are numbered n + 1, n + 2, and so on, left to right. */
  lemma {:induction false} NumbersCountUp(query: string, n: nat)
    requires Renumberable(query)
    ensures Numbers(NumberedFrom(query, n)) == Ascending(n + 1, CountMarks(query))
  {
    if query != "" {
      RenumberableTail(query);
      if query[0] == '?' {
        NumbersCountUp(query[1..], n + 1);
        StartIsKept(query[1..], n + 1);
        NumbersOfPlaceholder(n + 1, NumberedFrom(query[1..], n + 1));
      } else {
        NumbersCountUp(query[1..], n);
        assert ([query[0]] + NumberedFrom(query[1..], n))[1..] == NumberedFrom(query[1..], n);
      }
    }
  }

  /** After a swallowed digit the erased text never starts with a digit. */
  lemma ErasedAfterRun(s: string)
    ensures !StartsWithDigit(Erased(s[|DigitRun(s)|..]))
  {
  }

  lemma ErasedOfPlaceholder(n: nat, rest: string)
    requires StartsWithDigit(rest)
    ensures Erased("$" + FormatNat(n) + rest) != [] && Erased("$" + FormatNat(n) + rest)[0] == '?'
    ensures !StartsWithDigit(Erased("$" + FormatNat(n) + rest)[1..])
  {
    var s := "$" + FormatNat(n) + rest;
    ErasedAfterRun(s[1..]);
    assert Erased(s)[1..] == Erased(s[1..][|DigitRun(s[1..])|..]);
  }

  /** Erasing the numbers gives the query back exactly when it has no '$' and no digit right after a '?'. */
  lemma {:induction false} ErasingGivesBackExactly(query: string, n: nat)
    ensures Erased(NumberedFrom(query, n)) == query <==> Renumberable(query)
  {
    if query != "" {
      RenumberableTail(query);
      var tail := query[1..];
      assert query == [query[0]] + tail;
      if query[0] == '?' {
        ErasingGivesBackExactly(tail, n + 1);
        StartIsKept(tail, n + 1);
        var rest := NumberedFrom(tail, n + 1);
        if StartsWithDigit(tail) {
          ErasedOfPlaceholder(n + 1, rest);
          assert Erased(NumberedFrom(query, n))[1..] != tail;
        } else {
          NumbersOfPlaceholder(n + 1, rest);
          assert ("?" + Erased(rest))[1..] == Erased(rest);
        }
      } else {
        ErasingGivesBackExactly(tail, n);
        var s := [query[0]] + NumberedFrom(tail, n);
        assert s[1..] == NumberedFrom(tail, n);
        if query[0] == '$' {
          assert Erased(s)[0] == '?';
        } else {
          assert Erased(s)[1..] == Erased(s[1..]);
        }
      }
    }
  }
}
