/**
 * String helpers the JavaScript code gets from its runtime: the decimal form
 * of a number (`'' + n`, `n.toString()`), the first occurrence of a
 * substring (`split(sep)[0]`), and `split('/')` / `join('/')`.
 */
module Text {
  import opened Wrappers

  // ---------------------------------------------------------------------
  // Decimal numerals
  // ---------------------------------------------------------------------

  predicate IsDigit(c: char) { '0' <= c <= '9' }

  predicate AllDigits(s: string) { forall i | 0 <= i < |s| :: IsDigit(s[i]) }

  function DigitChar(d: nat): (c: char)
    requires d < 10
    ensures IsDigit(c) && (c as int) - ('0' as int) == d
  {
    (('0' as int) + d) as char
  }

  /** The decimal numeral of a natural number, without leading zeros. */
  function NatToDecimal(n: nat): (s: string)
    ensures |s| >= 1 && AllDigits(s)
    decreases n
  {
    if n < 10 then [DigitChar(n)] else NatToDecimal(n / 10) + [DigitChar(n % 10)]
  }

  /** JavaScript's decimal form of an integer: a minus sign for negatives. */
  function IntToDecimal(n: int): (s: string)
  {
    if n < 0 then "-" + NatToDecimal(-n) else NatToDecimal(n)
  }

  /** The value of a string of digits, most significant first. */
  function DigitsValue(s: string): nat
    requires AllDigits(s)
  {
    if s == [] then 0
    else DigitsValue(s[..|s| - 1]) * 10 + ((s[|s| - 1] as int) - ('0' as int))
  }

  /** Reads back an optionally signed, non-empty string of digits. */
  function ParseDecimal(s: string): Option<int>
  {
    if |s| >= 2 && s[0] == '-' && AllDigits(s[1..]) then Some(0 - DigitsValue(s[1..]))
    else if |s| >= 1 && AllDigits(s) then Some(DigitsValue(s))
    else None
  }

  lemma {:induction false} NatToDecimalValue(n: nat)
    ensures DigitsValue(NatToDecimal(n)) == n
    decreases n
  {
    var s := NatToDecimal(n);
    if n >= 10 {
      NatToDecimalValue(n / 10);
      assert s[..|s| - 1] == NatToDecimal(n / 10);
    }
  }

  /** Reading back the decimal form of any integer gives that integer. */
  lemma DecimalRoundTrip(n: int)
    ensures ParseDecimal(IntToDecimal(n)) == Some(n)
  {
    if n < 0 {
      NatToDecimalValue(-n);
      assert IntToDecimal(n)[1..] == NatToDecimal(-n);
    } else {
      NatToDecimalValue(n);
    }
  }

  // ---------------------------------------------------------------------
  // Substring search
  // ---------------------------------------------------------------------

  predicate OccursAt(s: string, pat: string, j: int)
  {
    0 <= j && j + |pat| <= |s| && s[j..j + |pat|] == pat
  }

  /** The first index at or after `from` where `pat` occurs in `s`. */
  function IndexFrom(s: string, pat: string, from: nat): (r: Option<nat>)
    ensures r.Some? ==> from <= r.value && OccursAt(s, pat, r.value)
    ensures r.Some? ==> forall j | from <= j < r.value :: !OccursAt(s, pat, j)
    ensures r.None? ==> forall j | from <= j :: !OccursAt(s, pat, j)
    decreases |s| - from
  {
    if from + |pat| > |s| then None
    else if s[from..from + |pat|] == pat then Some(from)
    else IndexFrom(s, pat, from + 1)
  }

  /** The first index where `pat` occurs in `s`, as `indexOf` gives it. */
  function IndexOf(s: string, pat: string): (r: Option<nat>)
    ensures r.Some? ==> OccursAt(s, pat, r.value)
    ensures r.Some? ==> forall j | 0 <= j < r.value :: !OccursAt(s, pat, j)
    ensures r.None? ==> forall j :: !OccursAt(s, pat, j)
  {
    IndexFrom(s, pat, 0)
  }

  /** `s.split(sep)[0]`: the part of `s` before the first `sep`, or all of `s`. */
  function BeforeFirst(s: string, sep: string): (h: string)
    ensures h <= s
    ensures IndexOf(s, sep).None? ==> h == s
    ensures IndexOf(s, sep).Some? ==> OccursAt(s, sep, |h|) && forall j | 0 <= j < |h| :: !OccursAt(s, sep, j)
    ensures |sep| > 0 ==> IndexOf(h, sep).None?
  {
    match IndexOf(s, sep)
    case None => s
    case Some(i) =>
      assert |sep| > 0 ==> forall j | OccursAt(s[..i], sep, j) :: OccursAt(s, sep, j) && j < i by {
        forall j | OccursAt(s[..i], sep, j) ensures OccursAt(s, sep, j) {
          assert s[..i][j..j + |sep|] == s[j..j + |sep|];
        }
      }
      s[..i]
  }

  // ---------------------------------------------------------------------
  // split('/') and join('/')
  // ---------------------------------------------------------------------

  predicate NoSlash(s: string) { forall i | 0 <= i < |s| :: s[i] != '/' }

  /** `s.split('/')`: never empty; "" splits to [""], "a//b" to ["a", "", "b"]. */
  function Split(s: string): (parts: seq<string>)
    ensures |parts| >= 1
    ensures forall k | 0 <= k < |parts| :: NoSlash(parts[k])
  {
    if s == [] then [""]
    else
      var rest := Split(s[1..]);
      if s[0] == '/' then [""] + rest
      else [[s[0]] + rest[0]] + rest[1..]
  }

  /** `parts.join('/')`. */
  function Join(parts: seq<string>): string
  {
    if |parts| == 0 then ""
    else if |parts| == 1 then parts[0]
    else parts[0] + "/" + Join(parts[1..])
  }

  /** Splitting on '/' and joining with '/' gives the string back. */
  lemma {:induction false} JoinSplit(s: string)
    ensures Join(Split(s)) == s
  {
    if s != [] {
      var rest := Split(s[1..]);
      JoinSplit(s[1..]);
      if s[0] == '/' {
        assert s == "/" + s[1..];
      } else {
        var parts := [[s[0]] + rest[0]] + rest[1..];
        if |rest| == 1 {
          assert s == [s[0]] + s[1..];
        } else {
          assert parts[1..] == rest[1..];
          assert Join(rest) == rest[0] + "/" + Join(rest[1..]);
        }
      }
    }
  }

  /** Joining slash-free parts and splitting again gives the parts back. */
  lemma {:induction false} SplitJoin(parts: seq<string>)
    requires |parts| >= 1
    requires forall k | 0 <= k < |parts| :: NoSlash(parts[k])
    ensures Split(Join(parts)) == parts
    decreases |parts|, |parts[0]|
  {
    var p := parts[0];
    if |parts| == 1 {
      SplitNoSlash(p);
    } else if p == [] {
      var tail := parts[1..];
      SplitJoin(tail);
      assert Join(parts) == "/" + Join(tail);
      assert ("/" + Join(tail))[1..] == Join(tail);
    } else {
      var shorter := [p[1..]] + parts[1..];
      SplitJoin(shorter);
      assert Join(parts) == [p[0]] + Join(shorter) by {
        assert Join(shorter) == p[1..] + "/" + Join(parts[1..]);
        assert shorter[1..] == parts[1..];
      }
      assert ([p[0]] + Join(shorter))[1..] == Join(shorter);
      assert [p[0]] + shorter[0] == p;
      assert shorter[1..] == parts[1..];
    }
  }

  lemma {:induction false} SplitNoSlash(p: string)
    requires NoSlash(p)
    ensures Split(p) == [p]
  {
    if p != [] {
      SplitNoSlash(p[1..]);
      assert [p[0]] + p[1..] == p;
    }
  }

  /** Joining two non-empty runs of parts puts one '/' between their joins. */
  lemma {:induction false} JoinAppend(a: seq<string>, b: seq<string>)
    requires |a| >= 1 && |b| >= 1
    ensures Join(a + b) == Join(a) + "/" + Join(b)
    decreases |a|
  {
    if |a| == 1 {
      assert (a + b)[1..] == b;
    } else {
      JoinAppend(a[1..], b);
      assert (a + b)[1..] == a[1..] + b;
    }
  }
}
