/**
 * The template helpers and the car sorter of http_interface.js: `stripUrl`,
 * `equals`, `latest`, `money` and `carSorter`.
 *
 * A car row, as the sorter sees it, maps attribute names to integers (the
 * numeric and timestamp columns; a timestamp is its millisecond value).
 */
module DisplayHelpers {
  import opened Wrappers
  import Text

  // ---------------------------------------------------------------------
  // stripUrl
  // ---------------------------------------------------------------------

  /**
   * A url longer than `maxLength` is cut to its first `maxLength`
   * characters (none, for a negative limit, as `substr` clamps) followed by
   * "..."; an empty or short enough url comes back as it is.
   */
  function StripUrl(url: string, maxLength: int): (r: string)
    ensures |url| == 0 || |url| <= maxLength ==> r == url
    ensures 0 < |url| && maxLength < |url| ==>
              && |r| == (if maxLength < 0 then 0 else maxLength) + 3
              && r[..|r| - 3] <= url && r[|r| - 3..] == "..."
    ensures maxLength >= 0 ==> |r| <= maxLength + 3
  {
    if |url| > 0 && |url| > maxLength then
      var keep := if maxLength < 0 then 0 else maxLength;
      url[..keep] + "..."
    else url
  }

  /** A stripped url is left alone by a second strip with the same limit. */
  lemma StripUrlIdempotent(url: string, maxLength: int)
    ensures StripUrl(StripUrl(url, maxLength), maxLength) == StripUrl(url, maxLength)
  {
    if |url| > 0 && |url| > maxLength {
      var keep := if maxLength < 0 then 0 else maxLength;
      var r := url[..keep] + "...";
      assert r[..keep] == url[..keep];
    }
  }

  // ---------------------------------------------------------------------
  // equals and latest
  // ---------------------------------------------------------------------

  /** The block helper `equals`: the block body when the two values are identical, its `else` part otherwise. */
  function EqualsBlock<T(==)>(one: T, two: T, body: string, otherwise: string): (r: string)
    ensures r == body || r == otherwise
    ensures body != otherwise ==> (r == body <==> one == two)
  {
    if one == two then body else otherwise
  }

  /** The order of the two compared values does not matter. */
  lemma EqualsBlockSymmetric<T>(one: T, two: T, body: string, otherwise: string)
    ensures EqualsBlock(one, two, body, otherwise) == EqualsBlock(two, one, body, otherwise)
    ensures EqualsBlock(one, one, body, otherwise) == body
  {
  }

  /**
   * `latest(array, param)`: the attribute of the last element, `None` for
   * `undefined` when it lacks the attribute; an empty array makes the helper
   * throw.
   */
  function Latest<V>(rows: seq<map<string, V>>, param: string): (r: Result<Option<V>, string>)
    ensures r.Failure? <==> |rows| == 0
    ensures |rows| > 0 ==> (r.value.Some? <==> param in rows[|rows| - 1])
    ensures |rows| > 0 && param in rows[|rows| - 1] ==> r.value.value == rows[|rows| - 1][param]
  {
    if |rows| == 0 then Failure("TypeError: Cannot read property of undefined")
    else
      var last := rows[|rows| - 1];
      if param in last then Success(Some(last[param])) else Success(None)
  }

  /** Only the last element matters. */
  lemma LatestOfAppended<V>(rows: seq<map<string, V>>, row: map<string, V>, param: string)
    ensures Latest(rows + [row], param) == Latest([row], param)
  {
  }

  // ---------------------------------------------------------------------
  // money
  // ---------------------------------------------------------------------

  /** What a template hands `money`: a string, an integer, or nothing. */
  datatype Amount = Str(s: string) | Number(n: int) | Absent

  /** The falsy inputs: nothing, the empty string and zero. */
  predicate Falsy(a: Amount)
  {
    a.Absent? || a == Str("") || a == Number(0)
  }

  /** `toString` of a truthy amount. */
  function AmountText(a: Amount): string
  {
    match a
    case Str(s) => s
    case Number(n) => Text.IntToDecimal(n)
    case Absent => ""
  }

  function Reverse(s: string): (r: string)
    ensures |r| == |s|
  {
    seq(|s|, i requires 0 <= i < |s| => s[|s| - 1 - i])
  }

  /**
   * `s` with a space after every character that has a positive multiple of
   * three characters to its right.
   */
  function Group(s: string): (r: string)
    ensures |s| == 0 ==> r == ""
  {
    if |s| <= 1 then s
    else [s[0]] + (if (|s| - 1) % 3 == 0 then " " else "") + Group(s[1..])
  }

  /** Grouping keeps the first character and adds one space per full group of three after it. */
  lemma {:induction false} GroupLength(s: string)
    ensures |s| > 0 ==> |Group(s)| == |s| + (|s| - 1) / 3 && Group(s)[0] == s[0]
    decreases |s|
  {
    if |s| > 1 {
      var n := |s| - 1;
      GroupLength(s[1..]);
      GroupUnfold(s);
      var k := (n - 1) / 3;
      Div3(n - 1, k);
      if n - 1 == 3 * k + 2 {
        Div3(n, k + 1);
      } else {
        Div3(n, k);
      }
    }
  }

  /**
   * `money`: falsy input gives the empty string; otherwise the characters of
   * its string form are reversed, a space is pushed before every third one
   * after the first, and the result is reversed back.
   */
  method Money(amount: Amount) returns (r: string)
    ensures Falsy(amount) ==> r == ""
    ensures !Falsy(amount) ==> r == Group(AmountText(amount))
  {
    if Falsy(amount) {
      return "";
    }
    var s := AmountText(amount);
    var chars := Reverse(s);
    var acc: string := [];
    var i := 0;
    while i < |chars|
      invariant 0 <= i <= |chars|
      invariant acc == Pushed(s, i)
    {
      MoneyStep(s, i);
      if i > 0 && i % 3 == 0 {
        acc := acc + [' '];
      }
      acc := acc + [chars[i]];
      i := i + 1;
    }
    assert s[|s| - i..] == s;
    ReverseTwice(Group(s));
    r := Reverse(acc);
  }

  lemma ReverseTwice(s: string)
    ensures Reverse(Reverse(s)) == s
  {
  }

  /** The accumulator of the reduce after the last `i` characters of `s`: their grouping, reversed. */
  function Pushed(s: string, i: int): string
    requires 0 <= i <= |s|
  {
    Reverse(Group(s[|s| - i..]))
  }

  /** One step of the reduce: the next character from the right, after a space when three or a multiple of three have gone before. */
  lemma MoneyStep(s: string, i: int)
    requires 0 <= i < |s|
    ensures Pushed(s, i + 1) == Pushed(s, i) + (if i > 0 && i % 3 == 0 then " " else "") + [Reverse(s)[i]]
  {
    var suffix := s[|s| - (i + 1)..];
    assert suffix == [s[|s| - 1 - i]] + s[|s| - i..];
    assert suffix[1..] == s[|s| - i..];
    ReverseCons(s[|s| - 1 - i], if i > 0 && i % 3 == 0 then " " else "", Group(s[|s| - i..]));
  }

  lemma ReverseCons(c: char, sp: string, g: string)
    requires |sp| <= 1
    ensures Reverse([c] + sp + g) == Reverse(g) + sp + [c]
  {
    var lhs, rhs := Reverse([c] + sp + g), Reverse(g) + sp + [c];
    assert |lhs| == |rhs|;
    forall k | 0 <= k < |lhs| ensures lhs[k] == rhs[k] {
      if k < |g| {
      } else if k < |g| + |sp| {
      } else {
      }
    }
  }

  function RemoveSpaces(s: string): (r: string)
    ensures forall k | 0 <= k < |r| :: r[k] != ' '
  {
    if |s| == 0 then ""
    else (if s[0] == ' ' then "" else [s[0]]) + RemoveSpaces(s[1..])
  }

  lemma {:induction false} RemoveSpacesAppend(a: string, b: string)
    ensures RemoveSpaces(a + b) == RemoveSpaces(a) + RemoveSpaces(b)
    decreases |a|
  {
    if |a| > 0 {
      var head := if a[0] == ' ' then "" else [a[0]];
      assert (a + b)[0] == a[0];
      assert (a + b)[1..] == a[1..] + b;
      RemoveSpacesAppend(a[1..], b);
      calc {
        RemoveSpaces(a + b);
        head + RemoveSpaces(a[1..] + b);
        head + (RemoveSpaces(a[1..]) + RemoveSpaces(b));
        (head + RemoveSpaces(a[1..])) + RemoveSpaces(b);
      }
    } else {
      assert a + b == b;
    }
  }

  /** Deleting the spaces from the grouped string gives back the string (without its own spaces). */
  lemma {:induction false} GroupRemoveSpaces(s: string)
    ensures RemoveSpaces(Group(s)) == RemoveSpaces(s)
    decreases |s|
  {
    if |s| > 1 {
      var sp := if (|s| - 1) % 3 == 0 then " " else "";
      RemoveSpacesAppend([s[0]] + sp, Group(s[1..]));
      RemoveSpacesAppend([s[0]], sp);
      RemoveSpacesAppend([s[0]], s[1..]);
      assert [s[0]] + s[1..] == s;
      GroupRemoveSpaces(s[1..]);
    }
  }

  /**
   * Counted from the right, every fourth character of the grouped string is
   * a space and the others are the characters of `s` in order: groups of
   * three, with one to three characters left at the front. Position
   * `4 * q + r` from the right (`r < 4`) is a space when `r == 3`, and
   * otherwise character `3 * q + r` of `s` from the right.
   */
  lemma {:induction false} GroupLayout(s: string, q: int, r: int)
    requires 0 <= r < 4 && 0 <= 4 * q + r < |Group(s)|
    ensures r == 3 ==> FromRight(Group(s), 4 * q + r) == ' '
    ensures r != 3 ==> 3 * q + r < |s| && FromRight(Group(s), 4 * q + r) == FromRight(s, 3 * q + r)
    decreases |s|
  {
    if |s| > 1 {
      var t := s[1..];
      if 4 * q + r < |Group(t)| {
        GroupLayout(t, q, r);
        GroupShift(s, 4 * q + r);
        if r != 3 {
          assert FromRight(t, 3 * q + r) == FromRight(s, 3 * q + r);
        }
      } else {
        GroupHead(s, q, r);
      }
    }
  }

  lemma GroupUnfold(s: string)
    requires |s| > 1
    ensures Group(s) == [s[0]] + (if (|s| - 1) % 3 == 0 then " " else "") + Group(s[1..])
  {
  }

  /** Below the first character and its space, the grouping of `s` ends with that of `s[1..]`. */
  lemma GroupShift(s: string, j: int)
    requires |s| > 1 && 0 <= j < |Group(s[1..])|
    ensures j < |Group(s)| && FromRight(Group(s), j) == FromRight(Group(s[1..]), j)
  {
    GroupUnfold(s);
    IndexFromRight(Group(s), [s[0]] + (if (|s| - 1) % 3 == 0 then " " else ""), Group(s[1..]), j);
  }

  /** Counted from the right, a concatenation indexes like its right part. */
  lemma IndexFromRight(g: string, a: string, b: string, j: int)
    requires g == a + b && 0 <= j < |b|
    ensures j < |g| && FromRight(g, j) == FromRight(b, j)
  {
  }

  /** Character `k` of `s` counted from the right, from 0. */
  function FromRight(s: string, k: int): char
    requires 0 <= k < |s|
  {
    s[|s| - 1 - k]
  }

  /**
   * The top of the grouping: the first character of `s`, after a space when
   * the `n = |s| - 1` characters to its right fill whole groups of three.
   */
  lemma GroupHead(s: string, q: int, r: int)
    requires |s| > 1 && 0 <= r < 4 && |Group(s[1..])| <= 4 * q + r < |Group(s)|
    ensures r == 3 ==> FromRight(Group(s), 4 * q + r) == ' '
    ensures r != 3 ==> 3 * q + r < |s| && FromRight(Group(s), 4 * q + r) == FromRight(s, 3 * q + r)
  {
    var n := |s| - 1;
    GroupLength(s[1..]);
    var k := |Group(s[1..])| - n;
    Div3(n - 1, (n - 1) / 3);
    GroupUnfold(s);
    if n == 3 * k + 3 {
      Div3(n, k + 1);
    } else {
      Div3(n, k);
    }
  }

  lemma Div3(a: int, q: int)
    requires 3 * q <= a < 3 * q + 3
    ensures a / 3 == q && a % 3 == a - 3 * q
  {
  }

  // ---------------------------------------------------------------------
  // carSorter
  // ---------------------------------------------------------------------

  /**
   * The direction after `carSorter`'s reassignments: a non-numeric value
   * (`None`) becomes 1, then 0 becomes -1 and anything else 1.
   */
  function Direction(parsed: Option<int>): (d: int)
    ensures d == -1 <==> parsed == Some(0)
    ensures d == 1 || d == -1
  {
    var direction := if parsed.None? then 1 else parsed.value;
    if direction == 0 then -1 else 1
  }

  /** The sort attribute: `createdAt` when no `orderby` is given. */
  function SortKey(orderBy: Option<string>): (key: string)
    ensures orderBy.None? || orderBy == Some("") ==> key == "createdAt"
    ensures orderBy.Some? && orderBy != Some("") ==> key == orderBy.value
  {
    if orderBy.None? || orderBy.value == "" then "createdAt" else orderBy.value
  }

  predicate HasKey(rows: seq<map<string, int>>, key: string)
  {
    forall i | 0 <= i < |rows| :: key in rows[i]
  }

  /**
   * The comparator `direction * (car2[key] - car1[key])` orders `rows`:
   * no row compares after a row behind it.
   */
  predicate Ordered(rows: seq<map<string, int>>, key: string, dir: int)
    requires HasKey(rows, key)
  {
    OrderedBelow(rows, |rows|, key, dir)
  }

  /** Direction 1 orders by non-increasing value, direction -1 by non-decreasing value. */
  lemma OrderedByDirection(rows: seq<map<string, int>>, key: string)
    requires HasKey(rows, key)
    ensures Ordered(rows, key, 1) <==> forall i, j | 0 <= i < j < |rows| :: rows[i][key] >= rows[j][key]
    ensures Ordered(rows, key, -1) <==> forall i, j | 0 <= i < j < |rows| :: rows[i][key] <= rows[j][key]
  {
  }

  /**
   * `carSorter`: the same array, reordered in place into a permutation of
   * itself that the comparator orders.
   */
  method CarSorter(orderBy: Option<string>, direction: Option<int>, cars: array<map<string, int>>)
    returns (sorted: array<map<string, int>>)
    requires HasKey(cars[..], SortKey(orderBy))
    modifies cars
    ensures sorted == cars
    ensures multiset(cars[..]) == multiset(old(cars[..]))
    ensures HasKey(cars[..], SortKey(orderBy)) && Ordered(cars[..], SortKey(orderBy), Direction(direction))
  {
    var key := SortKey(orderBy);
    var dir := Direction(direction);
    var i := 0;
    while i < cars.Length
      invariant 0 <= i <= cars.Length
      invariant multiset(cars[..]) == multiset(old(cars[..]))
      invariant HasKey(cars[..], key) && OrderedBelow(cars[..], i, key, dir)
    {
      InsertAt(cars, i, key, dir);
      i := i + 1;
    }
    sorted := cars;
  }

  /** The rows before `n` are in comparator order. */
  predicate OrderedBelow(rows: seq<map<string, int>>, n: int, key: string, dir: int)
    requires HasKey(rows, key) && n <= |rows|
  {
    forall p, q | 0 <= p < q < n :: dir * rows[p][key] >= dir * rows[q][key]
  }

  /** One step of the insertion sort: the element at `i` sinks into the ordered prefix before it. */
  method InsertAt(cars: array<map<string, int>>, i: int, key: string, dir: int)
    requires 0 <= i < cars.Length && HasKey(cars[..], key) && OrderedBelow(cars[..], i, key, dir)
    modifies cars
    ensures multiset(cars[..]) == multiset(old(cars[..])) && HasKey(cars[..], key)
    ensures OrderedBelow(cars[..], i + 1, key, dir)
    ensures cars[i + 1..] == old(cars[i + 1..])
  {
    var j := i;
    SinkStart(cars[..], i, key, dir);
    while j > 0 && dir * cars[j - 1][key] < dir * cars[j][key]
      invariant 0 <= j <= i
      invariant multiset(cars[..]) == multiset(old(cars[..])) && HasKey(cars[..], key)
      invariant cars[i + 1..] == old(cars[i + 1..])
      invariant Sinking(cars[..], i, j, key, dir)
    {
      ghost var before := cars[..];
      cars[j - 1], cars[j] := cars[j], cars[j - 1];
      SwapSinks(before, cars[..], i, j, key, dir);
      j := j - 1;
    }
    SinkDone(cars[..], i, j, key, dir);
  }

  /**
   * Rows 0..i are ordered except for the row at j, which runs strictly
   * ahead of every row after it up to i.
   */
  predicate Sinking(rows: seq<map<string, int>>, i: int, j: int, key: string, dir: int)
    requires HasKey(rows, key) && 0 <= j <= i < |rows|
  {
    && (forall p, q | 0 <= p < q <= i && p != j && q != j :: dir * rows[p][key] >= dir * rows[q][key])
    && (forall q | j < q <= i :: dir * rows[j][key] > dir * rows[q][key])
  }

  lemma SinkStart(rows: seq<map<string, int>>, i: int, key: string, dir: int)
    requires HasKey(rows, key) && 0 <= i < |rows| && OrderedBelow(rows, i, key, dir)
    ensures Sinking(rows, i, i, key, dir)
  {
  }

  lemma SinkDone(rows: seq<map<string, int>>, i: int, j: int, key: string, dir: int)
    requires HasKey(rows, key) && 0 <= j <= i < |rows| && Sinking(rows, i, j, key, dir)
    requires j == 0 || dir * rows[j - 1][key] >= dir * rows[j][key]
    ensures OrderedBelow(rows, i + 1, key, dir)
  {
  }

  lemma SwapSinks(before: seq<map<string, int>>, after: seq<map<string, int>>, i: int, j: int, key: string, dir: int)
    requires HasKey(before, key) && 0 < j <= i < |before| && Sinking(before, i, j, key, dir)
    requires dir * before[j - 1][key] < dir * before[j][key]
    requires after == before[j - 1 := before[j]][j := before[j - 1]]
    ensures multiset(after) == multiset(before) && HasKey(after, key) && Sinking(after, i, j - 1, key, dir)
  {
  }
}
