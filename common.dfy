/** Shared vocabulary of the backend model: optional values, request bodies,
    handler replies, and the sequence queries every table lookup is built from. */
module Common {

  datatype Option<T> = None | Some(value: T) {
    function GetOr(default: T): T {
      if Some? then value else default
    }
  }

  /** A JSON request body whose values are strings or null; a missing key is absent. */
  type Request = map<string, Option<string>>

  /** Python truthiness of `data.get(key)` for a string field. */
  predicate Present(req: Request, key: string) {
    key in req && req[key].Some? && req[key].value != ""
  }

  /** `data.get(key)`: the value, or None when the key is absent. */
  function Lookup(req: Request, key: string): Option<string> {
    if key in req then req[key] else None
  }

  /** Truthiness of an optional string (None and "" are falsy). */
  predicate TruthyStr(o: Option<string>) {
    o.Some? && o.value != ""
  }

  /** Truthiness of an optional integer (None and 0 are falsy). */
  predicate TruthyInt(o: Option<int>) {
    o.Some? && o.value != 0
  }

  /** Why a handler answered the way it did; the HTTP status travels beside it. */
  datatype Reason =
    | Done
    | Created(id: nat)
    | MissingInput
    | MissingField(field: string)
    | AlreadyExists(field: string)
    | NotFound
    | Expired
    | InvalidCode
    | Locked(retryAfter: nat)
    | TooManyRequests
    | BadCredentials
    | DeliveryFailed
    | Forbidden
    | CommitFailed
    /** An exception raised inside the handler and answered by its `except` clause. */
    | Failed

  datatype Reply = Reply(status: nat, reason: Reason)

  /** Index of the first element satisfying `p` (a query's `.first()` in table order). */
  function FirstIndex<T>(s: seq<T>, p: T -> bool): (r: Option<nat>)
    ensures r.None? <==> forall i :: 0 <= i < |s| ==> !p(s[i])
    ensures r.Some? ==> r.value < |s| && p(s[r.value])
    ensures r.Some? ==> forall j :: 0 <= j < r.value ==> !p(s[j])
  {
    if s == [] then None
    else if p(s[0]) then Some(0)
    else match FirstIndex(s[1..], p)
      case None => None
      case Some(i) => Some(i + 1)
  }

  /** The elements of `s` satisfying `p`, in order (a query's `.filter(...).all()`). */
  function Filter<T(!new)>(s: seq<T>, p: T -> bool): (r: seq<T>)
    ensures |r| <= |s|
  {
    if s == [] then []
    else
      var init, last := s[..|s| - 1], s[|s| - 1];
      assert s == init + [last];
      Filter(init, p) + (if p(last) then [last] else [])
  }

  /** A filter keeps exactly the elements that pass it. */
  lemma {:induction false} FilterMembers<T(!new)>(s: seq<T>, p: T -> bool)
    ensures forall x :: x in Filter(s, p) <==> x in s && p(x)
  {
    if s != [] {
      var init, last := s[..|s| - 1], s[|s| - 1];
      assert s == init + [last];
      FilterMembers(init, p);
    }
  }

  /** Appending one row changes a filter by at most that row. */
  lemma FilterAppend<T(!new)>(s: seq<T>, x: T, p: T -> bool)
    ensures Filter(s + [x], p) == Filter(s, p) + (if p(x) then [x] else [])
  {
    assert (s + [x])[..|s|] == s;
  }

  /** A filter every element passes keeps the whole sequence. */
  lemma {:induction false} FilterAll<T(!new)>(s: seq<T>, p: T -> bool)
    requires forall i :: 0 <= i < |s| ==> p(s[i])
    ensures Filter(s, p) == s
  {
    if s != [] {
      var init, last := s[..|s| - 1], s[|s| - 1];
      assert forall i :: 0 <= i < |init| ==> init[i] == s[i];
      FilterAll(init, p);
      assert s == init + [last];
      FilterAppend(init, last, p);
    }
  }

  /** A filter no element passes leaves nothing. */
  lemma {:induction false} FilterNone<T(!new)>(s: seq<T>, p: T -> bool)
    requires forall i :: 0 <= i < |s| ==> !p(s[i])
    ensures Filter(s, p) == []
  {
    if s != [] {
      FilterNone(s[..|s| - 1], p);
    }
  }

  function Negate<T>(p: T -> bool): T -> bool {
    x => !p(x)
  }

  /** A filter and its complement split a sequence between them. */
  lemma {:induction false} PartitionCount<T(!new)>(s: seq<T>, p: T -> bool)
    ensures |Filter(s, Negate(p))| + |Filter(s, p)| == |s|
  {
    if s != [] {
      PartitionCount(s[..|s| - 1], p);
    }
  }

  /** Removing one row changes the count of a filter by one exactly when the row passes it. */
  lemma {:induction false} FilterRemove<T(!new)>(s: seq<T>, i: nat, p: T -> bool)
    requires i < |s|
    ensures |Filter(s[..i] + s[i + 1..], p)| == |Filter(s, p)| - (if p(s[i]) then 1 else 0)
  {
    var before, after := s[..i], s[i + 1..];
    assert s == (before + [s[i]]) + after;
    FilterConcat(before + [s[i]], after, p);
    FilterAppend(before, s[i], p);
    FilterConcat(before, after, p);
  }

  /** A filter of two sequences joined is the two filters joined. */
  lemma {:induction false} FilterConcat<T(!new)>(a: seq<T>, b: seq<T>, p: T -> bool)
    ensures Filter(a + b, p) == Filter(a, p) + Filter(b, p)
    decreases |b|
  {
    if b == [] {
      assert a + b == a;
    } else {
      var b', y := b[..|b| - 1], b[|b| - 1];
      assert b == b' + [y];
      assert a + b == (a + b') + [y];
      FilterConcat(a, b', p);
      FilterAppend(a + b', y, p);
      FilterAppend(b', y, p);
    }
  }

  /** 0001-01-01T00:00:00 and 9999-12-31T23:59:59, the range of a Python datetime, in
      seconds since 1970-01-01T00:00:00. */
  const MinDatetime: int := -62135596800
  const MaxDatetime: int := 253402300799

  predicate InDatetimeRange(seconds: int) {
    MinDatetime <= seconds <= MaxDatetime
  }

  predicate IsDigit(c: char) {
    '0' <= c <= '9'
  }

  function DigitChar(d: nat): (c: char)
    requires d < 10
    ensures IsDigit(c) && c as int - '0' as int == d
  {
    ('0' as int + d) as char
  }

  function DigitValue(c: char): (d: nat)
    requires IsDigit(c)
    ensures d < 10
  {
    c as int - '0' as int
  }

  /** Python's `str(n)` for a natural number. */
  function Decimal(n: nat): (s: string)
    ensures |s| >= 1
    ensures forall i :: 0 <= i < |s| ==> IsDigit(s[i])
  {
    if n < 10 then [DigitChar(n)] else Decimal(n / 10) + [DigitChar(n % 10)]
  }

  /** Python's `int(s)` for a non-empty string of ASCII digits. */
  function ParseDecimal(s: string): nat
    requires forall i :: 0 <= i < |s| ==> IsDigit(s[i])
  {
    if s == [] then 0 else ParseDecimal(s[..|s| - 1]) * 10 + DigitValue(s[|s| - 1])
  }

  /** Reading back a printed number yields the number. */
  lemma {:induction false} DecimalRoundTrip(n: nat)
    ensures ParseDecimal(Decimal(n)) == n
  {
    var s := Decimal(n);
    if n >= 10 {
      DecimalRoundTrip(n / 10);
      assert s[..|s| - 1] == Decimal(n / 10);
    }
  }

  function Pow10(k: nat): (p: nat)
    ensures p >= 1
  {
    if k == 0 then 1 else 10 * Pow10(k - 1)
  }

  /** A number with exactly k decimal digits prints as k characters. */
  lemma {:induction false} DecimalLength(n: nat, k: nat)
    requires k >= 1 && Pow10(k - 1) <= n < Pow10(k)
    ensures |Decimal(n)| == k
  {
    if k > 1 {
      assert Pow10(k - 1) == 10 * Pow10(k - 2);
      assert Pow10(k) == 10 * Pow10(k - 1);
      DecimalLength(n / 10, k - 1);
    }
  }
}
