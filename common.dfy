/// Values and string helpers shared by the route handlers, the middleware and
/// the FIPE caches: results with an error message, the JSON values that travel
/// in request bodies and SQL parameters, JavaScript's `split`/`join` on one
/// character, and the decimal rendering Postgres placeholders (`$1`, `$2`, ...)
/// are written with.
module Common {

  datatype Option<+T> = None | Some(value: T)

  /** A value, or the message of the error that was thrown instead. */
  datatype Result<+T> = Ok(value: T) | Err(error: string)

  /** The outcome of a request to an upstream HTTP API: the response body, or
      the message of the error the client threw. */
  datatype Fetch<+T> = Fetched(data: T) | FetchFailed(message: string)

  /** JSON as it arrives in a request body, a query string or an upstream
      response, and as it is handed to the database as a parameter.
      Integral numbers are `JNum`; `JFloat(text)` stands for a number with a
      non-zero fractional part, written as its decimal text. */
  datatype Json =
    | JNull
    | JBool(b: bool)
    | JNum(n: int)
    | JFloat(text: string)
    | JStr(s: string)
    | JArray(items: seq<Json>)
    | JObject(fields: seq<(string, Json)>)

  /** JavaScript truthiness: `null`, `false`, `0` and `""` are falsy, every
      array and object is truthy. A `JFloat` is never zero, so it is
      truthy. */
  predicate Truthy(j: Json) {
    match j
    case JNull => false
    case JBool(b) => b
    case JNum(n) => n != 0
    case JFloat(_) => true
    case JStr(s) => s != ""
    case JArray(_) => true
    case JObject(_) => true
  }

  /** A query-string or body field is used by `if (field)`: present and not empty. */
  predicate Given(o: Option<string>) {
    o.Some? && o.value != ""
  }

  function Min(a: int, b: int): int {
    if a <= b then a else b
  }

  /** The elements of `s` that `keep` accepts, in order (a `WHERE` clause or
      `Array.filter`). */
  function Filter<T(!new)>(s: seq<T>, keep: T -> bool): (r: seq<T>)
    ensures |r| <= |s|
    ensures forall x :: x in r <==> x in s && keep(x)
    decreases |s|
  {
    if s == [] then []
    else
      assert s == [s[0]] + s[1..];
      (if keep(s[0]) then [s[0]] else []) + Filter(s[1..], keep)
  }

  /** Filtering keeps the order: filtering a concatenation filters each part
      and concatenates the results. */
  lemma {:induction false} FilterConcat<T(!new)>(a: seq<T>, b: seq<T>, keep: T -> bool)
    ensures Filter(a + b, keep) == Filter(a, keep) + Filter(b, keep)
    decreases |a|
  {
    if a == [] {
      assert a + b == b;
    } else {
      assert (a + b)[0] == a[0] && (a + b)[1..] == a[1..] + b;
      FilterConcat(a[1..], b, keep);
    }
  }

  /** Filters that agree on every element keep the same elements. */
  lemma {:induction false} FilterAgreeing<T(!new)>(s: seq<T>, p: T -> bool, q: T -> bool)
    requires forall x :: x in s ==> p(x) == q(x)
    ensures Filter(s, p) == Filter(s, q)
    decreases |s|
  {
    if s != [] {
      assert s == [s[0]] + s[1..];
      FilterAgreeing(s[1..], p, q);
    }
  }

  /** The first element `p` accepts (`rows[0]` of a `SELECT ... WHERE`), if any. */
  function Find<T(!new)>(s: seq<T>, p: T -> bool): (r: Option<T>)
    ensures r.Some? ==> r.value in s && p(r.value)
    ensures r.None? <==> forall x :: x in s ==> !p(x)
    decreases |s|
  {
    if s == [] then None
    else if p(s[0]) then Some(s[0])
    else
      assert s == [s[0]] + s[1..];
      Find(s[1..], p)
  }

  /** An element appended after no match is the first match. */
  lemma {:induction false} FindAfterNoMatch<T(!new)>(s: seq<T>, x: T, p: T -> bool)
    requires Find(s, p).None? && p(x)
    ensures Find(s + [x], p) == Some(x)
    decreases |s|
  {
    if s != [] {
      assert (s + [x])[1..] == s[1..] + [x];
      FindAfterNoMatch(s[1..], x, p);
    }
  }

  // ---------------------------------------------------------------------------
  // String.prototype.split with a one-character separator, and Array.join

  /** `s.split(sep)`: every separator ends a field; empty fields are kept, so
      the result always has at least one field and no field holds `sep`. */
  function Split(s: string, sep: char): (parts: seq<string>)
    ensures |parts| >= 1
    ensures forall i :: 0 <= i < |parts| ==> sep !in parts[i]
    decreases |s|
  {
    if s == [] then [""]
    else
      var rest := Split(s[1..], sep);
      if s[0] == sep then [""] + rest
      else [[s[0]] + rest[0]] + rest[1..]
  }

  /** `parts.join(sep)`; the join of no parts is the empty string. */
  function Join(parts: seq<string>, sep: string): string
    decreases |parts|
  {
    if |parts| == 0 then ""
    else if |parts| == 1 then parts[0]
    else parts[0] + sep + Join(parts[1..], sep)
  }

  /** Joining the fields of a split with the separator gives back the string. */
  lemma {:induction false} JoinSplit(s: string, sep: char)
    ensures Join(Split(s, sep), [sep]) == s
    decreases |s|
  {
    if s != [] {
      var rest := Split(s[1..], sep);
      JoinSplit(s[1..], sep);
      if s[0] == sep {
        assert ([""] + rest)[1..] == rest;
        assert Join([""] + rest, [sep]) == [sep] + Join(rest, [sep]);
        assert s == [s[0]] + s[1..];
      } else {
        var parts := [[s[0]] + rest[0]] + rest[1..];
        if |rest| == 1 {
          assert parts == [[s[0]] + rest[0]];
        } else {
          assert parts[1..] == rest[1..];
          assert Join(rest, [sep]) == rest[0] + [sep] + Join(rest[1..], [sep]);
        }
        assert s == [s[0]] + s[1..];
      }
    }
  }

  /** A string without the separator is one field. */
  lemma {:induction false} SplitWithoutSeparator(s: string, sep: char)
    requires sep !in s
    ensures Split(s, sep) == [s]
    decreases |s|
  {
    if s != [] {
      SplitWithoutSeparator(s[1..], sep);
      assert [s[0]] + s[1..] == s;
    }
  }

  /** A separator after a separator-free prefix ends the first field there. */
  lemma {:induction false} SplitAtSeparator(a: string, b: string, sep: char)
    requires sep !in a
    ensures Split(a + [sep] + b, sep) == [a] + Split(b, sep)
    decreases |a|
  {
    var s := a + [sep] + b;
    if a == [] {
      assert s[1..] == b;
    } else {
      assert s[1..] == a[1..] + [sep] + b;
      SplitAtSeparator(a[1..], b, sep);
      assert [a[0]] + a[1..] == a;
    }
  }

  /** Splitting the join of separator-free fields gives back the fields. */
  lemma {:induction false} SplitJoin(parts: seq<string>, sep: char)
    requires |parts| >= 1
    requires forall i :: 0 <= i < |parts| ==> sep !in parts[i]
    ensures Split(Join(parts, [sep]), sep) == parts
    decreases |parts|
  {
    if |parts| == 1 {
      SplitWithoutSeparator(parts[0], sep);
    } else {
      SplitJoin(parts[1..], sep);
      SplitAtSeparator(parts[0], Join(parts[1..], [sep]), sep);
      assert [parts[0]] + parts[1..] == parts;
    }
  }

  /** A string holds the separator exactly when it splits into two or more fields. */
  lemma SplitCountsSeparators(s: string, sep: char)
    ensures sep in s <==> |Split(s, sep)| >= 2
  {
    var parts := Split(s, sep);
    JoinSplit(s, sep);
    if |parts| == 1 {
      assert s == parts[0];
    } else {
      assert s == parts[0] + [sep] + Join(parts[1..], [sep]);
      assert s[|parts[0]|] == sep;
    }
  }

  // ---------------------------------------------------------------------------
  // Decimal rendering of placeholder numbers

  function DigitChar(d: nat): char
    requires d < 10
  {
    (48 + d) as char
  }

  /** The decimal digits of `n` (template literal `${n}` on a non-negative integer). */
  function NatToString(n: nat): (s: string)
    ensures |s| >= 1
    ensures forall i :: 0 <= i < |s| ==> '0' <= s[i] <= '9'
    decreases n
  {
    if n < 10 then [DigitChar(n)] else NatToString(n / 10) + [DigitChar(n % 10)]
  }

  /** How Postgres reads the number of a `$n` placeholder back from its digits. */
  function ParseNat(s: string): nat
    requires forall i :: 0 <= i < |s| ==> '0' <= s[i] <= '9'
    decreases |s|
  {
    if s == [] then 0 else 10 * ParseNat(s[..|s| - 1]) + (s[|s| - 1] as int - 48)
  }

  /** Placeholder numbers read back as written, so distinct numbers are distinct texts. */
  lemma {:induction false} ParseNatToString(n: nat)
    ensures ParseNat(NatToString(n)) == n
    decreases n
  {
    var s := NatToString(n);
    if n >= 10 {
      ParseNatToString(n / 10);
      assert s[..|s| - 1] == NatToString(n / 10);
    }
  }

  /** The text of placeholder `$n`. */
  function Placeholder(n: nat): string {
    "$" + NatToString(n)
  }

  lemma PlaceholderInjective(m: nat, n: nat)
    requires Placeholder(m) == Placeholder(n)
    ensures m == n
  {
    assert NatToString(m) == Placeholder(m)[1..];
    assert NatToString(n) == Placeholder(n)[1..];
    ParseNatToString(m);
    ParseNatToString(n);
  }

  // ---------------------------------------------------------------------------
  // Whitespace

  /** The ASCII whitespace `trim()` strips: space, tab, line feed, carriage
      return, vertical tab (11) and form feed (12). */
  predicate IsSpace(c: char) {
    c == ' ' || c == '\t' || c == '\n' || c == '\r' || c as int == 11 || c as int == 12
  }

  /** `r` is `s` with some whitespace cut from each end. */
  ghost predicate CutFromEnds(s: string, r: string) {
    exists i, j :: 0 <= i <= j <= |s| && r == s[i..j]
      && (forall k :: 0 <= k < i ==> IsSpace(s[k]))
      && (forall k :: j <= k < |s| ==> IsSpace(s[k]))
  }

  /** `trim()`: drops the leading and trailing whitespace. The result is a
      slice of `s` with only whitespace outside it and none at its ends. */
  function Trim(s: string): (r: string)
    ensures |r| <= |s|
    ensures CutFromEnds(s, r)
    ensures r != [] ==> !IsSpace(r[0]) && !IsSpace(r[|r| - 1])
    ensures forall i :: 0 <= i < |s| && !IsSpace(s[i]) ==> r != []
    decreases |s|
  {
    if s == [] then
      assert s[0..0] == [];
      []
    else if IsSpace(s[0]) then
      var r := Trim(s[1..]);
      CutPastFirst(s, r);
      r
    else if IsSpace(s[|s| - 1]) then
      var r := Trim(s[..|s| - 1]);
      CutPastLast(s, r);
      r
    else
      assert s[0..|s|] == s;
      s
  }

  lemma CutPastFirst(s: string, r: string)
    requires s != [] && IsSpace(s[0]) && CutFromEnds(s[1..], r)
    ensures CutFromEnds(s, r)
  {
    var i, j :| 0 <= i <= j <= |s[1..]| && r == s[1..][i..j]
      && (forall k :: 0 <= k < i ==> IsSpace(s[1..][k]))
      && (forall k :: j <= k < |s[1..]| ==> IsSpace(s[1..][k]));
    assert r == s[i + 1..j + 1];
    forall k | 0 <= k < i + 1 ensures IsSpace(s[k]) {
      if k > 0 { assert s[k] == s[1..][k - 1]; }
    }
    forall k | j + 1 <= k < |s| ensures IsSpace(s[k]) {
      assert s[k] == s[1..][k - 1];
    }
  }

  lemma CutPastLast(s: string, r: string)
    requires s != [] && IsSpace(s[|s| - 1]) && CutFromEnds(s[..|s| - 1], r)
    ensures CutFromEnds(s, r)
  {
    var p := s[..|s| - 1];
    var i, j :| 0 <= i <= j <= |p| && r == p[i..j]
      && (forall k :: 0 <= k < i ==> IsSpace(p[k]))
      && (forall k :: j <= k < |p| ==> IsSpace(p[k]));
    assert r == s[i..j];
    forall k | 0 <= k < i ensures IsSpace(s[k]) {
      assert s[k] == p[k];
    }
    forall k | j <= k < |s| ensures IsSpace(s[k]) {
      if k < |p| { assert s[k] == p[k]; }
    }
  }

  // ---------------------------------------------------------------------------
  // ASCII case

  predicate IsUpper(c: char) {
    'A' <= c <= 'Z'
  }

  /** `toLowerCase` on one character, for the ASCII letters. */
  function LowerChar(c: char): char {
    if IsUpper(c) then (c as int + 32) as char else c
  }

  function ToLower(s: string): (r: string)
    ensures |r| == |s|
    ensures forall i :: 0 <= i < |s| ==> r[i] == LowerChar(s[i])
  {
    seq(|s|, i requires 0 <= i < |s| => LowerChar(s[i]))
  }

  /** `s.includes(part)`, which is what a regular expression made of plain
      alternatives tests for each alternative. */
  predicate Contains(s: string, part: string)
    decreases |s|
  {
    (|part| <= |s| && s[..|part|] == part) || (s != [] && Contains(s[1..], part))
  }

  /** A string holds each character of every part it contains. */
  lemma {:induction false} ContainsNeedsChar(s: string, part: string, k: nat)
    requires k < |part| && part[k] !in s
    ensures !Contains(s, part)
    decreases |s|
  {
    if |part| <= |s| {
      assert s[..|part|][k] == s[k] && s[k] in s;
    }
    if s != [] {
      assert forall c :: c in s[1..] ==> c in s;
      ContainsNeedsChar(s[1..], part, k);
    }
  }

  /** A string holds the first two characters of every part it contains side
      by side. */
  lemma {:induction false} ContainsNeedsPair(s: string, part: string)
    requires |part| >= 2
    requires forall i :: 0 <= i && i + 1 < |s| ==> !(s[i] == part[0] && s[i + 1] == part[1])
    ensures !Contains(s, part)
    decreases |s|
  {
    if |part| <= |s| {
      assert s[..|part|][0] == s[0] && s[..|part|][1] == s[1];
    }
    if s != [] {
      forall i | 0 <= i && i + 1 < |s[1..]| ensures !(s[1..][i] == part[0] && s[1..][i + 1] == part[1]) {
        assert s[1..][i] == s[i + 1] && s[1..][i + 1] == s[i + 2];
      }
      ContainsNeedsPair(s[1..], part);
    }
  }

  /** Whatever contains `p + q` contains `p`. */
  lemma {:induction false} ContainsPrefix(s: string, p: string, q: string)
    requires Contains(s, p + q)
    ensures Contains(s, p)
    decreases |s|
  {
    if |p + q| <= |s| && s[..|p + q|] == p + q {
      assert s[..|p|] == (p + q)[..|p|] == p;
    } else {
      ContainsPrefix(s[1..], p, q);
    }
  }
}
