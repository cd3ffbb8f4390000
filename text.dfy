/** The handful of Python `str` operations the modelled code relies on:
    prefix/suffix tests, `find`, `split`/`join` on one separator, `replace`
    with the empty string, `int()`/`str()` on decimal integers and ASCII
    case mapping. */
module Text {
  import opened Wrappers

  /** Python truthiness of an optional string: set and not empty. */
  predicate Truthy(s: Option<string>) {
    s.Some? && s.value != ""
  }

  predicate StartsWith(s: string, p: string) {
    |p| <= |s| && s[..|p|] == p
  }

  predicate EndsWith(s: string, p: string) {
    |p| <= |s| && s[|s| - |p|..] == p
  }

  predicate OccursAt(s: string, p: string, i: nat) {
    i + |p| <= |s| && s[i..i + |p|] == p
  }

  /** `s.find(p)` from position `from` on: the first index at which `p` occurs. */
  function FindFrom(s: string, p: string, from: nat): (r: Option<nat>)
    requires from <= |s|
    ensures r.Some? ==> from <= r.value && OccursAt(s, p, r.value)
    ensures r.Some? ==> forall j :: from <= j < r.value ==> !OccursAt(s, p, j)
    ensures r.None? ==> forall j :: from <= j <= |s| ==> !OccursAt(s, p, j)
    decreases |s| - from
  {
    if OccursAt(s, p, from) then Some(from)
    else if from == |s| then None
    else FindFrom(s, p, from + 1)
  }

  function Find(s: string, p: string): Option<nat> {
    FindFrom(s, p, 0)
  }

  // ---------------------------------------------------------------------------
  // str.split(sep) and sep.join(parts) for a one-character separator

  /** `s.split(sep)`: the maximal separator-free pieces, empty ones included. */
  function Split(s: string, sep: char): (r: seq<string>)
    ensures |r| >= 1
    ensures forall k :: 0 <= k < |r| ==> sep !in r[k]
    decreases |s|
  {
    if s == [] then [[]]
    else
      var rest := Split(s[1..], sep);
      if s[0] == sep then [[]] + rest
      else [[s[0]] + rest[0]] + rest[1..]
  }

  /** `sep.join(parts)`. */
  function Join(parts: seq<string>, sep: char): string
    decreases |parts|
  {
    if parts == [] then ""
    else if |parts| == 1 then parts[0]
    else parts[0] + [sep] + Join(parts[1..], sep)
  }

  lemma {:induction false} JoinSplit(s: string, sep: char)
    ensures Join(Split(s, sep), sep) == s
    decreases |s|
  {
    if s != [] {
      JoinSplit(s[1..], sep);
      var rest := Split(s[1..], sep);
      if s[0] == sep {
        assert Split(s, sep) == [[]] + rest;
        assert s == [s[0]] + s[1..];
      } else {
        var r := [[s[0]] + rest[0]] + rest[1..];
        if |rest| == 1 {
          assert Join(r, sep) == [s[0]] + rest[0];
        } else {
          assert r[1..] == rest[1..];
          assert Join(rest, sep) == rest[0] + [sep] + Join(rest[1..], sep);
        }
        assert s == [s[0]] + s[1..];
      }
    }
  }

  lemma {:induction false} SplitWithoutSeparator(s: string, sep: char)
    requires sep !in s
    ensures Split(s, sep) == [s]
    decreases |s|
  {
    if s != [] {
      SplitWithoutSeparator(s[1..], sep);
      assert s == [s[0]] + s[1..];
    }
  }

  /** Splitting distributes over a separator placed between two strings. */
  lemma {:induction false} SplitAround(a: string, b: string, sep: char)
    ensures Split(a + [sep] + b, sep) == Split(a, sep) + Split(b, sep)
    decreases |a|
  {
    if a == [] {
      assert [] + [sep] + b == [sep] + b;
      assert ([sep] + b)[1..] == b;
    } else {
      var t := a + [sep] + b;
      assert t[0] == a[0];
      assert t[1..] == a[1..] + [sep] + b;
      SplitAround(a[1..], b, sep);
    }
  }

  /** Joining separator-free parts and splitting again gives the parts. */
  lemma {:induction false} SplitJoin(parts: seq<string>, sep: char)
    requires parts != [] && forall k :: 0 <= k < |parts| ==> sep !in parts[k]
    ensures Split(Join(parts, sep), sep) == parts
    decreases |parts|
  {
    SplitWithoutSeparator(parts[0], sep);
    if |parts| > 1 {
      SplitJoin(parts[1..], sep);
      SplitAround(parts[0], Join(parts[1..], sep), sep);
      assert parts == [parts[0]] + parts[1..];
    }
  }

  /** One more part: it goes after a separator. */
  lemma {:induction false} JoinSnoc(a: seq<string>, b: string, sep: char)
    requires a != []
    ensures Join(a + [b], sep) == Join(a, sep) + [sep] + b
    decreases |a|
  {
    if |a| == 1 {
      assert (a + [b])[1..] == [b];
    } else {
      assert (a + [b])[1..] == a[1..] + [b];
      JoinSnoc(a[1..], b, sep);
    }
  }

  lemma {:induction false} JoinOfTwo(a: seq<string>, b: string, c: string, sep: char)
    requires a != []
    ensures Join(a + [b, c], sep) == Join(a, sep) + [sep] + b + [sep] + c
    decreases |a|
  {
    if |a| == 1 {
      assert (a + [b, c])[1..] == [b, c];
    } else {
      assert (a + [b, c])[1..] == a[1..] + [b, c];
      JoinOfTwo(a[1..], b, c, sep);
    }
  }

  // ---------------------------------------------------------------------------
  // Decimal integers: str(n) and int(s)

  predicate IsDigit(c: char) { '0' <= c <= '9' }

  function DigitChar(d: nat): (c: char)
    requires d < 10
    ensures IsDigit(c)
  {
    (48 + d) as char
  }

  /** `str(n)` for a natural number. */
  function NatToString(n: nat): (r: string)
    ensures r != [] && forall k :: 0 <= k < |r| ==> IsDigit(r[k])
  {
    if n < 10 then [DigitChar(n)] else NatToString(n / 10) + [DigitChar(n % 10)]
  }

  function DigitsValue(s: string): nat
    requires forall k :: 0 <= k < |s| ==> IsDigit(s[k])
  {
    if s == [] then 0
    else
      assert IsDigit(s[|s| - 1]);
      10 * DigitsValue(s[..|s| - 1]) + (s[|s| - 1] as int - 48)
  }

  /** One or more ASCII digits. */
  predicate IsDecimal(s: string) {
    s != [] && forall k :: 0 <= k < |s| ==> IsDigit(s[k])
  }

  /** `int(s)` on an optional sign followed by one or more ASCII digits;
      anything else is the ValueError case. */
  function ParseInt(s: string): (r: Option<int>)
    ensures r.Some? ==> s != [] && ':' !in s
    ensures r.Some? <==> IsDecimal(s) || (s != [] && (s[0] == '+' || s[0] == '-') && IsDecimal(s[1..]))
    ensures IsDecimal(s) ==> r == Some(DigitsValue(s))
    ensures s != [] && s[0] == '+' && IsDecimal(s[1..]) ==> r == Some(DigitsValue(s[1..]))
    ensures s != [] && s[0] == '-' && IsDecimal(s[1..]) ==> r == Some(-(DigitsValue(s[1..]) as int))
  {
    if s == [] then None
    else if s[0] == '-' || s[0] == '+' then
      var body := s[1..];
      if body != [] && forall k :: 0 <= k < |body| ==> IsDigit(body[k]) then
        var v: int := DigitsValue(body);
        Some(if s[0] == '-' then -v else v)
      else None
    else if forall k :: 0 <= k < |s| ==> IsDigit(s[k]) then Some(DigitsValue(s))
    else None
  }

  lemma {:induction false} DigitsOfNat(n: nat)
    ensures DigitsValue(NatToString(n)) == n
  {
    if n >= 10 {
      DigitsOfNat(n / 10);
      var s := NatToString(n);
      assert s[..|s| - 1] == NatToString(n / 10);
    }
  }

  /** `int(str(n)) == n` */
  lemma ParseNatToString(n: nat)
    ensures ParseInt(NatToString(n)) == Some(n)
  {
    DigitsOfNat(n);
  }

  /** `int(str(-n)) == -n` and `int("+" + str(n)) == n` */
  lemma ParseSignedNatToString(n: nat)
    ensures ParseInt("-" + NatToString(n)) == Some(-(n as int))
    ensures ParseInt("+" + NatToString(n)) == Some(n)
  {
    DigitsOfNat(n);
    assert ("-" + NatToString(n))[1..] == NatToString(n);
    assert ("+" + NatToString(n))[1..] == NatToString(n);
  }

  // ---------------------------------------------------------------------------
  // ASCII case mapping

  function UpperChar(c: char): (u: char)
    ensures 'a' <= c <= 'z' ==> u as int == c as int - 32
    ensures !('a' <= c <= 'z') ==> u == c
  {
    if 'a' <= c <= 'z' then (c as int - 32) as char else c
  }

  function LowerChar(c: char): (l: char)
    ensures 'A' <= c <= 'Z' ==> l as int == c as int + 32
    ensures !('A' <= c <= 'Z') ==> l == c
  {
    if 'A' <= c <= 'Z' then (c as int + 32) as char else c
  }

  function Lower(s: string): (r: string)
    ensures |r| == |s| && forall k :: 0 <= k < |s| ==> r[k] == LowerChar(s[k])
  {
    seq(|s|, k requires 0 <= k < |s| => LowerChar(s[k]))
  }

  // ---------------------------------------------------------------------------
  // s.replace(p, "")

  /** `s.replace(p, "")`: every occurrence of `p`, scanning left to right
      without overlap, is deleted. */
  function RemoveAll(s: string, p: string): (r: string)
    requires p != []
    ensures |r| <= |s|
    decreases |s|
  {
    if s == [] then []
    else if OccursAt(s, p, 0) then RemoveAll(s[|p|..], p)
    else
      [s[0]] + RemoveAll(s[1..], p)
  }

  /** A string in which `p` does not occur is left unchanged. */
  lemma {:induction false} RemoveAbsent(s: string, p: string)
    requires p != [] && Find(s, p).None?
    ensures RemoveAll(s, p) == s
    decreases |s|
  {
    if s != [] {
      assert !OccursAt(s, p, 0);
      NoOccurrenceInSuffix(s, p);
      RemoveAbsent(s[1..], p);
    }
  }

  /** `replace(p, "")` shortens the text exactly when `p` occurs in it. */
  lemma {:induction false} RemoveShortens(s: string, p: string)
    requires p != []
    ensures |RemoveAll(s, p)| < |s| <==> Find(s, p).Some?
    decreases |s|
  {
    if s != [] && !OccursAt(s, p, 0) {
      RemoveShortens(s[1..], p);
      if Find(s, p).Some? {
        var i := Find(s, p).value;
        assert i > 0;
        assert s[1..][i - 1..i - 1 + |p|] == s[i..i + |p|];
        assert OccursAt(s[1..], p, i - 1);
      } else {
        NoOccurrenceInSuffix(s, p);
      }
    }
  }

  lemma NoOccurrenceInSuffix(s: string, p: string)
    requires s != [] && p != []
    requires Find(s, p).None?
    ensures Find(s[1..], p).None?
  {
    forall j | 0 <= j <= |s[1..]|
      ensures !OccursAt(s[1..], p, j)
    {
      assert !OccursAt(s, p, j + 1);
      if j + |p| <= |s[1..]| {
        assert s[j + 1..j + 1 + |p|] == s[1..][j..j + |p|];
      }
    }
  }

  // ---------------------------------------------------------------------------
  // Python's `<` on str: lexicographic by code point

  predicate StrLess(a: string, b: string)
    decreases |a|
  {
    if a == [] then b != []
    else if b == [] then false
    else a[0] < b[0] || (a[0] == b[0] && StrLess(a[1..], b[1..]))
  }

  lemma {:induction false} StrLessIrreflexive(a: string)
    ensures !StrLess(a, a)
    decreases |a|
  {
    if a != [] {
      StrLessIrreflexive(a[1..]);
    }
  }

  lemma {:induction false} StrLessTransitive(a: string, b: string, c: string)
    requires StrLess(a, b) && StrLess(b, c)
    ensures StrLess(a, c)
    decreases |a|
  {
    if a != [] && b != [] && c != [] && a[0] == b[0] == c[0] {
      StrLessTransitive(a[1..], b[1..], c[1..]);
    }
  }

  lemma {:induction false} StrLessAsymmetric(a: string, b: string)
    requires StrLess(a, b)
    ensures !StrLess(b, a)
    decreases |a|
  {
    if a != [] && b != [] && a[0] == b[0] {
      StrLessAsymmetric(a[1..], b[1..]);
    }
  }

  lemma {:induction false} StrLessTotal(a: string, b: string)
    requires a != b
    ensures StrLess(a, b) || StrLess(b, a)
    decreases |a|
  {
    if a != [] && b != [] && a[0] == b[0] {
      assert a == [a[0]] + a[1..] && b == [b[0]] + b[1..];
      StrLessTotal(a[1..], b[1..]);
    }
  }

  /** "Not earlier than" is transitive. */
  lemma StrNotLessTransitive(a: string, b: string, c: string)
    ensures !StrLess(a, b) && !StrLess(b, c) ==> !StrLess(a, c)
  {
    if a != b {
      StrLessTotal(a, b);
    }
    if b != c {
      StrLessTotal(b, c);
    }
    if StrLess(b, a) && StrLess(c, b) {
      StrLessTransitive(c, b, a);
      StrLessAsymmetric(c, a);
    }
  }
}
