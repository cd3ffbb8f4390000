/** Helpers of resources/lib/modules/utils.py (parse_string and remove_keys
    also exist, line for line, in resources/lib/modules/kodi_utils.py):
    JSON-like values, `parse_string`, `remove_keys`, `filter_dict` and the
    index-aligned result list of `thread_function`. */
module Utils {
  import opened Wrappers
  import opened Text
  import opened Seqs

  /** The Python values a setting or a JSON document can hold. Floats are
      represented by a real number. */
  datatype Json =
    | JNone
    | JBool(b: bool)
    | JInt(i: int)
    | JFloat(f: real)
    | JStr(s: string)
    | JList(items: seq<Json>)
    | JDict(entries: map<string, Json>)

  /** `parse_string`. `float(v)` is a parameter: it gives the float a string
      denotes, or None for the ValueError case. A list or a dict makes
      `int()` raise TypeError, which nothing catches, so callers pass
      neither. */
  function ParseString(v: Json, parseFloat: string -> Option<real>): (r: Json)
    requires !v.JList? && !v.JDict?
    ensures !v.JStr? ==> r == v
    ensures v.JStr? && Lower(v.s) in {"none", "null"} ==> r == JNone
    ensures v.JStr? && Lower(v.s) == "true" ==> r == JBool(true)
    ensures v.JStr? && Lower(v.s) == "false" ==> r == JBool(false)
    ensures v.JStr? && !(Lower(v.s) in {"none", "null", "true", "false"}) ==>
              r == if ParseInt(v.s).Some? then JInt(ParseInt(v.s).value)
                   else if parseFloat(v.s).Some? then JFloat(parseFloat(v.s).value)
                   else v
  {
    match v
    case JNone => v
    case JBool(_) => v
    case JInt(_) => v
    case JFloat(_) => v
    case JStr(s) =>
      var l := Lower(s);
      if l == "none" || l == "null" then JNone
      else if l == "true" then JBool(true)
      else if l == "false" then JBool(false)
      else match ParseInt(s)
        case Some(n) => JInt(n)
        case None =>
          match parseFloat(s)
          case Some(f) => JFloat(f)
          case None => v
  }

  /** Parsing a parsed value again changes nothing. */
  lemma ParseStringIdempotent(v: Json, parseFloat: string -> Option<real>)
    requires !v.JList? && !v.JDict?
    ensures ParseString(ParseString(v, parseFloat), parseFloat) == ParseString(v, parseFloat)
  {
  }

  /** The decimal text of a natural number parses back to that number. */
  lemma ParseStringOfNat(n: nat, parseFloat: string -> Option<real>)
    ensures ParseString(JStr(NatToString(n)), parseFloat) == JInt(n)
  {
    var s := NatToString(n);
    ParseNatToString(n);
    assert IsDigit(Lower(s)[0]);
    assert Lower(s) !in {"none", "null", "true", "false"};
  }

  /** The literals are recognised in any ASCII case. */
  lemma ParseStringLiterals(s: string, parseFloat: string -> Option<real>)
    requires |s| == 4 && LowerChar(s[0]) == 't' && LowerChar(s[1]) == 'r'
             && LowerChar(s[2]) == 'u' && LowerChar(s[3]) == 'e'
    ensures ParseString(JStr(s), parseFloat) == JBool(true)
  {
    assert Lower(s) == "true";
  }

  /** A dictionary that keeps its keys in insertion order. */
  class Dict {
    var keys: seq<string>
    var entries: map<string, Json>

    predicate Valid()
      reads this
    {
      Distinct(keys) && entries.Keys == set k | k in keys
    }

    constructor (keys: seq<string>, entries: map<string, Json>)
      requires Distinct(keys) && entries.Keys == set k | k in keys
      ensures Valid() && this.keys == keys && this.entries == entries
    {
      this.keys := keys;
      this.entries := entries;
    }

    /** `d.pop(k, None)`: removes `k` if present. */
    method Pop(k: string)
      requires Valid()
      modifies this
      ensures Valid()
      ensures entries == old(entries) - {k}
      ensures keys == Filter(old(keys), j => j != k)
    {
      FilterMembershipAll(keys, j => j != k);
      FilterDistinct(keys, j => j != k);
      keys := Filter(keys, j => j != k);
      entries := entries - {k};
    }

    /** `remove_keys(d, removals)`: every listed key that is present goes,
        absent ones are ignored, the rest is untouched; the same dictionary
        is returned. */
    method RemoveKeys(removals: seq<string>) returns (d: Dict)
      requires Valid()
      modifies this
      ensures d == this && Valid()
      ensures entries == old(entries) - set k | k in removals
      ensures keys == Filter(old(keys), j => j !in removals)
      ensures forall k :: k in old(entries) && k !in removals ==> entries[k] == old(entries)[k]
    {
      ghost var original := keys;
      ghost var done: seq<string> := [];
      FilterNothing(keys);
      for i := 0 to |removals|
        invariant done == removals[..i]
        invariant Valid()
        invariant entries == old(entries) - KeySet(done)
        invariant keys == Filter(original, j => j !in done)
      {
        ghost var before, beforeEntries := keys, entries;
        Pop(removals[i]);
        RemovalStep(original, old(entries), done, removals[i], before, beforeEntries, keys, entries);
        done := done + [removals[i]];
      }
      assert done == removals;
      d := this;
    }
  }

  /** The keys listed in `ks`. */
  function KeySet(ks: seq<string>): set<string> {
    set k | k in ks
  }

  /** One pass of the `remove_keys` loop: after removing the keys `done`,
      popping `k` leaves the dictionary with `done + [k]` removed. */
  lemma RemovalStep(original: seq<string>, entries0: map<string, Json>, done: seq<string>, k: string,
                    keys: seq<string>, entries: map<string, Json>,
                    keys': seq<string>, entries': map<string, Json>)
    requires keys == Filter(original, j => j !in done) && entries == entries0 - KeySet(done)
    requires keys' == Filter(keys, j => j != k) && entries' == entries - {k}
    ensures keys' == Filter(original, j => j !in done + [k])
    ensures entries' == entries0 - KeySet(done + [k])
  {
    FilterTwice(original, done, k);
    assert KeySet(done + [k]) == KeySet(done) + {k};
  }

  lemma {:induction false} FilterMembershipAll<T>(xs: seq<T>, keep: T -> bool)
    ensures forall x :: x in Filter(xs, keep) <==> x in xs && keep(x)
  {
    forall x ensures x in Filter(xs, keep) <==> x in xs && keep(x) {
      FilterMembership(xs, keep, x);
    }
  }

  lemma {:induction false} FilterDistinct<T>(xs: seq<T>, keep: T -> bool)
    requires Distinct(xs)
    ensures Distinct(Filter(xs, keep))
    decreases |xs|
  {
    if xs != [] {
      FilterDistinct(xs[1..], keep);
      FilterMembership(xs[1..], keep, xs[0]);
      assert xs[0] !in xs[1..];
    }
  }

  lemma {:induction false} FilterNothing(xs: seq<string>)
    ensures Filter(xs, j => j !in []) == xs
    decreases |xs|
  {
    if xs != [] {
      FilterNothing(xs[1..]);
    }
  }

  /** Filtering by "not among `ks`" and then by "not `k`" is filtering by
      "not among `ks + [k]`". */
  lemma {:induction false} FilterTwice(xs: seq<string>, ks: seq<string>, k: string)
    ensures Filter(Filter(xs, j => j !in ks), j => j != k) == Filter(xs, j => j !in ks + [k])
    decreases |xs|
  {
    if xs != [] {
      FilterTwice(xs[1..], ks, k);
    }
  }

  /** `filter_dict`: the entries whose key is one of the class's init
      fields, values unchanged. */
  function FilterDict(fields: set<string>, data: map<string, Json>): (r: map<string, Json>)
    ensures forall k :: k in r <==> k in data && k in fields
    ensures forall k :: k in r ==> r[k] == data[k]
  {
    map k | k in data && k in fields :: data[k]
  }

  /** `thread_function`: one result slot per input, filled by index, so the
      results line up with the inputs whatever order the work finishes in
      (the work is done one item after the other here). */
  method ThreadFunction<T, U(0)>(func: T -> U, enumerable: seq<T>) returns (results: seq<U>)
    ensures |results| == |enumerable|
    ensures forall i :: 0 <= i < |enumerable| ==> results[i] == func(enumerable[i])
  {
    var slots := new U[|enumerable|];
    for idx := 0 to |enumerable|
      invariant forall i :: 0 <= i < idx ==> slots[i] == func(enumerable[i])
    {
      slots[idx] := func(enumerable[idx]);
    }
    results := slots[..];
  }
}
