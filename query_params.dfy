/**
 * Query parameters: the object a helper receives as its trailing argument,
 * the `filterObject` loop that drops `null` and `undefined` values, and the
 * `key=value&...` text appended after `?`.
 */
module QueryParams {
  import opened Wrappers

  /** A property value as `filterObject` sees it: only `null` and `undefined` are special. */
  datatype QueryValue = Null | Undefined | Text(text: string)

  /**
   * One property a `for (key in object)` loop enumerates, with its value and
   * whether it is the object's own property (what `has(object, key)` answers)
   * rather than an inherited one.
   */
  datatype Property = Property(key: string, value: QueryValue, own: bool)

  /** An object, as the properties a `for-in` loop enumerates, in that order. */
  type QueryObject = seq<Property>

  /** A JavaScript object never enumerates one key twice. */
  predicate DistinctKeys(q: QueryObject) {
    forall i, j :: 0 <= i < j < |q| ==> q[i].key != q[j].key
  }

  /** `has(object, key) && object[key] != null`: the loose `!=` rejects `undefined` too. */
  predicate Kept(p: Property) {
    p.own && p.value.Text?
  }

  /**
   * The properties `filterObject` copies from an object, in enumeration
   * order. It recurses on the last property, as the loop appends, so that the
   * loop invariant is one step of it; `Filter` adds the `null` case.
   */
  function Filtered(q: QueryObject): QueryObject
  {
    if q == [] then [] else Filtered(q[..|q| - 1]) + (if Kept(q[|q| - 1]) then [q[|q| - 1]] else [])
  }

  /** `filterObject(object)` for an object or `null`: a `for-in` over `null` enumerates nothing. */
  function Filter(query: Option<QueryObject>): QueryObject {
    match query
    case None => []
    case Some(q) => Filtered(q)
  }

  /** The loop of `filterObject`, filling `filteredObject` one property at a time. */
  method FilterObject(query: Option<QueryObject>) returns (filteredObject: QueryObject)
    ensures filteredObject == Filter(query)
  {
    filteredObject := [];
    if query.Some? {
      var q := query.value;
      for i := 0 to |q|
        invariant filteredObject == Filtered(q[..i])
      {
        assert q[..i + 1][..i] == q[..i];
        if Kept(q[i]) {
          filteredObject := filteredObject + [q[i]];
        }
      }
      assert q[..|q|] == q;
    }
  }

  /** Filtering a concatenation filters each part: the kept properties keep their order. */
  lemma {:induction false} FilteredAppend(a: QueryObject, b: QueryObject)
    ensures Filtered(a + b) == Filtered(a) + Filtered(b)
    decreases |b|
  {
    if b == [] {
      assert a + b == a;
    } else {
      var b' := b[..|b| - 1];
      assert (a + b)[..|a + b| - 1] == a + b';
      FilteredAppend(a, b');
    }
  }

  /** Exactly the own properties with a value other than `null` and `undefined` survive, unchanged. */
  lemma {:induction false} FilteredMembers(q: QueryObject, p: Property)
    ensures p in Filtered(q) <==> p in q && Kept(p)
    decreases |q|
  {
    if q != [] {
      var q' := q[..|q| - 1];
      FilteredMembers(q', p);
      assert q == q' + [q[|q| - 1]];
    }
  }

  /** Everything `filterObject` returns would survive a second filtering. */
  lemma {:induction false} FilteredAllKept(q: QueryObject)
    ensures forall i :: 0 <= i < |Filtered(q)| ==> Kept(Filtered(q)[i])
  {
    forall i | 0 <= i < |Filtered(q)|
      ensures Kept(Filtered(q)[i])
    {
      FilteredMembers(q, Filtered(q)[i]);
    }
  }

  /** A sequence of kept properties filters to itself. */
  lemma {:induction false} FilteredOfKept(q: QueryObject)
    requires forall i :: 0 <= i < |q| ==> Kept(q[i])
    ensures Filtered(q) == q
    decreases |q|
  {
    if q != [] {
      FilteredOfKept(q[..|q| - 1]);
    }
  }

  /** Filtering twice is filtering once. */
  lemma FilterIdempotent(query: Option<QueryObject>)
    ensures Filter(Some(Filter(query))) == Filter(query)
  {
    if query.Some? {
      FilteredAllKept(query.value);
      FilteredOfKept(Filtered(query.value));
    }
  }

  /** The filtered object is an object again: no key appears twice. */
  lemma {:induction false} FilteredDistinct(q: QueryObject)
    requires DistinctKeys(q)
    ensures DistinctKeys(Filtered(q))
    decreases |q|
  {
    if q != [] {
      var q' := q[..|q| - 1];
      var last := q[|q| - 1];
      assert DistinctKeys(q');
      FilteredDistinct(q');
      if Kept(last) {
        forall i | 0 <= i < |Filtered(q')|
          ensures Filtered(q')[i].key != last.key
        {
          FilteredMembers(q', Filtered(q')[i]);
          var j :| 0 <= j < |q'| && q'[j] == Filtered(q')[i];
          assert q[j] == q'[j];
        }
      }
    }
  }

  /** The text `$.param` gives a value; `null` and `undefined` never reach it after filtering. */
  function ValueText(v: QueryValue): string {
    match v
    case Text(t) => t
    case _ => ""
  }

  /** One `key=value` pair. */
  function Pair(p: Property): string {
    p.key + "=" + ValueText(p.value)
  }

  /** The serialised query, `k1=v1&k2=v2...` in enumeration order (percent-encoding is not modelled). */
  function Serialize(q: QueryObject): string
  {
    if q == [] then "" else if |q| == 1 then Pair(q[0]) else Pair(q[0]) + "&" + Serialize(q[1..])
  }

  /** What `pathFor` appends to the path: `?` and the query, or nothing for an empty query. */
  function QuerySuffix(filtered: QueryObject): string {
    if filtered == [] then "" else "?" + Serialize(filtered)
  }

  // An inverse of `Serialize`, to state what the serialised text holds.

  /** The first index of `c` in `s`, or `|s|` when `c` does not occur. */
  function IndexOf(s: string, c: char): (i: nat)
    ensures i <= |s|
    ensures i < |s| ==> s[i] == c
    ensures forall k :: 0 <= k < i ==> s[k] != c
  {
    if s == [] then 0 else if s[0] == c then 0 else 1 + IndexOf(s[1..], c)
  }

  /** Splits `key=value` at its first `=`. */
  function ParsePair(s: string): (string, string) {
    var j := IndexOf(s, '=');
    if j < |s| then (s[..j], s[j + 1..]) else (s, "")
  }

  /** Splits a query string at each `&` into its pairs. */
  function ParseQuery(s: string): seq<(string, string)>
    decreases |s|
  {
    var i := IndexOf(s, '&');
    [ParsePair(s[..i])] + (if i < |s| then ParseQuery(s[i + 1..]) else [])
  }

  /** A property whose key and value `Serialize` writes verbatim and `ParseQuery` reads back. */
  predicate Plain(p: Property) {
    p.value.Text? && '&' !in p.key && '=' !in p.key && '&' !in p.value.text
  }

  /** The key/value pairs of an object, in order. */
  function Pairs(q: QueryObject): seq<(string, string)> {
    if q == [] then [] else [(q[0].key, ValueText(q[0].value))] + Pairs(q[1..])
  }

  lemma IndexOfFirst(a: string, c: char, b: string)
    requires c !in a
    ensures IndexOf(a + [c] + b, c) == |a|
  {
    var s := a + [c] + b;
    assert s[|a|] == c;
    assert forall k :: 0 <= k < |a| ==> s[k] == a[k] && a[k] in a;
  }

  lemma IndexOfAbsent(a: string, c: char)
    requires c !in a
    ensures IndexOf(a, c) == |a|
  {
    assert forall k :: 0 <= k < |a| ==> a[k] in a;
  }

  lemma ParsePairOfPair(p: Property)
    requires Plain(p)
    ensures ParsePair(Pair(p)) == (p.key, p.value.text)
  {
    var s := Pair(p);
    assert s == p.key + ['='] + p.value.text;
    IndexOfFirst(p.key, '=', p.value.text);
    assert s[..|p.key|] == p.key;
    assert s[|p.key| + 1..] == p.value.text;
  }

  lemma AmpersandFreePair(p: Property)
    requires Plain(p)
    ensures '&' !in Pair(p)
  {
    assert Pair(p) == p.key + "=" + p.value.text;
  }

  /** Reading back a single pair. */
  lemma ParseOnePair(p: Property)
    requires Plain(p)
    ensures ParseQuery(Pair(p)) == [(p.key, p.value.text)]
  {
    var head := Pair(p);
    ParsePairOfPair(p);
    AmpersandFreePair(p);
    IndexOfAbsent(head, '&');
    assert head[..|head|] == head;
  }

  /** Reading back the first pair of several. */
  lemma ParseFirstPair(p: Property, rest: string)
    requires Plain(p)
    ensures ParseQuery(Pair(p) + "&" + rest) == [(p.key, p.value.text)] + ParseQuery(rest)
  {
    var head := Pair(p);
    var s := head + ['&'] + rest;
    ParsePairOfPair(p);
    AmpersandFreePair(p);
    IndexOfFirst(head, '&', rest);
    assert s[..|head|] == head;
    assert s[|head| + 1..] == rest;
  }

  /** Round trip: the serialised query reads back as the object's pairs, in order. */
  lemma {:induction false} ParseSerialize(q: QueryObject)
    requires q != []
    requires forall i :: 0 <= i < |q| ==> Plain(q[i])
    ensures ParseQuery(Serialize(q)) == Pairs(q)
    decreases |q|
  {
    if |q| == 1 {
      ParseOnePair(q[0]);
    } else {
      ParseFirstPair(q[0], Serialize(q[1..]));
      ParseSerialize(q[1..]);
    }
  }

  /** `?` is appended if and only if something survived filtering, and then it comes first. */
  lemma QuerySuffixShape(filtered: QueryObject)
    ensures QuerySuffix(filtered) == "" <==> filtered == []
    ensures filtered != [] ==> QuerySuffix(filtered)[0] == '?'
    ensures filtered != [] && (forall i :: 0 <= i < |filtered| ==> Plain(filtered[i])) ==>
      ParseQuery(QuerySuffix(filtered)[1..]) == Pairs(filtered)
  {
    if filtered != [] && (forall i :: 0 <= i < |filtered| ==> Plain(filtered[i])) {
      assert QuerySuffix(filtered)[1..] == Serialize(filtered);
      ParseSerialize(filtered);
    }
  }
}
