/**
 * The shapes of the query objects in the repository's own test suite, for
 * any keys and values: `null` and `undefined` values are dropped, the other
 * pairs keep their order, and an empty result appends nothing.
 */
module Scenarios {
  import opened Wrappers
  import opened QueryParams

  /** Like `{ foo: "bar", baz: undefined, boo: null }`: only the first pair survives. */
  lemma NullAndUndefinedDropped(q: QueryObject)
    requires |q| == 3 && Kept(q[0]) && q[1].value == Undefined && q[2].value == Null
    ensures Filter(Some(q)) == [q[0]]
    ensures QuerySuffix(Filter(Some(q))) == "?" + Pair(q[0])
  {
    assert Filtered(q[..1]) == [q[0]] by {
      assert q[..1][..0] == [];
    }
    assert Filtered(q[..2]) == [q[0]] by {
      assert q[..2][..1] == q[..1];
    }
    assert q[..3] == q;
    assert Filtered(q) == [q[0]] by {
      assert q[..2] == q[..|q| - 1];
    }
    SuffixOfOne(q[0]);
  }

  /** Like `{ foo: "bar", baz: "boo" }`: both pairs, in order, joined by `&`. */
  lemma AllDefinedKept(q: QueryObject)
    requires |q| == 2 && Kept(q[0]) && Kept(q[1])
    ensures Filter(Some(q)) == q
    ensures QuerySuffix(Filter(Some(q))) == "?" + (Pair(q[0]) + "&" + Pair(q[1]))
  {
    FilteredOfKept(q);
    SuffixOfTwo(q);
  }

  /** Like `{}` and `{ foo: undefined }`: nothing is appended. */
  lemma NothingDefined(q: QueryObject)
    requires |q| <= 1 && (q != [] ==> q[0].value == Undefined)
    ensures Filter(Some(q)) == [] && QuerySuffix(Filter(Some(q))) == ""
  {
    if q != [] {
      assert q[..|q| - 1] == [];
      assert Filtered(q) == Filtered(q[..|q| - 1]);
    }
  }

  /** The suffix of a single pair. */
  lemma SuffixOfOne(p: Property)
    ensures QuerySuffix([p]) == "?" + Pair(p)
  {
  }

  /** The suffix of two pairs. */
  lemma SuffixOfTwo(q: QueryObject)
    requires |q| == 2
    ensures QuerySuffix(q) == "?" + (Pair(q[0]) + "&" + Pair(q[1]))
  {
    assert q[1..] == [q[1]];
    assert Serialize(q[1..]) == Pair(q[1]);
    assert Serialize(q) == Pair(q[0]) + "&" + Pair(q[1]);
  }
}
