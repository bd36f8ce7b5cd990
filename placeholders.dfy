/**
 * Placeholders of a route pattern: the tokens matched by the regular
 * expression `:\w+` (a colon followed by a maximal run of word characters),
 * their count (what `route.match(/\:\w+/g).length` computes), the
 * replacement of the leftmost one (`path.replace(/\:\w+/, param)`), and the
 * substitution loop of `pathFor` that applies it once per positional value.
 */
module Placeholders {
  import opened Wrappers

  /** The character class `\w` of JavaScript regular expressions. */
  predicate IsWordChar(c: char) {
    ('a' <= c <= 'z') || ('A' <= c <= 'Z') || ('0' <= c <= '9') || c == '_'
  }

  /** A match of `:\w+` can begin at position `p` of `s`. */
  predicate StartsToken(s: string, p: nat) {
    p + 1 < |s| && s[p] == ':' && IsWordChar(s[p + 1])
  }

  /** `s[j..e]` is a maximal run of word characters. */
  predicate RunEndsAt(s: string, j: nat, e: nat) {
    j <= e <= |s| && (forall k :: j <= k < e ==> IsWordChar(s[k])) && (e == |s| || !IsWordChar(s[e]))
  }

  /** The end of the maximal run of word characters of `s` that begins at `j`. */
  function WordRunEnd(s: string, j: nat): (e: nat)
    requires j <= |s|
    ensures j <= e <= |s|
    decreases |s| - j
  {
    if j < |s| && IsWordChar(s[j]) then WordRunEnd(s, j + 1) else j
  }

  lemma {:induction false} WordRunEndMaximal(s: string, j: nat)
    requires j <= |s|
    ensures RunEndsAt(s, j, WordRunEnd(s, j))
    decreases |s| - j
  {
    if j < |s| && IsWordChar(s[j]) {
      WordRunEndMaximal(s, j + 1);
    }
  }

  /** The leftmost position at or after `p` where a token begins. */
  function FindFrom(s: string, p: nat): (r: Option<nat>)
    requires p <= |s|
    ensures r.Some? ==> p <= r.value && StartsToken(s, r.value)
    decreases |s| - p
  {
    if p == |s| then None
    else if StartsToken(s, p) then Some(p)
    else FindFrom(s, p + 1)
  }

  lemma {:induction false} FindFromLeftmost(s: string, p: nat)
    requires p <= |s|
    ensures FindFrom(s, p).Some? ==> forall q :: p <= q < FindFrom(s, p).value ==> !StartsToken(s, q)
    ensures FindFrom(s, p).None? ==> forall q :: p <= q < |s| ==> !StartsToken(s, q)
    decreases |s| - p
  {
    if p < |s| && !StartsToken(s, p) {
      FindFromLeftmost(s, p + 1);
    }
  }

  /** Where a token lies in a string: `s[start..end]`. */
  datatype Span = Span(start: nat, end: nat)

  /**
   * The leftmost match of `:\w+` in `s`, as a non-global `RegExp` finds it:
   * the first position holding a colon followed by a word character, and the
   * word run after it taken as far as it goes.
   */
  function FindToken(s: string): (m: Option<Span>)
    ensures m.Some? ==> StartsToken(s, m.value.start) && m.value.start + 2 <= m.value.end <= |s|
  {
    match FindFrom(s, 0)
    case None => None
    case Some(i) => Some(Span(i, WordRunEnd(s, i + 1)))
  }

  /** No token begins anywhere in `s`. */
  predicate NoToken(s: string) {
    forall q :: 0 <= q < |s| ==> !StartsToken(s, q)
  }

  /** `m` is the leftmost match of `:\w+` in `s`, with its word run taken in full. */
  predicate LeftmostToken(s: string, m: Span) {
    StartsToken(s, m.start) && (forall q :: 0 <= q < m.start ==> !StartsToken(s, q)) &&
    RunEndsAt(s, m.start + 1, m.end)
  }

  /** What `FindToken` finds: nothing exactly when no token begins anywhere, else the leftmost maximal one. */
  lemma FindTokenSpec(s: string)
    ensures FindToken(s).None? <==> NoToken(s)
    ensures FindToken(s).Some? ==> LeftmostToken(s, FindToken(s).value)
  {
    FindFromLeftmost(s, 0);
    if FindFrom(s, 0).Some? {
      WordRunEndMaximal(s, FindFrom(s, 0).value + 1);
    }
  }

  /** The tokens `s.match(/\:\w+/g)` returns, left to right (no match: none). */
  function Matches(s: string): seq<string>
    decreases |s|
  {
    match FindToken(s)
    case None => []
    case Some(m) => [s[m.start..m.end]] + Matches(s[m.end..])
  }

  /** The number of placeholders of a pattern: its arity. */
  function Arity(s: string): nat {
    |Matches(s)|
  }

  /** `s.replace(/\:\w+/, v)`: the leftmost token gives way to `v`. */
  function ReplaceFirst(s: string, v: string): string {
    match FindToken(s)
    case None => s
    case Some(m) => s[..m.start] + v + s[m.end..]
  }

  /** What the loop of `pathFor` leaves in `path`: one `ReplaceFirst` per value, in order. */
  function SubstituteAll(s: string, vs: seq<string>): string
    decreases |vs|
  {
    if vs == [] then s else SubstituteAll(ReplaceFirst(s, vs[0]), vs[1..])
  }

  /**
   * The reference meaning of substitution: the i-th placeholder of the
   * pattern gives way to the i-th value, and every other character of the
   * pattern stays where it is. Unlike `SubstituteAll` it never rescans the
   * text a value brought in.
   */
  function Fill(s: string, vs: seq<string>): string
    decreases |s|
  {
    if vs == [] then s
    else match FindToken(s)
      case None => s
      case Some(m) => s[..m.start] + vs[0] + Fill(s[m.end..], vs[1..])
  }

  /** The substitution loop of `pathFor`: `path = path.replace(/\:\w+/, param)` per value. */
  method Substitute(pattern: string, urlParams: seq<string>) returns (path: string)
    ensures path == SubstituteAll(pattern, urlParams)
  {
    path := pattern;
    var i := 0;
    while i < |urlParams|
      invariant 0 <= i <= |urlParams|
      invariant SubstituteAll(path, urlParams[i..]) == SubstituteAll(pattern, urlParams)
    {
      assert urlParams[i..][1..] == urlParams[i + 1..];
      path := ReplaceFirst(path, urlParams[i]);
      i := i + 1;
    }
  }

  /** A value no colon occurs in can neither be nor start a token. */
  predicate ColonFree(s: string) {
    ':' !in s
  }

  /** No two colons stand side by side: no token is preceded by a colon. */
  predicate NoDoubleColon(s: string) {
    forall p :: 0 <= p < |s| - 1 ==> !(s[p] == ':' && s[p + 1] == ':')
  }

  /**
   * A prefix that cannot take part in any token of `w + s`, whatever `s` is:
   * no token begins inside it, and it does not end with a colon.
   */
  predicate Inert(w: string) {
    (forall p :: 0 <= p < |w| ==> !StartsToken(w, p)) && (|w| == 0 || w[|w| - 1] != ':')
  }

  lemma ColonFreeInert(w: string)
    requires ColonFree(w)
    ensures Inert(w)
  {
    if |w| > 0 {
      assert w[|w| - 1] in w;
    }
    forall p | 0 <= p < |w|
      ensures !StartsToken(w, p)
    {
      assert w[p] in w;
    }
  }

  lemma NoDoubleColonSuffix(s: string, k: nat)
    requires k <= |s| && NoDoubleColon(s)
    ensures NoDoubleColon(s[k..])
  {
    forall p | 0 <= p < |s[k..]| - 1
      ensures !(s[k..][p] == ':' && s[k..][p + 1] == ':')
    {
      assert s[k..][p] == s[k + p] && s[k..][p + 1] == s[k + p + 1];
    }
  }

  /** A maximal run of word characters has only one end. */
  lemma RunEndUnique(s: string, j: nat, e1: nat, e2: nat)
    requires RunEndsAt(s, j, e1) && RunEndsAt(s, j, e2)
    ensures e1 == e2
  {
  }

  /** A non-empty run of word characters: what `\w+` matches. */
  predicate Word(w: string) {
    |w| > 0 && forall k :: 0 <= k < |w| ==> IsWordChar(w[k])
  }

  /** The leftmost token of a text is the one `FindToken` finds. */
  lemma LeftmostIsFound(s: string, m: Span)
    requires LeftmostToken(s, m)
    ensures FindToken(s) == Some(m)
  {
    FindTokenSpec(s);
    var n := FindToken(s).value;
    assert !(n.start < m.start) && !(m.start < n.start);
    RunEndUnique(s, m.start + 1, m.end, n.end);
  }

  /**
   * Behind an inert prefix, a colon, a word and a rest that does not go on
   * with a word character: the colon and the word are the leftmost token.
   */
  lemma TokenBehind(pre: string, word: string, rest: string)
    requires Inert(pre) && Word(word) && (rest == [] || !IsWordChar(rest[0]))
    ensures FindToken(pre + ([':'] + word + rest)) == Some(Span(|pre|, |pre| + 1 + |word|))
  {
    var s := [':'] + word + rest;
    assert s[1] == word[0];
    forall k | 1 <= k < 1 + |word|
      ensures IsWordChar(s[k])
    {
      assert s[k] == word[k - 1];
    }
    if rest != [] {
      assert s[1 + |word|] == rest[0];
    }
    LeftmostIsFound(s, Span(0, 1 + |word|));
    FindTokenShift(pre, s);
  }

  /** Behind an inert prefix, a colon and a word give way to the value, and the rest stays. */
  lemma ReplaceBehind(pre: string, word: string, rest: string, v: string)
    requires Inert(pre) && Word(word) && (rest == [] || !IsWordChar(rest[0]))
    ensures ReplaceFirst(pre + ([':'] + word + rest), v) == pre + v + rest
  {
    var t := pre + ([':'] + word + rest);
    TokenBehind(pre, word, rest);
    assert t[..|pre|] == pre;
    assert t[|pre| + 1 + |word|..] == rest;
  }

  /** No token begins inside an inert prefix; after it, tokens begin where they begin in `s`. */
  lemma StartsTokenShift(w: string, s: string, p: nat)
    requires Inert(w)
    ensures p < |w| ==> !StartsToken(w + s, p)
    ensures p >= |w| ==> StartsToken(w + s, p) == StartsToken(s, p - |w|)
  {
    var t := w + s;
    if p >= |w| {
      if p + 1 < |t| {
        assert t[p] == s[p - |w|] && t[p + 1] == s[p - |w| + 1];
      }
    } else if p + 1 < |w| {
      assert t[p] == w[p] && t[p + 1] == w[p + 1];
      assert !StartsToken(w, p);
    } else {
      assert t[p] == w[|w| - 1];
    }
  }

  /** An inert prefix shifts the leftmost token of `s` and changes nothing else about it. */
  lemma FindTokenShift(w: string, s: string)
    requires Inert(w)
    ensures FindToken(s).None? ==> FindToken(w + s).None?
    ensures FindToken(s).Some? ==>
      FindToken(w + s) == Some(Span(FindToken(s).value.start + |w|, FindToken(s).value.end + |w|))
  {
    var t := w + s;
    FindTokenSpec(s);
    FindTokenSpec(t);
    if FindToken(s).Some? {
      var m := FindToken(s).value;
      StartsTokenShift(w, s, m.start + |w|);
      var n := FindToken(t).value;
      StartsTokenShift(w, s, n.start);
      assert n.start == m.start + |w|;
      forall k | m.start + 1 <= k < n.end - |w|
        ensures IsWordChar(s[k])
      {
        assert t[k + |w|] == s[k];
      }
      if n.end < |t| {
        assert t[n.end] == s[n.end - |w|];
      }
      RunEndUnique(s, m.start + 1, m.end, n.end - |w|);
    } else {
      forall p | 0 <= p < |t|
        ensures !StartsToken(t, p)
      {
        StartsTokenShift(w, s, p);
      }
    }
  }

  /** Slices of `w + s` that start or end inside `s`. */
  lemma SlicesBehind(w: string, s: string, i: nat, j: nat)
    requires i <= j <= |s|
    ensures (w + s)[..i + |w|] == w + s[..i]
    ensures (w + s)[j + |w|..] == s[j..]
    ensures (w + s)[i + |w|..j + |w|] == s[i..j]
  {
  }

  /**
   * A text whose leftmost token sits behind `w` plus the text before the
   * leftmost token of `s`, and whose rest is the rest of `s`, is replaced
   * in step with `s`.
   */
  lemma ReplaceFirstStep(w: string, t: string, s: string, v: string, mt: Span, ms: Span)
    requires FindToken(t) == Some(mt) && FindToken(s) == Some(ms)
    requires t[..mt.start] == w + s[..ms.start] && t[mt.end..] == s[ms.end..]
    ensures ReplaceFirst(t, v) == w + ReplaceFirst(s, v)
  {
  }

  /** Two texts whose leftmost tokens agree, and whose rests agree, have the same placeholders. */
  lemma MatchesStep(t: string, s: string, mt: Span, ms: Span)
    requires FindToken(t) == Some(mt) && FindToken(s) == Some(ms)
    requires t[mt.start..mt.end] == s[ms.start..ms.end] && t[mt.end..] == s[ms.end..]
    ensures Matches(t) == Matches(s)
  {
  }

  /** Two texts with no token have the same, empty, list of placeholders. */
  lemma MatchesNone(t: string, s: string)
    requires FindToken(t).None? && FindToken(s).None?
    ensures Matches(t) == Matches(s)
  {
  }

  /** Behind an inert prefix, the leftmost replacement happens inside `s`. */
  lemma ReplaceFirstShift(w: string, s: string, v: string)
    requires Inert(w)
    ensures ReplaceFirst(w + s, v) == w + ReplaceFirst(s, v)
  {
    FindTokenShift(w, s);
    if FindToken(s).Some? {
      var m := FindToken(s).value;
      SlicesBehind(w, s, m.start, m.end);
      ReplaceFirstStep(w, w + s, s, v, Span(m.start + |w|, m.end + |w|), m);
    }
  }

  /** Behind an inert prefix, the whole substitution loop happens inside `s`. */
  lemma {:induction false} SubstituteAllShift(w: string, s: string, vs: seq<string>)
    requires Inert(w)
    ensures SubstituteAll(w + s, vs) == w + SubstituteAll(s, vs)
    decreases |vs|
  {
    if vs != [] {
      ReplaceFirstShift(w, s, vs[0]);
      SubstituteAllShift(w, ReplaceFirst(s, vs[0]), vs[1..]);
    }
  }

  /** An inert prefix adds no placeholder and removes none. */
  lemma MatchesShift(w: string, s: string)
    requires Inert(w)
    ensures Matches(w + s) == Matches(s)
  {
    FindTokenShift(w, s);
    if FindToken(s).Some? {
      var m := FindToken(s).value;
      SlicesBehind(w, s, m.start, m.end);
      MatchesStep(w + s, s, Span(m.start + |w|, m.end + |w|), m);
    } else {
      MatchesNone(w + s, s);
    }
  }

  /** With no token left, the substitution loop changes nothing. */
  lemma {:induction false} SubstituteAllNoToken(s: string, vs: seq<string>)
    requires FindToken(s).None?
    ensures SubstituteAll(s, vs) == s
    decreases |vs|
  {
    if vs != [] {
      SubstituteAllNoToken(s, vs[1..]);
    }
  }

  /**
   * The text before the leftmost token of `s`, followed by a colon-free
   * value, is inert when no colon precedes a token of `s`.
   */
  lemma HeadInert(s: string, m: Span, v: string)
    requires FindToken(s) == Some(m) && NoDoubleColon(s) && ColonFree(v)
    ensures Inert(s[..m.start] + v)
  {
    FindTokenSpec(s);
    var w := s[..m.start] + v;
    var i := m.start;
    assert i > 0 ==> s[i - 1] != ':' by {
      if i > 0 { assert s[i] == ':'; }
    }
    forall p | 0 <= p < |w|
      ensures !StartsToken(w, p)
    {
      if p < i {
        if p + 1 < i {
          assert w[p] == s[p] && w[p + 1] == s[p + 1];
          assert !StartsToken(s, p);
        } else if p + 1 < |w| {
          assert w[p] == s[i - 1];
        }
      } else {
        assert w[p] == v[p - i];
        assert v[p - i] in v;
      }
    }
    if |w| > 0 {
      if |v| > 0 {
        assert w[|w| - 1] == v[|v| - 1];
        assert v[|v| - 1] in v;
      } else {
        assert w[|w| - 1] == s[i - 1];
      }
    }
  }

  /**
   * The loop of `pathFor` meets the reference meaning: as long as no colon
   * precedes a placeholder and no value brings a colon in, replacing the
   * leftmost remaining token value by value is placeholder-by-placeholder
   * substitution, leaving every other character in place.
   */
  lemma {:induction false} SubstituteAllIsFill(s: string, vs: seq<string>)
    requires NoDoubleColon(s)
    requires forall i :: 0 <= i < |vs| ==> ColonFree(vs[i])
    ensures SubstituteAll(s, vs) == Fill(s, vs)
    decreases |vs|
  {
    if vs != [] {
      match FindToken(s)
      case None =>
        SubstituteAllNoToken(s, vs);
      case Some(m) =>
        var w := s[..m.start] + vs[0];
        HeadInert(s, m, vs[0]);
        assert ReplaceFirst(s, vs[0]) == w + s[m.end..];
        SubstituteAllShift(w, s[m.end..], vs[1..]);
        NoDoubleColonSuffix(s, m.end);
        SubstituteAllIsFill(s[m.end..], vs[1..]);
    }
  }

  /**
   * Supplying k values to a pattern with n placeholders leaves n - k of them
   * (none once k reaches n), when no value brings a colon in and no colon
   * precedes a placeholder.
   */
  lemma {:induction false} FillArity(s: string, vs: seq<string>)
    requires NoDoubleColon(s)
    requires forall i :: 0 <= i < |vs| ==> ColonFree(vs[i])
    ensures Arity(Fill(s, vs)) == if |vs| >= Arity(s) then 0 else Arity(s) - |vs|
    decreases |s|
  {
    if vs != [] {
      match FindToken(s)
      case None =>
      case Some(m) =>
        HeadInert(s, m, vs[0]);
        MatchesShift(s[..m.start] + vs[0], Fill(s[m.end..], vs[1..]));
        assert Fill(s, vs) == (s[..m.start] + vs[0]) + Fill(s[m.end..], vs[1..]);
        NoDoubleColonSuffix(s, m.end);
        FillArity(s[m.end..], vs[1..]);
    }
  }

  /** The same count for the loop itself. */
  lemma SubstituteAllArity(s: string, vs: seq<string>)
    requires NoDoubleColon(s)
    requires forall i :: 0 <= i < |vs| ==> ColonFree(vs[i])
    ensures Arity(SubstituteAll(s, vs)) == if |vs| >= Arity(s) then 0 else Arity(s) - |vs|
  {
    SubstituteAllIsFill(s, vs);
    FillArity(s, vs);
  }

  /**
   * Filling each placeholder with its own text gives the pattern back: the
   * placeholders are exactly the matched tokens, and `Fill` touches nothing
   * but them.
   */
  lemma {:induction false} FillWithOwnTokens(s: string)
    ensures Fill(s, Matches(s)) == s
    decreases |s|
  {
    match FindToken(s)
    case None =>
    case Some(m) =>
      FillWithOwnTokens(s[m.end..]);
      assert Matches(s)[1..] == Matches(s[m.end..]);
      assert s[..m.start] + s[m.start..m.end] + s[m.end..] == s;
  }

  /** A colon-free string holds no placeholder. */
  lemma ColonFreeNoToken(s: string)
    requires ColonFree(s)
    ensures FindToken(s).None? && Matches(s) == []
  {
    ColonFreeInert(s);
    FindTokenShift(s, "");
    assert s + "" == s;
  }
}
