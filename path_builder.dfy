/**
 * `pathFor`: turns a route pattern, the positional values and the query
 * object into a path. The leading slash is added when missing, the history
 * root is put in front, each positional value takes the place of the leftmost
 * placeholder still there, and the filtered query follows a `?`.
 */
module PathBuilder {
  import opened Wrappers
  import opened Placeholders
  import opened QueryParams

  /** `Backbone.history.options` once history has been started; its `root` may be missing. */
  datatype HistoryOptions = HistoryOptions(root: Option<string>)

  /** The pattern with a leading `/` added when it has none (`charAt(0) !== "/"`, true for ""). */
  function Normalize(pattern: string): string {
    if |pattern| > 0 && pattern[0] == '/' then pattern else "/" + pattern
  }

  /** What `options.root + path` puts in front: a missing root concatenates as `undefined`. */
  function RootText(options: HistoryOptions): string {
    match options.root
    case None => "undefined"
    case Some(r) => r
  }

  /** `Backbone.history.options && Backbone.history.options.root !== "/"`. */
  predicate RootApplies(history: Option<HistoryOptions>) {
    history.Some? && history.value.root != Some("/")
  }

  /** The text the root contributes in front of the normalised pattern. */
  function RootPrefix(history: Option<HistoryOptions>): string {
    if RootApplies(history) then RootText(history.value) else ""
  }

  /** The path `pathFor` returns. */
  function BuildPath(pathPattern: string, urlParams: seq<string>, queryParams: Option<QueryObject>,
                     history: Option<HistoryOptions>): string
  {
    SubstituteAll(RootPrefix(history) + Normalize(pathPattern), urlParams) + QuerySuffix(Filter(queryParams))
  }

  /** The first two steps of `pathFor`: the leading slash, then the root in front. */
  method RootedPattern(pathPattern: string, history: Option<HistoryOptions>) returns (path: string)
    ensures path == RootPrefix(history) + Normalize(pathPattern)
  {
    path := pathPattern;
    if !(|path| > 0 && path[0] == '/') {
      path := "/" + path;
    }
    if history.Some? && history.value.root != Some("/") {
      path := RootText(history.value) + path;
    }
  }

  /** `pathFor(pathPattern, urlParams, queryParams)`, reading the history options it is given. */
  method PathFor(pathPattern: string, urlParams: seq<string>, queryParams: Option<QueryObject>,
                 history: Option<HistoryOptions>) returns (path: string)
    ensures path == BuildPath(pathPattern, urlParams, queryParams, history)
  {
    path := RootedPattern(pathPattern, history);
    path := Substitute(path, urlParams);
    ghost var substituted := path;
    var filteredQueryParams := FilterObject(queryParams);
    if filteredQueryParams != [] {
      path := path + "?" + Serialize(filteredQueryParams);
      assert path == substituted + QuerySuffix(filteredQueryParams);
    }
  }

  /**
   * Normalisation: the result starts with `/`; it is the pattern itself
   * exactly when that already started with `/`, and otherwise the pattern
   * behind one `/`; normalising again changes nothing; and the placeholders
   * are those of the pattern.
   */
  lemma NormalizeLeadingSlash(p: string)
    ensures |Normalize(p)| > 0 && Normalize(p)[0] == '/'
    ensures Normalize(p) == p <==> |p| > 0 && p[0] == '/'
    ensures Normalize(p) != p ==> Normalize(p) == "/" + p
    ensures Normalize(Normalize(p)) == Normalize(p)
    ensures Matches(Normalize(p)) == Matches(p)
    ensures NoDoubleColon(p) ==> NoDoubleColon(Normalize(p))
  {
    if !(|p| > 0 && p[0] == '/') {
      assert |"/" + p| == |p| + 1;
      ColonFreeInert("/");
      MatchesShift("/", p);
      if NoDoubleColon(p) {
        forall i | 0 <= i < |"/" + p| - 1
          ensures !(("/" + p)[i] == ':' && ("/" + p)[i + 1] == ':')
        {
          if i > 0 {
            assert ("/" + p)[i] == p[i - 1] && ("/" + p)[i + 1] == p[i];
          }
        }
      }
    }
  }

  /**
   * The root is plain concatenation: with history options whose root is not
   * `/`, the path is that root followed by the path built without history;
   * otherwise it is the path built without history. Holds whenever the root
   * itself holds no colon (a root placeholder would otherwise be consumed by
   * the first positional value).
   */
  lemma RootPrefixApplied(p: string, vs: seq<string>, q: Option<QueryObject>, h: Option<HistoryOptions>)
    requires ColonFree(RootPrefix(h))
    ensures BuildPath(p, vs, q, h) ==
      (if RootApplies(h) then RootText(h.value) else "") + BuildPath(p, vs, q, None)
  {
    assert RootPrefix(None) + Normalize(p) == Normalize(p);
    PrefixedBuild(RootPrefix(h), Normalize(p), vs, QuerySuffix(Filter(q)));
  }

  /** A colon-free prefix passes through substitution untouched and stays in front of the query. */
  lemma PrefixedBuild(pre: string, n: string, vs: seq<string>, suffix: string)
    requires ColonFree(pre)
    ensures SubstituteAll(pre + n, vs) + suffix == pre + (SubstituteAll(n, vs) + suffix)
  {
    ColonFreeInert(pre);
    SubstituteAllShift(pre, n, vs);
  }

  /**
   * The shape of every path: root, then the normalised pattern with its
   * placeholders filled in order and nothing else altered, then the query
   * suffix; the placeholders left over number the pattern's arity minus the
   * count of values, none when the counts agree.
   */
  lemma PathShape(p: string, vs: seq<string>, q: Option<QueryObject>, h: Option<HistoryOptions>)
    requires ColonFree(RootPrefix(h)) && NoDoubleColon(p)
    requires forall i :: 0 <= i < |vs| ==> ColonFree(vs[i])
    ensures BuildPath(p, vs, q, h) == RootPrefix(h) + Fill(Normalize(p), vs) + QuerySuffix(Filter(q))
    ensures Arity(Fill(Normalize(p), vs)) == if |vs| >= Arity(p) then 0 else Arity(p) - |vs|
  {
    ColonFreeInert(RootPrefix(h));
    SubstituteAllShift(RootPrefix(h), Normalize(p), vs);
    NormalizeLeadingSlash(p);
    SubstituteAllIsFill(Normalize(p), vs);
    FillArity(Normalize(p), vs);
  }
}
