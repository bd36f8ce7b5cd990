/**
 * The named-route registry: the wrapped `Router#route` records each pattern
 * under its route name and its arity, and the `<name>Path` helper it
 * generates picks the pattern for the number of positional arguments it is
 * called with, at call time, and hands it to `pathFor`.
 */
module NamedRoutes {
  import opened Wrappers
  import opened Placeholders
  import opened QueryParams
  import opened PathBuilder

  /**
   * An argument of a generated helper: a path value (a string, or a number
   * in its decimal form) or a plain object.
   */
  datatype Arg = Positional(text: string) | Object(query: QueryObject)

  /** `_(args[args.length-1]).isObject()`; with no arguments `args[-1]` is `undefined`. */
  predicate HasQueryParams(args: seq<Arg>) {
    |args| > 0 && args[|args| - 1].Object?
  }

  /** How many arguments the helper treats as positional. */
  function PositionalCount(args: seq<Arg>): nat {
    if HasQueryParams(args) then |args| - 1 else |args|
  }

  /** The text `replace` inserts for an argument: an object converts to `[object Object]`. */
  function ArgText(a: Arg): string {
    match a
    case Positional(t) => t
    case Object(_) => "[object Object]"
  }

  /** The positional values, as `args` holds them once the query object is popped. */
  function UrlParams(args: seq<Arg>): seq<string> {
    seq(PositionalCount(args), i requires 0 <= i < PositionalCount(args) => ArgText(args[i]))
  }

  /** `hasQueryParams ? args.pop() : null`. */
  function QueryParamsOf(args: seq<Arg>): Option<QueryObject> {
    if HasQueryParams(args) then Some(args[|args| - 1].query) else None
  }

  /** The string arguments a helper call would be written with. */
  function AsPositional(vs: seq<string>): seq<Arg> {
    seq(|vs|, i requires 0 <= i < |vs| => Positional(vs[i]))
  }

  /**
   * Dispatch splits every call: the helper counts all arguments but a last
   * object as positional, passes their texts in their order (an object among
   * them as `[object Object]`), and passes the last object as the query. When
   * every positional argument is a string, the values followed by the query
   * object give back the arguments the helper was called with.
   */
  lemma DispatchSplit(args: seq<Arg>)
    ensures |args| == PositionalCount(args) + (if HasQueryParams(args) then 1 else 0)
    ensures |UrlParams(args)| == PositionalCount(args)
    ensures forall i :: 0 <= i < PositionalCount(args) ==> UrlParams(args)[i] == ArgText(args[i])
    ensures QueryParamsOf(args).Some? <==> HasQueryParams(args)
    ensures HasQueryParams(args) ==> args[|args| - 1] == Object(QueryParamsOf(args).value)
    ensures (forall i :: 0 <= i < PositionalCount(args) ==> args[i].Positional?) ==>
      args == AsPositional(UrlParams(args)) +
        (if HasQueryParams(args) then [Object(QueryParamsOf(args).value)] else [])
  {
    var n := PositionalCount(args);
    var rebuilt := AsPositional(UrlParams(args)) +
      (if HasQueryParams(args) then [Object(QueryParamsOf(args).value)] else []);
    if forall i :: 0 <= i < n ==> args[i].Positional? {
      assert |rebuilt| == |args|;
      forall i | 0 <= i < |args|
        ensures rebuilt[i] == args[i]
      {
        if i < n {
          assert rebuilt[i] == Positional(ArgText(args[i]));
        }
      }
    }
  }

  /** `Backbone.NamedRoutes.PATTERNS`: route name to arity to pattern. */
  type Patterns = map<string, map<nat, string>>

  /** The table after `PATTERNS[name] = PATTERNS[name] || {}; PATTERNS[name][numberOfParams] = route`. */
  function Register(patterns: Patterns, name: string, route: string): Patterns {
    var slots := if name in patterns then patterns[name] else map[];
    patterns[name := slots[Arity(route) := route]]
  }

  /** `PATTERNS[name][n]`; a missing name or arity is `undefined`. */
  function Lookup(patterns: Patterns, name: string, n: nat): Option<string> {
    if name in patterns && n in patterns[name] then Some(patterns[name][n]) else None
  }

  /**
   * What calling the helper `<name>Path` with `args` yields: `None` when it
   * throws, because no route of that name was registered (the helper does not
   * exist) or none for that arity (the pattern is `undefined`).
   */
  function Resolved(patterns: Patterns, name: string, args: seq<Arg>, history: Option<HistoryOptions>): Option<string> {
    match Lookup(patterns, name, PositionalCount(args))
    case None => None
    case Some(pattern) => Some(BuildPath(pattern, UrlParams(args), QueryParamsOf(args), history))
  }

  /** Every stored pattern sits in the slot of its own arity. */
  predicate WellKeyed(patterns: Patterns) {
    forall name, n :: name in patterns && n in patterns[name] ==> Arity(patterns[name][n]) == n
  }

  /**
   * Registration fills the slot for the pattern's name and arity and leaves
   * every other slot, of that name and of every other, as it was.
   */
  lemma RegisterSlot(patterns: Patterns, name: string, route: string, other: string, n: nat)
    ensures Lookup(Register(patterns, name, route), other, n) ==
      if other == name && n == Arity(route) then Some(route) else Lookup(patterns, other, n)
  {
  }

  /** Registration keeps every pattern in the slot of its own arity. */
  lemma RegisterWellKeyed(patterns: Patterns, name: string, route: string)
    requires WellKeyed(patterns)
    ensures WellKeyed(Register(patterns, name, route))
  {
  }

  /**
   * Helpers look the pattern up when called: after a registration, a call
   * with the new pattern's arity builds from the new pattern, and a call with
   * any other arity resolves as it did before.
   */
  lemma ResolvedAfterRegister(patterns: Patterns, name: string, route: string, args: seq<Arg>,
                              history: Option<HistoryOptions>)
    ensures PositionalCount(args) == Arity(route) ==>
      Resolved(Register(patterns, name, route), name, args, history) ==
      Some(BuildPath(route, UrlParams(args), QueryParamsOf(args), history))
    ensures PositionalCount(args) != Arity(route) ==>
      Resolved(Register(patterns, name, route), name, args, history) == Resolved(patterns, name, args, history)
  {
    RegisterSlot(patterns, name, route, name, PositionalCount(args));
  }

  /**
   * A helper called with as many positional values as its pattern has
   * placeholders leaves none of them in the path: the result is the root, the
   * normalised pattern with each placeholder filled in order, and the query.
   */
  lemma ResolvedComplete(patterns: Patterns, name: string, args: seq<Arg>, history: Option<HistoryOptions>)
    requires WellKeyed(patterns)
    requires Lookup(patterns, name, PositionalCount(args)).Some?
    requires NoDoubleColon(Lookup(patterns, name, PositionalCount(args)).value)
    requires ColonFree(RootPrefix(history))
    requires forall i :: 0 <= i < PositionalCount(args) ==> ColonFree(ArgText(args[i]))
    ensures
      var pattern := Lookup(patterns, name, PositionalCount(args)).value;
      var filled := Fill(Normalize(pattern), UrlParams(args));
      && Resolved(patterns, name, args, history) ==
         Some(RootPrefix(history) + filled + QuerySuffix(Filter(QueryParamsOf(args))))
      && Matches(filled) == []
  {
    var pattern := Lookup(patterns, name, PositionalCount(args)).value;
    assert Arity(pattern) == PositionalCount(args);
    PathShape(pattern, UrlParams(args), QueryParamsOf(args), history);
  }

  /** The registry: `Backbone.NamedRoutes.PATTERNS`, updated in place by each route registration. */
  class Registry {
    var patterns: Patterns

    ghost predicate Valid()
      reads this
    {
      WellKeyed(patterns)
    }

    /** `PATTERNS: {}`. */
    constructor ()
      ensures Valid() && patterns == map[]
    {
      patterns := map[];
    }

    /** The wrapped `route(route, name, callback)`, without the call to Backbone's own. */
    method Route(route: string, name: string)
      requires Valid()
      modifies this
      ensures Valid()
      ensures patterns == Register(old(patterns), name, route)
    {
      var slots := if name in patterns then patterns[name] else map[];
      patterns := patterns[name := slots];
      var numberOfParams := Arity(route);
      patterns := patterns[name := patterns[name][numberOfParams := route]];
      RegisterWellKeyed(old(patterns), name, route);
    }

    /** A call of the generated helper `<name>Path(args...)`; `None` where the helper throws. */
    method Resolve(name: string, args: seq<Arg>, history: Option<HistoryOptions>) returns (path: Option<string>)
      ensures path.None? <==> name !in patterns || PositionalCount(args) !in patterns[name]
      ensures path == Resolved(patterns, name, args, history)
    {
      if name !in patterns {
        return None;
      }
      var hasQueryParams := |args| > 0 && args[|args| - 1].Object?;
      var numberOfParams := if hasQueryParams then |args| - 1 else |args|;
      if numberOfParams !in patterns[name] {
        return None;
      }
      var routePattern := patterns[name][numberOfParams];
      var queryParams := QueryParamsOf(args);
      var urlParams := UrlParams(args);
      var built := PathFor(routePattern, urlParams, queryParams, history);
      path := Some(built);
    }
  }
}
