# Backbone Named Routes, modelled in Dafny

Backbone Named Routes (version 0.1.2) adds path helpers to a Backbone
application. The library wraps `Router#route`. Each route pattern it
registers, such as `search/:query/p:page`, is stored in a registry
(`Backbone.NamedRoutes.PATTERNS`) under the route's name and its *arity*.
The arity is the number of `:word` placeholders in the pattern. Registration
also defines a helper `<name>Path`. When the helper is called, it reads the
last argument as a query object if that argument is an object. It counts the
remaining arguments, looks up the pattern of that arity, and passes that
pattern to `pathFor`, which:

1. prefixes `/` when the pattern does not start with one;
2. puts the history root in front, once `Backbone.history` has options and
   the root is not `/`;
3. replaces the leftmost remaining placeholder with each positional value in
   turn;
4. appends `?` and the serialised query object after dropping its `null` and
   `undefined` values. This step is skipped when nothing is left.

The model has six modules, plus `Wrappers`:

- `Placeholders` (`placeholders.dfy`) covers the placeholder regular
  expression `:\w+`, the token list `route.match(/\:\w+/g)`, the call
  `path.replace(/\:\w+/, param)`, and the substitution loop as an imperative
  method.
- `QueryParams` (`query_params.dfy`) covers `filterObject` as an imperative
  loop and the `key=value&...` serialisation, with a parser that inverts it.
- `PathBuilder` (`path_builder.dfy`) covers `pathFor` as a method. It is
  specified by the function `BuildPath`.
- `NamedRoutes` (`named_routes.dfy`) covers argument dispatch and the
  registry. The registry is a class whose `patterns` map is updated in place
  by `Route`. `Resolve` stands for a call of the generated helper.
- `Scenarios` (`scenarios.dfy`) states the query-object cases of the test
  suite for any keys and values.
- `PathScenarios` (`path_scenarios.dfy`) states paths the test suite expects
  from `pathFor`, with the test's own patterns, values, query object and root.

`Wrappers` holds the `Option` type. A helper call that throws in
JavaScript is `None` in the model.

Some behaviour is modelled explicitly:

- `Backbone.history.options` is a parameter. `None` means history was never
  started.
- A missing root is concatenated as the text `undefined`, as JavaScript's `+`
  does.
- A plain object passed as a positional value is replaced by
  `[object Object]`.
- A query object is a sequence of properties in enumeration order. Each
  property has a key, a value (`null`, `undefined` or text) and an
  own-property flag, because `filterObject` keeps own properties only.

The model follows the code where the repository's prose description goes
further:

- The code has no `includeRoot` option. The root is added whenever history
  options exist and the root is not `/`.
- The code does not collapse doubled slashes between the root and the
  pattern.
- The code has no `resetRoutes` or `addRoute`. One test calls `addRoute`,
  which the library does not define.

Two preconditions come from the library's regular-expression semantics:

- A colon right before a placeholder (`::id`) can form a new token once the
  first colon is followed by a value's word characters.
- A value or a root containing `:` can bring a token in, and a later value
  then consumes it.

The lemmas that relate the loop to placeholder-by-placeholder substitution
(`Fill`) therefore require `NoDoubleColon` of the pattern and colon-free
values and root. The loop itself (`Substitute`, `PathFor`) is modelled with
no such condition.

## Model

| member | source | states |
|---|---|---|
| Placeholders.FindTokenSpec | backbone_named_routes.js:20 | The token search returns nothing exactly when no `:`-plus-word-character starts anywhere. Otherwise it returns the leftmost such start, with its run of word characters taken in full (greedy `\w+`). |
| Placeholders.Substitute | backbone_named_routes.js:18-21 | The loop over `urlParams` leaves `path` equal to one leftmost-token replacement per value, applied in order. A replacement with no token left changes nothing. |
| Placeholders.SubstituteAllIsFill | backbone_named_routes.js:18-21 | Under the colon conditions, the loop equals placeholder-by-placeholder filling: the i-th placeholder gets the i-th value and every other character stays. |
| Placeholders.FillArity | backbone_named_routes.js:48 | Filling k values into a pattern with n placeholders leaves n − k of them, or none once k ≥ n. |
| Placeholders.SubstituteAllArity | backbone_named_routes.js:18-21 | The same count of remaining placeholders holds for the loop itself. |
| Placeholders.FillWithOwnTokens | backbone_named_routes.js:48 | Filling each placeholder with its own matched text gives the pattern back. So the tokens counted at registration are exactly the places the values go. |
| Placeholders.ColonFreeNoToken | backbone_named_routes.js:48 | A string without `:` has no placeholder and arity 0. |
| Placeholders.MatchesShift | backbone_named_routes.js:48 | A prefix that cannot start or complete a token adds no placeholder to the match list and removes none. |
| Placeholders.SubstituteAllShift | backbone_named_routes.js:18-21 | Behind such a prefix, the whole substitution loop happens in the text after it. |
| QueryParams.FilterObject | backbone_named_routes.js:72-84 | The `for-in` loop returns the specification `Filter`: the own, non-null, non-undefined properties in enumeration order. A `null` object gives nothing. |
| QueryParams.FilteredMembers | backbone_named_routes.js:75-79 | A property is in the filtered object exactly when it is in the input, is an own property and its value is neither `null` nor `undefined`. |
| QueryParams.FilteredAppend | backbone_named_routes.js:75-81 | Filtering works property by property: filtering a concatenation concatenates the filtered parts, so order is kept. |
| QueryParams.FilteredOfKept | backbone_named_routes.js:75-81 | An object whose properties all survive is returned unchanged. |
| QueryParams.FilterIdempotent | backbone_named_routes.js:72-84 | Filtering twice gives the same result as filtering once. |
| QueryParams.FilteredDistinct | backbone_named_routes.js:78 | Filtering keeps keys distinct: an object's keys stay unique in `filteredObject`. |
| QueryParams.ParseSerialize | backbone_named_routes.js:26 | For a non-empty query whose keys contain no `=` or `&` and whose values contain no `&`, splitting `$.param`'s output on `&` and `=` recovers the key/value pairs in order. |
| QueryParams.QuerySuffixShape | backbone_named_routes.js:25-27 | Nothing is appended exactly when the filtered object is empty. Otherwise the suffix starts with `?`, and when every kept pair is plain (no `=` or `&` in keys, no `&` in values) the text after it parses back to the pairs. |
| PathBuilder.RootedPattern | backbone_named_routes.js:14-16 | The path before substitution is the root prefix followed by the pattern with a leading `/` ensured. |
| PathBuilder.PathFor | backbone_named_routes.js:13-29 | `pathFor` returns `BuildPath`: substitution over root plus normalised pattern, followed by the query suffix of the filtered object. |
| PathBuilder.NormalizeLeadingSlash | backbone_named_routes.js:15 | The normalised pattern starts with `/`. It equals the pattern exactly when the pattern already starts with `/`, and is `/` plus the pattern otherwise. Normalising is idempotent and keeps the placeholders. |
| PathBuilder.RootPrefixApplied | backbone_named_routes.js:16 | With history options whose root is not `/`, the path is the root text (`undefined` if missing) followed by the path built without history. Otherwise it is the path built without history. |
| PathBuilder.PathShape | backbone_named_routes.js:13-29 | Every path is root, then the normalised pattern with placeholders filled in order, then the query suffix. The placeholders left number the arity minus the count of values, and none once the values cover them. |
| NamedRoutes.DispatchSplit | backbone_named_routes.js:53-57 | For every call, the last argument is taken as the query exactly when it is an object. All other arguments are positional, and their texts are passed in order, with an object among them becoming `[object Object]`. The counts add up to the number of arguments. When all positional arguments are strings, the values followed by the query object give back the call's arguments. |
| NamedRoutes.RegisterSlot | backbone_named_routes.js:44-49 | Registering fills the slot for the route's name and arity and leaves every other slot of every name unchanged. A second pattern with the same name and arity overwrites the first. |
| NamedRoutes.RegisterWellKeyed | backbone_named_routes.js:48-49 | Registration keeps every stored pattern in the slot of its own arity. |
| NamedRoutes.ResolvedAfterRegister | backbone_named_routes.js:56 | The helper looks the pattern up at call time. After a registration, a call with the new arity builds from the new pattern, and calls with other arities resolve as before. |
| NamedRoutes.ResolvedComplete | backbone_named_routes.js:52-60 | A helper call with as many positional values as its pattern has placeholders leaves no placeholder. The path is root plus filled pattern plus query suffix. |
| NamedRoutes.Registry.constructor | backbone_named_routes.js:11 | The registry starts empty and well keyed. |
| NamedRoutes.Registry.Route | backbone_named_routes.js:41-50 | The registry becomes `Register(old patterns, name, route)` and stays well keyed. |
| NamedRoutes.Registry.Resolve | backbone_named_routes.js:52-60 | The helper fails exactly when the name was never registered or no pattern has that arity. Otherwise it returns `pathFor` of that pattern, the positional values and the query object. |
| Scenarios.NullAndUndefinedDropped | spec/backbone_named_routes_spec.js:60-62 | For an object shaped like `{ foo: "bar", baz: undefined, boo: null }`, only the first pair survives, and the suffix is `?` plus that pair. |
| Scenarios.AllDefinedKept | spec/backbone_named_routes_spec.js:50-52 | For an object shaped like `{ foo: "bar", baz: "boo" }`, both pairs survive in order, joined by `&` after `?`. |
| Scenarios.NothingDefined | spec/backbone_named_routes_spec.js:53-63 | For `{}` and an object shaped like `{ foo: undefined }`, nothing is appended. |
| PathScenarios.SubstituteTwo | backbone_named_routes.js:18-21 | For a pattern `a:w1b:w2` with two placeholders, where `b` does not begin with a word character and neither `a` nor the text `a v1 b` in front of the second placeholder (first value included) contains a token start or ends with `:`, the two values fill the placeholders in order and everything else stays. |
| PathScenarios.FooPath | spec/backbone_named_routes_spec.js:10 | The pattern `/foo/:id/bar/:id_2` with `hello` and `world` gives `/foo/hello/bar/world`. |
| PathScenarios.SearchPath | spec/backbone_named_routes_spec.js:42 | The pattern `search/:query` with `kiwis` gives `/search/kiwis`. |
| PathScenarios.SearchPagePath | spec/backbone_named_routes_spec.js:43 | The pattern `search/:query/p:page` with `kiwis` and `7` gives `/search/kiwis/p7`. |
| PathScenarios.FooBarBazBooSuffix | spec/backbone_named_routes_spec.js:50 | The query object `{ foo: "bar", baz: "boo" }` is appended as `?foo=bar&baz=boo`. |
| PathScenarios.ArticlesHelpPath | spec/backbone_named_routes_spec.js:70-72 | With history root `/articles`, the pattern `help` with that query object gives `/articles/help?foo=bar&baz=boo`. |

## Left out

- The call to Backbone's own `Router#route` (`original.apply`, line 63): route matching and callbacks belong to Backbone, which is not part of this model.
- Mixing the helper object into the `View` and `Router` prototypes (lines 32-38): this is only aliasing of one shared object.
- Creating the property `<name>Path` is not modelled as a dynamic property. `Registry.Resolve` with the name stands for calling it. The helper's absence is `None`, like any other throw.
- `$.param` percent-encoding, and its handling of nested objects and arrays: the model joins `key=value` with `&`. `ParseSerialize` therefore states its round trip for plain pairs only.
- `$` replacement patterns (such as `$&`) inside a value passed to `String.prototype.replace`: values are inserted literally.
- `_.isObject` is also true for functions and arrays. The model's arguments are only strings (numbers in decimal form) and plain objects.
- Number arguments are modelled by their decimal text. The conversion itself is not modelled.
- Route patterns given as regular expressions: the model takes string patterns only.
- Test-suite paths are stated for `pathFor` itself with the test's patterns, values, queries and root (`PathScenarios`). They are not restated as helper calls on a registry filled by `Route`. The other expected paths of the suite combine these same patterns, values and query objects.
- Placeholders.SubstituteAllIsFill: requires a pattern without `::` and colon-free values, because the regular expression rescans text a value brought in.
- Placeholders.FillArity: the same conditions, for the same reason.
- Placeholders.SubstituteAllArity: the same conditions, for the same reason.
- PathBuilder.RootPrefixApplied: requires a root without `:`, because a root placeholder would be consumed by the first value.
- PathBuilder.PathShape: requires the colon conditions of `SubstituteAllIsFill` and a colon-free root.
- NamedRoutes.ResolvedComplete: requires the same colon conditions for the looked-up pattern, the positional values and the root.
- PathScenarios.SubstituteTwo: requires that the text before each placeholder, first value included, holds no token start and does not end with `:`, because otherwise the second value replaces a token the first value brought in (`/:a/:b` with `x:y`, `z` gives `/xz/:b`).
- QueryParams.ParseSerialize: requires a non-empty query of plain pairs (no `=` or `&` in keys, no `&` in values) because encoding is not modelled.
