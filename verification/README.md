# Ziggy route extraction, modelled in Dafny

Ziggy turns a Laravel application's named routes into a portable data
structure for client-side URL builders. A `Ziggy` object takes a snapshot of
the router's named routes when it is constructed. It then narrows them by
name patterns: an explicit group, or the `except` / `only` / `groups`
configuration. `toArray()` returns the URL, port, default URL parameters and
the surviving routes. A separate routine, `resolveBindings`, works out which
model field identifies each route-model-bound parameter.

The model has seven modules:

- `PhpSupport`: `Option`, PHP string truthiness, `Str::startsWith` and `rtrim($url, '/')`.
- `Glob`: `Str::is` as a recursive `*` glob matcher, with its properties.
- `Registry`: the name-keyed, insertion-ordered route collection. It covers
  assignment by key (`Put`), the `filter` step (`Filtered`) and its laws.
- `Snapshot`: `nameKeyedRoutes`, which drops unnamed and reserved routes,
  lets the last route with a name win, and keeps only a truthy `uri` and `methods`.
- `Filters`: `applyFilters` and `group` as specification functions, with the precedence lemmas.
- `Bindings`: `resolveBindings`, as a method proved against specification
  functions. It takes the override test as a parameter: the code's own
  (`AsWritten`) or the corrected one (`Corrected`, see "## Findings").
- `ZiggyCore`: the `Ziggy` class. Its `routes` field is reassigned by
  `Filter`, and through it by `Group`, `ApplyFilters` and `ToArray`.

The framework collaborators are parameters:

- the router's route list (`RawRoute` values);
- `url('/')`;
- the URL parser's port, a function of the trimmed URL;
- the `ziggy` configuration (`Config`);
- the URL generator's default parameters;
- for each model class, the class that declares its `getRouteKeyName` and
  what that method returns (`ModelType`), in place of reflection.

At these points the model follows the code, which some readers may not expect:

- The route descriptor never keeps `domain`, even when a route has one (`->only(['uri', 'methods'])`).
- A list of group names that includes an unconfigured group fails in
  `array_merge`; it does not fall back to the unfiltered routes. This is the
  `GroupUsable` precondition.
- A route named `"0"` is dropped, because PHP treats that string as falsy.
- A `"0"` URI is also dropped from its descriptor, for the same reason.

## Model

| member | source | states |
|---|---|---|
| `PhpSupport.TrimTrailingSlashes` | src/Ziggy.php:23 | the result is a prefix of the URL, does not end in `/`, and everything removed was `/` |
| `Glob.Matches` | src/Ziggy.php:79 | definition of one `Str::is` pattern match; described by `Glob.LiteralMatches`, `Glob.MatchesItself`, `Glob.StarMatchesAll`, `Glob.PrefixStarMatches` |
| `Glob.AnyMatches` | src/Ziggy.php:79 | definition: `Str::is` over a pattern list holds when some pattern matches; described by `Glob.AnyMatchesAppend` |
| `Glob.LiteralMatches` | src/Ziggy.php:79 | a pattern without `*` matches a name iff the two are identical |
| `Glob.MatchesItself` | src/Ziggy.php:79 | every name matches itself used as a pattern |
| `Glob.StarMatchesAll` | src/Ziggy.php:79 | the pattern `*` matches every name |
| `Glob.PrefixStarMatches` | src/Ziggy.php:79 | `prefix*` (star-free prefix) matches exactly the names starting with the prefix |
| `Glob.MatchesConcat` | src/Ziggy.php:79 | a match of two pattern halves on two name halves is a match of the concatenations |
| `Glob.PrefixStarOnlyPrefixes` | src/Ziggy.php:79 | a name matching `prefix*` (star-free prefix) starts with the prefix |
| `Glob.AnyMatchesAppend` | src/Ziggy.php:60 | matching a concatenated pattern list is matching either list |
| `Registry.Put` | src/Ziggy.php:95 | assigning under a name keeps every existing entry's position, replaces only the entry with that name, or appends it |
| `Registry.PutLookup` | src/Ziggy.php:95 | after assignment, the name finds the new value and every other name what it found before |
| `Registry.PutDistinct` | src/Ziggy.php:95 | assignment by key keeps names unique |
| `Registry.LookupEntry` | src/Ziggy.php:95 | with unique names, every entry is what its name looks up |
| `Registry.Filtered` | src/Ziggy.php:78-80 | survivors are exactly the entries whose name-matches-any-pattern equals the include flag, with their values |
| `Registry.FilteredKeepsOrder` | src/Ziggy.php:78-80 | filtering keeps survivors in their relative order (a subsequence) |
| `Registry.FilteredDistinct` | src/Ziggy.php:78 | filtering keeps names unique |
| `Registry.FilteredIdempotent` | src/Ziggy.php:78-80 | filtering twice with the same patterns and flag equals filtering once |
| `Registry.FilteredPartition` | src/Ziggy.php:78-80 | include and exclude results split the routes: sizes add up and multisets sum to the original |
| `Snapshot.Kept` | src/Ziggy.php:92-94 | definition of the guard: truthy name, not `debugbar.`- or `generated::`-prefixed; described by `Snapshot.SnapshotOnlyKept`, `Snapshot.SnapshotHasName` |
| `Snapshot.SnapshotOf` | src/Ziggy.php:88-104 | definition of the snapshot after visiting the router's routes in order; described by `Snapshot.NameKeyedRoutes` and the `Snapshot` lemmas below |
| `Snapshot.Describe` | src/Ziggy.php:99-103 | a descriptor has keys only from `uri`, `methods` (never `domain`); each present iff truthy, holding the route's value |
| `Snapshot.NameKeyedRoutes` | src/Ziggy.php:88-104 | the loop builds exactly the snapshot of the router's route list |
| `Snapshot.SnapshotDistinct` | src/Ziggy.php:95 | snapshot names are unique |
| `Snapshot.SnapshotOnlyKept` | src/Ziggy.php:91-96 | every snapshot entry's name is truthy, not `debugbar.`/`generated::`-prefixed, and carried by some router route |
| `Snapshot.SnapshotHasName` | src/Ziggy.php:91-96 | a name is in the snapshot iff it is kept and some router route carries it |
| `Snapshot.SnapshotLastWins` | src/Ziggy.php:95 | for a name shared by several routes, the snapshot holds the last route's descriptor |
| `Snapshot.SnapshotKeepsFirstPosition` | src/Ziggy.php:95 | later routes never move entries already in the snapshot |
| `Filters.Wrap` | src/Ziggy.php:79 | definition of `Arr::wrap`: null is no pattern, one pattern a one-element list; described by `Filters.SinglePatternIsList` |
| `Filters.GroupSelected` | src/Ziggy.php:54-71 | definition of what `group()` returns; described by `Filters.NamedGroupIsOnly`, `Filters.UnknownGroupKeepsAll`, `Filters.GroupListKeepsUnion` |
| `Filters.Selected` | src/Ziggy.php:29-49 | definition of the precedence in `applyFilters`; described by `Filters.SelectedIdempotent`, `Filters.SelectedIsSubsequence` and the precedence lemmas below |
| `Filters.GroupPatternsUnion` | src/Ziggy.php:57-61 | a name matches the merged group patterns iff it matches some listed group's patterns |
| `Filters.SinglePatternIsList` | src/Ziggy.php:79 | a single pattern filters like the one-element list holding it |
| `Filters.SelectedIdempotent` | src/Ziggy.php:29-49 | applying the filters to their own result changes nothing |
| `Filters.SelectedIsSubsequence` | src/Ziggy.php:29-49 | the selection is a subsequence of the routes, with unique names preserved |
| `Filters.ExplicitGroupIgnoresExceptOnly` | src/Ziggy.php:31-33 | with a truthy group argument, `except`/`only` do not affect the result |
| `Filters.ExceptAndOnlyConflict` | src/Ziggy.php:35-38 | both `except` and `only` set and no group: routes come back unchanged |
| `Filters.ExceptDropsMatches` | src/Ziggy.php:40-42 | `except` alone keeps a route iff its name matches no `except` pattern |
| `Filters.OnlyKeepsMatches` | src/Ziggy.php:44-46 | `only` alone keeps a route iff its name matches an `only` pattern |
| `Filters.NoFilterKeepsAll` | src/Ziggy.php:48 | with no group and neither option, routes come back unchanged |
| `Filters.NamedGroupIsOnly` | src/Ziggy.php:66-68 | a configured group name selects what `only` set to that group's patterns selects |
| `Filters.UnknownGroupKeepsAll` | src/Ziggy.php:66-70 | an unconfigured group name returns the routes unchanged |
| `Filters.GroupListKeepsUnion` | src/Ziggy.php:56-64 | a list of groups keeps a route iff it matches some listed group's patterns |
| `Filters.AdminPatternMatches` | src/Ziggy.php:79 | `admin.*` matches `admin.users` and `admin.posts` but not `public.home` |
| `Filters.AdminPatternExample` | src/Ziggy.php:29-49 | on those three routes, `only`/a group `admin.*` keeps the two admin routes and `except` keeps `public.home` |
| `Bindings.KeyNameAsWritten` | src/Ziggy.php:153-156 | the override test as written: the model's key only when the model class itself declares `getRouteKeyName`, else `"id"` |
| `Bindings.InheritedOverrideIsMissed` | src/Ziggy.php:153-156 | a model inheriting a `slug` key from its parent gets `"id"` from the test as written |
| `Bindings.KeyName` | src/Ziggy.php:153-156 | `"id"` without consulting the model when the base declaration is in effect, and otherwise the model's actual route key |
| `Bindings.KeyNameAgreesWhenDirect` | src/Ziggy.php:153 | the corrected and as-written tests agree when the model declares the method itself or inherits the base one |
| `Bindings.ParameterBindings` | src/Ziggy.php:149-157 | definition of `$bindings` after the parameter loop, under either override test; described by `Bindings.ParameterBindingsKeys`, `Bindings.ParameterBindingsLastWins` |
| `Bindings.RouteBindings` | src/Ziggy.php:159 | definition of a route's bindings merged with `bindingFields()` when scoped; described by `Bindings.RouteBindingsValue`, `Bindings.RouteBindingsKeys` |
| `Bindings.ParameterBindingsKeys` | src/Ziggy.php:149-157 | a route's parameter bindings name exactly its bound parameters |
| `Bindings.ParameterBindingsLastWins` | src/Ziggy.php:149-157 | a parameter name repeated in the signature is bound to the last one's key, under either override test |
| `Bindings.RouteBindingsValue` | src/Ziggy.php:149-159 | with scoped bindings a `bindingFields()` entry wins for its parameter; otherwise the parameter gets its model's key under the chosen override test |
| `Bindings.AsWrittenBinding` | src/Ziggy.php:149-159 | with the code's test, a parameter not taken by `bindingFields()` gets `"id"` unless its model class itself declares `getRouteKeyName`, and then that method's result |
| `Bindings.CorrectedBinding` | src/Ziggy.php:149-159 | with the corrected test, such a parameter gets its model's actual route key, which is `"id"` under the base declaration |
| `Bindings.InheritedOverrideRoute` | src/Ziggy.php:149-159 | a `post` parameter inheriting a `slug` key is bound to `"id"` as written and to `"slug"` corrected |
| `Bindings.RouteBindingsKeys` | src/Ziggy.php:159 | the bindings name the bound parameters plus, when scoped, the `bindingFields()` names |
| `Bindings.ResolveBindings` | src/Ziggy.php:142-163 | each route, in order and under the same name, maps to its merged bindings; with `AsWritten` the loop applies the line-153 test exactly, with `Corrected` the fixed one |
| `ZiggyCore.Ziggy.constructor` | src/Ziggy.php:19-27 | keeps the group, trims trailing slashes from the URL (or from `url('/')`), takes the port of that URL, snapshots the routes |
| `ZiggyCore.Ziggy.Filter` | src/Ziggy.php:76-83 | reassigns `routes` to the filtered routes, keeps names unique, returns itself |
| `ZiggyCore.Ziggy.Group` | src/Ziggy.php:54-71 | merges listed groups' patterns in a loop, or uses one configured group, and leaves `routes` equal to what it returns |
| `ZiggyCore.Ziggy.ApplyFilters` | src/Ziggy.php:29-49 | returns the precedence selection and leaves `routes` equal to it |
| `ZiggyCore.Ziggy.ToArray` | src/Ziggy.php:109-119 | returns url, port, defaults (empty when unavailable) and the selection by the object's own group |
| `ZiggyCore.Ziggy.ToArrayTwice` | src/Ziggy.php:109-119 | although `toArray` narrows `routes` in place, a second call returns the same data |

## Findings

| source | as written | input that shows it | evidently intended | confidence | as-written member | corrected member |
|---|---|---|---|---|---|---|
| src/Ziggy.php:153-156 | `$override` holds only when the class declaring `getRouteKeyName` is the parameter's model class itself | `Post extends SluggedModel`, where `SluggedModel` overrides `getRouteKeyName()` to return `slug`: the `Post` parameter is bound to `id` | avoid booting the model only when the framework base `Model`'s `getRouteKeyName` is in effect | medium; not executed | `Bindings.KeyNameAsWritten`, `Bindings.InheritedOverrideIsMissed`, `Bindings.ResolveBindings` with `AsWritten`, `Bindings.InheritedOverrideRoute` | `Bindings.KeyName`, `Bindings.ResolveBindings` with `Corrected`, `Bindings.CorrectedBinding` |

`Bindings.ParameterBindings`, `Bindings.RouteBindings` and
`Bindings.ResolveBindings` take the override test as a parameter, so the loop
is proved both as written and corrected. `Bindings.KeyNameAgreesWhenDirect`
shows that the two tests differ only on models that inherit an override.

## Left out

- JSON encoding (`jsonSerialize`, `toJson`) and the `(object)` cast of the defaults: serialization detail, not logic.
- Port extraction by `parse_url`: the constructor takes the parser as a function `portOf` and applies it to the trimmed URL.
- `app('router')`, `config()`, `url('/')`, `app('url')`: these framework collaborators become parameters.
- The `method_exists` test on `getDefaultParameters` becomes an `Option` of the defaults.
- The `method_exists` test on `bindingFields` of the first route becomes the `scoped` flag of `ResolveBindings`.
- Reflection and container instantiation (`ReflectionMethod`, `Reflector::getParameterClassName`, `app($model)`): each model is a `ModelType` record. Its parameters are the ones `signatureParameters(UrlRoutable::class)` reports.
- That instantiating a model has side effects: `KeyName`'s contract says only that the base case yields `"id"` whatever the model would return.
- A model's custom primary key: `WellFormed` takes the base `getRouteKeyName` to return `"id"`.
- `Str::is` on multi-line names: its regex `.` does not match a newline, while the model's `*` matches every character. Invalid UTF-8 names are not modelled either.
- Dot notation in group names: `ziggy.groups.{name}` with a `.` in the name addresses a nested configuration key; the model looks the name up in one flat `groups` map.
- A null group argument given directly to `group()` is read as the empty group name. `applyFilters` never passes one.
- Group arguments that are neither null, a string nor a list (integers, booleans) are not modelled.
- The key order inside a route descriptor and inside a bindings map: both are Dafny maps. Route order is modelled.
- `ZiggyCore.Ziggy.Group`: requires that every listed group be configured as a list, because `array_merge` fails at runtime on a missing or non-list group.
- `Bindings.ResolveBindings` is not called by `toArray`, matching the source, where nothing calls `resolveBindings`.
