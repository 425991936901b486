/**
 * Route-model binding keys (`resolveBindings`): which model field identifies
 * each bound route parameter in a URL.
 */
module Bindings {
  import opened Registry

  /** The framework's base model class, which declares the default `getRouteKeyName`. */
  const BaseModel: string := "Illuminate\\Database\\Eloquent\\Model"

  /** The default route key of a model that does not override `getRouteKeyName`. */
  const DefaultKey: string := "id"

  /**
   * A model class as the binding code sees it: its name, the class that
   * declares the `getRouteKeyName` it runs, and what that method returns.
   */
  datatype ModelType = ModelType(name: string, keyNameDeclaredIn: string, routeKeyName: string)

  /** The base class's `getRouteKeyName` returns the default key. */
  predicate WellFormed(m: ModelType) {
    m.keyNameDeclaredIn == BaseModel ==> m.routeKeyName == DefaultKey
  }

  /** A route parameter typed as a routable model. */
  datatype Parameter = Parameter(name: string, model: ModelType)

  /** What `resolveBindings` reads from a route: its bound parameters and its `bindingFields()`. */
  datatype BoundRoute = BoundRoute(parameters: seq<Parameter>, bindingFields: map<string, string>)

  /**
   * The key as the override test is written: the model's own key name only when
   * the model class itself declares `getRouteKeyName`, `"id"` otherwise.
   */
  function KeyNameAsWritten(m: ModelType): (key: string)
    ensures m.name != m.keyNameDeclaredIn ==> key == DefaultKey
    ensures m.name == m.keyNameDeclaredIn ==> key == m.routeKeyName
  {
    if m.name == m.keyNameDeclaredIn then m.routeKeyName else DefaultKey
  }

  /** A model whose parent class overrides `getRouteKeyName` gets `"id"` from the test as written. */
  lemma InheritedOverrideIsMissed()
    ensures var m := ModelType("App\\Models\\Post", "App\\Models\\SluggedModel", "slug");
            WellFormed(m) && KeyNameAsWritten(m) != m.routeKeyName
  {
  }

  /**
   * The key with the override test comparing against the base model: the
   * model's key name whenever any class other than the base declares it, and
   * `"id"`, without asking the model, when the base declaration is in effect.
   */
  function KeyName(m: ModelType): (key: string)
    ensures m.keyNameDeclaredIn == BaseModel ==> key == DefaultKey
    ensures WellFormed(m) ==> key == m.routeKeyName
  {
    if m.keyNameDeclaredIn != BaseModel then m.routeKeyName else DefaultKey
  }

  /** The two tests agree on every model that declares its own key name or inherits the base one. */
  lemma KeyNameAgreesWhenDirect(m: ModelType)
    requires m.name != BaseModel
    requires m.keyNameDeclaredIn == m.name || m.keyNameDeclaredIn == BaseModel
    ensures KeyName(m) == KeyNameAsWritten(m)
  {
  }

  /** Which override test the binding code applies: the one in the code, or the corrected one. */
  datatype KeyRule = AsWritten | Corrected

  /** The key a model gets under the chosen override test. */
  function RuleKey(rule: KeyRule, m: ModelType): string {
    match rule
    case AsWritten => KeyNameAsWritten(m)
    case Corrected => KeyName(m)
  }

  /** The bindings of a parameter list, visited in order; a repeated parameter name keeps the later key. */
  function ParameterBindings(parameters: seq<Parameter>, rule: KeyRule): map<string, string> {
    if parameters == [] then map[]
    else
      var last := parameters[|parameters| - 1];
      ParameterBindings(parameters[..|parameters| - 1], rule)[last.name := RuleKey(rule, last.model)]
  }

  /** `$scopedBindings ? array_merge($bindings, $route->bindingFields()) : $bindings`. */
  function RouteBindings(route: BoundRoute, scoped: bool, rule: KeyRule): map<string, string> {
    var bindings := ParameterBindings(route.parameters, rule);
    if scoped then bindings + route.bindingFields else bindings
  }

  /** The parameter bindings name exactly the bound parameters. */
  lemma {:induction false} ParameterBindingsKeys(parameters: seq<Parameter>, rule: KeyRule, name: string)
    ensures name in ParameterBindings(parameters, rule) <==> exists i :: 0 <= i < |parameters| && parameters[i].name == name
  {
    if parameters != [] {
      var init := parameters[..|parameters| - 1];
      ParameterBindingsKeys(init, rule, name);
      if exists i :: 0 <= i < |init| && init[i].name == name {
        var i :| 0 <= i < |init| && init[i].name == name;
        assert parameters[i] == init[i];
      }
      if exists i :: 0 <= i < |parameters| && parameters[i].name == name {
        var i :| 0 <= i < |parameters| && parameters[i].name == name;
        if i < |init| {
          assert init[i] == parameters[i];
        }
      }
    }
  }

  /** A parameter's binding is the key of the last parameter with that name. */
  lemma {:induction false} ParameterBindingsLastWins(parameters: seq<Parameter>, rule: KeyRule, i: nat)
    requires i < |parameters|
    requires forall j :: i < j < |parameters| ==> parameters[j].name != parameters[i].name
    ensures parameters[i].name in ParameterBindings(parameters, rule)
    ensures ParameterBindings(parameters, rule)[parameters[i].name] == RuleKey(rule, parameters[i].model)
  {
    if i < |parameters| - 1 {
      var init := parameters[..|parameters| - 1];
      assert init[i] == parameters[i];
      ParameterBindingsLastWins(init, rule, i);
    }
  }

  /**
   * The route's bindings: the scoped `bindingFields()` entries when available
   * win for their parameter names; every other bound parameter gets its
   * model's key under the chosen override test.
   */
  lemma RouteBindingsValue(route: BoundRoute, scoped: bool, rule: KeyRule, i: nat)
    requires i < |route.parameters|
    requires forall j :: i < j < |route.parameters| ==> route.parameters[j].name != route.parameters[i].name
    ensures var name := route.parameters[i].name;
            var bindings := RouteBindings(route, scoped, rule);
            && name in bindings
            && bindings[name] == if scoped && name in route.bindingFields then route.bindingFields[name]
                                 else RuleKey(rule, route.parameters[i].model)
  {
    ParameterBindingsLastWins(route.parameters, rule, i);
  }

  /**
   * As written: a parameter not overridden by `bindingFields()` is bound to
   * `"id"` unless its model class itself declares `getRouteKeyName`, and to
   * that method's result when it does.
   */
  lemma AsWrittenBinding(route: BoundRoute, scoped: bool, i: nat)
    requires i < |route.parameters|
    requires forall j :: i < j < |route.parameters| ==> route.parameters[j].name != route.parameters[i].name
    requires !(scoped && route.parameters[i].name in route.bindingFields)
    ensures var p := route.parameters[i];
            && p.name in RouteBindings(route, scoped, AsWritten)
            && RouteBindings(route, scoped, AsWritten)[p.name]
              == if p.model.name == p.model.keyNameDeclaredIn then p.model.routeKeyName else DefaultKey
  {
    RouteBindingsValue(route, scoped, AsWritten, i);
  }

  /**
   * Corrected: such a parameter is bound to `"id"` when the base model's
   * declaration is in effect, and otherwise to the model's actual route key.
   */
  lemma CorrectedBinding(route: BoundRoute, scoped: bool, i: nat)
    requires i < |route.parameters| && WellFormed(route.parameters[i].model)
    requires forall j :: i < j < |route.parameters| ==> route.parameters[j].name != route.parameters[i].name
    requires !(scoped && route.parameters[i].name in route.bindingFields)
    ensures var p := route.parameters[i];
            && p.name in RouteBindings(route, scoped, Corrected)
            && RouteBindings(route, scoped, Corrected)[p.name] == p.model.routeKeyName
            && (p.model.keyNameDeclaredIn == BaseModel ==> RouteBindings(route, scoped, Corrected)[p.name] == DefaultKey)
  {
    RouteBindingsValue(route, scoped, Corrected, i);
  }

  /** A route whose `post` parameter inherits a `slug` key: bound to `"id"` as written, to `"slug"` corrected. */
  lemma InheritedOverrideRoute()
    ensures var route := BoundRoute([Parameter("post", ModelType("App\\Models\\Post", "App\\Models\\SluggedModel", "slug"))], map[]);
            && RouteBindings(route, false, AsWritten)["post"] == DefaultKey
            && RouteBindings(route, false, Corrected)["post"] == "slug"
  {
    var route := BoundRoute([Parameter("post", ModelType("App\\Models\\Post", "App\\Models\\SluggedModel", "slug"))], map[]);
    RouteBindingsValue(route, false, AsWritten, 0);
    RouteBindingsValue(route, false, Corrected, 0);
  }

  /** The route's bindings name the bound parameters plus, when scoped, the `bindingFields()` names. */
  lemma RouteBindingsKeys(route: BoundRoute, scoped: bool, rule: KeyRule, name: string)
    ensures name in RouteBindings(route, scoped, rule)
        <==> (exists i :: 0 <= i < |route.parameters| && route.parameters[i].name == name)
             || (scoped && name in route.bindingFields)
  {
    ParameterBindingsKeys(route.parameters, rule, name);
  }

  /**
   * `resolveBindings`: for each route, in order and under the same name, the
   * bindings of its parameters, merged with `bindingFields()` when the route
   * class provides scoped bindings. `rule` selects the override test: the
   * code's own (`AsWritten`) or the corrected one.
   */
  method ResolveBindings(routes: seq<Entry<BoundRoute>>, scoped: bool, rule: KeyRule) returns (resolved: seq<Entry<map<string, string>>>)
    ensures |resolved| == |routes|
    ensures forall k :: 0 <= k < |routes| ==>
              resolved[k] == Entry(routes[k].name, RouteBindings(routes[k].value, scoped, rule))
  {
    resolved := [];
    for k := 0 to |routes|
      invariant |resolved| == k
      invariant forall j :: 0 <= j < k ==> resolved[j] == Entry(routes[j].name, RouteBindings(routes[j].value, scoped, rule))
    {
      var route := routes[k].value;
      var bindings: map<string, string> := map[];
      for p := 0 to |route.parameters|
        invariant bindings == ParameterBindings(route.parameters[..p], rule)
      {
        var parameter := route.parameters[p];
        assert route.parameters[..p + 1][..p] == route.parameters[..p];
        var model := parameter.model;
        var override := match rule
          case AsWritten => model.name == model.keyNameDeclaredIn
          case Corrected => model.keyNameDeclaredIn != BaseModel;
        bindings := bindings[parameter.name := if override then model.routeKeyName else DefaultKey];
      }
      assert route.parameters[..|route.parameters|] == route.parameters;
      resolved := resolved + [Entry(routes[k].name, if scoped then bindings + route.bindingFields else bindings)];
    }
  }
}
