/**
 * Building the name-keyed route snapshot from the router's route list
 * (`nameKeyedRoutes`).
 */
module Snapshot {
  import opened PhpSupport
  import opened Registry

  /** A value stored in a route descriptor: `null`, a string or a list of strings. */
  datatype Value = Null | Str(s: string) | Strings(items: seq<string>)

  /** PHP truthiness, which `Collection::filter()` without a callback keeps. */
  predicate IsTruthy(v: Value) {
    match v
    case Null => false
    case Str(s) => Truthy(s)
    case Strings(items) => items != []
  }

  /** What a route descriptor holds: a map from `uri` / `methods` to their values. */
  type Descriptor = map<string, Value>

  /** A route as the router reports it. */
  datatype RawRoute = RawRoute(name: Option<string>, uri: string, methods: seq<string>, domain: Option<string>)

  /** Name prefixes of debugging and auto-generated routes, which never reach the snapshot. */
  const DebugbarPrefix: string := "debugbar."
  const GeneratedPrefix: string := "generated::"

  /** The route has a truthy name that starts with neither reserved prefix. */
  predicate Kept(name: Option<string>) {
    && name.Some?
    && Truthy(name.value)
    && !StartsWith(name.value, DebugbarPrefix)
    && !StartsWith(name.value, GeneratedPrefix)
  }

  /** `Collection::only($keys)`. */
  function Only(m: map<string, Value>, keys: set<string>): (r: map<string, Value>)
    ensures r.Keys == m.Keys * keys
    ensures forall k :: k in r ==> r[k] == m[k]
  {
    map k | k in m && k in keys :: m[k]
  }

  /** `Collection::filter()`: drops the entries whose value is falsy. */
  function DropFalsy(m: map<string, Value>): (r: map<string, Value>)
    ensures r.Keys <= m.Keys
    ensures forall k :: k in m ==> (k in r <==> IsTruthy(m[k]))
    ensures forall k :: k in r ==> r[k] == m[k]
  {
    map k | k in m && IsTruthy(m[k]) :: m[k]
  }

  function DomainValue(domain: Option<string>): Value {
    match domain
    case Some(d) => Str(d)
    case None => Null
  }

  /** The descriptor of one route: `uri` and `methods` when truthy, and nothing else. */
  function Describe(route: RawRoute): (d: Descriptor)
    ensures d.Keys <= {"uri", "methods"}
    ensures "uri" in d <==> Truthy(route.uri)
    ensures "uri" in d ==> d["uri"] == Str(route.uri)
    ensures "methods" in d <==> route.methods != []
    ensures "methods" in d ==> d["methods"] == Strings(route.methods)
  {
    var all := map["uri" := Str(route.uri), "methods" := Strings(route.methods), "domain" := DomainValue(route.domain)];
    DropFalsy(Only(all, {"uri", "methods"}))
  }

  /** The snapshot after the router's routes have been visited in order. */
  function SnapshotOf(routes: seq<RawRoute>): seq<Entry<Descriptor>> {
    if routes == [] then []
    else
      var last := routes[|routes| - 1];
      var before := SnapshotOf(routes[..|routes| - 1]);
      if Kept(last.name) then Put(before, last.name.value, Describe(last)) else before
  }

  /** `nameKeyedRoutes`: one pass over the router's routes, assigning each kept route under its name. */
  method NameKeyedRoutes(routes: seq<RawRoute>) returns (snapshot: seq<Entry<Descriptor>>)
    ensures snapshot == SnapshotOf(routes)
  {
    snapshot := [];
    for i := 0 to |routes|
      invariant snapshot == SnapshotOf(routes[..i])
    {
      var route := routes[i];
      assert routes[..i + 1][..i] == routes[..i];
      if route.name.Some? && Truthy(route.name.value)
        && !StartsWith(route.name.value, DebugbarPrefix)
        && !StartsWith(route.name.value, GeneratedPrefix)
      {
        snapshot := Put(snapshot, route.name.value, Describe(route));
      }
    }
    assert routes[..|routes|] == routes;
  }

  /** No two snapshot entries share a name. */
  lemma {:induction false} SnapshotDistinct(routes: seq<RawRoute>)
    ensures DistinctNames(SnapshotOf(routes))
  {
    if routes != [] {
      var last := routes[|routes| - 1];
      SnapshotDistinct(routes[..|routes| - 1]);
      if Kept(last.name) {
        PutDistinct(SnapshotOf(routes[..|routes| - 1]), last.name.value, Describe(last));
      }
    }
  }

  /** Every snapshot entry comes from a router route with that name, and that name is kept. */
  lemma {:induction false} SnapshotOnlyKept(routes: seq<RawRoute>, k: nat)
    requires k < |SnapshotOf(routes)|
    ensures Kept(Some(SnapshotOf(routes)[k].name))
    ensures exists i :: 0 <= i < |routes| && routes[i].name == Some(SnapshotOf(routes)[k].name)
  {
    var last := routes[|routes| - 1];
    var init := routes[..|routes| - 1];
    var before := SnapshotOf(init);
    var e := SnapshotOf(routes)[k];
    if Kept(last.name) && e == Entry(last.name.value, Describe(last)) {
      assert routes[|routes| - 1].name == Some(e.name);
    } else {
      assert e in before;
      var j :| 0 <= j < |before| && before[j] == e;
      SnapshotOnlyKept(init, j);
      var i :| 0 <= i < |init| && init[i].name == Some(e.name);
      assert routes[i] == init[i];
    }
  }

  /** A name is in the snapshot exactly when it is kept and some router route carries it. */
  lemma {:induction false} SnapshotHasName(routes: seq<RawRoute>, name: string)
    ensures Lookup(SnapshotOf(routes), name).Some?
        <==> Kept(Some(name)) && exists i :: 0 <= i < |routes| && routes[i].name == Some(name)
  {
    if routes != [] {
      var last := routes[|routes| - 1];
      var init := routes[..|routes| - 1];
      SnapshotHasName(init, name);
      if Kept(last.name) {
        PutLookup(SnapshotOf(init), last.name.value, Describe(last), name);
      }
      if exists i :: 0 <= i < |routes| && routes[i].name == Some(name) {
        var i :| 0 <= i < |routes| && routes[i].name == Some(name);
        if i < |init| {
          assert init[i] == routes[i];
        }
      }
      if exists i :: 0 <= i < |init| && init[i].name == Some(name) {
        var i :| 0 <= i < |init| && init[i].name == Some(name);
        assert routes[i] == init[i];
      }
    }
  }

  /** When several router routes share a kept name, the snapshot holds the last of them. */
  lemma {:induction false} SnapshotLastWins(routes: seq<RawRoute>, i: nat)
    requires i < |routes| && Kept(routes[i].name)
    requires forall j :: i < j < |routes| ==> routes[j].name != routes[i].name
    ensures Lookup(SnapshotOf(routes), routes[i].name.value) == Some(Describe(routes[i]))
  {
    var last := routes[|routes| - 1];
    var init := routes[..|routes| - 1];
    var name := routes[i].name.value;
    if i == |routes| - 1 {
      PutLookup(SnapshotOf(init), name, Describe(last), name);
    } else {
      assert init[i] == routes[i];
      SnapshotLastWins(init, i);
      if Kept(last.name) {
        PutLookup(SnapshotOf(init), last.name.value, Describe(last), name);
      }
    }
  }

  /** Later routes never move earlier entries: the snapshot of a prefix is a prefix of the names. */
  lemma {:induction false} SnapshotKeepsFirstPosition(routes: seq<RawRoute>, n: nat)
    requires n <= |routes|
    ensures |SnapshotOf(routes[..n])| <= |SnapshotOf(routes)|
    ensures forall k :: 0 <= k < |SnapshotOf(routes[..n])| ==> SnapshotOf(routes)[k].name == SnapshotOf(routes[..n])[k].name
  {
    if n < |routes| {
      var init := routes[..|routes| - 1];
      assert init[..n] == routes[..n];
      SnapshotKeepsFirstPosition(init, n);
    } else {
      assert routes[..n] == routes;
    }
  }
}
