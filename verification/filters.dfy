/** The filter sources and their precedence (`applyFilters`, `group`). */
module Filters {
  import opened PhpSupport
  import opened Registry
  import Glob

  /** A configured filter value: `null`, one pattern, or a list of patterns. */
  datatype Patterns = NullPatterns | OnePattern(pattern: string) | PatternList(patterns: seq<string>)

  /** `Arr::wrap`: null becomes no pattern, a single pattern a one-element list. */
  function Wrap(p: Patterns): seq<string> {
    match p
    case NullPatterns => []
    case OnePattern(x) => [x]
    case PatternList(xs) => xs
  }

  /** The explicit group handed to the constructor: `null`, one group name, or a list of group names. */
  datatype GroupArg = NoGroup | GroupName(name: string) | GroupNames(names: seq<string>)

  /** PHP truthiness of the group argument (`if ($group)`). */
  predicate GroupGiven(g: GroupArg) {
    match g
    case NoGroup => false
    case GroupName(name) => Truthy(name)
    case GroupNames(names) => names != []
  }

  /**
   * The `ziggy` configuration: `except` and `only` are `None` when the key is
   * absent (and `Some(NullPatterns)` when present with a null value).
   */
  datatype Config = Config(except: Option<Patterns>, only: Option<Patterns>, groups: map<string, Patterns>)

  /** Every listed group is configured, with a list of patterns (what `array_merge` accepts). */
  predicate GroupsListed(names: seq<string>, groups: map<string, Patterns>) {
    forall i :: 0 <= i < |names| ==> names[i] in groups && groups[names[i]].PatternList?
  }

  /** A list-of-groups argument names only groups configured as lists. */
  predicate GroupUsable(g: GroupArg, cfg: Config) {
    g.GroupNames? ==> GroupsListed(g.names, cfg.groups)
  }

  /** The patterns of the listed groups, concatenated in list order. */
  function GroupPatterns(names: seq<string>, groups: map<string, Patterns>): seq<string>
    requires GroupsListed(names, groups)
  {
    if names == [] then []
    else GroupPatterns(names[..|names| - 1], groups) + groups[names[|names| - 1]].patterns
  }

  /** A name matches the concatenated patterns exactly when it matches some listed group's patterns. */
  lemma {:induction false} GroupPatternsUnion(names: seq<string>, groups: map<string, Patterns>, name: string)
    requires GroupsListed(names, groups)
    ensures Glob.AnyMatches(GroupPatterns(names, groups), name)
        <==> exists i :: 0 <= i < |names| && Glob.AnyMatches(Wrap(groups[names[i]]), name)
  {
    if names != [] {
      var init := names[..|names| - 1];
      var last := names[|names| - 1];
      GroupPatternsUnion(init, groups, name);
      Glob.AnyMatchesAppend(GroupPatterns(init, groups), groups[last].patterns, name);
      if exists i :: 0 <= i < |names| && Glob.AnyMatches(Wrap(groups[names[i]]), name) {
        var i :| 0 <= i < |names| && Glob.AnyMatches(Wrap(groups[names[i]]), name);
        if i < |init| {
          assert init[i] == names[i];
        }
      }
      if exists i :: 0 <= i < |init| && Glob.AnyMatches(Wrap(groups[init[i]]), name) {
        var i :| 0 <= i < |init| && Glob.AnyMatches(Wrap(groups[init[i]]), name);
        assert names[i] == init[i];
      }
    }
  }

  /** What `group($g)` returns. A null argument reads as the empty group name. */
  function GroupSelected<V>(routes: seq<Entry<V>>, g: GroupArg, cfg: Config): seq<Entry<V>>
    requires GroupUsable(g, cfg)
  {
    match g
    case GroupNames(names) => Filtered(routes, GroupPatterns(names, cfg.groups), true)
    case GroupName(name) =>
      if name in cfg.groups then Filtered(routes, Wrap(cfg.groups[name]), true) else routes
    case NoGroup =>
      if "" in cfg.groups then Filtered(routes, Wrap(cfg.groups[""]), true) else routes
  }

  /** What `applyFilters($g)` returns: explicit group, then the except/only conflict, then except, then only. */
  function Selected<V>(routes: seq<Entry<V>>, g: GroupArg, cfg: Config): seq<Entry<V>>
    requires GroupUsable(g, cfg)
  {
    if GroupGiven(g) then GroupSelected(routes, g, cfg)
    else if cfg.except.Some? && cfg.only.Some? then routes
    else if cfg.except.Some? then Filtered(routes, Wrap(cfg.except.value), false)
    else if cfg.only.Some? then Filtered(routes, Wrap(cfg.only.value), true)
    else routes
  }

  /** A single pattern filters exactly as the one-element list holding it. */
  lemma SinglePatternIsList<V>(routes: seq<Entry<V>>, pattern: string, keepMatches: bool)
    ensures Filtered(routes, Wrap(OnePattern(pattern)), keepMatches) == Filtered(routes, Wrap(PatternList([pattern])), keepMatches)
  {
  }

  /** Selecting again with the same group and configuration changes nothing. */
  lemma {:induction false} SelectedIdempotent<V>(routes: seq<Entry<V>>, g: GroupArg, cfg: Config)
    requires GroupUsable(g, cfg)
    ensures Selected(Selected(routes, g, cfg), g, cfg) == Selected(routes, g, cfg)
  {
    if GroupGiven(g) {
      match g
      case GroupNames(names) =>
        FilteredIdempotent(routes, GroupPatterns(names, cfg.groups), true);
      case GroupName(name) =>
        if name in cfg.groups {
          FilteredIdempotent(routes, Wrap(cfg.groups[name]), true);
        }
    } else if cfg.except.Some? && cfg.only.Some? {
    } else if cfg.except.Some? {
      FilteredIdempotent(routes, Wrap(cfg.except.value), false);
    } else if cfg.only.Some? {
      FilteredIdempotent(routes, Wrap(cfg.only.value), true);
    }
  }

  /** The selection drops entries but never adds, changes or reorders one, and keeps names distinct. */
  lemma SelectedIsSubsequence<V>(routes: seq<Entry<V>>, g: GroupArg, cfg: Config)
    requires GroupUsable(g, cfg)
    ensures SubsequenceOf(Selected(routes, g, cfg), routes)
    ensures DistinctNames(routes) ==> DistinctNames(Selected(routes, g, cfg))
  {
    var patterns: seq<string>, keepMatches: bool, filtered: bool;
    if GroupGiven(g) {
      match g
      case GroupNames(names) =>
        patterns, keepMatches, filtered := GroupPatterns(names, cfg.groups), true, true;
      case GroupName(name) =>
        if name in cfg.groups {
          patterns, keepMatches, filtered := Wrap(cfg.groups[name]), true, true;
        } else {
          patterns, keepMatches, filtered := [], true, false;
        }
    } else if cfg.except.Some? && cfg.only.Some? {
      patterns, keepMatches, filtered := [], true, false;
    } else if cfg.except.Some? {
      patterns, keepMatches, filtered := Wrap(cfg.except.value), false, true;
    } else if cfg.only.Some? {
      patterns, keepMatches, filtered := Wrap(cfg.only.value), true, true;
    } else {
      patterns, keepMatches, filtered := [], true, false;
    }
    if filtered {
      assert Selected(routes, g, cfg) == Filtered(routes, patterns, keepMatches);
      FilteredKeepsOrder(routes, patterns, keepMatches);
      if DistinctNames(routes) {
        FilteredDistinct(routes, patterns, keepMatches);
      }
    } else {
      assert Selected(routes, g, cfg) == routes;
      SubsequenceOfItself(routes);
    }
  }

  lemma {:induction false} SubsequenceOfItself<T>(s: seq<T>)
    ensures SubsequenceOf(s, s)
  {
    if s != [] {
      SubsequenceOfItself(s[1..]);
    }
  }

  /** With an explicit group, the configured `except` and `only` play no part. */
  lemma ExplicitGroupIgnoresExceptOnly<V>(routes: seq<Entry<V>>, g: GroupArg, cfg: Config, except: Option<Patterns>, only: Option<Patterns>)
    requires GroupUsable(g, cfg) && GroupGiven(g)
    ensures Selected(routes, g, cfg) == Selected(routes, g, cfg.(except := except, only := only))
  {
  }

  /** Both `except` and `only` configured and no explicit group: every route comes back. */
  lemma ExceptAndOnlyConflict<V>(routes: seq<Entry<V>>, g: GroupArg, cfg: Config)
    requires GroupUsable(g, cfg) && !GroupGiven(g) && cfg.except.Some? && cfg.only.Some?
    ensures Selected(routes, g, cfg) == routes
  {
  }

  /** `except` alone drops exactly the routes whose names match it. */
  lemma ExceptDropsMatches<V>(routes: seq<Entry<V>>, g: GroupArg, cfg: Config, k: nat)
    requires GroupUsable(g, cfg) && !GroupGiven(g) && cfg.except.Some? && cfg.only.None?
    requires k < |routes|
    ensures routes[k] in Selected(routes, g, cfg) <==> !Glob.AnyMatches(Wrap(cfg.except.value), routes[k].name)
  {
  }

  /** `only` alone keeps exactly the routes whose names match it. */
  lemma OnlyKeepsMatches<V>(routes: seq<Entry<V>>, g: GroupArg, cfg: Config, k: nat)
    requires GroupUsable(g, cfg) && !GroupGiven(g) && cfg.except.None? && cfg.only.Some?
    requires k < |routes|
    ensures routes[k] in Selected(routes, g, cfg) <==> Glob.AnyMatches(Wrap(cfg.only.value), routes[k].name)
  {
  }

  /** Neither filter configured and no explicit group: every route comes back. */
  lemma NoFilterKeepsAll<V>(routes: seq<Entry<V>>, g: GroupArg, cfg: Config)
    requires GroupUsable(g, cfg) && !GroupGiven(g) && cfg.except.None? && cfg.only.None?
    ensures Selected(routes, g, cfg) == routes
  {
  }

  /** A configured group given by name selects what `only` set to that group's patterns would. */
  lemma NamedGroupIsOnly<V>(routes: seq<Entry<V>>, name: string, cfg: Config)
    requires Truthy(name) && name in cfg.groups
    ensures Selected(routes, GroupName(name), cfg) == Selected(routes, NoGroup, Config(None, Some(cfg.groups[name]), cfg.groups))
  {
  }

  /** A group name that is not configured leaves the routes unfiltered. */
  lemma UnknownGroupKeepsAll<V>(routes: seq<Entry<V>>, name: string, cfg: Config)
    requires Truthy(name) && name !in cfg.groups
    ensures Selected(routes, GroupName(name), cfg) == routes
  {
  }

  /** A list of groups keeps exactly the routes matching the patterns of at least one listed group. */
  lemma GroupListKeepsUnion<V>(routes: seq<Entry<V>>, names: seq<string>, cfg: Config, k: nat)
    requires names != [] && GroupsListed(names, cfg.groups) && k < |routes|
    ensures routes[k] in Selected(routes, GroupNames(names), cfg)
        <==> exists i :: 0 <= i < |names| && Glob.AnyMatches(Wrap(cfg.groups[names[i]]), routes[k].name)
  {
    GroupPatternsUnion(names, cfg.groups, routes[k].name);
  }

  /** `admin.*` matches the two admin route names and not `public.home`. */
  lemma AdminPatternMatches()
    ensures Glob.AnyMatches(["admin.*"], "admin.users")
    ensures Glob.AnyMatches(["admin.*"], "admin.posts")
    ensures !Glob.AnyMatches(["admin.*"], "public.home")
  {
    var ps := ["admin.*"];
    assert ps[0] == "admin." + "*";
    assert Glob.StarFree("admin.");
    Glob.PrefixStarMatches("admin.", "admin.users");
    Glob.PrefixStarMatches("admin.", "admin.posts");
    Glob.PrefixStarMatches("admin.", "public.home");
    assert "admin." <= "admin.users" && "admin." <= "admin.posts";
    assert !("admin." <= "public.home") by {
      assert "public.home"[0] != "admin."[0];
    }
  }

  /** `only`, `except` and a named group with the pattern `admin.*` over three routes. */
  lemma AdminPatternExample<V>(a: V, b: V, c: V)
    ensures var routes := [Entry("admin.users", a), Entry("admin.posts", b), Entry("public.home", c)];
            var admin := PatternList(["admin.*"]);
            && Selected(routes, NoGroup, Config(None, Some(admin), map[])) == routes[..2]
            && Selected(routes, NoGroup, Config(Some(admin), None, map[])) == routes[2..]
            && Selected(routes, GroupName("admin"), Config(None, None, map["admin" := admin])) == routes[..2]
  {
    var routes := [Entry("admin.users", a), Entry("admin.posts", b), Entry("public.home", c)];
    var ps := ["admin.*"];
    AdminPatternMatches();
    assert routes[1..][1..] == [routes[2]] && routes[2..][1..] == [];
    assert Filtered(routes[2..], ps, true) == [];
    assert Filtered(routes[1..], ps, true) == [routes[1]];
    assert Filtered(routes, ps, true) == [routes[0], routes[1]] == routes[..2];
    assert Filtered(routes[2..], ps, false) == [routes[2]];
    assert Filtered(routes[1..], ps, false) == [routes[2]];
    assert Filtered(routes, ps, false) == routes[2..];
  }
}
