/** The `Ziggy` object: snapshot at construction, filtering that reassigns `routes`, and `toArray`. */
module ZiggyCore {
  import opened PhpSupport
  import opened Registry
  import opened Snapshot
  import opened Filters

  /** What `toArray` returns. */
  datatype ZiggyData = ZiggyData(url: string, port: Option<nat>, defaults: map<string, string>, routes: seq<Entry<Descriptor>>)

  class Ziggy {
    var port: Option<nat>
    var url: string
    var group: GroupArg
    var routes: seq<Entry<Descriptor>>

    /** The routes are keyed by name: no two share one. */
    ghost predicate Valid()
      reads this
    {
      DistinctNames(routes)
    }

    /**
     * `new Ziggy($group, $url)`: `appUrl` is the application's `url('/')`,
     * `portOf` the URL parser's port, `router` the router's route list.
     */
    constructor (group: GroupArg, url: Option<string>, appUrl: string, portOf: string -> Option<nat>, router: seq<RawRoute>)
      ensures Valid()
      ensures this.group == group
      ensures this.url == TrimTrailingSlashes(url.GetOr(appUrl))
      ensures this.port == portOf(this.url)
      ensures this.routes == SnapshotOf(router)
    {
      var trimmed := TrimTrailingSlashes(url.GetOr(appUrl));
      this.group := group;
      this.url := trimmed;
      this.port := portOf(trimmed);
      var snapshot := NameKeyedRoutes(router);
      this.routes := snapshot;
      SnapshotDistinct(router);
    }

    /** `filter($filters, $include)`: keeps the routes whose name matching equals `keepMatches`; returns itself. */
    method Filter(filters: Patterns, keepMatches: bool) returns (self: Ziggy)
      requires Valid()
      modifies this
      ensures Valid() && self == this
      ensures routes == Filtered(old(routes), Wrap(filters), keepMatches)
      ensures url == old(url) && port == old(port) && group == old(group)
    {
      FilteredDistinct(routes, Wrap(filters), keepMatches);
      routes := Filtered(routes, Wrap(filters), keepMatches);
      self := this;
    }

    /** `group($g)`: a list of groups filters by all their patterns, one configured group by its own. */
    method Group(g: GroupArg, cfg: Config) returns (selected: seq<Entry<Descriptor>>)
      requires Valid() && GroupUsable(g, cfg)
      modifies this
      ensures Valid()
      ensures selected == GroupSelected(old(routes), g, cfg) && routes == selected
      ensures url == old(url) && port == old(port) && group == old(group)
    {
      if g.GroupNames? {
        var names := g.names;
        var filters: seq<string> := [];
        for i := 0 to |names|
          invariant GroupsListed(names[..i], cfg.groups)
          invariant filters == GroupPatterns(names[..i], cfg.groups)
        {
          assert names[..i + 1][..i] == names[..i];
          filters := filters + cfg.groups[names[i]].patterns;
        }
        assert names[..|names|] == names;
        var self := Filter(PatternList(filters), true);
        return self.routes;
      }
      var name := if g.GroupName? then g.name else "";
      if name in cfg.groups {
        var self := Filter(cfg.groups[name], true);
        return self.routes;
      }
      return routes;
    }

    /** `applyFilters($g)`: the selected routes, which also become the object's routes. */
    method ApplyFilters(g: GroupArg, cfg: Config) returns (selected: seq<Entry<Descriptor>>)
      requires Valid() && GroupUsable(g, cfg)
      modifies this
      ensures Valid()
      ensures selected == Selected(old(routes), g, cfg) && routes == selected
      ensures url == old(url) && port == old(port) && group == old(group)
    {
      if GroupGiven(g) {
        selected := Group(g, cfg);
        return;
      }
      if cfg.except.Some? && cfg.only.Some? {
        return routes;
      }
      if cfg.except.Some? {
        var self := Filter(cfg.except.value, false);
        return self.routes;
      }
      if cfg.only.Some? {
        var self := Filter(cfg.only.value, true);
        return self.routes;
      }
      return routes;
    }

    /**
     * `toArray()`: url, port, the URL generator's default parameters (empty
     * when it has none) and the routes selected by the object's own group.
     */
    method ToArray(cfg: Config, defaults: Option<map<string, string>>) returns (data: ZiggyData)
      requires Valid() && GroupUsable(group, cfg)
      modifies this
      ensures Valid()
      ensures url == old(url) && port == old(port) && group == old(group)
      ensures data == ZiggyData(url, port, defaults.GetOr(map[]), Selected(old(routes), group, cfg))
      ensures routes == data.routes
    {
      var selected := ApplyFilters(group, cfg);
      data := ZiggyData(url, port, defaults.GetOr(map[]), selected);
    }

    /**
     * `toArray()` narrows `routes` in place, yet a second call returns the
     * same data as the first.
     */
    method ToArrayTwice(cfg: Config, defaults: Option<map<string, string>>) returns (first: ZiggyData, second: ZiggyData)
      requires Valid() && GroupUsable(group, cfg)
      modifies this
      ensures first == second
    {
      first := ToArray(cfg, defaults);
      SelectedIdempotent(old(routes), group, cfg);
      second := ToArray(cfg, defaults);
    }
  }
}
