/** GeoIP bypass routes: prompts outside the lock, re-validation inside it. */
module Bypass {
  import opened Wrappers
  import opened Text

  /** A stored route; `target` stands for its other fields. */
  datatype Route = Route(region: string, enabled: bool, target: string)

  /** The stored routes, the bypass outbounds of `config.json`, and for each region the outbound its rule leads to. */
  datatype World = World(routes: map<string, Route>, outbounds: set<string>, rules: map<string, string>)

  datatype Failure = AlreadyActive | Changed | NoOutbound | NotFound | BadRegion | IndexViolated

  predicate EnabledFor(routes: map<string, Route>, tag: string, region: string) {
    tag in routes && routes[tag].enabled && routes[tag].region == region
  }

  function ActiveTags(routes: map<string, Route>, region: string): set<string> {
    set t | t in routes && EnabledFor(routes, t, region)
  }

  /** `active_route_for_region`: an enabled route of the region, if there is one. */
  function ActiveFor(routes: map<string, Route>, region: string): (r: Option<string>)
    ensures r.Some? ==> EnabledFor(routes, r.value, region)
    ensures r.None? ==> forall t :: !EnabledFor(routes, t, region)
  {
    var tags := ActiveTags(routes, region);
    if tags != {} then Some(Least(tags))
    else
      assert forall t :: EnabledFor(routes, t, region) ==> t in tags;
      None
  }

  /** The partial unique index: at most one enabled route for each region. */
  ghost predicate OneActive(routes: map<string, Route>) {
    forall a, b, region | EnabledFor(routes, a, region) && EnabledFor(routes, b, region) :: a == b
  }

  /** The same, as a test that can be run. */
  predicate IndexHolds(routes: map<string, Route>) {
    forall a | a in routes :: forall b | b in routes ::
      routes[a].enabled && routes[b].enabled && routes[a].region == routes[b].region ==> a == b
  }

  lemma IndexMeans(routes: map<string, Route>)
    ensures IndexHolds(routes) <==> OneActive(routes)
  {
    if OneActive(routes) {
      forall a, b | a in routes && b in routes && routes[a].enabled && routes[b].enabled && routes[a].region == routes[b].region
        ensures a == b
      {
        assert EnabledFor(routes, a, routes[a].region) && EnabledFor(routes, b, routes[a].region);
      }
    }
  }

  /** Asked before the lock: which active route may be displaced. */
  function Confirmable(routes: map<string, Route>, tag: string, region: string, replace: bool): Option<string> {
    var active := ActiveFor(routes, region);
    if replace || active == Some(tag) then None else active
  }

  /** `disable_conflicting_region_route`: the route to displace, or a refusal. */
  function Displaced(routes: map<string, Route>, tag: string, region: string, replace: bool, confirmed: Option<string>)
    : Result<Option<string>, Failure>
  {
    var active := ActiveFor(routes, region);
    if active.None? || active == Some(tag) then Ok(None)
    else if replace || confirmed == active then Ok(active)
    else Err(AlreadyActive)
  }

  /** The rows that `save_route` writes: the displaced route is switched off, the record is stored. */
  function SavedRoutes(routes: map<string, Route>, tag: string, record: Route, displaced: Option<string>)
    : map<string, Route>
  {
    var freed := if displaced.Some? && displaced.value in routes
                 then routes[displaced.value := routes[displaced.value].(enabled := false)] else routes;
    freed[tag := record]
  }

  /** `save_route`, in one transaction under the index. */
  function SaveRoute(routes: map<string, Route>, tag: string, record: Route, displaced: Option<string>)
    : Result<map<string, Route>, Failure>
  {
    var saved := SavedRoutes(routes, tag, record, displaced);
    if IndexHolds(saved) then Ok(saved) else Err(IndexViolated)
  }

  /** What enabling does to the rules. */
  function Rerouted(rules: map<string, string>, tag: string, region: string): map<string, string> {
    rules[region := tag]
  }

  // The locked parts of the commands. Only `target` relies on the index to be refused; the others are described
  // without it, and what their re-validation leaves is shown to satisfy it.

  /** The locked part of `add`. */
  function LockedAdd(w: World, tag: string, region: string, target: string, replace: bool, confirmed: Option<string>)
    : Result<World, Failure>
  {
    match Displaced(w.routes, tag, region, replace, confirmed)
    case Err(f) => Err(f)
    case Ok(displaced) =>
      Ok(World(SavedRoutes(w.routes, tag, Route(region, true, target), displaced), w.outbounds + {tag},
               Rerouted(w.rules, tag, region)))
  }

  /** The locked part of `enable`: refused when the record read before the lock has changed since. */
  function LockedEnable(w: World, tag: string, current: Option<Route>, record: Route, replace: bool,
                        confirmed: Option<string>)
    : Result<World, Failure>
  {
    if At(w.routes, tag) != current then Err(Changed)
    else if tag !in w.outbounds then Err(NoOutbound)
    else
      match Displaced(w.routes, tag, record.region, replace, confirmed)
      case Err(f) => Err(f)
      case Ok(displaced) =>
        Ok(World(SavedRoutes(w.routes, tag, record.(enabled := true), displaced), w.outbounds,
                 Rerouted(w.rules, tag, record.region)))
  }

  /** The locked part of `region`: works on the record as it is inside the lock. */
  function LockedRegion(w: World, tag: string, region: string, replace: bool, confirmed: Option<string>): Result<World, Failure> {
    if tag !in w.routes && tag !in w.outbounds then Err(NotFound)
    else
      var record := if tag in w.routes then w.routes[tag] else Route(region, false, "");
      if !record.enabled then
        Ok(w.(routes := SavedRoutes(w.routes, tag, record.(region := region), None)))
      else if tag !in w.outbounds then Err(NoOutbound)
      else
        match Displaced(w.routes, tag, region, replace, confirmed)
        case Err(f) => Err(f)
        case Ok(displaced) =>
          Ok(World(SavedRoutes(w.routes, tag, record.(region := region), displaced), w.outbounds,
                   Rerouted(w.rules - {record.region}, tag, region)))
  }

  /** The locked part of `target`: the configuration is not touched. */
  function LockedTarget(w: World, tag: string, current: Option<Route>, record: Route): Result<World, Failure> {
    if At(w.routes, tag) != current then Err(Changed)
    else
      match SaveRoute(w.routes, tag, record, None)
      case Err(f) => Err(f)
      case Ok(routes) => Ok(w.(routes := routes))
  }

  /** The locked part of `disable`. */
  function LockedDisable(w: World, tag: string): Result<World, Failure> {
    if tag !in w.routes then Err(NotFound)
    else if w.routes[tag].region == "" then Err(BadRegion)
    else
      Ok(World(SavedRoutes(w.routes, tag, w.routes[tag].(enabled := false), None), w.outbounds,
               w.rules - {w.routes[tag].region}))
  }

  /** The locked part of `remove`. */
  function LockedRemove(w: World, tag: string): Result<World, Failure> {
    if tag !in w.routes then Err(NotFound)
    else if w.routes[tag].region == "" then Err(BadRegion)
    else Ok(World(w.routes - {tag}, w.outbounds - {tag}, w.rules - {w.routes[tag].region}))
  }

  /** The state on disk, changed by one locked command at a time. */
  class Manager {
    var routes: map<string, Route>
    var outbounds: set<string>
    var rules: map<string, string>

    constructor (w: World)
      ensures Value() == w
    {
      routes, outbounds, rules := w.routes, w.outbounds, w.rules;
    }

    function Value(): World
      reads this
    {
      World(routes, outbounds, rules)
    }

    /** `apply_enable`: the displaced route's rule goes, the new one comes. */
    method ApplyEnable(config: map<string, string>, tag: string, region: string, replace: bool, confirmed: Option<string>)
        returns (r: Result<(Option<string>, map<string, string>), Failure>)
      ensures match Displaced(routes, tag, region, replace, confirmed)
              case Err(f) => r == Err(f)
              case Ok(d) => r == Ok((d, Rerouted(config, tag, region)))
    {
      var active := ActiveFor(routes, region);
      if active.None? || active.value == tag {
        return Ok((None, config[region := tag]));
      }
      if !replace && confirmed != active {
        return Err(AlreadyActive);
      }
      var freed := config - {routes[active.value].region};
      assert freed[region := tag] == config[region := tag];
      r := Ok((active, freed[region := tag]));
    }

    method Add(tag: string, region: string, target: string, replace: bool, confirmed: Option<string>)
        returns (failure: Option<Failure>)
      requires OneActive(routes)
      modifies this
      ensures Report(failure, Value()) == Applied(old(Value()), LockedAdd(old(Value()), tag, region, target, replace, confirmed))
      ensures OneActive(routes)
    {
      var record := Route(region, true, target);
      var enabled := ApplyEnable(rules, tag, region, replace, confirmed);
      if enabled.Err? {
        return Some(enabled.error);
      }
      var (displaced, config) := enabled.value;
      SaveKeepsOneActive(routes, tag, record, displaced);
      routes, outbounds, rules := SaveRoute(routes, tag, record, displaced).value, outbounds + {tag}, config;
      failure := None;
    }

    method Enable(tag: string, current: Option<Route>, record: Route, replace: bool, confirmed: Option<string>)
        returns (failure: Option<Failure>)
      requires OneActive(routes)
      modifies this
      ensures Report(failure, Value())
           == Applied(old(Value()), LockedEnable(old(Value()), tag, current, record, replace, confirmed))
      ensures OneActive(routes)
    {
      if At(routes, tag) != current {
        return Some(Changed);
      }
      if tag !in outbounds {
        return Some(NoOutbound);
      }
      var enabled := ApplyEnable(rules, tag, record.region, replace, confirmed);
      if enabled.Err? {
        return Some(enabled.error);
      }
      var (displaced, config) := enabled.value;
      SaveKeepsOneActive(routes, tag, record.(enabled := true), displaced);
      routes, rules := SaveRoute(routes, tag, record.(enabled := true), displaced).value, config;
      failure := None;
    }

    method Region(tag: string, region: string, replace: bool, confirmed: Option<string>) returns (failure: Option<Failure>)
      requires OneActive(routes)
      modifies this
      ensures Report(failure, Value()) == Applied(old(Value()), LockedRegion(old(Value()), tag, region, replace, confirmed))
      ensures OneActive(routes)
    {
      if tag !in routes && tag !in outbounds {
        return Some(NotFound);
      }
      var record := if tag in routes then routes[tag] else Route(region, false, "");
      if !record.enabled {
        SaveKeepsOneActive(routes, tag, record.(region := region), None);
        routes := SaveRoute(routes, tag, record.(region := region), None).value;
        return None;
      }
      if tag !in outbounds {
        return Some(NoOutbound);
      }
      var config := rules - {record.region};
      var enabled := ApplyEnable(config, tag, region, replace, confirmed);
      if enabled.Err? {
        return Some(enabled.error);
      }
      var (displaced, rerouted) := enabled.value;
      SaveKeepsOneActive(routes, tag, record.(region := region), displaced);
      routes, rules := SaveRoute(routes, tag, record.(region := region), displaced).value, rerouted;
      failure := None;
    }

    /** Nothing but the index protects this one. */
    method Target(tag: string, current: Option<Route>, record: Route) returns (failure: Option<Failure>)
      requires OneActive(routes)
      modifies this
      ensures Report(failure, Value()) == Applied(old(Value()), LockedTarget(old(Value()), tag, current, record))
      ensures OneActive(routes)
    {
      if At(routes, tag) != current {
        return Some(Changed);
      }
      var saved := SaveRoute(routes, tag, record, None);
      if saved.Err? {
        return Some(saved.error);
      }
      IndexMeans(saved.value);
      routes := saved.value;
      failure := None;
    }

    method Disable(tag: string) returns (failure: Option<Failure>)
      requires OneActive(routes)
      modifies this
      ensures Report(failure, Value()) == Applied(old(Value()), LockedDisable(old(Value()), tag))
      ensures OneActive(routes)
    {
      if tag !in routes {
        return Some(NotFound);
      }
      if routes[tag].region == "" {
        return Some(BadRegion);
      }
      var record := routes[tag].(enabled := false);
      SaveKeepsOneActive(routes, tag, record, None);
      routes, rules := SaveRoute(routes, tag, record, None).value, rules - {record.region};
      failure := None;
    }

    method Remove(tag: string) returns (failure: Option<Failure>)
      requires OneActive(routes)
      modifies this
      ensures Report(failure, Value()) == Applied(old(Value()), LockedRemove(old(Value()), tag))
      ensures OneActive(routes)
    {
      if tag !in routes {
        return Some(NotFound);
      }
      var region := routes[tag].region;
      if region == "" {
        return Some(BadRegion);
      }
      routes, outbounds, rules := routes - {tag}, outbounds - {tag}, rules - {region};
      failure := None;
      RemoveKeepsOneActive(old(routes), tag);
    }
  }

  /** What a command reports, and the state afterwards. */
  datatype Report = Report(failure: Option<Failure>, after: World)

  /** A refused command changes nothing. */
  function Applied(w: World, r: Result<World, Failure>): Report {
    match r
    case Ok(after) => Report(None, after)
    case Err(f) => Report(Some(f), w)
  }

  lemma RemoveKeepsOneActive(routes: map<string, Route>, tag: string)
    requires OneActive(routes)
    ensures OneActive(routes - {tag})
  {
    forall a, b, region | EnabledFor(routes - {tag}, a, region) && EnabledFor(routes - {tag}, b, region) ensures a == b {
      assert EnabledFor(routes, a, region) && EnabledFor(routes, b, region);
    }
  }

  /** Under the index, disabling the displaced route is enough: the save is never refused. */
  lemma SaveKeepsOneActive(routes: map<string, Route>, tag: string, record: Route, displaced: Option<string>)
    requires OneActive(routes)
    requires record.enabled ==>
               ActiveFor(routes, record.region) == displaced
               || (displaced.None? && (ActiveFor(routes, record.region).None? || ActiveFor(routes, record.region) == Some(tag)))
    ensures SaveRoute(routes, tag, record, displaced) == Ok(SavedRoutes(routes, tag, record, displaced))
    ensures OneActive(SavedRoutes(routes, tag, record, displaced))
  {
    var saved := SavedRoutes(routes, tag, record, displaced);
    forall a, b, region | EnabledFor(saved, a, region) && EnabledFor(saved, b, region) ensures a == b {
      assert a != tag ==> EnabledFor(routes, a, region);
      assert b != tag ==> EnabledFor(routes, b, region);
    }
    IndexMeans(saved);
  }
}
