/** Interleaved bypass commands: consent, the index, and the rules of the configuration. */
module BypassRuns {
  import opened Wrappers
  import opened Text
  import opened Bypass

  datatype Command =
    | Add(tag: string, region: string, target: string, replace: bool)
    | Enable(tag: string, region: string, target: string, replace: bool)
    | Region(tag: string, region: string, replace: bool)
    | Target(tag: string, region: string, target: string)
    | Disable(tag: string)
    | Remove(tag: string)

  /** `route_record_for_outbound`: the record read, repaired where it is missing or has no region. */
  function RecordFor(current: Option<Route>, region: string, target: string, enabled: bool): Route {
    match current
    case None => Route(region, enabled, target)
    case Some(r) => if r.region == "" then r.(region := region) else r
  }

  /** The record that `target` stores. */
  function Retargeted(current: Option<Route>, region: string, target: string): Route {
    RecordFor(current, region, target, false).(target := target)
  }

  /** A command between its prompts and the lock: the routes it saw, and the route it may displace. */
  datatype Session = Session(command: Command, seen: map<string, Route>, confirmed: Option<string>)

  /** The region for which a command enables its route. */
  function RegionOf(c: Command, routes: map<string, Route>): string {
    match c
    case Add(_, region, _, _) => region
    case Enable(tag, region, target, _) => RecordFor(At(routes, tag), region, target, true).region
    case Region(_, region, _) => region
    case _ => ""
  }

  /** What the administrator agreed to before the lock. */
  function Confirmed(c: Command, routes: map<string, Route>): Option<string> {
    match c
    case Add(tag, region, _, replace) => Confirmable(routes, tag, region, replace)
    case Enable(tag, _, _, replace) => Confirmable(routes, tag, RegionOf(c, routes), replace)
    case Region(tag, region, replace) =>
      if tag in routes && routes[tag].enabled then Confirmable(routes, tag, region, replace) else None
    case _ => None
  }

  /** The locked part of a command. */
  function Locked(w: World, s: Session): Result<World, Failure> {
    match s.command
    case Add(tag, region, target, replace) => LockedAdd(w, tag, region, target, replace, s.confirmed)
    case Enable(tag, region, target, replace) =>
      var current := At(s.seen, tag);
      LockedEnable(w, tag, current, RecordFor(current, region, target, true), replace, s.confirmed)
    case Region(tag, region, replace) => LockedRegion(w, tag, region, replace, s.confirmed)
    case Target(tag, region, target) =>
      var current := At(s.seen, tag);
      LockedTarget(w, tag, current, Retargeted(current, region, target))
    case Disable(tag) => LockedDisable(w, tag)
    case Remove(tag) => LockedRemove(w, tag)
  }

  /** The disk and the commands that are waiting for the lock. */
  datatype System = System(world: World, waiting: map<nat, Session>)

  datatype Action = Ask(id: nat, command: Command) | Commit(id: nat)

  /** A region that is given has been normalized, so it is not empty. */
  predicate RegionGiven(c: Command) {
    match c
    case Add(_, region, _, _) => region != ""
    case Enable(_, region, _, _) => region != ""
    case Region(_, region, _) => region != ""
    case Target(_, region, _) => region != ""
    case _ => true
  }

  ghost predicate Next(s: System, s': System, a: Action) {
    match a
    case Ask(id, command) =>
      && RegionGiven(command)
      && s' == s.(waiting := s.waiting[id := Session(command, s.world.routes, Confirmed(command, s.world.routes))])
    case Commit(id) =>
      && id in s.waiting
      && s'.waiting == s.waiting - {id}
      && s'.world == match Locked(s.world, s.waiting[id]) case Ok(w) => w case Err(_) => s.world
  }

  /** No region has two enabled routes, and every waiting command may displace only a route that it saw active in its
      region. */
  ghost predicate Safe(s: System) {
    && OneActive(s.world.routes)
    && forall id | id in s.waiting :: ConsentGiven(s.waiting[id]) && RegionGiven(s.waiting[id].command)
  }

  predicate ConsentGiven(s: Session) {
    s.confirmed.Some? ==> EnabledFor(s.seen, s.confirmed.value, RegionOf(s.command, s.seen))
  }

  /** Displacing what the re-validation inside the lock names leaves one active route for each region; the index is
      needed for `target` only. */
  lemma LockedKeepsOneActive(w: World, s: Session)
    requires OneActive(w.routes) && Locked(w, s).Ok?
    ensures OneActive(Locked(w, s).value.routes)
  {
    match s.command {
      case Add(tag, region, target, replace) =>
        SaveKeepsOneActive(w.routes, tag, Route(region, true, target),
                           Displaced(w.routes, tag, region, replace, s.confirmed).value);
      case Enable(tag, region, target, replace) =>
        var record := RecordFor(At(s.seen, tag), region, target, true);
        SaveKeepsOneActive(w.routes, tag, record.(enabled := true),
                           Displaced(w.routes, tag, record.region, replace, s.confirmed).value);
      case Region(tag, region, replace) => RegionKeepsOneActive(w, tag, region, replace, s.confirmed);
      case Target(tag, region, target) => IndexMeans(Locked(w, s).value.routes);
      case Disable(tag) => SaveKeepsOneActive(w.routes, tag, w.routes[tag].(enabled := false), None);
      case Remove(tag) => RemoveKeepsOneActive(w.routes, tag);
    }
  }

  lemma RegionKeepsOneActive(w: World, tag: string, region: string, replace: bool, confirmed: Option<string>)
    requires OneActive(w.routes) && LockedRegion(w, tag, region, replace, confirmed).Ok?
    ensures OneActive(LockedRegion(w, tag, region, replace, confirmed).value.routes)
  {
    var record := if tag in w.routes then w.routes[tag] else Route(region, false, "");
    if record.enabled {
      SaveKeepsOneActive(w.routes, tag, record.(region := region),
                         Displaced(w.routes, tag, region, replace, confirmed).value);
    } else {
      SaveKeepsOneActive(w.routes, tag, record.(region := region), None);
    }
  }

  lemma StepStaysSafe(s: System, s': System, a: Action)
    requires Safe(s) && Next(s, s', a)
    ensures Safe(s')
  {
    match a {
      case Ask(id, command) =>
        assert ConsentGiven(s'.waiting[id]);
      case Commit(id) =>
        if Locked(s.world, s.waiting[id]).Ok? {
          LockedKeepsOneActive(s.world, s.waiting[id]);
        }
    }
  }

  ghost predicate Run(states: seq<System>, actions: seq<Action>) {
    |states| == |actions| + 1 && forall i | 0 <= i < |actions| :: Next(states[i], states[i + 1], actions[i])
  }

  /** However commands interleave, a region never has two enabled routes. */
  lemma {:induction false} RunStaysSafe(states: seq<System>, actions: seq<Action>, k: nat)
    requires Run(states, actions) && Safe(states[0]) && k <= |actions|
    ensures Safe(states[k])
  {
    if k > 0 {
      var i := k - 1;
      RunStaysSafe(states, actions, i);
      StepStaysSafe(states[i], states[i + 1], actions[i]);
    }
  }

  /** So at no moment of a run would the index refuse what `add`, `enable`, `region`, `disable` or `remove` writes. */
  lemma IndexNeverRefuses(states: seq<System>, actions: seq<Action>, k: nat, id: nat)
    requires Run(states, actions) && Safe(states[0]) && k <= |actions| && id in states[k].waiting
    requires !states[k].waiting[id].command.Target? && Locked(states[k].world, states[k].waiting[id]).Ok?
    ensures IndexHolds(Locked(states[k].world, states[k].waiting[id]).value.routes)
  {
    RunStaysSafe(states, actions, k);
    LockedKeepsOneActive(states[k].world, states[k].waiting[id]);
    IndexMeans(Locked(states[k].world, states[k].waiting[id]).value.routes);
  }

  /** `target` on an unchanged record is refused by the index exactly when that record is enabled without a region and
      the region now given has an active route. */
  lemma TargetRefusedIff(w: World, tag: string, region: string, target: string)
    requires OneActive(w.routes) && region != ""
    ensures LockedTarget(w, tag, At(w.routes, tag), Retargeted(At(w.routes, tag), region, target)) == Err(IndexViolated) <==>
              tag in w.routes && w.routes[tag].enabled && w.routes[tag].region == "" && ActiveFor(w.routes, region).Some?
  {
    var record := Retargeted(At(w.routes, tag), region, target);
    var saved := SavedRoutes(w.routes, tag, record, None);
    IndexMeans(saved);
    SoleActive(w.routes, record.region);
    var active := ActiveFor(w.routes, record.region);
    if record.enabled && active.Some? && active != Some(tag) {
      assert EnabledFor(saved, tag, record.region) && EnabledFor(saved, active.value, record.region);
    } else {
      SaveKeepsOneActive(w.routes, tag, record, None);
    }
  }

  /** The same at every moment of a run, for a `target` whose record has not changed since it was read. */
  lemma TargetRefusedInRun(states: seq<System>, actions: seq<Action>, k: nat, id: nat)
    requires Run(states, actions) && Safe(states[0]) && k <= |actions|
    requires id in states[k].waiting && states[k].waiting[id].command.Target?
    requires var s, tag := states[k].waiting[id], states[k].waiting[id].command.tag;
             At(s.seen, tag) == At(states[k].world.routes, tag)
    ensures var w, c := states[k].world, states[k].waiting[id].command;
            Locked(w, states[k].waiting[id]) == Err(IndexViolated) <==>
              c.tag in w.routes && w.routes[c.tag].enabled && w.routes[c.tag].region == "" && ActiveFor(w.routes, c.region).Some?
  {
    RunStaysSafe(states, actions, k);
    var c := states[k].waiting[id].command;
    assert RegionGiven(c);
    TargetRefusedIff(states[k].world, c.tag, c.region, c.target);
  }

  /** At every commit of a run, an enabled route of another tag is switched off only with --replace, or if it is the
      very route that this command saw active in its region and confirmed before the lock. */
  lemma OnlyConfirmedIsDisplaced(states: seq<System>, actions: seq<Action>, i: nat, other: string)
    requires Run(states, actions) && Safe(states[0]) && i < |actions| && actions[i].Commit?
    requires var s := states[i].waiting;
             var c := actions[i].id;
             c in s && other != s[c].command.tag
    requires other in states[i].world.routes && states[i].world.routes[other].enabled
    requires !(other in states[i + 1].world.routes && states[i + 1].world.routes[other].enabled)
    ensures var session := states[i].waiting[actions[i].id];
            || ((session.command.Add? || session.command.Enable? || session.command.Region?) && session.command.replace)
            || (session.confirmed == Some(other)
                && EnabledFor(session.seen, other, RegionOf(session.command, session.seen)))
  {
    RunStaysSafe(states, actions, i);
    var session := states[i].waiting[actions[i].id];
    assert ConsentGiven(session);
    assert Next(states[i], states[i + 1], actions[i]);
    DisplacedOne(states[i].world, session, other);
  }

  lemma DisplacedOne(w: World, s: Session, other: string)
    requires Locked(w, s).Ok? && other != s.command.tag && other in w.routes && w.routes[other].enabled
    requires !(other in Locked(w, s).value.routes && Locked(w, s).value.routes[other].enabled)
    ensures s.command.Add? || s.command.Enable? || s.command.Region?
    ensures s.command.replace || s.confirmed == Some(other)
  {}

  /** The region has an active route of another tag that the command may not displace. */
  predicate Contested(w: World, s: Session) {
    && (s.command.Add? || s.command.Enable? || s.command.Region?) && !s.command.replace
    && exists other | other in w.routes ::
         && other != s.command.tag && EnabledFor(w.routes, other, RegionOf(s.command, s.seen))
         && s.confirmed != Some(other)
  }

  /** The command gets as far as the re-validation. */
  predicate Enables(w: World, s: Session) {
    match s.command
    case Add(_, _, _, _) => true
    case Enable(tag, _, _, _) => At(w.routes, tag) == At(s.seen, tag) && tag in w.outbounds
    case Region(tag, _, _) => tag in w.routes && w.routes[tag].enabled && tag in w.outbounds
    case _ => false
  }

  lemma DisplacedIff(routes: map<string, Route>, tag: string, region: string, replace: bool, confirmed: Option<string>)
    requires OneActive(routes)
    ensures Displaced(routes, tag, region, replace, confirmed).Err? <==>
              !replace && exists other | other in routes ::
                other != tag && EnabledFor(routes, other, region) && confirmed != Some(other)
  {
    SoleActive(routes, region);
  }

  /** At every moment of a run a command is refused for an active route exactly when that route is neither to be
      replaced nor the confirmed one; with --replace or a confirmation that still holds the new route is enabled. */
  lemma RefusedIffContested(states: seq<System>, actions: seq<Action>, k: nat, id: nat)
    requires Run(states, actions) && Safe(states[0]) && k <= |actions| && id in states[k].waiting
    ensures var w, s := states[k].world, states[k].waiting[id];
            && (Locked(w, s) == Err(AlreadyActive) <==> Enables(w, s) && Contested(w, s))
            && (Enables(w, s) && !Contested(w, s) ==>
                  Locked(w, s).Ok? && EnabledFor(Locked(w, s).value.routes, s.command.tag, RegionOf(s.command, s.seen)))
  {
    RunStaysSafe(states, actions, k);
    RefusedIff(states[k].world, states[k].waiting[id]);
  }

  lemma RefusedIff(w: World, s: Session)
    requires OneActive(w.routes)
    ensures Locked(w, s) == Err(AlreadyActive) <==> Enables(w, s) && Contested(w, s)
    ensures Enables(w, s) && !Contested(w, s) ==>
              Locked(w, s).Ok? && EnabledFor(Locked(w, s).value.routes, s.command.tag, RegionOf(s.command, s.seen))
  {
    if s.command.Add? || s.command.Enable? || s.command.Region? {
      DisplacedIff(w.routes, s.command.tag, RegionOf(s.command, s.seen), s.command.replace, s.confirmed);
    }
  }

  /** A command that finds everything as it was when the administrator was asked is not refused for an active route. */
  lemma UndisturbedIsNotRefused(w: World, c: Command)
    requires OneActive(w.routes)
    ensures Locked(w, Session(c, w.routes, Confirmed(c, w.routes))) != Err(AlreadyActive)
  {
    var s := Session(c, w.routes, Confirmed(c, w.routes));
    RefusedIff(w, s);
    if Enables(w, s) {
      SoleActive(w.routes, RegionOf(c, w.routes));
    }
  }

  /** Nor is anything asked about when there is no other active route, or with --replace. */
  lemma AskedIff(c: Command, routes: map<string, Route>, other: string)
    requires OneActive(routes)
    ensures Confirmed(c, routes) == Some(other) <==>
              && (c.Add? || c.Enable? || (c.Region? && c.tag in routes && routes[c.tag].enabled)) && !c.replace
              && other != c.tag && EnabledFor(routes, other, RegionOf(c, routes))
  {
    SoleActive(routes, RegionOf(c, routes));
  }

  /** The route that a command leaves under its tag. */
  predicate Stores(c: Command, before: Option<Route>, after: Option<Route>) {
    match c
    case Add(_, region, target, _) => after == Some(Route(region, true, target))
    case Enable(_, region, target, _) =>
      && after.Some? && after.value.enabled
      && (before.None? ==> after.value.region == region && after.value.target == target)
      && (before.Some? ==> after.value.target == before.value.target
                           && after.value.region == if before.value.region == "" then region else before.value.region)
    case Region(_, region, _) =>
      && after.Some? && after.value.region == region
      && (if before.Some? then after.value == before.value.(region := region) else !after.value.enabled)
    case Target(_, region, target) =>
      && after.Some? && after.value.target == target
      && (before.None? ==> after.value.region == region && !after.value.enabled)
      && (before.Some? ==> after.value.enabled == before.value.enabled
                           && after.value.region == if before.value.region == "" then region else before.value.region)
    case Disable(_) => before.Some? && after == Some(before.value.(enabled := false))
    case Remove(_) => after.None?
  }

  /** A command that succeeds stores the route it was asked for; other routes stay, but the displaced one goes off. */
  lemma CommandStores(w: World, s: Session)
    requires Locked(w, s).Ok?
    ensures Stores(s.command, At(w.routes, s.command.tag), At(Locked(w, s).value.routes, s.command.tag))
    ensures forall t | t != s.command.tag ::
              var before, after := At(w.routes, t), At(Locked(w, s).value.routes, t);
              after == before || (before.Some? && before.value.enabled && after == Some(before.value.(enabled := false)))
  {
    forall t | t != s.command.tag
      ensures var before, after := At(w.routes, t), At(Locked(w, s).value.routes, t);
              after == before || (before.Some? && before.value.enabled && after == Some(before.value.(enabled := false)))
    {}
  }

  // ---- the rules of the configuration ----

  /** `config.json` routes a region exactly to the enabled route of that region. */
  ghost predicate RulesMatch(w: World) {
    forall region, tag :: RoutedTo(w.rules, region, tag) <==> EnabledFor(w.routes, tag, region) && region != ""
  }

  predicate RoutedTo(rules: map<string, string>, region: string, tag: string) {
    region in rules && rules[region] == tag
  }

  lemma SavedAt(routes: map<string, Route>, tag: string, record: Route, displaced: Option<string>, t: string, region: string)
    ensures EnabledFor(SavedRoutes(routes, tag, record, displaced), t, region) <==>
              if t == tag then record.enabled && record.region == region
              else EnabledFor(routes, t, region) && displaced != Some(t)
  {}

  /** Re-adding an enabled route for another region leaves the rule of its former region behind. */
  lemma AddRules(w: World, tag: string, region: string, target: string, replace: bool, confirmed: Option<string>)
    requires OneActive(w.routes) && RulesMatch(w) && region != ""
    requires LockedAdd(w, tag, region, target, replace, confirmed).Ok?
    ensures RulesMatch(LockedAdd(w, tag, region, target, replace, confirmed).value) <==>
              !(tag in w.routes && w.routes[tag].enabled && w.routes[tag].region != "" && w.routes[tag].region != region)
  {
    var after := LockedAdd(w, tag, region, target, replace, confirmed).value;
    var displaced := Displaced(w.routes, tag, region, replace, confirmed).value;
    forall r, t ensures RoutedTo(after.rules, r, t) <==> if r == region then t == tag else RoutedTo(w.rules, r, t) {}
    forall r, t ensures EnabledFor(after.routes, t, r) <==>
      if t == tag then r == region else EnabledFor(w.routes, t, r) && displaced != Some(t)
    {
      SavedAt(w.routes, tag, Route(region, true, target), displaced, t, r);
    }
    if tag in w.routes && w.routes[tag].enabled && w.routes[tag].region != "" && w.routes[tag].region != region {
      var old_region := w.routes[tag].region;
      assert EnabledFor(w.routes, tag, old_region) && RoutedTo(after.rules, old_region, tag);
      assert !EnabledFor(after.routes, tag, old_region);
    }
  }

  /** Enabling a route, repaired or not, always keeps the rules right. */
  lemma EnableRules(w: World, tag: string, region: string, target: string, replace: bool, confirmed: Option<string>)
    requires OneActive(w.routes) && RulesMatch(w) && region != ""
    requires LockedEnable(w, tag, At(w.routes, tag), RecordFor(At(w.routes, tag), region, target, true), replace, confirmed).Ok?
    ensures RulesMatch(LockedEnable(w, tag, At(w.routes, tag), RecordFor(At(w.routes, tag), region, target, true),
                                    replace, confirmed).value)
  {
    var record := RecordFor(At(w.routes, tag), region, target, true);
    var after := LockedEnable(w, tag, At(w.routes, tag), record, replace, confirmed).value;
    var displaced := Displaced(w.routes, tag, record.region, replace, confirmed).value;
    forall r, t ensures RoutedTo(after.rules, r, t) <==> if r == record.region then t == tag else RoutedTo(w.rules, r, t) {}
    forall r, t ensures EnabledFor(after.routes, t, r) <==>
      if t == tag then r == record.region else EnabledFor(w.routes, t, r) && displaced != Some(t)
    {
      SavedAt(w.routes, tag, record.(enabled := true), displaced, t, r);
    }
  }

  /** Changing the region of a route always keeps the rules right. */
  lemma RegionRules(w: World, tag: string, region: string, replace: bool, confirmed: Option<string>)
    requires OneActive(w.routes) && RulesMatch(w) && region != "" && LockedRegion(w, tag, region, replace, confirmed).Ok?
    ensures RulesMatch(LockedRegion(w, tag, region, replace, confirmed).value)
  {
    var after := LockedRegion(w, tag, region, replace, confirmed).value;
    var record := if tag in w.routes then w.routes[tag] else Route(region, false, "");
    if !record.enabled {
      forall r, t ensures EnabledFor(after.routes, t, r) <==> EnabledFor(w.routes, t, r) {
        SavedAt(w.routes, tag, record.(region := region), None, t, r);
      }
    } else {
      var displaced := Displaced(w.routes, tag, region, replace, confirmed).value;
      forall r, t ensures RoutedTo(after.rules, r, t) <==>
        if r == region then t == tag else r != record.region && RoutedTo(w.rules, r, t) {}
      forall r, t ensures EnabledFor(after.routes, t, r) <==>
        if t == tag then r == region else EnabledFor(w.routes, t, r) && displaced != Some(t)
      {
        SavedAt(w.routes, tag, record.(region := region), displaced, t, r);
      }
      assert EnabledFor(w.routes, tag, record.region);
    }
  }

  /** Storing a test target enables a route without its rule when the stored record was enabled without a region. */
  lemma TargetRules(w: World, tag: string, region: string, target: string)
    requires OneActive(w.routes) && RulesMatch(w) && region != ""
    requires LockedTarget(w, tag, At(w.routes, tag), Retargeted(At(w.routes, tag), region, target)).Ok?
    ensures RulesMatch(LockedTarget(w, tag, At(w.routes, tag), Retargeted(At(w.routes, tag), region, target)).value) <==>
              !(tag in w.routes && w.routes[tag].enabled && w.routes[tag].region == "")
  {
    var record := Retargeted(At(w.routes, tag), region, target);
    var after := LockedTarget(w, tag, At(w.routes, tag), record).value;
    forall r, t ensures EnabledFor(after.routes, t, r) <==>
      if t == tag then record.enabled && record.region == r else EnabledFor(w.routes, t, r)
    {
      SavedAt(w.routes, tag, record, None, t, r);
    }
    if tag in w.routes && w.routes[tag].enabled && w.routes[tag].region == "" {
      assert EnabledFor(after.routes, tag, region) && !EnabledFor(w.routes, tag, region);
    }
  }

  /** Disabling removes the region's rule whoever owns it: right exactly when no other route is active there. */
  lemma DisableRules(w: World, tag: string)
    requires OneActive(w.routes) && RulesMatch(w) && LockedDisable(w, tag).Ok?
    ensures RulesMatch(LockedDisable(w, tag).value) <==>
              ActiveFor(w.routes, w.routes[tag].region) in {None, Some(tag)}
  {
    var after, region := LockedDisable(w, tag).value, w.routes[tag].region;
    forall r, t ensures RoutedTo(after.rules, r, t) <==> r != region && RoutedTo(w.rules, r, t) {}
    forall r, t ensures EnabledFor(after.routes, t, r) <==> t != tag && EnabledFor(w.routes, t, r) {
      SavedAt(w.routes, tag, w.routes[tag].(enabled := false), None, t, r);
    }
    SoleActive(w.routes, region);
    var active := ActiveFor(w.routes, region);
    if active.Some? && active.value != tag {
      assert EnabledFor(after.routes, active.value, region) && !RoutedTo(after.rules, region, active.value);
    }
  }

  lemma SoleActive(routes: map<string, Route>, region: string)
    requires OneActive(routes)
    ensures forall t :: EnabledFor(routes, t, region) <==> ActiveFor(routes, region) == Some(t)
  {}

  /** Removing a route likewise. */
  lemma RemoveRules(w: World, tag: string)
    requires OneActive(w.routes) && RulesMatch(w) && LockedRemove(w, tag).Ok?
    ensures RulesMatch(LockedRemove(w, tag).value) <==>
              ActiveFor(w.routes, w.routes[tag].region) in {None, Some(tag)}
  {
    var after, region := LockedRemove(w, tag).value, w.routes[tag].region;
    forall r, t ensures RoutedTo(after.rules, r, t) <==> r != region && RoutedTo(w.rules, r, t) {}
    forall r, t ensures EnabledFor(after.routes, t, r) <==> t != tag && EnabledFor(w.routes, t, r) {}
    SoleActive(w.routes, region);
    var active := ActiveFor(w.routes, region);
    if active.Some? && active.value != tag {
      assert EnabledFor(after.routes, active.value, region) && !RoutedTo(after.rules, region, active.value);
    }
  }

  // ---- over runs ----

  /** A locked part that keeps the rules matched, told from the state inside the lock. */
  predicate Harmless(w: World, c: Command) {
    match c
    case Add(tag, region, _, _) =>
      !(tag in w.routes && w.routes[tag].enabled && w.routes[tag].region != "" && w.routes[tag].region != region)
    case Target(tag, _, _) => !(tag in w.routes && w.routes[tag].enabled && w.routes[tag].region == "")
    case Disable(tag) => tag in w.routes ==> ActiveFor(w.routes, w.routes[tag].region) in {None, Some(tag)}
    case Remove(tag) => tag in w.routes ==> ActiveFor(w.routes, w.routes[tag].region) in {None, Some(tag)}
    case _ => true
  }

  lemma LockedRules(w: World, s: Session)
    requires OneActive(w.routes) && RulesMatch(w) && RegionGiven(s.command) && Locked(w, s).Ok?
    ensures RulesMatch(Locked(w, s).value) <==> Harmless(w, s.command)
  {
    match s.command {
      case Add(tag, region, target, replace) => AddRules(w, tag, region, target, replace, s.confirmed);
      case Enable(tag, region, target, replace) => EnableRules(w, tag, region, target, replace, s.confirmed);
      case Region(tag, region, replace) => RegionRules(w, tag, region, replace, s.confirmed);
      case Target(tag, region, target) => TargetRules(w, tag, region, target);
      case Disable(tag) => DisableRules(w, tag);
      case Remove(tag) => RemoveRules(w, tag);
    }
  }

  /** Every commit of the first `k` actions that succeeded was harmless. */
  ghost predicate AllHarmless(states: seq<System>, actions: seq<Action>, k: nat)
    requires Run(states, actions) && k <= |actions|
  {
    forall i | 0 <= i < k :: StepHarmless(states[i], actions[i])
  }

  predicate StepHarmless(s: System, a: Action) {
    a.Commit? && a.id in s.waiting && Locked(s.world, s.waiting[a.id]).Ok? ==> Harmless(s.world, s.waiting[a.id].command)
  }

  lemma StepRules(s: System, s': System, a: Action)
    requires Safe(s) && Next(s, s', a) && RulesMatch(s.world)
    ensures RulesMatch(s'.world) <==> StepHarmless(s, a)
  {
    if a.Commit? && Locked(s.world, s.waiting[a.id]).Ok? {
      LockedRules(s.world, s.waiting[a.id]);
    }
  }

  /** Which runs keep rules and enabled routes matched throughout: exactly those without a harmful commit. */
  lemma {:induction false} RunKeepsRules(states: seq<System>, actions: seq<Action>, k: nat)
    requires Run(states, actions) && Safe(states[0]) && RulesMatch(states[0].world) && k <= |actions|
    ensures (forall i | 0 <= i <= k :: RulesMatch(states[i].world)) <==> AllHarmless(states, actions, k)
  {
    if k > 0 {
      var j := k - 1;
      RunKeepsRules(states, actions, j);
      RunStaysSafe(states, actions, j);
      if forall i | 0 <= i <= j :: RulesMatch(states[i].world) {
        StepRules(states[j], states[j + 1], actions[j]);
      }
    }
  }

  // ---- routes without a region ----

  predicate Regionless(routes: map<string, Route>, tag: string) {
    tag in routes && routes[tag].region == ""
  }

  /** The commits that do not give a region to the route of a tag: those of other tags, and disabling and removing it. */
  predicate GivesNoRegion(s: System, a: Action, tag: string) {
    a.Commit? && a.id in s.waiting ==>
      var c := s.waiting[a.id].command;
      c.tag != tag || c.Disable? || c.Remove?
  }

  /** `disable` and `remove` refuse a stored route because of its region exactly when it has none. */
  lemma RegionlessRefused(w: World, tag: string)
    requires tag in w.routes
    ensures LockedDisable(w, tag) == Err(BadRegion) <==> Regionless(w.routes, tag)
    ensures LockedRemove(w, tag) == Err(BadRegion) <==> Regionless(w.routes, tag)
  {}

  lemma RegionlessStep(s: System, s': System, a: Action, tag: string)
    requires Safe(s) && Next(s, s', a) && Regionless(s.world.routes, tag) && GivesNoRegion(s, a, tag)
    ensures tag in s'.world.routes && s'.world.routes[tag] == s.world.routes[tag]
  {
    if a.Commit? {
      var session := s.waiting[a.id];
      if session.command.tag == tag {
        RegionlessRefused(s.world, tag);
      } else if session.command.Add? || session.command.Enable? || session.command.Region? {
        assert RegionGiven(session.command);
        assert forall region :: region != "" ==> ActiveFor(s.world.routes, region) != Some(tag);
      }
    }
  }

  /** Until a command gives it a region, a route without one can be neither disabled nor removed: whatever else is
      committed, `disable` and `remove` of this route included, it stays stored and enabled as it is. */
  lemma {:induction false} RegionlessStays(states: seq<System>, actions: seq<Action>, k: nat, tag: string)
    requires Run(states, actions) && Safe(states[0]) && k <= |actions| && Regionless(states[0].world.routes, tag)
    requires forall i | 0 <= i < k :: GivesNoRegion(states[i], actions[i], tag)
    ensures tag in states[k].world.routes && states[k].world.routes[tag] == states[0].world.routes[tag]
  {
    if k > 0 {
      var j := k - 1;
      RegionlessStays(states, actions, j, tag);
      RunStaysSafe(states, actions, j);
      RegionlessStep(states[j], states[j + 1], actions[j], tag);
    }
  }

  // ---- examples ----

  const RU := Route("RU", true, "")

  /** An enabled route for RU, with its rule. */
  const ONE := World(map["a" := RU], {"a", "b"}, map["RU" := "a"])

  /** Besides it, a disabled route of the same region. */
  const TWO := World(map["a" := RU, "b" := RU.(enabled := false)], {"a", "b"}, map["RU" := "a"])

  /** An enabled route that has no region, and so no rule. */
  const REGIONLESS := World(map["a" := Route("", true, "")], {"a"}, map[])

  lemma ExamplesMatch()
    ensures OneActive(ONE.routes) && RulesMatch(ONE)
    ensures OneActive(TWO.routes) && RulesMatch(TWO)
    ensures OneActive(REGIONLESS.routes) && RulesMatch(REGIONLESS)
  {}

  /** Re-adding the route of ONE for another region leaves RU routed to it. */
  lemma AddLeavesRule()
    ensures var added := LockedAdd(ONE, "a", "DE", "", false, None);
            added.Ok? && !RulesMatch(added.value)
            && RoutedTo(added.value.rules, "RU", "a") && !EnabledFor(added.value.routes, "a", "RU")
  {
    ExamplesMatch();
    assert forall t :: !EnabledFor(ONE.routes, t, "DE");
    AddRules(ONE, "a", "DE", "", false, None);
  }

  /** Disabling or removing the disabled route of TWO takes the rule of the enabled one away. */
  lemma DisableTakesRule()
    ensures var disabled, removed := LockedDisable(TWO, "b"), LockedRemove(TWO, "b");
            && disabled.Ok? && !RulesMatch(disabled.value)
            && EnabledFor(disabled.value.routes, "a", "RU") && "RU" !in disabled.value.rules
            && removed.Ok? && !RulesMatch(removed.value)
            && EnabledFor(removed.value.routes, "a", "RU") && "RU" !in removed.value.rules
  {
    ExamplesMatch();
    assert EnabledFor(TWO.routes, "a", "RU");
    SoleActive(TWO.routes, "RU");
    DisableRules(TWO, "b");
    RemoveRules(TWO, "b");
  }

  /** Storing a target for the route of REGIONLESS enables it in a region without a rule. */
  lemma TargetWithoutRule()
    ensures var current := At(REGIONLESS.routes, "a");
            var targeted := LockedTarget(REGIONLESS, "a", current, Retargeted(current, "RU", "t"));
            targeted.Ok? && !RulesMatch(targeted.value)
            && EnabledFor(targeted.value.routes, "a", "RU") && "RU" !in targeted.value.rules
  {
    ExamplesMatch();
    assert forall t :: !EnabledFor(REGIONLESS.routes, t, "RU");
    TargetRefusedIff(REGIONLESS, "a", "RU", "t");
    TargetRules(REGIONLESS, "a", "RU", "t");
  }
}
