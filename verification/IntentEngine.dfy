/** The intent engine of server/ibn_engine.py: intents updated in place by the
    compliance monitor and by pause, resume and delete. */
module IntentEngine {
  import opened Text
  import opened Intents
  import opened IntentRuns
  import opened SteeringHistory
  import opened AppState
  import opened TrafficShaper
  import RoutingTable

  class NetworkIntent {
    const id: string
    const parsed: ParsedIntent
    var status: IntentStatus
    var lastChecked: real
    var violationCount: nat
    var autoSteerCount: nat

    constructor (id: string, parsed: ParsedIntent)
      ensures this.id == id && this.parsed == parsed && status == ACTIVE
      ensures lastChecked == 0.0 && violationCount == 0 && autoSteerCount == 0
    {
      this.id, this.parsed, status := id, parsed, ACTIVE;
      lastChecked, violationCount, autoSteerCount := 0.0, 0, 0;
    }
  }

  method FindBestLinkForMetric(net: Net, metric: string, threshold: real, exclude: string)
      returns (best: Option<string>)
    ensures best == BestLink(net, net.activeLinks, metric, threshold, exclude)
  {
    best := None;
    var links := net.activeLinks;
    for i := 0 to |links|
      invariant best == BestLink(net, links[..i], metric, threshold, exclude)
    {
      assert links[..i + 1][..i] == links[..i];
      var link := links[i];
      if link != exclude && (link, metric) in net.metrics {
        var val := net.metrics[(link, metric)];
        if val < threshold && (best.None? || val < net.metrics[(best.value, metric)]) {
          best := Some(link);
        }
      }
    }
    assert links[..|links|] == links;
  }

  method FindHealthiestLink(net: Net, exclude: string) returns (best: Option<string>)
    ensures best == HealthiestLink(net, net.activeLinks, exclude)
  {
    best := None;
    var bestScore := -1.0;
    var links := net.activeLinks;
    for i := 0 to |links|
      invariant best == HealthiestLink(net, links[..i], exclude)
      invariant bestScore == if best.Some? then net.health[best.value] else -1.0
    {
      assert links[..i + 1][..i] == links[..i];
      var link := links[i];
      if link in net.health && link != exclude && net.health[link] > bestScore {
        best, bestScore := Some(link), net.health[link];
      }
    }
    assert links[..|links|] == links;
  }

  method FirstLinkOver(net: Net, metric: string, threshold: real) returns (first: Option<string>)
    ensures first == FirstOver(net, net.activeLinks, metric, threshold)
  {
    var links := net.activeLinks;
    for i := 0 to |links|
      invariant FirstOver(net, links, metric, threshold) == FirstOver(net, links[i..], metric, threshold)
    {
      if Over(net, links[i], metric, threshold) {
        return Some(links[i]);
      }
      assert links[i..][1..] == links[i + 1..];
    }
    return None;
  }

  /** The scan of the three ENSURE branches. */
  method AnyLinkViolates(net: Net, p: ParsedIntent, threshold: real) returns (violated: bool)
    requires Ensures(p.action) && p.threshold == Some(threshold)
    ensures violated == Violated(net, p)
  {
    var links, metric := net.activeLinks, CheckedMetric(p.action);
    for i := 0 to |links|
      invariant forall l | l in links[..i] ::
                  !(Over(net, l, metric, threshold) && (p.preferredLink.Some? ==> l == p.preferredLink.value))
    {
      assert links[..i + 1] == links[..i] + [links[i]];
      if Over(net, links[i], metric, threshold) {
        if p.preferredLink.Some? && links[i] != p.preferredLink.value {
          continue;
        }
        assert links[i] in links;
        return true;
      }
    }
    assert links[..|links|] == links;
    return false;
  }

  method IsViolated(net: Net, p: ParsedIntent) returns (violated: bool)
    ensures violated == Violated(net, p)
  {
    violated := false;
    if Ensures(p.action) {
      if p.threshold.Some? {
        violated := AnyLinkViolates(net, p, p.threshold.value);
      }
    } else if p.action == Prioritize {
      if p.preferredLink.Some? {
        violated := Unhealthy(net, p.preferredLink.value, 40.0);
      }
    } else if p.action == Block {
      if p.avoidLink.Some? && p.avoidLink.value !in net.divertedFrom {
        violated := Unhealthy(net, p.avoidLink.value, 60.0);
      }
    } else if p.action == Redirect {
      if p.sourceLink.Some? && p.sourceLink.value !in net.divertedFrom {
        violated := true;
      }
    }
  }

  method ChooseRoute(net: Net, p: ParsedIntent) returns (route: Route)
    ensures route == ChosenRoute(net, p)
  {
    var source: Option<string>, target: Option<string> := None, None;
    if Ensures(p.action) {
      if p.metric.Some? && p.threshold.Some? {
        source := FirstLinkOver(net, p.metric.value, p.threshold.value);
        if source.Some? {
          target := FindBestLinkForMetric(net, p.metric.value, p.threshold.value, source.value);
          if target.None? {
            target := FindHealthiestLink(net, source.value);
          }
        }
      }
    } else if p.action == Prioritize && p.preferredLink.Some? {
      var alt := FindHealthiestLink(net, p.preferredLink.value);
      if alt.Some? {
        source, target := alt, p.preferredLink;
      }
    } else if p.action == Redirect {
      source, target := p.sourceLink, p.targetLink;
    } else if p.action == Block && p.avoidLink.Some? {
      source := p.avoidLink;
      target := FindHealthiestLink(net, p.avoidLink.value);
    }
    route := Route(source, target);
  }

  class IntentEngine {
    const state: AppState
    var intents: seq<NetworkIntent>
    var lastAutoSteer: map<string, real>

    constructor (state: AppState)
      ensures this.state == state && intents == [] && lastAutoSteer == map[]
    {
      this.state, intents, lastAutoSteer := state, [], map[];
    }

    function LastSteer(id: string): real
      reads this
    {
      if id in lastAutoSteer then lastAutoSteer[id] else 0.0
    }

    ghost function StateOf(i: NetworkIntent): IntentState
      reads this, i
    {
      IntentState(i.status, i.lastChecked, i.violationCount, i.autoSteerCount, LastSteer(i.id))
    }

    /** What the engine sees: the live links and the routing rules of the application
        state, and the latest metrics and predictions. */
    ghost function Seen(metrics: map<(string, string), real>, health: map<string, real>): Net
      reads state, state.routingRules
    {
      Net(state.activeLinks, metrics, health, RoutingTable.DivertedLinks(state.Rules()))
    }

    /** The history, with an event if the intent's count has risen above what it was. */
    ghost function HistoryAfter(history: seq<SteeringEvent>, intent: NetworkIntent, before: nat, net: Net,
                                now: real): seq<SteeringEvent>
      reads intent
    {
      if intent.autoSteerCount > before && Steering(net, intent.parsed).Some? then
        var (source, target) := Steering(net, intent.parsed).value;
        Pushed(history, AutoSteered(intent.id, intent.autoSteerCount, source, target, now))
      else history
    }

    /** An event is recorded iff the check steers, and then from a link that no active
        routing rule leaves to a different one. */
    method CheckIntentCompliance(intent: NetworkIntent, metrics: map<(string, string), real>,
                                 health: map<string, real>, clock: Clock)
      modifies intent, this`lastAutoSteer, state`steeringHistory
      ensures StateOf(intent) == Checked(old(StateOf(intent)), old(Seen(metrics, health)), intent.parsed, clock)
      ensures forall id | id != intent.id :: LastSteer(id) == old(LastSteer(id))
      ensures var event := Recorded(intent.id, old(StateOf(intent)), old(Seen(metrics, health)), intent.parsed, clock);
              && state.steeringHistory ==
                   (if event.Some? then Pushed(old(state.steeringHistory), event.value) else old(state.steeringHistory))
              && (event.Some? ==> event.value.sourceLink != event.value.targetLink
                                  && !RoutingTable.DivertedFrom(state.Rules(), event.value.sourceLink))
    {
      if intent.status == DELETED || intent.status == PAUSED {
        return;
      }
      var p := intent.parsed;
      intent.lastChecked := clock.now;
      if OneShot(p.action) {
        return;
      }
      var diverted := state.DivertedNow();
      Judge(intent, Net(state.activeLinks, metrics, health, diverted), clock);
    }

    /** The second half of a check. */
    method Judge(intent: NetworkIntent, net: Net, clock: Clock)
      modifies intent`status, intent`violationCount, intent`autoSteerCount, this`lastAutoSteer, state`steeringHistory
      ensures StateOf(intent) == Judged(old(StateOf(intent)), net, intent.parsed, clock)
      ensures forall id | id != intent.id :: LastSteer(id) == old(LastSteer(id))
      ensures state.steeringHistory ==
              HistoryAfter(old(state.steeringHistory), intent, old(intent.autoSteerCount), net, clock.event)
    {
      var violated := IsViolated(net, intent.parsed);
      if violated {
        ReactToViolation(intent, net, clock);
      } else if intent.status == VIOLATED || intent.status == AUTO_STEERING || intent.status == ACTIVE {
        intent.status := COMPLIANT;
      }
    }

    method ReactToViolation(intent: NetworkIntent, net: Net, clock: Clock)
      modifies intent`status, intent`violationCount, intent`autoSteerCount, this`lastAutoSteer, state`steeringHistory
      ensures StateOf(intent) == OnViolation(old(StateOf(intent)), net, intent.parsed, clock)
      ensures forall id | id != intent.id :: LastSteer(id) == old(LastSteer(id))
      ensures state.steeringHistory ==
              HistoryAfter(old(state.steeringHistory), intent, old(intent.autoSteerCount), net, clock.event)
    {
      intent.violationCount := intent.violationCount + 1;
      if clock.check - LastSteer(intent.id) > AUTO_STEER_COOLDOWN {
        intent.status := VIOLATED;
        AutoSteerForIntent(intent, net, clock.event);
        lastAutoSteer := lastAutoSteer[intent.id := clock.mark];
      } else {
        intent.status := AUTO_STEERING;
      }
    }

    method AutoSteerForIntent(intent: NetworkIntent, net: Net, now: real)
      modifies intent`status, intent`autoSteerCount, state`steeringHistory
      ensures Steering(net, intent.parsed).None? ==>
                && intent.status == old(intent.status) && intent.autoSteerCount == old(intent.autoSteerCount)
                && state.steeringHistory == old(state.steeringHistory)
      ensures Steering(net, intent.parsed).Some? ==>
                var (source, target) := Steering(net, intent.parsed).value;
                && intent.status == AUTO_STEERING && intent.autoSteerCount == old(intent.autoSteerCount) + 1
                && state.steeringHistory ==
                     Pushed(old(state.steeringHistory),
                            AutoSteered(intent.id, intent.autoSteerCount, source, target, now))
    {
      var route := ChooseRoute(net, intent.parsed);
      if route.source.Some? && route.target.Some? && route.source.value != route.target.value {
        if route.source.value !in net.divertedFrom {
          intent.status := AUTO_STEERING;
          intent.autoSteerCount := intent.autoSteerCount + 1;
          var event := AutoSteered(intent.id, intent.autoSteerCount, route.source.value, route.target.value, now);
          state.steeringHistory := Pushed(state.steeringHistory, event);
        }
      }
    }

    predicate FirstWith(id: string, i: int)
      reads this
    {
      && 0 <= i < |intents| && intents[i].id == id
      && forall j | 0 <= j < i :: intents[j].id != id
    }

    /** The first intent with the id; null exactly when there is none. */
    ghost predicate Finds(id: string, intent: NetworkIntent?)
      reads this
    {
      && (intent == null <==> forall i | i in intents :: i.id != id)
      && (intent != null ==> exists i :: FirstWith(id, i) && intents[i] == intent)
    }

    method GetIntent(id: string) returns (intent: NetworkIntent?)
      ensures Finds(id, intent)
    {
      for k := 0 to |intents|
        invariant forall j | 0 <= j < k :: intents[j].id != id
      {
        if intents[k].id == id {
          assert FirstWith(id, k);
          return intents[k];
        }
      }
      return null;
    }

    method PauseIntent(id: string) returns (done: bool, ghost found: NetworkIntent?)
      modifies intents`status
      ensures Finds(id, found)
      ensures done <==> found != null && old(found.status) != DELETED
      ensures found != null ==> StateOf(found) == Apply(old(StateOf(found)), found.parsed, Pause)
      ensures forall i | i in intents && i != found :: StateOf(i) == old(StateOf(i))
    {
      var intent := GetIntent(id);
      found := intent;
      done := intent != null && intent.status != DELETED;
      if done {
        intent.status := PAUSED;
      }
    }

    method ResumeIntent(id: string) returns (done: bool, ghost found: NetworkIntent?)
      modifies intents`status
      ensures Finds(id, found)
      ensures done <==> found != null && old(found.status) == PAUSED
      ensures found != null ==> StateOf(found) == Apply(old(StateOf(found)), found.parsed, Resume)
      ensures forall i | i in intents && i != found :: StateOf(i) == old(StateOf(i))
    {
      var intent := GetIntent(id);
      found := intent;
      done := intent != null && intent.status == PAUSED;
      if done {
        intent.status := ACTIVE;
      }
    }

    /** The clean-up looks for policies by creator, but the rows it reads have none:
        the shaper is left exactly as it was, and so are its rules. */
    method DeleteIntent(id: string, shaper: TrafficShaper) returns (done: bool, ghost found: NetworkIntent?)
      modifies intents`status
      ensures Finds(id, found)
      ensures done <==> found != null
      ensures found != null ==> StateOf(found) == Apply(old(StateOf(found)), found.parsed, Delete)
      ensures forall i | i in intents && i != found :: StateOf(i) == old(StateOf(i))
      ensures shaper.Value() == old(shaper.Value())
    {
      var intent := GetIntent(id);
      found := intent;
      if intent == null {
        return false, found;
      }
      if intent.parsed.action == ThrottleApp || intent.parsed.action == PrioritizeApp
         || intent.parsed.action == PrioritizeOver {
        var rows := shaper.GetAllPolicies();
        for i := 0 to |rows| {
          if rows[i].createdBy == Some(id) {
            // remove_policy would be called here
            assert false;
          }
        }
      }
      intent.status := DELETED;
      return true, found;
    }
  }
}
