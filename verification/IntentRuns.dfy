/** The compliance monitor of server/ibn_engine.py as a state machine over one
    intent: when it is violated, when it steers and where to, and what holds over
    runs. */
module IntentRuns {
  import opened Text
  import opened Intents
  import opened SteeringHistory

  datatype IntentStatus = ACTIVE | COMPLIANT | VIOLATED | AUTO_STEERING | PAUSED | DELETED

  /** What the monitor reads of the application state: the live links in order, their
      latest metrics, predicted health, and the links traffic is diverted from. */
  datatype Net = Net(
    activeLinks: seq<string>,
    metrics: map<(string, string), real>,
    health: map<string, real>,
    divertedFrom: set<string>)

  const AUTO_STEER_COOLDOWN := 30.0

  // ----- link searches -----

  predicate Over(net: Net, link: string, metric: string, threshold: real) {
    (link, metric) in net.metrics && net.metrics[(link, metric)] > threshold
  }

  predicate Under(net: Net, link: string, metric: string, threshold: real) {
    (link, metric) in net.metrics && net.metrics[(link, metric)] < threshold
  }

  /** _find_best_link_for_metric over the first links. */
  function BestLink(net: Net, links: seq<string>, metric: string, threshold: real, exclude: string): (b: Option<string>)
    ensures b.Some? ==> (b.value, metric) in net.metrics
  {
    if links == [] then None
    else
      var (best, link) := (BestLink(net, links[..|links| - 1], metric, threshold, exclude), links[|links| - 1]);
      if link != exclude && Under(net, link, metric, threshold)
         && (best.None? || net.metrics[(link, metric)] < net.metrics[(best.value, metric)])
      then Some(link) else best
  }

  /** _find_healthiest_link over the first links; a score has to exceed -1. */
  function HealthiestLink(net: Net, links: seq<string>, exclude: string): (b: Option<string>)
    ensures b.Some? ==> b.value in net.health
  {
    if links == [] then None
    else
      var (best, link) := (HealthiestLink(net, links[..|links| - 1], exclude), links[|links| - 1]);
      if link in net.health && link != exclude
         && net.health[link] > (if best.Some? then net.health[best.value] else -1.0)
      then Some(link) else best
  }

  function FirstOver(net: Net, links: seq<string>, metric: string, threshold: real): Option<string> {
    if links == [] then None
    else if Over(net, links[0], metric, threshold) then Some(links[0])
    else FirstOver(net, links[1..], metric, threshold)
  }

  lemma {:induction false} BestLinkIs(net: Net, links: seq<string>, metric: string, threshold: real, exclude: string)
    ensures var best := BestLink(net, links, metric, threshold, exclude);
            && (best.None? <==> forall l | l in links && l != exclude :: !Under(net, l, metric, threshold))
            && (best.Some? ==>
                  best.value in links && best.value != exclude && Under(net, best.value, metric, threshold))
    ensures var best := BestLink(net, links, metric, threshold, exclude);
            best.Some? ==>
              forall l | l in links && l != exclude && Under(net, l, metric, threshold) ::
                net.metrics[(best.value, metric)] <= net.metrics[(l, metric)]
  {
    if links != [] {
      var n := |links| - 1;
      BestLinkIs(net, links[..n], metric, threshold, exclude);
      assert links == links[..n] + [links[n]];
    }
  }

  /** Link i is the first of the least value among the others under the threshold. */
  ghost predicate BestAt(net: Net, links: seq<string>, metric: string, threshold: real, exclude: string, i: int) {
    && 0 <= i < |links| && links[i] != exclude && Under(net, links[i], metric, threshold)
    && (forall j | 0 <= j < |links| && links[j] != exclude && Under(net, links[j], metric, threshold) ::
          net.metrics[(links[i], metric)] <= net.metrics[(links[j], metric)])
    && (forall j | 0 <= j < i && links[j] != exclude && Under(net, links[j], metric, threshold) ::
          net.metrics[(links[i], metric)] < net.metrics[(links[j], metric)])
  }

  lemma {:induction false} BestIsFirst(net: Net, links: seq<string>, metric: string, threshold: real, exclude: string)
    ensures var best := BestLink(net, links, metric, threshold, exclude);
            best.Some? ==> exists i :: BestAt(net, links, metric, threshold, exclude, i) && links[i] == best.value
  {
    if links != [] {
      var n := |links| - 1;
      var init := links[..n];
      assert forall j | 0 <= j < n :: init[j] == links[j];
      BestIsFirst(net, init, metric, threshold, exclude);
      BestLinkIs(net, init, metric, threshold, exclude);
      var before := BestLink(net, init, metric, threshold, exclude);
      var best := BestLink(net, links, metric, threshold, exclude);
      if best != before {
        assert BestAt(net, links, metric, threshold, exclude, n);
      } else if best.Some? {
        var i :| BestAt(net, init, metric, threshold, exclude, i) && init[i] == best.value;
        assert BestAt(net, links, metric, threshold, exclude, i);
      }
    }
  }

  /** Link i is the first of the greatest health among the others. */
  ghost predicate HealthiestAt(net: Net, links: seq<string>, exclude: string, i: int) {
    && 0 <= i < |links| && links[i] != exclude && links[i] in net.health && net.health[links[i]] > -1.0
    && (forall j | 0 <= j < |links| && links[j] != exclude && links[j] in net.health ::
          net.health[links[j]] <= net.health[links[i]])
    && (forall j | 0 <= j < i && links[j] != exclude && links[j] in net.health ::
          net.health[links[j]] < net.health[links[i]])
  }

  lemma {:induction false} HealthiestIsFirst(net: Net, links: seq<string>, exclude: string)
    ensures var best := HealthiestLink(net, links, exclude);
            best.Some? ==> exists i :: HealthiestAt(net, links, exclude, i) && links[i] == best.value
  {
    if links != [] {
      var n := |links| - 1;
      var init, link := links[..n], links[n];
      assert forall j | 0 <= j < n :: init[j] == links[j];
      HealthiestIsFirst(net, init, exclude);
      HealthiestLinkIs(net, init, exclude);
      var before, best := HealthiestLink(net, init, exclude), HealthiestLink(net, links, exclude);
      if best != before {
        assert HealthiestAt(net, links, exclude, n);
      } else if best.Some? {
        var i :| HealthiestAt(net, init, exclude, i) && init[i] == best.value;
        assert HealthiestAt(net, links, exclude, i);
      }
    }
  }

  lemma {:induction false} HealthiestLinkIs(net: Net, links: seq<string>, exclude: string)
    ensures var best := HealthiestLink(net, links, exclude);
            && (best.None? <==> forall l | l in links && l != exclude && l in net.health :: net.health[l] <= -1.0)
            && (best.Some? ==> best.value in links && best.value != exclude && net.health[best.value] > -1.0)
    ensures var best := HealthiestLink(net, links, exclude);
            best.Some? ==>
              forall l | l in links && l != exclude && l in net.health :: net.health[l] <= net.health[best.value]
  {
    if links != [] {
      var n := |links| - 1;
      HealthiestLinkIs(net, links[..n], exclude);
      assert links == links[..n] + [links[n]];
    }
  }

  // ----- violation -----

  predicate Ensures(a: IntentAction) {
    a == EnsureLatency || a == EnsureJitter || a == EnsureLoss
  }

  function CheckedMetric(a: IntentAction): string {
    if a == EnsureLatency then "latency_ms" else if a == EnsureJitter then "jitter_ms" else "packet_loss_pct"
  }

  predicate OneShot(a: IntentAction) {
    a == SelectiveDegrade || a == ThrottleApp || a == PrioritizeApp || a == PrioritizeOver
  }

  predicate Unhealthy(net: Net, link: string, limit: real) {
    link in net.health && net.health[link] < limit
  }

  predicate Violated(net: Net, p: ParsedIntent) {
    if Ensures(p.action) then
      p.threshold.Some? && exists l :: l in net.activeLinks && Over(net, l, CheckedMetric(p.action), p.threshold.value)
                                       && (p.preferredLink.Some? ==> l == p.preferredLink.value)
    else match p.action
    case Prioritize => p.preferredLink.Some? && Unhealthy(net, p.preferredLink.value, 40.0)
    case Block => p.avoidLink.Some? && p.avoidLink.value !in net.divertedFrom && Unhealthy(net, p.avoidLink.value, 60.0)
    case Redirect => p.sourceLink.Some? && p.sourceLink.value !in net.divertedFrom
    case _ => false
  }

  // ----- steering -----

  datatype Route = Route(source: Option<string>, target: Option<string>)

  function ChosenRoute(net: Net, p: ParsedIntent): Route {
    var links := net.activeLinks;
    if Ensures(p.action) then
      if p.metric.None? || p.threshold.None? then Route(None, None)
      else
        var source := FirstOver(net, links, p.metric.value, p.threshold.value);
        if source.None? then Route(None, None)
        else
          var best := BestLink(net, links, p.metric.value, p.threshold.value, source.value);
          Route(source, if best.Some? then best else HealthiestLink(net, links, source.value))
    else match p.action
    case Prioritize =>
      if p.preferredLink.None? then Route(None, None)
      else
        var alt := HealthiestLink(net, links, p.preferredLink.value);
        if alt.Some? then Route(alt, p.preferredLink) else Route(None, None)
    case Redirect => Route(p.sourceLink, p.targetLink)
    case Block =>
      if p.avoidLink.None? then Route(None, None)
      else Route(p.avoidLink, HealthiestLink(net, links, p.avoidLink.value))
    case _ => Route(None, None)
  }

  /** _auto_steer_for_intent: where to, if anywhere. */
  function Steering(net: Net, p: ParsedIntent): Option<(string, string)> {
    var r := ChosenRoute(net, p);
    if r.source.Some? && r.target.Some? && r.source.value != r.target.value && r.source.value !in net.divertedFrom
    then Some((r.source.value, r.target.value)) else None
  }

  /** Link i is the first one over the threshold. */
  ghost predicate FirstAt(net: Net, links: seq<string>, metric: string, threshold: real, i: int) {
    && 0 <= i < |links| && Over(net, links[i], metric, threshold)
    && forall j | 0 <= j < i :: !Over(net, links[j], metric, threshold)
  }

  lemma {:induction false} FirstOverIs(net: Net, links: seq<string>, metric: string, threshold: real)
    ensures FirstOver(net, links, metric, threshold).None? <==>
            forall l | l in links :: !Over(net, l, metric, threshold)
    ensures forall i | FirstAt(net, links, metric, threshold, i) ::
              FirstOver(net, links, metric, threshold) == Some(links[i])
    ensures var f := FirstOver(net, links, metric, threshold);
            f.Some? ==> f.value in links && Over(net, f.value, metric, threshold)
  {
    if links != [] {
      FirstOverIs(net, links[1..], metric, threshold);
      assert links == [links[0]] + links[1..];
      forall i | FirstAt(net, links, metric, threshold, i)
        ensures FirstOver(net, links, metric, threshold) == Some(links[i])
      {
        if i > 0 {
          assert forall j | 0 <= j < i - 1 :: links[1..][j] == links[j + 1];
          assert FirstAt(net, links[1..], metric, threshold, i - 1);
        }
      }
    }
  }

  /** Every automatic steering leads from an undiverted link to a different one. One
      for an ENSURE intent leads away from a link over the threshold, to the link
      with the least value under it if there is one, else to the healthiest other. */
  lemma SteeringSound(net: Net, p: ParsedIntent)
    requires Steering(net, p).Some?
    ensures var (source, target) := Steering(net, p).value;
            source != target && source !in net.divertedFrom
    ensures Ensures(p.action) ==>
              var (source, target) := Steering(net, p).value;
              && p.metric.Some? && p.threshold.Some?
              && source in net.activeLinks && target in net.activeLinks
              && Over(net, source, p.metric.value, p.threshold.value)
              && EnsureTarget(net, p.metric.value, p.threshold.value, source, target)
  {
    if Ensures(p.action) {
      var metric, threshold := p.metric.value, p.threshold.value;
      var source := Steering(net, p).value.0;
      FirstOverIs(net, net.activeLinks, metric, threshold);
      BestLinkIs(net, net.activeLinks, metric, threshold, source);
      HealthiestLinkIs(net, net.activeLinks, source);
    }
  }

  /** A Redirect intent steers exactly from its source to its target, whenever both are
      named, differ, and the source is not diverted. */
  lemma RedirectSteers(net: Net, p: ParsedIntent)
    requires p.action == Redirect
    ensures Steering(net, p) ==
            if p.sourceLink.Some? && p.targetLink.Some? && p.sourceLink != p.targetLink
               && p.sourceLink.value !in net.divertedFrom
            then Some((p.sourceLink.value, p.targetLink.value)) else None
  {
  }

  /** Some link other than this one has a health prediction above -1. */
  ghost predicate OtherHealthy(net: Net, link: string) {
    exists l :: l in net.activeLinks && l != link && l in net.health && net.health[l] > -1.0
  }

  /** A Block intent steers from the link to avoid to the healthiest other one, whenever
      there is one and the link is not diverted. */
  lemma BlockSteers(net: Net, p: ParsedIntent)
    requires p.action == Block
    ensures Steering(net, p).Some? <==>
              p.avoidLink.Some? && p.avoidLink.value !in net.divertedFrom && OtherHealthy(net, p.avoidLink.value)
    ensures Steering(net, p).Some? ==>
              && Steering(net, p).value.0 == p.avoidLink.value
              && exists i :: HealthiestAt(net, net.activeLinks, p.avoidLink.value, i)
                             && net.activeLinks[i] == Steering(net, p).value.1
  {
    if p.avoidLink.Some? {
      HealthiestLinkIs(net, net.activeLinks, p.avoidLink.value);
      HealthiestIsFirst(net, net.activeLinks, p.avoidLink.value);
    }
  }

  /** A Prioritize intent steers from the healthiest other link to the preferred one,
      whenever there is one and it is not diverted. */
  lemma PrioritizeSteers(net: Net, p: ParsedIntent)
    requires p.action == Prioritize
    ensures Steering(net, p).Some? ==>
              && p.preferredLink.Some? && Steering(net, p).value.1 == p.preferredLink.value
              && exists i :: HealthiestAt(net, net.activeLinks, p.preferredLink.value, i)
                             && net.activeLinks[i] == Steering(net, p).value.0
    ensures p.preferredLink.Some? ==>
              forall i | HealthiestAt(net, net.activeLinks, p.preferredLink.value, i) ::
                Steering(net, p).Some? <==> net.activeLinks[i] !in net.divertedFrom
    ensures p.preferredLink.Some? && !OtherHealthy(net, p.preferredLink.value) ==> Steering(net, p).None?
  {
    if p.preferredLink.Some? {
      var links, x := net.activeLinks, p.preferredLink.value;
      HealthiestLinkIs(net, links, x);
      HealthiestIsFirst(net, links, x);
      forall i | HealthiestAt(net, links, x, i) ensures HealthiestLink(net, links, x) == Some(links[i]) {
        assert links[i] in links;
        var k :| HealthiestAt(net, links, x, k) && links[k] == HealthiestLink(net, links, x).value;
        assert i == k;
      }
    }
  }

  /** An ENSURE intent steers from the first link over its threshold, whenever that is not
      diverted and another link is under the threshold or has a prediction. */
  lemma EnsureSteers(net: Net, p: ParsedIntent)
    requires Ensures(p.action)
    ensures p.metric.None? || p.threshold.None? ==> Steering(net, p).None?
    ensures p.metric.Some? && p.threshold.Some?
            && (forall l | l in net.activeLinks :: !Over(net, l, p.metric.value, p.threshold.value))
            ==> Steering(net, p).None?
    ensures p.metric.Some? && p.threshold.Some? ==>
              forall i | FirstAt(net, net.activeLinks, p.metric.value, p.threshold.value, i) ::
                var source := net.activeLinks[i];
                && (Steering(net, p).Some? ==> Steering(net, p).value.0 == source)
                && (Steering(net, p).Some? <==>
                      && source !in net.divertedFrom
                      && (OtherUnder(net, source, p.metric.value, p.threshold.value) || OtherHealthy(net, source)))
  {
    if p.metric.Some? && p.threshold.Some? {
      var links, metric, threshold := net.activeLinks, p.metric.value, p.threshold.value;
      FirstOverIs(net, links, metric, threshold);
      forall i | FirstAt(net, links, metric, threshold, i)
        ensures FirstOver(net, links, metric, threshold) == Some(links[i])
        ensures BestLink(net, links, metric, threshold, links[i]).Some? <==>
                OtherUnder(net, links[i], metric, threshold)
        ensures HealthiestLink(net, links, links[i]).Some? <==> OtherHealthy(net, links[i])
        ensures var b := BestLink(net, links, metric, threshold, links[i]); b.Some? ==> b.value != links[i]
        ensures var b := HealthiestLink(net, links, links[i]); b.Some? ==> b.value != links[i]
      {
        BestLinkIs(net, links, metric, threshold, links[i]);
        HealthiestLinkIs(net, links, links[i]);
      }
    }
  }

  ghost predicate OtherUnder(net: Net, link: string, metric: string, threshold: real) {
    exists l :: l in net.activeLinks && l != link && Under(net, l, metric, threshold)
  }

  /** The other actions never steer. */
  lemma OthersNeverSteer(net: Net, p: ParsedIntent)
    requires !Ensures(p.action) && p.action != Prioritize && p.action != Redirect && p.action != Block
    ensures Steering(net, p).None? && !Violated(net, p)
  {
  }

  function Diverting(net: Net, link: string): Net {
    net.(divertedFrom := net.divertedFrom + {link})
  }

  /** Once the source of a steer is diverted the same steer is not made again, and a
      Redirect or Block intent is no longer violated. */
  lemma SteerSettles(net: Net, p: ParsedIntent)
    requires Steering(net, p).Some?
    ensures var after := Diverting(net, Steering(net, p).value.0);
            && Steering(after, p).None?
            && (p.action == Redirect || p.action == Block ==> !Violated(after, p))
  {
    var after := Diverting(net, Steering(net, p).value.0);
    SearchesIgnoreDiversions(net, after, p);
  }

  lemma SearchesIgnoreDiversions(net: Net, after: Net, p: ParsedIntent)
    requires after == net.(divertedFrom := after.divertedFrom)
    ensures ChosenRoute(after, p) == ChosenRoute(net, p)
  {
    var links := net.activeLinks;
    forall x ensures HealthiestLink(after, links, x) == HealthiestLink(net, links, x) {
      SameHealthiest(net, after, links, x);
    }
    if Ensures(p.action) && p.metric.Some? && p.threshold.Some? {
      SameOver(net, after, links, p.metric.value, p.threshold.value);
      forall x ensures BestLink(after, links, p.metric.value, p.threshold.value, x)
                    == BestLink(net, links, p.metric.value, p.threshold.value, x) {
        SameBest(net, after, links, p.metric.value, p.threshold.value, x);
      }
    }
  }

  lemma {:induction false} SameHealthiest(net: Net, after: Net, links: seq<string>, exclude: string)
    requires after.health == net.health
    ensures HealthiestLink(after, links, exclude) == HealthiestLink(net, links, exclude)
  {
    if links != [] {
      SameHealthiest(net, after, links[..|links| - 1], exclude);
    }
  }

  lemma {:induction false} SameBest(net: Net, after: Net, links: seq<string>, metric: string, threshold: real,
                                    exclude: string)
    requires after.metrics == net.metrics
    ensures BestLink(after, links, metric, threshold, exclude) == BestLink(net, links, metric, threshold, exclude)
  {
    if links != [] {
      SameBest(net, after, links[..|links| - 1], metric, threshold, exclude);
    }
  }

  lemma {:induction false} SameOver(net: Net, after: Net, links: seq<string>, metric: string, threshold: real)
    requires after.metrics == net.metrics
    ensures FirstOver(after, links, metric, threshold) == FirstOver(net, links, metric, threshold)
  {
    if links != [] {
      SameOver(net, after, links[1..], metric, threshold);
    }
  }

  ghost predicate EnsureTarget(net: Net, metric: string, threshold: real, source: string, target: string) {
    if exists l :: l in net.activeLinks && l != source && Under(net, l, metric, threshold) then
      && Under(net, target, metric, threshold)
      && forall l | l in net.activeLinks && l != source && Under(net, l, metric, threshold) ::
           net.metrics[(target, metric)] <= net.metrics[(l, metric)]
    else
      && target in net.health
      && forall l | l in net.activeLinks && l != source && l in net.health :: net.health[l] <= net.health[target]
  }

  // ----- one intent over time -----

  /** lastSteer is the intent's entry in _last_auto_steer, 0 when there is none. */
  datatype IntentState = IntentState(
    status: IntentStatus, lastChecked: real, violationCount: nat, autoSteerCount: nat, lastSteer: real)

  /** The readings of the clock one check makes, in order. */
  datatype Clock = Clock(now: real, check: real, event: real, mark: real)

  predicate Monotone(c: Clock) {
    c.now <= c.check <= c.event <= c.mark
  }

  function OnViolation(s: IntentState, net: Net, p: ParsedIntent, c: Clock): IntentState {
    var s1 := s.(violationCount := s.violationCount + 1);
    if c.check - s.lastSteer > AUTO_STEER_COOLDOWN then
      var s2 := s1.(status := VIOLATED, lastSteer := c.mark);
      if Steering(net, p).Some? then s2.(status := AUTO_STEERING, autoSteerCount := s.autoSteerCount + 1) else s2
    else s1.(status := AUTO_STEERING)
  }

  /** The second half of a check. */
  function Judged(s: IntentState, net: Net, p: ParsedIntent, c: Clock): IntentState {
    if Violated(net, p) then OnViolation(s, net, p, c)
    else if s.status == VIOLATED || s.status == AUTO_STEERING || s.status == ACTIVE then s.(status := COMPLIANT)
    else s
  }

  function Checked(s: IntentState, net: Net, p: ParsedIntent, c: Clock): IntentState {
    if s.status == DELETED || s.status == PAUSED then s
    else
      var s1 := s.(lastChecked := c.now);
      if OneShot(p.action) then s1 else Judged(s1, net, p, c)
  }

  /** The event a check records is the one that raises the steering count. */
  function Recorded(id: string, s: IntentState, net: Net, p: ParsedIntent, c: Clock): Option<SteeringEvent> {
    if Checked(s, net, p, c).autoSteerCount > s.autoSteerCount && Steering(net, p).Some?
    then
      var (source, target) := Steering(net, p).value;
      Some(AutoSteered(id, s.autoSteerCount + 1, source, target, c.event))
    else None
  }

  predicate Live(s: IntentState) {
    s.status != DELETED && s.status != PAUSED
  }

  /** Half a minute has gone by since the last steer. */
  predicate CooledDown(s: IntentState, c: Clock) {
    c.check > s.lastSteer + 30.0
  }

  /** A check counts a violation iff the intent is live and violated, and a steer iff, on
      top, the cooldown is over and there is somewhere to steer. */
  lemma ChecksCount(s: IntentState, net: Net, p: ParsedIntent, c: Clock)
    ensures var t := Checked(s, net, p, c);
            && t.violationCount == s.violationCount + (if Live(s) && Violated(net, p) then 1 else 0)
            && t.autoSteerCount ==
                 s.autoSteerCount
                 + (if Live(s) && Violated(net, p) && CooledDown(s, c) && Steering(net, p).Some? then 1 else 0)
            && t.lastSteer == (if Live(s) && Violated(net, p) && CooledDown(s, c) then c.mark else s.lastSteer)
            && t.lastChecked == (if Live(s) then c.now else s.lastChecked)
  {
  }

  /** Which status a check leaves. */
  lemma ChecksJudge(s: IntentState, net: Net, p: ParsedIntent, c: Clock)
    requires Live(s)
    ensures var t := Checked(s, net, p, c).status;
            && (OneShot(p.action) ==> t == s.status)
            && (!OneShot(p.action) && !Violated(net, p) ==> t == COMPLIANT)
            && (Violated(net, p) ==>
                  t == if CooledDown(s, c) && Steering(net, p).None? then VIOLATED else AUTO_STEERING)
  {
  }

  /** What breaks an intent, in terms of its own fields. */
  lemma ViolatedIff(net: Net, p: ParsedIntent)
    ensures p.action == Prioritize ==>
              (Violated(net, p) <==> exists l :: p.preferredLink == Some(l) && l in net.health && net.health[l] < 40.0)
    ensures p.action == Block ==>
              (Violated(net, p) <==>
                exists l :: p.avoidLink == Some(l) && l in net.health && net.health[l] < 60.0 && l !in net.divertedFrom)
    ensures p.action == Redirect ==>
              (Violated(net, p) <==> exists l :: p.sourceLink == Some(l) && l !in net.divertedFrom)
    ensures forall x, m | p.threshold == Some(x) && Measures(p.action, m) ::
              Violated(net, p) <==>
              exists l :: BreaksThreshold(net, p, l, m, x)
    ensures Violated(net, p) && Ensures(p.action) ==> p.threshold.Some?
  {
    forall x, m | p.threshold == Some(x) && Measures(p.action, m)
      ensures Violated(net, p) <==> exists l :: BreaksThreshold(net, p, l, m, x)
    {
      if Violated(net, p) {
        var l :| l in net.activeLinks && Over(net, l, m, x) && (p.preferredLink.Some? ==> l == p.preferredLink.value);
        assert BreaksThreshold(net, p, l, m, x);
      }
      if l :| BreaksThreshold(net, p, l, m, x) {
        assert Over(net, l, m, x);
      }
    }
  }

  predicate Measures(a: IntentAction, metric: string) {
    || (a == EnsureLatency && metric == "latency_ms")
    || (a == EnsureJitter && metric == "jitter_ms")
    || (a == EnsureLoss && metric == "packet_loss_pct")
  }

  /** A live link, the preferred one if there is one, whose latest value is too high. */
  predicate BreaksThreshold(net: Net, p: ParsedIntent, link: string, metric: string, threshold: real) {
    && link in net.activeLinks && (p.preferredLink.Some? ==> p.preferredLink == Some(link))
    && (link, metric) in net.metrics && net.metrics[(link, metric)] > threshold
  }

  /** The event names the intent, its new count, the ends of the steer and a time between
      the check of the cooldown and its new mark. */
  lemma RecordedIs(id: string, s: IntentState, net: Net, p: ParsedIntent, c: Clock)
    ensures var (t, event) := (Checked(s, net, p, c), Recorded(id, s, net, p, c));
            && (event.Some? <==> t.autoSteerCount > s.autoSteerCount)
            && (event.Some? ==>
                  && Steering(net, p).Some? && event.value.AutoSteered?
                  && event.value.intentId == id && event.value.steerCount == t.autoSteerCount
                  && (event.value.sourceLink, event.value.targetLink) == Steering(net, p).value
                  && event.value.timestamp == c.event
                  && (Monotone(c) ==> c.check <= event.value.timestamp <= t.lastSteer))
  {
  }

  datatype Step = Monitor(net: Net, clock: Clock) | Pause | Resume | Delete

  function Apply(s: IntentState, p: ParsedIntent, step: Step): IntentState {
    match step
    case Monitor(net, clock) => Checked(s, net, p, clock)
    case Pause => if s.status != DELETED then s.(status := PAUSED) else s
    case Resume => if s.status == PAUSED then s.(status := ACTIVE) else s
    case Delete => s.(status := DELETED)
  }

  function Run(s: IntentState, p: ParsedIntent, steps: seq<Step>): IntentState {
    if steps == [] then s else Apply(Run(s, p, steps[..|steps| - 1]), p, steps[|steps| - 1])
  }

  /** DELETED is never left, and PAUSED only by resume or delete. */
  lemma {:induction false} AbsorbingStates(s: IntentState, p: ParsedIntent, steps: seq<Step>)
    ensures s.status == DELETED ==> Run(s, p, steps).status == DELETED
    ensures s.status == PAUSED && (forall i | 0 <= i < |steps| :: steps[i] != Resume && steps[i] != Delete)
            ==> Run(s, p, steps) == s
  {
    if steps != [] {
      AbsorbingStates(s, p, steps[..|steps| - 1]);
    }
  }

  /** Pausing and resuming a live intent makes it active again and changes no count. */
  lemma PauseThenResume(s: IntentState, p: ParsedIntent)
    requires s.status != DELETED
    ensures Apply(s, p, Pause) == s.(status := PAUSED)
    ensures Apply(Apply(s, p, Pause), p, Resume) == s.(status := ACTIVE)
    ensures s.status != PAUSED ==> Apply(s, p, Resume) == s
    ensures Apply(s, p, Delete) == s.(status := DELETED)
  {
  }

  /** Every steer is caused by a violation of its own. */
  lemma {:induction false} SteersAreViolations(s: IntentState, p: ParsedIntent, steps: seq<Step>)
    ensures var t := Run(s, p, steps);
            && s.violationCount <= t.violationCount && s.autoSteerCount <= t.autoSteerCount
            && t.autoSteerCount - s.autoSteerCount <= t.violationCount - s.violationCount
  {
    if steps != [] {
      SteersAreViolations(s, p, steps[..|steps| - 1]);
    }
  }

  /** The clock never goes back between a and b. */
  predicate Timed(steps: seq<Step>, a: real, b: real) {
    if steps == [] then a <= b
    else
      var last := steps[|steps| - 1];
      if last.Monitor?
      then Monotone(last.clock) && last.clock.mark <= b && Timed(steps[..|steps| - 1], a, last.clock.now)
      else Timed(steps[..|steps| - 1], a, b)
  }

  lemma {:induction false} TimedOrder(steps: seq<Step>, a: real, b: real)
    requires Timed(steps, a, b)
    ensures a <= b
  {
    if steps != [] {
      var last := steps[|steps| - 1];
      TimedOrder(steps[..|steps| - 1], a, if last.Monitor? then last.clock.now else b);
    }
  }

  /** Once c steers have happened since time a, the last mark lies at least c - 1
      cooldowns after a. */
  lemma {:induction false} SteersSpread(s: IntentState, p: ParsedIntent, steps: seq<Step>, a: real, b: real)
    requires Timed(steps, a, b)
    ensures var t := Run(s, p, steps);
            var c := t.autoSteerCount - s.autoSteerCount;
            c >= 1 ==> a + AUTO_STEER_COOLDOWN * (c - 1) as real <= t.lastSteer <= b
  {
    if steps != [] {
      var n := |steps| - 1;
      var last, init := steps[n], steps[..n];
      var end := if last.Monitor? then last.clock.now else b;
      SteersSpread(s, p, init, a, end);
      SteersAreViolations(s, p, init);
      TimedOrder(init, a, end);
      assert Run(s, p, steps) == Apply(Run(s, p, init), p, last);
    }
  }

  /** In a window of T seconds an intent steers at most 1 + T/30 times. */
  lemma SteerRate(s: IntentState, p: ParsedIntent, steps: seq<Step>, a: real, b: real)
    requires Timed(steps, a, b)
    ensures (Run(s, p, steps).autoSteerCount - s.autoSteerCount) as real <= 1.0 + (b - a) / 30.0
  {
    SteersSpread(s, p, steps, a, b);
    TimedOrder(steps, a, b);
  }
}
