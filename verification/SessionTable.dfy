/** What a run of registrations and handoffs does to the tracked sessions: the
    per-link table, and an account of one session's life that never looks at the
    table. */
module SessionTable {
  import opened Text

  datatype SessionType = Tcp | Udp | VoipRtp | VoipSip | Video | Other

  datatype SessionState = Active | Migrating | Migrated | Dropped

  /** The state a handoff has to carry over untouched. */
  datatype Carried = Carried(
    sessionType: SessionType,
    srcIp: string, dstIp: string, srcPort: nat, dstPort: nat, protocol: string,
    tcpSeqNumber: Option<int>, tcpAckNumber: Option<int>, tcpWindowSize: Option<int>,
    rtpSsrc: Option<int>, rtpSequence: Option<int>, rtpTimestamp: Option<int>,
    codec: Option<string>, startedAt: int, bytesTransferred: int)

  datatype Session = Session(
    id: string, linkId: string, carried: Carried, state: SessionState, migratedAt: Option<int>)

  type Table = map<string, seq<Session>>

  function On(t: Table, link: string): seq<Session> {
    if link in t then t[link] else []
  }

  function ActiveOf(s: seq<Session>): seq<Session> {
    if s == [] then [] else IfActive(s[0]) + ActiveOf(s[1..])
  }

  function IfActive(s: Session): seq<Session> {
    if s.state == Active then [s] else []
  }

  lemma ActiveOfOne(s: Session)
    ensures ActiveOf([s]) == if s.state == Active then [s] else []
  {
    assert [s][1..] == [];
  }

  lemma ActiveOfFirst(s: Session, rest: seq<Session>)
    ensures ActiveOf([s] + rest) == IfActive(s) + ActiveOf(rest)
  {
    assert ([s] + rest)[1..] == rest;
  }

  lemma ConcatThree(x: seq<Session>, y: seq<Session>, z: seq<Session>)
    ensures (x + y) + z == x + (y + z)
  {
  }

  lemma ActiveOfNext(s: Session, rest: seq<Session>, b: seq<Session>)
    requires ActiveOf(rest + b) == ActiveOf(rest) + ActiveOf(b)
    ensures ActiveOf([s] + (rest + b)) == ActiveOf([s] + rest) + ActiveOf(b)
  {
    ActiveOfFirst(s, rest + b);
    ActiveOfFirst(s, rest);
    ConcatThree(IfActive(s), ActiveOf(rest), ActiveOf(b));
  }

  /** The active sessions are listed in their order. */
  lemma {:induction false} ActiveOfConcat(a: seq<Session>, b: seq<Session>)
    ensures ActiveOf(a + b) == ActiveOf(a) + ActiveOf(b)
  {
    if a == [] {
      assert a + b == b;
    } else {
      ActiveOfConcat(a[1..], b);
      ActiveOfNext(a[0], a[1..], b);
      ConcatThree([a[0]], a[1..], b);
      assert a == [a[0]] + a[1..];
    }
  }

  function Moved(s: Session, target: string, now: int): Session {
    s.(linkId := target, state := Migrated, migratedAt := Some(now))
  }

  function AllMoved(s: seq<Session>, target: string, now: int): seq<Session> {
    seq(|s|, i requires 0 <= i < |s| => Moved(s[i], target, now))
  }

  function Registered(t: Table, link: string, id: string, carried: Carried): Table {
    t[link := On(t, link) + [Session(id, link, carried, Active, None)]]
  }

  /** The target list is created only when there is a session to append; the
      source list is always replaced, and nothing in it is still active. */
  function AfterHandoff(t: Table, source: string, target: string, now: int): Table {
    var moved := AllMoved(ActiveOf(On(t, source)), target, now);
    (if moved == [] then t else t[target := On(t, target) + moved])[source := []]
  }

  // ----- runs -----

  datatype Step =
    | Register(id: string, link: string, carried: Carried)
    | Handoff(source: string, target: string, now: int)

  function Apply(t: Table, step: Step): Table {
    match step
    case Register(id, link, carried) => Registered(t, link, id, carried)
    case Handoff(source, target, now) => AfterHandoff(t, source, target, now)
  }

  function Run(steps: seq<Step>): Table {
    if steps == [] then map[] else Apply(Run(steps[..|steps| - 1]), steps[|steps| - 1])
  }

  /** Session ids are never drawn twice. */
  ghost predicate FreshIds(steps: seq<Step>) {
    forall i, j | 0 <= i < j < |steps| && steps[i].Register? && steps[j].Register? ::
      steps[i].id != steps[j].id
  }

  /** The life of one session: registered, moved once, gone. */
  datatype Fate =
    | Unregistered
    | Tracked(link: string, carried: Carried, movedAt: Option<int>)
    | Gone

  function Fated(f: Fate, id: string, step: Step): Fate {
    match step
    case Register(i, link, carried) => if i == id then Tracked(link, carried, None) else f
    case Handoff(source, target, now) =>
      if f.Tracked? && f.link == source then
        if f.movedAt == None && source != target then Tracked(target, f.carried, Some(now)) else Gone
      else f
  }

  function FateOf(steps: seq<Step>, id: string): Fate {
    if steps == [] then Unregistered
    else Fated(FateOf(steps[..|steps| - 1], id), id, steps[|steps| - 1])
  }

  /** How a tracked session must look in the table. */
  function Expected(id: string, f: Fate): Session
    requires f.Tracked?
  {
    Session(id, f.link, f.carried, if f.movedAt == None then Active else Migrated, f.movedAt)
  }

  ghost predicate Occurs(t: Table, link: string, i: int) {
    link in t && 0 <= i < |t[link]|
  }

  ghost predicate NoSessionTwice(t: Table) {
    forall l1, i1, l2, i2 | Occurs(t, l1, i1) && Occurs(t, l2, i2) && t[l1][i1].id == t[l2][i2].id ::
      l1 == l2 && i1 == i2
  }

  ghost predicate Holds(t: Table, s: Session) {
    s in On(t, s.linkId)
  }

  /** The table holds exactly the sessions whose fate is to be tracked. */
  ghost predicate Agrees(t: Table, steps: seq<Step>) {
    && NoSessionTwice(t)
    && EntriesAgree(t, steps)
    && FatesHeld(t, steps)
  }

  /** s is on the list of link l as its fate says. */
  predicate EntryAgrees(s: Session, l: string, f: Fate) {
    f.Tracked? && s == Expected(s.id, f) && s.linkId == l
  }

  ghost predicate EntriesAgree(t: Table, steps: seq<Step>) {
    forall l, i | Occurs(t, l, i) :: EntryAgrees(t[l][i], l, FateOf(steps, t[l][i].id))
  }

  ghost predicate FatesHeld(t: Table, steps: seq<Step>) {
    forall id | FateOf(steps, id).Tracked? :: Holds(t, Expected(id, FateOf(steps, id)))
  }

  lemma NextFate(steps: seq<Step>, step: Step, id: string)
    ensures FateOf(steps + [step], id) == Fated(FateOf(steps, id), id, step)
  {
    assert (steps + [step])[..|steps|] == steps;
  }

  lemma {:induction false} ActiveOfMembers(s: seq<Session>)
    ensures forall x :: x in ActiveOf(s) <==> x in s && x.state == Active
  {
    if s != [] {
      ActiveOfMembers(s[1..]);
      assert s == [s[0]] + s[1..];
    }
  }

  lemma {:induction false} ActiveOfDistinct(s: seq<Session>)
    requires DistinctIds(s)
    ensures DistinctIds(ActiveOf(s))
  {
    if s != [] {
      ActiveOfDistinct(s[1..]);
      ActiveOfMembers(s[1..]);
      forall x | x in ActiveOf(s[1..]) ensures x.id != s[0].id {
        assert x in s[1..];
      }
    }
  }

  lemma {:induction false} NeverRegistered(steps: seq<Step>, id: string)
    requires forall i | 0 <= i < |steps| && steps[i].Register? :: steps[i].id != id
    ensures FateOf(steps, id) == Unregistered
  {
    if steps != [] {
      NeverRegistered(steps[..|steps| - 1], id);
    }
  }

  lemma RegisterOrigin(t: Table, link: string, id: string, carried: Carried, l: string, i: int)
    requires Occurs(Registered(t, link, id, carried), l, i)
    ensures var s := Registered(t, link, id, carried)[l][i];
            (s.id == id && l == link && i == |On(t, l)|) || (Occurs(t, l, i) && s == t[l][i])
  {
  }

  lemma RegisterNoSessionTwice(t: Table, steps: seq<Step>, step: Step)
    requires Agrees(t, steps) && step.Register? && FateOf(steps, step.id) == Unregistered
    ensures NoSessionTwice(Apply(t, step))
  {
    var t' := Apply(t, step);
    forall l1, i1, l2, i2 | Occurs(t', l1, i1) && Occurs(t', l2, i2) && t'[l1][i1].id == t'[l2][i2].id
      ensures l1 == l2 && i1 == i2
    {
      RegisterOrigin(t, step.link, step.id, step.carried, l1, i1);
      RegisterOrigin(t, step.link, step.id, step.carried, l2, i2);
    }
  }

  lemma RegisterEntries(t: Table, steps: seq<Step>, step: Step)
    requires EntriesAgree(t, steps) && step.Register? && FateOf(steps, step.id) == Unregistered
    ensures EntriesAgree(Apply(t, step), steps + [step])
  {
    var t' := Apply(t, step);
    forall l: string, i: int | Occurs(t', l, i)
      ensures EntryAgrees(t'[l][i], l, FateOf(steps + [step], t'[l][i].id))
    {
      RegisterOrigin(t, step.link, step.id, step.carried, l, i);
      NextFate(steps, step, t'[l][i].id);
    }
  }

  lemma RegisterFates(t: Table, steps: seq<Step>, step: Step)
    requires FatesHeld(t, steps) && step.Register? && FateOf(steps, step.id) == Unregistered
    ensures FatesHeld(Apply(t, step), steps + [step])
  {
    forall id | FateOf(steps + [step], id).Tracked?
      ensures Holds(Apply(t, step), Expected(id, FateOf(steps + [step], id)))
    {
      NextFate(steps, step, id);
      if id != step.id {
        assert Holds(t, Expected(id, FateOf(steps, id)));
      }
    }
  }

  lemma RegisterAgrees(t: Table, steps: seq<Step>, step: Step)
    requires Agrees(t, steps) && step.Register? && FateOf(steps, step.id) == Unregistered
    ensures Agrees(Apply(t, step), steps + [step])
  {
    RegisterNoSessionTwice(t, steps, step);
    RegisterEntries(t, steps, step);
    RegisterFates(t, steps, step);
  }

  /** Place i of list l after the handoff: s was there before, or was moved there. */
  ghost predicate CameFrom(t: Table, source: string, target: string, now: int, l: string, i: int, s: Session) {
    var (kept, moved) := (|On(t, l)|, AllMoved(ActiveOf(On(t, source)), target, now));
    && l != source && i >= 0
    && if i < kept then Occurs(t, l, i) && s == t[l][i]
       else l == target && i - kept < |moved| && s == moved[i - kept]
  }

  lemma HandoffOrigin(t: Table, source: string, target: string, now: int, l: string, i: int)
    requires Occurs(AfterHandoff(t, source, target, now), l, i)
    ensures CameFrom(t, source, target, now, l, i, AfterHandoff(t, source, target, now)[l][i])
  {
  }

  /** Sessions at two places of the new table differ, wherever they come from. */
  lemma OriginsApart(t: Table, source: string, target: string, now: int,
                     l1: string, i1: int, s1: Session, l2: string, i2: int, s2: Session)
    requires NoSessionTwice(t) && (l1 != l2 || i1 != i2)
    requires CameFrom(t, source, target, now, l1, i1, s1) && CameFrom(t, source, target, now, l2, i2, s2)
    ensures s1.id != s2.id
  {
    var act := ActiveOf(On(t, source));
    if i1 < |On(t, l1)| && i2 >= |On(t, l2)| {
      ComesFromSource(t, source, act, i2 - |On(t, l2)|, l1, i1);
    } else if i2 < |On(t, l2)| && i1 >= |On(t, l1)| {
      ComesFromSource(t, source, act, i1 - |On(t, l1)|, l2, i2);
    } else if i1 >= |On(t, l1)| {
      MovedApart(t, source, i1 - |On(t, l1)|, i2 - |On(t, l2)|);
    }
  }

  lemma MovedApart(t: Table, source: string, i: int, j: int)
    requires NoSessionTwice(t) && 0 <= i < |ActiveOf(On(t, source))| && 0 <= j < |ActiveOf(On(t, source))| && i != j
    ensures ActiveOf(On(t, source))[i].id != ActiveOf(On(t, source))[j].id
  {
    ListDistinct(t, source);
    ActiveOfDistinct(On(t, source));
  }

  lemma HandoffNoSessionTwice(t: Table, source: string, target: string, now: int)
    requires NoSessionTwice(t)
    ensures NoSessionTwice(AfterHandoff(t, source, target, now))
  {
    var t' := AfterHandoff(t, source, target, now);
    forall l1, i1, l2, i2 | Occurs(t', l1, i1) && Occurs(t', l2, i2) && t'[l1][i1].id == t'[l2][i2].id
      ensures l1 == l2 && i1 == i2
    {
      if l1 != l2 || i1 != i2 {
        HandoffOrigin(t, source, target, now, l1, i1);
        HandoffOrigin(t, source, target, now, l2, i2);
        OriginsApart(t, source, target, now, l1, i1, t'[l1][i1], l2, i2, t'[l2][i2]);
      }
    }
  }

  lemma ComesFromSource(t: Table, source: string, act: seq<Session>, k: int, l: string, i: int)
    requires NoSessionTwice(t) && act == ActiveOf(On(t, source))
    requires 0 <= k < |act| && Occurs(t, l, i) && l != source
    ensures act[k].id != t[l][i].id
  {
    ActiveOfMembers(On(t, source));
    assert act[k] in On(t, source);
    var j :| 0 <= j < |On(t, source)| && On(t, source)[j] == act[k];
    assert Occurs(t, source, j);
  }

  /** The moved sessions come from the source list. */
  lemma MovedOrigin(t: Table, source: string, k: int) returns (j: int)
    requires 0 <= k < |ActiveOf(On(t, source))|
    ensures Occurs(t, source, j) && t[source][j] == ActiveOf(On(t, source))[k] && t[source][j].state == Active
  {
    var a := ActiveOf(On(t, source))[k];
    ActiveOfMembers(On(t, source));
    assert a in On(t, source);
    j :| 0 <= j < |On(t, source)| && On(t, source)[j] == a;
  }

  lemma HandoffEntries(t: Table, steps: seq<Step>, step: Step)
    requires EntriesAgree(t, steps) && step.Handoff?
    ensures EntriesAgree(Apply(t, step), steps + [step])
  {
    var Handoff(source, target, now) := step;
    var t' := Apply(t, step);
    forall l: string, i: int | Occurs(t', l, i)
      ensures EntryAgrees(t'[l][i], l, FateOf(steps + [step], t'[l][i].id))
    {
      HandoffOrigin(t, source, target, now, l, i);
      NextFate(steps, step, t'[l][i].id);
      if i < |On(t, l)| {
        assert EntryAgrees(t[l][i], l, FateOf(steps, t[l][i].id));
      } else {
        var j := MovedOrigin(t, source, i - |On(t, l)|);
        assert EntryAgrees(t[source][j], source, FateOf(steps, t[source][j].id));
      }
    }
  }

  /** A session that a handoff moves is on the target list. */
  lemma MovedArrives(t: Table, source: string, target: string, now: int, s: Session)
    requires source != target && s in On(t, source) && s.state == Active
    ensures Moved(s, target, now) in On(AfterHandoff(t, source, target, now), target)
  {
    ActiveOfMembers(On(t, source));
    var act := ActiveOf(On(t, source));
    var k :| 0 <= k < |act| && act[k] == s;
    assert AllMoved(act, target, now)[k] == Moved(s, target, now);
  }

  lemma HandoffFates(t: Table, steps: seq<Step>, step: Step)
    requires FatesHeld(t, steps) && step.Handoff?
    ensures FatesHeld(Apply(t, step), steps + [step])
  {
    forall id | FateOf(steps + [step], id).Tracked?
      ensures Holds(Apply(t, step), Expected(id, FateOf(steps + [step], id)))
    {
      NextFate(steps, step, id);
      var was := FateOf(steps, id);
      assert Holds(t, Expected(id, was));
      if was.link == step.source {
        MovedArrives(t, step.source, step.target, step.now, Expected(id, was));
      }
    }
  }

  lemma HandoffAgrees(t: Table, steps: seq<Step>, step: Step)
    requires Agrees(t, steps) && step.Handoff?
    ensures Agrees(Apply(t, step), steps + [step])
  {
    HandoffNoSessionTwice(t, step.source, step.target, step.now);
    HandoffEntries(t, steps, step);
    HandoffFates(t, steps, step);
  }

  /** The table and the account of single lives agree after every run. */
  lemma {:induction false} RunAgrees(steps: seq<Step>)
    requires FreshIds(steps)
    ensures Agrees(Run(steps), steps)
  {
    if steps != [] {
      var n := |steps| - 1;
      var init := steps[..n];
      assert steps == init + [steps[n]];
      RunAgrees(init);
      if steps[n].Register? {
        NeverRegistered(init, steps[n].id);
        RegisterAgrees(Run(init), init, steps[n]);
      } else {
        HandoffAgrees(Run(init), init, steps[n]);
      }
    }
  }

  // ----- what a handoff loses -----

  function Ids(s: seq<Session>): set<string> {
    set x | x in s :: x.id
  }

  function TrackedIds(t: Table): set<string> {
    set l, x | l in t && x in t[l] :: x.id
  }

  function InactiveOf(s: seq<Session>): seq<Session> {
    if s == [] then [] else (if s[0].state == Active then [] else [s[0]]) + InactiveOf(s[1..])
  }

  ghost predicate DistinctIds(s: seq<Session>) {
    forall i, j | 0 <= i < j < |s| :: s[i].id != s[j].id
  }

  lemma {:induction false} InactiveOfMembers(s: seq<Session>)
    ensures forall x :: x in InactiveOf(s) <==> x in s && x.state != Active
  {
    if s != [] {
      InactiveOfMembers(s[1..]);
      assert s == [s[0]] + s[1..];
    }
  }

  lemma {:induction false} InactiveOfDistinct(s: seq<Session>)
    requires DistinctIds(s)
    ensures DistinctIds(InactiveOf(s))
  {
    if s != [] {
      InactiveOfDistinct(s[1..]);
      InactiveOfMembers(s[1..]);
      forall x | x in InactiveOf(s[1..]) ensures x.id != s[0].id {
        assert x in s[1..];
      }
    }
  }

  lemma {:induction false} AllIdsCount(s: seq<Session>)
    requires DistinctIds(s)
    ensures |Ids(s)| == |s|
  {
    if s != [] {
      AllIdsCount(s[1..]);
      assert s == [s[0]] + s[1..];
      assert Ids(s) == {s[0].id} + Ids(s[1..]);
    }
  }

  lemma ListDistinct(t: Table, link: string)
    requires NoSessionTwice(t)
    ensures DistinctIds(On(t, link))
  {
    forall i, j | 0 <= i < j < |On(t, link)| ensures On(t, link)[i].id != On(t, link)[j].id {
      assert Occurs(t, link, i) && Occurs(t, link, j);
    }
  }

  lemma TrackedOn(t: Table, l: string, x: Session)
    requires l in t && x in t[l]
    ensures x.id in TrackedIds(t)
  {
  }

  function Lost(t: Table, source: string, target: string): seq<Session> {
    if source == target then On(t, source) else InactiveOf(On(t, source))
  }

  /** A handoff between different links loses the source's non-active sessions and
      nothing else; a handoff of a link to itself loses the whole list. */
  lemma HandoffLoses(t: Table, source: string, target: string, now: int)
    requires NoSessionTwice(t)
    ensures TrackedIds(AfterHandoff(t, source, target, now)) == TrackedIds(t) - Ids(Lost(t, source, target))
  {
    var lost := Lost(t, source, target);
    var t' := AfterHandoff(t, source, target, now);
    InactiveOfMembers(On(t, source));
    forall id | id in TrackedIds(t') ensures id in TrackedIds(t) - Ids(lost) {
      var l: string, x: Session :| l in t' && x in t'[l] && x.id == id;
      var i :| 0 <= i < |t'[l]| && t'[l][i] == x;
      HandoffKeeps(t, source, target, now, l, i, lost);
    }
    forall id | id in TrackedIds(t) && id !in Ids(lost) ensures id in TrackedIds(t') {
      var l: string, x: Session :| l in t && x in t[l] && x.id == id;
      HandoffDelivers(t, source, target, now, l, x);
    }
  }

  /** The number of tracked sessions drops by exactly the number lost. */
  lemma HandoffTotal(t: Table, source: string, target: string, now: int)
    requires NoSessionTwice(t)
    ensures |TrackedIds(AfterHandoff(t, source, target, now))| == |TrackedIds(t)| - |Lost(t, source, target)|
  {
    var lost, after := Lost(t, source, target), TrackedIds(AfterHandoff(t, source, target, now));
    HandoffLoses(t, source, target, now);
    ListDistinct(t, source);
    InactiveOfMembers(On(t, source));
    InactiveOfDistinct(On(t, source));
    AllIdsCount(lost);
    forall x | x in lost ensures x.id in TrackedIds(t) {
      TrackedOn(t, source, x);
    }
    SubtractedSize(TrackedIds(t), Ids(lost));
  }

  lemma SubtractedSize(a: set<string>, b: set<string>)
    requires b <= a
    ensures |a - b| == |a| - |b|
  {
    assert a == (a - b) + b;
  }

  lemma HandoffDelivers(t: Table, source: string, target: string, now: int, l: string, x: Session)
    requires l in t && x in t[l] && x !in Lost(t, source, target)
    ensures x.id in TrackedIds(AfterHandoff(t, source, target, now))
  {
    var here, t' := On(t, source), AfterHandoff(t, source, target, now);
    if l == source {
      InactiveOfMembers(here);
      ActiveOfMembers(here);
      var k :| 0 <= k < |ActiveOf(here)| && ActiveOf(here)[k] == x;
      var y := AllMoved(ActiveOf(here), target, now)[k];
      assert y in t'[target];
      TrackedOn(t', target, y);
    } else {
      TrackedOn(t', l, x);
    }
  }

  lemma HandoffKeeps(t: Table, source: string, target: string, now: int, l: string, i: int, lost: seq<Session>)
    requires NoSessionTwice(t) && Occurs(AfterHandoff(t, source, target, now), l, i)
    requires forall x | x in lost :: x in On(t, source)
    requires source != target ==> forall x | x in lost :: x.state != Active
    ensures AfterHandoff(t, source, target, now)[l][i].id in TrackedIds(t) - Ids(lost)
  {
    var here, x := On(t, source), AfterHandoff(t, source, target, now)[l][i];
    ActiveOfMembers(here);
    HandoffOrigin(t, source, target, now, l, i);
    if i < |On(t, l)| {
      OriginKept(t, source, lost, l, i);
    } else {
      var origin := ActiveOf(here)[i - |On(t, l)|];
      assert origin in here;
      var k :| 0 <= k < |here| && here[k] == origin;
      OriginKept(t, source, lost, source, k);
    }
  }

  /** A listed session that is not among the lost ones keeps its id to itself. */
  lemma OriginKept(t: Table, source: string, lost: seq<Session>, l: string, i: int)
    requires NoSessionTwice(t) && Occurs(t, l, i)
    requires forall x | x in lost :: x in On(t, source)
    requires l == source ==> t[l][i] !in lost
    ensures t[l][i].id in TrackedIds(t) - Ids(lost)
  {
    TrackedOn(t, l, t[l][i]);
    forall y | y in lost ensures y.id != t[l][i].id {
      assert y in On(t, source);
      var j :| 0 <= j < |On(t, source)| && On(t, source)[j] == y;
      assert Occurs(t, source, j);
    }
  }

  // ----- how long a session is tracked -----

  lemma TrackedIffFate(steps: seq<Step>, id: string)
    requires FreshIds(steps)
    ensures id in TrackedIds(Run(steps)) <==> FateOf(steps, id).Tracked?
  {
    RunAgrees(steps);
    var t := Run(steps);
    if id in TrackedIds(t) {
      var l: string, x: Session :| l in t && x in t[l] && x.id == id;
      var i :| 0 <= i < |t[l]| && t[l][i] == x;
      assert Occurs(t, l, i);
    }
    if FateOf(steps, id).Tracked? {
      var x := Expected(id, FateOf(steps, id));
      assert Holds(t, x);
      TrackedOn(t, x.linkId, x);
    }
  }

  /** The link whose list shows the session is the one its fate names. */
  lemma ListedIffFate(steps: seq<Step>, id: string, link: string)
    requires FreshIds(steps)
    ensures id in Ids(On(Run(steps), link)) <==> FateOf(steps, id).Tracked? && FateOf(steps, id).link == link
  {
    RunAgrees(steps);
    var t := Run(steps);
    if id in Ids(On(t, link)) {
      var x :| x in On(t, link) && x.id == id;
      var i :| 0 <= i < |On(t, link)| && On(t, link)[i] == x;
      assert Occurs(t, link, i);
    }
    if FateOf(steps, id).Tracked? && FateOf(steps, id).link == link {
      assert Holds(t, Expected(id, FateOf(steps, id)));
    }
  }

  predicate RegisteredIn(steps: seq<Step>, id: string) {
    exists i :: 0 <= i < |steps| && steps[i].Register? && steps[i].id == id
  }

  /** What the handoffs that found the session on their source list have cost it: one
      for a handoff to another link, two for one to the same link. */
  function Cost(steps: seq<Step>, id: string): nat {
    if steps == [] then 0
    else
      var (init, last) := (steps[..|steps| - 1], steps[|steps| - 1]);
      Cost(init, id)
      + if last.Handoff? && id in Ids(On(Run(init), last.source))
        then (if last.source == last.target then 2 else 1) else 0
  }

  /** A session's fate tells what it has cost. */
  ghost predicate FateMatches(f: Fate, registered: bool, cost: nat) {
    match f
    case Unregistered => !registered && cost == 0
    case Tracked(_, _, movedAt) => registered && cost == if movedAt == None then 0 else 1
    case Gone => registered && cost >= 2
  }

  lemma StepMatches(steps: seq<Step>, step: Step, id: string)
    requires FreshIds(steps + [step])
    requires FateMatches(FateOf(steps, id), RegisteredIn(steps, id), Cost(steps, id))
    ensures FateMatches(FateOf(steps + [step], id), RegisteredIn(steps + [step], id), Cost(steps + [step], id))
  {
    var all := steps + [step];
    assert all[..|steps|] == steps && all[|steps|] == step;
    assert forall i | 0 <= i < |steps| :: all[i] == steps[i];
    assert FreshIds(steps);
    assert RegisteredIn(all, id) <==> RegisteredIn(steps, id) || (step.Register? && step.id == id);
    if step.Handoff? {
      ListedIffFate(steps, id, step.source);
    } else if step.id == id {
      NeverRegistered(steps, id);
    }
  }

  lemma {:induction false} RunMatches(steps: seq<Step>, id: string)
    requires FreshIds(steps)
    ensures FateMatches(FateOf(steps, id), RegisteredIn(steps, id), Cost(steps, id))
  {
    if steps != [] {
      var n := |steps| - 1;
      assert steps == steps[..n] + [steps[n]];
      RunMatches(steps[..n], id);
      StepMatches(steps[..n], steps[n], id);
    }
  }

  /** After any run a registered session is in the table iff the handoffs that found
      it there have been none, or one to a different link. */
  lemma SessionLifetime(steps: seq<Step>, id: string)
    requires FreshIds(steps)
    ensures id in TrackedIds(Run(steps)) <==> RegisteredIn(steps, id) && Cost(steps, id) < 2
  {
    TrackedIffFate(steps, id);
    RunMatches(steps, id);
  }

  /** In the table, a handoff to a different link moves an active session of the source
      with its carried state, to the end of the target's list, and loses any other. */
  lemma FirstHandoffSurvived(steps: seq<Step>, step: Step, s: Session)
    requires FreshIds(steps) && step.Handoff? && step.source != step.target && s in On(Run(steps), step.source)
    ensures s.state == Active ==>
              Moved(s, step.target, step.now) in On(Run(steps + [step]), step.target)[|On(Run(steps), step.target)|..]
    ensures s.state == Active <==> s.id in TrackedIds(Run(steps + [step]))
  {
    RunAgrees(steps);
    var t, all := Run(steps), steps + [step];
    var i :| 0 <= i < |On(t, step.source)| && On(t, step.source)[i] == s;
    assert Occurs(t, step.source, i);
    assert all[..|steps|] == steps;
    assert FreshIds(all);
    TrackedIffFate(all, s.id);
    if s.state == Active {
      ActiveOfMembers(On(t, step.source));
      var act := ActiveOf(On(t, step.source));
      var k :| 0 <= k < |act| && act[k] == s;
      assert AllMoved(act, step.target, step.now)[k] == Moved(s, step.target, step.now);
    }
  }

  /** A registered session that has left the table never comes back. */
  lemma GoneForGood(steps: seq<Step>, more: seq<Step>, id: string)
    requires FreshIds(steps + more) && RegisteredIn(steps, id) && id !in TrackedIds(Run(steps))
    ensures id !in TrackedIds(Run(steps + more))
  {
    var all := steps + more;
    assert forall i | 0 <= i < |steps| :: all[i] == steps[i];
    assert FreshIds(steps);
    SessionLifetime(steps, id);
    SessionLifetime(all, id);
    CostGrows(steps, more, id);
  }

  lemma {:induction false} CostGrows(steps: seq<Step>, more: seq<Step>, id: string)
    ensures Cost(steps, id) <= Cost(steps + more, id)
  {
    if more == [] {
      assert steps + more == steps;
    } else {
      var n := |more| - 1;
      CostGrows(steps, more[..n], id);
      assert (steps + more)[..|steps + more| - 1] == steps + more[..n];
    }
  }
}
