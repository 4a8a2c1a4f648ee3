/** The session manager of server/session_manager.py: session objects shared by
    per-link lists and reassigned in place. SessionTable says what its operations
    do to the table. */
module SessionManager {
  import opened Text
  import opened SessionTable

  class NetworkSession {
    const id: string
    var carried: Carried
    var linkId: string
    var state: SessionState
    var migratedAt: Option<int>

    constructor (id: string, linkId: string, carried: Carried)
      ensures Value() == Session(id, linkId, carried, Active, None)
    {
      this.id, this.linkId, this.carried := id, linkId, carried;
      state, migratedAt := Active, None;
    }

    ghost function Value(): Session
      reads this
    {
      Session(id, linkId, carried, state, migratedAt)
    }
  }

  // ----- lists of objects and the values behind them -----

  type Lists = map<string, seq<NetworkSession>>

  type Memory = map<NetworkSession, Session>

  function OnLink(m: Lists, link: string): seq<NetworkSession> {
    if link in m then m[link] else []
  }

  ghost predicate Listed(m: Lists, l: string, i: int) {
    l in m && 0 <= i < |m[l]|
  }

  /** No object is listed twice. */
  ghost predicate Injective(m: Lists) {
    forall l1, i1, l2, i2 | Listed(m, l1, i1) && Listed(m, l2, i2) && m[l1][i1] == m[l2][i2] ::
      l1 == l2 && i1 == i2
  }

  ghost predicate Within(s: seq<NetworkSession>, repr: set<NetworkSession>) {
    forall i | 0 <= i < |s| :: s[i] in repr
  }

  ghost predicate AllWithin(m: Lists, repr: set<NetworkSession>) {
    forall l | l in m :: Within(m[l], repr)
  }

  ghost function ValuesIn(s: seq<NetworkSession>, mem: Memory): seq<Session>
    requires Within(s, mem.Keys)
  {
    seq(|s|, i requires 0 <= i < |s| => mem[s[i]])
  }

  ghost function TableOf(m: Lists, mem: Memory): Table
    requires AllWithin(m, mem.Keys)
  {
    map l | l in m :: ValuesIn(m[l], mem)
  }

  ghost predicate NoRepeats(s: seq<NetworkSession>) {
    forall i, j | 0 <= i < j < |s| :: s[i] != s[j]
  }

  lemma OnLinkNoRepeats(m: Lists, link: string)
    requires Injective(m)
    ensures NoRepeats(OnLink(m, link))
  {
    forall i, j | 0 <= i < j < |OnLink(m, link)| ensures OnLink(m, link)[i] != OnLink(m, link)[j] {
      assert Listed(m, link, i) && Listed(m, link, j);
    }
  }

  /** What the loop of migrate_sessions leaves in the lists. */
  ghost function Appended(m: Lists, target: string, active: seq<NetworkSession>): Lists {
    if active == [] then m else m[target := OnLink(m, target) + active]
  }

  lemma AppendedStep(m: Lists, target: string, active: seq<NetworkSession>, s: NetworkSession)
    ensures var m' := Appended(m, target, active);
            m'[target := OnLink(m', target) + [s]] == Appended(m, target, active + [s])
  {
    var m', list := Appended(m, target, active), OnLink(m, target) + active;
    assert OnLink(m', target) == list;
    assert OnLink(m, target) + (active + [s]) == list + [s];
    assert m'[target := list + [s]] == m[target := list + [s]];
  }

  /** active lists the active objects of a link, in list order. */
  ghost predicate ActiveOn(m: Lists, mem: Memory, source: string, active: seq<NetworkSession>)
    requires AllWithin(m, mem.Keys)
  {
    && NoRepeats(active)
    && Within(active, mem.Keys)
    && ValuesIn(active, mem) == ActiveOf(ValuesIn(OnLink(m, source), mem))
    && (forall s | s in active :: s in OnLink(m, source) && mem[s].state == Active)
    && (forall s | s in OnLink(m, source) :: s in mem && (mem[s].state == Active ==> s in active))
  }

  /** The memory after exactly the objects of active have been moved. */
  ghost predicate MovedIn(mem: Memory, mem': Memory, active: seq<NetworkSession>, target: string, now: int) {
    && mem'.Keys == mem.Keys
    && forall s | s in mem :: mem'[s] == if s in active then Moved(mem[s], target, now) else mem[s]
  }

  lemma HandoffInjective(m: Lists, source: string, target: string, active: seq<NetworkSession>)
    requires Injective(m) && NoRepeats(active)
    requires forall s | s in active :: s in OnLink(m, source)
    ensures Injective(Appended(m, target, active)[source := []])
  {
    var m' := Appended(m, target, active)[source := []];
    forall l1, i1, l2, i2 | Listed(m', l1, i1) && Listed(m', l2, i2) && m'[l1][i1] == m'[l2][i2]
      ensures l1 == l2 && i1 == i2
    {
      if i1 < |OnLink(m, l1)| && i2 < |OnLink(m, l2)| {
        assert Listed(m, l1, i1) && Listed(m, l2, i2);
      } else if i1 < |OnLink(m, l1)| {
        NotFromSource(m, source, active, i2 - |OnLink(m, l2)|, l1, i1);
      } else if i2 < |OnLink(m, l2)| {
        NotFromSource(m, source, active, i1 - |OnLink(m, l1)|, l2, i2);
      }
    }
  }

  lemma NotFromSource(m: Lists, source: string, active: seq<NetworkSession>, k: int, l: string, i: int)
    requires Injective(m) && l != source && Listed(m, l, i) && 0 <= k < |active|
    requires forall s | s in active :: s in OnLink(m, source)
    ensures active[k] != m[l][i]
  {
    var s := active[k];
    assert s in OnLink(m, source);
    var j :| 0 <= j < |OnLink(m, source)| && OnLink(m, source)[j] == s;
    assert Listed(m, source, j);
  }

  /** Another link's objects keep their values. */
  lemma OthersUntouched(m: Lists, mem: Memory, mem': Memory, source: string, target: string, now: int,
                        active: seq<NetworkSession>, l: string)
    requires AllWithin(m, mem.Keys) && Injective(m) && ActiveOn(m, mem, source, active)
    requires MovedIn(mem, mem', active, target, now) && l != source
    ensures ValuesIn(OnLink(m, l), mem') == ValuesIn(OnLink(m, l), mem)
  {
    var list := OnLink(m, l);
    forall i | 0 <= i < |list| ensures mem'[list[i]] == mem[list[i]] {
      assert Listed(m, l, i);
      if list[i] in active {
        var k :| 0 <= k < |active| && active[k] == list[i];
        NotFromSource(m, source, active, k, l, i);
      }
    }
  }

  /** One list of the new table. */
  lemma ListAfter(m: Lists, mem: Memory, mem': Memory, source: string, target: string, now: int,
                  active: seq<NetworkSession>, l: string)
    requires AllWithin(m, mem.Keys) && Injective(m) && ActiveOn(m, mem, source, active)
    requires MovedIn(mem, mem', active, target, now) && l != source
    ensures var list := OnLink(m, l) + (if l == target then active else []);
            Within(list, mem'.Keys)
            && ValuesIn(list, mem') == ValuesIn(OnLink(m, l), mem)
                 + (if l == target then AllMoved(ValuesIn(active, mem), target, now) else [])
  {
    OthersUntouched(m, mem, mem', source, target, now, active, l);
    ActiveMoved(mem, mem', active, target, now);
    ValuesConcat(OnLink(m, l), active, mem');
    assert OnLink(m, l) + [] == OnLink(m, l);
  }

  lemma ActiveMoved(mem: Memory, mem': Memory, active: seq<NetworkSession>, target: string, now: int)
    requires Within(active, mem.Keys) && MovedIn(mem, mem', active, target, now)
    ensures ValuesIn(active, mem') == AllMoved(ValuesIn(active, mem), target, now)
  {
  }

  lemma ValuesConcat(a: seq<NetworkSession>, b: seq<NetworkSession>, mem: Memory)
    requires Within(a, mem.Keys) && Within(b, mem.Keys)
    ensures Within(a + b, mem.Keys) && ValuesIn(a + b, mem) == ValuesIn(a, mem) + ValuesIn(b, mem)
  {
  }

  lemma OnTable(m: Lists, mem: Memory, l: string)
    requires AllWithin(m, mem.Keys)
    ensures On(TableOf(m, mem), l) == ValuesIn(OnLink(m, l), mem)
  {
  }

  lemma OnAfterHandoff(t: Table, source: string, target: string, now: int, l: string)
    requires l != source
    ensures On(AfterHandoff(t, source, target, now), l)
         == On(t, l) + (if l == target then AllMoved(ActiveOf(On(t, source)), target, now) else [])
  {
  }

  lemma OnAppended(m: Lists, source: string, target: string, active: seq<NetworkSession>, l: string)
    requires l != source
    ensures OnLink(Appended(m, target, active)[source := []], l)
         == OnLink(m, l) + (if l == target then active else [])
  {
  }

  /** Moving the active objects of the source is the handoff of the table. */
  lemma HandoffContents(m: Lists, mem: Memory, mem': Memory, source: string, target: string, now: int,
                        active: seq<NetworkSession>)
    requires AllWithin(m, mem.Keys) && Injective(m) && ActiveOn(m, mem, source, active)
    requires MovedIn(mem, mem', active, target, now)
    ensures AllWithin(Appended(m, target, active)[source := []], mem.Keys)
    ensures TableOf(Appended(m, target, active)[source := []], mem')
         == AfterHandoff(TableOf(m, mem), source, target, now)
  {
    var m' := Appended(m, target, active)[source := []];
    var t, after := TableOf(m, mem), AfterHandoff(TableOf(m, mem), source, target, now);
    OnTable(m, mem, source);
    assert active == [] <==> ValuesIn(active, mem) == [];
    assert after.Keys == m'.Keys;
    forall l | l in m' && l != source ensures Within(m'[l], mem'.Keys) && ValuesIn(m'[l], mem') == after[l] {
      ListAfter(m, mem, mem', source, target, now, active, l);
      OnTable(m, mem, l);
      OnAfterHandoff(t, source, target, now, l);
      OnAppended(m, source, target, active, l);
    }
    assert ValuesIn(m'[source], mem') == after[source];
  }

  /** After the moves no object on the source list is active. */
  lemma SourceDrained(m: Lists, mem: Memory, mem': Memory, source: string, target: string, now: int,
                      active: seq<NetworkSession>)
    requires AllWithin(m, mem.Keys) && ActiveOn(m, mem, source, active)
    requires MovedIn(mem, mem', active, target, now)
    ensures forall s | s in OnLink(Appended(m, target, active), source) :: s in mem' && mem'[s].state != Active
  {
    forall s | s in OnLink(Appended(m, target, active), source) ensures s in mem' && mem'[s].state != Active {
      assert s in OnLink(m, source) || s in active;
    }
  }

  lemma RegisterInjective(m: Lists, link: string, s: NetworkSession, repr: set<NetworkSession>)
    requires AllWithin(m, repr) && Injective(m) && s !in repr
    ensures Injective(m[link := OnLink(m, link) + [s]])
  {
    var m' := m[link := OnLink(m, link) + [s]];
    assert forall l, i | Listed(m', l, i) ::
        (Listed(m, l, i) && m'[l][i] == m[l][i] && m'[l][i] in repr)
        || (l == link && i == |OnLink(m, l)| && m'[l][i] == s);
  }

  lemma RegisterContents(m: Lists, mem: Memory, mem': Memory, link: string, s: NetworkSession,
                         id: string, carried: Carried)
    requires AllWithin(m, mem.Keys) && s !in mem && mem' == mem[s := Session(id, link, carried, Active, None)]
    ensures AllWithin(m[link := OnLink(m, link) + [s]], mem'.Keys)
    ensures TableOf(m[link := OnLink(m, link) + [s]], mem') == Registered(TableOf(m, mem), link, id, carried)
  {
    var m' := m[link := OnLink(m, link) + [s]];
    assert forall l | l in m :: ValuesIn(m[l], mem') == ValuesIn(m[l], mem);
    assert TableOf(m', mem')[link] == Registered(TableOf(m, mem), link, id, carried)[link];
  }

  /** active holds the active objects of a list, in order. */
  ghost predicate ActivePart(list: seq<NetworkSession>, active: seq<NetworkSession>, mem: Memory) {
    && Within(list, mem.Keys) && Within(active, mem.Keys)
    && ValuesIn(active, mem) == ActiveOf(ValuesIn(list, mem))
    && (NoRepeats(list) ==> NoRepeats(active))
    && (forall s | s in active :: s in list && mem[s].state == Active)
    && (forall s | s in list && mem[s].state == Active :: s in active)
  }

  /** The active objects of a list, in order. */
  ghost function ActiveIn(list: seq<NetworkSession>, mem: Memory): seq<NetworkSession>
    requires Within(list, mem.Keys)
  {
    if list == [] then []
    else (if mem[list[0]].state == Active then [list[0]] else []) + ActiveIn(list[1..], mem)
  }

  lemma {:induction false} ActiveInMembers(list: seq<NetworkSession>, mem: Memory)
    requires Within(list, mem.Keys)
    ensures forall s | s in ActiveIn(list, mem) :: s in list && mem[s].state == Active
    ensures forall s | s in list && mem[s].state == Active :: s in ActiveIn(list, mem)
  {
    if list != [] {
      ActiveInMembers(list[1..], mem);
      assert list == [list[0]] + list[1..];
    }
  }

  lemma {:induction false} ActiveInNoRepeats(list: seq<NetworkSession>, mem: Memory)
    requires Within(list, mem.Keys) && NoRepeats(list)
    ensures NoRepeats(ActiveIn(list, mem))
  {
    if list != [] {
      ActiveInNoRepeats(list[1..], mem);
      ActiveInMembers(list[1..], mem);
    }
  }

  lemma {:induction false} ActiveInValues(list: seq<NetworkSession>, mem: Memory)
    requires Within(list, mem.Keys)
    ensures Within(ActiveIn(list, mem), mem.Keys)
    ensures ValuesIn(ActiveIn(list, mem), mem) == ActiveOf(ValuesIn(list, mem))
  {
    if list != [] {
      ActiveInValues(list[1..], mem);
      assert ValuesIn(list, mem)[1..] == ValuesIn(list[1..], mem);
    }
  }

  lemma ActiveInIs(list: seq<NetworkSession>, mem: Memory)
    requires Within(list, mem.Keys)
    ensures ActivePart(list, ActiveIn(list, mem), mem)
  {
    ActiveInMembers(list, mem);
    ActiveInValues(list, mem);
    if NoRepeats(list) {
      ActiveInNoRepeats(list, mem);
    }
  }

  lemma {:induction false} NoneActive(list: seq<NetworkSession>, mem: Memory)
    requires Within(list, mem.Keys) && forall s | s in list :: mem[s].state != Active
    ensures ActiveIn(list, mem) == []
  {
    if list != [] {
      NoneActive(list[1..], mem);
    }
  }

  function SessionIds(s: seq<Session>): seq<string> {
    seq(|s|, i requires 0 <= i < |s| => s[i].id)
  }

  datatype HandoffResult = HandoffResult(
    sourceLink: string, targetLink: string,
    totalSessions: nat, migratedSessions: nat, droppedSessions: nat, preserved: bool,
    sessionDetails: seq<string>)

  class SessionManager {
    var sessions: Lists
    var handoffHistory: seq<HandoffResult>
    ghost var repr: set<NetworkSession>

    constructor ()
      ensures Valid() && Contents() == map[] && handoffHistory == [] && repr == {}
    {
      sessions, handoffHistory, repr := map[], [], {};
    }

    ghost predicate Valid()
      reads this
    {
      AllWithin(sessions, repr) && Injective(sessions)
    }

    ghost function Values(): (mem: Memory)
      reads this, repr
      ensures mem.Keys == repr
    {
      map s | s in repr :: s.Value()
    }

    ghost function Contents(): Table
      requires Valid()
      reads this, repr
    {
      TableOf(sessions, Values())
    }

    method RegisterSession(linkId: string, id: string, carried: Carried) returns (session: NetworkSession)
      requires Valid()
      modifies this`sessions, this`repr
      ensures Valid() && fresh(session) && repr == old(repr) + {session}
      ensures Contents() == Registered(old(Contents()), linkId, id, carried)
    {
      session := new NetworkSession(id, linkId, carried);
      sessions := sessions[linkId := OnLink(sessions, linkId) + [session]];
      repr := repr + {session};
      RegisterContents(old(sessions), old(Values()), Values(), linkId, session, id, carried);
      RegisterInjective(old(sessions), linkId, session, old(repr));
    }

    method ActiveAmong(list: seq<NetworkSession>) returns (active: seq<NetworkSession>)
      requires Within(list, repr)
      ensures active == ActiveIn(list, Values())
    {
      active := [];
      for i := 0 to |list|
        invariant active + ActiveIn(list[i..], Values()) == ActiveIn(list, Values())
      {
        var s := list[i];
        assert Values()[s] == s.Value();
        assert list[i..][1..] == list[i + 1..];
        if s.state == Active {
          active := active + [s];
        }
      }
    }

    method GetActiveSessions(linkId: string) returns (active: seq<NetworkSession>)
      requires Valid()
      ensures ActiveOn(sessions, Values(), linkId, active)
      ensures ValuesIn(active, Values()) == ActiveOf(On(Contents(), linkId))
    {
      OnLinkNoRepeats(sessions, linkId);
      active := ActiveAmong(OnLink(sessions, linkId));
      ActiveInIs(OnLink(sessions, linkId), Values());
      assert On(Contents(), linkId) == ValuesIn(OnLink(sessions, linkId), Values());
    }

    /** One turn of the loop of migrate_sessions. */
    method MoveOne(s: NetworkSession, target: string, now: int)
      modifies this`sessions, s
      ensures sessions == old(sessions)[target := OnLink(old(sessions), target) + [s]]
      ensures s.Value() == Moved(old(s.Value()), target, now)
    {
      s.state := Migrating;
      s.linkId := target;
      s.state := SessionState.Migrated;
      s.migratedAt := Some(now);
      sessions := sessions[target := OnLink(sessions, target) + [s]];
    }

    /** The loop of migrate_sessions. Moving a session assigns to plain fields and
        appends to a list, so no move can fail. */
    method MoveEach(active: seq<NetworkSession>, target: string, now: int) returns (details: seq<string>)
      requires NoRepeats(active)
      modifies this`sessions, active
      ensures sessions == Appended(old(sessions), target, active)
      ensures forall s | s in active :: s.Value() == Moved(old(s.Value()), target, now)
      ensures |details| == |active| && forall j | 0 <= j < |active| :: details[j] == active[j].id
    {
      details := [];
      for k := 0 to |active|
        invariant |details| == k && forall j | 0 <= j < k :: details[j] == active[j].id
        invariant sessions == Appended(old(sessions), target, active[..k])
        invariant forall j | 0 <= j < k :: active[j].Value() == Moved(old(active[j].Value()), target, now)
        invariant forall j | k <= j < |active| :: active[j].Value() == old(active[j].Value())
      {
        var s := active[k];
        assert active[..k + 1] == active[..k] + [s];
        AppendedStep(old(sessions), target, active[..k], s);
        MoveOne(s, target, now);
        details := details + [s.id];
      }
      assert active[..|active|] == active;
    }

    /** migrate_sessions up to the replacement of the source list. */
    method MoveActive(source: string, target: string, now: int)
        returns (details: seq<string>, ghost active: seq<NetworkSession>)
      requires Valid()
      modifies this`sessions, repr
      ensures ActiveOn(old(sessions), old(Values()), source, active)
      ensures sessions == Appended(old(sessions), target, active)
      ensures repr == old(repr) && MovedIn(old(Values()), Values(), active, target, now)
      ensures details == SessionIds(ValuesIn(active, old(Values())))
    {
      ghost var mem := Values();
      var list := GetActiveSessions(source);
      active := list;
      details := MoveEach(list, target, now);
      assert details == SessionIds(ValuesIn(active, mem));
    }

    /** The drop counter stays at zero and preserved is always true, whatever the
        two links are. */
    method MigrateSessions(source: string, target: string, now: int) returns (result: HandoffResult)
      requires Valid()
      modifies this`sessions, this`handoffHistory, repr
      ensures Valid() && repr == old(repr)
      ensures Contents() == AfterHandoff(old(Contents()), source, target, now)
      ensures result.totalSessions == |ActiveOf(On(old(Contents()), source))| == result.migratedSessions
      ensures result.droppedSessions == 0 && result.preserved
      ensures result.sessionDetails == SessionIds(ActiveOf(On(old(Contents()), source)))
      ensures handoffHistory == old(handoffHistory) + [result]
    {
      ghost var m, mem := sessions, Values();
      var details, active := MoveActive(source, target, now);
      SourceDrained(m, mem, Values(), source, target, now, active);
      DropInactive(source);
      result := HandoffResult(source, target, |details|, |details|, 0, true, details);
      handoffHistory := handoffHistory + [result];
      OnTable(m, mem, source);
      HandoffInjective(m, source, target, active);
      HandoffContents(m, mem, Values(), source, target, now, active);
    }

    /** The source list is replaced by its active sessions. */
    method DropInactive(source: string)
      requires AllWithin(sessions, repr)
      requires forall s | s in OnLink(sessions, source) :: s.state != Active
      modifies this`sessions
      ensures sessions == old(sessions)[source := []]
    {
      var remaining := ActiveAmong(OnLink(sessions, source));
      NoneActive(OnLink(sessions, source), Values());
      sessions := sessions[source := remaining];
    }
  }
}
