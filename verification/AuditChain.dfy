/** The hash chain of server/audit.py: logging into a bounded window, verification,
    and what tampering does to the verdict. The checksum of an entry is a function
    of its recorded fields and the previous checksum; Audit says which one. */
module AuditChain {
  /** What an entry records, as the text its payload shows: an absent value is the
      text None, numbers and JSON documents are the text Python gives them. */
  datatype Event = Event(
    id: string,
    eventTime: string,
    eventType: string,
    actor: string,
    linkId: string,
    healthScore: string,
    confidence: string,
    validationResult: string,
    routingChange: string,
    policyChange: string,
    details: string)

  datatype AuditEntry = AuditEntry(event: Event, checksum: string, prevChecksum: string)

  type Log = seq<AuditEntry>

  type Checksum = (Event, string) -> string

  const GENESIS := "genesis"

  const MAX_ENTRIES := 10000

  /** Checksums are never mistaken for the start of the chain. */
  ghost predicate NeverGenesis(c: Checksum) {
    forall e, p :: c(e, p) != GENESIS
  }

  // ----- verification -----

  datatype Fault = BadChecksum(index: nat, entryId: string) | BrokenChain(index: nat, entryId: string)

  datatype Report = Report(valid: bool, checked: nat, errors: seq<Fault>)

  function PrevOf(log: Log, i: nat): string
    requires i <= |log|
  {
    if i == 0 then GENESIS else log[i - 1].checksum
  }

  function End(log: Log): string {
    PrevOf(log, |log|)
  }

  function FaultsAt(c: Checksum, log: Log, i: nat): seq<Fault>
    requires i < |log|
  {
    (if log[i].checksum != c(log[i].event, PrevOf(log, i)) then [BadChecksum(i, log[i].event.id)] else [])
    + (if log[i].prevChecksum != PrevOf(log, i) then [BrokenChain(i, log[i].event.id)] else [])
  }

  function Faults(c: Checksum, log: Log, n: nat): seq<Fault>
    requires n <= |log|
  {
    if n == 0 then [] else Faults(c, log, n - 1) + FaultsAt(c, log, n - 1)
  }

  /** Entry i carries the checksum and the chain reference it should. */
  ghost predicate Sound(c: Checksum, log: Log, i: int)
    requires 0 <= i < |log|
  {
    log[i].checksum == c(log[i].event, PrevOf(log, i)) && log[i].prevChecksum == PrevOf(log, i)
  }

  ghost predicate Intact(c: Checksum, log: Log) {
    forall i | 0 <= i < |log| :: Sound(c, log, i)
  }

  method CheckEntry(c: Checksum, log: Log, i: nat, prevChecksum: string) returns (errors: seq<Fault>)
    requires i < |log| && prevChecksum == PrevOf(log, i)
    ensures errors == FaultsAt(c, log, i)
  {
    var entry := log[i];
    var expected := c(entry.event, prevChecksum);
    errors := [];
    if entry.checksum != expected {
      errors := errors + [BadChecksum(i, entry.event.id)];
    }
    if entry.prevChecksum != prevChecksum {
      errors := errors + [BrokenChain(i, entry.event.id)];
    }
  }

  method VerifyIntegrity(c: Checksum, log: Log) returns (report: Report)
    ensures report.errors == Faults(c, log, |log|) && report.checked == |log|
    ensures report.valid <==> Intact(c, log)
    ensures report.valid <==> report.errors == []
  {
    NoFaultsIffSound(c, log, |log|);
    if log == [] {
      return Report(true, 0, []);
    }
    var errors := [];
    var prevChecksum := GENESIS;
    for i := 0 to |log|
      invariant errors == Faults(c, log, i) && prevChecksum == PrevOf(log, i)
    {
      var found := CheckEntry(c, log, i, prevChecksum);
      errors := errors + found;
      prevChecksum := log[i].checksum;
    }
    report := Report(|errors| == 0, |log|, errors);
  }

  lemma {:induction false} NoFaultsIffSound(c: Checksum, log: Log, n: nat)
    requires n <= |log|
    ensures Faults(c, log, n) == [] <==> forall i | 0 <= i < n :: Sound(c, log, i)
  {
    if n > 0 {
      NoFaultsIffSound(c, log, n - 1);
      assert FaultsAt(c, log, n - 1) == [] <==> Sound(c, log, n - 1);
      assert |Faults(c, log, n)| == |Faults(c, log, n - 1)| + |FaultsAt(c, log, n - 1)|;
    }
  }

  /** When every other entry is sound, entry k's faults are the whole report. */
  lemma {:induction false} SingleFault(c: Checksum, log: Log, k: nat, n: nat)
    requires k < n <= |log|
    requires forall i | 0 <= i < n && i != k :: Sound(c, log, i)
    ensures Faults(c, log, n) == FaultsAt(c, log, k)
  {
    if k == n - 1 {
      NoFaultsIffSound(c, log, k);
    } else {
      SingleFault(c, log, k, n - 1);
      assert Sound(c, log, n - 1);
    }
  }

  // ----- tampering -----

  /** Rewriting one entry's recorded fields in an intact log is reported once, at
      that entry, unless the checksum happens to be the same. */
  lemma EditReported(c: Checksum, log: Log, k: nat, e: Event)
    requires k < |log| && Intact(c, log)
    ensures Faults(c, log[k := log[k].(event := e)], |log|) ==
            if c(e, PrevOf(log, k)) == c(log[k].event, PrevOf(log, k)) then [] else [BadChecksum(k, e.id)]
  {
    var log' := log[k := log[k].(event := e)];
    assert Sound(c, log, k);
    forall i | 0 <= i < |log'| && i != k ensures Sound(c, log', i) {
      assert Sound(c, log, i);
      assert PrevOf(log', i) == PrevOf(log, i);
    }
    SingleFault(c, log', k, |log|);
  }

  function Deleted(log: Log, k: nat): (rest: Log)
    requires k < |log|
    ensures |rest| == |log| - 1
  {
    log[..k] + log[k + 1..]
  }

  lemma DeletedEntries(log: Log, k: nat)
    requires k < |log|
    ensures forall i | 0 <= i < |log| - 1 :: Deleted(log, k)[i] == log[if i < k then i else i + 1]
    ensures forall i: nat | i < |log| && i != k ::
              PrevOf(Deleted(log, k), i) == PrevOf(log, if i < k then i else i + 1)
    ensures PrevOf(Deleted(log, k), k) == PrevOf(log, k)
  {
  }

  /** Deleting the last entry of an intact log is not reported; the faults after the
      deletion of an earlier one are those of the entry that takes its place. */
  lemma DeletionReported(c: Checksum, log: Log, k: nat)
    requires Intact(c, log) && k < |log|
    ensures Faults(c, Deleted(log, k), |Deleted(log, k)|) ==
            if k == |log| - 1 then [] else FaultsAt(c, Deleted(log, k), k)
  {
    var rest := Deleted(log, k);
    DeletedEntries(log, k);
    forall i | 0 <= i < |rest| && i != k ensures Sound(c, rest, i) {
      assert Sound(c, log, if i < k then i else i + 1);
    }
    if k == |log| - 1 {
      NoFaultsIffSound(c, rest, |rest|);
    } else {
      SingleFault(c, rest, k, |rest|);
    }
  }

  /** Those are its checksum unless it happens to be the same after the reference
      before, and its reference unless the lost entry repeated the checksum before it. */
  lemma FaultsAfterDeletion(c: Checksum, log: Log, k: nat)
    requires Intact(c, log) && k + 1 < |log|
    ensures FaultsAt(c, Deleted(log, k), k) ==
            (if log[k + 1].checksum != c(log[k + 1].event, PrevOf(log, k))
             then [BadChecksum(k, log[k + 1].event.id)] else [])
            + (if log[k].checksum != PrevOf(log, k) then [BrokenChain(k, log[k + 1].event.id)] else [])
  {
    DeletedEntries(log, k);
    assert Sound(c, log, k + 1);
  }

  /** What is reported when entry k, not the last, is gone. */
  function BothFaults(log: Log, k: nat): seq<Fault>
    requires k + 1 < |log|
  {
    [BadChecksum(k, log[k + 1].event.id), BrokenChain(k, log[k + 1].event.id)]
  }

  lemma BothReported(c: Checksum, log: Log, k: nat)
    requires Intact(c, log) && k + 1 < |log|
    requires log[k].checksum != PrevOf(log, k)
    requires log[k + 1].checksum != c(log[k + 1].event, PrevOf(log, k))
    ensures Faults(c, Deleted(log, k), |Deleted(log, k)|) == BothFaults(log, k)
  {
    DeletionReported(c, log, k);
    FaultsAfterDeletion(c, log, k);
  }

  // ----- two logs with one end -----

  /** Two different chain links with one checksum. */
  ghost predicate Clash(c: Checksum, e: Event, p: string, f: Event, q: string) {
    (e, p) != (f, q) && c(e, p) == c(f, q)
  }

  /** At equal distances from their ends the two logs reach one checksum from
      different links. */
  ghost predicate ClashBetween(c: Checksum, a: Log, b: Log) {
    exists i, j :: ClashAt(c, a, i, b, j)
  }

  ghost predicate ClashAt(c: Checksum, a: Log, i: int, b: Log, j: int) {
    && 0 <= i < |a| && 0 <= j < |b| && |a| - i == |b| - j
    && Clash(c, a[i].event, PrevOf(a, i), b[j].event, PrevOf(b, j))
  }

  lemma PrefixIntact(c: Checksum, log: Log, n: nat)
    requires Intact(c, log) && n <= |log|
    ensures Intact(c, log[..n])
    ensures forall i | 0 <= i <= n :: PrevOf(log[..n], i) == PrevOf(log, i)
  {
    forall i | 0 <= i < n ensures Sound(c, log[..n], i) {
      assert Sound(c, log, i);
    }
  }

  /** The last checksum pins down the whole log: two intact logs ending in the same
      checksum are equal, or they exhibit a clash. */
  lemma {:induction false} SameEndSameLog(c: Checksum, a: Log, b: Log)
    requires NeverGenesis(c) && Intact(c, a) && Intact(c, b) && End(a) == End(b)
    ensures a == b || ClashBetween(c, a, b)
  {
    var m, n := |a| - 1, |b| - 1;
    if a == [] || b == [] {
      assert a != [] ==> Sound(c, a, m);
      assert b != [] ==> Sound(c, b, n);
    } else {
      assert Sound(c, a, m) && Sound(c, b, n);
      if a[m].event == b[n].event && PrevOf(a, m) == PrevOf(b, n) {
        PrefixIntact(c, a, m);
        PrefixIntact(c, b, n);
        SameEndSameLog(c, a[..m], b[..n]);
        if ClashBetween(c, a[..m], b[..n]) {
          var i, j :| ClashAt(c, a[..m], i, b[..n], j);
          assert ClashAt(c, a, i, b, j);
        } else {
          assert a == a[..m] + [a[m]] && b == b[..n] + [b[n]];
        }
      } else {
        assert ClashAt(c, a, m, b, n);
      }
    }
  }

  // ----- logging -----

  function Extend(c: Checksum, log: Log, e: Event): Log {
    log + [AuditEntry(e, c(e, End(log)), End(log))]
  }

  /** Everything ever logged. */
  function Chain(c: Checksum, events: seq<Event>): (log: Log)
    ensures |log| == |events|
  {
    if events == [] then [] else Extend(c, Chain(c, events[..|events| - 1]), events[|events| - 1])
  }

  /** deque(maxlen=10000) */
  function Window(log: Log): Log {
    if |log| <= MAX_ENTRIES then log else log[|log| - MAX_ENTRIES..]
  }

  /** Appending to the deque drops the oldest entry of a full one. */
  function Pushed(log: Log, entry: AuditEntry): Log {
    if |log| >= MAX_ENTRIES then log[1..] + [entry] else log + [entry]
  }

  lemma WindowAppend(all: Log, entry: AuditEntry)
    ensures Window(all + [entry]) == Pushed(Window(all), entry)
  {
  }

  class AuditLog {
    const computeChecksum: Checksum
    var auditLog: Log
    var lastChecksum: string
    ghost var events: seq<Event>

    constructor (computeChecksum: Checksum)
      ensures Valid() && this.computeChecksum == computeChecksum && events == []
    {
      this.computeChecksum, auditLog, lastChecksum, events := computeChecksum, [], GENESIS, [];
    }

    ghost predicate Valid()
      reads this
    {
      auditLog == Window(Chain(computeChecksum, events)) && lastChecksum == End(Chain(computeChecksum, events))
    }

    method LogEvent(e: Event) returns (entry: AuditEntry)
      requires Valid()
      modifies this
      ensures Valid() && events == old(events) + [e]
      ensures entry.event == e && entry.prevChecksum == old(lastChecksum) && entry.checksum == lastChecksum
    {
      entry := AuditEntry(e, computeChecksum(e, lastChecksum), lastChecksum);
      ChainAppend(computeChecksum, events, e);
      WindowAppend(Chain(computeChecksum, events), entry);
      lastChecksum := entry.checksum;
      auditLog := Pushed(auditLog, entry);
      events := events + [e];
    }
  }

  lemma ChainAppend(c: Checksum, events: seq<Event>, e: Event)
    ensures Chain(c, events + [e]) == Extend(c, Chain(c, events), e)
  {
    assert (events + [e])[..|events|] == events;
  }

  lemma {:induction false} ChainIntact(c: Checksum, events: seq<Event>)
    ensures Intact(c, Chain(c, events))
    ensures forall i | 0 <= i < |events| :: Chain(c, events)[i].event == events[i]
  {
    if events != [] {
      var n := |events| - 1;
      ChainIntact(c, events[..n]);
      var init, log := Chain(c, events[..n]), Chain(c, events);
      forall i | 0 <= i < |log| ensures Sound(c, log, i) {
        assert PrevOf(log, i) == PrevOf(init, i);
        if i < n {
          assert Sound(c, init, i) && log[i] == init[i];
        }
      }
    }
  }

  /** A log that has lost its first k entries is reported at its oldest surviving
      entry only: the reference to the lost entry always, and the checksum unless it
      happens to be the one of a first entry. */
  lemma SuffixReported(c: Checksum, all: Log, k: nat)
    requires NeverGenesis(c) && Intact(c, all) && 0 < k < |all|
    ensures Faults(c, all[k..], |all| - k) ==
            (if all[k].checksum != c(all[k].event, GENESIS) then [BadChecksum(0, all[k].event.id)] else [])
            + [BrokenChain(0, all[k].event.id)]
  {
    WindowSound(c, all, k);
    SingleFault(c, all[k..], 0, |all| - k);
    SuffixFirst(c, all, k);
  }

  lemma SuffixFirst(c: Checksum, all: Log, k: nat)
    requires NeverGenesis(c) && Intact(c, all) && 0 < k < |all|
    ensures FaultsAt(c, all[k..], 0) ==
            (if all[k].checksum != c(all[k].event, GENESIS) then [BadChecksum(0, all[k].event.id)] else [])
            + [BrokenChain(0, all[k].event.id)]
  {
    assert Sound(c, all, k) && Sound(c, all, k - 1);
    assert all[k].prevChecksum == c(all[k - 1].event, PrevOf(all, k - 1));
    assert all[k..][0] == all[k];
  }

  lemma WindowSound(c: Checksum, all: Log, k: nat)
    requires Intact(c, all) && 0 < k < |all|
    ensures forall i | 0 < i < |all| - k :: Sound(c, all[k..], i)
  {
    forall i | 0 < i < |all| - k ensures Sound(c, all[k..], i) {
      assert Sound(c, all, k + i);
      assert PrevOf(all[k..], i) == PrevOf(all, k + i);
    }
  }
}
