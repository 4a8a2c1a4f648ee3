/** The checksum of server/audit.py: a hash of the bar-joined payload. Nothing is
    assumed of the hash but the shape of a SHA-256 hex digest; results that need
    more say which two payloads would have to collide. */
module Audit {
  import opened Text
  import opened AuditChain

  type Hash = string -> string

  ghost predicate HexDigest(h: Hash) {
    forall x :: |h(x)| == 64 && Lacks(h(x), '|')
  }

  ghost predicate Collision(h: Hash, x: string, y: string) {
    x != y && h(x) == h(y)
  }

  function Field(text: string, rest: string): string {
    text + "|" + rest
  }

  function Payload(e: Event, prev: string): string {
    Field(e.id, Field(e.eventTime, Field(e.eventType, Field(e.actor, Field(e.linkId, Field(e.healthScore,
      Field(e.confidence, Field(e.validationResult, Field(e.routingChange, Field(e.policyChange,
        Field(e.details, prev)))))))))))
  }

  function Joined(parts: seq<string>): string {
    if parts == [] then "" else if |parts| == 1 then parts[0] else Field(parts[0], Joined(parts[1..]))
  }

  /** The payload is its twelve parts in this order, with bars between them. */
  lemma PayloadJoins(e: Event, prev: string)
    ensures Payload(e, prev) ==
            Joined([e.id, e.eventTime, e.eventType, e.actor, e.linkId, e.healthScore, e.confidence,
                    e.validationResult, e.routingChange, e.policyChange, e.details, prev])
  {
    var end := [e.routingChange, e.policyChange, e.details, prev];
    JoinsFour(e.routingChange, e.policyChange, e.details, prev, []);
    assert end + [] == end;
    JoinsFour(e.linkId, e.healthScore, e.confidence, e.validationResult, end);
    var middle := [e.linkId, e.healthScore, e.confidence, e.validationResult] + end;
    JoinsFour(e.id, e.eventTime, e.eventType, e.actor, middle);
    assert [e.id, e.eventTime, e.eventType, e.actor, e.linkId, e.healthScore, e.confidence, e.validationResult,
            e.routingChange, e.policyChange, e.details, prev] == [e.id, e.eventTime, e.eventType, e.actor] + middle;
  }

  lemma JoinsFour(a: string, b: string, c: string, d: string, rest: seq<string>)
    ensures Joined([a, b, c, d] + rest) ==
            Field(a, Field(b, Field(c, if rest == [] then d else Field(d, Joined(rest)))))
  {
    Joins(d, rest);
    Joins(c, [d] + rest);
    Joins(b, [c] + ([d] + rest));
    Joins(a, [b] + ([c] + ([d] + rest)));
    assert [a, b, c, d] + rest == [a] + ([b] + ([c] + ([d] + rest)));
  }

  lemma Joins(a: string, rest: seq<string>)
    ensures Joined([a] + rest) == if rest == [] then a else Field(a, Joined(rest))
  {
    assert ([a] + rest)[1..] == rest;
  }

  function ComputeChecksum(h: Hash): Checksum {
    (e, prev) => h(Payload(e, prev))
  }

  /** No field but details contains a bar. */
  predicate BarFree(e: Event) {
    && Lacks(e.id, '|') && Lacks(e.eventTime, '|') && Lacks(e.eventType, '|') && Lacks(e.actor, '|')
    && Lacks(e.linkId, '|') && Lacks(e.healthScore, '|') && Lacks(e.confidence, '|')
    && Lacks(e.validationResult, '|') && Lacks(e.routingChange, '|') && Lacks(e.policyChange, '|')
  }

  /** A first field without bars is recovered by cutting at the first bar. */
  lemma FirstField(a: string, b: string, x: string, y: string)
    requires Lacks(a, '|') && Lacks(b, '|') && Field(a, x) == Field(b, y)
    ensures a == b && x == y
  {
    var s, t := Field(a, x), Field(b, y);
    assert s[|a|] == '|' && t[|b|] == '|';
    assert forall i | 0 <= i < |a| :: s[i] == a[i];
    assert forall i | 0 <= i < |b| :: t[i] == b[i];
    assert s[..|a|] == a && t[..|b|] == b;
    assert s[|a| + 1..] == x && t[|b| + 1..] == y;
  }

  /** A last field without bars is recovered by cutting at the last bar. */
  lemma LastField(a: string, b: string, x: string, y: string)
    requires Lacks(x, '|') && Lacks(y, '|') && Field(a, x) == Field(b, y)
    ensures a == b && x == y
  {
    var s, t := Field(a, x), Field(b, y);
    assert s[|a|] == '|' && t[|b|] == '|';
    assert forall i | |a| < i < |s| :: s[i] == x[i - |a| - 1];
    assert forall i | |b| < i < |t| :: t[i] == y[i - |b| - 1];
    assert s[..|a|] == a && t[..|b|] == b;
    assert s[|a| + 1..] == x && t[|b| + 1..] == y;
  }

  function Tail(e: Event, prev: string): string {
    Field(e.linkId, Field(e.healthScore, Field(e.confidence, Field(e.validationResult,
      Field(e.routingChange, Field(e.policyChange, Field(e.details, prev)))))))
  }

  lemma TailInjective(a: Event, b: Event, p: string, q: string)
    requires BarFree(a) && BarFree(b) && Lacks(p, '|') && Lacks(q, '|')
    requires Tail(a, p) == Tail(b, q)
    ensures a.linkId == b.linkId && a.healthScore == b.healthScore && a.confidence == b.confidence
    ensures a.validationResult == b.validationResult && a.routingChange == b.routingChange
    ensures a.policyChange == b.policyChange && a.details == b.details && p == q
  {
    var (a7, b7) := (Field(a.details, p), Field(b.details, q));
    var (a6, b6) := (Field(a.policyChange, a7), Field(b.policyChange, b7));
    var (a5, b5) := (Field(a.routingChange, a6), Field(b.routingChange, b6));
    var (a4, b4) := (Field(a.validationResult, a5), Field(b.validationResult, b5));
    var (a3, b3) := (Field(a.confidence, a4), Field(b.confidence, b4));
    var (a2, b2) := (Field(a.healthScore, a3), Field(b.healthScore, b3));
    FirstField(a.linkId, b.linkId, a2, b2);
    FirstField(a.healthScore, b.healthScore, a3, b3);
    FirstField(a.confidence, b.confidence, a4, b4);
    FirstField(a.validationResult, b.validationResult, a5, b5);
    FirstField(a.routingChange, b.routingChange, a6, b6);
    FirstField(a.policyChange, b.policyChange, a7, b7);
    LastField(a.details, b.details, p, q);
  }

  /** Between entries without bars outside the details the payload determines every
      field and the previous checksum. */
  lemma FieldsInjective(a: Event, b: Event, p: string, q: string)
    requires BarFree(a) && BarFree(b) && Lacks(p, '|') && Lacks(q, '|')
    requires Payload(a, p) == Payload(b, q)
    ensures a == b && p == q
  {
    var (a4, b4) := (Tail(a, p), Tail(b, q));
    var (a3, b3) := (Field(a.actor, a4), Field(b.actor, b4));
    var (a2, b2) := (Field(a.eventType, a3), Field(b.eventType, b3));
    var (a1, b1) := (Field(a.eventTime, a2), Field(b.eventTime, b2));
    FirstField(a.id, b.id, a1, b1);
    FirstField(a.eventTime, b.eventTime, a2, b2);
    FirstField(a.eventType, b.eventType, a3, b3);
    FirstField(a.actor, b.actor, a4, b4);
    TailInjective(a, b, p, q);
  }

  // ----- which entries their payload pins down -----

  /** No field at all contains a bar. */
  predicate Plain(e: Event) {
    BarFree(e) && Lacks(e.details, '|')
  }

  function Bars(s: string): nat {
    if s == "" then 0 else (if s[0] == '|' then 1 else 0) + Bars(s[1..])
  }

  lemma {:induction false} BarsConcat(a: string, b: string)
    ensures Bars(a + b) == Bars(a) + Bars(b)
  {
    if a == "" {
      assert a + b == b;
    } else {
      assert (a + b)[1..] == a[1..] + b;
      BarsConcat(a[1..], b);
    }
  }

  lemma {:induction false} NoBars(s: string)
    ensures Bars(s) == 0 <==> Lacks(s, '|')
  {
    if s != "" {
      NoBars(s[1..]);
      assert s == [s[0]] + s[1..];
    }
  }

  lemma BarsField(text: string, rest: string)
    ensures Bars(Field(text, rest)) == Bars(text) + 1 + Bars(rest)
  {
    BarsConcat(text + "|", rest);
    BarsConcat(text, "|");
    assert "|"[1..] == "";
  }

  function TailBars(e: Event): nat {
    Bars(e.linkId) + Bars(e.healthScore) + Bars(e.confidence) + Bars(e.validationResult)
    + Bars(e.routingChange) + Bars(e.policyChange) + Bars(e.details)
  }

  function FieldBars(e: Event): nat {
    Bars(e.id) + Bars(e.eventTime) + Bars(e.eventType) + Bars(e.actor) + TailBars(e)
  }

  lemma BarsTail(e: Event, prev: string)
    ensures Bars(Tail(e, prev)) == 7 + TailBars(e) + Bars(prev)
  {
    var t7 := Field(e.details, prev);
    var t6 := Field(e.policyChange, t7);
    var t5 := Field(e.routingChange, t6);
    var t4 := Field(e.validationResult, t5);
    var t3 := Field(e.confidence, t4);
    var t2 := Field(e.healthScore, t3);
    BarsField(e.details, prev);
    BarsField(e.policyChange, t7);
    BarsField(e.routingChange, t6);
    BarsField(e.validationResult, t5);
    BarsField(e.confidence, t4);
    BarsField(e.healthScore, t3);
    BarsField(e.linkId, t2);
  }

  /** The payload adds eleven bars to those of the fields. */
  lemma BarsPayload(e: Event, prev: string)
    ensures Bars(Payload(e, prev)) == 11 + FieldBars(e) + Bars(prev)
  {
    var t4 := Tail(e, prev);
    var t3 := Field(e.actor, t4);
    var t2 := Field(e.eventType, t3);
    var t1 := Field(e.eventTime, t2);
    BarsTail(e, prev);
    BarsField(e.actor, t4);
    BarsField(e.eventType, t3);
    BarsField(e.eventTime, t2);
    BarsField(e.id, t1);
  }

  lemma PlainIffNoBars(e: Event)
    ensures Plain(e) <==> FieldBars(e) == 0
  {
    NoBars(e.id);
    NoBars(e.eventTime);
    NoBars(e.eventType);
    NoBars(e.actor);
    NoBars(e.linkId);
    NoBars(e.healthScore);
    NoBars(e.confidence);
    NoBars(e.validationResult);
    NoBars(e.routingChange);
    NoBars(e.policyChange);
    NoBars(e.details);
  }

  /** A plain entry can be confused with no other one, whatever that contains; nor can
      two entries without bars outside the details. */
  ghost predicate Distinguishable(a: Event, b: Event) {
    Plain(a) || (BarFree(a) && BarFree(b))
  }

  lemma PayloadInjective(a: Event, b: Event, p: string, q: string)
    requires Distinguishable(a, b) && Lacks(p, '|') && Lacks(q, '|') && Payload(a, p) == Payload(b, q)
    ensures a == b && p == q
  {
    if Plain(a) {
      BarsPayload(a, p);
      BarsPayload(b, q);
      NoBars(p);
      NoBars(q);
      PlainIffNoBars(a);
      PlainIffNoBars(b);
    }
    FieldsInjective(a, b, p, q);
  }

  ghost predicate SamePayload(e: Event, f: Event) {
    forall p :: Payload(f, p) == Payload(e, p)
  }

  // ----- the end of a payload -----

  /** The payload ends with the previous checksum, whatever its fields contain. */
  function Body(e: Event): string {
    Field(e.id, Field(e.eventTime, Field(e.eventType, Field(e.actor, Field(e.linkId, Field(e.healthScore,
      Field(e.confidence, Field(e.validationResult, Field(e.routingChange, Field(e.policyChange, e.details))))))))))
  }

  lemma FieldAssoc(text: string, rest: string, prev: string)
    ensures Field(text, Field(rest, prev)) == Field(Field(text, rest), prev)
  {
  }

  lemma PayloadEnds(e: Event, prev: string)
    ensures Payload(e, prev) == Field(Body(e), prev)
  {
    var b10 := Field(e.policyChange, e.details);
    var b9 := Field(e.routingChange, b10);
    var b8 := Field(e.validationResult, b9);
    var b7 := Field(e.confidence, b8);
    var b6 := Field(e.healthScore, b7);
    var b5 := Field(e.linkId, b6);
    var b4 := Field(e.actor, b5);
    var b3 := Field(e.eventType, b4);
    var b2 := Field(e.eventTime, b3);
    FieldAssoc(e.policyChange, e.details, prev);
    FieldAssoc(e.routingChange, b10, prev);
    FieldAssoc(e.validationResult, b9, prev);
    FieldAssoc(e.confidence, b8, prev);
    FieldAssoc(e.healthScore, b7, prev);
    FieldAssoc(e.linkId, b6, prev);
    FieldAssoc(e.actor, b5, prev);
    FieldAssoc(e.eventType, b4, prev);
    FieldAssoc(e.eventTime, b3, prev);
    FieldAssoc(e.id, b2, prev);
  }

  lemma PayloadPrev(a: Event, b: Event, p: string, q: string)
    requires Lacks(p, '|') && Lacks(q, '|') && Payload(a, p) == Payload(b, q)
    ensures p == q
  {
    PayloadEnds(a, p);
    PayloadEnds(b, q);
    LastField(Body(a), Body(b), p, q);
  }

  // ----- the chain under this checksum -----

  lemma DigestsNeverGenesis(h: Hash)
    requires HexDigest(h)
    ensures NeverGenesis(ComputeChecksum(h))
  {
    forall e, p ensures ComputeChecksum(h)(e, p) != GENESIS {
      assert |h(Payload(e, p))| == 64;
    }
  }

  function PayloadAt(log: Log, i: nat): string
    requires i < |log|
  {
    Payload(log[i].event, PrevOf(log, i))
  }

  lemma PrevBarFree(h: Hash, log: Log, i: nat)
    requires HexDigest(h) && Intact(ComputeChecksum(h), log) && i <= |log|
    ensures Lacks(PrevOf(log, i), '|')
    ensures PrevOf(log, i) == GENESIS <==> i == 0
  {
    if i > 0 {
      assert Sound(ComputeChecksum(h), log, i - 1);
      assert log[i - 1].checksum == h(PayloadAt(log, i - 1));
      assert |GENESIS| != 64;
    }
  }

  // ----- two logs with one end -----

  ghost predicate AllPlain(log: Log) {
    forall i | 0 <= i < |log| :: Plain(log[i].event)
  }

  ghost predicate AllBarFree(log: Log) {
    forall i | 0 <= i < |log| :: BarFree(log[i].event)
  }

  /** At equal distances from their ends the two logs hash different payloads to one
      checksum. */
  ghost predicate CollisionBetween(h: Hash, a: Log, b: Log) {
    exists i, j :: CollisionAt(h, a, i, b, j)
  }

  ghost predicate CollisionAt(h: Hash, a: Log, i: int, b: Log, j: int) {
    0 <= i < |a| && 0 <= j < |b| && |a| - i == |b| - j && Collision(h, PayloadAt(a, i), PayloadAt(b, j))
  }

  /** At equal distances from their ends the two logs have different entries with one
      payload. */
  ghost predicate ConfusedAt(a: Log, i: int, b: Log, j: int) {
    && 0 <= i < |a| && 0 <= j < |b| && |a| - i == |b| - j
    && a[i].event != b[j].event && PayloadAt(a, i) == PayloadAt(b, j)
  }

  ghost predicate Confused(a: Log, b: Log) {
    exists i, j :: ConfusedAt(a, i, b, j)
  }

  /** Two verified logs ending in one checksum are equal entry by entry, or exhibit a
      collision of the hash, or two entries that share a payload. */
  lemma SameEndUnlessConfused(h: Hash, a: Log, b: Log)
    requires HexDigest(h) && Intact(ComputeChecksum(h), a) && Intact(ComputeChecksum(h), b) && End(a) == End(b)
    ensures a == b || CollisionBetween(h, a, b) || Confused(a, b)
  {
    var c := ComputeChecksum(h);
    DigestsNeverGenesis(h);
    SameEndSameLog(c, a, b);
    if ClashBetween(c, a, b) {
      var i, j :| ClashAt(c, a, i, b, j);
      PrevBarFree(h, a, i);
      PrevBarFree(h, b, j);
      if PayloadAt(a, i) == PayloadAt(b, j) {
        PayloadPrev(a[i].event, b[j].event, PrevOf(a, i), PrevOf(b, j));
        assert ConfusedAt(a, i, b, j);
      } else {
        assert CollisionAt(h, a, i, b, j);
      }
    }
  }

  /** What keeps a log from being confused with another one. */
  ghost predicate Comparable(a: Log, b: Log) {
    AllPlain(a) || (AllBarFree(a) && AllBarFree(b))
  }

  /** Two verified logs ending in one checksum are equal entry by entry, or exhibit a
      collision of the hash: if one of them has no bars, whatever the other contains,
      or if neither has bars outside the details. */
  lemma SameEnd(h: Hash, a: Log, b: Log)
    requires HexDigest(h) && Comparable(a, b)
    requires Intact(ComputeChecksum(h), a) && Intact(ComputeChecksum(h), b) && End(a) == End(b)
    ensures a == b || CollisionBetween(h, a, b)
  {
    SameEndUnlessConfused(h, a, b);
    if i, j :| ConfusedAt(a, i, b, j) {
      PrevBarFree(h, a, i);
      PrevBarFree(h, b, j);
      PayloadInjective(a[i].event, b[j].event, PrevOf(a, i), PrevOf(b, j));
      assert false;
    }
  }

  /** Entry k replaced by one with the same payload. */
  lemma SilentEdit(h: Hash, log: Log, k: nat, f: Event)
    requires Intact(ComputeChecksum(h), log) && k < |log| && SamePayload(log[k].event, f)
    ensures var b := log[k := log[k].(event := f)];
            && Intact(ComputeChecksum(h), b) && End(b) == End(log)
            && forall i | 0 <= i < |log| :: PayloadAt(b, i) == PayloadAt(log, i)
  {
    var b := log[k := log[k].(event := f)];
    forall i | 0 <= i <= |log| ensures PrevOf(b, i) == PrevOf(log, i) {
    }
    forall i | 0 <= i < |log| ensures Sound(ComputeChecksum(h), b, i) && PayloadAt(b, i) == PayloadAt(log, i) {
      assert Sound(ComputeChecksum(h), log, i);
      assert Payload(f, PrevOf(log, k)) == Payload(log[k].event, PrevOf(log, k));
    }
  }

  lemma DoublesDoNotCollide(h: Hash, a: Log, b: Log)
    requires |b| == |a| && forall i | 0 <= i < |a| :: PayloadAt(b, i) == PayloadAt(a, i)
    ensures !CollisionBetween(h, a, b)
  {
    forall i, j ensures !CollisionAt(h, a, i, b, j) {
    }
  }

  // ----- editing one entry -----

  /** The edit of entry k to e is reported exactly once, at that entry, or exhibits a
      collision. */
  ghost predicate EditNoticed(h: Hash, log: Log, k: nat, e: Event)
    requires k < |log|
  {
    || Faults(ComputeChecksum(h), log[k := log[k].(event := e)], |log|) == [BadChecksum(k, e.id)]
    || Collision(h, Payload(e, PrevOf(log, k)), PayloadAt(log, k))
  }

  /** Editing an entry is noticed unless its payload stays the same. */
  lemma EditIsReported(h: Hash, log: Log, k: nat, e: Event)
    requires HexDigest(h) && Intact(ComputeChecksum(h), log) && k < |log|
    ensures EditNoticed(h, log, k, e) <==> Payload(e, PrevOf(log, k)) != PayloadAt(log, k)
    ensures Distinguishable(log[k].event, e) && e != log[k].event ==> EditNoticed(h, log, k, e)
  {
    var prev := PrevOf(log, k);
    EditReported(ComputeChecksum(h), log, k, e);
    PrevBarFree(h, log, k);
    if Payload(e, prev) == PayloadAt(log, k) && Distinguishable(log[k].event, e) {
      PayloadInjective(log[k].event, e, prev, prev);
    }
  }

  // ----- losing entries -----

  /** Two entries of the log have different payloads and one checksum. */
  ghost predicate CollisionWithin(h: Hash, log: Log) {
    exists i, j :: 0 <= i < j < |log| && Collision(h, PayloadAt(log, i), PayloadAt(log, j))
  }

  /** No checksum occurs twice in a verified log, or it exhibits a collision: equal
      payloads have equal previous checksums, and so back to the first entry. */
  lemma {:induction false} ChecksumsDiffer(h: Hash, log: Log, i: nat, j: nat)
    requires HexDigest(h) && Intact(ComputeChecksum(h), log) && i < j < |log|
    ensures log[i].checksum != log[j].checksum || CollisionWithin(h, log)
  {
    assert Sound(ComputeChecksum(h), log, i) && Sound(ComputeChecksum(h), log, j);
    if log[i].checksum == log[j].checksum && PayloadAt(log, i) == PayloadAt(log, j) {
      PrevBarFree(h, log, i);
      PrevBarFree(h, log, j);
      PayloadPrev(log[i].event, log[j].event, PrevOf(log, i), PrevOf(log, j));
      if i > 0 {
        ChecksumsDiffer(h, log, i - 1, j - 1);
      }
    }
  }

  /** An entry that follows another checksum than it was logged with has a wrong
      checksum, or exhibits a collision. */
  lemma MovedEntry(h: Hash, log: Log, k: nat, prev: string)
    requires HexDigest(h) && Intact(ComputeChecksum(h), log) && k < |log|
    requires Lacks(prev, '|') && prev != PrevOf(log, k)
    ensures log[k].checksum != ComputeChecksum(h)(log[k].event, prev)
            || Collision(h, PayloadAt(log, k), Payload(log[k].event, prev))
  {
    assert Sound(ComputeChecksum(h), log, k);
    PrevBarFree(h, log, k);
    if PayloadAt(log, k) == Payload(log[k].event, prev) {
      PayloadPrev(log[k].event, log[k].event, PrevOf(log, k), prev);
    }
  }

  lemma ReferenceBroken(h: Hash, log: Log, k: nat)
    requires HexDigest(h) && Intact(ComputeChecksum(h), log) && k < |log|
    ensures log[k].checksum != PrevOf(log, k) || CollisionWithin(h, log)
  {
    PrevBarFree(h, log, k + 1);
    if k > 0 {
      ChecksumsDiffer(h, log, k - 1, k);
    }
  }

  lemma InnerDeletion(h: Hash, log: Log, k: nat)
    requires HexDigest(h) && Intact(ComputeChecksum(h), log) && k + 1 < |log|
    requires log[k].checksum != PrevOf(log, k)
    requires !Collision(h, PayloadAt(log, k + 1), Payload(log[k + 1].event, PrevOf(log, k)))
    ensures Faults(ComputeChecksum(h), Deleted(log, k), |Deleted(log, k)|) == BothFaults(log, k)
  {
    PrevBarFree(h, log, k);
    MovedEntry(h, log, k + 1, PrevOf(log, k));
    BothReported(ComputeChecksum(h), log, k);
  }

  /** Deleting an entry of a verified log passes verification iff the entry was the
      last, or exhibits a collision; otherwise it is reported exactly twice. */
  lemma DeletionIsReported(h: Hash, log: Log, k: nat)
    requires HexDigest(h) && Intact(ComputeChecksum(h), log) && k < |log|
    ensures || Faults(ComputeChecksum(h), Deleted(log, k), |Deleted(log, k)|) ==
                 (if k == |log| - 1 then [] else BothFaults(log, k))
            || CollisionWithin(h, log)
            || (k < |log| - 1 && Collision(h, PayloadAt(log, k + 1), Payload(log[k + 1].event, PrevOf(log, k))))
  {
    ReferenceBroken(h, log, k);
    if k == |log| - 1 {
      DeletionReported(ComputeChecksum(h), log, k);
    } else if log[k].checksum != PrevOf(log, k)
              && !Collision(h, PayloadAt(log, k + 1), Payload(log[k + 1].event, PrevOf(log, k))) {
      InnerDeletion(h, log, k);
    }
  }

  /** An intact log that has lost its first k entries is reported exactly twice, both
      times at its oldest surviving entry, or exhibits a collision. */
  lemma TruncationIsReported(h: Hash, all: Log, k: nat)
    requires HexDigest(h) && Intact(ComputeChecksum(h), all) && 0 < k < |all|
    ensures || Faults(ComputeChecksum(h), all[k..], |all| - k) ==
                 [BadChecksum(0, all[k].event.id), BrokenChain(0, all[k].event.id)]
            || Collision(h, PayloadAt(all, k), Payload(all[k].event, GENESIS))
  {
    DigestsNeverGenesis(h);
    SuffixReported(ComputeChecksum(h), all, k);
    PrevBarFree(h, all, k);
    MovedEntry(h, all, k, GENESIS);
  }

  /** What verify_integrity reports of the last 10000 entries of an intact log. */
  ghost predicate WindowVerdict(h: Hash, all: Log) {
    var c, log := ComputeChecksum(h), Window(all);
    if |all| <= 10000 then Faults(c, log, |log|) == []
    else
      var k := |all| - 10000;
      || Faults(c, log, |log|) == [BadChecksum(0, all[k].event.id), BrokenChain(0, all[k].event.id)]
      || Collision(h, PayloadAt(all, k), Payload(all[k].event, GENESIS))
  }

  lemma VerdictOnWindow(h: Hash, all: Log)
    requires HexDigest(h) && Intact(ComputeChecksum(h), all)
    ensures WindowVerdict(h, all)
  {
    if |all| <= 10000 {
      NoFaultsIffSound(ComputeChecksum(h), all, |all|);
    } else {
      TruncationIsReported(h, all, |all| - 10000);
    }
  }

  /** verify_integrity after any run of log_event calls, whatever they record: valid up
      to 10000 calls, two faults at the oldest surviving entry after that. */
  lemma VerdictAfterRun(h: Hash, events: seq<Event>)
    requires HexDigest(h)
    ensures WindowVerdict(h, Chain(ComputeChecksum(h), events))
  {
    ChainIntact(ComputeChecksum(h), events);
    VerdictOnWindow(h, Chain(ComputeChecksum(h), events));
  }
}
