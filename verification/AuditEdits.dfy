/** What the condition of AuditDoubles comes to: for entries whose bars are all in the
    details, for edits of one entry of server/audit.py, and for whole logs. */
module AuditEdits {
  import opened Text
  import opened AuditChain
  import opened Audit
  import opened JsonText
  import opened AuditDoubles
  import opened AuditPayloads

  // ----- entries whose bars are all in the details -----

  /** details starts with a change text and a bar, or holds two between bars. */
  ghost predicate ChangesInside(d: string) {
    (exists j, y :: StartsWithChange(d, j, y)) || (exists z, j1, j2, y :: Reads(d, z, j1, j2, y))
  }

  ghost predicate StartsWithChange(d: string, j: string, y: string) {
    ChangeText(j) && d == Field(j, y)
  }

  /** Any other cut of the last four fields lies in the details. */
  lemma OtherCut(e: Event, x: string, j1: string, j2: string, y: string)
    requires BarFree(e) && ChangeText(e.routingChange) && ChangeText(e.policyChange)
    requires Reads(Rest(e), x, j1, j2, y) && x != e.validationResult
    ensures ChangesInside(e.details)
  {
    var w := Field(j1, Field(j2, y));
    var (u1, u2) := (Field(e.routingChange, Field(e.policyChange, e.details)), Field(e.policyChange, e.details));
    Peel(e.validationResult, u1, x, w);
    var z :| x == Field(e.validationResult, z) && u1 == Field(z, w);
    Peel(e.routingChange, u2, z, w);
    if z == e.routingChange && u2 == w {
      PeelChange(e.policyChange, e.details, j1, Field(j2, y));
      assert StartsWithChange(e.details, j2, y);
    } else {
      var z' :| z == Field(e.routingChange, z') && u2 == Field(z', w);
      Peel(e.policyChange, e.details, z', w);
      if z' == e.policyChange && e.details == w {
        assert StartsWithChange(e.details, j1, Field(j2, y));
      } else {
        var rest :| z' == Field(e.policyChange, rest) && e.details == Field(rest, w);
        assert Reads(e.details, rest, j1, j2, y);
      }
    }
  }

  lemma InsideCut(e: Event)
    requires ChangeText(e.policyChange) && ChangesInside(e.details)
    ensures ReadsOtherwise(e)
  {
    var (v, r, p) := (e.validationResult, e.routingChange, e.policyChange);
    if j, y :| StartsWithChange(e.details, j, y) {
      FieldAssoc(v, r, Field(p, e.details));
      assert Reads(Rest(e), Field(v, r), p, j, y);
    } else {
      var z, j1, j2, y :| Reads(e.details, z, j1, j2, y);
      var w := Field(j1, Field(j2, y));
      FieldAssoc(p, z, w);
      FieldAssoc(r, Field(p, z), w);
      FieldAssoc(v, Field(r, Field(p, z)), w);
      assert Reads(Rest(e), Field(v, Field(r, Field(p, z))), j1, j2, y);
    }
  }

  lemma NoScoresInside(num: Scores, v: string)
    requires Lacks(v, '|')
    ensures !ScoresInside(num, v)
  {
    forall n, y ensures !StartsWithScore(num, v, n, y) {
      assert Field(n, y)[|n|] == '|';
    }
    forall z, m, n, y ensures !HoldsScores(num, v, z, m, n, y) {
      assert Field(z, Field(m, Field(n, y)))[|z|] == '|';
    }
  }

  /** An entry without bars outside the details can be confused with another one iff
      its details start with a change text and a bar, or hold two between bars. */
  lemma ConfusableDetails(num: Scores, e: Event)
    requires Rendered(num, e) && BarFree(e)
    ensures Confusable(num, e) <==> ChangesInside(e.details)
  {
    NoScoresInside(num, e.validationResult);
    if x, j1, j2, y :| Reads(Rest(e), x, j1, j2, y) && x != e.validationResult {
      OtherCut(e, x, j1, j2, y);
    }
    if ChangesInside(e.details) {
      InsideCut(e);
    }
  }

  /** Details without bars, or with neither a brace nor the letter n. */
  predicate Harmless(d: string) {
    Lacks(d, '|') || (Lacks(d, '{') && Lacks(d, 'n'))
  }

  lemma LeadingChangeShows(d: string, j: string, y: string)
    requires StartsWithChange(d, j, y)
    ensures !Harmless(d)
  {
    ChangeStart(j);
    assert d[|j|] == '|' && d[0] == j[0];
  }

  lemma HeldChangeShows(d: string, z: string, j1: string, j2: string, y: string)
    requires Reads(d, z, j1, j2, y)
    ensures !Harmless(d)
  {
    ChangeStart(j1);
    assert d[|z|] == '|' && d[|z| + 1] == j1[0];
  }

  /** Entries without bars outside harmless details, such as a|b, are not confusable. */
  lemma HarmlessDetails(num: Scores, e: Event)
    requires Rendered(num, e) && BarFree(e) && Harmless(e.details)
    ensures !Confusable(num, e)
  {
    ConfusableDetails(num, e);
    if j, y :| StartsWithChange(e.details, j, y) {
      LeadingChangeShows(e.details, j, y);
    }
    if z, j1, j2, y :| Reads(e.details, z, j1, j2, y) {
      HeldChangeShows(e.details, z, j1, j2, y);
    }
  }

  /** A PASSED validation without changes and with details null|hello passes for one
      with the result PASSED|null and details hello. */
  lemma NullHello(num: Scores, e: Event)
    requires Rendered(num, e) && e.validationResult == "PASSED" && e.details == "null|hello"
    requires e.routingChange == "null" && e.policyChange == "null"
    ensures IsDouble(num, e, e.(validationResult := "PASSED|null", details := "hello"))
  {
    var f := e.(validationResult := "PASSED|null", details := "hello");
    assert Field("null", "hello") == "null|hello" && Field("PASSED", "null") == "PASSED|null";
    FieldAssoc("PASSED", "null", Field("null", Field("null", "hello")));
    assert Rest(e) == Rest(f);
    SameParts(e, f);
  }

  // ----- edits and whole logs -----

  ghost predicate AllRendered(num: Scores, log: Log) {
    forall i | 0 <= i < |log| :: Rendered(num, log[i].event)
  }

  /** Every edit of an entry of a verified log to another entry of the program is
      noticed iff the genuine entry is not confusable; else some such edit passes. */
  lemma EveryEditNoticed(num: Scores, h: Hash, log: Log, k: nat)
    requires HexDigest(h) && Intact(ComputeChecksum(h), log) && k < |log|
    requires BarFreeScores(num) && Rendered(num, log[k].event)
    ensures !Confusable(num, log[k].event) <==>
            forall f | Rendered(num, f) && f != log[k].event :: EditNoticed(h, log, k, f)
    ensures Confusable(num, log[k].event) ==>
              exists f :: IsDouble(num, log[k].event, f)
                          && Intact(ComputeChecksum(h), log[k := log[k].(event := f)])
  {
    var e := log[k].event;
    if Confusable(num, e) {
      ConfusableHasDouble(num, e);
      var f :| IsDouble(num, e, f);
      assert Payload(f, PrevOf(log, k)) == PayloadAt(log, k);
      EditIsReported(h, log, k, f);
      SilentEdit(h, log, k, f);
    } else {
      PrevBarFree(h, log, k);
      PayloadPinsDown(num, e, PrevOf(log, k));
      forall f | Rendered(num, f) && f != e ensures EditNoticed(h, log, k, f) {
        EditIsReported(h, log, k, f);
      }
    }
  }

  /** Every other verified log of the program with this end exhibits a collision of the
      hash with it. */
  ghost predicate EndIsUnique(num: Scores, h: Hash, a: Log) {
    forall b | AllRendered(num, b) && Intact(ComputeChecksum(h), b) && End(b) == End(a) && b != a ::
      CollisionBetween(h, a, b)
  }

  ghost predicate NoneConfusable(num: Scores, log: Log) {
    forall i | 0 <= i < |log| :: !Confusable(num, log[i].event)
  }

  lemma NotConfused(num: Scores, h: Hash, a: Log, i: nat, b: Log, j: nat)
    requires HexDigest(h) && Intact(ComputeChecksum(h), a) && Intact(ComputeChecksum(h), b)
    requires BarFreeScores(num) && AllRendered(num, a) && AllRendered(num, b) && NoneConfusable(num, a)
    ensures !ConfusedAt(a, i, b, j)
  {
    if ConfusedAt(a, i, b, j) {
      PrevBarFree(h, a, i);
      PrevBarFree(h, b, j);
      SharedPayload(a[i].event, b[j].event, PrevOf(a, i), PrevOf(b, j));
      DoubleIsConfusable(num, a[i].event, b[j].event);
    }
  }

  lemma ConfusableLogHasDouble(num: Scores, h: Hash, a: Log, k: nat) returns (b: Log)
    requires Intact(ComputeChecksum(h), a) && AllRendered(num, a)
    requires k < |a| && Confusable(num, a[k].event)
    ensures b != a && AllRendered(num, b) && Intact(ComputeChecksum(h), b) && End(b) == End(a)
    ensures |b| == |a| && forall i | 0 <= i < |a| :: PayloadAt(b, i) == PayloadAt(a, i)
  {
    ConfusableHasDouble(num, a[k].event);
    var f :| IsDouble(num, a[k].event, f);
    SilentEdit(h, a, k, f);
    b := a[k := a[k].(event := f)];
    assert b[k].event != a[k].event;
  }

  /** The last checksum of a verified log pins it down among all verified logs of the
      program, up to collisions of the hash, iff none of its entries is confusable. */
  lemma EndPinsDown(num: Scores, h: Hash, a: Log)
    requires HexDigest(h) && Intact(ComputeChecksum(h), a) && BarFreeScores(num) && AllRendered(num, a)
    ensures NoneConfusable(num, a) <==> EndIsUnique(num, h, a)
  {
    if NoneConfusable(num, a) {
      forall b | AllRendered(num, b) && Intact(ComputeChecksum(h), b) && End(b) == End(a) && b != a
        ensures CollisionBetween(h, a, b)
      {
        SameEndUnlessConfused(h, a, b);
        forall i, j | ConfusedAt(a, i, b, j) ensures false {
          NotConfused(num, h, a, i, b, j);
        }
      }
    } else {
      var k :| 0 <= k < |a| && Confusable(num, a[k].event);
      var b := ConfusableLogHasDouble(num, h, a, k);
      DoublesDoNotCollide(h, a, b);
    }
  }
}
