/** The condition of AuditDoubles is exact: an entry of server/audit.py that is not
    confusable has no double, so its payload pins it down. */
module AuditPayloads {
  import opened Text
  import opened AuditChain
  import opened Audit
  import opened JsonText
  import opened AuditDoubles

  ghost predicate FreeFieldsPlain(e: Event) {
    Lacks(e.eventType, '|') && Lacks(e.actor, '|') && Lacks(e.linkId, '|')
  }

  /** A double has the same front, or its validation result starts at a later bar. */
  lemma FrontsAlign(num: Scores, e: Event, f: Event)
    requires BarFreeScores(num) && Rendered(num, e) && FreeFieldsPlain(e)
    requires FrontThen(e, Rest(e)) == FrontThen(f, Rest(f))
    ensures || (Front(e) == Front(f) && Rest(e) == Rest(f) && e.eventType == f.eventType && e.actor == f.actor
                && e.linkId == f.linkId && e.healthScore == f.healthScore && e.confidence == f.confidence)
            || After(Rest(e), Rest(f))
  {
    var (e5, f5) := (Field(e.confidence, Rest(e)), Field(f.confidence, Rest(f)));
    var (e4, f4) := (Field(e.healthScore, e5), Field(f.healthScore, f5));
    var (e3, f3) := (Field(e.linkId, e4), Field(f.linkId, f4));
    var (e2, f2) := (Field(e.actor, e3), Field(f.actor, f3));
    PeelEither(e.eventType, e2, f.eventType, f2);
    PeelEither(e.actor, e3, f.actor, f3);
    PeelEither(e.linkId, e4, f.linkId, f4);
    PeelEither(e.healthScore, e5, f.healthScore, f5);
    PeelEither(e.confidence, Rest(e), f.confidence, Rest(f));
  }

  /** Scores of a double that lie inside the validation result. */
  lemma ScoresCut(num: Scores, e: Event, f: Event, z: string)
    requires BarFreeScores(num) && Rendered(num, f) && e.validationResult == Field(z, f.validationResult)
    requires Field(Front(e), z) == Front(f)
    ensures ScoresInside(num, e.validationResult)
  {
    var g := Field(f.eventType, Field(f.actor, f.linkId));
    var v := f.validationResult;
    FrontTail(f);
    if Lacks(z, '|') {
      LastField(Front(e), Field(g, f.healthScore), z, f.confidence);
      assert StartsWithScore(num, e.validationResult, z, v);
    } else {
      var z0, c := CutAtLastBar(z);
      FieldAssoc(Front(e), z0, c);
      LastField(Field(Front(e), z0), Field(g, f.healthScore), c, f.confidence);
      FieldAssoc(z0, c, v);
      if Lacks(z0, '|') {
        LastField(Front(e), g, z0, f.healthScore);
        assert StartsWithScore(num, e.validationResult, z0, Field(c, v));
      } else {
        var z1, d := CutAtLastBar(z0);
        FieldAssoc(Front(e), z1, d);
        LastField(Field(Front(e), z1), g, d, f.healthScore);
        FieldAssoc(z1, d, Field(c, v));
        assert HoldsScores(num, e.validationResult, z1, d, c, v);
      }
    }
  }

  lemma FrontTail(f: Event)
    ensures Front(f) == Field(Field(Field(f.eventType, Field(f.actor, f.linkId)), f.healthScore), f.confidence)
  {
    FieldAssoc(f.linkId, f.healthScore, f.confidence);
    FieldAssoc(f.actor, Field(f.linkId, f.healthScore), f.confidence);
    FieldAssoc(f.eventType, Field(f.actor, Field(f.linkId, f.healthScore)), f.confidence);
    FieldAssoc(f.actor, f.linkId, f.healthScore);
    FieldAssoc(f.eventType, Field(f.actor, f.linkId), f.healthScore);
  }

  /** Equal rests with equal validation results are equal throughout. */
  lemma RestPinned(e: Event, f: Event)
    requires ChangeText(e.routingChange) && ChangeText(e.policyChange)
    requires ChangeText(f.routingChange) && ChangeText(f.policyChange)
    requires Rest(e) == Rest(f) && e.validationResult == f.validationResult
    ensures e.routingChange == f.routingChange && e.policyChange == f.policyChange && e.details == f.details
  {
    var (u, v) := (Field(e.policyChange, e.details), Field(f.policyChange, f.details));
    assert Rest(e)[|e.validationResult| + 1..] == Field(e.routingChange, u);
    assert Rest(f)[|f.validationResult| + 1..] == Field(f.routingChange, v);
    PeelChange(e.routingChange, u, f.routingChange, v);
    PeelChange(e.policyChange, e.details, f.policyChange, f.details);
  }

  lemma FrontCut(e: Event, f: Event, z: string)
    requires FrontThen(e, Rest(e)) == FrontThen(f, Rest(f)) && Rest(e) == Field(z, Rest(f))
    ensures Field(Front(e), z) == Front(f)
  {
    var w := Rest(f);
    FrontEnds(e, Rest(e));
    FrontEnds(f, w);
    FieldAssoc(Front(e), z, w);
    SameTail(Field(Front(e), z), Front(f), w);
  }

  lemma SameTail(a: string, b: string, w: string)
    requires Field(a, w) == Field(b, w)
    ensures a == b
  {
    assert |a| == |b|;
    assert Field(a, w)[..|a|] == a && Field(b, w)[..|b|] == b;
  }

  lemma LaterRest(num: Scores, e: Event, f: Event)
    requires BarFreeScores(num) && Rendered(num, f)
    requires FrontThen(e, Rest(e)) == FrontThen(f, Rest(f)) && After(Rest(e), Rest(f))
    ensures ScoresInside(num, e.validationResult) || ReadsOtherwise(e)
  {
    var z :| Rest(e) == Field(z, Rest(f));
    var w := Field(f.routingChange, Field(f.policyChange, f.details));
    FieldAssoc(z, f.validationResult, w);
    assert Reads(Rest(e), Field(z, f.validationResult), f.routingChange, f.policyChange, f.details);
    if Field(z, f.validationResult) == e.validationResult {
      FrontCut(e, f, z);
      ScoresCut(num, e, f, z);
    }
  }

  lemma DoubleIsConfusable(num: Scores, e: Event, f: Event)
    requires BarFreeScores(num) && Rendered(num, e) && IsDouble(num, e, f)
    ensures Confusable(num, e)
  {
    SamePayloadIffBody(e, f);
    BodyParts(e);
    BodyParts(f);
    FirstField(e.id, f.id, Field(e.eventTime, FrontThen(e, Rest(e))), Field(f.eventTime, FrontThen(f, Rest(f))));
    FirstField(e.eventTime, f.eventTime, FrontThen(e, Rest(e)), FrontThen(f, Rest(f)));
    if FreeFieldsPlain(e) {
      FrontsAlign(num, e, f);
      if After(Rest(e), Rest(f)) {
        LaterRest(num, e, f);
      } else if e.validationResult == f.validationResult {
        RestPinned(e, f);
        assert false;
      } else {
        assert Reads(Rest(e), f.validationResult, f.routingChange, f.policyChange, f.details);
      }
    }
  }

  /** An entry of the program has a double among the entries of the program exactly
      then. */
  lemma DoubleIff(num: Scores, e: Event)
    requires BarFreeScores(num) && Rendered(num, e)
    ensures HasDouble(num, e) <==> Confusable(num, e)
  {
    if f :| IsDouble(num, e, f) {
      DoubleIsConfusable(num, e, f);
    }
    if Confusable(num, e) {
      ConfusableHasDouble(num, e);
    }
  }

  /** What other entries of the program the payload of an entry leaves possible: none
      iff the entry is not confusable. */
  lemma PayloadPinsDown(num: Scores, e: Event, p: string)
    requires BarFreeScores(num) && Rendered(num, e) && Lacks(p, '|')
    ensures !Confusable(num, e) <==>
            forall f, q | Rendered(num, f) && Lacks(q, '|') && Payload(f, q) == Payload(e, p) :: f == e && q == p
  {
    if Confusable(num, e) {
      ConfusableHasDouble(num, e);
      var f :| IsDouble(num, e, f);
      assert Payload(f, p) == Payload(e, p);
    } else {
      forall f, q | Rendered(num, f) && Lacks(q, '|') && Payload(f, q) == Payload(e, p) ensures f == e && q == p {
        SharedPayload(e, f, p, q);
        if f != e {
          DoubleIsConfusable(num, e, f);
        }
      }
    }
  }

  lemma SharedPayload(e: Event, f: Event, p: string, q: string)
    requires Lacks(p, '|') && Lacks(q, '|') && Payload(f, q) == Payload(e, p)
    ensures p == q && SamePayload(e, f)
  {
    PayloadPrev(f, e, q, p);
    PayloadEnds(e, p);
    PayloadEnds(f, p);
    LastField(Body(e), Body(f), p, p);
    SamePayloadIffBody(e, f);
  }
}
