/** Which entries of server/audit.py can be replaced by another entry of the program
    without the payload changing. The change fields hold what json.dumps prints, the
    scores what Python prints for an optional float; the other fields are free text. */
module AuditDoubles {
  import opened Text
  import opened AuditChain
  import opened Audit
  import opened JsonText

  /** The texts of an optional float. All that matters of them is that none has a bar. */
  type Scores = string -> bool

  ghost predicate BarFreeScores(num: Scores) {
    forall s | num(s) :: Lacks(s, '|')
  }

  /** What log_event can put in an entry: ids and times have no bars, scores and changes
      are printed as such. */
  ghost predicate Rendered(num: Scores, e: Event) {
    && Lacks(e.id, '|') && Lacks(e.eventTime, '|')
    && num(e.healthScore) && num(e.confidence)
    && ChangeText(e.routingChange) && ChangeText(e.policyChange)
  }

  /** Another entry of the program with the same payload after any checksum. */
  ghost predicate IsDouble(num: Scores, e: Event, f: Event) {
    Rendered(num, f) && f != e && SamePayload(e, f)
  }

  ghost predicate HasDouble(num: Scores, e: Event) {
    exists f :: IsDouble(num, e, f)
  }

  // ----- the condition -----

  /** The last four fields of the payload. */
  function Rest(e: Event): string {
    Field(e.validationResult, Field(e.routingChange, Field(e.policyChange, e.details)))
  }

  /** w reads as a validation result, two changes and details. */
  ghost predicate Reads(w: string, x: string, j1: string, j2: string, y: string) {
    ChangeText(j1) && ChangeText(j2) && w == Field(x, Field(j1, Field(j2, y)))
  }

  /** The last four fields can be cut in another place. */
  ghost predicate ReadsOtherwise(e: Event) {
    exists x, j1, j2, y :: Reads(Rest(e), x, j1, j2, y) && x != e.validationResult
  }

  /** The validation result starts with a score and a bar, or has two scores between
      bars: then the scores before it can move into the free fields. */
  ghost predicate ScoresInside(num: Scores, v: string) {
    (exists n, y :: StartsWithScore(num, v, n, y)) || (exists z, m, n, y :: HoldsScores(num, v, z, m, n, y))
  }

  ghost predicate StartsWithScore(num: Scores, v: string, n: string, y: string) {
    num(n) && v == Field(n, y)
  }

  ghost predicate HoldsScores(num: Scores, v: string, z: string, m: string, n: string, y: string) {
    num(m) && num(n) && v == Field(z, Field(m, Field(n, y)))
  }

  ghost predicate Confusable(num: Scores, e: Event) {
    || !Lacks(e.eventType, '|') || !Lacks(e.actor, '|') || !Lacks(e.linkId, '|')
    || ScoresInside(num, e.validationResult)
    || ReadsOtherwise(e)
  }

  // ----- cutting texts at bars -----

  lemma CutAtBar(s: string) returns (x: string, y: string)
    requires !Lacks(s, '|')
    ensures s == Field(x, y) && |x| < |s|
  {
    var i :| 0 <= i < |s| && s[i] == '|';
    x, y := s[..i], s[i + 1..];
    assert s == s[..i] + [s[i]] + s[i + 1..];
  }

  lemma {:induction false} CutAtLastBar(s: string) returns (x: string, y: string)
    requires !Lacks(s, '|')
    ensures s == Field(x, y) && Lacks(y, '|')
  {
    var n := |s| - 1;
    if s[n] == '|' {
      x, y := s[..n], "";
      assert s == s[..n] + [s[n]] + "";
    } else {
      x, y := CutAtLastBar(s[..n]);
      y := y + [s[n]];
      assert s == s[..n] + [s[n]];
    }
  }

  /** y is what follows some bar of x. */
  ghost predicate After(x: string, y: string) {
    exists z :: x == Field(z, y)
  }

  lemma AfterIsShorter(x: string, y: string)
    requires After(x, y)
    ensures |y| < |x|
  {
  }

  /** Where a text starts with a field without bars, any other reading of it has the
      same first field or a longer one. */
  lemma Peel(a: string, x: string, b: string, y: string)
    requires Lacks(a, '|') && Field(a, x) == Field(b, y)
    ensures (a == b && x == y) || exists z :: b == Field(a, z) && x == Field(z, y)
  {
    var s := Field(a, x);
    assert s[|a|] == '|' && s[|b|] == '|';
    assert forall i | 0 <= i < |a| :: s[i] == a[i];
    assert s[..|a|] == a && s[..|b|] == b && s[|a| + 1..] == x && s[|b| + 1..] == y;
    if |b| > |a| {
      var z := s[|a| + 1..|b|];
      assert b == Field(a, z);
      assert x == Field(z, y);
    }
  }

  lemma PeelAfter(a: string, x: string, b: string, y: string)
    requires Lacks(a, '|') && After(Field(a, x), Field(b, y))
    ensures After(x, y)
  {
    var z :| Field(a, x) == Field(z, Field(b, y));
    FieldAssoc(z, b, y);
    Peel(a, x, Field(z, b), y);
    assert Field(z, b)[|z|] == '|';
  }

  /** So the remainders are equal, or the second one starts at a later bar. */
  lemma PeelEither(a: string, x: string, b: string, y: string)
    requires Lacks(a, '|') && (Field(a, x) == Field(b, y) || After(Field(a, x), Field(b, y)))
    ensures (Field(a, x) == Field(b, y) && a == b && x == y) || After(x, y)
  {
    if Field(a, x) == Field(b, y) {
      Peel(a, x, b, y);
    } else {
      PeelAfter(a, x, b, y);
    }
  }

  lemma ShorterIsPrefix(a: string, x: string, b: string, y: string)
    requires Field(a, x) == Field(b, y) && |a| < |b|
    ensures a + "|" <= b
  {
    var s := Field(a, x);
    assert s[..|b|] == b && s[..|a| + 1] == a + "|";
  }

  /** No change text followed by a bar can be read as another one. */
  lemma PeelChange(a: string, x: string, b: string, y: string)
    requires ChangeText(a) && ChangeText(b) && Field(a, x) == Field(b, y)
    ensures a == b && x == y
  {
    ChangesEndAtBars(a, b);
    ChangesEndAtBars(b, a);
    if |a| < |b| {
      ShorterIsPrefix(a, x, b, y);
    } else if |b| < |a| {
      ShorterIsPrefix(b, y, a, x);
    } else {
      var s := Field(a, x);
      assert s[..|a|] == a && s[..|b|] == b && s[|a| + 1..] == x && s[|b| + 1..] == y;
    }
  }

  // ----- the fields before the validation result -----

  /** The free fields and the scores. */
  function Front(e: Event): string {
    Field(e.eventType, Field(e.actor, Field(e.linkId, Field(e.healthScore, e.confidence))))
  }

  function FrontThen(e: Event, w: string): string {
    Field(e.eventType, Field(e.actor, Field(e.linkId, Field(e.healthScore, Field(e.confidence, w)))))
  }

  lemma FrontEnds(e: Event, w: string)
    ensures FrontThen(e, w) == Field(Front(e), w)
  {
    var t2 := Field(e.healthScore, e.confidence);
    var t3 := Field(e.linkId, t2);
    FieldAssoc(e.healthScore, e.confidence, w);
    FieldAssoc(e.linkId, t2, w);
    FieldAssoc(e.actor, t3, w);
    FieldAssoc(e.eventType, Field(e.actor, t3), w);
  }

  lemma BodyParts(e: Event)
    ensures Body(e) == Field(e.id, Field(e.eventTime, FrontThen(e, Rest(e))))
  {
  }

  lemma SamePayloadIffBody(e: Event, f: Event)
    ensures SamePayload(e, f) <==> Body(e) == Body(f)
  {
    PayloadEnds(e, "");
    PayloadEnds(f, "");
    if SamePayload(e, f) {
      assert Payload(f, "") == Payload(e, "");
      LastField(Body(e), Body(f), "", "");
    }
    if Body(e) == Body(f) {
      forall p ensures Payload(f, p) == Payload(e, p) {
        PayloadEnds(e, p);
        PayloadEnds(f, p);
      }
    }
  }

  /** Entries with the same front text and the same rest have the same payloads. */
  lemma SameParts(e: Event, f: Event)
    requires e.id == f.id && e.eventTime == f.eventTime && FrontThen(e, Rest(e)) == FrontThen(f, Rest(f))
    ensures SamePayload(e, f)
  {
    BodyParts(e);
    BodyParts(f);
    SamePayloadIffBody(e, f);
  }

  // ----- a double wherever the condition holds -----

  /** A bar in one of the first three free fields can move to a neighbour. */
  lemma BarsMakePayloadsAmbiguous(num: Scores, e: Event)
    requires Rendered(num, e) && (!Lacks(e.eventType, '|') || !Lacks(e.actor, '|') || !Lacks(e.linkId, '|'))
    ensures HasDouble(num, e)
  {
    var f: Event;
    var w := Field(e.healthScore, Field(e.confidence, Rest(e)));
    if !Lacks(e.eventType, '|') {
      var x, y := CutAtBar(e.eventType);
      f := e.(eventType := x, actor := Field(y, e.actor));
      FieldAssoc(x, y, Field(e.actor, Field(e.linkId, w)));
      FieldAssoc(y, e.actor, Field(e.linkId, w));
    } else if !Lacks(e.actor, '|') {
      var x, y := CutAtBar(e.actor);
      f := e.(actor := x, linkId := Field(y, e.linkId));
      FieldAssoc(x, y, Field(e.linkId, w));
      FieldAssoc(y, e.linkId, w);
    } else {
      var x, y := CutAtBar(e.linkId);
      f := e.(actor := Field(e.actor, x), linkId := y);
      assert |y| < |e.linkId|;
      FieldAssoc(x, y, w);
      FieldAssoc(e.actor, x, Field(y, w));
    }
    SameParts(e, f);
    assert IsDouble(num, e, f);
  }

  lemma OtherReadingIsDouble(num: Scores, e: Event, x: string, j1: string, j2: string, y: string)
    requires Rendered(num, e) && Reads(Rest(e), x, j1, j2, y) && x != e.validationResult
    ensures IsDouble(num, e, e.(validationResult := x, routingChange := j1, policyChange := j2, details := y))
  {
    SameParts(e, e.(validationResult := x, routingChange := j1, policyChange := j2, details := y));
  }

  lemma LeadingScoreIsDouble(num: Scores, e: Event, n: string, y: string)
    requires Rendered(num, e) && StartsWithScore(num, e.validationResult, n, y)
    ensures HasDouble(num, e)
  {
    var f := e.(eventType := Field(e.eventType, e.actor), actor := e.linkId, linkId := e.healthScore,
                healthScore := e.confidence, confidence := n, validationResult := y);
    var w := Field(e.routingChange, Field(e.policyChange, e.details));
    FieldAssoc(n, y, w);
    FieldAssoc(e.eventType, e.actor, Field(e.linkId, Field(e.healthScore, Field(e.confidence, Rest(e)))));
    assert |y| < |e.validationResult|;
    SameParts(e, f);
    assert IsDouble(num, e, f);
  }

  lemma InnerScoresAreDouble(num: Scores, e: Event, z: string, m: string, n: string, y: string)
    requires Rendered(num, e) && HoldsScores(num, e.validationResult, z, m, n, y)
    ensures HasDouble(num, e)
  {
    var head := Field(e.eventType, Field(e.actor, Field(e.linkId, e.healthScore)));
    var f := e.(eventType := head, actor := e.confidence, linkId := z,
                healthScore := m, confidence := n, validationResult := y);
    var w := Field(e.routingChange, Field(e.policyChange, e.details));
    var tail := Field(m, Field(n, Field(y, w)));
    FieldAssoc(n, y, w);
    FieldAssoc(m, Field(n, y), w);
    FieldAssoc(z, Field(m, Field(n, y)), w);
    assert Rest(e) == Field(z, tail) && Rest(f) == Field(y, w);
    HeadJoins(e, Field(e.confidence, Field(z, tail)));
    assert |y| < |e.validationResult|;
    SameParts(e, f);
    assert IsDouble(num, e, f);
  }

  lemma HeadJoins(e: Event, w: string)
    ensures Field(Field(e.eventType, Field(e.actor, Field(e.linkId, e.healthScore))), w) ==
            Field(e.eventType, Field(e.actor, Field(e.linkId, Field(e.healthScore, w))))
  {
    FieldAssoc(e.linkId, e.healthScore, w);
    FieldAssoc(e.actor, Field(e.linkId, e.healthScore), w);
    FieldAssoc(e.eventType, Field(e.actor, Field(e.linkId, e.healthScore)), w);
  }

  lemma ConfusableHasDouble(num: Scores, e: Event)
    requires Rendered(num, e) && Confusable(num, e)
    ensures HasDouble(num, e)
  {
    if !Lacks(e.eventType, '|') || !Lacks(e.actor, '|') || !Lacks(e.linkId, '|') {
      BarsMakePayloadsAmbiguous(num, e);
    } else if n, y :| StartsWithScore(num, e.validationResult, n, y) {
      LeadingScoreIsDouble(num, e, n, y);
    } else if z, m, n, y :| HoldsScores(num, e.validationResult, z, m, n, y) {
      InnerScoresAreDouble(num, e, z, m, n, y);
    } else {
      var x, j1, j2, y :| Reads(Rest(e), x, j1, j2, y) && x != e.validationResult;
      OtherReadingIsDouble(num, e, x, j1, j2, y);
    }
  }
}
