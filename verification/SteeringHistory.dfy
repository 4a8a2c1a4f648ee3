/** The one steering history of server/state.py, which the routing handlers and the
    intent engine both write. */
module SteeringHistory {

  datatype SteeringEvent =
    | AutoSteered(intentId: string, steerCount: nat, sourceLink: string, targetLink: string, timestamp: real)
    | Deployed(ruleId: string, sourceLink: string, targetLink: string)
    | Restored(ruleId: string, sourceLink: string, targetLink: string)

  const MAX_HISTORY := 200

  /** deque(maxlen=200).appendleft */
  function Pushed(history: seq<SteeringEvent>, e: SteeringEvent): seq<SteeringEvent> {
    var h := [e] + history;
    if |h| > MAX_HISTORY then h[..MAX_HISTORY] else h
  }

  /** The new event comes first, and of the others the latest 199 are kept in order. */
  lemma PushedKeeps(history: seq<SteeringEvent>, e: SteeringEvent)
    ensures var h := Pushed(history, e);
            && |h| == (if |history| < 200 then |history| + 1 else 200)
            && h[0] == e && h[1..] <= history
  {
  }
}
