/** Parsed intents of server/ibn_engine.py. */
module Intents {
  import opened Text

  datatype IntentAction =
    | Prioritize | EnsureLatency | EnsureJitter | EnsureLoss | EnsureBandwidth
    | Block | Redirect | Deprioritize
    | ThrottleApp | PrioritizeApp | PrioritizeOver | SelectiveDegrade

  /** Optional strings are never empty: the parser leaves them out instead. */
  datatype ParsedIntent = ParsedIntent(
    action: IntentAction,
    trafficClasses: seq<string>,
    metric: Option<string>,
    threshold: Option<real>,
    preferredLink: Option<string>,
    avoidLink: Option<string>,
    sourceLink: Option<string>,
    targetLink: Option<string>,
    highApp: Option<string>,
    lowApp: Option<string>)
}
