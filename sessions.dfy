/**
 * One simulated conversation session: the record that the conversation
 * simulator appends to the history, and the ranges its generator draws from.
 */
module Sessions {

  /** The intent labels a session's primary intent is chosen from. */
  const Intents: seq<string> :=
    ["Order Status", "Product Info", "Return Policy", "Technical Support", "Billing"]

  /** The resolution statuses a session's status is chosen from. */
  const Statuses: seq<string> := ["Resolved", "Escalated", "Pending"]

  /**
   * A session record as it is stored in the history. The fields are plain
   * values because a history read back from the data file may hold records
   * that no generator produced; ValidSession says which ones it can produce.
   */
  datatype Session = Session(
    timestamp: string,
    totalMessages: int,
    primaryIntent: string,
    avgResponseTimeMs: int,
    userSatisfaction: int,
    resolutionStatus: string)

  /** The records the generator can produce: every field within its drawn range. */
  predicate ValidSession(s: Session) {
    && 2 <= s.totalMessages <= 15
    && s.primaryIntent in Intents
    && 50 <= s.avgResponseTimeMs <= 800
    && 1 <= s.userSatisfaction <= 5
    && s.resolutionStatus in Statuses
  }

  /** Every record of a history is one the generator can produce. */
  predicate AllValid(h: seq<Session>) {
    forall i :: 0 <= i < |h| ==> ValidSession(h[i])
  }

  /**
   * The generator, with its random draws and the clock reading passed in:
   * `messages`, `responseMs` and `satisfaction` are the results of the
   * inclusive integer draws, `intentChoice` and `statusChoice` the indices
   * picked from Intents and Statuses.
   */
  function MakeSession(timestamp: string, messages: int, intentChoice: nat,
                       responseMs: int, satisfaction: int, statusChoice: nat): (s: Session)
    requires 2 <= messages <= 15
    requires intentChoice < |Intents|
    requires 50 <= responseMs <= 800
    requires 1 <= satisfaction <= 5
    requires statusChoice < |Statuses|
    ensures ValidSession(s)
    ensures s.timestamp == timestamp && s.userSatisfaction == satisfaction
  {
    Session(timestamp, messages, Intents[intentChoice], responseMs, satisfaction,
            Statuses[statusChoice])
  }

  /** Conversely, every valid record is the outcome of some choice of draws. */
  lemma ValidSessionIsGenerated(s: Session)
    requires ValidSession(s)
    ensures exists i: nat, j: nat ::
              && i < |Intents| && j < |Statuses|
              && MakeSession(s.timestamp, s.totalMessages, i, s.avgResponseTimeMs,
                             s.userSatisfaction, j) == s
  {
    var i: nat :| i < |Intents| && Intents[i] == s.primaryIntent;
    var j: nat :| j < |Statuses| && Statuses[j] == s.resolutionStatus;
    assert MakeSession(s.timestamp, s.totalMessages, i, s.avgResponseTimeMs,
                       s.userSatisfaction, j) == s;
  }
}
