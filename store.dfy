/**
 * The statistics document the conversation simulator reads, updates in place
 * and writes back: a history of session records, the derived average
 * satisfaction, and whatever other top-level keys the file already held.
 */
module Store {
  import opened Sessions
  import opened History

  datatype Option<T> = None | Some(value: T)

  /** The two top-level keys the simulator reads or writes. */
  const HistoryKey: string := "history"
  const AverageKey: string := "average_satisfaction"

  /**
   * What reading the data file yields. A parsed document is split into its
   * `history` entry (absent when the key is missing), its
   * `average_satisfaction` entry, and every other top-level key with its
   * value kept as raw JSON text.
   */
  datatype StoredFile =
    | Missing
    | Unparsable
    | Parsed(history: Option<seq<Session>>, average: Option<real>, others: map<string, string>)

  /** The two named keys are held in their own fields, never among the others. */
  predicate SeparateKeys(others: map<string, string>) {
    HistoryKey !in others && AverageKey !in others
  }

  predicate WellFormedFile(file: StoredFile) {
    file.Parsed? ==> SeparateKeys(file.others)
  }

  /** The loaded document, which the simulator then changes in place. */
  class Document {
    var history: Option<seq<Session>>
    var average: Option<real>
    var others: map<string, string>

    ghost predicate Valid()
      reads this
    {
      SeparateKeys(others)
    }

    /**
     * Load the document: a missing file, or one that cannot be read or
     * parsed, gives a document whose history is empty and that has no
     * other keys; a parsed file is taken as it is.
     */
    constructor Load(file: StoredFile)
      requires WellFormedFile(file)
      ensures Valid()
      ensures file.Parsed? ==>
        history == file.history && average == file.average && others == file.others
      ensures !file.Parsed? ==> history == Some([]) && average == None && others == map[]
    {
      if file.Parsed? {
        history, average, others := file.history, file.average, file.others;
      } else {
        history, average, others := Some([]), None, map[];
      }
    }

    /**
     * Record one session. A document without a history fails at the length
     * check, before anything is changed (`ok` is false). Otherwise a history
     * longer than Retain is cut to its Retain most recent entries, the new
     * session is appended, and the average is recomputed over the result;
     * every other key keeps its value.
     */
    method RecordSession(session: Session) returns (ok: bool)
      requires Valid()
      modifies this
      ensures Valid()
      ensures ok <==> old(history).Some?
      ensures !ok ==> history == old(history) && average == old(average)
      ensures ok ==> history == Some(Recorded(old(history).value, session))
      ensures ok ==> average == Some(MeanSatisfaction(history.value))
      ensures others == old(others)
    {
      if history.None? {
        return false;
      }
      if |history.value| > Retain {
        var h := history.value;
        history := Some(h[|h| - Retain..]);
      }
      history := Some(history.value + [session]);
      var total := TotalSatisfaction(history.value);
      average := Some(total as real / |history.value| as real);
      ok := true;
    }
  }

  /**
   * One run of the simulator: load the file, record the generated session
   * and return the document that is then written back.
   */
  method SimulateConversations(file: StoredFile, session: Session)
    returns (doc: Document, ok: bool)
    requires WellFormedFile(file)
    requires ValidSession(session)
    ensures fresh(doc) && doc.Valid()
    ensures ok <==> !file.Parsed? || file.history.Some?
    ensures ok ==> doc.history.Some? && 1 <= |doc.history.value| <= Capacity
    ensures ok ==> doc.history.value[|doc.history.value| - 1] == session
    // the stored average is the exact mean rating of the new history
    ensures ok ==> doc.average == Some(MeanSatisfaction(doc.history.value))
    // a missing or unreadable file yields a one-entry history rated as the session
    ensures !file.Parsed? ==>
      ok && doc.history == Some([session]) &&
      doc.average == Some(session.userSatisfaction as real) && doc.others == map[]
    // a parsed file: the cut-and-appended history, every other key unchanged
    ensures file.Parsed? && ok ==>
      doc.history == Some(Recorded(file.history.value, session)) && doc.others == file.others
    // when the entries the cut keeps are rated on the scale, so is the average
    ensures file.Parsed? && ok && RatingsInScale(Retained(file.history.value)) ==>
      1.0 <= doc.average.value <= 5.0
    // a parsed file without a history is left as it was loaded
    ensures file.Parsed? && !ok ==>
      doc.history == None && doc.average == file.average && doc.others == file.others
  {
    doc := new Document.Load(file);
    ok := doc.RecordSession(session);
    if !file.Parsed? {
      RecordedFromEmpty(session);
    } else if ok && RatingsInScale(Retained(file.history.value)) {
      RecordedRatingsInScale(file.history.value, session);
      MeanWithinScale(Recorded(file.history.value, session));
    }
  }
}
