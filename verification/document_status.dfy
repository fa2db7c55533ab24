/** The status of a document translation, as the server reports it. */
module Documents {
  import opened Wrappers

  /** The four states of a document translation. */
  datatype StatusCode = Queued | Translating | Done | Error

  /**
   * A status report. The state may be missing from the server's answer, and
   * the billed characters, the estimate of seconds remaining and the error
   * message are only present in some states.
   */
  datatype DocumentStatus = DocumentStatus(documentId: string, status: Option<StatusCode>,
                                           billedCharacters: Option<int>, secondsRemaining: Option<int>,
                                           errorMessage: Option<string>)

  /** ok(): no error has occurred; the states in which this holds are Queued, Translating and Done. */
  predicate Ok(s: DocumentStatus)
    ensures Ok(s) <==> s.status in {Some(Queued), Some(Translating), Some(Done)}
  {
    s.status.Some? && s.status.value != Error
  }

  /** done(): the translation has completed; a completed translation is also ok. */
  predicate IsDone(s: DocumentStatus)
    ensures IsDone(s) ==> Ok(s)
  {
    s.status.Some? && s.status.value == Done
  }

  /**
   * The states in which polling goes on, those that are ok but not done, are
   * exactly Queued and Translating; every other report ends it.
   */
  lemma StillRunning(s: DocumentStatus)
    ensures Ok(s) && !IsDone(s) <==> s.status == Some(Queued) || s.status == Some(Translating)
    ensures !(Ok(s) && !IsDone(s)) <==> s.status in {None, Some(Done), Some(Error)}
  {
  }
}
