/**
 * The library's exceptions as one datatype. Each variant stands for one Java
 * exception class (or, for the plain DeepLException, one of the messages the
 * library throws it with); IllegalArgumentException carries a structured
 * reason instead of a formatted message.
 */
module Errors {
  import opened Wrappers

  /** The handle of an uploaded document: its ID and its secret key. */
  datatype DocumentHandle = DocumentHandle(documentId: string, documentKey: string)

  /** Why an argument was rejected before any request was sent. */
  datatype Problem =
    | EmptyAuthKey
    | TermWithoutContent(term: string)
    | TermInvalidChar(term: string, ch: char)
    | NoTermSeparator(lineNumber: nat, line: string)
    | ExtraTermSeparator(lineNumber: nat, line: string)
    | DuplicateSourceTerm(lineNumber: nat, term: string)
    | NoValidEntries
    | EmptyText
    | EmptySourceLang
    | EmptyTargetLang
    | TargetLangNotAllowed(code: string)
    | GlossaryWithoutSourceLang
    | EmptyParameter(name: string)
    | EmptyDictionaries

  datatype Error =
    | IllegalArgument(problem: Problem)
    /** ConnectionException; shouldRetry is true for timeouts only. */
    | Connection(shouldRetry: bool)
    /** InterruptedException out of a sleep. */
    | Interrupted
    /** The classified HTTP failures; `suffix` is the server detail appended to the message. */
    | BadRequest(suffix: string)
    | Authorization(suffix: string)
    | NotFound(suffix: string)
    | GlossaryNotFound(suffix: string)
    | TooManyRequests(suffix: string)
    | QuotaExceeded(suffix: string)
    | DocumentNotReady(suffix: string)
    | ServiceUnavailable(suffix: string)
    | Unknown(suffix: string)
    /** A failed download whose response had no body stream. */
    | EmptyResponseStream
    /** A document translation the server reports as failed, with its message. */
    | DocumentFailed(message: string)
    /** A request body that could not be built (a multipart field of unknown type). */
    | BuildFailed(typeName: string)
    /** "Failed building request": an upload body that could not be built, with the cause. */
    | RequestNotBuilt(cause: Error)
    /** A NullPointerException. */
    | NullReference
    /** DocumentTranslationException: the cause and, if the upload succeeded, the handle. */
    | DocumentTranslation(cause: Error, handle: Option<DocumentHandle>)
}
