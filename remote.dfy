/**
 * The three platform endpoints the action calls, seen as an oracle: each call is answered
 * with a value or with an error carrying an HTTP status and a message. The per-call-site
 * rules for which errors mean "already absent" live here.
 */
module Remote {
  import opened Wrappers

  /** A repository on the hosting platform. */
  datatype RepoId = RepoId(owner: string, repo: string)

  /** An error thrown by the platform client: HTTP status and message. */
  datatype Failure = Failure(status: int, message: string)

  datatype Response<+T> = Returned(value: T) | Threw(failure: Failure)

  /** The answers the platform gives to `getReleaseByTag`, `deleteRelease` and `deleteRef`. */
  datatype Client = Client(
    getReleaseByTag: (RepoId, string) -> Response<int>,
    deleteRelease: (RepoId, int) -> Response<()>,
    deleteRef: (RepoId, string) -> Response<()>)

  /** One remote call with its arguments, as recorded in a trace. */
  datatype Call =
    | GetReleaseByTag(target: RepoId, tag: string)
    | DeleteRelease(target: RepoId, releaseId: int)
    | DeleteRef(target: RepoId, ref: string)

  /** The reference name of a tag. */
  function TagRef(tag: string): string {
    "tags/" + tag
  }

  /**
   * The errors a call site swallows as "already absent": both release calls a 404 Not
   * Found (section 15.5.5 of RFC 9110), the tag call a 422 Unprocessable Content (section
   * 15.5.21 of RFC 9110); each is recognised by its status or by its message.
   */
  predicate Suppressed(call: Call, f: Failure)
    ensures Suppressed(call, f) <==>
      if call.DeleteRef? then f.status == 422 || f.message == "Reference does not exist"
      else f.status == 404 || f.message == "Not Found"
  {
    match call
    case GetReleaseByTag(_, _) => f.status == 404 || f.message == "Not Found"
    case DeleteRelease(_, _) => f.status == 404 || f.message == "Not Found"
    case DeleteRef(_, _) => f.status == 422 || f.message == "Reference does not exist"
  }

  /** The two call-site rules differ: neither swallows what only the other one does. */
  lemma SuppressionPerSite(target: RepoId, tag: string, id: int)
    ensures Suppressed(GetReleaseByTag(target, tag), Failure(404, "Not Found"))
    ensures Suppressed(DeleteRelease(target, id), Failure(404, "Not Found"))
    ensures !Suppressed(DeleteRef(target, "tags/" + tag), Failure(404, "Not Found"))
    ensures Suppressed(DeleteRef(target, "tags/" + tag), Failure(404, "Reference does not exist"))
    ensures Suppressed(DeleteRef(target, "tags/" + tag), Failure(422, "Unprocessable Entity"))
    ensures !Suppressed(GetReleaseByTag(target, tag), Failure(422, "Reference does not exist"))
    ensures !Suppressed(DeleteRelease(target, id), Failure(422, "Reference does not exist"))
    ensures !Suppressed(DeleteRelease(target, id), Failure(500, "Server Error"))
  {
  }

  /** The error, if any, the platform answers the call with. */
  function ErrorOf(client: Client, call: Call): Option<Failure> {
    match call
    case GetReleaseByTag(target, tag) =>
      (match client.getReleaseByTag(target, tag) case Returned(_) => None case Threw(f) => Some(f))
    case DeleteRelease(target, id) =>
      (match client.deleteRelease(target, id) case Returned(_) => None case Threw(f) => Some(f))
    case DeleteRef(target, ref) =>
      (match client.deleteRef(target, ref) case Returned(_) => None case Threw(f) => Some(f))
  }

  /** The call fails with an error its call site does not swallow, which ends the run. */
  predicate Fatal(client: Client, call: Call) {
    ErrorOf(client, call).Some? && !Suppressed(call, ErrorOf(client, call).value)
  }

  /** The call fails with an error its call site reads as "already absent". */
  predicate Absent(client: Client, call: Call) {
    ErrorOf(client, call).Some? && Suppressed(call, ErrorOf(client, call).value)
  }
}
