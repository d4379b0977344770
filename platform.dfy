/**
 * A platform that keeps releases and tag references and answers the three endpoints the
 * way the action expects (a missing release is a 404, a missing reference a 422), used
 * to state what the suppression rules are for: a run never fails on such a platform, it
 * leaves the tag's release and reference gone, and running it again succeeds with only
 * "already absent" answers.
 */
module Platform {
  import opened Inputs
  import opened Remote
  import opened Deletion

  /** Releases by repository and tag (with their ids), references by repository and name. */
  datatype State = State(releases: map<(RepoId, string), int>, refs: set<(RepoId, string)>)

  const NotFound := Failure(404, "Not Found")
  const RefMissing := Failure(422, "Reference does not exist")

  /** The answers the platform in state `s` gives. */
  ghost function ClientOf(s: State): Client {
    Client(
      (t: RepoId, tag: string) =>
        if (t, tag) in s.releases then Returned(s.releases[(t, tag)]) else Threw(NotFound),
      (t: RepoId, id: int) =>
        if exists k :: k in s.releases && k.0 == t && s.releases[k] == id then Returned(()) else Threw(NotFound),
      (t: RepoId, ref: string) =>
        if (t, ref) in s.refs then Returned(()) else Threw(RefMissing))
  }

  /** The state after a call: deletions remove what they name, lookups change nothing. */
  function Apply(s: State, call: Call): State {
    match call
    case GetReleaseByTag(_, _) => s
    case DeleteRelease(t, id) =>
      s.(releases := map k | k in s.releases && !(k.0 == t && s.releases[k] == id) :: s.releases[k])
    case DeleteRef(t, ref) => s.(refs := s.refs - {(t, ref)})
  }

  /** The state after a sequence of calls. */
  function After(s: State, calls: seq<Call>): State
    decreases |calls|
  {
    if calls == [] then s else After(Apply(s, calls[0]), calls[1..])
  }

  /** Replaying calls one at a time. */
  lemma AfterCons(s: State, c: Call, rest: seq<Call>)
    ensures After(s, [c] + rest) == After(Apply(s, c), rest)
  {
  }

  /** Release ids on the platform are positive. */
  predicate PositiveIds(s: State) {
    forall k :: k in s.releases ==> s.releases[k] > 0
  }

  /**
   * Against this platform a run never fails: every call is answered with a value or
   * with an error its call site reads as "already absent", so all planned calls are made.
   */
  lemma PlatformRunSucceeds(req: Request, s: State)
    ensures Calls(req, ClientOf(s)) == Plan(req, ClientOf(s))
    ensures Verdict(ClientOf(s), Calls(req, ClientOf(s))) == Success
  {
  }

  /**
   * Running the action twice: the first run removes the tag's release (and its
   * reference when the tag is deleted), and the second run finds both already absent,
   * makes only the lookup and the reference deletion, and succeeds.
   */
  lemma RerunSucceeds(req: Request, s: State)
    requires req.deleteRelease && PositiveIds(s)
    ensures var s' := After(s, Calls(req, ClientOf(s)));
      (req.target, req.tag) !in s'.releases
      && (req.deleteTag ==> (req.target, TagRef(req.tag)) !in s'.refs)
      && Calls(req, ClientOf(s')) ==
           [GetReleaseByTag(req.target, req.tag)]
           + (if req.deleteTag then [DeleteRef(req.target, TagRef(req.tag))] else [])
      && (forall c :: c in Calls(req, ClientOf(s')) ==> Absent(ClientOf(s'), c))
      && Verdict(ClientOf(s'), Calls(req, ClientOf(s'))) == Success
  {
    var t, tag := req.target, req.tag;
    var lookup := GetReleaseByTag(t, tag);
    var unref := DeleteRef(t, TagRef(tag));
    PlatformRunSucceeds(req, s);
    var calls := Calls(req, ClientOf(s));
    var s' := After(s, calls);
    var tagCalls := if req.deleteTag then [unref] else [];
    if (t, tag) in s.releases {
      var unrelease := DeleteRelease(t, s.releases[(t, tag)]);
      assert calls == [lookup] + ([unrelease] + tagCalls);
      AfterCons(s, lookup, [unrelease] + tagCalls);
      AfterCons(s, unrelease, tagCalls);
      assert (t, tag) !in Apply(s, unrelease).releases;
      assert s' == After(Apply(s, unrelease), tagCalls);
      if req.deleteTag {
        AfterCons(Apply(s, unrelease), unref, []);
      }
    } else {
      assert calls == [lookup] + tagCalls;
      AfterCons(s, lookup, tagCalls);
      if req.deleteTag {
        AfterCons(s, unref, []);
      }
    }
    AlreadyAbsentSucceeds(req, ClientOf(s'));
  }
}
