/**
 * The deletion orchestration of the action: resolve the configuration, then delete the
 * release of the tag (lookup, then delete if one was found), then the tag reference,
 * swallowing "already absent" errors per call site and stopping at the first other error.
 */
module Deletion {
  import opened Wrappers
  import opened Text
  import opened Inputs
  import opened Remote

  /** How the run ends: cleanly, or with the one message it reports as failure. */
  datatype Outcome = Success | Failed(message: string)

  /** The remote calls a run makes, in order, and how it ends. */
  datatype Execution = Execution(calls: seq<Call>, outcome: Outcome)

  /** The position of a call kind in the fixed order lookup, release deletion, tag deletion. */
  function Step(call: Call): nat {
    match call
    case GetReleaseByTag(_, _) => 0
    case DeleteRelease(_, _) => 1
    case DeleteRef(_, _) => 2
  }

  /** The release the lookup reports, if it reports one with a positive id. */
  predicate FoundRelease(req: Request, client: Client) {
    client.getReleaseByTag(req.target, req.tag).Returned? && client.getReleaseByTag(req.target, req.tag).value > 0
  }

  /**
   * The calls a request leads to when no error ends the run early: the lookup and, if it
   * found a release, its deletion (when releases are to be deleted); then the deletion of
   * the tag reference (when the tag is to be deleted).
   */
  function Plan(req: Request, client: Client): seq<Call> {
    ReleasePlan(req, client) + TagPlan(req)
  }

  /** The calls of the release step: the lookup and, if it found a release, its deletion. */
  function ReleasePlan(req: Request, client: Client): seq<Call> {
    var lookup := GetReleaseByTag(req.target, req.tag);
    if !req.deleteRelease then []
    else if FoundRelease(req, client) then
      [lookup, DeleteRelease(req.target, client.getReleaseByTag(req.target, req.tag).value)]
    else [lookup]
  }

  /** The call of the tag step: the deletion of the tag reference. */
  function TagPlan(req: Request): seq<Call> {
    if req.deleteTag then [DeleteRef(req.target, TagRef(req.tag))] else []
  }

  /** The plan follows the fixed order and holds exactly the calls the request and the lookup call for. */
  lemma PlanProperties(req: Request, client: Client)
    ensures var p := Plan(req, client); forall i, j :: 0 <= i < j < |p| ==> Step(p[i]) < Step(p[j])
    ensures forall c :: c in Plan(req, client) ==> c.target == req.target
    ensures GetReleaseByTag(req.target, req.tag) in Plan(req, client) <==> req.deleteRelease
    ensures forall c :: c in Plan(req, client) && c.GetReleaseByTag? ==> c.tag == req.tag
    ensures forall c :: c in Plan(req, client) && c.DeleteRelease? ==>
      req.deleteRelease && FoundRelease(req, client)
      && c.releaseId == client.getReleaseByTag(req.target, req.tag).value
    ensures req.deleteRelease && FoundRelease(req, client) ==>
      DeleteRelease(req.target, client.getReleaseByTag(req.target, req.tag).value) in Plan(req, client)
    ensures DeleteRef(req.target, TagRef(req.tag)) in Plan(req, client) <==> req.deleteTag
    ensures forall c :: c in Plan(req, client) && c.DeleteRef? ==> c.ref == TagRef(req.tag)
  {
  }

  /**
   * The calls actually made from a plan: all of them up to and including the first whose
   * error is not swallowed. No call before the last one is fatal, and the run stopped
   * early only because the last one is.
   */
  function UntilFatal(client: Client, plan: seq<Call>): (calls: seq<Call>)
    ensures |calls| <= |plan| && calls == plan[..|calls|]
    ensures forall i :: 0 <= i < |calls| - 1 ==> !Fatal(client, calls[i])
    ensures calls == plan || (calls != [] && Fatal(client, calls[|calls| - 1]))
    ensures plan != [] ==> calls != []
  {
    if plan == [] then []
    else if Fatal(client, plan[0]) then [plan[0]]
    else [plan[0]] + UntilFatal(client, plan[1..])
  }

  /** A run fails exactly when its last call hit an error that is not swallowed, with that error's message. */
  function Verdict(client: Client, calls: seq<Call>): Outcome {
    if calls != [] && Fatal(client, calls[|calls| - 1]) then
      Failed(ErrorOf(client, calls[|calls| - 1]).value.message)
    else Success
  }

  /** The calls a request leads to: its plan, cut after the first fatal call. */
  function Calls(req: Request, client: Client): seq<Call> {
    UntilFatal(client, Plan(req, client))
  }

  /** The run stops at the first error that is not swallowed and reports its message. */
  lemma AbortSemantics(req: Request, client: Client)
    ensures var calls := Calls(req, client);
      (forall i :: 0 <= i < |calls| - 1 ==> !Fatal(client, calls[i]))
      && (Verdict(client, calls).Success? <==> forall i :: 0 <= i < |calls| ==> !Fatal(client, calls[i]))
      && (Verdict(client, calls).Failed? ==>
            calls != [] && Fatal(client, calls[|calls| - 1])
            && Verdict(client, calls).message == ErrorOf(client, calls[|calls| - 1]).value.message)
  {
  }

  /** Lookup, then release deletion, then tag deletion, each at most once, all on the target. */
  lemma CallOrder(req: Request, client: Client)
    ensures var calls := Calls(req, client);
      (forall i, j :: 0 <= i < j < |calls| ==> Step(calls[i]) < Step(calls[j]))
      && (forall c :: c in calls ==> c.target == req.target)
      && (req.deleteRelease ==> calls != [] && calls[0] == GetReleaseByTag(req.target, req.tag))
      && (!req.deleteRelease ==> forall c :: c in calls ==> c.DeleteRef?)
  {
    PlanProperties(req, client);
  }

  /** A release is deleted exactly when the lookup found one, and it is that release. */
  lemma ReleaseDeletion(req: Request, client: Client)
    ensures var calls := Calls(req, client);
      ((exists c :: c in calls && c.DeleteRelease?) <==> req.deleteRelease && FoundRelease(req, client))
      && (forall c :: c in calls && c.DeleteRelease? ==>
            c.releaseId == client.getReleaseByTag(req.target, req.tag).value)
  {
    PlanProperties(req, client);
  }

  /** The tag is deleted exactly when asked for and no release call was fatal. */
  lemma TagDeletion(req: Request, client: Client)
    ensures var calls := Calls(req, client);
      ((exists c :: c in calls && c.DeleteRef?) <==>
         req.deleteTag && forall c :: c in calls && Step(c) < 2 ==> !Fatal(client, c))
      && (forall c :: c in calls && c.DeleteRef? ==> c.ref == TagRef(req.tag))
  {
    if NoFatal(client, ReleasePlan(req, client)) {
      TagStepReached(req, client);
    } else {
      TagStepSkipped(req, client);
    }
  }

  /** The release step plans only lookups and release deletions, the tag step only `tags/<tag>`. */
  lemma StepPlans(req: Request, client: Client)
    ensures forall c :: c in ReleasePlan(req, client) ==> Step(c) < 2
    ensures forall c :: c in TagPlan(req) ==> c == DeleteRef(req.target, TagRef(req.tag))
  {
  }

  /** When no call of the release step is fatal, the tag step runs. */
  lemma TagStepReached(req: Request, client: Client)
    requires NoFatal(client, ReleasePlan(req, client))
    ensures (exists c :: c in Calls(req, client) && c.DeleteRef?) <==> req.deleteTag
    ensures forall c :: c in Calls(req, client) && Step(c) < 2 ==> !Fatal(client, c)
    ensures forall c :: c in Calls(req, client) && c.DeleteRef? ==> c.ref == TagRef(req.tag)
  {
    var releasePlan, tagPlan := ReleasePlan(req, client), TagPlan(req);
    assert Calls(req, client) == releasePlan + tagPlan by {
      UntilFatalAppendClean(client, releasePlan, tagPlan);
      assert UntilFatal(client, tagPlan) == tagPlan;
    }
    NoFatalMembers(client, releasePlan);
    StepPlans(req, client);
    if req.deleteTag {
      assert tagPlan[0] in releasePlan + tagPlan;
    }
  }

  /**
   * The release step is never cut short: its deletion is planned only after a lookup that
   * returned a release, and such a lookup is not fatal.
   */
  lemma ReleaseStepUncut(req: Request, client: Client)
    ensures UntilFatal(client, ReleasePlan(req, client)) == ReleasePlan(req, client)
  {
    var releasePlan := ReleasePlan(req, client);
    if |releasePlan| == 2 {
      assert !Fatal(client, releasePlan[0]);
      assert releasePlan[1..] == [releasePlan[1]];
    }
  }

  /** When some call of the release step is fatal, the run ends on it and the tag step never runs. */
  lemma TagStepSkipped(req: Request, client: Client)
    requires !NoFatal(client, ReleasePlan(req, client))
    ensures forall c :: c in Calls(req, client) ==> Step(c) < 2
    ensures exists c :: c in Calls(req, client) && Step(c) < 2 && Fatal(client, c)
  {
    var releasePlan := ReleasePlan(req, client);
    UntilFatalAppendFatal(client, releasePlan, TagPlan(req));
    ReleaseStepUncut(req, client);
    StepPlans(req, client);
    assert Calls(req, client) == releasePlan;
    var k :| 0 <= k < |releasePlan| && Fatal(client, releasePlan[k]);
    assert releasePlan[k] in releasePlan;
  }

  /**
   * A lookup error other than "not found" ends the run at once with that error: neither
   * the release nor the tag is deleted.
   */
  lemma FatalLookupAborts(req: Request, client: Client)
    requires req.deleteRelease
    requires client.getReleaseByTag(req.target, req.tag).Threw?
    requires !Suppressed(GetReleaseByTag(req.target, req.tag), client.getReleaseByTag(req.target, req.tag).failure)
    ensures Calls(req, client) == [GetReleaseByTag(req.target, req.tag)]
    ensures Verdict(client, Calls(req, client))
      == Failed(client.getReleaseByTag(req.target, req.tag).failure.message)
  {
  }

  /**
   * The effect of one run of the action on the given inputs against the given platform:
   * a configuration error is reported before any remote call; otherwise the release
   * lookup comes first, the calls keep their fixed order, and the run succeeds exactly
   * when no call hit an error its call site does not swallow.
   */
  function Execute(inputs: RawInputs, context: RepoId, client: Client): (x: Execution)
    ensures Resolve(inputs, context).Err? ==>
      x.calls == [] && x.outcome == Failed(Resolve(inputs, context).message)
    ensures Resolve(inputs, context).Ok? ==>
      var req := Resolve(inputs, context).value;
      x.calls != [] && x.calls[0] == GetReleaseByTag(req.target, req.tag)
    ensures forall i, j :: 0 <= i < j < |x.calls| ==> Step(x.calls[i]) < Step(x.calls[j])
    ensures forall i :: 0 <= i < |x.calls| - 1 ==> !Fatal(client, x.calls[i])
    ensures x.outcome.Success? <==>
      Resolve(inputs, context).Ok? && forall i :: 0 <= i < |x.calls| ==> !Fatal(client, x.calls[i])
    ensures x.outcome.Failed? && x.calls != [] ==>
      x.outcome.message == ErrorOf(client, x.calls[|x.calls| - 1]).value.message
  {
    match Resolve(inputs, context)
    case Err(message) => Execution([], Failed(message))
    case Ok(req) =>
      AbortSemantics(req, client);
      CallOrder(req, client);
      var calls := Calls(req, client);
      Execution(calls, Verdict(client, calls))
  }

  /**
   * Re-running is harmless: when the release lookup and the tag deletion both answer
   * "already absent", the run makes only those calls and succeeds.
   */
  lemma AlreadyAbsentSucceeds(req: Request, client: Client)
    requires req.deleteRelease ==> Absent(client, GetReleaseByTag(req.target, req.tag))
    requires req.deleteTag ==> Absent(client, DeleteRef(req.target, TagRef(req.tag)))
    ensures Calls(req, client) ==
      (if req.deleteRelease then [GetReleaseByTag(req.target, req.tag)] else [])
      + (if req.deleteTag then [DeleteRef(req.target, TagRef(req.tag))] else [])
    ensures Verdict(client, Calls(req, client)) == Success
  {
  }

  /** No call of the sequence is fatal. */
  predicate NoFatal(client: Client, calls: seq<Call>) {
    forall i :: 0 <= i < |calls| ==> !Fatal(client, calls[i])
  }

  /** No member of a sequence without fatal calls is fatal. */
  lemma NoFatalMembers(client: Client, calls: seq<Call>)
    requires NoFatal(client, calls)
    ensures forall c :: c in calls ==> !Fatal(client, c)
  {
    forall c | c in calls ensures !Fatal(client, c) {
      var i :| 0 <= i < |calls| && calls[i] == c;
    }
  }

  /** A plan is carried out in full and succeeds exactly when none of its calls is fatal. */
  lemma VerdictOfCut(client: Client, plan: seq<Call>)
    ensures Verdict(client, UntilFatal(client, plan)).Success? <==> NoFatal(client, plan)
    ensures NoFatal(client, plan) ==> UntilFatal(client, plan) == plan
  {
    var calls := UntilFatal(client, plan);
    if calls != plan {
      assert calls[|calls| - 1] == plan[|calls| - 1];
    } else if plan != [] {
      assert NoFatal(client, plan) <==> !Fatal(client, plan[|plan| - 1]);
    }
  }

  /** A sequence headed by `c` has no fatal call exactly when `c` is not fatal and the rest has none. */
  lemma NoFatalCons(client: Client, c: Call, rest: seq<Call>)
    ensures NoFatal(client, [c] + rest) <==> !Fatal(client, c) && NoFatal(client, rest)
  {
    var calls := [c] + rest;
    if !Fatal(client, c) && NoFatal(client, rest) {
      forall i | 0 <= i < |calls| ensures !Fatal(client, calls[i]) {
        if i > 0 { assert calls[i] == rest[i - 1]; }
      }
    }
    if NoFatal(client, calls) {
      assert calls[0] == c;
      forall i | 0 <= i < |rest| ensures !Fatal(client, rest[i]) {
        assert rest[i] == calls[i + 1];
      }
    }
  }

  /**
   * Cutting two steps run one after the other: when no call of the first step is fatal,
   * the whole first step is made and the second is cut on its own.
   */
  lemma {:induction false} UntilFatalAppendClean(client: Client, first: seq<Call>, second: seq<Call>)
    requires NoFatal(client, first)
    ensures UntilFatal(client, first + second) == first + UntilFatal(client, second)
    decreases |first|
  {
    if first == [] {
      assert first + second == second;
    } else {
      var c, rest := first[0], first[1..];
      assert first == [c] + rest;
      NoFatalCons(client, c, rest);
      var both := first + second;
      assert both[0] == c && both[1..] == rest + second;
      UntilFatalAppendClean(client, rest, second);
      assert UntilFatal(client, both) == [c] + UntilFatal(client, rest + second);
      var cut := UntilFatal(client, second);
      assert [c] + (rest + cut) == ([c] + rest) + cut;
    }
  }

  /** ... and when some call of the first step is fatal, the second step is never reached. */
  lemma {:induction false} UntilFatalAppendFatal(client: Client, first: seq<Call>, second: seq<Call>)
    requires !NoFatal(client, first)
    ensures UntilFatal(client, first + second) == UntilFatal(client, first)
    decreases |first|
  {
    var c, rest := first[0], first[1..];
    assert first == [c] + rest;
    NoFatalCons(client, c, rest);
    var both := first + second;
    assert both[0] == c && both[1..] == rest + second;
    if !Fatal(client, c) {
      UntilFatalAppendFatal(client, rest, second);
      assert UntilFatal(client, both) == [c] + UntilFatal(client, rest + second);
      assert UntilFatal(client, first) == [c] + UntilFatal(client, rest);
    }
  }

  /** Appending calls to a run that had no fatal call leaves the verdict to the appended calls. */
  lemma VerdictAppend(client: Client, first: seq<Call>, second: seq<Call>)
    requires second != []
    ensures Verdict(client, first + second) == Verdict(client, second)
  {
    assert (first + second)[|first + second| - 1] == second[|second| - 1];
  }

  /**
   * The configuration part of `run()`: the checks in the action's order, with the flags
   * and the target repository held in variables that later steps overwrite.
   */
  method ReadConfiguration(inputs: RawInputs, context: RepoId) returns (r: Result<Request>)
    ensures r == Resolve(inputs, context)
  {
    var token := if inputs.githubToken != "" then Some(inputs.githubToken) else inputs.envToken;
    if token.None? || token.value == "" {
      assert !HasToken(inputs);
      return Err(TokenMissingError);
    }
    assert HasToken(inputs);

    var tagName := inputs.tag;
    if tagName == "" {
      return Err(TagMissingError);
    }

    var deleteTag := inputs.deleteTagInput == "" || IsYes(inputs.deleteTagInput);
    var deleteRelease := inputs.deleteReleaseInput == "" || IsYes(inputs.deleteReleaseInput);
    assert deleteTag == ResolveFlag(inputs.deleteTagInput);
    assert deleteRelease == ResolveFlag(inputs.deleteReleaseInput);
    if deleteTag {
      deleteRelease := true;
    }
    if !(deleteRelease || deleteTag) {
      return Err(NoActionError);
    }

    ghost var parsed := ParseRepoOverride(inputs.repo, context);
    var owner, repo := context.owner, context.repo;
    if inputs.repo != "" {
      var items := Split(inputs.repo, '/');
      if |items| != 2 {
        assert parsed == Err(InvalidRepoError);
        return Err(InvalidRepoError);
      }
      owner := Trim(items[0]);
      repo := Trim(items[1]);
      if |owner| == 0 || |repo| == 0 {
        assert parsed == Err(InvalidRepoError);
        return Err(InvalidRepoError);
      }
      assert parsed == Ok(RepoId(owner, repo));
    } else {
      assert parsed == Ok(RepoId(owner, repo));
    }
    return Ok(Request(RepoId(owner, repo), tagName, deleteTag, deleteRelease));
  }

  /**
   * The remote part of `run()`: the release step, then, unless it ended the run, the tag
   * step; the calls of both are recorded in order.
   */
  method DeleteReleaseAndTag(req: Request, client: Client) returns (calls: seq<Call>, outcome: Outcome)
    ensures calls == Calls(req, client) && outcome == Verdict(client, calls)
  {
    if NoFatal(client, ReleasePlan(req, client)) {
      UntilFatalAppendClean(client, ReleasePlan(req, client), TagPlan(req));
    } else {
      UntilFatalAppendFatal(client, ReleasePlan(req, client), TagPlan(req));
    }
    VerdictOfCut(client, ReleasePlan(req, client));
    calls, outcome := DeleteReleaseStep(req, client);
    if outcome.Failed? {
      return;
    }
    var tagCalls;
    tagCalls, outcome := DeleteTagStep(req, client);
    if tagCalls != [] {
      VerdictAppend(client, calls, tagCalls);
    } else {
      assert calls + tagCalls == calls;
    }
    calls := calls + tagCalls;
  }

  /**
   * The release block of `run()`: look the release up by tag (a "not found" leaves the
   * release id at 0), then delete it if its id is positive; an error that is not "not
   * found" ends the run.
   */
  method DeleteReleaseStep(req: Request, client: Client) returns (calls: seq<Call>, outcome: Outcome)
    ensures calls == UntilFatal(client, ReleasePlan(req, client)) && outcome == Verdict(client, calls)
  {
    var target, tagName := req.target, req.tag;
    calls := [];
    outcome := Success;
    if req.deleteRelease {
      var releaseId := 0;
      calls := calls + [GetReleaseByTag(target, tagName)];
      var lookup := client.getReleaseByTag(target, tagName);
      match lookup {
        case Returned(id) =>
          releaseId := id;
        case Threw(err) =>
          assert ErrorOf(client, GetReleaseByTag(target, tagName)) == Some(err);
          if err.status != 404 && err.message != "Not Found" {
            outcome := Failed(err.message);
            return;
          }
      }
      assert !Fatal(client, GetReleaseByTag(target, tagName));

      if releaseId > 0 {
        calls := calls + [DeleteRelease(target, releaseId)];
        var deleted := client.deleteRelease(target, releaseId);
        assert deleted.Threw? ==> ErrorOf(client, DeleteRelease(target, releaseId)) == Some(deleted.failure);
        if deleted.Threw? && deleted.failure.status != 404 && deleted.failure.message != "Not Found" {
          outcome := Failed(deleted.failure.message);
        }
      }
    }
  }

  /**
   * The tag block of `run()`: delete the reference `tags/<tag>`; an error that is not
   * "reference does not exist" ends the run.
   */
  method DeleteTagStep(req: Request, client: Client) returns (calls: seq<Call>, outcome: Outcome)
    ensures calls == UntilFatal(client, TagPlan(req)) && outcome == Verdict(client, calls)
  {
    var target, tagName := req.target, req.tag;
    calls := [];
    outcome := Success;
    if req.deleteTag {
      calls := calls + [DeleteRef(target, "tags/" + tagName)];
      var removed := client.deleteRef(target, "tags/" + tagName);
      assert removed.Threw? ==> ErrorOf(client, DeleteRef(target, "tags/" + tagName)) == Some(removed.failure);
      if removed.Threw? && removed.failure.status != 422 && removed.failure.message != "Reference does not exist" {
        outcome := Failed(removed.failure.message);
      }
    }
  }

  /**
   * `run()`: configuration errors end the run before any remote call; otherwise the
   * deletions run and their outcome is the run's.
   */
  method Run(inputs: RawInputs, context: RepoId, client: Client) returns (calls: seq<Call>, outcome: Outcome)
    ensures Execution(calls, outcome) == Execute(inputs, context, client)
  {
    var config := ReadConfiguration(inputs, context);
    match config {
      case Err(message) =>
        calls, outcome := [], Failed(message);
      case Ok(req) =>
        calls, outcome := DeleteReleaseAndTag(req, client);
    }
  }
}
