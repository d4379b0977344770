# Delete tag and release action — Dafny model

The action deletes one tag of a repository on the hosting platform and/or the
release attached to it. It is meant to run as one step of a CI pipeline. This
project models its `run()` entry point and the `isYes` helper from
`src/main.ts`. It proves what the action promises:

- **Input resolution** (`Inputs`, `Text`).
  - The token check comes first, then the tag check.
  - The two deletion flags are resolved next. An empty input means yes; any other
    input must be exactly `true`, `yes` or `1`.
  - Deleting the tag forces deleting the release.
  - A run with neither deletion is rejected.
  - The optional `owner/repo` override is split on `/` and must give two pieces that
    are non-blank after trimming.
  - `Text` models the two JavaScript string operations involved, `split` and `trim`.
    Both are proved against independent characterisations: `Join` undoes `Split` and
    the reverse; `Trim` removes exactly the whitespace prefix and suffix.
- **Deletion orchestration** (`Remote`, `Deletion`).
  - The three platform endpoints (`getReleaseByTag`, `deleteRelease`, `deleteRef`) are
    an oracle, the `Client` datatype. It answers each call with a value or with an
    error that carries a status and a message.
  - A run yields the trace of calls it made and an outcome.
  - `Plan` is the list of calls a request leads to. `UntilFatal` cuts that list after
    the first call whose error its call site does not swallow. The imperative
    `Run`, `ReadConfiguration` and `DeleteReleaseAndTag` follow the source statement by
    statement, with the same mutable locals, and are proved equal to that specification.
  - The release call sites swallow 404 Not Found (section 15.5.5 of RFC 9110), matched
    by status or by the message `Not Found`.
  - The tag call site swallows 422 Unprocessable Content (section 15.5.21 of RFC 9110),
    matched by status or by the message `Reference does not exist`.
- **Idempotence** (`Platform`). The platform is modelled as a state of releases and
  references. It answers a missing release with 404 and a missing reference with 422.
  Against it a run never fails. A second run then finds everything already absent and
  also succeeds.

Two consequences of the code are worth stating. Since `delete_tag` forces
`delete_release`, every configuration that passes the checks deletes the release, so
the release lookup is always the first remote call. The "no action" error arises only
when both flag inputs are non-empty and not affirmative.

Two details of the code a reader might not expect:

- `isYes` is case-sensitive and accepts only `true`, `yes` and `1`. `TRUE`, `Yes`, `y`
  and `Y` resolve to false. Its second comparison with `1` is redundant.
- The tag deletion swallows only 422 / `Reference does not exist`. A 404 `Not Found`
  from `deleteRef` ends the run.

## Model

| member | source | states |
|---|---|---|
| Text.TrimStart | src/main.ts:42-43 | the result is the suffix of the input after its maximal whitespace prefix; it is empty or starts with a non-whitespace character |
| Text.TrimEnd | src/main.ts:42-43 | the result is the prefix of the input before its maximal whitespace suffix; it is empty or ends with a non-whitespace character |
| Text.Trim | src/main.ts:42-44 | `trim` returns the slice of the input between a whitespace prefix and a whitespace suffix; it is empty exactly when the input is all whitespace, and otherwise starts and ends with non-whitespace |
| Text.Split | src/main.ts:38-39 | `split('/')` yields one more piece than there are separators, no piece contains the separator, and joining the pieces with the separator gives back the input |
| Text.SplitJoin | src/main.ts:38-39 | splitting the join of separator-free pieces gives back exactly those pieces (the other round trip) |
| Inputs.IsYes | src/main.ts:119-121 | a flag text is affirmative exactly when it is one of `true`, `yes`, `1` |
| Inputs.IsYesIsExact | src/main.ts:119-121 | the comparison is exact: `TRUE`, `True`, `Yes`, `YES`, `y`, `Y`, `false`, `0` and the empty text are not affirmative |
| Inputs.ResolveFlag | src/main.ts:21-25 | an empty flag input resolves to true; a non-empty one resolves to true exactly when it is affirmative |
| Inputs.ParseRepoOverride | src/main.ts:35-47 | an empty override keeps the context repository; an override without exactly one `/` is rejected with the invalid-repo message; an accepted override gives a non-blank, `/`-free, trimmed owner and repo |
| Inputs.ParseRepoPair | src/main.ts:37-46 | an override `owner/repo` with `/`-free pieces is accepted exactly when both pieces are non-blank after trimming, and then yields the trimmed pieces |
| Inputs.OneSlashIsPair | src/main.ts:38-39 | an override with exactly one `/` splits into two `/`-free pieces whose join is the override, so ParseRepoPair covers every such override |
| Inputs.Resolve | src/main.ts:9-47 | the configuration errors and their order: missing token, then empty tag, then no action (both resolved flags false), then invalid repo; on success the tag is the input tag, the target is the parsed override, `deleteTag` is the resolved flag, and `deleteTag` implies `deleteRelease`, which always holds |
| Remote.Suppressed | src/main.ts:66-102 | both release call sites swallow an error exactly when its status is 404 or its message is `Not Found`; the reference call site exactly when its status is 422 or its message is `Reference does not exist`; Deletion.DeleteReleaseStep and Deletion.DeleteTagStep, written with the code's literal tests, are proved equal to the cut plan and verdict that use this predicate |
| Remote.SuppressionPerSite | src/main.ts:66-102 | the two rules differ: a 404 `Not Found` is swallowed by the release calls and not by the reference call, and a 422 is swallowed by the reference call and not by the release calls |
| Deletion.PlanProperties | src/main.ts:52-104 | the planned calls come in the order lookup, release deletion, tag deletion, all on the target; the lookup is planned exactly when releases are deleted; a release deletion is planned exactly when the lookup returned an id above 0, and with that id; the deletion of `tags/<tag>` is planned exactly when the tag is deleted |
| Deletion.UntilFatal | src/main.ts:58-104 | the calls made are a prefix of the plan; no call before the last one is fatal; the run stops short of the plan only because its last call is fatal |
| Deletion.AbortSemantics | src/main.ts:58-116 | a run fails exactly when some call made is fatal; that call is then the last one, and the failure message is its error's message |
| Deletion.CallOrder | src/main.ts:52-104 | the calls made keep the order lookup, release deletion, tag deletion, with each at most once and all on the target; with release deletion on, the lookup is the first call |
| Deletion.ReleaseDeletion | src/main.ts:54-86 | a release is deleted exactly when the lookup returned an id above 0, and the deleted release is the one with that id |
| Deletion.TagDeletion | src/main.ts:89-104 | the tag reference is deleted exactly when tag deletion is on and no call of the release step was fatal, and the reference deleted is `tags/<tag>` |
| Deletion.ReleaseStepUncut | src/main.ts:58-86 | the release block is never cut short by its own errors: the release deletion is attempted only after a lookup that returned, so the block's calls are always all its planned calls |
| Deletion.FatalLookupAborts | src/main.ts:58-70 | a lookup error that is not "not found" makes the lookup the only call, and the run fails with that error's message |
| Deletion.AlreadyAbsentSucceeds | src/main.ts:58-104 | when the lookup answers "not found" and the tag deletion "reference does not exist", the run makes only those calls and succeeds |
| Deletion.Execute | src/main.ts:6-116 | a configuration error is reported with no remote call; otherwise the lookup is the first call, calls keep their order, no call before the last is fatal, the run succeeds exactly when no call made is fatal, and a failure carries the last call's error message |
| Deletion.ReadConfiguration | src/main.ts:9-47 | the statement-by-statement configuration checks, with the release flag and owner/repo overwritten in place, compute exactly Resolve |
| Deletion.DeleteReleaseAndTag | src/main.ts:52-104 | the release block followed, unless it ended the run, by the tag block records exactly the calls of the plan up to the first fatal one and ends with the verdict on them |
| Deletion.DeleteReleaseStep | src/main.ts:53-87 | the release block, with the release id starting at 0 and the lookup's "not found" leaving it there, records exactly the release calls up to the first fatal one, with their verdict |
| Deletion.DeleteTagStep | src/main.ts:90-104 | the tag block records exactly the deletion of `tags/<tag>` when the tag is deleted, with its verdict |
| Deletion.Run | src/main.ts:6-117 | the whole entry point yields exactly the trace and outcome that Execute specifies |
| Platform.PlatformRunSucceeds | src/main.ts:58-104 | against a platform that answers missing releases with 404 and missing references with 422, every planned call is made and the run succeeds |
| Platform.RerunSucceeds | src/main.ts:52-104 | on such a platform with positive release ids, a run removes the tag's release (and its reference when the tag is deleted); a second run then makes only the lookup and the reference deletion, each answered "already absent", and succeeds |

## Left out

- Reading inputs (`core.getInput`): inputs are taken as the strings it would return,
  with the empty string for an unset input. Its trimming of input values is not
  modelled. Its own error for the required `tag` input (`required: true`, line 15) is
  not modelled either: an empty tag is reported with the message of the explicit check
  at line 16.
- The environment variable `GITHUB_TOKEN` and the context repository are parameters
  (`Inputs.RawInputs.envToken`, `context`).
- Building the client (`github.getOctokit`, line 50) and the HTTP calls themselves:
  each endpoint is an oracle value that answers a call with a value or an error
  carrying a status and a message.
- Logging (`core.info`, lines 57 and 91): no effect on the outcome.
- Reporting (`core.setFailed`, lines 106-116): the outcome carries the message of the
  error. All errors in the model are `Error` objects (the configuration errors and the
  client's request errors), so the `toString()` and `'unknown error'` branches for
  non-`Error` throwables are not modelled.
- Promises and `await`: the calls run one after another, so the model is straight-line
  code.
- `Text.Trim` uses the ECMAScript whitespace set written out, with Unicode category Zs
  as of current Unicode versions. A later change to that category is not tracked.
- The behaviour of the platform in the `Platform` module (404 and 422 answers,
  positive release ids) is an assumption, not part of the action's code.
