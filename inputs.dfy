/**
 * Input resolution of the delete-tag action: the token check, the tag check, the two
 * deletion flags and the optional `owner/repo` override, in the order the action
 * applies them before it contacts the platform.
 */
module Inputs {
  import opened Wrappers
  import opened Text
  import opened Remote

  /**
   * The configuration as the action reads it: the `github-token`, `tag`, `delete_tag`,
   * `delete_release` and `repo` inputs (the empty string when unset) and the
   * GITHUB_TOKEN environment variable (None when undefined).
   */
  datatype RawInputs = RawInputs(
    githubToken: string,
    envToken: Option<string>,
    tag: string,
    deleteTagInput: string,
    deleteReleaseInput: string,
    repo: string)

  /** What a valid configuration asks for: which repository, which tag, which deletions. */
  datatype Request = Request(target: RepoId, tag: string, deleteTag: bool, deleteRelease: bool)

  const TokenMissingError := "no `github-token` input nor GITHUB_TOKEN environment variable not found. pass `GITHUB_TOKEN` as env"
  const TagMissingError := "no `tag` input"
  const NoActionError := "no action to execute"
  const InvalidRepoError := "the specified `repo` is invalid"

  /** The only spellings a non-empty flag is read as affirmative; the comparison is exact. */
  const Affirmative: set<string> := {"true", "yes", "1"}

  /** `isYes`: the flag text is one of the affirmative spellings. */
  function IsYes(input: string): (yes: bool)
    ensures yes <==> input in Affirmative
  {
    input == "true" || input == "yes" || input == "1" || input == "1"
  }

  /** The flags are case-sensitive and know no one-letter form. */
  lemma IsYesIsExact()
    ensures IsYes("true") && IsYes("yes") && IsYes("1")
    ensures !IsYes("TRUE") && !IsYes("True") && !IsYes("Yes") && !IsYes("YES")
    ensures !IsYes("y") && !IsYes("Y") && !IsYes("false") && !IsYes("0") && !IsYes("")
  {
  }

  /** A deletion flag: an unset input means yes, otherwise the input must be affirmative. */
  function ResolveFlag(input: string): (on: bool)
    ensures input == "" ==> on
    ensures input != "" ==> (on <==> IsYes(input))
    ensures !on <==> input != "" && input !in Affirmative
  {
    input == "" || IsYes(input)
  }

  /** A token is available: a non-empty input, or else a non-empty environment variable. */
  predicate HasToken(inputs: RawInputs) {
    inputs.githubToken != "" || (inputs.envToken.Some? && inputs.envToken.value != "")
  }

  /**
   * The target repository: the context repository when no override is given, otherwise
   * the two trimmed pieces of the override split at '/'.
   */
  function ParseRepoOverride(ownerRepo: string, context: RepoId): (r: Result<RepoId>)
    ensures ownerRepo == "" ==> r == Ok(context)
    ensures ownerRepo != "" && Occurrences(ownerRepo, '/') != 1 ==> r == Err(InvalidRepoError)
    ensures r.Err? ==> r.message == InvalidRepoError
    ensures r.Ok? && ownerRepo != "" ==>
      r.value.owner != "" && r.value.repo != ""
      && '/' !in r.value.owner && '/' !in r.value.repo
      && r.value.owner == Trim(r.value.owner) && r.value.repo == Trim(r.value.repo)
  {
    if ownerRepo == "" then Ok(context)
    else
      var items := Split(ownerRepo, '/');
      if |items| != 2 then Err(InvalidRepoError)
      else
        var owner := Trim(items[0]);
        var repo := Trim(items[1]);
        if |owner| == 0 || |repo| == 0 then Err(InvalidRepoError)
        else Ok(RepoId(owner, repo))
  }

  /**
   * Every override with exactly one '/' is `owner + "/" + repo` for separator-free
   * pieces, and it is accepted exactly when both pieces are non-blank once trimmed,
   * yielding the trimmed pieces.
   */
  lemma ParseRepoPair(owner: string, repo: string, context: RepoId)
    requires '/' !in owner && '/' !in repo
    ensures ParseRepoOverride(owner + "/" + repo, context)
      == if Trim(owner) != "" && Trim(repo) != "" then Ok(RepoId(Trim(owner), Trim(repo)))
         else Err(InvalidRepoError)
  {
    SplitJoin([owner, repo], '/');
    assert Join([owner, repo], '/') == owner + "/" + repo;
  }

  /** An override with exactly one '/' is the join of its two separator-free pieces. */
  lemma OneSlashIsPair(ownerRepo: string)
    requires Occurrences(ownerRepo, '/') == 1
    ensures var items := Split(ownerRepo, '/');
      |items| == 2 && ownerRepo == items[0] + "/" + items[1]
      && '/' !in items[0] && '/' !in items[1]
  {
  }

  /**
   * The configuration checks of the action, in its order: token, tag, flags (with
   * `delete_tag` forcing `delete_release`), then the repository override.
   */
  function Resolve(inputs: RawInputs, context: RepoId): (r: Result<Request>)
    ensures r == Err(TokenMissingError) <==> !HasToken(inputs)
    ensures r == Err(TagMissingError) <==> HasToken(inputs) && inputs.tag == ""
    ensures r == Err(NoActionError) <==>
      HasToken(inputs) && inputs.tag != ""
      && !ResolveFlag(inputs.deleteTagInput) && !ResolveFlag(inputs.deleteReleaseInput)
    ensures r == Err(InvalidRepoError) <==>
      HasToken(inputs) && inputs.tag != ""
      && (ResolveFlag(inputs.deleteTagInput) || ResolveFlag(inputs.deleteReleaseInput))
      && ParseRepoOverride(inputs.repo, context).Err?
    ensures r.Err? ==> r.message in {TokenMissingError, TagMissingError, NoActionError, InvalidRepoError}
    ensures r.Ok? ==>
      r.value.tag == inputs.tag && inputs.tag != ""
      && r.value.target == ParseRepoOverride(inputs.repo, context).value
      && r.value.deleteTag == ResolveFlag(inputs.deleteTagInput)
      && (r.value.deleteTag ==> r.value.deleteRelease)
      && r.value.deleteRelease
  {
    if !HasToken(inputs) then Err(TokenMissingError)
    else if inputs.tag == "" then Err(TagMissingError)
    else
      var deleteTag := ResolveFlag(inputs.deleteTagInput);
      var deleteRelease := deleteTag || ResolveFlag(inputs.deleteReleaseInput);
      if !(deleteRelease || deleteTag) then Err(NoActionError)
      else match ParseRepoOverride(inputs.repo, context)
        case Err(e) => Err(e)
        case Ok(target) => Ok(Request(target, inputs.tag, deleteTag, deleteRelease))
  }
}
