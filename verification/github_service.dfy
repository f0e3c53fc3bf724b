/** The repository listing of services/github.ts: each of the two functions
    fetches the user's repositories and keeps one selection of them, the
    "deployed" ones (with a truthy homepage) or the "undeployed" ones
    (without). The partition lemmas compare the two filters on one listing. */
module GithubService {
  import opened Wrappers
  import opened Seqs
  import opened JsStrings

  /** The fields of a listed repository that the listing and its callers
      read. `homepage` is `null`, absent or a string in the API's JSON;
      `None` stands for both of the first two. */
  datatype Repo = Repo(
    name: string,
    htmlUrl: string,
    homepage: Option<string>,
    archived: bool,
    disabled: bool
  )

  /** The answer to the listing request: a rejected `fetch`, or a response
      with its `ok` flag and its decoded body. */
  datatype ListResponse = Rejected | ListResponse(ok: bool, repos: seq<Repo>)

  /** Why a listing throws: the rejection of `fetch` itself, or the error
      raised for a non-ok response. */
  datatype ListError = NetworkError | NotOkError(message: string)

  const NotOkMessage: string := "Failed to fetch repositories"

  predicate IsOk(response: ListResponse) {
    response.ListResponse? && response.ok
  }

  /** JavaScript truthiness of `repo.homepage`: `null`, absent and `""`
      are all falsy. */
  predicate HasHomepage(repo: Repo) {
    IsTruthy(repo.homepage)
  }

  /** Neither archived nor disabled: the repositories both lists draw from. */
  predicate IsActive(repo: Repo) {
    !repo.archived && !repo.disabled
  }

  /** The predicate of `fetchDeployedProjects`. */
  predicate IsDeployed(repo: Repo) {
    HasHomepage(repo) && IsActive(repo)
  }

  /** The predicate of `fetchUndeployedRepos`. */
  predicate IsUndeployed(repo: Repo) {
    !HasHomepage(repo) && IsActive(repo)
  }

  function Deployed(repos: seq<Repo>): seq<Repo> {
    Filter(repos, IsDeployed)
  }

  function Undeployed(repos: seq<Repo>): seq<Repo> {
    Filter(repos, IsUndeployed)
  }

  /** `fetchDeployedProjects`: a rejected fetch or a non-ok response throws; otherwise every
      returned repository has a non-empty homepage and is live, and every
      such repository of the listing is returned. */
  function FetchDeployedProjects(response: ListResponse): (r: Result<seq<Repo>, ListError>)
    ensures r.Failure? <==> !IsOk(response)
    ensures response == Rejected ==> r == Failure(NetworkError)
    ensures response.ListResponse? && !response.ok ==> r == Failure(NotOkError(NotOkMessage))
    ensures IsOk(response) ==> r == Success(Deployed(response.repos))
    ensures r.Success? ==>
              forall i :: 0 <= i < |r.value| ==>
                r.value[i].homepage.Some? && r.value[i].homepage.value != ""
                && !r.value[i].archived && !r.value[i].disabled
    ensures r.Success? ==> |r.value| <= |response.repos|
  {
    match response
    case Rejected => Failure(NetworkError)
    case ListResponse(ok, repos) =>
      if !ok then Failure(NotOkError(NotOkMessage)) else Success(Deployed(repos))
  }

  /** `fetchUndeployedRepos`: a rejected fetch or a non-ok response throws; otherwise every
      returned repository has a null, absent or empty homepage and is live. */
  function FetchUndeployedRepos(response: ListResponse): (r: Result<seq<Repo>, ListError>)
    ensures r.Failure? <==> !IsOk(response)
    ensures response == Rejected ==> r == Failure(NetworkError)
    ensures response.ListResponse? && !response.ok ==> r == Failure(NotOkError(NotOkMessage))
    ensures IsOk(response) ==> r == Success(Undeployed(response.repos))
    ensures r.Success? ==>
              forall i :: 0 <= i < |r.value| ==>
                (r.value[i].homepage.None? || r.value[i].homepage.value == "")
                && !r.value[i].archived && !r.value[i].disabled
    ensures r.Success? ==> |r.value| <= |response.repos|
  {
    match response
    case Rejected => Failure(NetworkError)
    case ListResponse(ok, repos) =>
      if !ok then Failure(NotOkError(NotOkMessage)) else Success(Undeployed(repos))
  }

  /** Both lists keep the order of the fetched listing. */
  lemma SelectionsPreserveOrder(repos: seq<Repo>)
    ensures IsSubsequence(Deployed(repos), repos)
    ensures IsSubsequence(Undeployed(repos), repos)
  {
    FilterIsSubsequence(repos, IsDeployed);
    FilterIsSubsequence(repos, IsUndeployed);
  }

  /** A repository is deployed exactly when it is listed, has a truthy
      homepage and is live; likewise for undeployed with a falsy homepage. */
  lemma SelectionMembership(repos: seq<Repo>, repo: Repo)
    ensures repo in Deployed(repos) <==> repo in repos && HasHomepage(repo) && IsActive(repo)
    ensures repo in Undeployed(repos) <==> repo in repos && !HasHomepage(repo) && IsActive(repo)
  {
    FilterMembership(repos, IsDeployed, repo);
    FilterMembership(repos, IsUndeployed, repo);
  }

  /** No repository is both deployed and undeployed. */
  lemma SelectionsDisjoint(repos: seq<Repo>)
    ensures forall repo :: repo in Deployed(repos) ==> repo !in Undeployed(repos)
  {
    forall repo | repo in Deployed(repos) ensures repo !in Undeployed(repos) {
      SelectionMembership(repos, repo);
    }
  }

  /** An archived or disabled repository appears in neither list. */
  lemma InactiveExcluded(repos: seq<Repo>, repo: Repo)
    requires repo.archived || repo.disabled
    ensures repo !in Deployed(repos) && repo !in Undeployed(repos)
  {
    SelectionMembership(repos, repo);
  }

  /** Every live repository of the listing lands in exactly one list. */
  lemma ActiveInExactlyOne(repos: seq<Repo>, repo: Repo)
    requires repo in repos && IsActive(repo)
    ensures (repo in Deployed(repos)) != (repo in Undeployed(repos))
  {
    SelectionMembership(repos, repo);
  }

  /** The two lists together count every live repository once. */
  lemma SelectionCounts(repos: seq<Repo>)
    ensures |Deployed(repos)| + |Undeployed(repos)| == |Filter(repos, IsActive)|
  {
    FilterPartitionCount(repos, IsDeployed, IsUndeployed, IsActive);
  }

  /** Re-filtering either list returns it unchanged. */
  lemma SelectionsIdempotent(repos: seq<Repo>)
    ensures Deployed(Deployed(repos)) == Deployed(repos)
    ensures Undeployed(Undeployed(repos)) == Undeployed(repos)
  {
    FilterIdempotent(repos, IsDeployed);
    FilterIdempotent(repos, IsUndeployed);
  }
}
