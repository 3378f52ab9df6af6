/**
 * The forge client: the records the API returns, the endpoints it calls and
 * the two pagination loops. Each HTTP round trip is one element of a finite
 * script of page results; transport errors, non-200 statuses, body read
 * errors and decode errors are all the one outcome `Fail`, and a request
 * past the end of the script reads as `Fail`.
 */
module GitLab {
  import opened Text

  datatype Namespace = Namespace(fullPath: string)

  /** A project as the API returns it; `lastActivityAt` is in Unix seconds. */
  datatype Project = Project(
    id: int,
    pathWithNamespace: string,
    name: string,
    description: string,
    webURL: string,
    namespace: Namespace,
    lastActivityAt: int)

  datatype Author = Author(username: string)

  datatype References = References(full: string)

  /** A merge request as the API returns it; `createdAt` is in Unix seconds. */
  datatype MergeRequest = MergeRequest(
    id: int,
    iid: int,
    title: string,
    description: string,
    webURL: string,
    state: string,
    sourceBranch: string,
    targetBranch: string,
    author: Author,
    references: References,
    createdAt: int)

  /** One round trip: a failure, or a decoded page and whether `X-Next-Page` was set. */
  datatype PageResult<T> = Fail | Ok(items: seq<T>, hasNext: bool)

  function PageAt<T>(pages: seq<PageResult<T>>, k: nat): PageResult<T> {
    if k < |pages| then pages[k] else Fail
  }

  /** A page after which both loops go on to the next page. */
  predicate Continues<T>(p: PageResult<T>) {
    p.Ok? && |p.items| > 0 && p.hasNext
  }

  function ItemsOf<T>(p: PageResult<T>): seq<T> {
    if p.Ok? then p.items else []
  }

  /** The items of the first `n` round trips, in order. */
  function Gathered<T>(pages: seq<PageResult<T>>, n: nat): seq<T> {
    if n == 0 then [] else Gathered(pages, n - 1) + ItemsOf(PageAt(pages, n - 1))
  }


  /** Each of the first `n` round trips was followed by another. */
  predicate ContinuedThrough<T>(pages: seq<PageResult<T>>, n: nat) {
    n == 0 || (ContinuedThrough(pages, n - 1) && Continues(PageAt(pages, n - 1)))
  }

  lemma {:induction false} ContinuedThroughMeans<T>(pages: seq<PageResult<T>>, n: nat)
    ensures ContinuedThrough(pages, n) <==> forall k :: 0 <= k < n ==> Continues(PageAt(pages, k))
  {
    if n > 0 {
      ContinuedThroughMeans(pages, n - 1);
    }
  }

  /** The items gathered only grow with the number of round trips. */
  lemma {:induction false} GatheredGrows<T>(pages: seq<PageResult<T>>, j: nat, n: nat)
    requires j <= n
    ensures |Gathered(pages, j)| <= |Gathered(pages, n)|
    decreases n - j
  {
    if j < n {
      GatheredGrows(pages, j, n - 1);
    }
  }

  function Truncate<T>(s: seq<T>, n: nat): (r: seq<T>)
    ensures |r| <= n && |r| <= |s| && r == s[..|r|]
    ensures |s| <= n ==> r == s
    ensures |s| > n ==> r == s[..n]
  {
    if |s| > n then s[..n] else s
  }

  // ---------------------------------------------------------------------
  // Endpoints
  // ---------------------------------------------------------------------

  const MembershipFilter: string := "&membership=true"

  function ProjectsEndpoint(page: int, membershipOnly: bool): string {
    "/api/v4/projects?per_page=100&page=" + Decimal(page) + "&order_by=last_activity_at"
    + (if membershipOnly then MembershipFilter else "")
  }

  /** The page URL of a merge-request listing: no `&` right after a trailing `?` on page 1. */
  function MergeRequestsURL(endpoint: string, page: int): string {
    var sep := if page == 1 && |endpoint| > 0 && endpoint[|endpoint| - 1] == '?' then "" else "&";
    endpoint + sep + "per_page=100&page=" + Decimal(page)
  }

  const AssignedEndpoint: string := "/api/v4/merge_requests?scope=assigned_to_me&state=opened"
  const AuthoredEndpoint: string := "/api/v4/merge_requests?scope=created_by_me&state=opened"
  const ReviewerPrefix: string := "/api/v4/merge_requests?reviewer_id="
  const ReviewerSuffix: string := "&scope=all&state=opened"

  function ReviewingEndpoint(userID: int): string {
    ReviewerPrefix + Decimal(userID) + ReviewerSuffix
  }

  /** The project page URL as the loop builds it: the filter is appended for membership-only listings. */
  method ProjectsURL(page: int, membershipOnly: bool) returns (endpoint: string)
    ensures endpoint == ProjectsEndpoint(page, membershipOnly)
  {
    endpoint := "/api/v4/projects?per_page=100&page=" + Decimal(page) + "&order_by=last_activity_at";
    if membershipOnly {
      endpoint := endpoint + MembershipFilter;
    }
  }

  /** The membership filter is on the project URL exactly when it is asked for. */
  lemma MembershipFilterPresent(page: int, membershipOnly: bool)
    ensures var url := ProjectsEndpoint(page, membershipOnly);
      |url| >= |MembershipFilter| && (url[|url| - |MembershipFilter|..] == MembershipFilter <==> membershipOnly)
  {
    var url := ProjectsEndpoint(page, membershipOnly);
    if !membershipOnly {
      var tail := "&order_by=last_activity_at";
      assert url == "/api/v4/projects?per_page=100&page=" + Decimal(page) + tail;
      assert url[|url| - |MembershipFilter|..] == tail[|tail| - |MembershipFilter|..];
    }
  }

  /** The reviewer endpoint carries the user id in decimal, and it reads back. */
  lemma ReviewerIdReadsBack(userID: int)
    ensures var url := ReviewingEndpoint(userID);
      var idText := url[|ReviewerPrefix|..|url| - |ReviewerSuffix|];
      ParseDecimal(idText) == Some(userID)
  {
    var url := ReviewingEndpoint(userID);
    assert url[|ReviewerPrefix|..|url| - |ReviewerSuffix|] == Decimal(userID);
    DecimalRoundTrip(userID);
  }

  /** The URLs of the first `n` project pages, in request order. */
  function ProjectPageURLs(n: nat, membershipOnly: bool): (r: seq<string>)
    ensures |r| == n
  {
    if n == 0 then [] else ProjectPageURLs(n - 1, membershipOnly) + [ProjectsEndpoint(n, membershipOnly)]
  }

  /** Page `k + 1` is the `k`-th request. */
  lemma {:induction false} ProjectPageURLsAt(n: nat, membershipOnly: bool, k: nat)
    requires k < n
    ensures ProjectPageURLs(n, membershipOnly)[k] == ProjectsEndpoint(k + 1, membershipOnly)
  {
    if k < n - 1 {
      ProjectPageURLsAt(n - 1, membershipOnly, k);
    }
  }

  /** The URLs of the first `n` pages of one merge-request listing. */
  function MergeRequestPageURLs(endpoint: string, n: nat): (r: seq<string>)
    ensures |r| == n
  {
    if n == 0 then [] else MergeRequestPageURLs(endpoint, n - 1) + [MergeRequestsURL(endpoint, n)]
  }

  lemma {:induction false} MergeRequestPageURLsAt(endpoint: string, n: nat, k: nat)
    requires k < n
    ensures MergeRequestPageURLs(endpoint, n)[k] == MergeRequestsURL(endpoint, k + 1)
  {
    if k < n - 1 {
      MergeRequestPageURLsAt(endpoint, n - 1, k);
    }
  }

  /** An endpoint that does not end in `?` gets its page parameters after `&`, on every page. */
  lemma AmpersandUnlessQuestionMark(endpoint: string, page: int)
    requires |endpoint| > 0 && endpoint[|endpoint| - 1] != '?'
    ensures MergeRequestsURL(endpoint, page) == endpoint + "&per_page=100&page=" + Decimal(page)
  {
  }

  // ---------------------------------------------------------------------
  // Pagination loops
  // ---------------------------------------------------------------------

  /**
   * Requests pages 1, 2, ... while fewer than `maxProjects` projects have been
   * gathered, stopping at the first failed, empty or last page, and then cuts
   * the list to `maxProjects`.
   */
  method FetchProjects(pages: seq<PageResult<Project>>, maxProjects: int, membershipOnly: bool)
    returns (all: seq<Project>, requested: seq<string>)
    requires maxProjects >= 0
    ensures |requested| == 0 <==> maxProjects == 0
    ensures requested == ProjectPageURLs(|requested|, membershipOnly)
    ensures forall k :: 0 <= k < |requested| - 1 ==> Continues(PageAt(pages, k))
    ensures forall k :: 1 <= k < |requested| ==> |Gathered(pages, k)| < maxProjects
    ensures |requested| > 0 ==>
              !Continues(PageAt(pages, |requested| - 1)) || |Gathered(pages, |requested|)| >= maxProjects
    ensures all == Truncate(Gathered(pages, |requested|), maxProjects)
    ensures |all| <= maxProjects
  {
    all, requested := GatherProjectPages(pages, maxProjects, membershipOnly);
    if |all| > maxProjects {
      all := all[..maxProjects];
    }
  }

  /** The paging loop of the project fetch, before the list is cut to the cap. */
  method GatherProjectPages(pages: seq<PageResult<Project>>, maxProjects: int, membershipOnly: bool)
    returns (all: seq<Project>, requested: seq<string>)
    requires maxProjects >= 0
    ensures |requested| == 0 <==> maxProjects == 0
    ensures requested == ProjectPageURLs(|requested|, membershipOnly)
    ensures forall k :: 0 <= k < |requested| - 1 ==> Continues(PageAt(pages, k))
    ensures forall k :: 1 <= k < |requested| ==> |Gathered(pages, k)| < maxProjects
    ensures |requested| > 0 ==> !Continues(PageAt(pages, |requested| - 1)) || |all| >= maxProjects
    ensures all == Gathered(pages, |requested|)
  {
    all := [];
    requested := [];
    while |all| < maxProjects
      invariant |requested| <= |pages|
      invariant |requested| > 0 ==> maxProjects > 0
      invariant all == Gathered(pages, |requested|)
      invariant requested == ProjectPageURLs(|requested|, membershipOnly)
      invariant ContinuedThrough(pages, |requested|)
      invariant |requested| > 1 ==> |Gathered(pages, |requested| - 1)| < maxProjects
      decreases |pages| - |requested|
    {
      var more;
      requested, all, more := ProjectRound(pages, membershipOnly, requested, all);
      if !more {
        break;
      }
    }
    StoppedUnderCap(pages, maxProjects, |requested|);
  }

  /** Every page before the last was followed by another, each under the cap. */
  lemma StoppedUnderCap<T>(pages: seq<PageResult<T>>, maxProjects: int, n: nat)
    requires n > 0 ==> ContinuedThrough(pages, n - 1)
    requires n > 1 ==> |Gathered(pages, n - 1)| < maxProjects
    ensures forall k :: 0 <= k < n - 1 ==> Continues(PageAt(pages, k))
    ensures forall k :: 1 <= k < n ==> |Gathered(pages, k)| < maxProjects
  {
    if n > 0 {
      ContinuedThroughMeans(pages, n - 1);
    }
    forall k | 1 <= k < n
      ensures |Gathered(pages, k)| < maxProjects
    {
      GatheredGrows(pages, k, n - 1);
    }
  }

  /**
   * One round trip of the project loop: request the next page and append
   * its items; `more` says whether the loop may go on to the page after.
   */
  method ProjectRound(pages: seq<PageResult<Project>>, membershipOnly: bool, requested: seq<string>, all: seq<Project>)
    returns (requested': seq<string>, all': seq<Project>, more: bool)
    requires requested == ProjectPageURLs(|requested|, membershipOnly)
    requires all == Gathered(pages, |requested|)
    ensures requested' == ProjectPageURLs(|requested| + 1, membershipOnly)
    ensures all' == Gathered(pages, |requested| + 1)
    ensures more <==> Continues(PageAt(pages, |requested|))
    ensures more ==> |requested| < |pages|
    ensures more && ContinuedThrough(pages, |requested|) ==> ContinuedThrough(pages, |requested| + 1)
  {
    var endpoint := ProjectsURL(|requested| + 1, membershipOnly);
    requested' := requested + [endpoint];
    var result := PageAt(pages, |requested|);
    all' := all;
    more := false;
    if result.Fail? || |result.items| == 0 {
      // a failed request, a bad status, an unreadable or undecodable body, or an empty page
      return;
    }
    all' := all + result.items;
    more := result.hasNext;
  }

  /**
   * Requests pages 1, 2, ... of one merge-request listing until the first
   * failed, empty or last page, keeping every item gathered before the stop.
   */
  method FetchMergeRequests(endpoint: string, pages: seq<PageResult<MergeRequest>>)
    returns (all: seq<MergeRequest>, requested: seq<string>)
    ensures |requested| > 0
    ensures requested == MergeRequestPageURLs(endpoint, |requested|)
    ensures forall k :: 0 <= k < |requested| - 1 ==> Continues(PageAt(pages, k))
    ensures !Continues(PageAt(pages, |requested| - 1))
    ensures all == Gathered(pages, |requested|)
  {
    all := [];
    requested := [];
    var page := 1;
    while true
      invariant page == |requested| + 1 && |requested| <= |pages|
      invariant all == Gathered(pages, |requested|)
      invariant requested == MergeRequestPageURLs(endpoint, |requested|)
      invariant ContinuedThrough(pages, |requested|)
      decreases |pages| - |requested|
    {
      requested := requested + [MergeRequestsURL(endpoint, page)];
      var result := PageAt(pages, page - 1);
      if result.Fail? || |result.items| == 0 {
        assert all + ItemsOf(result) == all;
        break;
      }
      all := all + result.items;
      if !result.hasNext {
        break;
      }
      page := page + 1;
    }
    ContinuedThroughMeans(pages, |requested| - 1);
  }

  /** Every page of a listing whose endpoint does not end in `?` puts its parameters after `&`. */
  lemma ListingURLs(endpoint: string, n: nat)
    requires |endpoint| > 0 && endpoint[|endpoint| - 1] != '?'
    ensures forall k :: 0 <= k < n ==>
              MergeRequestPageURLs(endpoint, n)[k] == endpoint + "&per_page=100&page=" + Decimal(k + 1)
  {
    forall k | 0 <= k < n
      ensures MergeRequestPageURLs(endpoint, n)[k] == endpoint + "&per_page=100&page=" + Decimal(k + 1)
    {
      MergeRequestPageURLsAt(endpoint, n, k);
      AmpersandUnlessQuestionMark(endpoint, k + 1);
    }
  }

  /** The merge requests assigned to the account, page by page. */
  method FetchAssigned(pages: seq<PageResult<MergeRequest>>) returns (all: seq<MergeRequest>, requested: seq<string>)
    ensures |requested| > 0
    ensures forall k :: 0 <= k < |requested| ==>
              requested[k] == AssignedEndpoint + "&per_page=100&page=" + Decimal(k + 1)
    ensures forall k :: 0 <= k < |requested| - 1 ==> Continues(PageAt(pages, k))
    ensures !Continues(PageAt(pages, |requested| - 1))
    ensures all == Gathered(pages, |requested|)
  {
    all, requested := FetchMergeRequests(AssignedEndpoint, pages);
    assert AssignedEndpoint[|AssignedEndpoint| - 1] == 'd';
    ListingURLs(AssignedEndpoint, |requested|);
  }

  /** The merge requests the account opened, page by page. */
  method FetchAuthored(pages: seq<PageResult<MergeRequest>>) returns (all: seq<MergeRequest>, requested: seq<string>)
    ensures |requested| > 0
    ensures forall k :: 0 <= k < |requested| ==>
              requested[k] == AuthoredEndpoint + "&per_page=100&page=" + Decimal(k + 1)
    ensures forall k :: 0 <= k < |requested| - 1 ==> Continues(PageAt(pages, k))
    ensures !Continues(PageAt(pages, |requested| - 1))
    ensures all == Gathered(pages, |requested|)
  {
    all, requested := FetchMergeRequests(AuthoredEndpoint, pages);
    assert AuthoredEndpoint[|AuthoredEndpoint| - 1] == 'd';
    ListingURLs(AuthoredEndpoint, |requested|);
  }

  /** The open merge requests on which user `userID` is a reviewer, page by page. */
  method FetchReviewing(userID: int, pages: seq<PageResult<MergeRequest>>)
    returns (all: seq<MergeRequest>, requested: seq<string>)
    ensures |requested| > 0
    ensures forall k :: 0 <= k < |requested| ==>
              requested[k] == ReviewingEndpoint(userID) + "&per_page=100&page=" + Decimal(k + 1)
    ensures forall k :: 0 <= k < |requested| - 1 ==> Continues(PageAt(pages, k))
    ensures !Continues(PageAt(pages, |requested| - 1))
    ensures all == Gathered(pages, |requested|)
  {
    all, requested := FetchMergeRequests(ReviewingEndpoint(userID), pages);
    var e := ReviewingEndpoint(userID);
    assert e[|e| - 1] == ReviewerSuffix[|ReviewerSuffix| - 1] == 'd';
    ListingURLs(e, |requested|);
  }
}
