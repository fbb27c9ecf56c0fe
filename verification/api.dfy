/**
 * The API-shaped records the report generators read: one repository with
 * its pull-request and issue projections. Timestamps are already parsed.
 */
module Api {
  import opened Wrappers
  import opened Numbers

  datatype Comment = Comment(createdAt: Timestamp)

  /** `comments { totalCount nodes { createdAt } }`; nodes oldest first. */
  datatype Comments = Comments(totalCount: nat, nodes: seq<Comment>)

  datatype Reactions = Reactions(totalCount: nat)

  datatype ReviewState = Commented | Pending | Approved | ChangesRequested | Dismissed

  datatype Review = Review(createdAt: Timestamp, updatedAt: Timestamp, state: ReviewState)

  datatype Reviews = Reviews(totalCount: nat, nodes: seq<Review>)

  /** `mergedAt` is absent on a pull request that was never merged. */
  datatype PullRequest = PullRequest(
    title: string,
    url: string,
    bodyText: string,
    createdAt: Timestamp,
    updatedAt: Timestamp,
    lastEditedAt: Option<Timestamp>,
    mergedAt: Option<Timestamp>,
    reviews: Reviews,
    reactions: Reactions,
    comments: Comments)

  datatype PullRequests = PullRequests(totalCount: nat, nodes: seq<PullRequest>)

  /** `closedAt` is absent on an open issue. */
  datatype Issue = Issue(
    title: string,
    url: string,
    bodyText: string,
    createdAt: Timestamp,
    updatedAt: Timestamp,
    closedAt: Option<Timestamp>,
    comments: Comments,
    reactions: Reactions)

  datatype Issues = Issues(totalCount: nat, nodes: seq<Issue>)

  /** The union of the pull-request and issue views of one repository. */
  datatype Repository = Repository(
    name: string,
    openPullRequests: PullRequests,
    mergedPullRequests: PullRequests,
    topTenActivePRs: PullRequests,
    topTenStalePRs: PullRequests,
    openIssuesForStats: Issues,
    closedIssuesForStats: Issues,
    topTenActiveIssues: Issues,
    topTenStaleIssues: Issues)

  /** Why generating a report can throw. */
  datatype Crash =
    /** `comments.nodes[0].createdAt` read on an issue whose comment list is empty. */
    | MissingFirstComment(issue: Issue)
}
