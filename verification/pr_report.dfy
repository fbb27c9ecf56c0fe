/**
 * The pull-request section of a repository report: the open count, the
 * average time to merge, and the active and stale listings.
 */
module PrReport {
  import opened Wrappers
  import opened Decimal
  import opened Text
  import opened Numbers
  import opened Api
  import opened Listing

  // ---------------------------------------------------------------- stale listing

  function StalePrEntry(pr: PullRequest): string {
    PlainEntry(pr.title, pr.url, pr.bodyText)
  }

  /** The listing under its heading: one entry per node, in node order, however many nodes. */
  function StalePrsText(stalePRs: PullRequests): (s: string)
    ensures s == "**Top Stale PRs**" + "\n\n" + Concat(Entries(stalePRs.nodes, StalePrEntry))
  {
    ListingUnderHeading("**Top Stale PRs**", stalePRs.nodes, StalePrEntry);
    Join(["**Top Stale PRs**", ListingText(stalePRs.nodes, StalePrEntry)], "\n\n")
  }

  /**
   * The stale listing is its heading over one plain entry per node, in node
   * order, with no cap on the number of nodes; the `totalCount` plays no part.
   */
  lemma StalePrsOnePerNode(stalePRs: PullRequests, i: nat)
    requires i < |stalePRs.nodes|
    ensures var nodes := stalePRs.nodes;
            var pr := nodes[i];
            StalePrsText(stalePRs)
            == "**Top Stale PRs**" + "\n\n"
               + Concat(Entries(nodes[..i], StalePrEntry))
               + PlainEntry(pr.title, pr.url, pr.bodyText)
               + Concat(Entries(nodes[i + 1..], StalePrEntry))
  {
    HeadedEntriesSplit(StalePrsText(stalePRs), "**Top Stale PRs**" + "\n\n", stalePRs.nodes, StalePrEntry, i);
  }

  /** No stale pull requests: the heading over an empty body. */
  lemma StalePrsEmpty(totalCount: nat)
    ensures StalePrsText(PullRequests(totalCount, [])) == "**Top Stale PRs**\n\n"
  {
    ListingEmpty(StalePrEntry);
  }

  /** Stale entries are not escaped: the title appears verbatim, `#` and all. */
  lemma StalePrTitleVerbatim(pr: PullRequest)
    ensures StalePrEntry(pr)[1..1 + |pr.title|] == pr.title
  {
    PlainEntryLayout(pr.title, pr.url, pr.bodyText);
  }

  // --------------------------------------------------------------- active listing

  /**
   * The details line. Both placeholders read `comments.totalCount`; the
   * reactions are never consulted.
   */
  function PrDetails(pr: PullRequest): string {
    "**There are " + CountPlaceholder(pr.comments.totalCount)
      + " comments on this issue, and it has " + CountPlaceholder(pr.comments.totalCount)
      + " reactions.**"
  }

  /** Title and snippet each have their first `#` escaped, the snippet after it is cut to 140. */
  function ActivePrEntry(pr: PullRequest): string {
    Entry(TitleLink(EscapeFirstHash(pr.title), pr.url), Some(PrDetails(pr)), EscapeFirstHash(Snippet(pr.bodyText)))
  }

  /** The listing under its heading: one entry per node, in node order, however many nodes. */
  function ActivePrsText(activePRs: PullRequests): (s: string)
    ensures s == "**Top Active PRs**" + "\n\n" + Concat(Entries(activePRs.nodes, ActivePrEntry))
  {
    ListingUnderHeading("**Top Active PRs**", activePRs.nodes, ActivePrEntry);
    Join(["**Top Active PRs**", ListingText(activePRs.nodes, ActivePrEntry)], "\n\n")
  }

  lemma ActivePrsOnePerNode(activePRs: PullRequests, i: nat)
    requires i < |activePRs.nodes|
    ensures var nodes := activePRs.nodes;
            ActivePrsText(activePRs)
            == "**Top Active PRs**" + "\n\n"
               + Concat(Entries(nodes[..i], ActivePrEntry))
               + ActivePrEntry(nodes[i])
               + Concat(Entries(nodes[i + 1..], ActivePrEntry))
  {
    HeadedEntriesSplit(ActivePrsText(activePRs), "**Top Active PRs**" + "\n\n", activePRs.nodes, ActivePrEntry, i);
  }

  /**
   * The comment and reaction placeholders are the same text: the comment
   * count, or `no` when there are no comments. The reaction count is ignored.
   */
  lemma ActivePrPlaceholders(pr: PullRequest, reactions: Reactions)
    ensures var p := CountPlaceholder(pr.comments.totalCount);
            && PrDetails(pr) == "**There are " + p + " comments on this issue, and it has " + p + " reactions.**"
            && (p == "no" <==> pr.comments.totalCount == 0)
            && (pr.comments.totalCount != 0 ==> ParseNat(p) == pr.comments.totalCount)
            && ActivePrEntry(pr.(reactions := reactions)) == ActivePrEntry(pr)
  {
  }

  /**
   * Escaping comes after truncation, so the emitted snippet has one more
   * character than the cut body exactly when that cut holds a `#`: up to
   * 141 characters.
   */
  lemma ActivePrSnippetLength(body: string)
    ensures var cut := Snippet(body);
            var out := EscapeFirstHash(cut);
            && |out| == |cut| + (if '#' in cut then 1 else 0)
            && |out| <= SnippetLength + 1
            && (|out| == SnippetLength + 1 <==> |body| >= SnippetLength && '#' in body[..SnippetLength])
  {
  }

  /** The escaped title still carries the original: undoing the escape recovers it. */
  lemma ActivePrTitleRecoverable(pr: PullRequest)
    ensures var t := EscapeFirstHash(pr.title);
            && ActivePrEntry(pr)[1..1 + |t|] == t
            && UnescapeFirstHash(t) == pr.title
  {
    UnescapeEscape(pr.title);
    EntryOpensWithTitle(EscapeFirstHash(pr.title), pr.url, Some(PrDetails(pr)), EscapeFirstHash(Snippet(pr.bodyText)));
  }

  // ---------------------------------------------------------- average time to merge

  /** `differenceInDays(mergedAt, createdAt)`; NaN when `mergedAt` is absent. */
  function MergeDays(pr: PullRequest): Number {
    match pr.mergedAt
    case Some(m) => Int(DiffDays(m, pr.createdAt))
    case None => NaN
  }

  /** Total of the merge durations of the merged pull requests, the reference sum. */
  function DaysToMergeTotal(prs: seq<PullRequest>): int
    decreases |prs|
  {
    if |prs| == 0 then 0
    else (if prs[0].mergedAt.Some? then DiffDays(prs[0].mergedAt.value, prs[0].createdAt) else 0)
         + DaysToMergeTotal(prs[1..])
  }

  function MergeDaysOf(prs: seq<PullRequest>): (xs: seq<Number>)
    ensures |xs| == |prs|
    ensures forall i :: 0 <= i < |prs| ==> xs[i] == MergeDays(prs[i])
  {
    seq(|prs|, i requires 0 <= i < |prs| => MergeDays(prs[i]))
  }

  lemma {:induction false} MergeDaysSum(prs: seq<PullRequest>)
    ensures FiniteSum(MergeDaysOf(prs)) == DaysToMergeTotal(prs)
    decreases |prs|
  {
    if |prs| > 0 {
      MergeDaysSum(prs[1..]);
      assert MergeDaysOf(prs)[1..] == MergeDaysOf(prs[1..]);
    }
  }

  /**
   * The unrounded average time to merge: the sum of the per-PR day
   * differences over the node count. NaN when there are no nodes, or when
   * some node has no `mergedAt`.
   */
  function AvgTimeToMerge(mergedPRs: PullRequests): (q: Quotient)
    ensures q.NotANumber? <==> |mergedPRs.nodes| == 0 || exists i :: 0 <= i < |mergedPRs.nodes| && mergedPRs.nodes[i].mergedAt.None?
    ensures q.Ratio? ==> q.num == DaysToMergeTotal(mergedPRs.nodes) && q.den == |mergedPRs.nodes|
  {
    MergeDaysSum(mergedPRs.nodes);
    Mean(MergeDaysOf(mergedPRs.nodes))
  }

  const MergeOpening: string := "On averge it takes "
  const MergeClosing: string := " days to merge a PR."

  /**
   * The merge bullet, its `averge` spelling kept: the words around the
   * average are fixed, and what stands between them reads back as the average.
   */
  function AvgTimeToMergeText(mergedPRs: PullRequests, showReal: (int, Positive) -> string): (s: string)
    ensures Framed(s, MergeOpening, MergeClosing)
    ensures ShowsQuotient(Inner(s, MergeOpening, MergeClosing), AvgTimeToMerge(mergedPRs))
  {
    FramedInner(MergeOpening, QuotientText(AvgTimeToMerge(mergedPRs), showReal), MergeClosing);
    MergeOpening + QuotientText(AvgTimeToMerge(mergedPRs), showReal) + MergeClosing
  }

  /** The merge bullet shows the average's text between its fixed words. */
  lemma MergeTextShows(mergedPRs: PullRequests, showReal: (int, Positive) -> string, shown: string)
    requires QuotientText(AvgTimeToMerge(mergedPRs), showReal) == shown
    ensures AvgTimeToMergeText(mergedPRs, showReal) == MergeOpening + shown + MergeClosing
  {
  }

  /** With no merged pull requests the average is 0 / 0 and prints as NaN. */
  lemma AvgTimeToMergeEmpty(totalCount: nat, showReal: (int, Positive) -> string)
    ensures AvgTimeToMergeText(PullRequests(totalCount, []), showReal) == MergeOpening + "NaN" + MergeClosing
  {
    assert AvgTimeToMerge(PullRequests(totalCount, [])) == NotANumber;
    assert QuotientText(NotANumber, showReal) == "NaN";
    MergeTextShows(PullRequests(totalCount, []), showReal, "NaN");
  }

  // ------------------------------------------------------------------- the section

  const Heading: string := "### Pull Requests"

  function OpenPrsLine(openPRs: PullRequests): string {
    "There are " + NatToString(openPRs.totalCount) + " open PRs currently."
  }

  /** The open count is the collection's `totalCount` verbatim, whatever its nodes. */
  lemma OpenPrsLineVerbatim(openPRs: PullRequests, otherNodes: seq<PullRequest>)
    ensures var digits := NatToString(openPRs.totalCount);
            && OpenPrsLine(openPRs) == "There are " + digits + " open PRs currently."
            && ParseNat(digits) == openPRs.totalCount
            && OpenPrsLine(openPRs.(nodes := otherNodes)) == OpenPrsLine(openPRs)
  {
    ParseNatToString(openPRs.totalCount);
  }

  /**
   * The pull-request section: heading, the two bullets, the active listing,
   * then the stale listing, separated by blank lines. `showReal` prints a
   * non-integral average.
   */
  function Report(repo: Repository, showReal: (int, Positive) -> string): (r: string)
    ensures |Heading| + |StalePrsText(repo.topTenStalePRs)| < |r|
    ensures r[..|Heading|] == Heading
    ensures r[|r| - |StalePrsText(repo.topTenStalePRs)|..] == StalePrsText(repo.topTenStalePRs)
  {
    FourBlocks(Heading,
               Bullets([OpenPrsLine(repo.openPullRequests), AvgTimeToMergeText(repo.mergedPullRequests, showReal)]),
               ActivePrsText(repo.topTenActivePRs),
               StalePrsText(repo.topTenStalePRs));
    Join([Heading,
          Bullets([OpenPrsLine(repo.openPullRequests), AvgTimeToMergeText(repo.mergedPullRequests, showReal)]),
          ActivePrsText(repo.topTenActivePRs),
          StalePrsText(repo.topTenStalePRs)],
         "\n\n")
  }

  /**
   * The section reads, in order: heading, open-count bullet, merge-average
   * bullet, active listing, stale listing (active first, though stale is
   * computed first), and depends on no other field of the repository.
   */
  lemma ReportLayout(repo: Repository, showReal: (int, Positive) -> string)
    ensures TwoBulletShape(Report(repo, showReal), Heading, OpenPrsLine(repo.openPullRequests),
                           AvgTimeToMergeText(repo.mergedPullRequests, showReal),
                           ActivePrsText(repo.topTenActivePRs), StalePrsText(repo.topTenStalePRs))
  {
    TwoBulletSection(Report(repo, showReal), Heading, OpenPrsLine(repo.openPullRequests),
                     AvgTimeToMergeText(repo.mergedPullRequests, showReal),
                     ActivePrsText(repo.topTenActivePRs), StalePrsText(repo.topTenStalePRs));
  }
}
