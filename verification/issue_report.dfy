/**
 * The issue section of a repository report: the open count, the three
 * rounded averages (respond, since last update, close), and the active and
 * stale listings.
 */
module IssueReport {
  import opened Wrappers
  import opened Decimal
  import opened Text
  import opened Numbers
  import opened Api
  import opened Listing

  // ---------------------------------------------------------------- stale listing

  function StaleIssueEntry(issue: Issue): string {
    PlainEntry(issue.title, issue.url, issue.bodyText)
  }

  /** The listing under its heading: one entry per node, in node order, however many nodes. */
  function StaleIssuesText(staleIssues: Issues): (s: string)
    ensures s == "**Top Stale Issues**" + "\n\n" + Concat(Entries(staleIssues.nodes, StaleIssueEntry))
  {
    ListingUnderHeading("**Top Stale Issues**", staleIssues.nodes, StaleIssueEntry);
    Join(["**Top Stale Issues**", ListingText(staleIssues.nodes, StaleIssueEntry)], "\n\n")
  }

  /** One plain entry per node, in node order, uncapped: the layout of the stale pull requests. */
  lemma StaleIssuesOnePerNode(staleIssues: Issues, i: nat)
    requires i < |staleIssues.nodes|
    ensures var nodes := staleIssues.nodes;
            var issue := nodes[i];
            StaleIssuesText(staleIssues)
            == "**Top Stale Issues**" + "\n\n"
               + Concat(Entries(nodes[..i], StaleIssueEntry))
               + PlainEntry(issue.title, issue.url, issue.bodyText)
               + Concat(Entries(nodes[i + 1..], StaleIssueEntry))
  {
    HeadedEntriesSplit(StaleIssuesText(staleIssues), "**Top Stale Issues**" + "\n\n", staleIssues.nodes, StaleIssueEntry, i);
  }

  // --------------------------------------------------------------- active listing

  /**
   * The details line. Both placeholders read `comments.totalCount`; `ago`
   * renders how long ago `updatedAt` was, against the current clock.
   */
  function IssueDetails(issue: Issue, ago: Timestamp -> string): string {
    "**There are " + CountPlaceholder(issue.comments.totalCount)
      + " comments on this issue, and it has " + CountPlaceholder(issue.comments.totalCount)
      + " reactions. It was last updated " + ago(issue.updatedAt) + " ago.**"
  }

  /** The entry function the active listing folds with, for a fixed clock. */
  function ActiveIssueEntryAt(ago: Timestamp -> string): Issue -> string {
    (issue: Issue) => ActiveIssueEntry(issue, ago)
  }

  /** No `#` escaping in issue listings. */
  function ActiveIssueEntry(issue: Issue, ago: Timestamp -> string): string {
    Entry(TitleLink(issue.title, issue.url), Some(IssueDetails(issue, ago)), Snippet(issue.bodyText))
  }

  /** The listing under its heading: one entry per node, in node order, however many nodes. */
  function ActiveIssuesText(activeIssues: Issues, ago: Timestamp -> string): (s: string)
    ensures s == "**Top Active Issues**" + "\n\n" + Concat(Entries(activeIssues.nodes, ActiveIssueEntryAt(ago)))
  {
    ListingUnderHeading("**Top Active Issues**", activeIssues.nodes, ActiveIssueEntryAt(ago));
    Join(["**Top Active Issues**", ListingText(activeIssues.nodes, ActiveIssueEntryAt(ago))], "\n\n")
  }

  lemma ActiveIssuesOnePerNode(activeIssues: Issues, ago: Timestamp -> string, i: nat)
    requires i < |activeIssues.nodes|
    ensures var nodes := activeIssues.nodes;
            var entry := ActiveIssueEntryAt(ago);
            ActiveIssuesText(activeIssues, ago)
            == "**Top Active Issues**" + "\n\n"
               + Concat(Entries(nodes[..i], entry))
               + ActiveIssueEntry(nodes[i], ago)
               + Concat(Entries(nodes[i + 1..], entry))
  {
    HeadedEntriesSplit(ActiveIssuesText(activeIssues, ago), "**Top Active Issues**" + "\n\n", activeIssues.nodes, ActiveIssueEntryAt(ago), i);
    assert ActiveIssueEntryAt(ago)(activeIssues.nodes[i]) == ActiveIssueEntry(activeIssues.nodes[i], ago);
  }

  /**
   * Both placeholders are the comment count (`no` when zero); the reaction
   * count is ignored, and the title is shown unescaped.
   */
  lemma ActiveIssuePlaceholders(issue: Issue, ago: Timestamp -> string, reactions: Reactions)
    ensures var p := CountPlaceholder(issue.comments.totalCount);
            && IssueDetails(issue, ago)
               == "**There are " + p + " comments on this issue, and it has " + p
                  + " reactions. It was last updated " + ago(issue.updatedAt) + " ago.**"
            && (p == "no" <==> issue.comments.totalCount == 0)
            && ActiveIssueEntry(issue.(reactions := reactions), ago) == ActiveIssueEntry(issue, ago)
            && ActiveIssueEntry(issue, ago)[1..1 + |issue.title|] == issue.title
  {
    EntryOpensWithTitle(issue.title, issue.url, Some(IssueDetails(issue, ago)), Snippet(issue.bodyText));
  }

  // ------------------------------------------------------------------ partition

  predicate HasComments(issue: Issue) {
    issue.comments.totalCount != 0
  }

  /** The open issues with a nonzero comment count, in their original order. */
  function WithComments(nodes: seq<Issue>): seq<Issue>
    decreases |nodes|
  {
    if |nodes| == 0 then []
    else (if HasComments(nodes[0]) then [nodes[0]] else []) + WithComments(nodes[1..])
  }

  /** The open issues with no comments, in their original order. */
  function WithoutComments(nodes: seq<Issue>): seq<Issue>
    decreases |nodes|
  {
    if |nodes| == 0 then []
    else (if HasComments(nodes[0]) then [] else [nodes[0]]) + WithoutComments(nodes[1..])
  }

  /** Each issue lands in exactly one of the two lists, chosen by its comment count. */
  lemma {:induction false} PartitionExact(nodes: seq<Issue>)
    ensures |WithComments(nodes)| + |WithoutComments(nodes)| == |nodes|
    ensures multiset(WithComments(nodes)) + multiset(WithoutComments(nodes)) == multiset(nodes)
    ensures forall x :: x in WithComments(nodes) ==> HasComments(x)
    ensures forall x :: x in WithoutComments(nodes) ==> !HasComments(x)
    decreases |nodes|
  {
    if |nodes| > 0 {
      PartitionExact(nodes[1..]);
      assert nodes == [nodes[0]] + nodes[1..];
      assert multiset(nodes) == multiset{nodes[0]} + multiset(nodes[1..]);
    }
  }

  /** Both lists keep relative order: partitioning distributes over concatenation. */
  lemma {:induction false} WithCommentsAppend(a: seq<Issue>, b: seq<Issue>)
    ensures WithComments(a + b) == WithComments(a) + WithComments(b)
    decreases |a|
  {
    if |a| == 0 {
      assert a + b == b;
    } else {
      var ab := a + b;
      assert ab[0] == a[0];
      assert ab[1..] == a[1..] + b;
      WithCommentsAppend(a[1..], b);
      var head := if HasComments(a[0]) then [a[0]] else [];
      assert WithComments(ab) == head + WithComments(a[1..] + b);
      assert WithComments(a) == head + WithComments(a[1..]);
    }
  }

  lemma {:induction false} WithoutCommentsAppend(a: seq<Issue>, b: seq<Issue>)
    ensures WithoutComments(a + b) == WithoutComments(a) + WithoutComments(b)
    decreases |a|
  {
    if |a| == 0 {
      assert a + b == b;
    } else {
      var ab := a + b;
      assert ab[0] == a[0];
      assert ab[1..] == a[1..] + b;
      WithoutCommentsAppend(a[1..], b);
      var head := if HasComments(a[0]) then [] else [a[0]];
      assert WithoutComments(ab) == head + WithoutComments(a[1..] + b);
      assert WithoutComments(a) == head + WithoutComments(a[1..]);
    }
  }

  /**
   * The loop the generator runs: visit the issues in order and push each
   * onto the with-comments or the without-comments list.
   */
  method Partition(nodes: seq<Issue>) returns (withComments: seq<Issue>, withoutComments: seq<Issue>)
    ensures withComments == WithComments(nodes)
    ensures withoutComments == WithoutComments(nodes)
  {
    withComments, withoutComments := [], [];
    var i := 0;
    while i < |nodes|
      invariant 0 <= i <= |nodes|
      invariant withComments == WithComments(nodes[..i])
      invariant withoutComments == WithoutComments(nodes[..i])
    {
      WithCommentsAppend(nodes[..i], [nodes[i]]);
      WithoutCommentsAppend(nodes[..i], [nodes[i]]);
      assert nodes[..i + 1] == nodes[..i] + [nodes[i]];
      assert [nodes[i]][1..] == [];
      if nodes[i].comments.totalCount != 0 {
        withComments := withComments + [nodes[i]];
      } else {
        withoutComments := withoutComments + [nodes[i]];
      }
      i := i + 1;
    }
    assert nodes[..i] == nodes;
  }

  // ------------------------------------------------------- average time to respond

  /** Days from opening to the first comment; throws when the comment list is empty. */
  function FirstResponseDays(issue: Issue): Result<Number, Crash> {
    if |issue.comments.nodes| == 0 then Failure(MissingFirstComment(issue))
    else Success(Int(DiffDays(issue.comments.nodes[0].createdAt, issue.createdAt)))
  }

  predicate LacksFirstComment(issue: Issue) {
    |issue.comments.nodes| == 0
  }

  /**
   * Response durations of the commented issues, visited in order; the
   * first issue with an empty comment list aborts the whole computation.
   */
  function ResponseDays(issues: seq<Issue>): (r: Result<seq<Number>, Crash>)
    ensures r.Failure? <==> exists i :: 0 <= i < |issues| && LacksFirstComment(issues[i])
    ensures r.Failure? ==> exists i :: 0 <= i < |issues| && LacksFirstComment(issues[i])
                                        && r.error == MissingFirstComment(issues[i])
                                        && forall j :: 0 <= j < i ==> !LacksFirstComment(issues[j])
    ensures r.Success? ==> |r.value| == |issues|
    ensures r.Success? ==> forall i :: 0 <= i < |issues| ==>
              r.value[i] == Int(DiffDays(issues[i].comments.nodes[0].createdAt, issues[i].createdAt))
    decreases |issues|
  {
    if |issues| == 0 then Success([])
    else
      var d :- FirstResponseDays(issues[0]);
      var rest :- ResponseDays(issues[1..]);
      assert forall i :: 1 <= i < |issues| ==> issues[i] == issues[1..][i - 1];
      Success([d] + rest)
  }

  /** The reference total: days to first response summed over issues that have a first comment. */
  function ResponseDayTotal(issues: seq<Issue>): int
    decreases |issues|
  {
    if |issues| == 0 then 0
    else (if |issues[0].comments.nodes| > 0
          then DiffDays(issues[0].comments.nodes[0].createdAt, issues[0].createdAt) else 0)
         + ResponseDayTotal(issues[1..])
  }

  lemma {:induction false} ResponseDaysSum(issues: seq<Issue>)
    requires ResponseDays(issues).Success?
    ensures FiniteSum(ResponseDays(issues).value) == ResponseDayTotal(issues)
    decreases |issues|
  {
    if |issues| > 0 {
      var ds := ResponseDays(issues).value;
      assert !LacksFirstComment(issues[0]);
      ResponseDaysSum(issues[1..]);
      assert ds[1..] == ResponseDays(issues[1..]).value;
    }
  }

  /**
   * Average days to a first response over the open issues with comments:
   * NaN when none has comments; a throw when one of them has an empty
   * comment list.
   */
  function AvgTimeToRespond(openIssues: Issues): (r: Result<Quotient, Crash>)
    ensures var commented := WithComments(openIssues.nodes);
            && (r.Failure? <==> exists i :: 0 <= i < |commented| && LacksFirstComment(commented[i]))
            && (r.Failure? ==> exists i :: 0 <= i < |commented| && LacksFirstComment(commented[i])
                                            && r.error == MissingFirstComment(commented[i]))
            && (r.Success? ==> (r.value.NotANumber? <==> |commented| == 0))
            && (r.Success? && r.value.Ratio? ==> r.value.num == ResponseDayTotal(commented) && r.value.den == |commented|)
  {
    var commented := WithComments(openIssues.nodes);
    match ResponseDays(commented)
    case Failure(e) => Failure(e)
    case Success(ds) =>
      ResponseDaysSum(commented);
      assert AllFinite(ds);
      Success(Mean(ds))
  }

  /** Every open issue with a nonzero comment count lists at least its first comment. */
  predicate CommentsListed(issues: seq<Issue>) {
    forall i :: 0 <= i < |issues| && HasComments(issues[i]) ==> |issues[i].comments.nodes| > 0
  }

  /** An issue is kept by the with-comments filter exactly when it is in the input and has comments. */
  lemma {:induction false} WithCommentsMembers(nodes: seq<Issue>)
    ensures forall x :: x in WithComments(nodes) <==> x in nodes && HasComments(x)
    decreases |nodes|
  {
    if |nodes| > 0 {
      WithCommentsMembers(nodes[1..]);
      assert nodes == [nodes[0]] + nodes[1..];
    }
  }

  /** The response average throws exactly when some commented open issue lists no comment. */
  lemma AvgTimeToRespondThrows(openIssues: Issues)
    ensures AvgTimeToRespond(openIssues).Success? <==> CommentsListed(openIssues.nodes)
  {
    var nodes := openIssues.nodes;
    var commented := WithComments(nodes);
    WithCommentsMembers(nodes);
    if !CommentsListed(nodes) {
      var i :| 0 <= i < |nodes| && HasComments(nodes[i]) && |nodes[i].comments.nodes| == 0;
      assert nodes[i] in commented;
      var j :| 0 <= j < |commented| && commented[j] == nodes[i];
      assert LacksFirstComment(commented[j]);
    } else {
      forall j | 0 <= j < |commented| ensures !LacksFirstComment(commented[j]) {
        assert commented[j] in nodes;
      }
    }
  }

  /** A throw names an open issue that has a nonzero comment count but lists no comment. */
  lemma RespondErrorNamesIssue(openIssues: Issues)
    ensures var r := AvgTimeToRespond(openIssues);
            r.Failure? ==> r.error.issue in openIssues.nodes
                           && HasComments(r.error.issue) && |r.error.issue.comments.nodes| == 0
  {
    var r := AvgTimeToRespond(openIssues);
    if r.Failure? {
      var commented := WithComments(openIssues.nodes);
      WithCommentsMembers(openIssues.nodes);
      var i :| 0 <= i < |commented| && LacksFirstComment(commented[i]) && r.error == MissingFirstComment(commented[i]);
      assert commented[i] in commented;
    }
  }

  /**
   * The respond bullet; "the last 100" is fixed text, not the sample size.
   * It throws exactly when a commented open issue lists no comment.
   */
  function RespondText(openIssues: Issues): (r: Result<string, Crash>)
    ensures r.Success? <==> CommentsListed(openIssues.nodes)
  {
    AvgTimeToRespondThrows(openIssues);
    var avg :- AvgTimeToRespond(openIssues);
    Success("On average it takes about " + NumberText(MathRound(avg))
            + " day(s) to respond to an issue. There are currently "
            + NatToString(|WithoutComments(openIssues.nodes)|)
            + " issues out of the last 100 that have not been responded to.")
  }

  /**
   * The respond bullet reports how many open issues have no comments: the
   * node count less the commented ones, whatever the node count is.
   */
  lemma RespondTextCounts(openIssues: Issues)
    requires CommentsListed(openIssues.nodes)
    ensures RespondText(openIssues).Success?
    ensures var digits := NatToString(|WithoutComments(openIssues.nodes)|);
            && ParseNat(digits) == |openIssues.nodes| - |WithComments(openIssues.nodes)|
            && RespondText(openIssues).value
               == "On average it takes about " + NumberText(MathRound(AvgTimeToRespond(openIssues).value))
                  + " day(s) to respond to an issue. There are currently " + digits
                  + " issues out of the last 100 that have not been responded to."
  {
    AvgTimeToRespondThrows(openIssues);
    PartitionExact(openIssues.nodes);
    ParseNatToString(|WithoutComments(openIssues.nodes)|);
  }

  // --------------------------------------------------- average time since last update

  function UpdateDays(issue: Issue): Number {
    Int(DiffDays(issue.updatedAt, issue.createdAt))
  }

  /** The reference total of days between opening and last update. */
  function UpdateDayTotal(issues: seq<Issue>): int
    decreases |issues|
  {
    if |issues| == 0 then 0 else DiffDays(issues[0].updatedAt, issues[0].createdAt) + UpdateDayTotal(issues[1..])
  }

  function UpdateDaysOf(issues: seq<Issue>): (xs: seq<Number>)
    ensures |xs| == |issues|
    ensures forall i :: 0 <= i < |issues| ==> xs[i] == UpdateDays(issues[i])
  {
    seq(|issues|, i requires 0 <= i < |issues| => UpdateDays(issues[i]))
  }

  lemma {:induction false} UpdateDaysSum(issues: seq<Issue>)
    ensures FiniteSum(UpdateDaysOf(issues)) == UpdateDayTotal(issues)
    decreases |issues|
  {
    if |issues| > 0 {
      UpdateDaysSum(issues[1..]);
      assert UpdateDaysOf(issues)[1..] == UpdateDaysOf(issues[1..]);
    }
  }

  /**
   * `Math.round(total / n)` over all open issues: NaN for none, otherwise
   * floor((2 * total + n) / (2 * n)), the integer nearest the mean with
   * halves rounded up.
   */
  function AvgTimeSinceLastUpdate(openIssues: Issues): (r: Number)
    ensures r.NaN? <==> |openIssues.nodes| == 0
    ensures var n := |openIssues.nodes|;
            n > 0 ==> r.value == (2 * UpdateDayTotal(openIssues.nodes) + n) / (2 * n)
  {
    var xs := UpdateDaysOf(openIssues.nodes);
    UpdateDaysSum(openIssues.nodes);
    var q := Mean(xs);
    if q.Ratio? then
      MathRoundFormula(q.num, q.den);
      MathRound(q)
    else
      MathRound(q)
  }

  const SinceOpening: string := "On average issues have not been updated in about "
  const SinceClosing: string := " day(s)."

  /** The since-update bullet: fixed words around text that reads back as the rounded average. */
  function AvgTimeSinceLastUpdateText(openIssues: Issues): (s: string)
    ensures Framed(s, SinceOpening, SinceClosing)
    ensures ShowsNumber(Inner(s, SinceOpening, SinceClosing), AvgTimeSinceLastUpdate(openIssues))
  {
    FramedInner(SinceOpening, NumberText(AvgTimeSinceLastUpdate(openIssues)), SinceClosing);
    SinceOpening + NumberText(AvgTimeSinceLastUpdate(openIssues)) + SinceClosing
  }

  // ---------------------------------------------------------- average time to close

  /** `differenceInDays(closedAt, createdAt)`; NaN when `closedAt` is absent. */
  function CloseDays(issue: Issue): Number {
    match issue.closedAt
    case Some(c) => Int(DiffDays(c, issue.createdAt))
    case None => NaN
  }

  /** The reference total of days between opening and closing. */
  function CloseDayTotal(issues: seq<Issue>): int
    decreases |issues|
  {
    if |issues| == 0 then 0
    else (if issues[0].closedAt.Some? then DiffDays(issues[0].closedAt.value, issues[0].createdAt) else 0)
         + CloseDayTotal(issues[1..])
  }

  function CloseDaysOf(issues: seq<Issue>): (xs: seq<Number>)
    ensures |xs| == |issues|
    ensures forall i :: 0 <= i < |issues| ==> xs[i] == CloseDays(issues[i])
  {
    seq(|issues|, i requires 0 <= i < |issues| => CloseDays(issues[i]))
  }

  lemma {:induction false} CloseDaysSum(issues: seq<Issue>)
    ensures FiniteSum(CloseDaysOf(issues)) == CloseDayTotal(issues)
    decreases |issues|
  {
    if |issues| > 0 {
      CloseDaysSum(issues[1..]);
      assert CloseDaysOf(issues)[1..] == CloseDaysOf(issues[1..]);
    }
  }

  /**
   * `Math.round(total / n)` over all closed issues: NaN for none or when
   * one lacks `closedAt`, otherwise floor((2 * total + n) / (2 * n)).
   */
  function AvgTimeToClose(closedIssues: Issues): (r: Number)
    ensures r.NaN? <==> |closedIssues.nodes| == 0 || exists i :: 0 <= i < |closedIssues.nodes| && closedIssues.nodes[i].closedAt.None?
    ensures var n := |closedIssues.nodes|;
            r.Int? ==> n > 0 && r.value == (2 * CloseDayTotal(closedIssues.nodes) + n) / (2 * n)
  {
    var xs := CloseDaysOf(closedIssues.nodes);
    CloseDaysSum(closedIssues.nodes);
    var q := Mean(xs);
    if q.Ratio? then
      MathRoundFormula(q.num, q.den);
      MathRound(q)
    else
      MathRound(q)
  }

  const CloseOpening: string := "On average it takes about "
  const CloseClosing: string := " day(s) to close an issue."

  /** The close bullet: fixed words around text that reads back as the rounded average. */
  function AvgTimeToCloseText(closedIssues: Issues): (s: string)
    ensures Framed(s, CloseOpening, CloseClosing)
    ensures ShowsNumber(Inner(s, CloseOpening, CloseClosing), AvgTimeToClose(closedIssues))
  {
    FramedInner(CloseOpening, NumberText(AvgTimeToClose(closedIssues)), CloseClosing);
    CloseOpening + NumberText(AvgTimeToClose(closedIssues)) + CloseClosing
  }

  // ------------------------------------------------------------------- the section

  const Heading: string := "### Issues"

  function OpenIssuesLine(openIssues: Issues): string {
    "There are " + NatToString(openIssues.totalCount) + " open issues currently."
  }

  /**
   * The issue section: heading; the open-count, respond, since-update and
   * close bullets; the active listing; the stale listing. It throws when the
   * respond average does.
   */
  function Report(repo: Repository, ago: Timestamp -> string): (r: Result<string, Crash>)
    ensures r.Success? <==> CommentsListed(repo.openIssuesForStats.nodes)
    ensures r.Failure? ==> r.error.issue in repo.openIssuesForStats.nodes
                           && HasComments(r.error.issue) && |r.error.issue.comments.nodes| == 0
  {
    RespondErrorNamesIssue(repo.openIssuesForStats);
    var respond :- RespondText(repo.openIssuesForStats);
    Success(Join([Heading,
                  Bullets([OpenIssuesLine(repo.openIssuesForStats),
                           respond,
                           AvgTimeSinceLastUpdateText(repo.openIssuesForStats),
                           AvgTimeToCloseText(repo.closedIssuesForStats)]),
                  ActiveIssuesText(repo.topTenActiveIssues, ago),
                  StaleIssuesText(repo.topTenStaleIssues)],
                 "\n\n"))
  }

  /**
   * The section reads, in order: heading, open count, respond, since-update
   * and close bullets, the active listing, then the stale listing, which
   * ends it; it throws exactly when the respond bullet does.
   */
  lemma ReportFailsWithRespond(repo: Repository, ago: Timestamp -> string)
    ensures Report(repo, ago).Failure? <==> RespondText(repo.openIssuesForStats).Failure?
  {
  }

  lemma ReportJoinsRespond(repo: Repository, ago: Timestamp -> string)
    requires RespondText(repo.openIssuesForStats).Success?
    ensures Report(repo, ago).Success?
    ensures Report(repo, ago).value
         == Join([Heading,
                  Bullets([OpenIssuesLine(repo.openIssuesForStats),
                           RespondText(repo.openIssuesForStats).value,
                           AvgTimeSinceLastUpdateText(repo.openIssuesForStats),
                           AvgTimeToCloseText(repo.closedIssuesForStats)]),
                  ActiveIssuesText(repo.topTenActiveIssues, ago),
                  StaleIssuesText(repo.topTenStaleIssues)],
                 "\n\n")
  {
  }

  lemma ReportJoinsBlocks(repo: Repository, ago: Timestamp -> string)
    requires CommentsListed(repo.openIssuesForStats.nodes)
    ensures RespondText(repo.openIssuesForStats).Success?
    ensures Report(repo, ago).Success?
    ensures Report(repo, ago).value
         == Join([Heading,
                  Bullets([OpenIssuesLine(repo.openIssuesForStats),
                           RespondText(repo.openIssuesForStats).value,
                           AvgTimeSinceLastUpdateText(repo.openIssuesForStats),
                           AvgTimeToCloseText(repo.closedIssuesForStats)]),
                  ActiveIssuesText(repo.topTenActiveIssues, ago),
                  StaleIssuesText(repo.topTenStaleIssues)],
                 "\n\n")
  {
    AvgTimeToRespondThrows(repo.openIssuesForStats);
    ReportJoinsRespond(repo, ago);
  }

  /**
   * A generated section reads, in order: heading, open count, respond,
   * since-update and close bullets, the active listing, then the stale
   * listing, which ends it.
   */
  lemma ReportLayout(repo: Repository, ago: Timestamp -> string)
    requires CommentsListed(repo.openIssuesForStats.nodes)
    ensures Report(repo, ago).Success?
    ensures RespondText(repo.openIssuesForStats).Success?
    ensures var open := OpenIssuesLine(repo.openIssuesForStats);
            var respond := RespondText(repo.openIssuesForStats).value;
            var since := AvgTimeSinceLastUpdateText(repo.openIssuesForStats);
            var close := AvgTimeToCloseText(repo.closedIssuesForStats);
            var bullets := Bullets([open, respond, since, close]);
            && bullets == "- " + open + "\n- " + respond + "\n- " + since + "\n- " + close
            && BlocksShape(Report(repo, ago).value, Heading, bullets,
                            ActiveIssuesText(repo.topTenActiveIssues, ago), StaleIssuesText(repo.topTenStaleIssues))
  {
    ReportJoinsBlocks(repo, ago);
    BulletSection(Report(repo, ago).value, Heading, OpenIssuesLine(repo.openIssuesForStats), RespondText(repo.openIssuesForStats).value,
                  AvgTimeSinceLastUpdateText(repo.openIssuesForStats), AvgTimeToCloseText(repo.closedIssuesForStats),
                  ActiveIssuesText(repo.topTenActiveIssues, ago), StaleIssuesText(repo.topTenStaleIssues));
  }

  /** The open count is the collection's `totalCount` verbatim, whatever its nodes. */
  lemma OpenIssuesLineVerbatim(openIssues: Issues, otherNodes: seq<Issue>)
    ensures var digits := NatToString(openIssues.totalCount);
            && OpenIssuesLine(openIssues) == "There are " + digits + " open issues currently."
            && ParseNat(digits) == openIssues.totalCount
            && OpenIssuesLine(openIssues.(nodes := otherNodes)) == OpenIssuesLine(openIssues)
  {
    ParseNatToString(openIssues.totalCount);
  }

  /** The close bullet shows the average's text between its fixed words. */
  lemma CloseTextShows(closedIssues: Issues, shown: string)
    requires NumberText(AvgTimeToClose(closedIssues)) == shown
    ensures AvgTimeToCloseText(closedIssues) == CloseOpening + shown + CloseClosing
  {
  }

  /** No closed issues: 0 / 0 rounds to NaN and prints as such, without a throw. */
  lemma AvgTimeToCloseEmpty(totalCount: nat)
    ensures AvgTimeToCloseText(Issues(totalCount, [])) == CloseOpening + "NaN" + CloseClosing
  {
    assert AvgTimeToClose(Issues(totalCount, [])) == NaN;
    assert NumberText(NaN) == "NaN";
    CloseTextShows(Issues(totalCount, []), "NaN");
  }

  lemma CloseDayTotalTwoAndFour(a: Issue, b: Issue)
    requires a.closedAt.Some? && DiffDays(a.closedAt.value, a.createdAt) == 2
    requires b.closedAt.Some? && DiffDays(b.closedAt.value, b.createdAt) == 4
    ensures CloseDayTotal([a, b]) == 6
  {
    assert [a, b][1..] == [b];
    assert [b][1..] == [];
    assert CloseDayTotal([]) == 0;
    assert CloseDayTotal([b]) == DiffDays(b.closedAt.value, b.createdAt) + CloseDayTotal([]);
    assert CloseDayTotal([b]) == 4;
    assert CloseDayTotal([a, b]) == DiffDays(a.closedAt.value, a.createdAt) + CloseDayTotal([b]);
  }

  lemma AvgTimeToCloseTwoAndFourValue(totalCount: nat, a: Issue, b: Issue)
    requires a.closedAt.Some? && DiffDays(a.closedAt.value, a.createdAt) == 2
    requires b.closedAt.Some? && DiffDays(b.closedAt.value, b.createdAt) == 4
    ensures AvgTimeToClose(Issues(totalCount, [a, b])) == Int(3)
  {
    CloseDayTotalTwoAndFour(a, b);
    var r := AvgTimeToClose(Issues(totalCount, [a, b]));
    assert r.Int?;
    assert r.value == (2 * 6 + 2) / (2 * 2);
  }

  lemma ThreeText()
    ensures NumberText(Int(3)) == "3"
  {
    assert NatToString(3) == [DigitChar(3)] == "3";
  }

  /** Two closed issues that took 2 and 4 days average to about 3 days. */
  lemma AvgTimeToCloseTwoAndFour(totalCount: nat, a: Issue, b: Issue)
    requires a.closedAt.Some? && DiffDays(a.closedAt.value, a.createdAt) == 2
    requires b.closedAt.Some? && DiffDays(b.closedAt.value, b.createdAt) == 4
    ensures AvgTimeToCloseText(Issues(totalCount, [a, b])) == CloseOpening + "3" + CloseClosing
  {
    AvgTimeToCloseTwoAndFourValue(totalCount, a, b);
    ThreeText();
    CloseTextShows(Issues(totalCount, [a, b]), "3");
  }
}
