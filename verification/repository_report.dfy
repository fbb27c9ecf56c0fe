/**
 * The per-repository report: a `## name` heading, the pull-request
 * section, the issue section and a closing rule. It concatenates and
 * computes nothing of its own.
 */
module RepositoryReport {
  import opened Wrappers
  import opened Text
  import opened Numbers
  import opened Api
  import PrReport
  import IssueReport

  function Title(repo: Repository): string {
    "## " + repo.name
  }

  const Rule: string := "___"

  /**
   * Both generators receive the same repository. `showReal` prints a
   * non-integral merge average; `ago` prints how long ago an instant was.
   * The report is generated exactly when every commented open issue lists
   * its first comment; otherwise the error names an open issue whose comment
   * count is nonzero but whose comment list is empty. A generated report
   * opens with `## ` + name and closes with the rule.
   */
  function Report(repo: Repository, showReal: (int, Positive) -> string, ago: Timestamp -> string): (r: Result<string, Crash>)
    ensures r.Success? <==> IssueReport.CommentsListed(repo.openIssuesForStats.nodes)
    ensures r.Failure? ==> && r.error.issue in repo.openIssuesForStats.nodes
                           && IssueReport.HasComments(r.error.issue)
                           && |r.error.issue.comments.nodes| == 0
    ensures r.Success? ==> && |Title(repo)| + |Rule| < |r.value|
                           && r.value[..|Title(repo)|] == Title(repo)
                           && r.value[|r.value| - |Rule|..] == Rule
  {
    var prs := PrReport.Report(repo, showReal);
    var issues :- IssueReport.Report(repo, ago);
    FourBlocks(Title(repo), prs, issues, Rule);
    Success(Join([Title(repo), prs, issues, Rule], "\n\n"))
  }

  /** The report throws exactly when the issue section does, with the same error. */
  lemma ReportFailsWithIssues(repo: Repository, showReal: (int, Positive) -> string, ago: Timestamp -> string)
    ensures var r := Report(repo, showReal, ago);
            var issues := IssueReport.Report(repo, ago);
            && (r.Failure? <==> issues.Failure?)
            && (r.Failure? ==> r.error == issues.error)
  {
  }

  lemma ReportJoinsSections(repo: Repository, showReal: (int, Positive) -> string, ago: Timestamp -> string)
    requires IssueReport.CommentsListed(repo.openIssuesForStats.nodes)
    ensures IssueReport.Report(repo, ago).Success?
    ensures Report(repo, showReal, ago)
         == Success(Join([Title(repo), PrReport.Report(repo, showReal), IssueReport.Report(repo, ago).value, Rule], "\n\n"))
  {
    IssueReport.ReportJoinsBlocks(repo, ago);
  }

  /**
   * When every commented open issue lists its first comment, the report is
   * generated, and it is the heading `## ` + name, the PR section, the
   * issue section and `___`, in that order and separated by blank lines.
   */
  lemma ReportLayout(repo: Repository, showReal: (int, Positive) -> string, ago: Timestamp -> string)
    requires IssueReport.CommentsListed(repo.openIssuesForStats.nodes)
    ensures IssueReport.Report(repo, ago).Success?
    ensures Report(repo, showReal, ago).Success?
    ensures Title(repo)[..3] == "## " && Title(repo)[3..] == repo.name
    ensures BlocksShape(Report(repo, showReal, ago).value,
                        Title(repo), PrReport.Report(repo, showReal), IssueReport.Report(repo, ago).value, Rule)
  {
    ReportJoinsSections(repo, showReal, ago);
    FourBlocks(Title(repo), PrReport.Report(repo, showReal), IssueReport.Report(repo, ago).value, Rule);
  }
}
