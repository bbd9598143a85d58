/**
 * The contribution summary both `getGithubContributions` variants
 * (lib/github.ts and lib/github-fixed.ts) compute from a list of public
 * events: counts by type, a six-month commit histogram, the current and
 * longest streak, and the five most recent pushes.
 *
 * `today` is the local day number of the moment of the call and `thisMonth`
 * its month as year * 12 + zero-based month.
 */
module Contributions {
  import opened Wrappers
  import opened Text
  import opened Types
  import Seqs

  datatype MonthCommits = MonthCommits(month: string, commits: nat)

  datatype RecentCommit = RecentCommit(message: string, repo: string, date: string, sha: string)

  /** `GitHubContributionData`. */
  datatype ContributionData = ContributionData(
    totalContributions: nat,
    currentStreak: nat,
    longestStreak: nat,
    pullRequests: nat,
    issues: nat,
    commitsByMonth: seq<MonthCommits>,
    recentCommits: seq<RecentCommit>)

  /** The all-zero summary returned on failure. */
  const EmptyContributions := ContributionData(0, 0, 0, 0, 0, [], [])

  const MonthNames: seq<string> := ["Jan", "Feb", "Mar", "Apr", "May", "Jun", "Jul", "Aug", "Sep", "Oct", "Nov", "Dec"]

  const StreakHorizon: nat := 365

  function OfKind(kind: string): Event -> bool {
    (e: Event) => e.kind == kind
  }

  function Pushes(events: seq<Event>): seq<Event> {
    Seqs.Filter(events, OfKind("PushEvent"))
  }

  /** `event.payload?.commits?.length || 0`. */
  function CommitCount(e: Event): nat {
    if e.commits.Some? then |e.commits.value| else 0
  }

  /**
   * The commits of the push events created in the months `first` to `last`:
   * `filter` by month, then `reduce` summing the commit counts.
   */
  function CommitsBetween(pushes: seq<Event>, first: int, last: int): nat {
    if pushes == [] then 0
    else (if first <= pushes[0].month <= last then CommitCount(pushes[0]) else 0)
         + CommitsBetween(pushes[1..], first, last)
  }

  function CommitsInMonth(pushes: seq<Event>, month: int): nat {
    CommitsBetween(pushes, month, month)
  }

  /** The histogram as a value: entry k is month `thisMonth - 5 + k`, oldest first. */
  function Histogram(pushes: seq<Event>, thisMonth: int): (h: seq<MonthCommits>)
    ensures |h| == 6
  {
    seq(6, k requires 0 <= k < 6 =>
      MonthCommits(MonthNames[(thisMonth - 5 + k) % 12], CommitsInMonth(pushes, thisMonth - 5 + k)))
  }

  /** The month loop: `for (i = 5; i >= 0; i--) monthsData.push(...)`. */
  method MonthlyHistogram(pushes: seq<Event>, thisMonth: int) returns (monthsData: seq<MonthCommits>)
    ensures monthsData == Histogram(pushes, thisMonth)
  {
    monthsData := [];
    var i := 5;
    while i >= 0
      invariant -1 <= i <= 5
      invariant monthsData == Histogram(pushes, thisMonth)[..5 - i]
    {
      var month := thisMonth - i;
      var commits := CommitsInMonth(pushes, month);
      monthsData := monthsData + [MonthCommits(MonthNames[month % 12], commits)];
      i := i - 1;
    }
  }

  function TotalCommits(h: seq<MonthCommits>): nat {
    if h == [] then 0 else h[0].commits + TotalCommits(h[1..])
  }

  /** Extending the window by one month adds exactly that month's commits. */
  lemma {:induction false} CommitsBetweenExtend(s: seq<Event>, first: int, last: int)
    requires first <= last
    ensures CommitsBetween(s, first, last) == CommitsBetween(s, first, last - 1) + CommitsInMonth(s, last)
  {
    if s != [] {
      CommitsBetweenExtend(s[1..], first, last);
    }
  }

  lemma {:induction false} EmptyWindow(s: seq<Event>, first: int, last: int)
    requires last < first
    ensures CommitsBetween(s, first, last) == 0
  {
    if s != [] {
      EmptyWindow(s[1..], first, last);
    }
  }

  lemma {:induction false} TotalCommitsAppend(a: seq<MonthCommits>, b: seq<MonthCommits>)
    ensures TotalCommits(a + b) == TotalCommits(a) + TotalCommits(b)
  {
    if a != [] {
      assert (a + b)[1..] == a[1..] + b;
      TotalCommitsAppend(a[1..], b);
    } else {
      assert a + b == b;
    }
  }

  /** The first `n` entries of a per-month list starting at `first` add up to the commits of those months. */
  lemma {:induction false} PrefixTotal(h: seq<MonthCommits>, pushes: seq<Event>, first: int, n: nat)
    requires n <= |h|
    requires forall k :: 0 <= k < |h| ==> h[k].commits == CommitsInMonth(pushes, first + k)
    ensures TotalCommits(h[..n]) == CommitsBetween(pushes, first, first + n - 1)
  {
    if n == 0 {
      EmptyWindow(pushes, first, first - 1);
      assert h[..0] == [];
    } else {
      PrefixTotal(h, pushes, first, n - 1);
      assert h[..n] == h[..n - 1] + [h[n - 1]];
      TotalCommitsAppend(h[..n - 1], [h[n - 1]]);
      assert TotalCommits([h[n - 1]]) == h[n - 1].commits;
      CommitsBetweenExtend(pushes, first, first + n - 1);
    }
  }

  /** The six entries add up to every commit pushed in the last six months, this one included. */
  lemma HistogramTotal(pushes: seq<Event>, thisMonth: int)
    ensures TotalCommits(Histogram(pushes, thisMonth)) == CommitsBetween(pushes, thisMonth - 5, thisMonth)
  {
    var h := Histogram(pushes, thisMonth);
    forall k | 0 <= k < |h| ensures h[k].commits == CommitsInMonth(pushes, thisMonth - 5 + k) {
      assert h[k] == MonthCommits(MonthNames[(thisMonth - 5 + k) % 12], CommitsInMonth(pushes, thisMonth - 5 + k));
    }
    PrefixTotal(h, pushes, thisMonth - 5, 6);
    assert h[..6] == h;
  }

  /** With no push events the histogram is still six entries, each with zero commits. */
  lemma HistogramOfNoPushes(thisMonth: int)
    ensures forall k :: 0 <= k < 6 ==> Histogram([], thisMonth)[k].commits == 0
  {
    forall k | 0 <= k < 6 ensures Histogram([], thisMonth)[k].commits == 0 {
      assert Histogram([], thisMonth)[k].commits == CommitsInMonth([], thisMonth - 5 + k);
    }
  }

  // ------------------------------------------------------------- streaks

  /** How many consecutive days, from `day` backwards, are active, looking at most `horizon` days. */
  function RunLength(active: set<int>, day: int, horizon: nat): (n: nat)
    ensures n <= horizon
    ensures n == 0 <==> horizon == 0 || day !in active
    decreases horizon
  {
    if horizon == 0 || day !in active then 0 else 1 + RunLength(active, day - 1, horizon - 1)
  }

  /**
   * The streak loop, walking back from `today` over 365 days. The current
   * streak is only counted while `i` equals it, and the loop stops at the
   * first inactive day, so the temporary streak never gets past the current
   * one: the longest streak reported is always the current streak.
   */
  method Streaks(active: set<int>, today: int) returns (currentStreak: int, longestStreak: int)
    ensures currentStreak == RunLength(active, today, StreakHorizon)
    ensures longestStreak == currentStreak
  {
    currentStreak := 0;
    longestStreak := 0;
    var tempStreak := 0;
    var checkDate := today;
    var i := 0;
    while i < StreakHorizon
      invariant 0 <= i <= StreakHorizon
      invariant currentStreak == i && tempStreak == i && longestStreak == 0
      invariant checkDate == today - i
      invariant RunLength(active, today, StreakHorizon) == i + RunLength(active, checkDate, StreakHorizon - i)
    {
      if checkDate in active {
        if i == currentStreak {
          currentStreak := currentStreak + 1;
        }
        tempStreak := tempStreak + 1;
      } else {
        if tempStreak > longestStreak {
          longestStreak := tempStreak;
        }
        if i == currentStreak {
          break;
        }
        tempStreak := 0;
      }
      checkDate := checkDate - 1;
      i := i + 1;
    }
    if tempStreak > longestStreak {
      longestStreak := tempStreak;
    }
  }

  /** The local days with at least one push. */
  function ActiveDays(pushes: seq<Event>): set<int> {
    set i | 0 <= i < |pushes| :: pushes[i].day
  }

  /** No push today means no streak; otherwise the streak counts today. */
  lemma StreakStartsToday(pushes: seq<Event>, today: int)
    ensures RunLength(ActiveDays(pushes), today, StreakHorizon) == 0
        <==> forall i :: 0 <= i < |pushes| ==> pushes[i].day != today
  {
    if forall i :: 0 <= i < |pushes| ==> pushes[i].day != today {
      assert today !in ActiveDays(pushes);
    }
  }

  // ------------------------------------------------------- recent commits

  const NoMessage: string := "Push to repository"
  const UnknownRepo: string := "Unknown repo"
  const UnknownSha: string := "unknown"

  /** `event.repo?.name?.split('/')[1] || 'Unknown repo'`. */
  function RepoShortName(name: Option<string>): (r: string)
    ensures r != ""
  {
    if name.None? then UnknownRepo
    else
      var parts := SplitOn(name.value, '/');
      if |parts| >= 2 && parts[1] != "" then parts[1] else UnknownRepo
  }

  /** The short name of "owner/repo" is "repo". */
  lemma RepoShortNameOfFullName(owner: string, repo: string)
    requires '/' !in owner && '/' !in repo && repo != ""
    ensures RepoShortName(Some(owner + "/" + repo)) == repo
  {
    SplitOnAppend(owner, '/', repo);
    assert owner + "/" + repo == owner + ['/'] + repo;
  }

  /** One entry of `recentCommits`: the first commit of the push, or the placeholders. */
  function RecentEntry(e: Event): (c: RecentCommit)
    ensures c.message != "" && c.repo != "" && c.sha != "" && |c.sha| <= 7
    ensures c.date == e.dateLabel
    ensures c.message == NoMessage <==>
      e.commits.None? || |e.commits.value| == 0 || e.commits.value[0].message in {"", NoMessage}
    ensures c.sha == UnknownSha <==>
      e.commits.None? || |e.commits.value| == 0 || Take(e.commits.value[0].sha, 7) in {"", UnknownSha}
  {
    var first := if e.commits.Some? && |e.commits.value| > 0 then Some(e.commits.value[0]) else None;
    var message := if first.Some? && first.value.message != "" then first.value.message else NoMessage;
    var sha := if first.Some? && Take(first.value.sha, 7) != "" then Take(first.value.sha, 7) else UnknownSha;
    RecentCommit(message, RepoShortName(e.repoName), e.dateLabel, sha)
  }

  /** `pushEvents.slice(0, 5).map(...)`. */
  function RecentCommits(pushes: seq<Event>): (r: seq<RecentCommit>)
    ensures |r| == if |pushes| < 5 then |pushes| else 5
    ensures forall i :: 0 <= i < |r| ==> r[i] == RecentEntry(pushes[i])
  {
    var recent := if |pushes| < 5 then pushes else pushes[..5];
    seq(|recent|, i requires 0 <= i < |recent| => RecentEntry(recent[i]))
  }

  // ------------------------------------------------------------ summary

  function Min365(n: int): int {
    if n < 365 then n else 365
  }

  /** The summary of a list of events, as the code after the fetches computes it. */
  function Summary(events: seq<Event>, today: int, thisMonth: int): (d: ContributionData)
    ensures d.totalContributions == |Pushes(events)| + |Seqs.Filter(events, OfKind("PullRequestEvent"))|
                                    + |Seqs.Filter(events, OfKind("IssuesEvent"))|
    ensures d.pullRequests == |Seqs.Filter(events, OfKind("PullRequestEvent"))|
    ensures d.issues == |Seqs.Filter(events, OfKind("IssuesEvent"))|
    ensures d.currentStreak == d.longestStreak <= 365
    ensures d.currentStreak == RunLength(ActiveDays(Pushes(events)), today, StreakHorizon)
    ensures d.commitsByMonth == Histogram(Pushes(events), thisMonth)
    ensures d.recentCommits == RecentCommits(Pushes(events)) && |d.recentCommits| <= 5
  {
    var pushes := Pushes(events);
    var pulls := Seqs.Filter(events, OfKind("PullRequestEvent"));
    var issues := Seqs.Filter(events, OfKind("IssuesEvent"));
    var streak := RunLength(ActiveDays(pushes), today, StreakHorizon);
    ContributionData(|pushes| + |pulls| + |issues|, Min365(streak), Min365(streak), |pulls|, |issues|,
                     Histogram(pushes, thisMonth), RecentCommits(pushes))
  }

  /** The aggregation code: the filters, the month loop, the streak loop and the recent list. */
  method Aggregate(events: seq<Event>, today: int, thisMonth: int) returns (d: ContributionData)
    ensures d == Summary(events, today, thisMonth)
  {
    var pushes := Pushes(events);
    var pulls := Seqs.Filter(events, OfKind("PullRequestEvent"));
    var issues := Seqs.Filter(events, OfKind("IssuesEvent"));
    var monthsData := MonthlyHistogram(pushes, thisMonth);
    var currentStreak, longestStreak := Streaks(ActiveDays(pushes), today);
    d := ContributionData(|pushes| + |pulls| + |issues|, Min365(currentStreak), Min365(longestStreak),
                          |pulls|, |issues|, monthsData, RecentCommits(pushes));
  }
}
