/**
 * lib/github.ts: the first version of the project pipeline (direct fetches,
 * README summary without fallback, sample projects on any failure) and of the
 * contribution summary (six zero months when the events cannot be read).
 */
module GithubBasic {
  import opened Wrappers
  import opened Text
  import opened Types
  import Seqs
  import Markdown
  import Mocks
  import GithubUtils
  import ProjectPipeline
  import Contributions

  const DefaultUser: string := "Urdemonlord"

  // ------------------------------------------------------------- README

  predicate IsDigit(c: char) {
    '0' <= c <= '9'
  }

  /** `/^\s*[0-9]+\.\s/`: a numbered list item. */
  predicate IsNumberedItem(t: string) {
    var u := TrimStart(t);
    var k := Seqs.FirstIndex(u, (c: char) => !IsDigit(c));
    k >= 1 && k + 1 < |u| && u[k] == '.' && IsSpace(u[k + 1])
  }

  /** The lines the README scan passes over: headings, badges, images, fences, list items, quotes, boilerplate. */
  predicate IsSkippedLine(t: string) {
    || t == ""
    || StartsWith(t, "#") || StartsWith(t, "[![") || StartsWith(t, "![") || StartsWith(t, "```")
    || StartsWith(t, "- ") || StartsWith(t, "* ") || StartsWith(t, "+ ")
    || IsNumberedItem(t)
    || StartsWith(t, ">")
    || ContainsIgnoringCase(t, "license") || ContainsIgnoringCase(t, "installation")
    || ContainsIgnoringCase(t, "usage") || ContainsIgnoringCase(t, "getting started")
  }

  /** A trimmed line the scan stops at: not skipped and longer than 20 characters. */
  predicate IsCandidateLine(t: string) {
    !IsSkippedLine(t) && |t| > 20
  }

  /**
   * The clean-up of the chosen line: its first sentence, trimmed, when that is
   * longer than 10 characters, otherwise the cleaned line cut to 200
   * characters plus "...".
   */
  function Summarize(found: string): string {
    var cleaned := Markdown.CleanInline(found);
    var first := Markdown.FirstSentence(cleaned);
    if first.Some? && |first.value| > 10 then Trim(first.value) else Markdown.Truncate200(cleaned)
  }

  /** A first sentence over 10 characters is returned trimmed; it still ends in its punctuation. */
  lemma SummarizeKeepsFirstSentence(found: string)
    requires var first := Markdown.FirstSentence(Markdown.CleanInline(found));
      first.Some? && |first.value| > 10
    ensures var first := Markdown.FirstSentence(Markdown.CleanInline(found)).value;
      var r := Summarize(found);
      r == Trim(first) && r != [] && Markdown.IsSentenceEnd(r[|r| - 1])
  {
    var first := Markdown.FirstSentence(Markdown.CleanInline(found)).value;
    assert Markdown.IsSentenceEnd(first[|first| - 1]);
    TrimKeepsLast(first);
  }

  /** Otherwise the cleaned line is returned, cut to 200 characters plus "...": at most 203. */
  lemma SummarizeTruncates(found: string)
    requires var first := Markdown.FirstSentence(Markdown.CleanInline(found));
      !(first.Some? && |first.value| > 10)
    ensures |Summarize(found)| <= 203
    ensures Summarize(found) == Markdown.Truncate200(Markdown.CleanInline(found))
  {
  }

  /** Trimming a string that ends in a non-space character keeps that character last. */
  lemma TrimKeepsLast(s: string)
    requires s != [] && !IsSpace(s[|s| - 1])
    ensures Trim(s) != [] && Trim(s)[|Trim(s)| - 1] == s[|s| - 1]
  {
    var t := TrimStart(s);
    assert t == s[|s| - |t|..];
    if t == [] {
      TrimStartOfNonSpaceEnd(s);
    }
  }

  lemma {:induction false} TrimStartOfNonSpaceEnd(s: string)
    requires s != [] && !IsSpace(s[|s| - 1])
    ensures TrimStart(s) != []
  {
    if IsSpace(s[0]) {
      TrimStartOfNonSpaceEnd(s[1..]);
    }
  }

  /** What the README text yields: the summary of the first candidate line, if there is one. */
  function ExtractDescription(text: string): (r: Option<string>)
    ensures var lines := Markdown.ReadmeLines(text);
      && (r.None? <==> forall i :: 0 <= i < |lines| ==> !IsCandidateLine(Trim(lines[i])))
      && (r.Some? ==> exists k :: 0 <= k < |lines| && IsCandidateLine(Trim(lines[k]))
                                  && r.value == Summarize(Trim(lines[k]))
                                  && forall i :: 0 <= i < k ==> !IsCandidateLine(Trim(lines[i])))
  {
    var found := Markdown.FirstAccepted(Markdown.ReadmeLines(text), IsCandidateLine);
    if found.Some? then Some(Summarize(found.value)) else None
  }

  /** The README endpoint's reply: a rejected request or a response with its status and raw text. */
  datatype ReadmeReply = ReadmeThrew | ReadmeResponse(status: int, text: string)

  /** `getReadmeContent` as a value. */
  function ReadmeContent(reply: ReadmeReply): (r: Option<string>)
    ensures reply.ReadmeThrew? || !IsOk(reply.status) ==> r == None
    ensures reply.ReadmeResponse? && IsOk(reply.status) ==> r == ExtractDescription(reply.text)
  {
    if reply.ReadmeThrew? || !IsOk(reply.status) then None else ExtractDescription(reply.text)
  }

  /** `getReadmeContent(username, repoName, token)`, the line scan as a loop. */
  method GetReadmeContent(reply: ReadmeReply) returns (r: Option<string>)
    ensures r == ReadmeContent(reply)
  {
    if reply.ReadmeThrew? || !IsOk(reply.status) {
      return None;
    }
    var lines := Markdown.ReadmeLines(reply.text);
    var found := Markdown.ScanLines(lines, IsCandidateLine);
    if found.Some? {
      r := Some(Summarize(found.value));
    } else {
      r := None;
    }
  }

  // ----------------------------------------------------------- projects

  /** The README text replaces the description (or its placeholder) only when strictly longer. */
  function ChooseDescription(description: string, readme: Option<string>): (r: string)
    ensures var base := if description == "" then GithubUtils.NoDescription else description;
      && (readme.Some? && |readme.value| > |base| ==> r == readme.value)
      && (!(readme.Some? && |readme.value| > |base|) ==> r == base)
      && |r| >= |base|
  {
    var base := if description == "" then GithubUtils.NoDescription else description;
    if readme.Some? && readme.value != "" && |readme.value| > |base| then readme.value else base
  }

  function IsFeatured(now: int): Repo -> bool {
    (repo: Repo) => ProjectPipeline.Score(repo, now) > ProjectPipeline.FeaturedScore
  }

  /** One pool entry as a project card. */
  function ProcessRepo(repo: Repo, readmes: string -> ReadmeReply, now: int): (p: Project)
    ensures p.name == repo.name && p.stars == repo.stars
    ensures p.featured <==> ProjectPipeline.Score(repo, now) > 100
    ensures p.description == GithubUtils.FormatRepoDescription(
              ChooseDescription(repo.description, ReadmeContent(readmes(repo.name))), 200)
    ensures |p.description| <= 201
  {
    var description := ChooseDescription(repo.description, ReadmeContent(readmes(repo.name)));
    GithubUtils.FormatRepoDescriptionLength(description, 200);
    ProjectPipeline.ToProject(repo, GithubUtils.FormatRepoDescription(description, 200), IsFeatured(now)(repo))
  }

  function Processed(pool: seq<Repo>, readmes: string -> ReadmeReply, now: int): (ps: seq<Project>)
    ensures |ps| == |pool|
    ensures forall i :: 0 <= i < |ps| ==> ps[i] == ProcessRepo(pool[i], readmes, now)
  {
    seq(|pool|, i requires 0 <= i < |pool| => ProcessRepo(pool[i], readmes, now))
  }

  /** The repository listing's reply; `body` is `None` when it is not valid JSON. */
  datatype ReposReply = ReposThrew | ReposResponse(status: int, body: Option<Json<Repo>>)

  predicate Listed(reply: ReposReply) {
    reply.ReposResponse? && IsOk(reply.status) && reply.body.Some? && reply.body.value.JArray?
  }

  /** The pool processed into cards, featured first and by stars. */
  function RankedProjects(repos: seq<Repo>, readmes: string -> ReadmeReply, now: int): (r: seq<Project>)
    ensures |r| <= ProjectPipeline.PoolLimit
    ensures multiset(r) == multiset(Processed(ProjectPipeline.CandidatePool(repos, now), readmes, now))
    ensures forall i, j :: 0 <= i < j < |r| && r[j].featured ==> r[i].featured
    ensures forall i, j :: 0 <= i < j < |r| && r[i].featured == r[j].featured ==> r[i].stars >= r[j].stars
  {
    ProjectPipeline.SortFeaturedFirst(Processed(ProjectPipeline.CandidatePool(repos, now), readmes, now))
  }

  /**
   * `getGithubProjects()`: `readmes` gives each repository's README reply by
   * name, `now` is the clock. A failed listing, ok or not, yields the sample
   * projects.
   */
  function GetGithubProjects(reposReply: ReposReply, readmes: string -> ReadmeReply, now: int): (r: seq<Project>)
    ensures !Listed(reposReply) ==> r == Mocks.MockProjects
    ensures Listed(reposReply) ==> r == RankedProjects(reposReply.body.value.items, readmes, now)
  {
    if !Listed(reposReply) then Mocks.MockProjects
    else RankedProjects(reposReply.body.value.items, readmes, now)
  }

  /** Every card in the result is featured exactly when its repository scores over 100. */
  lemma FeaturedMeansHighScore(repos: seq<Repo>, readmes: string -> ReadmeReply, now: int, k: nat)
    requires k < |RankedProjects(repos, readmes, now)|
    ensures var p := RankedProjects(repos, readmes, now)[k];
      exists repo :: repo in ProjectPipeline.CandidatePool(repos, now)
        && p == ProcessRepo(repo, readmes, now)
        && (p.featured <==> ProjectPipeline.Score(repo, now) > 100)
  {
    var pool := ProjectPipeline.CandidatePool(repos, now);
    var ps := Processed(pool, readmes, now);
    var r := RankedProjects(repos, readmes, now);
    assert r[k] in multiset(ps);
    var j :| 0 <= j < |ps| && ps[j] == r[k];
    assert pool[j] in pool;
  }

  // ------------------------------------------------------ contributions

  /** The events endpoint's reply. */
  datatype EventsReply = EventsThrew | EventsResponse(status: int, body: Option<Json<Event>>)

  /** The user endpoint's reply; only whether it could be read matters. */
  datatype UserReply = UserThrew | UserResponse(status: int, parsed: bool)

  /** `getGithubContributions()` as a value. */
  function ContributionsOf(events: EventsReply, user: UserReply, today: int, thisMonth: int)
    : (d: Contributions.ContributionData)
    ensures events.EventsThrew? || user.UserThrew? ==> d == Contributions.EmptyContributions
    ensures events.EventsResponse? && !IsOk(events.status) && user.UserResponse?
            && (!IsOk(user.status) || user.parsed) ==>
      d == Contributions.Summary([], today, thisMonth)
    ensures events.EventsResponse? && IsOk(events.status) && !(events.body.Some? && events.body.value.JArray?) ==>
      d == Contributions.EmptyContributions
    ensures events.EventsResponse? && IsOk(events.status) && events.body.Some? && events.body.value.JArray?
            && user.UserResponse? && (!IsOk(user.status) || user.parsed) ==>
      d == Contributions.Summary(events.body.value.items, today, thisMonth)
    ensures user.UserResponse? && IsOk(user.status) && !user.parsed ==> d == Contributions.EmptyContributions
  {
    if events.EventsThrew? then Contributions.EmptyContributions
    else if IsOk(events.status) && !(events.body.Some? && events.body.value.JArray?) then
      Contributions.EmptyContributions
    else if user.UserThrew? || (IsOk(user.status) && !user.parsed) then Contributions.EmptyContributions
    else
      var list := if IsOk(events.status) then events.body.value.items else [];
      Contributions.Summary(list, today, thisMonth)
  }

  /** Unreadable events still give a six-month histogram, every month at zero, and no streak. */
  lemma NoEventsSixZeroMonths(events: EventsReply, user: UserReply, today: int, thisMonth: int)
    requires events.EventsResponse? && !IsOk(events.status)
    requires user.UserResponse? && (!IsOk(user.status) || user.parsed)
    ensures var d := ContributionsOf(events, user, today, thisMonth);
      && |d.commitsByMonth| == 6
      && (forall k :: 0 <= k < 6 ==> d.commitsByMonth[k].commits == 0)
      && d.totalContributions == 0 && d.currentStreak == 0 && d.longestStreak == 0
      && d.recentCommits == []
  {
    Contributions.HistogramOfNoPushes(thisMonth);
    assert Contributions.Pushes([]) == [];
    assert Contributions.ActiveDays([]) == {};
  }

  /** `getGithubContributions()` with its month and streak loops. */
  method GetGithubContributions(events: EventsReply, user: UserReply, today: int, thisMonth: int)
    returns (d: Contributions.ContributionData)
    ensures d == ContributionsOf(events, user, today, thisMonth)
  {
    if events.EventsThrew? {
      return Contributions.EmptyContributions;
    }
    var list: seq<Event> := [];
    if IsOk(events.status) {
      if !(events.body.Some? && events.body.value.JArray?) {
        return Contributions.EmptyContributions;
      }
      list := events.body.value.items;
    }
    if user.UserThrew? || (IsOk(user.status) && !user.parsed) {
      return Contributions.EmptyContributions;
    }
    d := Contributions.Aggregate(list, today, thisMonth);
  }
}
