/**
 * lib/github-fixed.ts: the pipeline on top of the retrying fetches of
 * lib/github-enhanced.ts, with a README fallback to the first lines, a
 * richer rule for when the README replaces the description, and a generated
 * description when nothing else is left.
 */
module GithubFixed {
  import opened Wrappers
  import opened Text
  import opened Types
  import Seqs
  import Markdown
  import Mocks
  import GithubUtils
  import GithubEnhanced
  import ProjectPipeline
  import Contributions
  import GithubBasic

  // ------------------------------------------------- README, as written

  /**
   * What `fetchWithRetry` resolves to for the README request: the body parsed
   * as JSON, never a `Response`. All that `getReadmeContent` can observe of it
   * is whether it is truthy and has a truthy `ok` field; a JSON value has no
   * `text()` method.
   */
  datatype ParsedBody = ParsedBody(truthyWithOk: bool)

  /**
   * `getReadmeContent` as written: the README is requested through
   * `fetchWithRetry`, which parses the raw markdown as JSON.
   */
  function ReadmeContentAsWritten(network: nat -> GithubEnhanced.Attempt<ParsedBody>): (r: Option<string>)
    ensures r == None
  {
    var fetched := GithubEnhanced.Retry(GithubEnhanced.DefaultRetry, network).result;
    if fetched.Failure? then None          // the error thrown after the retries is caught
    else if !fetched.value.truthyWithOk then None   // `!response || !response.ok`
    else None                              // `response.text` is not a function: the TypeError is caught
  }

  /** A README reply whose raw markdown is not JSON: every attempt's body fails to parse. */
  function RawMarkdownNetwork(): nat -> GithubEnhanced.Attempt<ParsedBody> {
    (k: nat) => GithubEnhanced.Reply(200, None, None)
  }

  /**
   * For a README served as raw markdown, the code as written makes all four
   * attempts, sleeping 1, 2 and 4 seconds between them, and returns null.
   */
  lemma RawReadmeIsRetriedAndLost()
    ensures GithubEnhanced.Retry(GithubEnhanced.DefaultRetry, RawMarkdownNetwork()).attempts == 4
    ensures GithubEnhanced.Retry(GithubEnhanced.DefaultRetry, RawMarkdownNetwork()).delays == [1000, 2000, 4000]
    ensures ReadmeContentAsWritten(RawMarkdownNetwork()) == None
  {
    var network := RawMarkdownNetwork();
    var cfg := GithubEnhanced.DefaultRetry;
    forall i: nat | i <= 3 ensures !GithubEnhanced.Succeeds(network, i) {
      assert network(i).body == None;
    }
    GithubEnhanced.RetryExhausted(cfg, network);
    GithubEnhanced.RetryAttempts(cfg, network);
    assert GithubEnhanced.Pow2(2) == 4;
    assert GithubEnhanced.Backoff(cfg, 0) == 1000;
    assert GithubEnhanced.Backoff(cfg, 1) == 2000;
    assert GithubEnhanced.Backoff(cfg, 2) == 4000;
  }

  /** A one-line README with a usable paragraph. */
  const SampleReadme: string := "Demo app for a web shop made at home."

  /** The same README read as raw text yields a description. */
  lemma SampleReadmeIsUsable()
    ensures ReadmeContent(GithubBasic.ReadmeResponse(200, SampleReadme)).Some?
  {
    SampleLetters();
    TrimOfTrimmed(SampleReadme);
    SampleIsCandidate();
    SingleLineAccepted(SampleReadme, GithubBasic.IsCandidateLine);
    OneCandidateLineIsUsable(SampleReadme);
  }

  /** A README of one line that the scan accepts, read as raw text, yields that line's summary. */
  lemma OneCandidateLineIsUsable(s: string)
    requires s != "" && Trim(s) == s && '\n' !in s
    requires Markdown.FirstAccepted([s], GithubBasic.IsCandidateLine) == Some(s)
    ensures ReadmeContent(GithubBasic.ReadmeResponse(200, s)) == Some(GithubBasic.Summarize(s))
  {
    OneLineReadme(s);
  }

  lemma SingleLineAccepted(s: string, accept: string -> bool)
    requires Trim(s) == s && accept(s)
    ensures Markdown.FirstAccepted([s], accept) == Some(s)
  {
    assert Seqs.FirstIndex([s], (l: string) => accept(Trim(l))) == 0;
  }

  lemma OneLineReadme(s: string)
    requires Trim(s) == s && s != "" && '\n' !in s
    ensures Markdown.ReadmeLines(s) == [s]
  {
    assert SplitOn(s, '\n') == [s];
    Seqs.FilterAll([s], (l: string) => Trim(l) != "");
  }

  lemma SampleLetters()
    ensures SampleReadme[0] == 'D' && SampleReadme[|SampleReadme| - 1] == '.' && |SampleReadme| > 20
    ensures 'l' !in SampleReadme && 'L' !in SampleReadme && 'i' !in SampleReadme && 'I' !in SampleReadme
    ensures 'u' !in SampleReadme && 'U' !in SampleReadme && 'g' !in SampleReadme && 'G' !in SampleReadme
    ensures '\n' !in SampleReadme
  {
    var s := "Demo app for a web shop made at home.";
    assert s == SampleReadme;
    assert forall k :: 0 <= k < |s| ==>
      s[k] != 'l' && s[k] != 'L' && s[k] != 'i' && s[k] != 'I' && s[k] != 'u' && s[k] != 'U' && s[k] != 'g' && s[k] != 'G';
    assert forall k :: 0 <= k < |s| ==> s[k] != '\n';
  }

  lemma FirstCharBlocks(s: string, p: string)
    requires s != [] && p != [] && s[0] != p[0]
    ensures !StartsWith(s, p)
  {
  }

  lemma SampleAvoidsWords()
    ensures !ContainsIgnoringCase(SampleReadme, "license") && !ContainsIgnoringCase(SampleReadme, "installation")
    ensures !ContainsIgnoringCase(SampleReadme, "usage") && !ContainsIgnoringCase(SampleReadme, "getting started")
  {
    var s := SampleReadme;
    SampleLetters();
    LowerStrAvoids(s, 'l');
    LowerStrAvoids(s, 'i');
    LowerStrAvoids(s, 'u');
    LowerStrAvoids(s, 'g');
    NotContainsWithoutFirst(LowerStr(s), "license");
    NotContainsWithoutFirst(LowerStr(s), "installation");
    NotContainsWithoutFirst(LowerStr(s), "usage");
    NotContainsWithoutFirst(LowerStr(s), "getting started");
  }

  lemma SampleAvoidsMarkers()
    ensures !StartsWith(SampleReadme, "#") && !StartsWith(SampleReadme, "[![") && !StartsWith(SampleReadme, "![")
    ensures !StartsWith(SampleReadme, "```") && !StartsWith(SampleReadme, "- ") && !StartsWith(SampleReadme, "* ")
    ensures !StartsWith(SampleReadme, "+ ") && !StartsWith(SampleReadme, ">")
    ensures !GithubBasic.IsNumberedItem(SampleReadme)
  {
    var s := SampleReadme;
    SampleLetters();
    assert TrimStart(s) == s;
    assert Seqs.FirstIndex(s, (c: char) => !GithubBasic.IsDigit(c)) == 0;
    FirstCharBlocks(s, "#");
    FirstCharBlocks(s, "[![");
    FirstCharBlocks(s, "![");
    FirstCharBlocks(s, "```");
    FirstCharBlocks(s, "- ");
    FirstCharBlocks(s, "* ");
    FirstCharBlocks(s, "+ ");
    FirstCharBlocks(s, ">");
  }

  lemma SampleIsCandidate()
    ensures GithubBasic.IsCandidateLine(SampleReadme)
  {
    SampleLetters();
    SampleAvoidsWords();
    SampleAvoidsMarkers();
  }

  // ------------------------------------------------- README, corrected

  /** The fallback: the first three lines joined, header marks and links removed, if over 30 characters. */
  function FirstLinesFallback(lines: seq<string>): (r: Option<string>)
    ensures r.Some? ==> 30 < |r.value| <= 203
  {
    var firstFew := Trim(Join(if |lines| < 3 then lines else lines[..3], " "));
    if |firstFew| > 30 then
      var cleaned := Trim(Markdown.Unlink(Markdown.StripHeaderMarks(firstFew)));
      if |cleaned| > 30 then Some(Markdown.Truncate200(cleaned)) else None
    else None
  }

  /**
   * `getReadmeContent` reading the raw reply, as the function evidently
   * intends: the summary of the first candidate line, else the first-lines
   * fallback; nothing for a failed, non-ok or blank README.
   */
  function ReadmeContent(reply: GithubBasic.ReadmeReply): (r: Option<string>)
    ensures reply.ReadmeThrew? || !IsOk(reply.status) || Trim(reply.text) == "" ==> r == None
    ensures reply.ReadmeResponse? && IsOk(reply.status) && Trim(reply.text) != "" ==>
      var lines := Markdown.ReadmeLines(reply.text);
      var found := Markdown.FirstAccepted(lines, GithubBasic.IsCandidateLine);
      (found.Some? ==> r == Some(GithubBasic.Summarize(found.value)))
      && (found.None? ==> r == FirstLinesFallback(lines))
  {
    if reply.ReadmeThrew? || !IsOk(reply.status) || Trim(reply.text) == "" then None
    else
      var lines := Markdown.ReadmeLines(reply.text);
      var found := Markdown.FirstAccepted(lines, GithubBasic.IsCandidateLine);
      if found.Some? then Some(GithubBasic.Summarize(found.value)) else FirstLinesFallback(lines)
  }

  /** The reading of a README with the scan loop. */
  method GetReadmeContent(reply: GithubBasic.ReadmeReply) returns (r: Option<string>)
    ensures r == ReadmeContent(reply)
  {
    if reply.ReadmeThrew? || !IsOk(reply.status) || Trim(reply.text) == "" {
      return None;
    }
    var lines := Markdown.ReadmeLines(reply.text);
    var found := Markdown.ScanLines(lines, GithubBasic.IsCandidateLine);
    if found.Some? {
      r := Some(GithubBasic.Summarize(found.value));
    } else {
      r := FirstLinesFallback(lines);
    }
  }

  // ----------------------------------------------------------- projects

  /** The description is empty, short, much shorter than the README, or a placeholder. */
  predicate ReadmeIsBetter(description: string, readme: string) {
    || description == ""
    || |description| < 20
    || 2 * |readme| > 3 * |description|
    || ContainsIgnoringCase(description, "no description")
    || ContainsIgnoringCase(description, "add description")
  }

  function GeneratedDescription(language: string, username: string): string {
    "A " + (if language == "" then "software" else language) + " project by " + username
  }

  /** The description before formatting: the README when it is better, and never blank. */
  function ChooseDescription(description: string, readme: Option<string>, language: string, username: string)
    : (r: string)
    ensures Trim(r) != "" || r == GeneratedDescription(language, username)
    ensures readme.Some? && Trim(readme.value) != "" && ReadmeIsBetter(description, readme.value) ==>
      r == readme.value || (Trim(readme.value) == "" && r == GeneratedDescription(language, username))
    ensures !(readme.Some? && Trim(readme.value) != "" && ReadmeIsBetter(description, readme.value)) ==>
      r == (if Trim(description) == "" then GeneratedDescription(language, username) else description)
  {
    var chosen :=
      if readme.Some? && Trim(readme.value) != "" && ReadmeIsBetter(description, readme.value)
      then readme.value else description;
    if chosen == "" || Trim(chosen) == "" then GeneratedDescription(language, username) else chosen
  }

  /** The generated description is never blank: it starts with "A ". */
  lemma GeneratedIsNotBlank(language: string, username: string)
    ensures Trim(GeneratedDescription(language, username)) != ""
  {
    var g := GeneratedDescription(language, username);
    assert g[0] == 'A';
    assert TrimStart(g) == g;
    assert g[|g| - 1] == g[|g| - 1];
    TrimEndKeepsFirst(g);
  }

  lemma {:induction false} TrimEndKeepsFirst(s: string)
    requires s != [] && !IsSpace(s[0])
    ensures TrimEnd(s) != []
  {
    if |s| > 1 && IsSpace(s[|s| - 1]) {
      TrimEndKeepsFirst(s[..|s| - 1]);
    }
  }

  /** Whatever the inputs, the description handed to the formatter is not blank. */
  lemma ChosenIsNotBlank(description: string, readme: Option<string>, language: string, username: string)
    ensures Trim(ChooseDescription(description, readme, language, username)) != ""
  {
    GeneratedIsNotBlank(language, username);
  }

  /** One pool entry as a card, given what the README step yielded for it. */
  function ProcessRepo(repo: Repo, readme: Option<string>, username: string, now: int)
    : (p: Project)
    ensures p.name == repo.name && p.stars == repo.stars
    ensures p.featured <==> ProjectPipeline.Score(repo, now) > 100
    ensures p.description == GithubUtils.FormatRepoDescription(
              ChooseDescription(repo.description, readme, repo.language, username), 200)
    ensures |p.description| <= 201
  {
    var description := ChooseDescription(repo.description, readme, repo.language, username);
    GithubUtils.FormatRepoDescriptionLength(description, 200);
    ProjectPipeline.ToProject(repo, GithubUtils.FormatRepoDescription(description, 200),
                              ProjectPipeline.Score(repo, now) > ProjectPipeline.FeaturedScore)
  }

  /** `reader` gives, by repository name, what the README step yields. */
  function Processed(pool: seq<Repo>, reader: string -> Option<string>, username: string, now: int)
    : (ps: seq<Project>)
    ensures |ps| == |pool|
    ensures forall i :: 0 <= i < |ps| ==> ps[i] == ProcessRepo(pool[i], reader(pool[i].name), username, now)
  {
    seq(|pool|, i requires 0 <= i < |pool| => ProcessRepo(pool[i], reader(pool[i].name), username, now))
  }

  function RankedProjects(repos: seq<Repo>, reader: string -> Option<string>, username: string, now: int)
    : (r: seq<Project>)
    ensures |r| <= ProjectPipeline.PoolLimit
    ensures multiset(r) == multiset(Processed(ProjectPipeline.CandidatePool(repos, now), reader, username, now))
    ensures forall i, j :: 0 <= i < j < |r| && r[j].featured ==> r[i].featured
    ensures forall i, j :: 0 <= i < j < |r| && r[i].featured == r[j].featured ==> r[i].stars >= r[j].stars
  {
    ProjectPipeline.SortFeaturedFirst(Processed(ProjectPipeline.CandidatePool(repos, now), reader, username, now))
  }

  /** The README step as written: each repository's README request, answered by its own network. */
  function AsWrittenReader(readmeNetworks: string -> (nat -> GithubEnhanced.Attempt<ParsedBody>))
    : string -> Option<string>
  {
    (name: string) => ReadmeContentAsWritten(readmeNetworks(name))
  }

  /** The README step as intended: each repository's raw README reply, read by `ReadmeContent`. */
  function IntendedReader(readmes: string -> GithubBasic.ReadmeReply): string -> Option<string> {
    (name: string) => ReadmeContent(readmes(name))
  }

  function ProjectsUser(envUser: string): string {
    if envUser == "" then GithubBasic.DefaultUser else envUser
  }

  /**
   * `getGithubProjects()` as written: `envUser` is `GITHUB_USERNAME` (empty
   * when unset), `network` answers the listing's attempts and
   * `readmeNetworks` each README request's attempts.
   */
  function GetGithubProjects(envUser: string, network: nat -> GithubEnhanced.Attempt<Json<Repo>>,
                             readmeNetworks: string -> (nat -> GithubEnhanced.Attempt<ParsedBody>), now: int)
    : (r: seq<Project>)
    ensures GithubEnhanced.FetchGitHubRepositories(envUser, network) == [] ==> r == Mocks.MockProjects
    ensures GithubEnhanced.FetchGitHubRepositories(envUser, network) != [] ==>
      r == RankedProjects(GithubEnhanced.FetchGitHubRepositories(envUser, network),
                          AsWrittenReader(readmeNetworks), ProjectsUser(envUser), now)
  {
    var repos := GithubEnhanced.FetchGitHubRepositories(envUser, network);
    if repos == [] then Mocks.MockProjects
    else RankedProjects(repos, AsWrittenReader(readmeNetworks), ProjectsUser(envUser), now)
  }

  /** `getGithubProjects()` with the README read as intended; `readmes` gives each raw README reply by name. */
  function GetGithubProjectsIntended(envUser: string, network: nat -> GithubEnhanced.Attempt<Json<Repo>>,
                                     readmes: string -> GithubBasic.ReadmeReply, now: int): (r: seq<Project>)
    ensures GithubEnhanced.FetchGitHubRepositories(envUser, network) == [] ==> r == Mocks.MockProjects
    ensures GithubEnhanced.FetchGitHubRepositories(envUser, network) != [] ==>
      r == RankedProjects(GithubEnhanced.FetchGitHubRepositories(envUser, network),
                          IntendedReader(readmes), ProjectsUser(envUser), now)
  {
    var repos := GithubEnhanced.FetchGitHubRepositories(envUser, network);
    if repos == [] then Mocks.MockProjects
    else RankedProjects(repos, IntendedReader(readmes), ProjectsUser(envUser), now)
  }

  /** Two README steps that agree on every name give the same cards. */
  lemma SameReadmesSameCards(pool: seq<Repo>, reader: string -> Option<string>, other: string -> Option<string>,
                             username: string, now: int)
    requires forall name :: reader(name) == other(name)
    ensures Processed(pool, reader, username, now) == Processed(pool, other, username, now)
  {
  }

  /** Every README request rejects. */
  function NoReadmes(): string -> GithubBasic.ReadmeReply {
    (name: string) => GithubBasic.ReadmeThrew
  }

  /**
   * The code as written ranks exactly the cards the intended code would
   * give if every README request failed: no README ever reaches a card.
   */
  lemma AsWrittenIgnoresReadmes(envUser: string, network: nat -> GithubEnhanced.Attempt<Json<Repo>>,
                                readmeNetworks: string -> (nat -> GithubEnhanced.Attempt<ParsedBody>), now: int)
    ensures GetGithubProjects(envUser, network, readmeNetworks, now)
         == GetGithubProjectsIntended(envUser, network, NoReadmes(), now)
  {
    var repos := GithubEnhanced.FetchGitHubRepositories(envUser, network);
    if repos != [] {
      var failing := IntendedReader(NoReadmes());
      forall name ensures AsWrittenReader(readmeNetworks)(name) == failing(name) {
        assert ReadmeContentAsWritten(readmeNetworks(name)) == None;
        assert failing(name) == ReadmeContent(GithubBasic.ReadmeThrew);
      }
      SameReadmesSameCards(ProjectPipeline.CandidatePool(repos, now), AsWrittenReader(readmeNetworks), failing,
                           ProjectsUser(envUser), now);
    }
  }

  /**
   * So as written every card's description is the repository's own, or the
   * generated "A <language> project by <user>" when that is blank, formatted.
   */
  lemma AsWrittenDescription(repo: Repo, username: string, now: int)
    ensures ProcessRepo(repo, None, username, now).description == GithubUtils.FormatRepoDescription(
      if Trim(repo.description) == "" then GeneratedDescription(repo.language, username) else repo.description, 200)
  {
  }

  // ------------------------------------------------------ contributions

  /** `getGithubContributions()` as a value: no events at all give the empty summary. */
  function ContributionsOf(envUser: string, network: nat -> GithubEnhanced.Attempt<Json<Event>>,
                           today: int, thisMonth: int): (d: Contributions.ContributionData)
    ensures GithubEnhanced.FetchGitHubUserEvents(envUser, network) == [] ==> d == Contributions.EmptyContributions
    ensures GithubEnhanced.FetchGitHubUserEvents(envUser, network) != [] ==>
      d == Contributions.Summary(GithubEnhanced.FetchGitHubUserEvents(envUser, network), today, thisMonth)
  {
    var events := GithubEnhanced.FetchGitHubUserEvents(envUser, network);
    if events == [] then Contributions.EmptyContributions
    else Contributions.Summary(events, today, thisMonth)
  }

  /** `getGithubContributions()` with its month and streak loops. */
  method GetGithubContributions(envUser: string, network: nat -> GithubEnhanced.Attempt<Json<Event>>,
                                today: int, thisMonth: int) returns (d: Contributions.ContributionData)
    ensures d == ContributionsOf(envUser, network, today, thisMonth)
  {
    var events := GithubEnhanced.FetchGitHubUserEvents(envUser, network);
    if events == [] {
      return Contributions.EmptyContributions;
    }
    d := Contributions.Aggregate(events, today, thisMonth);
  }
}
