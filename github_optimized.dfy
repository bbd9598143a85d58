/**
 * lib/github-optimized.ts: one fetch per listing, a module-wide response
 * cache that serves an entry for ten minutes and falls back to a stale entry
 * when a refetch fails, and a lighter processing of each repository.
 */
module GithubOptimized {
  import opened Wrappers
  import opened Text
  import opened Types
  import Seqs
  import Markdown
  import ProjectPipeline
  import Contributions
  import GithubBasic

  const CacheDuration: int := 10 * 60 * 1000
  const ProjectsKey: string := "github-projects"
  const ActivityKey: string := "github-activity"
  const RepoSlice: nat := 30
  const ActivityLimit: nat := 5
  const FeaturedStars: nat := 10

  /** The featured list used when `lib/featured-projects-config.json` cannot be read or parsed. */
  const DefaultFeatured: seq<string> := ["portfolio-website", "portofolio_hasrinata"]

  /** Why a fetcher rejects: the request threw, the status was not ok, or the body was not a JSON array. */
  datatype Failure = NetworkFailure | HttpStatus(status: int) | MalformedBody

  datatype ActivityItem = ActivityItem(kind: string, repo: Option<string>, createdAt: string)

  datatype Activity = Activity(commits: nat, repositories: nat, activities: seq<ActivityItem>)

  /** The values the one cache holds, under the two keys. */
  datatype CachedData = ProjectsData(projects: seq<Project>) | ActivityData(activity: Activity)

  datatype CacheEntry = CacheEntry(data: CachedData, timestamp: int)

  // --------------------------------------------------------------- cache

  predicate IsFresh(entry: CacheEntry, now: int) {
    now - entry.timestamp < CacheDuration
  }

  predicate Hit(entries: map<string, CacheEntry>, key: string, now: int) {
    key in entries && IsFresh(entries[key], now)
  }

  /** One call of `cachedFetch`: the value returned, whether the fetcher ran, and the cache after. */
  datatype CacheOutcome = CacheOutcome(result: Result<CachedData, Failure>, invoked: bool,
                                       entries: map<string, CacheEntry>)

  /**
   * `cachedFetch(key, fetcher)` at clock `now`; `fetched` is what the fetcher
   * would settle to and `after` the clock when it does.
   */
  function CacheStep(entries: map<string, CacheEntry>, key: string, now: int, after: int,
                     fetched: Result<CachedData, Failure>): (o: CacheOutcome)
    ensures o.invoked <==> !Hit(entries, key, now)
    ensures !o.invoked ==> o.result == Success(entries[key].data) && o.entries == entries
    ensures o.result.Failure? <==> o.invoked && fetched.Failure? && key !in entries
    ensures o.result.Failure? ==> o.result == fetched
    ensures o.invoked && fetched.Success? ==> o.result == fetched && key in o.entries
                                               && o.entries[key] == CacheEntry(fetched.value, after)
    ensures o.invoked && fetched.Failure? && key in entries ==> o.result == Success(entries[key].data)
    ensures fetched.Failure? ==> o.entries == entries
    ensures forall k :: k != key ==> (k in o.entries <==> k in entries)
    ensures forall k :: k != key && k in entries ==> o.entries[k] == entries[k]
  {
    if Hit(entries, key, now) then CacheOutcome(Success(entries[key].data), false, entries)
    else if fetched.Success? then CacheOutcome(fetched, true, entries[key := CacheEntry(fetched.value, after)])
    else if key in entries then CacheOutcome(Success(entries[key].data), true, entries)
    else CacheOutcome(fetched, true, entries)
  }

  /**
   * A value fetched on a miss is served again, without calling the fetcher,
   * until ten minutes after it settled, whatever a fetch would return then.
   */
  lemma ServedFromCacheWithinDuration(entries: map<string, CacheEntry>, key: string, now: int, after: int,
                                      v: CachedData, later: int, after2: int, fetched2: Result<CachedData, Failure>)
    requires !Hit(entries, key, now)
    requires later - after < CacheDuration
    ensures var first := CacheStep(entries, key, now, after, Success(v));
            CacheStep(first.entries, key, later, after2, fetched2) == CacheOutcome(Success(v), false, first.entries)
  {
    var first := CacheStep(entries, key, now, after, Success(v));
    assert first.entries[key] == CacheEntry(v, after);
    assert Hit(first.entries, key, later);
  }

  /** Once a key has been stored, no failing fetch makes `cachedFetch` reject for that key again. */
  lemma StoredKeyNeverRejects(entries: map<string, CacheEntry>, key: string, now: int, after: int,
                              v: CachedData, steps: seq<(int, int, Result<CachedData, Failure>)>)
    requires !Hit(entries, key, now)
    ensures var first := CacheStep(entries, key, now, after, Success(v));
            key in first.entries && AllServe(first.entries, key, steps)
  {
    var first := CacheStep(entries, key, now, after, Success(v));
    StoredKeyServes(first.entries, key, steps);
  }

  /** Every call of the sequence `steps`, run from `entries`, resolves successfully. */
  predicate AllServe(entries: map<string, CacheEntry>, key: string, steps: seq<(int, int, Result<CachedData, Failure>)>)
    decreases |steps|
  {
    steps == [] ||
    var o := CacheStep(entries, key, steps[0].0, steps[0].1, steps[0].2);
    o.result.Success? && AllServe(o.entries, key, steps[1..])
  }

  lemma {:induction false} StoredKeyServes(entries: map<string, CacheEntry>, key: string,
                                           steps: seq<(int, int, Result<CachedData, Failure>)>)
    requires key in entries
    ensures AllServe(entries, key, steps)
    decreases |steps|
  {
    if steps != [] {
      var o := CacheStep(entries, key, steps[0].0, steps[0].1, steps[0].2);
      assert key in o.entries;
      StoredKeyServes(o.entries, key, steps[1..]);
    }
  }

  // ------------------------------------------------------------ projects

  /** `lib/featured-projects-config.json`: unreadable or unparsable, or parsed with its `featuredProjects` field. */
  datatype ConfigFile = ConfigUnreadable | ConfigRead(featuredProjects: Option<seq<string>>)

  function FeaturedConfig(config: ConfigFile): (names: seq<string>)
    ensures config.ConfigUnreadable? ==> names == DefaultFeatured
    ensures config.ConfigRead? && config.featuredProjects.None? ==> names == []
    ensures config.ConfigRead? && config.featuredProjects.Some? ==> names == config.featuredProjects.value
  {
    match config
    case ConfigUnreadable => DefaultFeatured
    case ConfigRead(names) => if names.Some? then names.value else []
  }

  /** The `/readme` endpoint's reply as JSON: `content` is the base64 field decoded, absent when it cannot be. */
  datatype EncodedReadme = EncodedThrew | EncodedResponse(status: int, content: Option<string>)

  /** A README line that may stand for the description: over 50 characters, not a heading, image, badge or fence. */
  predicate IsIntroLine(t: string) {
    |t| > 50 && !StartsWith(t, "#") && !StartsWith(t, "!") && !StartsWith(t, "[![") && !StartsWith(t, "```")
  }

  /** The first introductory line of the README, cut to 200 characters plus "...". */
  function ReadmeIntro(reply: EncodedReadme): (r: Option<string>)
    ensures reply.EncodedThrew? || !IsOk(reply.status) || reply.content.None? ==> r == None
    ensures r.Some? ==> 50 < |r.value| <= 203 && r.value[0] != '#' && r.value[0] != '!'
    ensures reply.EncodedResponse? && IsOk(reply.status) && reply.content.Some? ==>
      var lines := Markdown.ReadmeLines(reply.content.value);
      && (r.None? <==> forall i :: 0 <= i < |lines| ==> !IsIntroLine(Trim(lines[i])))
      && (r.Some? ==> exists k :: 0 <= k < |lines| && IsIntroLine(Trim(lines[k]))
                                  && r.value == Markdown.Truncate200(Trim(lines[k]))
                                  && forall i :: 0 <= i < k ==> !IsIntroLine(Trim(lines[i])))
  {
    if reply.EncodedThrew? || !IsOk(reply.status) || reply.content.None? then None
    else
      var found := Markdown.FirstAccepted(Markdown.ReadmeLines(reply.content.value), IsIntroLine);
      if found.None? then None
      else
        IntroCut(found.value);
        Some(Markdown.Truncate200(found.value))
  }

  lemma IntroCut(t: string)
    requires IsIntroLine(t)
    ensures var r := Markdown.Truncate200(t);
      50 < |r| <= 203 && r[0] != '#' && r[0] != '!'
  {
    assert t[..1] == [t[0]];
    var r := Markdown.Truncate200(t);
    assert r[0] == t[0];
  }

  /** The README scan of one repository, with its loop. */
  method ReadReadmeIntro(reply: EncodedReadme) returns (r: Option<string>)
    ensures r == ReadmeIntro(reply)
  {
    if reply.EncodedThrew? || !IsOk(reply.status) || reply.content.None? {
      return None;
    }
    var found := Markdown.ScanLines(Markdown.ReadmeLines(reply.content.value), IsIntroLine);
    r := if found.Some? then Some(Markdown.Truncate200(found.value)) else None;
  }

  /** The description: the README introduction replaces an empty or short one; never empty. */
  function Description(repo: Repo, readme: EncodedReadme): (d: string)
    ensures d != ""
    ensures |repo.description| >= 20 ==> d == repo.description
    ensures |repo.description| < 20 && ReadmeIntro(readme).Some? ==> d == ReadmeIntro(readme).value
    ensures |repo.description| < 20 && ReadmeIntro(readme).None? ==>
      d == (if repo.description == "" then repo.name + " repository" else repo.description)
  {
    var d := if |repo.description| < 20 && ReadmeIntro(readme).Some? then ReadmeIntro(readme).value
             else repo.description;
    if d == "" then repo.name + " repository" else d
  }

  /** JavaScript truthiness of a string: not empty. */
  predicate Truthy(t: string) {
    t != ""
  }

  /** `[...(repo.topics || []), repo.language].filter(Boolean)`: the nonempty topics in order, then the language. */
  function Technologies(repo: Repo): (ts: seq<string>)
    ensures ts == Seqs.Filter(repo.topics, Truthy) + (if repo.language == "" then [] else [repo.language])
    ensures forall t :: t in repo.topics && t != "" ==> t in ts
  {
    var all := repo.topics + [repo.language];
    Seqs.FilterAppend(repo.topics, [repo.language], Truthy);
    assert Seqs.Filter([repo.language], Truthy) == (if repo.language == "" then [] else [repo.language]) by {
      assert [repo.language][1..] == [];
    }
    Seqs.Filter(all, Truthy)
  }

  /** One repository's card. */
  function ProcessRepo(repo: Repo, featured: seq<string>, readme: EncodedReadme): (p: Project)
    ensures p.name == repo.name && p.stars == repo.stars && p.githubUrl == repo.htmlUrl
    ensures p.featured <==> repo.name in featured || repo.stars > FeaturedStars
    ensures p.description != ""
    ensures p.technologies == Technologies(repo)
  {
    Project(NatToString(repo.id), repo.name, Description(repo, readme), Technologies(repo), repo.htmlUrl,
            if repo.homepage == "" then None else Some(repo.homepage), repo.stars, repo.updatedLabel,
            repo.name in featured || repo.stars > FeaturedStars, [])
  }

  function Head<T>(s: seq<T>, n: nat): (r: seq<T>)
    ensures |r| == if |s| < n then |s| else n
    ensures r == s[..|r|]
  {
    if |s| < n then s else s[..n]
  }

  function Cards(repos: seq<Repo>, featured: seq<string>, readmes: string -> EncodedReadme): (ps: seq<Project>)
    ensures |ps| == |repos|
    ensures forall i :: 0 <= i < |repos| ==> ps[i] == ProcessRepo(repos[i], featured, readmes(repos[i].fullName))
  {
    seq(|repos|, i requires 0 <= i < |repos| => ProcessRepo(repos[i], featured, readmes(repos[i].fullName)))
  }

  /**
   * The fetcher of `getOptimizedGithubProjects`: the first 30 repositories of
   * the listing as cards, featured first and by stars.
   */
  function OptimizedProjects(reply: GithubBasic.ReposReply, config: ConfigFile,
                             readmes: string -> EncodedReadme): (r: Result<seq<Project>, Failure>)
    ensures r.Failure? <==> !GithubBasic.Listed(reply)
    ensures reply.ReposThrew? ==> r == Failure(NetworkFailure)
    ensures reply.ReposResponse? && !IsOk(reply.status) ==> r == Failure(HttpStatus(reply.status))
    ensures r.Success? ==>
      var slice := Head(reply.body.value.items, RepoSlice);
      && multiset(r.value) == multiset(Cards(slice, FeaturedConfig(config), readmes))
      && |r.value| <= RepoSlice
      && (forall i, j :: 0 <= i < j < |r.value| && r.value[j].featured ==> r.value[i].featured)
      && (forall i, j :: 0 <= i < j < |r.value| && r.value[i].featured == r.value[j].featured ==>
            r.value[i].stars >= r.value[j].stars)
  {
    if reply.ReposThrew? then Failure(NetworkFailure)
    else if !IsOk(reply.status) then Failure(HttpStatus(reply.status))
    else if reply.body.None? || !reply.body.value.JArray? then Failure(MalformedBody)
    else
      var slice := Head(reply.body.value.items, RepoSlice);
      Success(ProjectPipeline.SortFeaturedFirst(Cards(slice, FeaturedConfig(config), readmes)))
  }

  // ------------------------------------------------------------ activity

  /** The commits of `pushes`: the `reduce` over `payload.commits.length`. */
  function SumCommits(pushes: seq<Event>): nat {
    if pushes == [] then 0 else Contributions.CommitCount(pushes[0]) + SumCommits(pushes[1..])
  }

  /** The commits of any span of months count at most the commits of all pushes. */
  lemma {:induction false} WindowWithinTotal(pushes: seq<Event>, first: int, last: int)
    ensures Contributions.CommitsBetween(pushes, first, last) <= SumCommits(pushes)
  {
    if pushes != [] {
      WindowWithinTotal(pushes[1..], first, last);
    }
  }

  /** With every event in the span of months, the two counts agree. */
  lemma {:induction false} WindowCoversAll(pushes: seq<Event>, first: int, last: int)
    requires forall i :: 0 <= i < |pushes| ==> first <= pushes[i].month <= last
    ensures Contributions.CommitsBetween(pushes, first, last) == SumCommits(pushes)
  {
    if pushes != [] {
      WindowCoversAll(pushes[1..], first, last);
    }
  }

  /** `new Set(events.map(e => e.repo?.name))`, an absent name counting as one value. */
  function RepoNames(events: seq<Event>): set<Option<string>> {
    set e | e in events :: e.repoName
  }

  lemma {:induction false} RepoNamesBound(events: seq<Event>)
    ensures |RepoNames(events)| <= |events|
    ensures events != [] ==> |RepoNames(events)| >= 1
  {
    if events != [] {
      RepoNamesBound(events[1..]);
      assert RepoNames(events) == {events[0].repoName} + RepoNames(events[1..]);
    } else {
      assert RepoNames(events) == {};
    }
  }

  function Items(events: seq<Event>): (items: seq<ActivityItem>)
    ensures |items| == |events|
    ensures forall i :: 0 <= i < |events| ==>
      items[i] == ActivityItem(events[i].kind, events[i].repoName, events[i].createdAt)
  {
    seq(|events|, i requires 0 <= i < |events| =>
      ActivityItem(events[i].kind, events[i].repoName, events[i].createdAt))
  }

  /** The fetcher of `getOptimizedGithubActivity`; a non-ok status resolves to zeros. */
  function OptimizedActivity(reply: GithubBasic.EventsReply): (r: Result<Activity, Failure>)
    ensures reply.EventsThrew? ==> r == Failure(NetworkFailure)
    ensures reply.EventsResponse? && !IsOk(reply.status) ==> r == Success(Activity(0, 0, []))
    ensures reply.EventsResponse? && IsOk(reply.status) && (reply.body.None? || !reply.body.value.JArray?) ==>
      r == Failure(MalformedBody)
    ensures reply.EventsResponse? && IsOk(reply.status) && reply.body.Some? && reply.body.value.JArray? ==>
      var events := reply.body.value.items;
      && r.Success?
      && r.value.commits == SumCommits(Contributions.Pushes(events))
      && r.value.repositories == |RepoNames(events)|
      && r.value.repositories <= |events|
      && (events != [] ==> r.value.repositories >= 1)
      && r.value.activities == Items(Head(events, ActivityLimit))
  {
    if reply.EventsThrew? then Failure(NetworkFailure)
    else if !IsOk(reply.status) then Success(Activity(0, 0, []))
    else if reply.body.None? || !reply.body.value.JArray? then Failure(MalformedBody)
    else
      var events := reply.body.value.items;
      RepoNamesBound(events);
      Success(Activity(SumCommits(Contributions.Pushes(events)), |RepoNames(events)|,
                       Items(Head(events, ActivityLimit))))
  }

  // ------------------------------------------------------ the one cache

  function AsProjects(r: Result<seq<Project>, Failure>): Result<CachedData, Failure> {
    if r.Success? then Success(ProjectsData(r.value)) else Failure(r.error)
  }

  function AsActivity(r: Result<Activity, Failure>): Result<CachedData, Failure> {
    if r.Success? then Success(ActivityData(r.value)) else Failure(r.error)
  }

  function ProjectsOf(r: Result<CachedData, Failure>): Result<seq<Project>, Failure> {
    if r.Failure? then Failure(r.error)
    else if r.value.ProjectsData? then Success(r.value.projects)
    else Failure(MalformedBody)
  }

  function ActivityOf(r: Result<CachedData, Failure>): Result<Activity, Failure> {
    if r.Failure? then Failure(r.error)
    else if r.value.ActivityData? then Success(r.value.activity)
    else Failure(MalformedBody)
  }

  /** The module-level `cache` map. */
  class ResponseCache {
    var entries: map<string, CacheEntry>

    /** Each key holds the kind of data its fetcher produces. */
    predicate Valid()
      reads this
    {
      && (ProjectsKey in entries ==> entries[ProjectsKey].data.ProjectsData?)
      && (ActivityKey in entries ==> entries[ActivityKey].data.ActivityData?)
    }

    constructor()
      ensures Valid() && entries == map[]
    {
      entries := map[];
    }

    method CachedFetch(key: string, now: int, after: int, fetched: Result<CachedData, Failure>)
      returns (result: Result<CachedData, Failure>, invoked: bool)
      modifies this
      ensures CacheOutcome(result, invoked, entries) == CacheStep(old(entries), key, now, after, fetched)
    {
      var cached := key in entries;
      if cached && now - entries[key].timestamp < CacheDuration {
        return Success(entries[key].data), false;
      }
      invoked := true;
      if fetched.Success? {
        entries := entries[key := CacheEntry(fetched.value, after)];
        result := fetched;
      } else if cached {
        result := Success(entries[key].data);
      } else {
        result := fetched;
      }
    }

    /** `getOptimizedGithubProjects()`: the cached card list. */
    method GetOptimizedGithubProjects(reply: GithubBasic.ReposReply, config: ConfigFile,
                                      readmes: string -> EncodedReadme, now: int, after: int)
      returns (r: Result<seq<Project>, Failure>)
      requires Valid()
      modifies this
      ensures Valid()
      ensures var o := CacheStep(old(entries), ProjectsKey, now, after,
                                 AsProjects(OptimizedProjects(reply, config, readmes)));
              entries == o.entries && r == ProjectsOf(o.result)
    {
      var data, _ := CachedFetch(ProjectsKey, now, after, AsProjects(OptimizedProjects(reply, config, readmes)));
      r := ProjectsOf(data);
    }

    /** `getOptimizedGithubActivity()`: the cached activity summary. */
    method GetOptimizedGithubActivity(reply: GithubBasic.EventsReply, now: int, after: int)
      returns (r: Result<Activity, Failure>)
      requires Valid()
      modifies this
      ensures Valid()
      ensures var o := CacheStep(old(entries), ActivityKey, now, after, AsActivity(OptimizedActivity(reply)));
              entries == o.entries && r == ActivityOf(o.result)
    {
      var data, _ := CachedFetch(ActivityKey, now, after, AsActivity(OptimizedActivity(reply)));
      r := ActivityOf(data);
    }
  }

  /** Under the key invariant, the projects call never answers with the other key's data. */
  lemma ProjectsCallIsWellTyped(entries: map<string, CacheEntry>, reply: GithubBasic.ReposReply,
                                config: ConfigFile, readmes: string -> EncodedReadme, now: int, after: int)
    requires ProjectsKey in entries ==> entries[ProjectsKey].data.ProjectsData?
    ensures var o := CacheStep(entries, ProjectsKey, now, after, AsProjects(OptimizedProjects(reply, config, readmes)));
            ProjectsOf(o.result).Failure? ==> ProjectsKey !in entries && !GithubBasic.Listed(reply)
  {
  }
}
