/**
 * lib/github-utils.ts: the relevance score, the technology tags, the
 * description formatter, the sliding-window rate limiter and the TTL memo
 * cache of the GitHub layer.
 */
module GithubUtils {
  import opened Wrappers
  import opened Text
  import opened Types
  import Seqs
  import Markdown

  // ---------------------------------------------------------------- score

  const DayMs: int := 24 * 60 * 60 * 1000
  const PopularLanguages: seq<string> := ["TypeScript", "JavaScript", "Python", "React", "Next.js"]

  /**
   * Points for recent activity. The source compares the fractional day count
   * `(now - updatedAt) / DayMs` with 30 and 90; comparing the milliseconds
   * with 30 and 90 days is the same test.
   */
  function RecencyBonus(updatedAt: int, now: int): (b: int)
    ensures b in {0, 25, 50}
    ensures b == 50 <==> now - updatedAt < 30 * DayMs
    ensures b == 0 <==> now - updatedAt >= 90 * DayMs
  {
    var age := now - updatedAt;
    if age < 30 * DayMs then 50 else if age < 90 * DayMs then 25 else 0
  }

  /** `calculateProjectScore(repo)` at the instant `now` (milliseconds). */
  function CalculateProjectScore(repo: Repo, now: int): (score: int)
    ensures 10 * repo.stars - 100 <= score <= 10 * repo.stars + 140
    ensures repo.fork && repo.stars < 5 ==> score <= 10 * repo.stars + 40
    ensures !(repo.fork && repo.stars < 5) ==> score >= 10 * repo.stars
  {
    10 * repo.stars
    + RecencyBonus(repo.updatedAt, now)
    + (if |repo.description| > 20 then 20 else 0)
    + (if |repo.topics| > 0 then 15 else 0)
    + (if repo.homepage != "" then 25 else 0)
    + (if repo.language != "" && repo.language in PopularLanguages then 30 else 0)
    - (if repo.fork && repo.stars < 5 then 100 else 0)
  }

  /** More stars never lower the score: each star is worth 10, and crossing 5 lifts the fork penalty. */
  lemma ScoreIncreasesWithStars(repo: Repo, now: int, more: nat)
    requires more > repo.stars
    ensures CalculateProjectScore(repo.(stars := more), now) >= CalculateProjectScore(repo, now) + 10
  {
  }

  /** A more recent update never lowers the score. */
  lemma ScoreFavoursRecentUpdates(repo: Repo, now: int, later: int)
    requires later >= repo.updatedAt
    ensures CalculateProjectScore(repo.(updatedAt := later), now) >= CalculateProjectScore(repo, now)
  {
  }

  /**
   * A repository with 15 stars, updated 10 days ago, written in TypeScript,
   * with nothing else set scores 150 + 50 + 30 = 230.
   */
  lemma ScoreOfStarredTypeScriptRepo(repo: Repo, now: int)
    requires repo.stars == 15 && now - repo.updatedAt == 10 * DayMs
    requires repo.description == "" && repo.homepage == "" && repo.topics == []
    requires repo.language == "TypeScript" && !repo.fork
    ensures CalculateProjectScore(repo, now) == 230
  {
  }

  /** A barely starred fork with no other merits scores at most -60, below the -50 pool cut. */
  lemma BareForkScoresBelowPoolCut(repo: Repo, now: int)
    requires repo.fork && repo.stars < 5
    requires now - repo.updatedAt >= 90 * DayMs
    requires |repo.description| <= 20 && repo.topics == [] && repo.homepage == ""
    requires repo.language !in PopularLanguages
    ensures CalculateProjectScore(repo, now) <= -60
  {
  }

  // --------------------------------------------------------- technologies

  const IgnoredTopics: seq<string> := ["readme", "license", "docs", "documentation", "portfolio", "project"]

  predicate IsIgnoredTopic(tech: string) {
    LowerStr(tech) in IgnoredTopics
  }

  /** The primary language (if any) followed by the first six topics. */
  function TechnologyCandidates(repo: Repo): (c: seq<string>)
    ensures |c| <= 7
  {
    (if repo.language != "" then [repo.language] else [])
    + (if |repo.topics| > 6 then repo.topics[..6] else repo.topics)
  }

  /** `Array.from(new Set(s))`: first occurrences only, in order. */
  function Dedup(s: seq<string>): (r: seq<string>)
    ensures Seqs.NoDup(r)
    ensures |r| <= |s|
    ensures forall i :: 0 <= i < |r| ==> r[i] in s
    ensures forall i :: 0 <= i < |s| ==> s[i] in r
    ensures s != [] ==> r != [] && r[0] == s[0]
  {
    if s == [] then []
    else
      var init := s[..|s| - 1];
      var d := Dedup(init);
      var last := s[|s| - 1];
      assert s == init + [last];
      assert forall i :: 0 <= i < |s| - 1 ==> s[i] == init[i];
      if last in d then d else d + [last]
  }

  /** `extractTechnologies(repo)`. */
  function ExtractTechnologies(repo: Repo): (r: seq<string>)
    ensures Seqs.NoDup(r)
    ensures |r| <= 8
    ensures forall i :: 0 <= i < |r| ==> !IsIgnoredTopic(r[i]) && r[i] in TechnologyCandidates(repo)
    ensures forall t :: t in TechnologyCandidates(repo) && !IsIgnoredTopic(t) ==> t in r
    ensures repo.language != "" && !IsIgnoredTopic(repo.language) ==> r != [] && r[0] == repo.language
  {
    var candidates := TechnologyCandidates(repo);
    var unique := Dedup(candidates);
    var kept := Seqs.Filter(unique, (t: string) => !IsIgnoredTopic(t));
    Seqs.FilterNoDup(unique, (t: string) => !IsIgnoredTopic(t));
    forall t | t in candidates && !IsIgnoredTopic(t) ensures t in kept {
      var i :| 0 <= i < |candidates| && candidates[i] == t;
      assert t in unique;
      var j :| 0 <= j < |unique| && unique[j] == t;
    }
    kept[..if |kept| < 8 then |kept| else 8]
  }

  // ---------------------------------------------------------- description

  const NoDescription: string := "No description provided."

  /** The clean-up chain of `formatRepoDescription`, ending with `trim()`. */
  function CleanDescription(description: string): (r: string)
    ensures |r| <= |description|
  {
    Trim(Markdown.StripLeadingQuote(
      Markdown.Unwrap(Markdown.Unwrap(Markdown.Unwrap(
        Markdown.Unlink(Markdown.StripLeadingHashes(description)), '`', 1), '*', 2), '*', 1)))
  }

  /**
   * The sentence-joining loop: starting from `acc`, append "." and the next
   * piece for as long as the result stays within `maxLength`.
   */
  function GrowSentences(acc: string, rest: seq<string>, maxLength: int): (r: string)
    ensures |acc| <= maxLength ==> |r| <= maxLength
    ensures |acc| > maxLength ==> r == acc
    ensures StartsWith(r, acc)
    decreases |rest|
  {
    if rest == [] then acc
    else
      var next := acc + "." + rest[0];
      if |next| > maxLength then acc
      else
        var r := GrowSentences(next, rest[1..], maxLength);
        assert r[..|next|] == next;
        assert next[..|acc|] == acc;
        r
  }

  /** The loop of lines 91-97: the longest run of leading pieces joined by "." that fits. */
  method JoinSentences(sentences: seq<string>, maxLength: int) returns (result: string)
    requires |sentences| >= 1
    ensures result == GrowSentences(sentences[0], sentences[1..], maxLength)
  {
    result := sentences[0];
    var i := 1;
    while i < |sentences|
      invariant 1 <= i <= |sentences|
      invariant GrowSentences(result, sentences[i..], maxLength) == GrowSentences(sentences[0], sentences[1..], maxLength)
    {
      var next := result + "." + sentences[i];
      assert sentences[i..][0] == sentences[i] && sentences[i..][1..] == sentences[i + 1..];
      if |next| > maxLength {
        break;
      }
      result := next;
      i := i + 1;
    }
  }

  /** The branch of `formatRepoDescription` for a cleaned text over the limit. */
  function Shorten(cleaned: string, maxLength: int): string
    requires |cleaned| > maxLength
  {
    var sentences := Markdown.SplitSentences(cleaned);
    var result := GrowSentences(sentences[0], sentences[1..], maxLength);
    if |result| > maxLength then
      Take(cleaned, maxLength - 3) + "..."
    else
      result + (if EndsWith(result, ".") then "" else ".")
  }

  /** `formatRepoDescription(description, maxLength)`; the empty string stands for null. */
  function FormatRepoDescription(description: string, maxLength: int): (r: string)
    ensures description == "" ==> r == NoDescription
    ensures description != "" && |CleanDescription(description)| <= maxLength ==> r == CleanDescription(description)
  {
    if description == "" then NoDescription
    else
      var cleaned := CleanDescription(description);
      if |cleaned| <= maxLength then cleaned else Shorten(cleaned, maxLength)
  }

  lemma ShortenCut(cleaned: string, maxLength: int)
    requires maxLength >= 3 && |cleaned| > maxLength
    requires |Markdown.SplitSentences(cleaned)[0]| > maxLength
    ensures var r := Shorten(cleaned, maxLength);
      |r| == maxLength && EndsWith(r, "...") && r[..maxLength - 3] == cleaned[..maxLength - 3]
  {
    var sentences := Markdown.SplitSentences(cleaned);
    assert GrowSentences(sentences[0], sentences[1..], maxLength) == sentences[0];
    var r := Take(cleaned, maxLength - 3) + "...";
    assert r[..maxLength - 3] == cleaned[..maxLength - 3];
  }

  lemma ShortenWhole(cleaned: string, maxLength: int)
    requires |cleaned| > maxLength
    requires |Markdown.SplitSentences(cleaned)[0]| <= maxLength
    ensures var r := Shorten(cleaned, maxLength);
      |r| <= maxLength + 1 && EndsWith(r, ".") && StartsWith(r, Markdown.SplitSentences(cleaned)[0])
  {
    var sentences := Markdown.SplitSentences(cleaned);
    var first := sentences[0];
    var result := GrowSentences(first, sentences[1..], maxLength);
    var r := result + (if EndsWith(result, ".") then "" else ".");
    assert r[..|result|] == result;
    assert result[..|first|] == first;
    assert r[..|first|] == r[..|result|][..|first|];
  }

  /**
   * A description longer than the limit whose first sentence alone is too
   * long is cut hard: exactly `maxLength` characters, the last three "...".
   */
  lemma FormatCutsOverlongFirstSentence(description: string, maxLength: int)
    requires description != "" && maxLength >= 3
    requires |CleanDescription(description)| > maxLength
    requires |Markdown.SplitSentences(CleanDescription(description))[0]| > maxLength
    ensures var r := FormatRepoDescription(description, maxLength);
      |r| == maxLength && EndsWith(r, "...")
      && r[..maxLength - 3] == CleanDescription(description)[..maxLength - 3]
  {
    ShortenCut(CleanDescription(description), maxLength);
  }

  /**
   * Otherwise the result is whole leading sentences, starting with the first,
   * closed by a full stop: at most one character over the limit.
   */
  lemma FormatKeepsWholeSentences(description: string, maxLength: int)
    requires description != ""
    requires |CleanDescription(description)| > maxLength
    requires |Markdown.SplitSentences(CleanDescription(description))[0]| <= maxLength
    ensures var r := FormatRepoDescription(description, maxLength);
      |r| <= maxLength + 1 && EndsWith(r, ".")
      && StartsWith(r, Markdown.SplitSentences(CleanDescription(description))[0])
  {
    ShortenWhole(CleanDescription(description), maxLength);
  }

  /** Whatever the input, the result is at most one character over a limit of at least 24. */
  lemma FormatRepoDescriptionLength(description: string, maxLength: int)
    requires maxLength >= |NoDescription|
    ensures |FormatRepoDescription(description, maxLength)| <= maxLength + 1
  {
    if description != "" && |CleanDescription(description)| > maxLength {
      if |Markdown.SplitSentences(CleanDescription(description))[0]| > maxLength {
        FormatCutsOverlongFirstSentence(description, maxLength);
      } else {
        FormatKeepsWholeSentences(description, maxLength);
      }
    }
  }

  // --------------------------------------------------------- rate limiter

  /** Whether a request made at `t` still counts against the window at `now`. */
  function InWindow(now: int, timeWindow: int): int -> bool {
    (t: int) => now - t < timeWindow
  }

  /** The timestamps still inside the window at `now`. */
  function Prune(requests: seq<int>, now: int, timeWindow: int): (r: seq<int>)
    ensures forall i :: 0 <= i < |r| ==> now - r[i] < timeWindow && r[i] in requests
    ensures forall i :: 0 <= i < |requests| && now - requests[i] < timeWindow ==> requests[i] in r
  {
    Seqs.Filter(requests, InWindow(now, timeWindow))
  }

  /** Pruning at an earlier instant and then at a later one is pruning at the later one. */
  lemma PruneTwice(requests: seq<int>, earlier: int, later: int, timeWindow: int)
    requires earlier <= later
    ensures Prune(Prune(requests, earlier, timeWindow), later, timeWindow) == Prune(requests, later, timeWindow)
  {
    Seqs.FilterFilter(requests, InWindow(earlier, timeWindow), InWindow(later, timeWindow));
  }

  /** At capacity after pruning, the time until the oldest entry leaves the window is positive. */
  lemma WaitIsPositive(requests: seq<int>, now: int, timeWindow: int)
    requires Prune(requests, now, timeWindow) != []
    ensures timeWindow - (now - Prune(requests, now, timeWindow)[0]) > 0
  {
  }

  /**
   * Waiting until the oldest entry of a full window leaves it removes that
   * entry and keeps the rest ordered and no later than the new clock.
   */
  lemma PruneAtExpiry(window: seq<int>, clock: int, timeWindow: int)
    requires window != [] && Seqs.Nondecreasing(window)
    requires forall i :: 0 <= i < |window| ==> window[i] <= clock
    requires timeWindow - (clock - window[0]) > 0
    ensures var later := clock + (timeWindow - (clock - window[0]));
      var r := Prune(window, later, timeWindow);
      |r| < |window| && Seqs.Nondecreasing(r) && (forall i :: 0 <= i < |r| ==> r[i] <= later)
  {
    var later := clock + (timeWindow - (clock - window[0]));
    Seqs.FilterNondecreasing(window, InWindow(later, timeWindow));
    var r := Prune(window, later, timeWindow);
    assert r == Prune(window[1..], later, timeWindow);
    forall i | 0 <= i < |r| ensures r[i] <= later {
      assert r[i] in window;
    }
  }

  /**
   * `RateLimiter`: the timestamps (milliseconds) of the requests admitted in
   * the current window, oldest first. `checkLimit` never refuses; when the
   * window is full it waits until the oldest entry leaves it.
   */
  class RateLimiter {
    var requests: seq<int>
    const maxRequests: int
    const timeWindow: int

    ghost predicate Valid()
      reads this
    {
      && maxRequests >= 1
      && timeWindow >= 1
      && |requests| <= maxRequests
      && Seqs.Nondecreasing(requests)
    }

    /** `new RateLimiter(maxRequests, timeWindowMs)`; the source's default is 60 per 60000 ms. */
    constructor (maxRequests: int, timeWindowMs: int)
      requires maxRequests >= 1 && timeWindowMs >= 1
      ensures Valid()
      ensures this.maxRequests == maxRequests && this.timeWindow == timeWindowMs
      ensures requests == []
    {
      this.maxRequests := maxRequests;
      this.timeWindow := timeWindowMs;
      requests := [];
    }

    /**
     * `checkLimit()` called at `now`. When it has to wait, the timer is taken
     * to fire exactly after the computed wait; `stamp` is the instant the
     * request is finally recorded.
     */
    method CheckLimit(now: int) returns (allowed: bool, stamp: int)
      requires Valid()
      requires requests == [] || requests[|requests| - 1] <= now
      modifies this
      ensures Valid()
      ensures allowed
      ensures stamp >= now
      ensures stamp == now <==> |Prune(old(requests), now, timeWindow)| < maxRequests
      ensures requests == Prune(old(requests), stamp, timeWindow) + [stamp]
      ensures forall i :: 0 <= i < |requests| ==> stamp - requests[i] < timeWindow
      ensures forall t :: now <= t < stamp ==> |Prune(old(requests), t, timeWindow)| >= maxRequests
    {
      NoneAfterLast(requests, now);
      var clock, pruned := WaitForSlot(requests, now, maxRequests, timeWindow);
      StampedLog(pruned, clock, timeWindow);
      requests := pruned + [clock];
      allowed, stamp := true, clock;
    }
  }

  lemma NoneAfterLast(window: seq<int>, now: int)
    requires Seqs.Nondecreasing(window)
    requires window == [] || window[|window| - 1] <= now
    ensures forall i :: 0 <= i < |window| ==> window[i] <= now
  {
    forall i | 0 <= i < |window| ensures window[i] <= now {
      assert window[i] <= window[|window| - 1];
    }
  }

  /** The pruned window with the new stamp appended stays ordered and inside the window. */
  lemma StampedLog(pruned: seq<int>, clock: int, timeWindow: int)
    requires timeWindow >= 1 && Seqs.Nondecreasing(pruned)
    requires forall i :: 0 <= i < |pruned| ==> pruned[i] <= clock && clock - pruned[i] < timeWindow
    ensures Seqs.Nondecreasing(pruned + [clock])
    ensures forall i :: 0 <= i < |pruned + [clock]| ==> clock - (pruned + [clock])[i] < timeWindow
  {
  }

  /**
   * The waiting of `checkLimit`: prune the window and, while it is full, wait
   * until its oldest entry leaves it and prune again. Returns the instant the
   * wait ends and the window pruned at that instant.
   */
  method WaitForSlot(window: seq<int>, now: int, maxRequests: int, timeWindow: int)
    returns (clock: int, pruned: seq<int>)
    requires maxRequests >= 1
    requires Seqs.Nondecreasing(window)
    requires forall i :: 0 <= i < |window| ==> window[i] <= now
    ensures clock >= now
    ensures pruned == Prune(window, clock, timeWindow)
    ensures |pruned| < maxRequests
    ensures clock == now <==> |Prune(window, now, timeWindow)| < maxRequests
    ensures Seqs.Nondecreasing(pruned)
    ensures forall i :: 0 <= i < |pruned| ==> pruned[i] <= clock
    ensures clock > now ==> |Prune(window, clock - 1, timeWindow)| >= maxRequests
    ensures forall t :: now <= t < clock ==> |Prune(window, t, timeWindow)| >= maxRequests
  {
    clock := now;
    Seqs.FilterNondecreasing(window, InWindow(clock, timeWindow));
    pruned := Prune(window, clock, timeWindow);
    while |pruned| >= maxRequests && timeWindow - (clock - pruned[0]) > 0
      invariant clock >= now
      invariant pruned == Prune(window, clock, timeWindow)
      invariant Seqs.Nondecreasing(pruned)
      invariant forall i :: 0 <= i < |pruned| ==> pruned[i] <= clock
      invariant clock > now ==> |Prune(window, now, timeWindow)| >= maxRequests
      invariant clock > now ==> |Prune(window, clock - 1, timeWindow)| >= maxRequests
      decreases |pruned|
    {
      var waitTime := timeWindow - (clock - pruned[0]);
      var later := clock + waitTime;
      WaitStep(window, pruned, clock, timeWindow);
      pruned := Prune(pruned, later, timeWindow);
      clock := later;
    }
    forall t | now <= t < clock ensures |Prune(window, t, timeWindow)| >= maxRequests {
      PruneShrinks(window, t, clock - 1, timeWindow);
    }
  }

  /** One round of the wait in `WaitForSlot`: the clock moves forward and the window shrinks. */
  lemma WaitStep(window: seq<int>, pruned: seq<int>, clock: int, timeWindow: int)
    requires pruned == Prune(window, clock, timeWindow) && pruned != []
    requires Seqs.Nondecreasing(pruned)
    requires forall i :: 0 <= i < |pruned| ==> pruned[i] <= clock
    requires timeWindow - (clock - pruned[0]) > 0
    ensures var later := clock + (timeWindow - (clock - pruned[0]));
      var next := Prune(pruned, later, timeWindow);
      && later > clock
      && next == Prune(window, later, timeWindow)
      && |next| < |pruned|
      && Seqs.Nondecreasing(next)
      && (forall i :: 0 <= i < |next| ==> next[i] <= later)
      && Prune(window, later - 1, timeWindow) == pruned
  {
    var later := clock + (timeWindow - (clock - pruned[0]));
    PruneTwice(window, clock, later, timeWindow);
    PruneAtExpiry(pruned, clock, timeWindow);
    StillFullJustBefore(window, pruned, clock, timeWindow);
  }

  /** One millisecond before the oldest entry expires, every entry of the window is still in it. */
  lemma StillFullJustBefore(window: seq<int>, pruned: seq<int>, clock: int, timeWindow: int)
    requires pruned == Prune(window, clock, timeWindow) && pruned != []
    requires Seqs.Nondecreasing(pruned)
    ensures Prune(window, pruned[0] + timeWindow - 1, timeWindow) == pruned
  {
    var t := pruned[0] + timeWindow - 1;
    assert clock <= t;
    PruneTwice(window, clock, t, timeWindow);
    forall i | 0 <= i < |pruned| ensures t - pruned[i] < timeWindow {
      assert pruned[0] <= pruned[i];
    }
    PruneKeepsAll(pruned, t, timeWindow);
  }

  lemma PruneKeepsAll(requests: seq<int>, now: int, timeWindow: int)
    requires forall i :: 0 <= i < |requests| ==> now - requests[i] < timeWindow
    ensures Prune(requests, now, timeWindow) == requests
  {
    forall x | x in requests ensures InWindow(now, timeWindow)(x) {
      var i :| 0 <= i < |requests| && requests[i] == x;
    }
    Seqs.FilterAll(requests, InWindow(now, timeWindow));
  }

  /** The later the instant, the fewer entries are still in the window. */
  lemma {:induction false} PruneShrinks(requests: seq<int>, earlier: int, later: int, timeWindow: int)
    requires earlier <= later
    ensures |Prune(requests, later, timeWindow)| <= |Prune(requests, earlier, timeWindow)|
  {
    PruneTwice(requests, earlier, later, timeWindow);
    var p := Prune(requests, earlier, timeWindow);
    assert |Seqs.Filter(p, InWindow(later, timeWindow))| <= |p|;
  }

  // ------------------------------------------------------------ memoize

  /** A duplicate-free key list and a map with the same keys have the same size. */
  lemma SameKeysSameSize<V>(cache: map<string, V>, order: seq<string>)
    requires Seqs.NoDup(order)
    requires forall k :: k in cache <==> k in order
    ensures |cache| == |order|
  {
    assert cache.Keys == set k | k in order;
    Seqs.NoDupCardinality(order);
  }

  /** Dropping the head of a duplicate-free list drops exactly that key. */
  lemma DropOldest(order: seq<string>)
    requires Seqs.NoDup(order) && order != []
    ensures Seqs.NoDup(order[1..])
    ensures forall k :: k in order[1..] <==> k in order && k != order[0]
  {
    forall k | k in order && k != order[0] ensures k in order[1..] {
      var i :| 0 <= i < |order| && order[i] == k;
      assert order[1..][i - 1] == k;
    }
  }

  const MemoCapacity: nat := 100

  datatype Stamped<V> = Stamped(value: V, timestamp: int)

  /**
   * The cache behind `memoize(func, ttl)`: results keyed by the JSON text of
   * the arguments, with the keys in the insertion order a JavaScript `Map`
   * keeps (re-setting a key does not move it).
   */
  class Memo<V> {
    var cache: map<string, Stamped<V>>
    var order: seq<string>
    const ttl: int

    ghost predicate Valid()
      reads this
    {
      && Seqs.NoDup(order)
      && (forall k :: k in cache <==> k in order)
      && |order| <= MemoCapacity
    }

    /** `memoize(func, ttl)`; the source's default ttl is five minutes. */
    constructor (ttl: int)
      ensures Valid() && this.ttl == ttl && cache == map[] && order == []
    {
      this.ttl := ttl;
      cache := map[];
      order := [];
    }

    /**
     * One call of the memoized function with argument text `key` at `now`;
     * `computed` is what `func` returns if it is called, `None` when it
     * throws. `called` tells whether it was; a `None` result is the error
     * passed on to the caller, with the cache left as it was.
     */
    method Call(key: string, now: int, computed: Option<V>) returns (value: Option<V>, called: bool)
      requires Valid()
      modifies this
      ensures Valid()
      ensures called <==> !(key in old(cache) && now - old(cache)[key].timestamp < ttl)
      ensures !called ==> value == Some(old(cache)[key].value) && cache == old(cache) && order == old(order)
      ensures called && computed.None? ==> value == None && cache == old(cache) && order == old(order)
      ensures called && computed.Some? ==>
        value == computed && key in cache && cache[key] == Stamped(computed.value, now)
      ensures called && computed.Some? && key in old(cache) ==>
        order == old(order) && cache == old(cache)[key := Stamped(computed.value, now)]
      ensures called && computed.Some? && key !in old(cache) && |old(order)| < MemoCapacity ==>
        order == old(order) + [key] && cache == old(cache)[key := Stamped(computed.value, now)]
      ensures called && computed.Some? && key !in old(cache) && |old(order)| == MemoCapacity ==>
        order == old(order)[1..] + [key]
        && cache == (old(cache) - {old(order)[0]})[key := Stamped(computed.value, now)]
    {
      if key in cache && now - cache[key].timestamp < ttl {
        return Some(cache[key].value), false;
      }
      if computed.None? {
        return None, true;
      }
      Store(key, Stamped(computed.value, now));
      return computed, true;
    }

    /**
     * `cache.set(key, entry)` followed by the deletion of the first key in
     * insertion order once the map holds more than 100 entries. A new key can
     * only push the size over the limit when the map was full, and the key
     * deleted then is never the one just added.
     */
    method Store(key: string, entry: Stamped<V>)
      requires Valid()
      modifies this
      ensures Valid()
      ensures key in cache && cache[key] == entry
      ensures key in old(cache) ==> order == old(order) && cache == old(cache)[key := entry]
      ensures key !in old(cache) && |old(order)| < MemoCapacity ==>
        order == old(order) + [key] && cache == old(cache)[key := entry]
      ensures key !in old(cache) && |old(order)| == MemoCapacity ==>
        order == old(order)[1..] + [key] && cache == (old(cache) - {old(order)[0]})[key := entry]
    {
      SameKeysSameSize(cache, order);
      if key in cache {
        cache := cache[key := entry];
      } else if |order| < MemoCapacity {
        cache := cache[key := entry];
        order := order + [key];
      } else {
        var oldest := order[0];
        DropOldest(order);
        cache := (cache - {oldest})[key := entry];
        order := order[1..] + [key];
      }
    }
  }
}
