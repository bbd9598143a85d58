# GitHub project showcase and featured-project admin: a Dafny model

This project models the data layer of a Next.js portfolio site with Dafny. The layer fills the project pages from GitHub, curates them in an admin panel, and adds certificates:

- **Relevance score and technology tags** (`lib/github-utils.ts`). The score uses stars, recency, description, topics, homepage, language and fork status. The model also covers the description formatter, the sliding-window rate limiter and the time-to-live memo cache.
- **Three generations of the project and contribution loaders**:
  - `lib/github.ts`: direct fetches;
  - `lib/github-fixed.ts`: loads through the retrying fetch of `lib/github-enhanced.ts`;
  - `lib/github-optimized.ts`: a ten-minute response cache and a featured-projects configuration file.

  They share three steps: a candidate pool (score above -50, ranked by score, top 50), a README summary, and a featured-first ordering by stars.
- **The contribution summary**: counts by event type, a six-month commit histogram, the streak loop and the five latest pushes.
- **The admin panel's featured-project manager**: at most six names, search, save. Also the route that validates, stores and renders the list.
- **The dialog that adds a certificate**: the skill list, the field checks in their order, the id derived from the title, and the payload.

## How the model is built

- **The network is a parameter.** A fetch is a reply value: the request threw, or it returned a status and a body. A retried fetch is a function from the attempt number to the reply of that attempt. The sleeps of the retry loop are returned as the list of delays requested.
- **The clock is a number.** Times are milliseconds. Dates of events come as precomputed fields: local day number, `year * 12 + month`, and the locale label.
- **`null`, `undefined` and `""` are all the empty string** in text fields, because every rule of the layer treats them alike.
- **Regular expressions are written out** as the scans the regex engine performs (`Markdown`).
- **Stateful parts are Dafny classes** whose methods are proved against specification functions: the rate limiter, the memo cache, the module-level response cache of `lib/github-optimized.ts`, the manager panel and the certificate dialog.
- **Loops are methods with invariants**, proved equal to a function: the README line scan, the sentence-joining loop, the retry loop, the month loop and the streak loop.

A few behaviours of the code are worth knowing; the model keeps each one as written:

- **The streak loop** only counts the current streak while `i` equals it, and it stops at the first inactive day. As a result, the reported longest streak always equals the current streak (`Contributions.Streaks`).
- **The certificate checks** trim the title, description, date and issuer before testing them. Platform and category are only tested for being empty.
- **The certificate id** comes from the untrimmed title. A title that starts with a symbol or a space therefore yields `cert--…`.
- **The README reader of `lib/github-fixed.ts` never yields text as written** (see Findings). The loader there takes the README step as a parameter: `GithubFixed.GetGithubProjects` is the code as written, which never puts README text on a card, and `GithubFixed.GetGithubProjectsIntended` reads the README as intended.
- **There are two different default featured lists.** `lib/github-optimized.ts` falls back to two names; the route's GET falls back to four.

## Model

| member | source | states |
|---|---|---|
| GithubUtils.RecencyBonus | lib/github-utils.ts:133-137 | 50 points iff updated under 30 days ago, 0 iff 90 days or more, otherwise 25 |
| GithubUtils.CalculateProjectScore | lib/github-utils.ts:127-156 | score lies between 10·stars − 100 and 10·stars + 140; the fork penalty applies exactly to forks under 5 stars |
| GithubUtils.ScoreIncreasesWithStars | lib/github-utils.ts:131-153 | more stars raise the score by at least 10 |
| GithubUtils.ScoreFavoursRecentUpdates | lib/github-utils.ts:134-137 | a later update never lowers the score |
| GithubUtils.ScoreOfStarredTypeScriptRepo | lib/github-utils.ts:127-156 | a 15-star TypeScript repository updated 10 days ago with nothing else scores 230 |
| GithubUtils.BareForkScoresBelowPoolCut | lib/github-utils.ts:127-156 | a stale fork under 5 stars with no other merit scores at most −60, below the pool cut |
| GithubUtils.TechnologyCandidates | lib/github-utils.ts:105-115 | language plus at most six topics: at most 7 candidates |
| GithubUtils.Dedup | lib/github-utils.ts:117 | duplicate-free, contains exactly the input's elements, keeps the first element first |
| GithubUtils.ExtractTechnologies | lib/github-utils.ts:104-125 | duplicate-free, at most 8, none an ignored topic, every non-ignored candidate kept, language first when present |
| GithubUtils.CleanDescription | lib/github-utils.ts:78-85 | the clean-up chain never lengthens the text |
| GithubUtils.GrowSentences | lib/github-utils.ts:91-97 | the joined text starts with the first piece and stays within the limit when the first piece does |
| GithubUtils.JoinSentences | lib/github-utils.ts:90-97 | the loop's result equals the recursive joining of the sentence pieces |
| GithubUtils.FormatRepoDescription | lib/github-utils.ts:74-102 | null gives "No description provided."; a cleaned text within the limit is returned as is |
| GithubUtils.ShortenCut | lib/github-utils.ts:99-100 | an over-long first sentence yields exactly maxLength characters, a prefix of the text then "..." |
| GithubUtils.ShortenWhole | lib/github-utils.ts:99-101 | otherwise whole leading sentences ending in "." and at most one over the limit |
| GithubUtils.FormatCutsOverlongFirstSentence | lib/github-utils.ts:87-101 | the hard-cut case of the formatter, end to end |
| GithubUtils.FormatKeepsWholeSentences | lib/github-utils.ts:87-101 | the sentence case of the formatter, end to end |
| GithubUtils.FormatRepoDescriptionLength | lib/github-utils.ts:74-102 | for every input the result is at most maxLength + 1 characters |
| GithubUtils.Prune | lib/github-utils.ts:55 | keeps exactly the timestamps inside the window |
| GithubUtils.PruneTwice | lib/github-utils.ts:55 | pruning at an earlier time and then a later one equals pruning at the later one |
| GithubUtils.WaitIsPositive | lib/github-utils.ts:57-61 | a full window always yields a positive wait |
| GithubUtils.PruneAtExpiry | lib/github-utils.ts:59-63 | waiting for the oldest entry to expire shrinks the window and keeps it ordered |
| GithubUtils.RateLimiter.constructor | lib/github-utils.ts:41-49 | empty request log with the given limit and window |
| GithubUtils.RateLimiter.CheckLimit | lib/github-utils.ts:51-69 | always allows; records the request at the end of the wait, and the window was full at every instant before it; the new log is the window at that instant plus the stamp; no wait iff the window had room |
| GithubUtils.WaitForSlot | lib/github-utils.ts:55-64 | the wait-and-retry recursion as a loop: ends with room in the window, and the window is full at every instant from the call up to the end |
| GithubUtils.WaitStep | lib/github-utils.ts:57-63 | one wait moves the clock to the expiry of the oldest entry, shrinks the window, and the window was unchanged one millisecond earlier |
| GithubUtils.StillFullJustBefore | lib/github-utils.ts:55-59 | one millisecond before the oldest entry expires, the whole window is still in it |
| GithubUtils.PruneShrinks | lib/github-utils.ts:55 | a later instant never leaves more entries in the window |
| GithubUtils.Memo.constructor | lib/github-utils.ts:14-18 | an empty cache with the given time to live |
| GithubUtils.Memo.Call | lib/github-utils.ts:20-38 | calls the function iff there is no fresh entry; a throwing call passes the error on and leaves the cache as it was; otherwise stores the result with its time, evicting the oldest key once more than 100 are held |
| GithubUtils.Memo.Store | lib/github-utils.ts:29-35 | set keeps the insertion position of an existing key; a new key at capacity evicts the first key |
| Markdown.Unwrap | lib/github-utils.ts:81-83 | the backtick, bold and italic replacements never lengthen the text |
| Markdown.Unlink | lib/github-utils.ts:80 | the link replacement never lengthens the text |
| Markdown.StripLeadingHashes | lib/github-utils.ts:79 | the leading heading marker is removed, never lengthening |
| Markdown.StripLeadingQuote | lib/github-utils.ts:84 | the leading quote marker is removed, never lengthening |
| Markdown.StripHeaderMarks | lib/github-fixed.ts:114 | every heading run is removed, never lengthening |
| Markdown.CleanInline | lib/github.ts:98-103 | the README line clean-up never lengthens the line |
| Markdown.SplitSentences | lib/github-utils.ts:90 | at least one piece, the first is the text up to the first sentence mark |
| Markdown.FirstSentence | lib/github.ts:106 | none iff no sentence mark; else the prefix through the first mark |
| Markdown.FirstAccepted | lib/github.ts:68-94 | none iff no trimmed line is accepted; else the first accepted trimmed line |
| Markdown.ScanLines | lib/github.ts:68-94 | the scan loop returns the first accepted line |
| Markdown.Truncate200 | lib/github.ts:111 | at most 203 characters; unchanged up to 200, else the first 200 plus "..." |
| ProjectPipeline.RankedEligible | lib/github.ts:161-163 | a permutation of the repositories scoring above −50, ordered by score |
| ProjectPipeline.CandidatePool | lib/github.ts:155-165 | at most 50, all eligible and from the input, ordered by score, all eligible ones when there are at most 50 |
| ProjectPipeline.PoolKeepsTheTopScores | lib/github.ts:163-164 | an eligible repository left out scores no more than any pool member |
| ProjectPipeline.SortFeaturedFirst | lib/github.ts:201-205 | a permutation with featured cards first and stars descending within each group |
| Sorting.SortBy | lib/github.ts:163 | a permutation of the input with keys never increasing |
| Sorting.InsertStable | lib/github.ts:163 | an inserted element goes ahead of all elements with its key; the others keep their order |
| Sorting.SortByStable | lib/github.ts:163 | for every key, the elements with that key keep their input order |
| GithubBasic.SummarizeKeepsFirstSentence | lib/github.ts:106-109 | a first sentence over 10 characters is returned trimmed, still ending in its mark |
| GithubBasic.SummarizeTruncates | lib/github.ts:111 | otherwise the cleaned line cut to 200 plus "...", at most 203 |
| GithubBasic.ExtractDescription | lib/github.ts:62-114 | none iff no line is a candidate; else the summary of the first candidate line |
| GithubBasic.ReadmeContent | lib/github.ts:42-119 | failure or non-ok status gives null; otherwise the extracted description |
| GithubBasic.GetReadmeContent | lib/github.ts:42-119 | the loop version equals ReadmeContent |
| GithubBasic.ChooseDescription | lib/github.ts:168-174 | the README text wins iff strictly longer than the description or its placeholder |
| GithubBasic.ProcessRepo | lib/github.ts:167-198 | name and stars kept; featured iff score > 100; description at most 201 characters |
| GithubBasic.Processed | lib/github.ts:167 | one card per pool entry, in order |
| GithubBasic.RankedProjects | lib/github.ts:155-207 | at most 50 cards, a permutation of the processed pool, featured first then by stars |
| GithubBasic.GetGithubProjects | lib/github.ts:121-215 | sample projects unless the listing is an ok JSON array |
| GithubBasic.FeaturedMeansHighScore | lib/github.ts:183-184 | every card comes from a pool repository and is featured iff it scores over 100 |
| GithubBasic.ContributionsOf | lib/github.ts:217-343 | a thrown request, an unreadable events body or an ok but unreadable user reply gives all zeros; an error status counts as no events; else the summary of the events |
| GithubBasic.NoEventsSixZeroMonths | lib/github.ts:232-273 | with unreadable events there are still six months, all zero, with no streak and no commits |
| GithubBasic.GetGithubContributions | lib/github.ts:217-343 | the method equals ContributionsOf |
| Contributions.Histogram | lib/github.ts:261-273 | six entries |
| Contributions.MonthlyHistogram | lib/github.ts:261-273 | the month loop equals the histogram |
| Contributions.CommitsBetweenExtend | lib/github.ts:264-270 | widening the window by a month adds that month's commits |
| Contributions.EmptyWindow | lib/github.ts:264-270 | an empty month range holds no commits |
| Contributions.TotalCommitsAppend | lib/github.ts:269-272 | totals add over concatenation |
| Contributions.PrefixTotal | lib/github.ts:261-273 | the first n months add up to the commits in those months |
| Contributions.HistogramTotal | lib/github.ts:261-273 | the six entries add up to every commit of the last six months |
| Contributions.HistogramOfNoPushes | lib/github.ts:261-273 | no pushes give six zero months |
| Contributions.RunLength | lib/github.ts:283-303 | bounded by the horizon; zero iff today is inactive |
| Contributions.Streaks | lib/github.ts:279-307 | current streak is the run of active days ending today; the longest streak always equals it |
| Contributions.StreakStartsToday | lib/github.ts:287-302 | no streak iff no push today |
| Contributions.RepoShortName | lib/github.ts:315 | never empty |
| Contributions.RepoShortNameOfFullName | lib/github.ts:315 | the short name of "owner/repo" is "repo" |
| Contributions.RecentEntry | lib/github.ts:310-318 | placeholders are used exactly when the first commit lacks a message or sha; sha at most 7 |
| Contributions.RecentCommits | lib/github.ts:310 | the first five pushes, one entry each |
| Contributions.Summary | lib/github.ts:252-329 | counts by event type; streaks equal and capped; histogram of pushes; the recent-commit entries of the first five pushes |
| Contributions.Aggregate | lib/github.ts:252-329 | the aggregation code equals Summary |
| GithubEnhanced.Classify | lib/github-enhanced.ts:110-134 | rate limit iff 403 with zero remaining; server error iff ≥ 500; success iff ok with JSON |
| GithubEnhanced.Backoff | lib/github-enhanced.ts:144 | the smaller of the doubled base delay and the cap |
| GithubEnhanced.BackoffNondecreasing | lib/github-enhanced.ts:144 | delays never shrink |
| GithubEnhanced.RetryFromFacts | lib/github-enhanced.ts:102-148 | the loop from any attempt: attempts and delays counted, result that of the last attempt |
| GithubEnhanced.RetryAttempts | lib/github-enhanced.ts:102-148 | 1 to maxRetries+1 attempts, one backoff delay between consecutive attempts |
| GithubEnhanced.RetryReturnsFirstSuccess | lib/github-enhanced.ts:132-134 | the first successful attempt's data is returned and nothing follows |
| GithubEnhanced.RetryExhausted | lib/github-enhanced.ts:138-141 | all attempts failing: every attempt made and the last error thrown |
| GithubEnhanced.RetryWithoutAttempts | lib/github-enhanced.ts:150 | a negative retry count ends in the end-of-loop error |
| GithubEnhanced.FetchWithRetry | lib/github-enhanced.ts:90-151 | the loop equals the retry specification |
| GithubEnhanced.FetchGitHubRepositories | lib/github-enhanced.ts:154-183 | sample repositories on a missing user or failure; else exactly the public non-fork repositories |
| GithubEnhanced.FetchGitHubUserEvents | lib/github-enhanced.ts:185-213 | the fetched events, or the sample events |
| GithubEnhanced.CheckStatusWithinTwoAttempts | lib/github-enhanced.ts:250-258 | the status check is up iff one of two attempts succeeds |
| GithubFixed.ReadmeContentAsWritten | lib/github-fixed.ts:40-47 | the README reader as written never yields text |
| GithubFixed.RawReadmeIsRetriedAndLost | lib/github-fixed.ts:40-47 | a raw markdown reply is tried 4 times with delays 1000, 2000, 4000 and lost |
| GithubFixed.SampleReadmeIsUsable | lib/github-fixed.ts:47-107 | the corrected reader yields a summary for the same README |
| GithubFixed.OneCandidateLineIsUsable | lib/github-fixed.ts:56-107 | a one-line README whose line is a candidate yields that line's summary |
| GithubFixed.SampleIsCandidate | lib/github-fixed.ts:65-86 | the sample line passes every skip rule and is long enough |
| GithubFixed.FirstLinesFallback | lib/github-fixed.ts:110-122 | any fallback text is 31 to 203 characters |
| GithubFixed.ReadmeContent | lib/github-fixed.ts:29-130 | null on failure, non-ok or blank text; else the candidate's summary or the first-lines fallback |
| GithubFixed.GetReadmeContent | lib/github-fixed.ts:29-130 | the loop version equals ReadmeContent |
| GithubFixed.ChooseDescription | lib/github-fixed.ts:164-195 | README wins iff the description is short, much shorter or generic; the result is never blank |
| GithubFixed.GeneratedIsNotBlank | lib/github-fixed.ts:192-195 | the generated fallback is never blank |
| GithubFixed.ChosenIsNotBlank | lib/github-fixed.ts:164-195 | the chosen description is never blank |
| GithubFixed.ProcessRepo | lib/github-fixed.ts:163-220 | name and stars kept; featured iff score > 100; the description chosen from the given README result, formatted to at most 201 |
| GithubFixed.Processed | lib/github-fixed.ts:163 | one card per pool entry, in order, each with its own README result |
| GithubFixed.RankedProjects | lib/github-fixed.ts:148-227 | the pool processed with the given README step, featured first then by stars, at most 50 |
| GithubFixed.GetGithubProjects | lib/github-fixed.ts:132-238 | as written: sample projects when nothing is fetched; else the ranked cards with the README step as written |
| GithubFixed.GetGithubProjectsIntended | lib/github-fixed.ts:132-238 | the same loader with the README read as intended |
| GithubFixed.SameReadmesSameCards | lib/github-fixed.ts:163-220 | README steps that agree on every name give the same cards |
| GithubFixed.AsWrittenIgnoresReadmes | lib/github-fixed.ts:40-47 | the loader as written gives exactly the cards the intended one gives when every README request fails |
| GithubFixed.AsWrittenDescription | lib/github-fixed.ts:164-195 | with no README, a card's description is the repository's own or the generated text when that is blank |
| GithubFixed.ContributionsOf | lib/github-fixed.ts:240-359 | zeros when no events; else the summary of the fetched or sample events |
| GithubFixed.GetGithubContributions | lib/github-fixed.ts:240-359 | the method equals ContributionsOf |
| GithubOptimized.CacheStep | lib/github-optimized.ts:34-51 | fetches iff no fresh entry; stores a success; serves stale data on failure; fails only with nothing cached; other keys untouched |
| GithubOptimized.ServedFromCacheWithinDuration | lib/github-optimized.ts:36-37 | a value stored is served without fetching for ten minutes |
| GithubOptimized.StoredKeyNeverRejects | lib/github-optimized.ts:44-48 | once a key is stored, a later failure still serves data |
| GithubOptimized.StoredKeyServes | lib/github-optimized.ts:34-51 | a stored key serves data on every later call, whatever the fetches do |
| GithubOptimized.FeaturedConfig | lib/github-optimized.ts:66-78 | the config's list, empty if absent, or the two default names if unreadable |
| GithubOptimized.ReadmeIntro | lib/github-optimized.ts:86-109 | null on failure; else none iff no README line is an intro line, and otherwise the first intro line cut to 200 plus "..." |
| GithubOptimized.ReadReadmeIntro | lib/github-optimized.ts:98-109 | the loop version equals ReadmeIntro |
| GithubOptimized.Description | lib/github-optimized.ts:83-128 | never empty; a description of 20 or more is kept; else the README intro or "`name` repository" |
| GithubOptimized.Technologies | lib/github-optimized.ts:120-123 | the nonempty topics in order, then the language when present |
| GithubOptimized.ProcessRepo | lib/github-optimized.ts:82-137 | featured iff configured or over 10 stars; description never empty |
| GithubOptimized.Head | lib/github-optimized.ts:82 | the first n entries |
| GithubOptimized.Cards | lib/github-optimized.ts:82-138 | one card per repository, in order |
| GithubOptimized.OptimizedProjects | lib/github-optimized.ts:53-150 | failure iff the listing is not an ok array; else a permutation of the first 30 cards, featured first then by stars |
| GithubOptimized.WindowWithinTotal | lib/github-optimized.ts:167-169 | any month window's commits are within the total |
| GithubOptimized.WindowCoversAll | lib/github-optimized.ts:167-169 | a window covering every push counts every commit |
| GithubOptimized.RepoNamesBound | lib/github-optimized.ts:170 | distinct repositories are at most the events, at least one if any |
| GithubOptimized.Items | lib/github-optimized.ts:171-175 | one activity item per event with its type, repository and time |
| GithubOptimized.OptimizedActivity | lib/github-optimized.ts:152-178 | thrown request fails; non-ok gives zeros; a JSON array gives the commit total, the number of distinct repository names and five items |
| GithubOptimized.ResponseCache.constructor | lib/github-optimized.ts:5 | an empty cache |
| GithubOptimized.ResponseCache.CachedFetch | lib/github-optimized.ts:34-51 | the cache update and result are those of CacheStep |
| GithubOptimized.ResponseCache.GetOptimizedGithubProjects | lib/github-optimized.ts:53-150 | cached projects call, keeping each key's data kind |
| GithubOptimized.ResponseCache.GetOptimizedGithubActivity | lib/github-optimized.ts:152-178 | cached activity call, keeping each key's data kind |
| GithubOptimized.ProjectsCallIsWellTyped | lib/github-optimized.ts:53-150 | the projects key only ever serves project lists |
| FeaturedManager.InitialFeatured | components/admin/featured-projects-manager.tsx:27-32 | exactly the names of the featured projects |
| FeaturedManager.InitialFeaturedAppend | components/admin/featured-projects-manager.tsx:28-30 | the initial list distributes over concatenation |
| FeaturedManager.FilterProjects | components/admin/featured-projects-manager.tsx:35-38 | exactly the projects whose name or description contains the term, ignoring case |
| FeaturedManager.EmptyTermKeepsAll | components/admin/featured-projects-manager.tsx:35-38 | an empty search shows every project |
| FeaturedManager.Toggle | components/admin/featured-projects-manager.tsx:40-57 | switching on at six is refused with the limit message; on appends; off removes every copy and clears the message |
| FeaturedManager.ToggleBound | components/admin/featured-projects-manager.tsx:41-53 | a toggle never takes the list above six |
| FeaturedManager.ReplayStaysWithinCap | components/admin/featured-projects-manager.tsx:40-57 | any sequence of toggles keeps the list at six or fewer |
| FeaturedManager.OnThenOffRestores | components/admin/featured-projects-manager.tsx:49-53 | switching a name on and off gives the list back |
| FeaturedManager.DisabledIffNoSlots | components/admin/featured-projects-manager.tsx:205-208 | an unfeatured switch is disabled iff no slot is left |
| FeaturedManager.SwitchKeepsNoDup | components/admin/featured-projects-manager.tsx:201-204 | toggling through the switch keeps the list duplicate-free |
| FeaturedManager.Manager.constructor | components/admin/featured-projects-manager.tsx:21-32 | initial state: featured names, no message, empty search |
| FeaturedManager.Manager.ToggleFeatured | components/admin/featured-projects-manager.tsx:40-57 | the new list and message are those of Toggle |
| FeaturedManager.Manager.Search | components/admin/featured-projects-manager.tsx:35-38 | only the search term changes |
| FeaturedManager.Manager.Save | components/admin/featured-projects-manager.tsx:58-91 | list unchanged; success message with the count, or the failure message |
| FeaturedRoute.Post | app/api/admin/featured-projects/route.ts:28-68 | accepted iff the body holds an array of at most six that is persisted; the 400 and 500 errors otherwise |
| FeaturedRoute.PanelListsAreAccepted | app/api/admin/featured-projects/route.ts:39-44 | any list the panel can build passes the route's limit |
| FeaturedRoute.Get | app/api/admin/featured-projects/route.ts:8-26 | the stored config, or the four default names |
| FeaturedRoute.GetAfterPost | app/api/admin/featured-projects/route.ts:8-68 | a read after an accepted write returns the names written |
| FeaturedRoute.Quoted | app/api/admin/featured-projects/route.ts:77 | one quoted entry per name |
| FeaturedRoute.RenderFeaturedArray | app/api/admin/featured-projects/route.ts:76-78 | the text opens with the declaration line and closes with the bracket line |
| FeaturedRoute.ItemLines | app/api/admin/featured-projects/route.ts:77 | one line per name |
| FeaturedRoute.SplitItems | app/api/admin/featured-projects/route.ts:77 | the body splits into one line per name, then the footer |
| FeaturedRoute.UnquoteQuote | app/api/admin/featured-projects/route.ts:77 | quoting is undone by unquoting |
| FeaturedRoute.ParseItems | app/api/admin/featured-projects/route.ts:77 | the item lines parse back to the names |
| FeaturedRoute.RenderedLines | app/api/admin/featured-projects/route.ts:76-78 | the rendered text is the header, one line per name, the footer |
| FeaturedRoute.EmptyBody | app/api/admin/featured-projects/route.ts:77 | an empty list renders an empty line |
| FeaturedRoute.RenderParseRoundTrip | app/api/admin/featured-projects/route.ts:70-92 | the rendered array parses back to exactly the names |
| CertificateForm.AddSkill | components/certificates/add-certificate-form.tsx:74-82 | appends the trimmed skill iff nonblank and new, else unchanged |
| CertificateForm.AddSkillKeepsClean | components/certificates/add-certificate-form.tsx:74-82 | the skill list stays trimmed, nonblank and duplicate-free |
| CertificateForm.RemoveSkillKeepsClean | components/certificates/add-certificate-form.tsx:84-89 | removal keeps the list clean and the skill is gone |
| CertificateForm.AddThenRemove | components/certificates/add-certificate-form.tsx:74-89 | adding a new skill and removing it restores the list |
| CertificateForm.FirstMissing | components/certificates/add-certificate-form.tsx:103-126 | none iff every field is present; else a missing field with all earlier ones present |
| CertificateForm.Dashify | components/certificates/add-certificate-form.tsx:132 | same length; each character lower-cased if a-z/0-9, else '-' |
| CertificateForm.CollapseDashes | components/certificates/add-certificate-form.tsx:132 | no two dashes in a row; first character kept; no new characters (each run becoming one dash is CollapseDoubleDash) |
| CertificateForm.CollapseDoubleDash | components/certificates/add-certificate-form.tsx:132 | two dashes in a row collapse exactly like one, wherever they stand |
| CertificateForm.CollapseKeepsLetters | components/certificates/add-certificate-form.tsx:132 | only dashes are dropped |
| CertificateForm.Slug | components/certificates/add-certificate-form.tsx:132 | only a-z, 0-9 and single dashes; never longer than the title |
| CertificateForm.SlugIdempotent | components/certificates/add-certificate-form.tsx:132 | the slug of a slug is itself |
| CertificateForm.CertificateId | components/certificates/add-certificate-form.tsx:132 | "cert-" followed by the slug |
| CertificateForm.LeadingSymbolDoublesDash | components/certificates/add-certificate-form.tsx:132 | a title starting with a symbol gives "cert--" |
| CertificateForm.MakePayload | components/certificates/add-certificate-form.tsx:136-148 | trimmed fields, "#" for a blank link or no file, exactly the nonblank skills |
| CertificateForm.CleanSkillsAreSentAsIs | components/certificates/add-certificate-form.tsx:146 | skills entered through the dialog are sent unchanged |
| CertificateForm.PayloadIsTrimmed | components/certificates/add-certificate-form.tsx:138-144 | the sent text fields need no further trimming |
| CertificateForm.Form.constructor | components/certificates/add-certificate-form.tsx:59-72 | empty draft, no typed skill, dialog closed |
| CertificateForm.Form.TypeSkill | components/certificates/add-certificate-form.tsx:61 | only the typed skill changes |
| CertificateForm.Form.Edit | components/certificates/add-certificate-form.tsx:62-72 | one text field changes |
| CertificateForm.Form.AddSkillTyped | components/certificates/add-certificate-form.tsx:74-82 | the list becomes AddSkill's; the typed text is cleared iff added |
| CertificateForm.Form.RemoveSkill | components/certificates/add-certificate-form.tsx:84-89 | every copy of the skill is removed |
| CertificateForm.Form.ChooseFile | components/certificates/add-certificate-form.tsx:91-98 | only a PDF is kept; anything else alerts and changes nothing |
| CertificateForm.Form.Submit | components/certificates/add-certificate-form.tsx:99-189 | the first missing field's alert, or the payload sent and the reply handled |
| CertificateForm.Form.Send | components/certificates/add-certificate-form.tsx:128-189 | success resets the draft and closes; an error keeps the draft with its alert |

## Left out

- Sorting in place: `Array.prototype.sort` is modelled as a stable insertion sort on sequences. The in-place update of the array is not modelled.
- `debounce` (lib/github-utils.ts:3-12): timers are not modelled.
- `RateLimiter.CheckLimit` does not model a real timer. The wait is taken to end exactly when asked, the clock is a parameter that never runs backwards, and the shared `githubRateLimiter` instance is not modelled.
- `GithubUtils.Memo.Call` does not model that the source serializes arguments to JSON. The key is given already as text.
- Concurrency: `Promise.all` and `Promise.allSettled` are modelled as mapping in order. A rejected entry cannot arise in the model because every per-repository step handles its own failures; if one did, `allSettled` would drop it.
- Network, headers, tokens, URLs and timeouts are left out. An aborted request is a thrown request.
- `fetchRepositoriesWithCache` (lib/github-enhanced.ts:216-247) is left out: it depends on the browser's `localStorage`.
- `GithubFixed.ReadmeContentAsWritten` models the reader only as far as the body parse. Every path through it returns null, so the rest does not matter.
- Dates are precomputed fields. The locale formatting, `toDateString` and the month arithmetic of `Date` are not modelled.
- Case folding covers ASCII letters only. Unicode case rules are not modelled.
- `FeaturedRoute.Post` takes the file writes as one `persisted` flag. The regular-expression replacement inside `lib/github.ts` is not modelled; only the text of the new array is.
- The JSON text of the stored configuration and the two-space indentation are not modelled. The configuration is a record.
- Authentication, page reloads, the loading flags and the rendering of the components are not modelled.
- `FeaturedRoute.RenderParseRoundTrip` requires names without line breaks. A name containing a newline would break the one-line-per-name layout of the rendered array.
- `FeaturedRoute.RenderParseRoundTrip` is about the layout only: the parser ignores quotes and escapes. A name containing `'` or `\` round-trips in the model, but the rendered TypeScript literal would not read back as that name.
- `FeaturedRoute.Post` takes a body whose array holds strings. An array with non-string elements, which the source accepts and stores, cannot be written as a body of the model.
- Text lengths count characters (code points). JavaScript's `.length` and `substring` count UTF-16 code units, so every length threshold and cut (20, 30, 50, 200, `maxLength`) can land differently on text with characters outside the Basic Multilingual Plane, such as emoji.
- `Contributions.Streaks` states the loop as written: the longest streak equals the current one. A corrected longest-run computation is not part of this model.

## Findings

| source | as written | input that shows it | evidently intended | confidence | as-written member | corrected member |
|---|---|---|---|---|---|---|
| lib/github-fixed.ts:40-47 | The README is fetched through `fetchWithRetry`, which parses every body as JSON. A raw markdown README therefore fails to parse, is retried, and ends in the catch that returns null. Even a body that parsed would have no `ok` or `text()`. | a README served raw as `Demo app for a web shop made at home.` | read the raw response text and summarize it | not executed | GithubFixed.ReadmeContentAsWritten, GithubFixed.RawReadmeIsRetriedAndLost, GithubFixed.AsWrittenIgnoresReadmes | GithubFixed.ReadmeContent, GithubFixed.SampleReadmeIsUsable, GithubFixed.GetGithubProjectsIntended |
