/**
 * The steps `getGithubProjects` shares between lib/github.ts and
 * lib/github-fixed.ts: the candidate pool (score filter, sort by score,
 * top 50), the repository-to-project mapping and the featured-first order
 * (which lib/github-optimized.ts uses too).
 */
module ProjectPipeline {
  import opened Wrappers
  import opened Text
  import opened Types
  import Seqs
  import Sorting
  import GithubUtils

  const PoolLimit: nat := 50
  const PoolCut: int := -50
  const FeaturedScore: int := 100

  function Score(repo: Repo, now: int): int {
    GithubUtils.CalculateProjectScore(repo, now)
  }

  function ScoreKey(now: int): Repo -> (int, int) {
    (repo: Repo) => (Score(repo, now), 0)
  }

  function Eligible(now: int): Repo -> bool {
    (repo: Repo) => Score(repo, now) > PoolCut
  }

  /** The eligible repositories, highest score first, ties in input order. */
  function RankedEligible(repos: seq<Repo>, now: int): (r: seq<Repo>)
    ensures multiset(r) == multiset(Seqs.Filter(repos, Eligible(now)))
    ensures forall i, j :: 0 <= i < j < |r| ==> Score(r[i], now) >= Score(r[j], now)
  {
    var r := Sorting.SortBy(Seqs.Filter(repos, Eligible(now)), ScoreKey(now));
    assert forall i, j :: 0 <= i < j < |r| ==> Sorting.AtLeast(ScoreKey(now)(r[i]), ScoreKey(now)(r[j]));
    r
  }

  /** `filter(score > -50).sort(by score, descending).slice(0, 50)`. */
  function CandidatePool(repos: seq<Repo>, now: int): (pool: seq<Repo>)
    ensures |pool| <= PoolLimit
    ensures forall i :: 0 <= i < |pool| ==> Score(pool[i], now) > PoolCut && pool[i] in repos
    ensures forall i, j :: 0 <= i < j < |pool| ==> Score(pool[i], now) >= Score(pool[j], now)
    ensures |Seqs.Filter(repos, Eligible(now))| <= PoolLimit ==>
      multiset(pool) == multiset(Seqs.Filter(repos, Eligible(now)))
    ensures |Seqs.Filter(repos, Eligible(now))| > PoolLimit ==> |pool| == PoolLimit
  {
    var ranked := RankedEligible(repos, now);
    var eligible := Seqs.Filter(repos, Eligible(now));
    assert |ranked| == |eligible| by {
      assert |multiset(ranked)| == |multiset(eligible)|;
    }
    var pool := if |ranked| > PoolLimit then ranked[..PoolLimit] else ranked;
    forall i | 0 <= i < |pool| ensures Score(pool[i], now) > PoolCut && pool[i] in repos {
      assert pool[i] in multiset(ranked);
      assert pool[i] in multiset(eligible);
      assert pool[i] in eligible;
      var k :| 0 <= k < |eligible| && eligible[k] == pool[i];
    }
    pool
  }

  /** Every eligible repository left out of the pool scores no more than anything in it. */
  lemma PoolKeepsTheTopScores(repos: seq<Repo>, now: int, left: Repo)
    requires left in repos && Score(left, now) > PoolCut
    requires left !in CandidatePool(repos, now)
    ensures forall i :: 0 <= i < |CandidatePool(repos, now)| ==>
      Score(CandidatePool(repos, now)[i], now) >= Score(left, now)
  {
    var ranked := RankedEligible(repos, now);
    var eligible := Seqs.Filter(repos, Eligible(now));
    var pool := CandidatePool(repos, now);
    assert |ranked| == |eligible| by {
      assert |multiset(ranked)| == |multiset(eligible)|;
    }
    var k :| 0 <= k < |repos| && repos[k] == left;
    assert left in eligible;
    assert left in multiset(ranked);
    var m :| 0 <= m < |ranked| && ranked[m] == left;
    if |ranked| <= PoolLimit {
      assert false;
    } else {
      if m < PoolLimit {
        assert false;
      }
      forall i | 0 <= i < |pool| ensures Score(pool[i], now) >= Score(left, now) {
        assert pool[i] == ranked[i];
      }
    }
  }

  /** A repository as a project card (`id.toString()`, `homepage || undefined`, `relatedCertificates: []`). */
  function ToProject(repo: Repo, description: string, featured: bool): Project {
    Project(NatToString(repo.id), repo.name, description, GithubUtils.ExtractTechnologies(repo),
            repo.htmlUrl, if repo.homepage == "" then None else Some(repo.homepage),
            repo.stars, repo.updatedLabel, featured, [])
  }

  function FeaturedKey(): Project -> (int, int) {
    (p: Project) => (if p.featured then 1 else 0, p.stars)
  }

  /** `projects.sort(featured first, then b.stars - a.stars)`. */
  function SortFeaturedFirst(projects: seq<Project>): (r: seq<Project>)
    ensures |r| == |projects|
    ensures multiset(r) == multiset(projects)
    ensures forall i, j :: 0 <= i < j < |r| && r[j].featured ==> r[i].featured
    ensures forall i, j :: 0 <= i < j < |r| && r[i].featured == r[j].featured ==> r[i].stars >= r[j].stars
  {
    var r := Sorting.SortBy(projects, FeaturedKey());
    assert forall i, j :: 0 <= i < j < |r| ==> Sorting.AtLeast(FeaturedKey()(r[i]), FeaturedKey()(r[j]));
    r
  }
}
