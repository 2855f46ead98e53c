/**
 * fetch_commits: repositories are fetched one after another, each
 * repository's commits are aggregated, and the per-repository mapping is
 * merged into the running total.
 */
module Pipeline {
  import opened Classifier
  import opened Aggregation
  import opened Pagination

  /** A repository from the listing, with the service's responses to its page requests. */
  datatype Repository = Repository(id: string, name: string, responses: seq<Response>)

  /** Every repository's fetched commits, in repository order. */
  function AllCommits(repos: seq<Repository>): seq<Commit> {
    if repos == [] then [] else Fetched(repos[0].responses) + AllCommits(repos[1..])
  }

  /** The sum over repositories of each repository's own count for `t`. */
  function RepositorySum(prefix: string, repos: seq<Repository>, t: Triple): nat {
    if repos == [] then 0
    else Occurrences(ClassifyAll(prefix, Fetched(repos[0].responses)), t) + RepositorySum(prefix, repos[1..], t)
  }

  method FetchCommits(prefix: string, repos: seq<Repository>) returns (total: Counts)
    ensures WellFormed(total)
    ensures Tallies(total, ClassifyAll(prefix, AllCommits(repos)))
  {
    total := map[];
    ghost var seen: seq<Commit> := [];
    for i := 0 to |repos|
      invariant seen == AllCommits(repos[..i])
      invariant WellFormed(total)
      invariant Tallies(total, ClassifyAll(prefix, seen))
    {
      var commits, _ := GetCommits(repos[i].responses);
      AllCommitsStep(repos, i);
      if commits != [] {
        var data := Organize(prefix, commits);
        var merged := MergeInto(total, data);
        TalliesAdd(prefix, seen, commits, total, data, merged);
        total := merged;
      } else {
        assert seen + commits == seen;
      }
      seen := seen + commits;
    }
    assert repos[..|repos|] == repos;
  }

  /** The merged count of a triple is the sum of the per-repository counts. */
  lemma {:induction false} TotalIsSumOfRepositories(prefix: string, repos: seq<Repository>, t: Triple)
    ensures Occurrences(ClassifyAll(prefix, AllCommits(repos)), t) == RepositorySum(prefix, repos, t)
  {
    if repos != [] {
      TotalIsSumOfRepositories(prefix, repos[1..], t);
      ClassifiedConcat(prefix, Fetched(repos[0].responses), AllCommits(repos[1..]), t);
    }
  }

  lemma {:induction false} AllCommitsConcat(xs: seq<Repository>, ys: seq<Repository>)
    ensures AllCommits(xs + ys) == AllCommits(xs) + AllCommits(ys)
  {
    if xs == [] {
      assert xs + ys == ys;
    } else {
      assert (xs + ys)[0] == xs[0] && (xs + ys)[1..] == xs[1..] + ys;
      AllCommitsConcat(xs[1..], ys);
    }
  }

  lemma AllCommitsStep(repos: seq<Repository>, i: nat)
    requires i < |repos|
    ensures AllCommits(repos[..i + 1]) == AllCommits(repos[..i]) + Fetched(repos[i].responses)
  {
    assert repos[..i + 1] == repos[..i] + [repos[i]];
    AllCommitsSnoc(repos[..i], repos[i]);
  }

  lemma AllCommitsSnoc(repos: seq<Repository>, r: Repository)
    ensures AllCommits(repos + [r]) == AllCommits(repos) + Fetched(r.responses)
  {
    AllCommitsConcat(repos, [r]);
    assert [r][1..] == [];
  }

  /** A repository that yields no commits changes nothing, wherever it stands. */
  lemma EmptyRepositoryContributesNothing(xs: seq<Repository>, r: Repository, ys: seq<Repository>)
    requires Fetched(r.responses) == []
    ensures AllCommits(xs + [r] + ys) == AllCommits(xs + ys)
  {
    AllCommitsConcat(xs + [r], ys);
    AllCommitsSnoc(xs, r);
    AllCommitsConcat(xs, ys);
  }

  /** Fetching the repositories in another order counts every triple the same. */
  lemma {:induction false} RepositoryOrderIrrelevant(prefix: string, xs: seq<Repository>, ys: seq<Repository>, t: Triple)
    requires multiset(xs) == multiset(ys)
    ensures Occurrences(ClassifyAll(prefix, AllCommits(xs)), t)
         == Occurrences(ClassifyAll(prefix, AllCommits(ys)), t)
    decreases |xs|
  {
    if xs != [] {
      var n := |xs| - 1;
      assert xs[n] in multiset(ys);
      var j :| 0 <= j < |ys| && ys[j] == xs[n];
      RemoveOne(xs, ys, j);
      var a, r, b, c := xs[..n], xs[n], ys[..j], ys[j + 1..];
      RepositoryOrderIrrelevant(prefix, a, b + c, t);
      CountSnoc(prefix, a, r, t);
      CountWithout(prefix, b, r, c, t);
    } else {
      assert |ys| == |multiset(ys)| == 0;
    }
  }

  /** The count over `xs + [r]` is that over `xs` plus `r`'s own. */
  lemma CountSnoc(prefix: string, xs: seq<Repository>, r: Repository, t: Triple)
    ensures Occurrences(ClassifyAll(prefix, AllCommits(xs + [r])), t)
         == Occurrences(ClassifyAll(prefix, AllCommits(xs)), t)
          + Occurrences(ClassifyAll(prefix, Fetched(r.responses)), t)
  {
    AllCommitsSnoc(xs, r);
    ClassifiedConcat(prefix, AllCommits(xs), Fetched(r.responses), t);
  }

  /** The count over `xs + [r] + ys` is that over `xs + ys` plus `r`'s own. */
  lemma CountWithout(prefix: string, xs: seq<Repository>, r: Repository, ys: seq<Repository>, t: Triple)
    ensures Occurrences(ClassifyAll(prefix, AllCommits(xs + [r] + ys)), t)
         == Occurrences(ClassifyAll(prefix, AllCommits(xs + ys)), t)
          + Occurrences(ClassifyAll(prefix, Fetched(r.responses)), t)
  {
    var f := Fetched(r.responses);
    AllCommitsConcat(xs + [r], ys);
    AllCommitsSnoc(xs, r);
    AllCommitsConcat(xs, ys);
    ClassifiedConcat(prefix, AllCommits(xs) + f, AllCommits(ys), t);
    ClassifiedConcat(prefix, AllCommits(xs), f, t);
    ClassifiedConcat(prefix, AllCommits(xs), AllCommits(ys), t);
  }

  /** Taking the last of `xs` out of both sides of a permutation. */
  lemma RemoveOne(xs: seq<Repository>, ys: seq<Repository>, j: nat)
    requires multiset(xs) == multiset(ys) && xs != [] && j < |ys| && ys[j] == xs[|xs| - 1]
    ensures xs == xs[..|xs| - 1] + [xs[|xs| - 1]]
    ensures ys == ys[..j] + [ys[j]] + ys[j + 1..]
    ensures multiset(xs[..|xs| - 1]) == multiset(ys[..j] + ys[j + 1..])
  {
    var n := |xs| - 1;
    assert xs == xs[..n] + [xs[n]];
    assert ys == ys[..j] + [ys[j]] + ys[j + 1..];
    calc {
      multiset(xs[..n]);
      multiset(xs) - multiset{xs[n]};
      multiset(ys) - multiset{ys[j]};
      multiset(ys[..j]) + multiset{ys[j]} + multiset(ys[j + 1..]) - multiset{ys[j]};
      multiset(ys[..j] + ys[j + 1..]);
    }
  }

  /** Aggregating two batches and merging the results gives the mapping of
      aggregating both batches together. */
  lemma MergeIsAggregateOfConcatenation(prefix: string, a: seq<Commit>, b: seq<Commit>, x: Counts, y: Counts, merged: Counts, whole: Counts)
    requires Tallies(x, ClassifyAll(prefix, a)) && Tallies(y, ClassifyAll(prefix, b))
    requires WellFormed(merged) && forall t :: Leaf(merged, t) == Leaf(x, t) + Leaf(y, t)
    requires WellFormed(whole) && Tallies(whole, ClassifyAll(prefix, a + b))
    ensures merged == whole
  {
    TalliesAdd(prefix, a, b, x, y, merged);
    LeavesDetermine(merged, whole);
  }
}
