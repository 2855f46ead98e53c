/**
 * The aggregate mapping author -> project -> month -> commit count, built
 * per repository from its commits and merged into a running total.
 *
 * The source keeps the mapping in nested default-dictionaries and bumps a
 * leaf in place; here it is a nested `map` value that the loops reassign.
 * A key is created only on the path to a leaf being bumped, so no inner map
 * is ever empty and no leaf is ever zero (`WellFormed`).
 */
module Aggregation {
  import opened Classifier

  type Counts = map<string, map<string, map<string, nat>>>

  /** The count at a leaf; a leaf never created reads as zero. */
  function Leaf(data: Counts, t: Triple): nat {
    if t.author in data && t.project in data[t.author] && t.month in data[t.author][t.project]
    then data[t.author][t.project][t.month]
    else 0
  }

  /** The (author, project, month) triples that have a leaf. */
  function Leaves(data: Counts): set<Triple> {
    set a, p, m | a in data && p in data[a] && m in data[a][p] :: Triple(a, p, m)
  }

  /** Every materialised leaf is at least one, and no inner map is empty. */
  predicate WellFormed(data: Counts) {
    forall a :: a in data ==> PositiveProjects(data[a])
  }

  predicate PositiveProjects(projects: map<string, map<string, nat>>) {
    |projects| > 0 && forall p :: p in projects ==> PositiveMonths(projects[p])
  }

  predicate PositiveMonths(months: map<string, nat>) {
    |months| > 0 && forall m :: m in months ==> months[m] >= 1
  }

  lemma LeavesAreLeaves(data: Counts, t: Triple)
    ensures t in Leaves(data) <==>
      t.author in data && t.project in data[t.author] && t.month in data[t.author][t.project]
  {
    if t.author in data && t.project in data[t.author] && t.month in data[t.author][t.project] {
      assert t == Triple(t.author, t.project, t.month);
    }
  }

  /** In a well-formed mapping, the leaves are exactly the non-zero counts. */
  lemma LeavesArePositive(data: Counts, t: Triple)
    requires WellFormed(data)
    ensures t in Leaves(data) <==> Leaf(data, t) > 0
  {
    LeavesAreLeaves(data, t);
  }

  // ---------------------------------------------------------------------
  // One increment

  /** `data[a][p][m] += n` on the nested default-dictionary. */
  function Bump(data: Counts, t: Triple, n: nat): (r: Counts)
    ensures forall u :: Leaf(r, u) == Leaf(data, u) + (if u == t then n else 0)
  {
    var projects := ProjectsOf(data, t.author);
    var months := MonthsOf(projects, t.project);
    data[t.author := projects[t.project := months[t.month := CountOf(months, t.month) + n]]]
  }

  /** What the default-dictionary yields for a missing key: an empty inner map, or zero. */
  function ProjectsOf(data: Counts, a: string): map<string, map<string, nat>> {
    if a in data then data[a] else map[]
  }

  function MonthsOf(projects: map<string, map<string, nat>>, p: string): map<string, nat> {
    if p in projects then projects[p] else map[]
  }

  function CountOf(months: map<string, nat>, m: string): nat {
    if m in months then months[m] else 0
  }

  /** Bumping by at least one keeps every leaf positive and no inner map empty. */
  lemma BumpKeepsWellFormed(data: Counts, t: Triple, n: nat)
    requires WellFormed(data) && n >= 1
    ensures WellFormed(Bump(data, t, n))
  {
    var projects := ProjectsOf(data, t.author);
    ProjectsOfWellFormed(data, t.author);
    var months := MonthsOf(projects, t.project);
    MonthsOfPositive(projects, t.project);
    var months': map<string, nat> := months[t.month := CountOf(months, t.month) + n];
    MonthsBumped(months, t.month, n);
    var projects': map<string, map<string, nat>> := projects[t.project := months'];
    ProjectsBumped(projects, t.project, months');
    UpdateKeepsWellFormed(data, t.author, projects');
  }

  lemma ProjectsOfWellFormed(data: Counts, a: string)
    requires WellFormed(data)
    ensures forall p :: p in ProjectsOf(data, a) ==> PositiveMonths(ProjectsOf(data, a)[p])
  {
    if a in data {
      assert PositiveProjects(data[a]);
    }
  }

  lemma MonthsOfPositive(projects: map<string, map<string, nat>>, p: string)
    requires forall q :: q in projects ==> PositiveMonths(projects[q])
    ensures forall m :: m in MonthsOf(projects, p) ==> MonthsOf(projects, p)[m] >= 1
  {
    if p in projects {
      assert PositiveMonths(projects[p]);
    }
  }

  lemma MonthsBumped(months: map<string, nat>, m: string, n: nat)
    requires n >= 1 && forall k :: k in months ==> months[k] >= 1
    ensures PositiveMonths(months[m := CountOf(months, m) + n])
  {
    assert m in months[m := CountOf(months, m) + n];
  }

  lemma ProjectsBumped(projects: map<string, map<string, nat>>, p: string, months: map<string, nat>)
    requires PositiveMonths(months) && forall q :: q in projects ==> PositiveMonths(projects[q])
    ensures PositiveProjects(projects[p := months])
  {
    assert p in projects[p := months];
  }

  lemma UpdateKeepsWellFormed(data: Counts, a: string, projects: map<string, map<string, nat>>)
    requires WellFormed(data) && PositiveProjects(projects)
    ensures WellFormed(data[a := projects])
  {
    var r := data[a := projects];
    forall b | b in r ensures PositiveProjects(r[b]) {
      if b != a {
        assert r[b] == data[b];
      }
    }
  }

  // ---------------------------------------------------------------------
  // Counting classified commits

  /** How often `t` occurs in `ts`. */
  function Occurrences(ts: seq<Triple>, t: Triple): nat {
    if ts == [] then 0 else (if ts[0] == t then 1 else 0) + Occurrences(ts[1..], t)
  }

  /** `data` holds, at every leaf, how often that triple occurs in `ts`. */
  ghost predicate Tallies(data: Counts, ts: seq<Triple>) {
    forall t :: Leaf(data, t) == Occurrences(ts, t)
  }

  lemma {:induction false} OccurrencesConcat(a: seq<Triple>, b: seq<Triple>, t: Triple)
    ensures Occurrences(a + b, t) == Occurrences(a, t) + Occurrences(b, t)
  {
    if a == [] {
      assert a + b == b;
    } else {
      assert (a + b)[0] == a[0] && (a + b)[1..] == a[1..] + b;
      OccurrencesConcat(a[1..], b, t);
    }
  }

  lemma OccurrencesOfHead(ts: seq<Triple>)
    ensures ts != [] ==> Occurrences(ts, ts[0]) > 0
  {
  }

  /** `ts` without any occurrence of `k`. */
  function RemoveAll(ts: seq<Triple>, k: Triple): seq<Triple> {
    if ts == [] then [] else (if ts[0] == k then [] else [ts[0]]) + RemoveAll(ts[1..], k)
  }

  lemma {:induction false} RemoveAllCounts(ts: seq<Triple>, k: Triple, t: Triple)
    ensures |RemoveAll(ts, k)| + Occurrences(ts, k) == |ts|
    ensures Occurrences(RemoveAll(ts, k), t) == if t == k then 0 else Occurrences(ts, t)
  {
    if ts != [] {
      var head := if ts[0] == k then [] else [ts[0]];
      OccurrencesConcat(head, RemoveAll(ts[1..], k), t);
      RemoveAllCounts(ts[1..], k, t);
    }
  }

  /** The classification of every commit, in order. */
  function ClassifyAll(prefix: string, commits: seq<Commit>): (ts: seq<Triple>)
    ensures |ts| == |commits|
    ensures forall i :: 0 <= i < |commits| ==> ts[i] == Classify(prefix, commits[i])
  {
    if commits == [] then [] else [Classify(prefix, commits[0])] + ClassifyAll(prefix, commits[1..])
  }

  lemma {:induction false} ClassifyAllConcat(prefix: string, a: seq<Commit>, b: seq<Commit>)
    ensures ClassifyAll(prefix, a + b) == ClassifyAll(prefix, a) + ClassifyAll(prefix, b)
  {
    if a == [] {
      assert a + b == b;
    } else {
      assert (a + b)[0] == a[0] && (a + b)[1..] == a[1..] + b;
      ClassifyAllConcat(prefix, a[1..], b);
    }
  }

  /** Counting the classifications of `a + b` counts those of `a`, then those of `b`. */
  lemma ClassifiedConcat(prefix: string, a: seq<Commit>, b: seq<Commit>, t: Triple)
    ensures Occurrences(ClassifyAll(prefix, a + b), t)
         == Occurrences(ClassifyAll(prefix, a), t) + Occurrences(ClassifyAll(prefix, b), t)
  {
    ClassifyAllConcat(prefix, a, b);
    OccurrencesConcat(ClassifyAll(prefix, a), ClassifyAll(prefix, b), t);
  }

  /** Bumping the leaf of one more commit tallies that commit too. */
  lemma TalliesOneMore(prefix: string, commits: seq<Commit>, i: nat, data: Counts)
    requires i < |commits| && Tallies(data, ClassifyAll(prefix, commits[..i]))
    ensures Tallies(Bump(data, Classify(prefix, commits[i]), 1), ClassifyAll(prefix, commits[..i + 1]))
  {
    assert commits[..i + 1] == commits[..i] + [commits[i]];
    forall t ensures Occurrences(ClassifyAll(prefix, commits[..i + 1]), t)
                  == Occurrences(ClassifyAll(prefix, commits[..i]), t) + (if t == Classify(prefix, commits[i]) then 1 else 0)
    {
      ClassifiedConcat(prefix, commits[..i], [commits[i]], t);
    }
  }

  /** Adding the tallies of two batches tallies their concatenation. */
  lemma TalliesAdd(prefix: string, a: seq<Commit>, b: seq<Commit>, x: Counts, y: Counts, sum: Counts)
    requires Tallies(x, ClassifyAll(prefix, a)) && Tallies(y, ClassifyAll(prefix, b))
    requires forall t :: Leaf(sum, t) == Leaf(x, t) + Leaf(y, t)
    ensures Tallies(sum, ClassifyAll(prefix, a + b))
  {
    forall t ensures Leaf(sum, t) == Occurrences(ClassifyAll(prefix, a + b), t) {
      ClassifiedConcat(prefix, a, b, t);
    }
  }

  // ---------------------------------------------------------------------
  // The two loops that build mappings

  /** organize_commits_by_author_project_and_month: one bump per commit. */
  method Organize(prefix: string, commits: seq<Commit>) returns (data: Counts)
    ensures WellFormed(data)
    ensures Tallies(data, ClassifyAll(prefix, commits))
  {
    data := map[];
    for i := 0 to |commits|
      invariant WellFormed(data)
      invariant Tallies(data, ClassifyAll(prefix, commits[..i]))
    {
      var triple := Classify(prefix, commits[i]);
      BumpKeepsWellFormed(data, triple, 1);
      TalliesOneMore(prefix, commits, i, data);
      data := Bump(data, triple, 1);
    }
    assert commits[..|commits|] == commits;
  }

  /** `merged` is `total` with every leaf of `data` outside `todo` added in. */
  ghost predicate MergedExcept(merged: Counts, total: Counts, data: Counts, todo: set<Triple>) {
    forall t :: Leaf(merged, t) == Leaf(total, t) + (if t in todo then 0 else Leaf(data, t))
  }

  lemma MergeOneLeaf(merged: Counts, total: Counts, data: Counts, todo: set<Triple>, t: Triple)
    requires MergedExcept(merged, total, data, todo) && t in todo
    ensures MergedExcept(Bump(merged, t, Leaf(data, t)), total, data, todo - {t})
  {
  }

  /** The merge loop of fetch_commits: every leaf of `data` is added into the total. */
  method MergeInto(total: Counts, data: Counts) returns (merged: Counts)
    ensures forall t :: Leaf(merged, t) == Leaf(total, t) + Leaf(data, t)
    ensures WellFormed(total) && WellFormed(data) ==> WellFormed(merged)
  {
    merged := total;
    var todo := Leaves(data);
    forall t | t !in todo ensures Leaf(data, t) == 0 {
      LeavesAreLeaves(data, t);
    }
    while todo != {}
      invariant todo <= Leaves(data)
      invariant WellFormed(total) && WellFormed(data) ==> WellFormed(merged)
      invariant MergedExcept(merged, total, data, todo)
      decreases todo
    {
      var t :| t in todo;
      if WellFormed(total) && WellFormed(data) {
        LeavesArePositive(data, t);
        BumpKeepsWellFormed(merged, t, Leaf(data, t));
      }
      MergeOneLeaf(merged, total, data, todo, t);
      merged := Bump(merged, t, Leaf(data, t));
      todo := todo - {t};
    }
  }

  // ---------------------------------------------------------------------
  // Counts determine the mapping

  /** Two well-formed mappings with the same counts are the same mapping. */
  lemma LeavesDetermine(x: Counts, y: Counts)
    requires WellFormed(x) && WellFormed(y)
    requires forall t :: Leaf(x, t) == Leaf(y, t)
    ensures x == y
  {
    forall a | a in x ensures a in y && x[a] == y[a] {
      var p, m := SomeLeafUnder(x, a);
      assert Leaf(y, Triple(a, p, m)) > 0;
      ProjectsDetermine(x, y, a);
    }
    forall a | a in y ensures a in x {
      var p, m := SomeLeafUnder(y, a);
      assert Leaf(x, Triple(a, p, m)) > 0;
    }
    assert x.Keys == y.Keys;
  }

  /** An author in a well-formed mapping has a positive leaf under it. */
  lemma SomeLeafUnder(data: Counts, a: string) returns (p: string, m: string)
    requires WellFormed(data) && a in data
    ensures Leaf(data, Triple(a, p, m)) > 0
  {
    assert PositiveProjects(data[a]);
    p :| p in data[a];
    assert PositiveMonths(data[a][p]);
    m :| m in data[a][p];
  }

  lemma ProjectsDetermine(x: Counts, y: Counts, a: string)
    requires WellFormed(x) && WellFormed(y) && a in x && a in y
    requires forall t :: Leaf(x, t) == Leaf(y, t)
    ensures x[a] == y[a]
  {
    assert PositiveProjects(x[a]) && PositiveProjects(y[a]);
    forall p | p in x[a] ensures p in y[a] {
      assert PositiveMonths(x[a][p]);
      var m :| m in x[a][p];
      assert Leaf(x, Triple(a, p, m)) > 0;
    }
    forall p | p in y[a] ensures p in x[a] {
      assert PositiveMonths(y[a][p]);
      var m :| m in y[a][p];
      assert Leaf(y, Triple(a, p, m)) > 0;
    }
    forall p | p in x[a] ensures x[a][p] == y[a][p] {
      MonthsDetermine(x, y, a, p);
    }
  }

  lemma MonthsDetermine(x: Counts, y: Counts, a: string, p: string)
    requires WellFormed(x) && WellFormed(y)
    requires a in x && a in y && p in x[a] && p in y[a]
    requires forall t :: Leaf(x, t) == Leaf(y, t)
    ensures x[a][p] == y[a][p]
  {
    assert PositiveProjects(x[a]) && PositiveProjects(y[a]);
    assert PositiveMonths(x[a][p]) && PositiveMonths(y[a][p]);
    forall m | m in x[a][p] ensures m in y[a][p] && x[a][p][m] == y[a][p][m] {
      assert Leaf(x, Triple(a, p, m)) == Leaf(y, Triple(a, p, m));
    }
    forall m | m in y[a][p] ensures m in x[a][p] {
      assert Leaf(y, Triple(a, p, m)) > 0;
    }
  }
}
