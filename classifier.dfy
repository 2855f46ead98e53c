/**
 * The commit classifier: an author display name from the author's e-mail
 * address, and a project tag from the commit title.
 *
 * The project tag is found by the regular expression `(PREFIX.*?)-` under
 * a leftmost search; PREFIX is a literal configured by the caller. It is
 * written here as a hand-coded scanner, with the regular expression's
 * meaning stated separately by `MatchAt`.
 */
module Classifier {
  import opened Options
  import Dates

  /** A commit as the service reports it: author e-mail, author date, title. */
  datatype Commit = Commit(email: string, date: Dates.Timestamp, comment: string)

  /** The (author, project, month) bucket a commit is counted in. */
  datatype Triple = Triple(author: string, project: string, month: string)

  /** The tag of a commit whose title names no project. */
  const NotFound := "N/A"

  // ---------------------------------------------------------------------
  // Author names

  /** The text before the first `@`, or the whole address if there is none. */
  function LocalPart(email: string): (local: string)
    ensures |local| <= |email| && local == email[..|local|]
    ensures '@' !in local
    ensures |local| < |email| ==> email[|local|] == '@'
  {
    if email == "" || email[0] == '@' then "" else [email[0]] + LocalPart(email[1..])
  }

  /** Every `.` turned into a space, everything else kept in place. */
  function DotsToSpaces(s: string): (r: string)
    ensures |r| == |s|
    ensures forall i :: 0 <= i < |s| ==> r[i] == (if s[i] == '.' then ' ' else s[i])
  {
    if s == "" then "" else [if s[0] == '.' then ' ' else s[0]] + DotsToSpaces(s[1..])
  }

  function ExtractNameFromEmail(email: string): (name: string)
    ensures '@' !in name && '.' !in name
    ensures |name| <= |email|
    ensures forall i :: 0 <= i < |name| ==> name[i] == (if email[i] == '.' then ' ' else email[i])
    ensures |name| < |email| ==> email[|name|] == '@'
    ensures '@' !in email ==> |name| == |email|
  {
    DotsToSpaces(LocalPart(email))
  }

  /** An address `local@domain` whose local part holds no `@` is counted
      under its local part, dots turned into spaces, whatever the domain. */
  lemma NameOfAddress(local: string, domain: string)
    requires '@' !in local
    ensures ExtractNameFromEmail(local + "@" + domain) == DotsToSpaces(local)
  {
    LocalPartOfAddress(local, domain);
  }

  lemma {:induction false} LocalPartOfAddress(local: string, domain: string)
    requires '@' !in local
    ensures LocalPart(local + "@" + domain) == local
  {
    if local == "" {
      assert local + "@" + domain == "@" + domain;
    } else {
      assert (local + "@" + domain)[0] == local[0];
      assert (local + "@" + domain)[1..] == local[1..] + "@" + domain;
      LocalPartOfAddress(local[1..], domain);
    }
  }

  // ---------------------------------------------------------------------
  // Project tags: what `(prefix.*?)-` means

  /** `t[j]` is the first `-` at or after `k`, and no line break comes before it
      (`.` does not match a line break). */
  predicate DashRun(t: string, k: nat, j: nat) {
    k <= j < |t| && t[j] == '-' &&
    forall m :: k <= m < j ==> t[m] != '-' && t[m] != '\n'
  }

  /** The regular expression matches at `i`, its closing `-` being `t[j]`. */
  predicate MatchAt(prefix: string, t: string, i: nat, j: nat) {
    i + |prefix| <= |t| && t[i..i + |prefix|] == prefix && DashRun(t, i + |prefix|, j)
  }

  /** The match a leftmost search reports: no match starts further left. */
  ghost predicate Leftmost(prefix: string, t: string, i: nat, j: nat) {
    MatchAt(prefix, t, i, j) &&
    forall i': nat, j': nat :: i' < i ==> !MatchAt(prefix, t, i', j')
  }

  // ---------------------------------------------------------------------
  // Project tags: the scanner

  /** Scans from `k` for the lazy `.*?-`: stops at the first `-` or line break. */
  function DashAfter(t: string, k: nat): (r: Option<nat>)
    requires k <= |t|
    decreases |t| - k
    ensures r.Some? ==> DashRun(t, k, r.value)
    ensures r.None? ==> forall j: nat :: !DashRun(t, k, j)
  {
    if k == |t| || t[k] == '\n' then None
    else if t[k] == '-' then Some(k)
    else
      var r := DashAfter(t, k + 1);
      assert forall j: nat :: DashRun(t, k, j) ==> DashRun(t, k + 1, j);
      r
  }

  /** Tries each start position from `i` on, left to right. */
  function SearchFrom(prefix: string, t: string, i: nat): (r: Option<(nat, nat)>)
    requires i <= |t|
    decreases |t| - i
    ensures r.Some? ==> i <= r.value.0 && MatchAt(prefix, t, r.value.0, r.value.1)
    ensures r.Some? ==> forall i': nat, j: nat :: i <= i' < r.value.0 ==> !MatchAt(prefix, t, i', j)
    ensures r.None? ==> forall i': nat, j: nat :: i <= i' ==> !MatchAt(prefix, t, i', j)
  {
    if i + |prefix| >= |t| then None
    else if t[i..i + |prefix|] == prefix && DashAfter(t, i + |prefix|).Some? then
      Some((i, DashAfter(t, i + |prefix|).value))
    else
      SearchFrom(prefix, t, i + 1)
  }

  function ExtractProjectFromTitle(prefix: string, title: string): (project: string)
    ensures (forall i: nat, j: nat :: !MatchAt(prefix, title, i, j)) ==> project == NotFound
    ensures forall i: nat, j: nat :: Leftmost(prefix, title, i, j) ==> j <= |title| && project == title[i..j]
  {
    match SearchFrom(prefix, title, 0)
    case Some((i, j)) =>
      assert forall i': nat, j': nat :: Leftmost(prefix, title, i', j') ==> i' == i && j' == j by {
        forall i': nat, j': nat | Leftmost(prefix, title, i', j') ensures i' == i && j' == j {
          assert !(i < i') && !(i' < i);
          DashRunUnique(title, i + |prefix|, j, j');
        }
      }
      title[i..j]
    case None => NotFound
  }

  /** A line's first `-` is unique. */
  lemma DashRunUnique(t: string, k: nat, j: nat, j': nat)
    requires DashRun(t, k, j) && DashRun(t, k, j')
    ensures j == j'
  {
  }

  /** When the title has a match, the tag is the leftmost match's text: it
      starts with the prefix, it is followed in the title by `-`, and after
      the prefix it holds neither `-` nor a line break. */
  lemma MatchedTag(prefix: string, title: string, i0: nat, j0: nat)
    requires MatchAt(prefix, title, i0, j0)
    ensures var project := ExtractProjectFromTitle(prefix, title);
      exists i: nat, j: nat :: Leftmost(prefix, title, i, j) && project == title[i..j]
    ensures var project := ExtractProjectFromTitle(prefix, title);
      |prefix| <= |project| && project[..|prefix|] == prefix &&
      forall m :: |prefix| <= m < |project| ==> project[m] != '-' && project[m] != '\n'
  {
    var r := SearchFrom(prefix, title, 0);
    assert r.Some?;
    var (i, j) := r.value;
    assert Leftmost(prefix, title, i, j);
  }

  /** With a prefix that `N/A` does not itself start with, the tag is `N/A`
      exactly when nothing in the title matches. */
  lemma NotFoundExactlyWithoutMatch(prefix: string, title: string)
    requires !(|prefix| <= |NotFound| && NotFound[..|prefix|] == prefix)
    ensures ExtractProjectFromTitle(prefix, title) == NotFound
        <==> forall i: nat, j: nat :: !MatchAt(prefix, title, i, j)
  {
    if exists i: nat, j: nat :: MatchAt(prefix, title, i, j) {
      var i: nat, j: nat :| MatchAt(prefix, title, i, j);
      MatchedTag(prefix, title, i, j);
    }
  }

  /** Classifies one commit, as the aggregation loop does for each commit. */
  function Classify(prefix: string, c: Commit): (t: Triple)
    ensures '@' !in t.author && '.' !in t.author
    ensures |t.month| == 7
  {
    Triple(ExtractNameFromEmail(c.email), ExtractProjectFromTitle(prefix, c.comment), Dates.MonthKey(c.date))
  }
}
