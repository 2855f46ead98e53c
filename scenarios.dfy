/**
 * Worked cases: the behaviour the repository's tests expect, stated on the
 * model.
 */
module Scenarios {
  import opened Classifier
  import opened Pagination
  import Dates

  /** `john.doe@example.com` is counted as `john doe`. */
  lemma DottedNameExample()
    ensures ExtractNameFromEmail("john.doe@example.com") == "john doe"
  {
    assert "john.doe@example.com" == "john.doe" + "@" + "example.com";
    NameOfAddress("john.doe", "example.com");
    DotsExample();
  }

  lemma DotsExample()
    ensures DotsToSpaces("john.doe") == "john doe"
  {
    var r := DotsToSpaces("john.doe");
    assert r[4] == ' ';
  }

  /** `alice@example.com` is counted as `alice`. */
  lemma PlainNameExample()
    ensures ExtractNameFromEmail("alice@example.com") == "alice"
  {
    assert "alice@example.com" == "alice" + "@" + "example.com";
    NameOfAddress("alice", "example.com");
    assert DotsToSpaces("alice") == "alice";
  }

  /** With the prefix `XXXXX`, `XXXXX123-fix issue` is tagged `XXXXX123`, and a
      title without the prefix is tagged `N/A`. */
  lemma ProjectExamples()
    ensures ExtractProjectFromTitle("XXXXX", "XXXXX123-fix issue") == "XXXXX123"
    ensures ExtractProjectFromTitle("XXXXX", "no match") == NotFound
  {
    var t := "XXXXX123-fix issue";
    assert MatchAt("XXXXX", t, 0, 8);
    assert Leftmost("XXXXX", t, 0, 8);
    NotFoundExactlyWithoutMatch("XXXXX", "no match");
    forall i: nat, j: nat ensures !MatchAt("XXXXX", "no match", i, j) {
      if i + 5 <= 8 {
        assert "no match"[i] != 'X';
      }
    }
  }

  /** One page with a single commit, then an empty page: two requests, at
      offsets 0 and 1000, and that one commit. */
  lemma OnePageThenEmpty(c: Commit)
    ensures var rs := [Reply(200, [c]), Reply(200, [])];
      Fetched(rs) == [c] && RequestCount(rs) == 2
  {
    var rs := [Reply(200, [c]), Reply(200, [])];
    FetchedCons(rs[0], rs[1..]);
    FetchedCons(rs[1], []);
    assert [rs[0]] + rs[1..] == rs;
  }
}
