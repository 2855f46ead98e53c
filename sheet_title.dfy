/**
 * Spreadsheet tab titles for the report: at most 31 characters and none of
 * the characters a workbook refuses in a sheet name.
 */
module SheetTitle {
  const MaxTitleLength: nat := 31

  /** The characters removed from a title: \ / * ? : " < > | */
  const ForbiddenChars: string := "\\/*?:\"<>|"

  predicate Forbidden(c: char) {
    c in ForbiddenChars
  }

  predicate Clean(s: string) {
    forall i :: 0 <= i < |s| ==> !Forbidden(s[i])
  }

  /** The first `MaxTitleLength` characters, or all of them for a shorter title. */
  function Truncate(title: string): (r: string)
    ensures |r| <= MaxTitleLength
    ensures |r| <= |title| && r == title[..|r|]
    ensures |r| == |title| || |r| == MaxTitleLength
  {
    if |title| <= MaxTitleLength then title else title[..MaxTitleLength]
  }

  /** Deletes every forbidden character, keeping the rest in order. */
  function StripForbidden(s: string): (r: string)
    ensures |r| <= |s|
    ensures Clean(r)
  {
    if s == "" then ""
    else if Forbidden(s[0]) then StripForbidden(s[1..])
    else [s[0]] + StripForbidden(s[1..])
  }

  /** Every allowed character survives, as often as it occurred. */
  lemma {:induction false} StripKeepsAllowed(s: string, c: char)
    requires !Forbidden(c)
    ensures multiset(StripForbidden(s))[c] == multiset(s)[c]
  {
    if s != "" {
      assert s == [s[0]] + s[1..];
      StripKeepsAllowed(s[1..], c);
    }
  }

  function CleanTitle(title: string): (r: string)
    ensures |r| <= MaxTitleLength
    ensures Clean(r)
    ensures forall c :: !Forbidden(c) ==> multiset(r)[c] == multiset(Truncate(title))[c]
  {
    var r := StripForbidden(Truncate(title));
    forall c | !Forbidden(c) ensures multiset(r)[c] == multiset(Truncate(title))[c] {
      StripKeepsAllowed(Truncate(title), c);
    }
    r
  }

  /** Removal respects order: stripping a concatenation strips each part. */
  lemma {:induction false} StripConcat(a: string, b: string)
    ensures StripForbidden(a + b) == StripForbidden(a) + StripForbidden(b)
  {
    if a != "" {
      var head := if Forbidden(a[0]) then "" else [a[0]];
      assert (a + b)[0] == a[0] && (a + b)[1..] == a[1..] + b;
      assert StripForbidden(a + b) == head + StripForbidden(a[1..] + b);
      assert StripForbidden(a) == head + StripForbidden(a[1..]);
      StripConcat(a[1..], b);
    } else {
      assert a + b == b;
    }
  }

  /** A title with nothing to remove is left as it is. */
  lemma {:induction false} StripClean(s: string)
    requires Clean(s)
    ensures StripForbidden(s) == s
  {
    if s != "" {
      StripClean(s[1..]);
    }
  }

  /** Cleaning a clean title changes nothing. */
  lemma CleanTitleIdempotent(title: string)
    ensures CleanTitle(CleanTitle(title)) == CleanTitle(title)
  {
    StripClean(CleanTitle(title));
  }

  /** When the first 31 characters hold nothing forbidden, the title is just cut. */
  lemma CleanTitleOfCleanPrefix(title: string)
    requires Clean(Truncate(title))
    ensures CleanTitle(title) == Truncate(title)
  {
    StripClean(Truncate(title));
  }

  /** Truncation comes first: forbidden characters among the first 31 still
      count against the length, so a long title can come out shorter than 31. */
  lemma TruncateBeforeStrip(title: string)
    requires |title| > MaxTitleLength && Forbidden(title[0])
    ensures |CleanTitle(title)| < MaxTitleLength
  {
    var cut := Truncate(title);
    assert cut == [cut[0]] + cut[1..];
  }
}
