/**
 * The commit fetcher's pagination loop. Each request asks for one page of
 * `PageSize` commits at offset `skip`; what the service does with a request
 * is an input: the `responses` sequence gives the outcome of each request
 * in the order the requests are issued.
 */
module Pagination {
  import opened Classifier

  const PageSize: nat := 1000

  /** The outcome of one page request. */
  datatype Response =
    | Reply(status: int, value: seq<Commit>)  // an HTTP reply; `value` is the body's list ([] when absent)
    | Timeout                                  // the request timed out
    | Failure                                  // any other error while requesting or decoding

  /** The response ends the loop: an empty page, a non-OK status, or an unexpected error. */
  predicate Ends(r: Response) {
    match r
    case Reply(status, value) => status != 200 || value == []
    case Timeout => false
    case Failure => true
  }

  /** The response is a non-empty page, which moves the offset on. */
  predicate Advances(r: Response) {
    r.Reply? && r.status == 200 && r.value != []
  }

  /** The commits a response contributes to the result. */
  function Payload(r: Response): (page: seq<Commit>)
    ensures page != [] <==> Advances(r)
  {
    if Advances(r) then r.value else []
  }

  /** The pages of `rs`, concatenated in order. */
  function Gathered(rs: seq<Response>): seq<Commit> {
    if rs == [] then [] else Gathered(rs[..|rs| - 1]) + Payload(rs[|rs| - 1])
  }

  /** How many of `rs` are non-empty pages. */
  function PagesIn(rs: seq<Response>): nat {
    if rs == [] then 0 else PagesIn(rs[..|rs| - 1]) + (if Advances(rs[|rs| - 1]) then 1 else 0)
  }

  /** How many requests are issued: up to and including the first response
      that ends the loop, or all of them if none does. */
  function RequestCount(rs: seq<Response>): (n: nat)
    ensures n <= |rs|
    ensures forall k :: 0 <= k < n - 1 ==> !Ends(rs[k])
    ensures n == |rs| || (0 < n && Ends(rs[n - 1]))
  {
    if rs == [] then 0
    else if Ends(rs[0]) then 1
    else 1 + RequestCount(rs[1..])
  }

  /** The commits the fetcher returns for the service behaviour `rs`. */
  function Fetched(rs: seq<Response>): seq<Commit> {
    Gathered(rs[..RequestCount(rs)])
  }

  /** get_commits: requests pages at offsets 0, 1000, 2000, ... and
      concatenates them; a timeout repeats the request at the same offset;
      an empty page, a non-OK reply or an unexpected error stops the loop.
      `skips` lists the `$skip` parameter of every request issued. */
  method GetCommits(responses: seq<Response>) returns (commits: seq<Commit>, skips: seq<nat>)
    ensures |skips| == RequestCount(responses)
    ensures commits == Gathered(responses[..|skips|])
    ensures forall k :: 0 <= k < |skips| ==> skips[k] == PageSize * PagesIn(responses[..k])
    ensures forall k :: 0 <= k < |skips| - 1 && responses[k].Timeout? ==> skips[k + 1] == skips[k]
    ensures forall k :: 0 <= k < |skips| - 1 && Advances(responses[k]) ==> skips[k + 1] == skips[k] + PageSize
  {
    commits, skips := [], [];
    var skip := 0;
    var i := 0;
    var stop := false;
    while i < |responses| && !stop
      invariant Progress(responses, i, commits, skip, skips)
      invariant forall k :: 0 <= k < i - 1 ==> !Ends(responses[k])
      invariant stop <==> 0 < i && Ends(responses[i - 1])
    {
      var response := responses[i];
      ProgressStep(responses, i, commits, skip, skips);
      skips := skips + [skip];
      i := i + 1;
      match response
      case Timeout =>
        // retried at the same offset
      case Failure =>
        stop := true;
      case Reply(status, value) =>
        if status != 200 || value == [] {
          stop := true;
        } else {
          commits := commits + value;
          skip := skip + PageSize;
        }
    }
    RequestCountIs(responses, i);
    OffsetSteps(responses, skips);
  }

  /** What the fetch loop has done after the first `i` requests. */
  predicate Progress(rs: seq<Response>, i: nat, commits: seq<Commit>, skip: nat, skips: seq<nat>) {
    && i == |skips| <= |rs|
    && commits == Gathered(rs[..i])
    && skip == PageSize * PagesIn(rs[..i])
    && forall k :: 0 <= k < i ==> skips[k] == PageSize * PagesIn(rs[..k])
  }

  lemma ProgressStep(rs: seq<Response>, i: nat, commits: seq<Commit>, skip: nat, skips: seq<nat>)
    requires Progress(rs, i, commits, skip, skips) && i < |rs|
    ensures Progress(rs, i + 1, commits + Payload(rs[i]),
                     skip + (if Advances(rs[i]) then PageSize else 0), skips + [skip])
  {
    SnocStep(rs, i);
  }

  /** Consecutive offsets: equal after a timeout, one page further after a page. */
  lemma OffsetSteps(rs: seq<Response>, skips: seq<nat>)
    requires |skips| <= |rs|
    requires forall k :: 0 <= k < |skips| ==> skips[k] == PageSize * PagesIn(rs[..k])
    ensures forall k :: 0 <= k < |skips| - 1 && rs[k].Timeout? ==> skips[k + 1] == skips[k]
    ensures forall k :: 0 <= k < |skips| - 1 && Advances(rs[k]) ==> skips[k + 1] == skips[k] + PageSize
  {
    forall k | 0 <= k < |skips| - 1
      ensures PagesIn(rs[..k + 1]) == PagesIn(rs[..k]) + (if Advances(rs[k]) then 1 else 0)
    {
      SnocStep(rs, k);
    }
  }

  /** Consuming one more response adds its payload and, for a page, one to the page count. */
  lemma SnocStep(rs: seq<Response>, i: nat)
    requires i < |rs|
    ensures Gathered(rs[..i + 1]) == Gathered(rs[..i]) + Payload(rs[i])
    ensures PagesIn(rs[..i + 1]) == PagesIn(rs[..i]) + (if Advances(rs[i]) then 1 else 0)
  {
    assert rs[..i + 1][..i] == rs[..i];
  }

  /** The number of requests is pinned down by where the first ending response sits. */
  lemma {:induction false} RequestCountIs(rs: seq<Response>, n: nat)
    requires n <= |rs|
    requires forall k :: 0 <= k < n - 1 ==> !Ends(rs[k])
    requires n == |rs| || (0 < n && Ends(rs[n - 1]))
    ensures RequestCount(rs) == n
  {
    if rs != [] && !Ends(rs[0]) {
      RequestCountIs(rs[1..], n - 1);
    }
  }

  /** Gathering is a fold from the left as well: the first response's page comes first. */
  lemma {:induction false} GatheredCons(r: Response, rs: seq<Response>)
    ensures Gathered([r] + rs) == Payload(r) + Gathered(rs)
  {
    if rs != [] {
      var n := |rs| - 1;
      assert ([r] + rs)[..|rs|] == [r] + rs[..n];
      assert ([r] + rs)[|rs|] == rs[n];
      GatheredCons(r, rs[..n]);
    } else {
      assert ([r] + rs)[..0] == [];
    }
  }

  /** The fetcher's result, one response at a time: an ending response yields
      nothing more, a timeout is retried and adds nothing, a page is kept and
      followed by the rest. */
  lemma FetchedCons(r: Response, rs: seq<Response>)
    ensures Fetched([r] + rs) == if Ends(r) then [] else Payload(r) + Fetched(rs)
    ensures RequestCount([r] + rs) == if Ends(r) then 1 else 1 + RequestCount(rs)
  {
    assert ([r] + rs)[0] == r && ([r] + rs)[1..] == rs;
    if Ends(r) {
      assert ([r] + rs)[..1] == [r];
      assert Payload(r) == [];
      GatheredCons(r, []);
    } else {
      assert ([r] + rs)[..1 + RequestCount(rs)] == [r] + rs[..RequestCount(rs)];
      GatheredCons(r, rs[..RequestCount(rs)]);
    }
  }
}
