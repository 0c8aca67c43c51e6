/** The per-category driver: the fetch gate in front of the analysis, one
    result per configured category, and the final success/error counts. */
module Run {
  import opened Wrappers
  import opened Dom
  import opened Analysis

  /** The exceptions the fetch can raise; every one of them ends in the same
      "no result". */
  datatype FetchError = Timeout | RequestFailed | Unexpected

  /** What the single GET for one category produced: a response with its
      status code and parsed document, or an exception. */
  datatype FetchOutcome =
    | Response(status: int, doc: Node)
    | Raised(error: FetchError)

  /** `explore_page_structure`: a non-200 status or an exception gives no
      result; a 200 response is always analysed and always gives one. */
  function Explore(o: FetchOutcome): (r: Option<Report>)
    ensures r.Some? <==> o.Response? && o.status == 200
    ensures r.Some? ==> r.value == Analyze(o.doc)
  {
    match o
    case Raised(_) => None
    case Response(status, doc) =>
      if status != 200 then None else Some(Analyze(doc))
  }

  /** One entry of the category table. */
  datatype Target = Target(category: string, url: string)

  /** The entry `main` records for a category (its timestamp is not kept). */
  datatype CategoryResult = CategoryResult(category: string, success: bool)

  /** The categories are the keys of a dictionary, hence pairwise distinct. */
  predicate DistinctCategories(targets: seq<Target>) {
    forall i, j :: 0 <= i < j < |targets| ==> targets[i].category != targets[j].category
  }

  /** The loop of `main`: one result per category, in table order, where
      `outcomes[i]` is what fetching `targets[i]` produced. */
  function RunAll(targets: seq<Target>, outcomes: seq<FetchOutcome>): (r: seq<CategoryResult>)
    requires |outcomes| == |targets|
    requires DistinctCategories(targets)
    ensures |r| == |targets|
    ensures forall i :: 0 <= i < |r| ==> r[i].category == targets[i].category
    ensures forall i :: 0 <= i < |r| ==>
      (r[i].success <==> outcomes[i].Response? && outcomes[i].status == 200)
    ensures forall i, j :: 0 <= i < j < |r| ==> r[i].category != r[j].category
  {
    seq(|targets|, i requires 0 <= i < |targets| =>
      CategoryResult(targets[i].category, Explore(outcomes[i]).Some?))
  }

  /** `sum(1 for r in results.values() if r['success'])`. */
  function CountSuccesses(rs: seq<CategoryResult>): (n: nat)
    ensures n <= |rs|
    ensures n == |rs| <==> forall i :: 0 <= i < |rs| ==> rs[i].success
    ensures n == 0 <==> forall i :: 0 <= i < |rs| ==> !rs[i].success
  {
    if rs == [] then 0
    else
      var n := CountSuccesses(rs[1..]);
      assert forall i :: 1 <= i < |rs| ==> rs[i] == rs[1..][i - 1];
      (if rs[0].success then 1 else 0) + n
  }

  /** Counting a list extended by one result. */
  lemma {:induction false} CountSuccessesSnoc(rs: seq<CategoryResult>, x: CategoryResult)
    ensures CountSuccesses(rs + [x]) == CountSuccesses(rs) + (if x.success then 1 else 0)
  {
    if rs != [] {
      assert (rs + [x])[1..] == rs[1..] + [x];
      CountSuccessesSnoc(rs[1..], x);
    }
  }

  /** The final summary of `main`: successes, and errors as the table size
      minus the successes. */
  method Summarize(targets: seq<Target>, results: seq<CategoryResult>)
    returns (successful: nat, errors: nat)
    requires |results| == |targets|
    ensures successful == CountSuccesses(results)
    ensures successful + errors == |targets|
    ensures errors == 0 <==> forall i :: 0 <= i < |results| ==> results[i].success
  {
    successful := 0;
    var k := 0;
    while k < |results|
      invariant 0 <= k <= |results|
      invariant successful == CountSuccesses(results[..k])
    {
      assert results[..k + 1] == results[..k] + [results[k]];
      CountSuccessesSnoc(results[..k], results[k]);
      if results[k].success {
        successful := successful + 1;
      }
      k := k + 1;
    }
    assert results[..k] == results;
    errors := |targets| - successful;
  }

  /** A result list that mirrors the outcomes position by position counts
      exactly the 200 responses as successes. */
  lemma {:induction false} MirroredCountsAgree(rs: seq<CategoryResult>, os: seq<FetchOutcome>)
    requires |rs| == |os|
    requires forall i :: 0 <= i < |rs| ==> (rs[i].success <==> os[i].Response? && os[i].status == 200)
    ensures CountSuccesses(rs) == Count200(os)
  {
    if rs != [] {
      MirroredCountsAgree(rs[1..], os[1..]);
    }
  }

  /** One category's failure does not affect another's: the number of
      successes of a run is the number of 200 responses among its fetches. */
  lemma {:induction false} SuccessesAre200Responses(targets: seq<Target>, outcomes: seq<FetchOutcome>)
    requires |outcomes| == |targets|
    requires DistinctCategories(targets)
    ensures CountSuccesses(RunAll(targets, outcomes)) == Count200(outcomes)
  {
    MirroredCountsAgree(RunAll(targets, outcomes), outcomes);
  }

  /** The number of outcomes that are a 200 response. */
  function Count200(os: seq<FetchOutcome>): nat {
    if os == [] then 0
    else (if os[0].Response? && os[0].status == 200 then 1 else 0) + Count200(os[1..])
  }
}
