/**
 * The detail page's loading logic: each time the `sku` route parameter changes the
 * effect starts a load of the whole catalogue, and the cleanup of the previous run
 * marks it as no longer mounted. A load that settles while its run is still mounted
 * shows the first record with that SKU, or "not found"; a failed load keeps the book.
 * Rendering is left out; `book` and `loading` are the two state hooks.
 */
module BookDetails {
  import opened Wrappers
  import opened Books

  /** One run of the effect: the SKU it loads, its `mounted` flag, and whether its load has settled. */
  datatype Run = Run(sku: string, mounted: bool, settled: bool)

  /** The page's state: the `book` hook (`None` is `null`), the `loading` hook, and every effect run so far. */
  datatype View = View(book: Option<Book>, loading: bool, runs: seq<Run>)

  /** The first render: `useState(null)`, `useState(true)`, no effect run yet. */
  const Initial := View(None, true, [])

  /** Only the latest run can still be mounted: React cleans a run up before starting the next. */
  predicate OnlyLatestMounted(v: View) {
    forall i :: 0 <= i < |v.runs| - 1 ==> !v.runs[i].mounted
  }

  /** While the latest run is mounted, the page is loading exactly until that run's load settles. */
  predicate LoadingTracksLatest(v: View) {
    |v.runs| > 0 && v.runs[|v.runs| - 1].mounted ==> (v.loading <==> !v.runs[|v.runs| - 1].settled)
  }

  predicate Valid(v: View) {
    OnlyLatestMounted(v) && LoadingTracksLatest(v)
  }

  /** The effect runs for `sku`: a new mounted run, and `setLoading(true)`. */
  function StartRun(v: View, sku: string): (w: View)
    requires OnlyLatestMounted(v) && (|v.runs| > 0 ==> !v.runs[|v.runs| - 1].mounted)
    ensures Valid(w)
    ensures w.book == v.book && w.loading
    ensures w.runs == v.runs + [Run(sku, true, false)]
  {
    View(v.book, true, v.runs + [Run(sku, true, false)])
  }

  /** The cleanup of the latest run: `mounted = false`. */
  function CleanupRun(v: View): (w: View)
    requires Valid(v)
    ensures Valid(w)
    ensures w.book == v.book && w.loading == v.loading && |w.runs| == |v.runs|
    ensures forall i :: 0 <= i < |v.runs| ==> w.runs[i] == v.runs[i].(mounted := false)
  {
    View(v.book, v.loading, seq(|v.runs|, i requires 0 <= i < |v.runs| => v.runs[i].(mounted := false)))
  }

  /**
   * The book after a run's load settles with `response`: the first record with the run's
   * SKU, or `None` for "not found", when the run is still mounted and the catalogue
   * arrived; otherwise the book is left as it was.
   */
  function SettledBook(current: Option<Book>, run: Run, response: FetchResult): (book: Option<Book>)
    ensures !run.mounted || !response.Fetched? ==> book == current
    ensures run.mounted && response.Fetched? ==> book == FindBySku(response.books, run.sku)
    ensures run.mounted && response.Fetched? ==>
      (book.None? <==> forall k :: 0 <= k < |response.books| ==> !SkuMatches(response.books[k], run.sku))
    ensures run.mounted && response.Fetched? && book.Some? ==>
      book.value in response.books && SkuMatches(book.value, run.sku)
  {
    if run.mounted && response.Fetched? then FindBySku(response.books, run.sku) else current
  }

  /**
   * Run `i`'s load settles, as the code is written: the `finally` block clears `loading`
   * whether or not the run is still mounted.
   */
  function SettleRunAsWritten(v: View, i: nat, response: FetchResult): (w: View)
    requires i < |v.runs| && !v.runs[i].settled
    ensures !w.loading
    ensures w.book == SettledBook(v.book, v.runs[i], response)
    ensures w.runs == v.runs[i := v.runs[i].(settled := true)]
  {
    View(SettledBook(v.book, v.runs[i], response), false, v.runs[i := v.runs[i].(settled := true)])
  }

  /**
   * A load started for one SKU and abandoned when the SKU changed clears `loading`
   * while the load for the new SKU is still pending, so the page stops showing
   * "Loading..." and shows the previous book (or "not found") under the new address.
   */
  lemma SupersededLoadClearsLoading(first: string, second: string, response: FetchResult)
    ensures var pending := StartRun(CleanupRun(StartRun(Initial, first)), second);
      && Valid(pending) && pending.loading
      && var w := SettleRunAsWritten(pending, 0, response);
      && !w.loading && !w.runs[1].settled && w.book == Initial.book
      && !LoadingTracksLatest(w)
  {
    var started := StartRun(Initial, first);
    var cleaned := CleanupRun(started);
    assert cleaned.runs[0] == Run(first, false, false);
    var pending := StartRun(cleaned, second);
    assert pending.runs == [Run(first, false, false), Run(second, true, false)];
  }

  /**
   * Run `i`'s load settles, as intended: `loading` is cleared only by a run that is still
   * mounted, so an abandoned load cannot end the loading state of its successor.
   */
  function SettleRun(v: View, i: nat, response: FetchResult): (w: View)
    requires i < |v.runs| && !v.runs[i].settled
    ensures v.runs[i].mounted ==> !w.loading
    ensures !v.runs[i].mounted ==> w.loading == v.loading && w.book == v.book
    ensures w.book == SettledBook(v.book, v.runs[i], response)
    ensures w.runs == v.runs[i := v.runs[i].(settled := true)]
  {
    View(SettledBook(v.book, v.runs[i], response),
         if v.runs[i].mounted then false else v.loading,
         v.runs[i := v.runs[i].(settled := true)])
  }

  /** Settling any load keeps the page consistent: loading lasts exactly until the current run settles. */
  lemma {:induction false} SettleKeepsValid(v: View, i: nat, response: FetchResult)
    requires Valid(v) && i < |v.runs| && !v.runs[i].settled
    ensures Valid(SettleRun(v, i, response))
  {
    var w := SettleRun(v, i, response);
    var last := |v.runs| - 1;
    if i != last {
      assert w.runs[last] == v.runs[last];
    }
  }

  /**
   * The effect for one SKU, from its start to its settling with no other run in between,
   * ends with `loading` false and the book that SKU's lookup gives, or the previous book
   * when the request failed.
   */
  lemma {:induction false} CommittedLoad(v: View, sku: string, response: FetchResult)
    requires Valid(v) && (|v.runs| > 0 ==> !v.runs[|v.runs| - 1].mounted)
    ensures var w := SettleRun(StartRun(v, sku), |v.runs|, response);
      && !w.loading
      && (response.Fetched? ==> w.book == FindBySku(response.books, sku))
      && (!response.Fetched? ==> w.book == v.book)
  {
    var s := StartRun(v, sku);
    assert s.runs[|v.runs|] == Run(sku, true, false);
  }

  /** The detail page as an object whose two state hooks and effect runs change in place. */
  class BookDetailsView {
    var book: Option<Book>
    var loading: bool
    var runs: seq<Run>

    function Snapshot(): View
      reads this
    {
      View(book, loading, runs)
    }

    constructor ()
      ensures Snapshot() == Initial
    {
      book := None;
      loading := true;
      runs := [];
    }

    /** The effect runs for `sku` and starts its load; `run` names it for its cleanup and settling. */
    method Start(sku: string) returns (run: nat)
      requires OnlyLatestMounted(Snapshot()) && (|runs| > 0 ==> !runs[|runs| - 1].mounted)
      modifies this
      ensures Snapshot() == StartRun(old(Snapshot()), sku)
      ensures run == |runs| - 1 && runs[run].sku == sku
    {
      runs := runs + [Run(sku, true, false)];
      loading := true;
      run := |runs| - 1;
    }

    /** The cleanup function the effect returned: the latest run is no longer mounted. */
    method Cleanup()
      requires Valid(Snapshot())
      modifies this
      ensures Snapshot() == CleanupRun(old(Snapshot()))
    {
      if |runs| > 0 {
        runs := runs[|runs| - 1 := runs[|runs| - 1].(mounted := false)];
      }
      assert runs == CleanupRun(old(Snapshot())).runs;
    }

    /** Run `run`'s load settles with `response`. */
    method Settle(run: nat, response: FetchResult)
      requires Valid(Snapshot()) && run < |runs| && !runs[run].settled
      modifies this
      ensures Snapshot() == SettleRun(old(Snapshot()), run, response)
      ensures Valid(Snapshot())
    {
      SettleKeepsValid(Snapshot(), run, response);
      var r := runs[run];
      if r.mounted && response.Fetched? {
        book := FindBySku(response.books, r.sku);
      }
      if r.mounted {
        loading := false;
      }
      runs := runs[run := r.(settled := true)];
    }
  }
}
