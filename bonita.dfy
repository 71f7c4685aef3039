/** One run of bonita_calculator.php from its inputs to its outcome: the parcel
    selection, the cache step (running bpej_fetch.php when it decides to), the parcel
    loop, the price loop and the summary. Every outside source is a parameter: the
    operator's input lines, the cache file found on disk, the answer bpej_fetch.php
    gets for the overview page, the cadastre service and the price pages. */
module Calculator {
  import opened Options
  import opened Numeric
  import opened Input
  import opened CacheRefresh
  import opened Aggregation
  import opened Pricing
  import opened Report
  import opened PriceTable

  /** How a run ends. */
  datatype RunOutcome =
    | Stopped                    // "n" at the go-ahead prompt: exit(0)
    | ParcelFailed(index: nat)   // the cadastre gave no record for this parcel: exit(1)
    | Unpriced(code: string)  // the code's fetch attempts ran out while the source retries on
    | Finished(totals: Totals, prices: map<string, Decimal>, summary: Summary)

  /** The run. `encoded` is the text json_encode gives bpej_fetch.php's table. */
  method Run(rawKN: Option<string>, defaultKu: int, defaultParcels: ParcelSource, stdin: seq<string>,
             forceFresh: bool, file: CacheFile, overview: Response, encoded: string,
             cadastre: ParcelQuery -> CadastreReply, pages: string -> seq<Option<string>>)
    returns (sel: Selection, outcome: RunOutcome)
    ensures sel.Declined? <==> outcome == Stopped
    ensures Detected(rawKN).None? ==> sel == Selected(defaultKu, SourceItems(defaultParcels), 0)
    ensures Detected(rawKN).Some? ==>
      && sel.next == Prompt(stdin, 0).1
      && (sel.Declined? <==> !Prompt(stdin, 0).0)
      && (sel.Selected? ==> sel.ku == Detected(rawKN).value.0 && sel.parcels == Detected(rawKN).value.1)
    ensures sel.Selected? ==>
      var recs := Records(Replies(sel.ku, sel.parcels, cadastre));
      |recs| < |sel.parcels| <==> outcome == ParcelFailed(|recs|)
    ensures sel.Selected? && |Records(Replies(sel.ku, sel.parcels, cadastre))| == |sel.parcels| ==>
      var recs := Records(Replies(sel.ku, sel.parcels, cadastre));
      var codes := CodesOf(AllItems(recs));
      var useCache := UseLocalCache(Answer(stdin, sel.next));
      var cache := CacheStep(stdin, sel.next, file, forceFresh, RunAsWritten(overview, file, encoded)).cache;
      && PricingEnds(outcome, codes, useCache, cache, pages)
      && (outcome.Finished? ==>
            && Describes(outcome.totals, sel.parcels, recs)
            && Covers(outcome.totals.codes, outcome.totals.sums)
            && outcome.summary == SummaryOf(outcome.totals, outcome.prices))
  {
    sel := SelectParcels(rawKN, defaultKu, defaultParcels, stdin);
    if sel.Declined? {
      return sel, Stopped;
    }
    ghost var replies := Replies(sel.ku, sel.parcels, cadastre);
    ghost var recs := Records(replies);
    RecordsPrefix(replies);
    var useCache := UseLocalCache(Answer(stdin, sel.next));
    var step := CacheStep(stdin, sel.next, file, forceFresh, RunAsWritten(overview, file, encoded));
    var aggregate := AggregateParcels(sel.ku, sel.parcels, cadastre);
    if aggregate.Aborted? {
      return sel, ParcelFailed(aggregate.index);
    }
    assert |recs| == |sel.parcels|;
    var totals := aggregate.totals;
    TotalsCover(totals, sel.parcels, recs);
    assert totals.codes == CodesOf(AllItems(recs));
    outcome := PriceAndSummarize(totals, useCache, step.cache, pages);
  }

  /** How the price phase ends for these codes: the run finishes exactly when every
      code has a price, and otherwise names the first code without one; a finished
      run's prices are keyed by exactly the codes, each with its cached or fetched
      price. */
  ghost predicate PricingEnds(outcome: RunOutcome, codes: seq<string>, useCache: bool,
                              cache: map<string, Decimal>, pages: string -> seq<Option<string>>)
  {
    && (outcome.Finished? || outcome.Unpriced?)
    && (outcome.Finished? <==> forall k :: 0 <= k < |codes| ==> CodePrice(codes[k], useCache, cache, pages).Some?)
    && (outcome.Unpriced? ==>
          exists k :: 0 <= k < |codes| && outcome.code == codes[k] &&
            CodePrice(codes[k], useCache, cache, pages).None? &&
            forall j :: 0 <= j < k ==> CodePrice(codes[j], useCache, cache, pages).Some?)
    && (outcome.Finished? ==>
          && (forall c :: c in outcome.prices <==> c in codes)
          && (forall c :: c in outcome.prices ==> Some(outcome.prices[c]) == CodePrice(c, useCache, cache, pages)))
  }

  /** The price loop and the summaries after it (bonita_calculator.php:341-461). */
  method PriceAndSummarize(totals: Totals, useCache: bool, cache: map<string, Decimal>,
                           pages: string -> seq<Option<string>>) returns (outcome: RunOutcome)
    requires Covers(totals.codes, totals.sums)
    ensures PricingEnds(outcome, totals.codes, useCache, cache, pages)
    ensures outcome.Finished? ==> outcome.totals == totals && outcome.summary == SummaryOf(totals, outcome.prices)
  {
    var prices := ResolvePrices(totals.codes, useCache, cache, pages);
    if prices.StillRetrying? {
      return Unpriced(prices.code);
    }
    var summary := Summarize(totals, prices.prices);
    return Finished(totals, prices.prices, summary);
  }

  /** Every code the parcel loop lists has an entry in its sums. */
  lemma TotalsCover(t: Totals, names: seq<string>, recs: seq<ParcelRecord>)
    requires |names| == |recs| && Describes(t, names, recs)
    ensures Covers(t.codes, t.sums)
  {
    SumsMapMeaning(AllItems(recs));
  }
}
