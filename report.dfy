/** The summary the calculator prints once every code has a price
    (bonita_calculator.php:405-461): the weighted sum of area times price over the
    `$bpejSums` entries, the average price per square metre, the subtotal of the
    parcels without BPEJ data, the LV (ownership sheet) classification and the
    spreadsheet formula. */
module Report {
  import opened Options
  import opened Text
  import opened Numeric
  import opened Seqs
  import opened Aggregation

  /** `$bpejPrices[$code] ?? 0` */
  function PriceFor(prices: map<string, Decimal>, code: string): Decimal
  {
    if code in prices then prices[code] else Zero
  }

  /** Every listed code has its summed area: the keys of `$bpejSums` are its codes. */
  predicate Covers(codes: seq<string>, sums: map<string, nat>)
  {
    forall c :: c in codes ==> c in sums
  }

  /** The sum of area times rate over the codes. */
  function Weighted(codes: seq<string>, sums: map<string, nat>, rate: string -> real): real
    requires Covers(codes, sums)
  {
    if codes == [] then 0.0
    else
      var c := codes[|codes| - 1];
      Weighted(codes[..|codes| - 1], sums, rate) + sums[c] as real * rate(c)
  }

  /** The sum of area times price over the codes. */
  function WeightedSum(codes: seq<string>, sums: map<string, nat>, prices: map<string, Decimal>): real
    requires Covers(codes, sums)
  {
    Weighted(codes, sums, c => Value(PriceFor(prices, c)))
  }

  /** The summed area over the codes. */
  function SqmTotal(codes: seq<string>, sums: map<string, nat>): nat
    requires Covers(codes, sums)
  {
    if codes == [] then 0 else SqmTotal(codes[..|codes| - 1], sums) + sums[codes[|codes| - 1]]
  }

  /** The loop at bonita_calculator.php:408-416. */
  method ComputeWeightedSum(codes: seq<string>, sums: map<string, nat>, prices: map<string, Decimal>) returns (weighted: real)
    requires Covers(codes, sums)
    ensures weighted == WeightedSum(codes, sums, prices)
  {
    weighted := 0.0;
    for i := 0 to |codes|
      invariant weighted == WeightedSum(codes[..i], sums, prices)
    {
      assert codes[..i + 1][..i] == codes[..i];
      var price := PriceFor(prices, codes[i]);
      var partial := sums[codes[i]] as real * Value(price);
      weighted := weighted + partial;
    }
    assert codes[..|codes|] == codes;
  }

  /** With every rate between lo and hi, the weighted sum lies between lo and hi
      times the summed area. */
  lemma {:induction false} WeightedBounds(codes: seq<string>, sums: map<string, nat>, rate: string -> real, lo: real, hi: real)
    requires Covers(codes, sums)
    requires forall c :: c in codes ==> lo <= rate(c) <= hi
    ensures lo * SqmTotal(codes, sums) as real <= Weighted(codes, sums, rate) <= hi * SqmTotal(codes, sums) as real
  {
    if codes != [] {
      var init := codes[..|codes| - 1];
      assert forall x :: x in init ==> x in codes;
      WeightedBounds(init, sums, rate, lo, hi);
      WeightedStep(codes, sums, rate, lo, hi);
    }
  }

  /** The bounds carry over from all codes but the last to all codes. */
  lemma WeightedStep(codes: seq<string>, sums: map<string, nat>, rate: string -> real, lo: real, hi: real)
    requires codes != [] && Covers(codes, sums)
    requires forall c :: c in codes ==> lo <= rate(c) <= hi
    requires var init := codes[..|codes| - 1];
      lo * SqmTotal(init, sums) as real <= Weighted(init, sums, rate) <= hi * SqmTotal(init, sums) as real
    ensures lo * SqmTotal(codes, sums) as real <= Weighted(codes, sums, rate) <= hi * SqmTotal(codes, sums) as real
  {
    var init := codes[..|codes| - 1];
    var c := codes[|codes| - 1];
    var s := sums[c] as real;
    ScaleBetween(s, lo, rate(c), hi);
    var total, w := SqmTotal(init, sums), Weighted(init, sums, rate);
    AddBounds(total as real, w, s, rate(c), lo, hi, SqmTotal(codes, sums) as real, Weighted(codes, sums, rate));
  }

  lemma AddBounds(total: real, w: real, s: real, p: real, lo: real, hi: real, total': real, w': real)
    requires lo * total <= w <= hi * total && lo * s <= s * p <= hi * s
    requires total' == total + s && w' == w + s * p
    ensures lo * total' <= w' <= hi * total'
  {
  }

  lemma ScaleBetween(s: real, lo: real, p: real, hi: real)
    requires 0.0 <= s && lo <= p <= hi
    ensures lo * s <= s * p <= hi * s
  {
    assert (p - lo) * s >= 0.0;
    assert (hi - p) * s >= 0.0;
  }

  /** The average price: weighted sum over total area, 0 when there is no area
      (bonita_calculator.php:418-422; the rounding to two places is not modelled). */
  function Average(weighted: real, totalSqm: nat): real
  {
    if totalSqm > 0 then weighted / totalSqm as real else 0.0
  }

  /** When the BPEJ areas make up the whole area, the average is a mean of the prices:
      it lies between the lowest and the highest. */
  lemma AverageIsMean(codes: seq<string>, sums: map<string, nat>, prices: map<string, Decimal>, totalSqm: nat, lo: real, hi: real)
    requires Covers(codes, sums) && totalSqm > 0 && SqmTotal(codes, sums) == totalSqm
    requires forall c :: c in codes ==> lo <= Value(PriceFor(prices, c)) <= hi
    ensures lo <= Average(WeightedSum(codes, sums, prices), totalSqm) <= hi
  {
    MeanBounds(codes, sums, c => Value(PriceFor(prices, c)), totalSqm, lo, hi);
  }

  lemma MeanBounds(codes: seq<string>, sums: map<string, nat>, rate: string -> real, totalSqm: nat, lo: real, hi: real)
    requires Covers(codes, sums) && totalSqm > 0 && SqmTotal(codes, sums) == totalSqm
    requires forall c :: c in codes ==> lo <= rate(c) <= hi
    ensures lo <= Average(Weighted(codes, sums, rate), totalSqm) <= hi
  {
    WeightedBounds(codes, sums, rate, lo, hi);
    DivBounds(Weighted(codes, sums, rate), totalSqm as real, lo, hi);
  }

  lemma DivBounds(w: real, t: real, lo: real, hi: real)
    requires t > 0.0 && lo * t <= w <= hi * t
    ensures lo <= w / t <= hi
  {
    var q := w / t;
    assert q * t == w;
    assert (q - lo) * t >= 0.0;
    assert (hi - q) * t >= 0.0;
  }

  /** The areas in `$bpejSums` add up to the area of all BPEJ items. */
  lemma {:induction false} SqmTotalOfItems(items: seq<BpejItem>)
    ensures Covers(CodesOf(items), SumsMap(items))
    ensures SqmTotal(CodesOf(items), SumsMap(items)) == ItemsArea(items)
  {
    SumsMapMeaning(items);
    SqmTotalIsSum(CodesOf(items), items);
    AreaConserved(items);
  }

  lemma {:induction false} SqmTotalIsSum(codes: seq<string>, items: seq<BpejItem>)
    requires forall c :: c in codes ==> c in SumsMap(items) && SumsMap(items)[c] == CodeSum(items, c)
    ensures Covers(codes, SumsMap(items)) && SqmTotal(codes, SumsMap(items)) == SumOverCodes(codes, items)
  {
    if codes != [] {
      var init := codes[..|codes| - 1];
      assert forall c :: c in init ==> c in codes;
      SqmTotalIsSum(init, items);
      assert codes[|codes| - 1] in codes;
    }
  }

  /** The "Parcels without BPEJ" subtotal (bonita_calculator.php:426-437): printed
      only when there is such a parcel. */
  method NoBpejSubtotal(ps: seq<NoBpejParcel>) returns (total: Option<nat>)
    ensures total == if ps == [] then None else Some(NoBpejArea(ps))
  {
    if ps == [] {
      return None;
    }
    var sum := 0;
    for i := 0 to |ps|
      invariant sum == NoBpejArea(ps[..i])
    {
      assert ps[..i + 1][..i] == ps[..i];
      sum := sum + ps[i].vymera;
    }
    assert ps[..|ps|] == ps;
    return Some(sum);
  }

  /** What the calculator says about LV numbers. */
  datatype LvReport = NoLv | SameLv(lv: int) | MultipleLvs(lvs: seq<int>)

  /** array_unique($lvs) counted (bonita_calculator.php:439-448). */
  function ClassifyLvs(lvs: seq<int>): LvReport
  {
    var unique := Dedup(lvs);
    if |unique| == 1 then SameLv(unique[0])
    else if |unique| > 1 then MultipleLvs(unique)
    else NoLv
  }

  /** No LV is reported exactly when none was seen. */
  lemma LvNone(lvs: seq<int>)
    ensures ClassifyLvs(lvs) == NoLv <==> lvs == []
  {
    DedupMembers(lvs);
    if lvs != [] {
      assert lvs[0] in Dedup(lvs);
    }
  }

  /** One LV is reported exactly when every parcel with an LV has that LV. */
  lemma LvSame(lvs: seq<int>, v: int)
    ensures ClassifyLvs(lvs) == SameLv(v) <==> lvs != [] && forall k :: 0 <= k < |lvs| ==> lvs[k] == v
  {
    DedupMembers(lvs);
    var u := Dedup(lvs);
    if lvs != [] && forall k :: 0 <= k < |lvs| ==> lvs[k] == v {
      DedupConstant(lvs, v);
    }
    if ClassifyLvs(lvs) == SameLv(v) {
      assert |u| == 1 && u[0] == v;
      forall k | 0 <= k < |lvs| ensures lvs[k] == v {
        assert lvs[k] in u;
      }
    }
  }

  /** Several LVs are reported, without repetition and in the order they were first
      seen, exactly when two parcels differ. */
  lemma LvMultiple(lvs: seq<int>)
    ensures ClassifyLvs(lvs).MultipleLvs? <==> exists i, j :: 0 <= i < j < |lvs| && lvs[i] != lvs[j]
    ensures ClassifyLvs(lvs).MultipleLvs? ==>
      var u := ClassifyLvs(lvs).lvs;
      && (forall x :: x in u <==> x in lvs)
      && (forall i, j :: 0 <= i < j < |u| ==> u[i] != u[j])
  {
    DedupMembers(lvs);
    var u := Dedup(lvs);
    if exists i, j :: 0 <= i < j < |lvs| && lvs[i] != lvs[j] {
      var i, j :| 0 <= i < j < |lvs| && lvs[i] != lvs[j];
      TwoMembers(u, lvs[i], lvs[j]);
    }
    if |u| > 1 {
      assert u[0] in lvs && u[1] in lvs;
      var i := FirstIndex(lvs, u[0]);
      var j := FirstIndex(lvs, u[1]);
      if i < j {
        assert lvs[i] != lvs[j];
      } else {
        assert j != i && lvs[j] != lvs[i];
      }
    }
  }

  /** Repeating one value leaves that value once. */
  lemma {:induction false} DedupConstant(xs: seq<int>, v: int)
    requires xs != [] && forall k :: 0 <= k < |xs| ==> xs[k] == v
    ensures Dedup(xs) == [v]
  {
    var init := xs[..|xs| - 1];
    if init != [] {
      DedupConstant(init, v);
    }
  }

  /** A sequence holding two different values has at least two elements. */
  lemma TwoMembers(u: seq<int>, a: int, b: int)
    requires a in u && b in u && a != b
    ensures |u| >= 2
  {
    var i :| 0 <= i < |u| && u[i] == a;
    var j :| 0 <= j < |u| && u[j] == b;
    assert i != j;
  }

  /** PHP's text of a price, for values whose shortest decimal form is their exact
      decimal: trailing zeros after the point are dropped, and the point with them. */
  function DecimalText(d: Decimal): (s: string)
    ensures forall k :: 0 <= k < |s| ==> IsDigit(s[k]) || s[k] == '.' || s[k] == '-'
  {
    if d.mantissa < 0 then "-" + UnsignedText(-d.mantissa, d.scale) else UnsignedText(d.mantissa, d.scale)
  }

  function UnsignedText(m: nat, scale: nat): (s: string)
    ensures forall k :: 0 <= k < |s| ==> IsDigit(s[k]) || s[k] == '.'
  {
    if scale > 0 && m % 10 == 0 then UnsignedText(m / 10, scale - 1)
    else if scale == 0 then NatText(m)
    else
      var p := Pow10(scale);
      QuotientNat(m, p);
      var whole := NatText(m / p);
      var frac := ZeroPad(NatText(m % p), scale);
      PointJoin(whole, frac);
      whole + "." + frac
  }

  lemma QuotientNat(m: nat, p: nat)
    requires p > 0
    ensures m / p >= 0
  {
  }

  lemma PointJoin(whole: string, frac: string)
    requires AllDigits(whole) && AllDigits(frac)
    ensures var s := whole + "." + frac;
      forall k :: 0 <= k < |s| ==> IsDigit(s[k]) || s[k] == '.'
  {
    var s := whole + "." + frac;
    forall k | 0 <= k < |s| ensures IsDigit(s[k]) || s[k] == '.' {
      if k < |whole| { assert s[k] == whole[k]; }
      else if k > |whole| { assert s[k] == frac[k - |whole| - 1]; }
    }
  }

  /** Left-pads digits with zeros to the given width. */
  function ZeroPad(digits: string, width: nat): (s: string)
    requires AllDigits(digits)
    ensures AllDigits(s) && |s| == if |digits| < width then width else |digits|
    decreases width - |digits|
  {
    if |digits| >= width then digits else ZeroPad("0" + digits, width)
  }

  /** One term of the formula: "(sqm*price)". */
  function Term(sqm: nat, price: Decimal): (s: string)
    ensures '+' !in s
  {
    var t := "(" + NatText(sqm) + "*" + DecimalText(price) + ")";
    assert forall k :: 0 <= k < |t| ==> t[k] != '+';
    t
  }

  /** `$excelParts`: one term per code, in the order of `$bpejSums`. */
  function Terms(codes: seq<string>, sums: map<string, nat>, prices: map<string, Decimal>): (ts: seq<string>)
    requires Covers(codes, sums)
    ensures |ts| == |codes|
  {
    if codes == [] then []
    else
      var c := codes[|codes| - 1];
      Terms(codes[..|codes| - 1], sums, prices) + [Term(sums[c], PriceFor(prices, c))]
  }

  /** The message when there is nothing to divide. */
  const NoData := "(No BPEJ data)"

  /** The formula of bonita_calculator.php:450-461. */
  function Formula(codes: seq<string>, sums: map<string, nat>, prices: map<string, Decimal>, totalSqm: nat): string
    requires Covers(codes, sums)
  {
    var terms := Terms(codes, sums, prices);
    if totalSqm > 0 && terms != [] then "=(" + Join(terms, "+") + ")/" + NatText(totalSqm) else NoData
  }

  /** The formula divides the sum of one term per code, which can be read back by
      splitting at '+', by the total area; without area or without codes it is the
      no-data message. */
  lemma FormulaReadsBack(codes: seq<string>, sums: map<string, nat>, prices: map<string, Decimal>, totalSqm: nat)
    requires Covers(codes, sums)
    ensures totalSqm == 0 || codes == [] <==> Formula(codes, sums, prices, totalSqm) == NoData
    ensures totalSqm > 0 && codes != [] ==>
      exists sum :: Formula(codes, sums, prices, totalSqm) == "=(" + sum + ")/" + NatText(totalSqm)
        && Explode(sum, '+') == Terms(codes, sums, prices)
    ensures forall k :: 0 <= k < |codes| ==>
      Terms(codes, sums, prices)[k] == Term(sums[codes[k]], PriceFor(prices, codes[k]))
  {
    var terms := Terms(codes, sums, prices);
    TermsPointwise(codes, sums, prices);
    if totalSqm > 0 && codes != [] {
      forall p | p in terms ensures '+' !in p { }
      ExplodeJoin(terms, '+');
      var sum := Join(terms, "+");
      var f := "=(" + sum + ")/" + NatText(totalSqm);
      assert Formula(codes, sums, prices, totalSqm) == f;
      assert f[0] == '=' && NoData[0] == '(';
    }
  }

  lemma {:induction false} TermsPointwise(codes: seq<string>, sums: map<string, nat>, prices: map<string, Decimal>)
    requires Covers(codes, sums)
    ensures forall k :: 0 <= k < |codes| ==>
      Terms(codes, sums, prices)[k] == Term(sums[codes[k]], PriceFor(prices, codes[k]))
  {
    if codes != [] {
      var init := codes[..|codes| - 1];
      CoversInit(codes, sums);
      TermsPointwise(init, sums, prices);
      TermsLast(codes, sums, prices);
    }
  }

  lemma CoversInit(codes: seq<string>, sums: map<string, nat>)
    requires codes != [] && Covers(codes, sums)
    ensures Covers(codes[..|codes| - 1], sums)
  {
    assert forall c :: c in codes[..|codes| - 1] ==> c in codes;
  }

  /** Terms of all codes: those of all but the last, then the last code's term. */
  lemma TermsLast(codes: seq<string>, sums: map<string, nat>, prices: map<string, Decimal>)
    requires codes != [] && Covers(codes, sums)
    requires var init := codes[..|codes| - 1];
      Covers(init, sums) &&
      forall k :: 0 <= k < |init| ==> Terms(init, sums, prices)[k] == Term(sums[init[k]], PriceFor(prices, init[k]))
    ensures forall k :: 0 <= k < |codes| ==>
      Terms(codes, sums, prices)[k] == Term(sums[codes[k]], PriceFor(prices, codes[k]))
  {
    var init := codes[..|codes| - 1];
    assert forall k :: 0 <= k < |init| ==> codes[k] == init[k];
  }

  /** One more code adds its term at the end. */
  lemma TermsStep(codes: seq<string>, i: nat, sums: map<string, nat>, prices: map<string, Decimal>)
    requires Covers(codes, sums) && i < |codes|
    ensures Covers(codes[..i + 1], sums) && codes[i] in sums
    ensures Terms(codes[..i + 1], sums, prices) == Terms(codes[..i], sums, prices) + [Term(sums[codes[i]], PriceFor(prices, codes[i]))]
  {
    assert codes[..i + 1][..i] == codes[..i];
    assert codes[i] in codes;
  }

  /** The loop at bonita_calculator.php:450-461. */
  method BuildFormula(codes: seq<string>, sums: map<string, nat>, prices: map<string, Decimal>, totalSqm: nat) returns (formula: string)
    requires Covers(codes, sums)
    ensures formula == Formula(codes, sums, prices, totalSqm)
  {
    var parts: seq<string> := [];
    for i := 0 to |codes|
      invariant Covers(codes[..i], sums) && parts == Terms(codes[..i], sums, prices)
    {
      TermsStep(codes, i, sums, prices);
      var price := PriceFor(prices, codes[i]);
      parts := parts + [Term(sums[codes[i]], price)];
    }
    assert codes[..|codes|] == codes;
    if totalSqm > 0 && parts != [] {
      formula := "=(" + Join(parts, "+") + ")/" + NatText(totalSqm);
    } else {
      formula := NoData;
    }
  }

  /** The printed summary. */
  datatype Summary = Summary(totalSqm: nat, weightedSum: real, average: real,
                             noBpejTotal: Option<nat>, lv: LvReport, formula: string)

  /** The summary of these totals and prices. */
  function SummaryOf(t: Totals, prices: map<string, Decimal>): Summary
    requires Covers(t.codes, t.sums)
  {
    var w := WeightedSum(t.codes, t.sums, prices);
    Summary(t.totalSqm, w, Average(w, t.totalSqm),
            if t.withoutBpej == [] then None else Some(NoBpejArea(t.withoutBpej)),
            ClassifyLvs(t.lvs), Formula(t.codes, t.sums, prices, t.totalSqm))
  }

  /** Part 3 of the calculator: the summaries in the order it prints them. */
  method Summarize(t: Totals, prices: map<string, Decimal>) returns (s: Summary)
    requires Covers(t.codes, t.sums)
    ensures s == SummaryOf(t, prices)
  {
    var weighted := ComputeWeightedSum(t.codes, t.sums, prices);
    var average := 0.0;
    if t.totalSqm > 0 {
      average := weighted / t.totalSqm as real;
    }
    var noBpej := NoBpejSubtotal(t.withoutBpej);
    var lv := ClassifyLvs(t.lvs);
    var formula := BuildFormula(t.codes, t.sums, prices, t.totalSqm);
    s := Summary(t.totalSqm, weighted, average, noBpej, lv, formula);
  }
}
