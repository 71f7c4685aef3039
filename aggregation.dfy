/** The parcel loop (bonita_calculator.php:266-339): one cadastre query per parcel, and
    the running totals it keeps: the total area, the area per soil-valuation (BPEJ) code
    in the order the codes are first seen, the title-deed (LV) numbers, and the parcels
    that carry no BPEJ data. The first failed query ends the run with exit status 1. */
module Aggregation {
  import opened Options
  import opened Text
  import opened Seqs
  import opened Input

  /** One entry of a parcel's `bpej` list: a code and the area it covers. */
  datatype BpejItem = BpejItem(kod: string, vymera: Option<nat>)

  /** data[0] of the cadastre's answer: area, LV number, land type and BPEJ list, each
      possibly absent. */
  datatype ParcelRecord = ParcelRecord(vymera: Option<nat>, lvCislo: Option<int>,
                                       druhPozemku: Option<string>, bpej: Option<seq<BpejItem>>)

  /** What the cadastre query gives: no usable response (a transport failure, or an
      empty or "0" body), a response without a non-empty `data` array, or a record. */
  datatype CadastreReply = Unreachable | NoData | Found(record: ParcelRecord)

  /** An entry of `$parcelsWithoutBpej`. */
  datatype NoBpejParcel = NoBpejParcel(parcelName: string, vymera: nat, druhPozemku: string)

  const UnknownType := "Unknown type"

  /** str_pad($kod, 5, '0', STR_PAD_LEFT): zeros in front up to width 5; longer codes
      are kept as they are. */
  function Pad5(kod: string): (code: string)
    ensures |code| == if |kod| < 5 then 5 else |kod|
    decreases 5 - |kod|
  {
    if |kod| >= 5 then kod else Pad5(['0'] + kod)
  }

  /** Padding only puts zeros in front of the code. */
  lemma {:induction false} Pad5Shape(kod: string)
    ensures Pad5(kod)[|Pad5(kod)| - |kod|..] == kod
    ensures forall i :: 0 <= i < |Pad5(kod)| - |kod| ==> Pad5(kod)[i] == '0'
    decreases 5 - |kod|
  {
    if |kod| < 5 {
      var z := ['0'] + kod;
      Pad5Shape(z);
      assert Pad5(kod) == Pad5(z);
      var n := |Pad5(z)| - |z|;
      assert Pad5(z)[n..] == z;
      assert Pad5(kod)[n + 1..] == z[1..];
    }
  }

  /** A numeric code keeps its value when padded, and padding twice is padding once. */
  lemma {:induction false} Pad5Value(kod: string)
    requires AllDigits(kod)
    ensures AllDigits(Pad5(kod)) && DigitsValue(Pad5(kod)) == DigitsValue(kod)
    ensures Pad5(Pad5(kod)) == Pad5(kod)
    decreases 5 - |kod|
  {
    if |kod| < 5 {
      LeadingZero(kod);
      Pad5Value(['0'] + kod);
    }
  }

  /** A leading zero does not change the value of a digit string. */
  lemma {:induction false} LeadingZero(s: string)
    requires AllDigits(s)
    ensures AllDigits(['0'] + s) && DigitsValue(['0'] + s) == DigitsValue(s)
  {
    if s != [] {
      var init := s[..|s| - 1];
      LeadingZero(init);
      assert (['0'] + s)[..|s|] == ['0'] + init;
    }
  }

  /** `$x ?? 0` for an area. */
  function ParcelArea(r: ParcelRecord): nat { r.vymera.GetOr(0) }

  function ItemArea(it: BpejItem): nat { it.vymera.GetOr(0) }

  /** The code an item is summed under. */
  function ItemCode(it: BpejItem): string { Pad5(it.kod) }

  /** !empty($parcelData->bpej): the list is present and not empty. */
  predicate HasBpej(r: ParcelRecord) { r.bpej.Some? && r.bpej.value != [] }

  /** The BPEJ items a record contributes. */
  function ItemsOf(r: ParcelRecord): seq<BpejItem>
  {
    if HasBpej(r) then r.bpej.value else []
  }

  // ---------------------------------------------------------------------------
  // Reference definitions over all records of a run

  /** The sum of the parcels' areas, an absent area counting as 0. */
  function TotalArea(recs: seq<ParcelRecord>): nat
  {
    if recs == [] then 0 else TotalArea(recs[..|recs| - 1]) + ParcelArea(recs[|recs| - 1])
  }

  /** Every BPEJ item of every parcel, in parcel order. */
  function AllItems(recs: seq<ParcelRecord>): seq<BpejItem>
  {
    if recs == [] then [] else AllItems(recs[..|recs| - 1]) + ItemsOf(recs[|recs| - 1])
  }

  /** The total area of the items whose padded code is c. */
  function CodeSum(items: seq<BpejItem>, c: string): nat
  {
    if items == [] then 0
    else
      var last := items[|items| - 1];
      CodeSum(items[..|items| - 1], c) + (if ItemCode(last) == c then ItemArea(last) else 0)
  }

  /** The distinct padded codes, in the order they are first seen. */
  function CodesOf(items: seq<BpejItem>): seq<string>
  {
    Dedup(Map(items, ItemCode))
  }

  /** The LV numbers that are present, in parcel order. */
  function LvsOf(recs: seq<ParcelRecord>): seq<int>
  {
    if recs == [] then []
    else
      var last := recs[|recs| - 1];
      LvsOf(recs[..|recs| - 1]) + (if last.lvCislo.Some? then [last.lvCislo.value] else [])
  }

  function NoBpejEntry(name: string, r: ParcelRecord): NoBpejParcel
  {
    NoBpejParcel(name, ParcelArea(r), r.druhPozemku.GetOr(UnknownType))
  }

  /** The parcels without BPEJ data, with name, area and land type. */
  function WithoutBpej(names: seq<string>, recs: seq<ParcelRecord>): seq<NoBpejParcel>
    requires |names| == |recs|
  {
    if recs == [] then []
    else
      var k := |recs| - 1;
      WithoutBpej(names[..k], recs[..k]) + (if HasBpej(recs[k]) then [] else [NoBpejEntry(names[k], recs[k])])
  }

  // ---------------------------------------------------------------------------
  // The loop's state and what it stands for

  /** `$totalSqm`, `$bpejSums` (its keys in insertion order, and the sums), `$lvs` and
      `$parcelsWithoutBpej`. */
  datatype Totals = Totals(totalSqm: nat, codes: seq<string>, sums: map<string, nat>,
                           lvs: seq<int>, withoutBpej: seq<NoBpejParcel>)

  /** The totals of the named parcels with these records. */
  ghost predicate Describes(t: Totals, names: seq<string>, recs: seq<ParcelRecord>)
    requires |names| == |recs|
  {
    && t.totalSqm == TotalArea(recs)
    && SumsOf(t.codes, t.sums, AllItems(recs))
    && t.lvs == LvsOf(recs)
    && t.withoutBpej == WithoutBpej(names, recs)
  }

  /** `$bpejSums` after these items: its keys in insertion order and its entries. */
  ghost predicate SumsOf(codes: seq<string>, sums: map<string, nat>, items: seq<BpejItem>)
  {
    codes == CodesOf(items) && sums == SumsMap(items)
  }

  /** The map the items build when each one's area is added under its padded code, an
      unseen code starting from 0. */
  function SumsMap(items: seq<BpejItem>): map<string, nat>
  {
    if items == [] then map[]
    else
      var m := SumsMap(items[..|items| - 1]);
      var x := items[|items| - 1];
      m[ItemCode(x) := (if ItemCode(x) in m then m[ItemCode(x)] else 0) + ItemArea(x)]
  }

  /** The map's keys are exactly the codes seen, and each code's entry is the total area
      of the items with that code. */
  lemma {:induction false} SumsMapMeaning(items: seq<BpejItem>)
    ensures forall c :: c in SumsMap(items) <==> c in CodesOf(items)
    ensures forall c :: c in SumsMap(items) ==> SumsMap(items)[c] == CodeSum(items, c)
  {
    if items != [] {
      var init := items[..|items| - 1];
      var x := items[|items| - 1];
      assert items == init + [x];
      SumsMapMeaning(init);
      CodesOfAppend(init, x);
      CodeSumAppend(init, x);
      var m := SumsMap(init);
      assert SumsMap(items) == m[ItemCode(x) := (if ItemCode(x) in m then m[ItemCode(x)] else 0) + ItemArea(x)];
      forall c | c in SumsMap(items)
        ensures SumsMap(items)[c] == CodeSum(items, c)
      {
        if c != ItemCode(x) {
          assert SumsMap(items)[c] == m[c];
        } else if ItemCode(x) !in m {
          CodeSumAbsent(init, c);
        }
      }
    }
  }

  /** The records of the leading replies that found one: the parcels the loop gets
      through before the first failure. */
  function Records(replies: seq<CadastreReply>): seq<ParcelRecord>
  {
    if replies == [] || !replies[0].Found? then [] else [replies[0].record] + Records(replies[1..])
  }

  lemma {:induction false} RecordsPrefix(replies: seq<CadastreReply>)
    ensures |Records(replies)| <= |replies|
    ensures forall k :: 0 <= k < |Records(replies)| ==> replies[k] == Found(Records(replies)[k])
    ensures |Records(replies)| == |replies| || !replies[|Records(replies)|].Found?
  {
    if replies != [] && replies[0].Found? {
      RecordsPrefix(replies[1..]);
    }
  }

  /** A found reply right after the leading ones is not possible: Records takes it. */
  lemma RecordsContinue(replies: seq<CadastreReply>, i: nat)
    requires i <= |Records(replies)| && i < |replies| && replies[i].Found?
    ensures i < |Records(replies)| && replies[i] == Found(Records(replies)[i])
  {
    RecordsPrefix(replies);
  }

  /** The reply the cadastre gives to each parcel's query, in parcel order. */
  function Replies(ku: int, parcels: seq<string>, cadastre: ParcelQuery -> CadastreReply): seq<CadastreReply>
  {
    Map(parcels, p => cadastre(QueryFor(ku, p)))
  }

  /** How the parcel loop ends: with the totals, or with exit(1) at the parcel with this
      index. */
  datatype Aggregate = Aggregated(totals: Totals) | Aborted(index: nat)

  /** The parcel loop (bonita_calculator.php:266-339). */
  method AggregateParcels(ku: int, parcels: seq<string>, cadastre: ParcelQuery -> CadastreReply)
    returns (result: Aggregate)
    ensures var recs := Records(Replies(ku, parcels, cadastre));
      && (|recs| < |parcels| ==> result == Aborted(|recs|))
      && (|recs| == |parcels| ==> result.Aggregated? && Describes(result.totals, parcels, recs))
  {
    ghost var replies := Replies(ku, parcels, cadastre);
    ghost var recs := Records(replies);
    RecordsPrefix(replies);
    var totals := Totals(0, [], map[], [], []);
    var i := 0;
    while i < |parcels|
      invariant i <= |parcels| && i <= |recs|
      invariant Describes(totals, parcels[..i], recs[..i])
    {
      var parcel := parcels[i];
      var reply := cadastre(QueryFor(ku, parcel));
      assert reply == replies[i];
      if !reply.Found? {
        return Aborted(i);
      }
      RecordsContinue(replies, i);
      ghost var before := totals;
      totals := AddParcel(totals, AllItems(recs[..i]), parcel, reply.record);
      Extend(parcels, recs, i, before, totals);
      i := i + 1;
    }
    assert parcels[..i] == parcels && recs[..i] == recs;
    return Aggregated(totals);
  }

  /** The body of the parcel loop for a parcel whose query found a record
      (bonita_calculator.php:313-338). */
  method AddParcel(t: Totals, ghost seen: seq<BpejItem>, parcel: string, r: ParcelRecord) returns (t': Totals)
    requires SumsOf(t.codes, t.sums, seen)
    ensures t'.totalSqm == t.totalSqm + ParcelArea(r)
    ensures SumsOf(t'.codes, t'.sums, if HasBpej(r) then seen + r.bpej.value else seen)
    ensures t'.lvs == t.lvs + (if r.lvCislo.Some? then [r.lvCislo.value] else [])
    ensures t'.withoutBpej == t.withoutBpej + (if HasBpej(r) then [] else [NoBpejEntry(parcel, r)])
  {
    var vymera := ParcelArea(r);
    var totalSqm := t.totalSqm + vymera;
    var lvs := t.lvs;
    if r.lvCislo.Some? {
      lvs := lvs + [r.lvCislo.value];
    }
    var codes, sums, withoutBpej := t.codes, t.sums, t.withoutBpej;
    if HasBpej(r) {
      codes, sums := AddItems(codes, sums, seen, r.bpej.value);
    } else {
      withoutBpej := withoutBpej + [NoBpejParcel(parcel, vymera, r.druhPozemku.GetOr(UnknownType))];
    }
    t' := Totals(totalSqm, codes, sums, lvs, withoutBpej);
  }

  /** The inner loop over one parcel's BPEJ items (bonita_calculator.php:323-330):
      each item's area is added under its padded code, a code not yet in the map
      starting from 0 at the end of the key order. */
  method AddItems(codes0: seq<string>, sums0: map<string, nat>, ghost seen: seq<BpejItem>, items: seq<BpejItem>)
    returns (codes: seq<string>, sums: map<string, nat>)
    requires SumsOf(codes0, sums0, seen)
    ensures SumsOf(codes, sums, seen + items)
  {
    codes, sums := codes0, sums0;
    ghost var done := seen;
    var j := 0;
    while j < |items|
      invariant j <= |items| && done == seen + items[..j]
      invariant SumsOf(codes, sums, done)
    {
      var code := ItemCode(items[j]);
      var area := ItemArea(items[j]);
      ghost var (codes1, sums1) := (codes, sums);
      var sum := 0;
      if code in sums {
        sum := sums[code];
      } else {
        codes := codes + [code];
      }
      sums := sums[code := sum + area];
      AddItemStep(codes1, sums1, done, items[j], codes, sums);
      AppendTake(seen, items, j);
      done := done + [items[j]];
      j := j + 1;
    }
    AppendAll(seen, items);
  }

  /** One item added to `$bpejSums`: a new code is appended to the keys, and the item's
      area is added to its code's entry. */
  lemma AddItemStep(codes: seq<string>, sums: map<string, nat>, done: seq<BpejItem>, x: BpejItem,
                    codes': seq<string>, sums': map<string, nat>)
    requires SumsOf(codes, sums, done)
    requires codes' == if ItemCode(x) in sums then codes else codes + [ItemCode(x)]
    requires sums' == sums[ItemCode(x) := (if ItemCode(x) in sums then sums[ItemCode(x)] else 0) + ItemArea(x)]
    ensures SumsOf(codes', sums', done + [x])
  {
    var items := done + [x];
    assert items[..|items| - 1] == done && items[|items| - 1] == x;
    assert SumsMap(items) == sums';
    SumsMapKey(done, ItemCode(x));
    CodesOfAppend(done, x);
  }

  /** A code is a key of the map exactly when some item has it. */
  lemma {:induction false} SumsMapKey(items: seq<BpejItem>, c: string)
    ensures c in SumsMap(items) <==> c in CodesOf(items)
  {
    if items != [] {
      var init := items[..|items| - 1];
      assert items == init + [items[|items| - 1]];
      SumsMapKey(init, c);
      CodesOfAppend(init, items[|items| - 1]);
    }
  }

  /** The totals of one more parcel: its area added, its items summed, its LV number
      appended when present, and the parcel listed when it has no BPEJ data. */
  lemma Extend(names: seq<string>, recs: seq<ParcelRecord>, i: nat, t: Totals, t': Totals)
    requires i < |recs| && i < |names|
    requires Describes(t, names[..i], recs[..i])
    requires t'.totalSqm == t.totalSqm + ParcelArea(recs[i])
    requires SumsOf(t'.codes, t'.sums,
                    if HasBpej(recs[i]) then AllItems(recs[..i]) + recs[i].bpej.value else AllItems(recs[..i]))
    requires t'.lvs == t.lvs + (if recs[i].lvCislo.Some? then [recs[i].lvCislo.value] else [])
    requires t'.withoutBpej == t.withoutBpej + (if HasBpej(recs[i]) then [] else [NoBpejEntry(names[i], recs[i])])
    ensures Describes(t', names[..i + 1], recs[..i + 1])
  {
    assert recs[..i + 1][..i] == recs[..i];
    assert names[..i + 1][..i] == names[..i];
    assert AllItems(recs[..i]) + [] == AllItems(recs[..i]);
  }

  lemma CodesOfAppend(items: seq<BpejItem>, x: BpejItem)
    ensures CodesOf(items + [x]) ==
      if ItemCode(x) in CodesOf(items) then CodesOf(items) else CodesOf(items) + [ItemCode(x)]
  {
    MapAppend(items, x, ItemCode);
    DedupAppend(Map(items, ItemCode), ItemCode(x));
  }

  lemma CodeSumAppend(items: seq<BpejItem>, x: BpejItem)
    ensures forall c :: CodeSum(items + [x], c) == CodeSum(items, c) + (if ItemCode(x) == c then ItemArea(x) else 0)
  {
    assert (items + [x])[..|items|] == items;
  }

  /** A code that no item has sums to 0. */
  lemma {:induction false} CodeSumAbsent(items: seq<BpejItem>, c: string)
    requires c !in CodesOf(items)
    ensures CodeSum(items, c) == 0
  {
    if items != [] {
      var init := items[..|items| - 1];
      assert items == init + [items[|items| - 1]];
      CodesOfAppend(init, items[|items| - 1]);
      CodeSumAbsent(init, c);
    }
  }

  // ---------------------------------------------------------------------------
  // What the totals add up to

  /** The total area of some items. */
  function ItemsArea(items: seq<BpejItem>): nat
  {
    if items == [] then 0 else ItemsArea(items[..|items| - 1]) + ItemArea(items[|items| - 1])
  }

  /** The sums of the listed codes, added up. */
  function SumOverCodes(codes: seq<string>, items: seq<BpejItem>): nat
  {
    if codes == [] then 0 else SumOverCodes(codes[..|codes| - 1], items) + CodeSum(items, codes[|codes| - 1])
  }

  predicate Distinct(codes: seq<string>)
  {
    forall i, j :: 0 <= i < j < |codes| ==> codes[i] != codes[j]
  }

  /** The total area of two runs of parcels is the sum of their totals, so the order
      in which the parcels are queried does not change it. */
  lemma {:induction false} TotalAreaConcat(a: seq<ParcelRecord>, b: seq<ParcelRecord>)
    ensures TotalArea(a + b) == TotalArea(a) + TotalArea(b)
    ensures TotalArea(a + b) == TotalArea(b + a)
  {
    TotalAreaAppend(a, b);
    TotalAreaAppend(b, a);
  }

  lemma {:induction false} TotalAreaAppend(a: seq<ParcelRecord>, b: seq<ParcelRecord>)
    ensures TotalArea(a + b) == TotalArea(a) + TotalArea(b)
    decreases |b|
  {
    if b == [] {
      assert a + b == a;
    } else {
      var init := b[..|b| - 1];
      assert (a + b)[..|a + b| - 1] == a + init;
      TotalAreaAppend(a, init);
    }
  }

  /** The sum of a code over two runs of items is the sum over each run: the order of
      the parcels does not change any code's sum. */
  lemma {:induction false} CodeSumConcat(a: seq<BpejItem>, b: seq<BpejItem>, c: string)
    ensures CodeSum(a + b, c) == CodeSum(a, c) + CodeSum(b, c)
    ensures CodeSum(a + b, c) == CodeSum(b + a, c)
    decreases |b|
  {
    if b != [] {
      var init := b[..|b| - 1];
      var x := b[|b| - 1];
      assert a + b == (a + init) + [x];
      CodeSumAppend(a + init, x);
      CodeSumConcat(a, init, c);
      assert b[..|b| - 1] == init;
    } else {
      assert a + b == a && b + a == a;
    }
    CodeSumComm(a, b, c);
  }

  lemma {:induction false} CodeSumComm(a: seq<BpejItem>, b: seq<BpejItem>, c: string)
    ensures CodeSum(b + a, c) == CodeSum(b, c) + CodeSum(a, c)
    decreases |a|
  {
    if a != [] {
      var init := a[..|a| - 1];
      var x := a[|a| - 1];
      assert b + a == (b + init) + [x];
      CodeSumAppend(b + init, x);
      CodeSumComm(init, b, c);
    } else {
      assert b + a == b;
    }
  }

  /** One more item adds its area to the sum of the codes exactly when its code is one
      of them. */
  lemma {:induction false} SumOverCodesAppend(codes: seq<string>, items: seq<BpejItem>, x: BpejItem)
    requires Distinct(codes)
    ensures SumOverCodes(codes, items + [x]) ==
      SumOverCodes(codes, items) + (if ItemCode(x) in codes then ItemArea(x) else 0)
  {
    CodeSumAppend(items, x);
    if codes != [] {
      var init := codes[..|codes| - 1];
      assert codes == init + [codes[|codes| - 1]];
      SumOverCodesAppend(init, items, x);
    }
  }

  /** Nothing is lost or counted twice: the per-code sums add up to the area of all the
      items. */
  lemma {:induction false} AreaConserved(items: seq<BpejItem>)
    ensures SumOverCodes(CodesOf(items), items) == ItemsArea(items)
  {
    if items != [] {
      var init := items[..|items| - 1];
      var x := items[|items| - 1];
      assert items == init + [x];
      var codes := CodesOf(init);
      AreaConserved(init);
      DedupMembers(Map(init, ItemCode));
      CodesOfAppend(init, x);
      SumOverCodesAppend(codes, init, x);
      if ItemCode(x) !in codes {
        CodeSumAbsent(init, ItemCode(x));
        CodeSumAppend(init, x);
        assert (codes + [ItemCode(x)])[..|codes|] == codes;
      }
    }
  }

  /** The area of the parcels that have BPEJ data. */
  function BpejParcelArea(recs: seq<ParcelRecord>): nat
  {
    if recs == [] then 0
    else
      var last := recs[|recs| - 1];
      BpejParcelArea(recs[..|recs| - 1]) + (if HasBpej(last) then ParcelArea(last) else 0)
  }

  /** The area of the listed parcels without BPEJ data. */
  function NoBpejArea(ps: seq<NoBpejParcel>): nat
  {
    if ps == [] then 0 else NoBpejArea(ps[..|ps| - 1]) + ps[|ps| - 1].vymera
  }

  /** The total area splits into the parcels with BPEJ data and the listed ones
      without. */
  lemma {:induction false} AreaPartition(names: seq<string>, recs: seq<ParcelRecord>)
    requires |names| == |recs|
    ensures TotalArea(recs) == BpejParcelArea(recs) + NoBpejArea(WithoutBpej(names, recs))
  {
    if recs != [] {
      var k := |recs| - 1;
      AreaPartition(names[..k], recs[..k]);
      var w := WithoutBpej(names[..k], recs[..k]);
      if !HasBpej(recs[k]) {
        assert (w + [NoBpejEntry(names[k], recs[k])])[..|w|] == w;
      } else {
        assert w + [] == w;
      }
    }
  }

  /** A parcel is listed without BPEJ data exactly when its list is missing or empty. */
  lemma {:induction false} WithoutBpejMembers(names: seq<string>, recs: seq<ParcelRecord>, k: nat)
    requires |names| == |recs| && k < |recs|
    ensures !HasBpej(recs[k]) ==> NoBpejEntry(names[k], recs[k]) in WithoutBpej(names, recs)
    ensures forall e :: e in WithoutBpej(names, recs) ==>
      exists j :: 0 <= j < |recs| && !HasBpej(recs[j]) && e == NoBpejEntry(names[j], recs[j])
  {
    var n := |recs| - 1;
    if n > 0 {
      var k' := if k < n then k else 0;
      WithoutBpejMembers(names[..n], recs[..n], k');
    }
    var w := WithoutBpej(names[..n], recs[..n]);
    assert WithoutBpej(names, recs) == w + (if HasBpej(recs[n]) then [] else [NoBpejEntry(names[n], recs[n])]);
    forall e | e in WithoutBpej(names, recs)
      ensures exists j :: 0 <= j < |recs| && !HasBpej(recs[j]) && e == NoBpejEntry(names[j], recs[j])
    {
      if e in w {
        var j :| 0 <= j < n && !HasBpej(recs[..n][j]) && e == NoBpejEntry(names[..n][j], recs[..n][j]);
        assert recs[..n][j] == recs[j] && names[..n][j] == names[j];
      } else {
        assert e == NoBpejEntry(names[n], recs[n]);
      }
    }
    if k < n && !HasBpej(recs[k]) {
      assert recs[..n][k] == recs[k] && names[..n][k] == names[k];
    }
  }
}
