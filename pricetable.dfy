/** bpej_fetch.php: the price table built from the rows of the bpej.vumop.cz overview
    page. The page arrives as table rows already taken apart (cells, their text and the
    anchors in them); the rules that pick a code and a price from a row, the map the
    rows are stored into, and the final ordering by code are modelled. */
module PriceTable {
  import opened Options
  import opened Text
  import opened Numeric
  import opened Seqs
  import opened CacheRefresh
  import opened Pricing
  import opened Input

  /** An <a> element: its href attribute and its text content. */
  datatype Anchor = Anchor(href: string, text: string)

  /** A <td> element: its text content and the <a> elements inside it, in document order. */
  datatype Cell = Cell(text: string, anchors: seq<Anchor>)

  /** A <tr> element: its <td> cells. */
  datatype Row = Row(cells: seq<Cell>)

  /** A BPEJ code as the script stores it: exactly five ASCII digits. */
  predicate IsCode(c: string) { |c| == 5 && AllDigits(c) }

  /** Five digits start at index i of s. */
  predicate FiveAt(s: string, i: nat) { i + 5 <= |s| && AllDigits(s[i..i + 5]) }

  /** preg_match('/(\d{5})/', $s): the first run of five consecutive digits, if any. */
  function FirstCode(s: string): (r: Option<string>)
    ensures r.Some? ==> IsCode(r.value)
  {
    if |s| < 5 then None
    else if AllDigits(s[..5]) then Some(s[..5])
    else FirstCode(s[1..])
  }

  /** FirstCode finds the leftmost five-digit run. */
  lemma {:induction false} FirstCodeLeftmost(s: string, i: nat)
    requires FiveAt(s, i) && forall j: nat :: j < i ==> !FiveAt(s, j)
    ensures FirstCode(s) == Some(s[i..i + 5])
  {
    if i > 0 {
      assert !FiveAt(s, 0) && s[..5] == s[0..0 + 5];
      var t := s[1..];
      assert t[i - 1..i - 1 + 5] == s[i..i + 5];
      forall j: nat | j < i - 1 ensures !FiveAt(t, j) {
        assert t[j..j + 5] == s[j + 1..j + 1 + 5];
        assert !FiveAt(s, j + 1);
      }
      FirstCodeLeftmost(t, i - 1);
    } else {
      assert s[..5] == s[0..0 + 5];
    }
  }

  /** FirstCode finds nothing exactly when no five digits stand together. */
  lemma {:induction false} FirstCodeNone(s: string)
    ensures FirstCode(s).None? <==> forall j: nat :: !FiveAt(s, j)
  {
    if |s| >= 5 {
      assert s[..5] == s[0..0 + 5];
      if !AllDigits(s[..5]) {
        var t := s[1..];
        FirstCodeNone(t);
        assert FirstCode(s) == FirstCode(t);
        assert !FiveAt(s, 0);
        forall j: nat | FiveAt(s, j) ensures FiveAt(t, j - 1) {
          assert j != 0;
          assert t[j - 1..j - 1 + 5] == s[j..j + 5];
        }
        forall j: nat | FiveAt(t, j) ensures FiveAt(s, j + 1) {
          assert t[j..j + 5] == s[j + 1..j + 1 + 5];
        }
      } else {
        assert FiveAt(s, 0);
      }
    }
  }

  /** The code a row yields (bpej_fetch.php:37-64): a row with fewer than five cells or
      no anchor in its first cell yields none; otherwise the first five-digit run of the
      first anchor's href, or failing that of its text. */
  function RowCode(row: Row): (code: Option<string>)
    ensures code.Some? ==> IsCode(code.value) && |row.cells| >= 5
  {
    if |row.cells| < 5 || row.cells[0].anchors == [] then None
    else
      var a := row.cells[0].anchors[0];
      match FirstCode(a.href)
      case Some(c) => Some(c)
      case None => FirstCode(a.text)
  }

  /** The row rules: which rows yield a code, and where the code comes from. */
  lemma RowCodeRules(row: Row)
    ensures |row.cells| < 5 || row.cells[0].anchors == [] ==> RowCode(row).None?
    ensures |row.cells| >= 5 && row.cells[0].anchors != [] ==>
      var a := row.cells[0].anchors[0];
      && (FirstCode(a.href).Some? ==> RowCode(row) == FirstCode(a.href))
      && (FirstCode(a.href).None? ==> RowCode(row) == FirstCode(a.text))
      && (RowCode(row).None? <==> (forall j: nat :: !FiveAt(a.href, j)) && (forall j: nat :: !FiveAt(a.text, j)))
  {
    if |row.cells| >= 5 && row.cells[0].anchors != [] {
      var a := row.cells[0].anchors[0];
      FirstCodeNone(a.href);
      FirstCodeNone(a.text);
    }
  }

  /** str_replace(',', '.', $s) */
  function CommaToDot(s: string): (r: string)
    ensures |r| == |s|
    ensures forall i :: 0 <= i < |s| ==> r[i] == if s[i] == ',' then '.' else s[i]
  {
    if s == [] then [] else [if s[0] == ',' then '.' else s[0]] + CommaToDot(s[1..])
  }

  /** The text holds no comma. */
  predicate NoComma(t: string) { forall i :: 0 <= i < |t| ==> t[i] != ',' }

  /** The price of a row as bpej_fetch.php:67-75 computes it: the trimmed fifth cell is
      tested with is_numeric before its commas are replaced, so the replacement never
      changes anything. */
  function PriceAsWritten(cell: string): (price: Decimal)
  {
    var t := Trim(cell);
    if IsNumeric(t) then
      CommaFree(t);
      NumericValue(CommaToDot(t))
    else Zero
  }

  /** A numeric string has no comma, so replacing commas leaves it as it is. */
  lemma CommaFree(t: string)
    requires IsNumeric(t)
    ensures CommaToDot(t) == t && IsNumeric(CommaToDot(t))
  {
    forall i | 0 <= i < |t| ensures t[i] != ',' {
      if t[i] == ',' { CommaIsNotNumeric(t, i); }
    }
  }

  /** As written, a price with a decimal comma is stored as 0. */
  lemma CommaPriceIsZero(cell: string, i: nat)
    requires i < |Trim(cell)| && Trim(cell)[i] == ','
    ensures PriceAsWritten(cell) == Zero
  {
    CommaIsNotNumeric(Trim(cell), i);
  }

  /** The price the comment above the replacement intends: commas become points before
      the numeric test, so "12,50" is 12.5. Anything that is not a number, with or
      without that replacement, is 0. */
  function RowPrice(cell: string): (price: Decimal)
  {
    var t := CommaToDot(Trim(cell));
    if IsNumeric(t) then NumericValue(t) else Zero
  }

  /** The corrected price agrees with the written one on every text without a comma,
      and reads a decimal comma as a decimal point. */
  lemma RowPriceAgrees(cell: string)
    ensures NoComma(Trim(cell)) ==> RowPrice(cell) == PriceAsWritten(cell)
    ensures RowPrice(cell) == RowPrice(CommaToDot(Trim(cell)))
  {
    NoCommaFixed(Trim(cell));
    CommaToDotSettled(cell);
  }

  /** Without a comma CommaToDot changes nothing. */
  lemma NoCommaFixed(t: string)
    ensures NoComma(t) ==> CommaToDot(t) == t
  {
  }

  /** The trimmed cell with its commas replaced is already trimmed and has no commas. */
  lemma CommaToDotSettled(cell: string)
    ensures var u := CommaToDot(Trim(cell)); Trim(u) == u && CommaToDot(u) == u
  {
    var u := CommaToDot(Trim(cell));
    TrimEdges(cell);
    if u != [] {
      assert !IsTrimChar(u[0]) && !IsTrimChar(u[|u| - 1]);
    }
    TrimNoEdges(u);
    assert CommaToDot(u) == u;
  }

  /** A decimal-comma price such as "12,50": zero as written, and as intended the number
      with the comma read as a decimal point (1250 / 10^2). */
  lemma CommaPrice(cell: string, whole: string, frac: string)
    requires Trim(cell) == whole + [','] + frac
    requires whole != [] && frac != [] && AllDigits(whole) && AllDigits(frac)
    ensures PriceAsWritten(cell) == Zero
    ensures RowPrice(cell) == Decimal(DigitsValue(whole + frac), |frac|)
  {
    CommaPriceIsZero(cell, |whole|);
    CommaToPoint(whole, frac);
    PointPrice(whole + ['.'] + frac, whole, frac);
  }

  lemma CommaToPoint(whole: string, frac: string)
    requires AllDigits(whole) && AllDigits(frac)
    ensures CommaToDot(whole + [','] + frac) == whole + ['.'] + frac
  {
  }

  /** digits "." digits is numeric, with its digits as mantissa and as many decimal
      places as it has digits after the point. */
  lemma PointPrice(g: string, whole: string, frac: string)
    requires g == whole + ['.'] + frac
    requires whole != [] && frac != [] && AllDigits(whole) && AllDigits(frac)
    ensures IsNumeric(g) && NumericValue(g) == Decimal(DigitsValue(whole + frac), |frac|)
  {
    var n := |whole|;
    assert g[..n] == whole && g[n + 1..] == frac;
    DigitRunPrefix(g, n);
    LiteralValue(g);
  }

  /** A string whose ends are not trimmed characters is its own Trim. */
  lemma TrimNoEdges(s: string)
    requires s == [] || (!IsTrimChar(s[0]) && !IsTrimChar(s[|s| - 1]))
    ensures Trim(s) == s
  {
    TrimLeftNoop(s);
    TrimRightNoop(s);
  }

  /** Which reading of the price cell a table is built with: the code as written, or
      the corrected order in which commas become points before the numeric test. */
  datatype Reading = AsWritten | Intended

  /** The price a row with a code stores: its fifth cell, read as written or as
      intended. */
  function CellPrice(row: Row, reading: Reading): Decimal
    requires |row.cells| >= 5
  {
    match reading
    case AsWritten => PriceAsWritten(row.cells[4].text)
    case Intended => RowPrice(row.cells[4].text)
  }

  /** $bpejData after the rows: each row with a code stores its price under the code,
      later rows overwriting earlier ones. */
  function TableOf(rows: seq<Row>, reading: Reading): Table
  {
    if rows == [] then map[]
    else
      var last := rows[|rows| - 1];
      var t := TableOf(rows[..|rows| - 1], reading);
      match RowCode(last)
      case None => t
      case Some(c) => t[c := CellPrice(last, reading)]
  }

  /** The codes of the table are exactly the codes of the rows, and all are five-digit
      strings. */
  lemma {:induction false} TableKeys(rows: seq<Row>, reading: Reading)
    ensures forall c :: c in TableOf(rows, reading) ==> IsCode(c)
    ensures forall c :: c in TableOf(rows, reading) <==> exists k :: 0 <= k < |rows| && RowCode(rows[k]) == Some(c)
  {
    if rows != [] {
      TableKeys(rows[..|rows| - 1], reading);
      TableKeysStep(rows, reading);
    }
  }

  /** TableKeys for one more row. */
  lemma TableKeysStep(rows: seq<Row>, reading: Reading)
    requires rows != []
    requires var init := rows[..|rows| - 1];
      && (forall c :: c in TableOf(init, reading) ==> IsCode(c))
      && (forall c :: c in TableOf(init, reading) <==> exists k :: 0 <= k < |init| && RowCode(init[k]) == Some(c))
    ensures forall c :: c in TableOf(rows, reading) ==> IsCode(c)
    ensures forall c :: c in TableOf(rows, reading) <==> exists k :: 0 <= k < |rows| && RowCode(rows[k]) == Some(c)
  {
    var init := rows[..|rows| - 1];
    var n := |init|;
    forall c ensures c in TableOf(rows, reading) <==> exists k :: 0 <= k < |rows| && RowCode(rows[k]) == Some(c) {
      if c in TableOf(rows, reading) && RowCode(rows[n]) != Some(c) {
        var k :| 0 <= k < n && RowCode(init[k]) == Some(c);
        assert rows[k] == init[k];
      }
      if exists k :: 0 <= k < |rows| && RowCode(rows[k]) == Some(c) {
        var k :| 0 <= k < |rows| && RowCode(rows[k]) == Some(c);
        if k < n {
          assert init[k] == rows[k];
        }
      }
    }
  }

  /** When several rows give the same code, the table holds the price of the last one. */
  lemma {:induction false} LastRowWins(rows: seq<Row>, k: nat, reading: Reading)
    requires k < |rows| && RowCode(rows[k]).Some?
    requires forall l :: k < l < |rows| ==> RowCode(rows[l]) != RowCode(rows[k])
    ensures RowCode(rows[k]).value in TableOf(rows, reading)
    ensures TableOf(rows, reading)[RowCode(rows[k]).value] == CellPrice(rows[k], reading)
  {
    var init := rows[..|rows| - 1];
    if k < |rows| - 1 {
      assert init[k] == rows[k];
      forall l | k < l < |init| ensures RowCode(init[l]) != RowCode(init[k]) {
        assert init[l] == rows[l];
      }
      LastRowWins(init, k, reading);
    }
  }

  /** The two readings give tables with the same codes, and the same table when no row
      with a code has a comma in its trimmed price cell. */
  lemma {:induction false} ReadingsAgree(rows: seq<Row>)
    ensures TableOf(rows, AsWritten).Keys == TableOf(rows, Intended).Keys
    ensures (forall k :: 0 <= k < |rows| && RowCode(rows[k]).Some? ==> NoComma(Trim(rows[k].cells[4].text))) ==>
      TableOf(rows, AsWritten) == TableOf(rows, Intended)
  {
    if rows != [] {
      var init := rows[..|rows| - 1];
      var last := rows[|rows| - 1];
      ReadingsAgree(init);
      if forall k :: 0 <= k < |rows| && RowCode(rows[k]).Some? ==> NoComma(Trim(rows[k].cells[4].text)) {
        forall k | 0 <= k < |init| && RowCode(init[k]).Some? ensures NoComma(Trim(init[k].cells[4].text)) {
          assert init[k] == rows[k];
        }
        if RowCode(last).Some? {
          RowPriceAgrees(last.cells[4].text);
        }
      }
    }
  }

  /** A row whose code no later row repeats and whose price cell is "12,50"-shaped: the
      table as written holds 0 for its code, the intended table the comma-read number. */
  lemma CommaRowTables(rows: seq<Row>, k: nat, whole: string, frac: string)
    requires k < |rows| && RowCode(rows[k]).Some?
    requires forall l :: k < l < |rows| ==> RowCode(rows[l]) != RowCode(rows[k])
    requires Trim(rows[k].cells[4].text) == whole + [','] + frac
    requires whole != [] && frac != [] && AllDigits(whole) && AllDigits(frac)
    ensures RowCode(rows[k]).value in TableOf(rows, AsWritten) && RowCode(rows[k]).value in TableOf(rows, Intended)
    ensures TableOf(rows, AsWritten)[RowCode(rows[k]).value] == Zero
    ensures TableOf(rows, Intended)[RowCode(rows[k]).value] == Decimal(DigitsValue(whole + frac), |frac|)
  {
    LastRowWins(rows, k, AsWritten);
    LastRowWins(rows, k, Intended);
    CommaPrice(rows[k].cells[4].text, whole, frac);
  }

  /** bpej_fetch.php:67-75 as written: the numeric test comes before the comma
      replacement, so a numeric text is read unchanged and anything else is 0. */
  method ReadPrice(cell: string) returns (price: Decimal)
    ensures price == PriceAsWritten(cell)
    ensures NoComma(Trim(cell)) ==> price == RowPrice(cell)
  {
    var priceText := Trim(cell);
    price := Zero;
    if IsNumeric(priceText) {
      CommaFree(priceText);
      priceText := CommaToDot(priceText);
      price := NumericValue(priceText);
    }
    RowPriceAgrees(cell);
  }

  /** The row loop of bpej_fetch.php:33-80, which stores the price as written. */
  method CollectRows(rows: seq<Row>) returns (data: Table)
    ensures data == TableOf(rows, AsWritten)
  {
    data := map[];
    for i := 0 to |rows|
      invariant data == TableOf(rows[..i], AsWritten)
    {
      var row := rows[i];
      assert rows[..i + 1][..i] == rows[..i];
      if |row.cells| >= 5 && row.cells[0].anchors != [] {
        var anchor := row.cells[0].anchors[0];
        var code := FirstCode(anchor.href);
        if code.None? {
          code := FirstCode(anchor.text);
        }
        if code.Some? {
          var price := ReadPrice(row.cells[4].text);
          data := data[code.value := price];
        }
      }
    }
    assert rows[..|rows|] == rows;
  }

  /** Codes in strictly ascending numeric order; PHP 8 compares the keys "01234" and
      43746 (an integer key once stored) as numbers. */
  predicate Ascending(entries: seq<(string, Decimal)>)
  {
    && (forall k :: 0 <= k < |entries| ==> IsCode(entries[k].0))
    && forall i, j :: 0 <= i < j < |entries| ==> DigitsValue(entries[i].0) < DigitsValue(entries[j].0)
  }

  /** Inserts an entry with a new code at its place in an ascending list. */
  method InsertByCode(entries: seq<(string, Decimal)>, e: (string, Decimal)) returns (r: seq<(string, Decimal)>)
    requires Ascending(entries) && IsCode(e.0)
    requires forall x :: x in entries ==> x.0 != e.0
    ensures Ascending(r)
    ensures forall x :: x in r <==> x in entries || x == e
  {
    var v := DigitsValue(e.0);
    var i := 0;
    while i < |entries| && DigitsValue(entries[i].0) < v
      invariant 0 <= i <= |entries|
      invariant forall k :: 0 <= k < i ==> DigitsValue(entries[k].0) < v
    {
      i := i + 1;
    }
    if i < |entries| {
      assert entries[i] in entries;
      CodeValueInjective(entries[i].0, e.0);
    }
    r := entries[..i] + [e] + entries[i..];
    InsertedAscending(entries, e, i);
    assert entries == entries[..i] + entries[i..];
  }

  lemma InsertedAscending(entries: seq<(string, Decimal)>, e: (string, Decimal), i: nat)
    requires Ascending(entries) && IsCode(e.0) && i <= |entries|
    requires forall k :: 0 <= k < i ==> DigitsValue(entries[k].0) < DigitsValue(e.0)
    requires i < |entries| ==> DigitsValue(e.0) < DigitsValue(entries[i].0)
    ensures Ascending(entries[..i] + [e] + entries[i..])
  {
    var r := entries[..i] + [e] + entries[i..];
    assert forall k :: 0 <= k < i ==> r[k] == entries[k];
    assert forall k :: i < k < |r| ==> r[k] == entries[k - 1];
  }

  /** ksort($bpejData) (bpej_fetch.php:83): the table's entries, each once, in ascending
      order of code. */
  method SortByCode(data: Table) returns (entries: seq<(string, Decimal)>)
    requires forall c :: c in data ==> IsCode(c)
    ensures Ascending(entries)
    ensures forall x :: x in entries <==> x in data.Items
  {
    entries := [];
    var rest := data.Keys;
    while rest != {}
      invariant rest <= data.Keys
      invariant Ascending(entries)
      invariant forall x :: x in entries <==> x in data.Items && x.0 !in rest
      decreases |rest|
    {
      var c :| c in rest;
      entries := InsertByCode(entries, (c, data[c]));
      rest := rest - {c};
    }
  }

  /** Two codes with the same value are the same code. */
  lemma CodeValueInjective(a: string, b: string)
    requires IsCode(a) && IsCode(b) && a != b
    ensures DigitsValue(a) != DigitsValue(b)
  {
    LexTotal(a, b);
    if LexBelow(a, b) { LexMatchesValue(a, b); } else { LexMatchesValue(b, a); }
  }

  /** String order: a proper prefix or a smaller character at the first difference. */
  predicate LexBelow(a: string, b: string)
  {
    b != [] && (a == [] || a[0] < b[0] || (a[0] == b[0] && LexBelow(a[1..], b[1..])))
  }

  lemma {:induction false} LexTotal(a: string, b: string)
    requires a != b
    ensures LexBelow(a, b) || LexBelow(b, a)
  {
    if a != [] && b != [] && a[0] == b[0] {
      assert a == [a[0]] + a[1..] && b == [b[0]] + b[1..];
      LexTotal(a[1..], b[1..]);
    }
  }

  /** For digit strings of one length, string order is numeric order: sorting codes by
      value also sorts them as strings. */
  lemma {:induction false} LexMatchesValue(a: string, b: string)
    requires |a| == |b| && AllDigits(a) && AllDigits(b)
    ensures LexBelow(a, b) <==> DigitsValue(a) < DigitsValue(b)
  {
    if a != [] {
      var p := Pow10(|a| - 1);
      DigitsValueFront(a);
      DigitsValueFront(b);
      DigitsValueBound(a[1..]);
      DigitsValueBound(b[1..]);
      var da := a[0] as int - '0' as int;
      var db := b[0] as int - '0' as int;
      if da < db {
        PlaceOrder(da, db, p, DigitsValue(a[1..]), DigitsValue(b[1..]));
      } else if db < da {
        PlaceOrder(db, da, p, DigitsValue(b[1..]), DigitsValue(a[1..]));
      } else {
        LexMatchesValue(a[1..], b[1..]);
      }
    }
  }

  /** A smaller leading digit makes a smaller number, whatever follows it. */
  lemma PlaceOrder(d: int, e: int, p: int, x: int, y: int)
    requires 0 <= d < e && 0 <= x < p && 0 <= y
    ensures d * p + x < e * p + y
  {
    var k := e - d - 1;
    assert k * p >= 0;
    assert e * p == d * p + k * p + p;
  }

  /** Ascending codes are also in string order. */
  lemma AscendingIsLexical(entries: seq<(string, Decimal)>, i: nat, j: nat)
    requires Ascending(entries) && i < j < |entries|
    ensures LexBelow(entries[i].0, entries[j].0)
  {
    LexMatchesValue(entries[i].0, entries[j].0);
  }

  /** The answer to the request for the overview page: cURL's error text (empty when
      there was none), the HTTP status (0 when there was none), whether the body is
      empty, and the rows of the page. */
  datatype Response = Response(curlError: string, httpCode: int, emptyBody: bool, rows: seq<Row>)

  /** The request failed: the condition of the die() at bpej_fetch.php:18-20. */
  predicate Failed(resp: Response) { resp.curlError != "" || resp.httpCode != 200 }

  /** The request passed the check but the body is empty: under PHP 8
      DOMDocument::loadHTML('') at bpej_fetch.php:24 throws an uncaught ValueError,
      which ends the script with exit status 255. */
  predicate Crashes(resp: Response) { !Failed(resp) && resp.emptyBody }

  /** The exit status of PHP after an uncaught exception. */
  const CrashStatus := 255

  /** How the script ends: died with the cURL error and HTTP status in its message,
      stopped by the uncaught error of loadHTML, or saved the sorted entries to
      bpej.json. */
  datatype ScriptResult = Died(curlError: string, httpCode: int) | Crashed | Saved(entries: seq<(string, Decimal)>)

  /** bpej_fetch.php as a whole: a failed request or an empty body ends the script
      before anything is built or written; otherwise the rows are collected and sorted
      by code. */
  method FetchScript(resp: Response) returns (result: ScriptResult)
    ensures result.Died? <==> Failed(resp)
    ensures result.Died? ==> result == Died(resp.curlError, resp.httpCode)
    ensures result.Crashed? <==> Crashes(resp)
    ensures result.Saved? ==> Ascending(result.entries)
    ensures result.Saved? ==> forall x :: x in result.entries <==> x in TableOf(resp.rows, AsWritten).Items
  {
    if Failed(resp) {
      return Died(resp.curlError, resp.httpCode);
    }
    if resp.emptyBody {
      return Crashed;
    }
    var data := CollectRows(resp.rows);
    TableKeys(resp.rows, AsWritten);
    var entries := SortByCode(data);
    return Saved(entries);
  }

  /** The file the script leaves: unchanged when it dies or crashes, otherwise fresh
      (age 0), holding `encoded` (json_encode of the sorted entries), which decodes to
      the table. */
  function FileAfter(resp: Response, before: CacheFile, encoded: string): (after: CacheFile)
    ensures Failed(resp) || Crashes(resp) ==> after == before
    ensures !Failed(resp) && !Crashes(resp) ==> after.Present? && after.table == Some(TableOf(resp.rows, AsWritten))
  {
    if Failed(resp) || Crashes(resp) then before else Present(0, encoded, Some(TableOf(resp.rows, AsWritten)))
  }

  /** What the calculator's exec() sees as written: die() with a message string exits
      with status 0, as does the normal end; only the crash on an empty body exits
      non-zero. */
  function RunAsWritten(resp: Response, before: CacheFile, encoded: string): (run: FetchRun)
    ensures run.status != 0 <==> Crashes(resp)
    ensures Crashes(resp) ==> run.status == CrashStatus
    ensures run.after == FileAfter(resp, before, encoded)
  {
    FetchRun(if Crashes(resp) then CrashStatus else 0, FileAfter(resp, before, encoded))
  }

  /** As written, a failed download over an existing file is reported as a successful
      run with "No changes in bpej.json file", and the old table is loaded. */
  lemma FailureLooksUnchanged(resp: Response, before: CacheFile, encoded: string)
    requires Failed(resp) && before.Present?
    ensures Compare(before, RunAsWritten(resp, before, encoded)) == Unchanged
    ensures Load(RunAsWritten(resp, before, encoded).after) == Load(before)
  {
  }

  /** As written, a failed download when there was no file is reported as
      "bpej_fetch.php finished." and leaves an empty table. */
  lemma FailureLooksFinished(stdin: seq<string>, from: nat, forceFresh: bool, resp: Response, encoded: string)
    requires Failed(resp) && !IsNo(Answer(stdin, from))
    ensures CacheStep(stdin, from, Absent, forceFresh, RunAsWritten(resp, Absent, encoded)).report == Fetched
    ensures CacheStep(stdin, from, Absent, forceFresh, RunAsWritten(resp, Absent, encoded)).cache == map[]
  {
  }

  /** As written, the crash on an empty body is the one failure the calculator reports
      as an error ("code=255"); the file it then loads is the one that was there. */
  lemma CrashReported(stdin: seq<string>, from: nat, file: CacheFile, forceFresh: bool, resp: Response, encoded: string)
    requires Fetches(Decide(stdin, from, file, forceFresh).action)
    ensures var o := CacheStep(stdin, from, file, forceFresh, RunAsWritten(resp, file, encoded));
      && (Crashes(resp) <==> o.report == FetchFailed(CrashStatus))
      && (Crashes(resp) ==> o.cache == Load(file))
  {
    AlwaysLoads(stdin, from, file, forceFresh, RunAsWritten(resp, file, encoded));
  }

  /** The run the calculator's error branch expects: a failed download exits with
      status 1 (as `exit(1)` after the message would), the crash with 255, a completed
      download with 0. */
  function ScriptRun(resp: Response, before: CacheFile, encoded: string): (run: FetchRun)
    ensures run.status != 0 <==> Failed(resp) || Crashes(resp)
    ensures Failed(resp) ==> run.status == 1
    ensures run.after == FileAfter(resp, before, encoded)
  {
    FetchRun(if Failed(resp) then 1 else if Crashes(resp) then CrashStatus else 0, FileAfter(resp, before, encoded))
  }

  /** With the corrected status every failed download is reported as an error, and
      every completed one loads the new table. */
  lemma FailureReported(stdin: seq<string>, from: nat, file: CacheFile, forceFresh: bool, resp: Response, encoded: string)
    requires Fetches(Decide(stdin, from, file, forceFresh).action)
    ensures var o := CacheStep(stdin, from, file, forceFresh, ScriptRun(resp, file, encoded));
      && (Failed(resp) <==> o.report == FetchFailed(1))
      && (Crashes(resp) <==> o.report == FetchFailed(CrashStatus))
      && (!Failed(resp) && !Crashes(resp) && encoded != "" && encoded != "0" ==> o.cache == TableOf(resp.rows, AsWritten))
  {
    AlwaysLoads(stdin, from, file, forceFresh, ScriptRun(resp, file, encoded));
  }
}
