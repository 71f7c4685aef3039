/** Where the parcel list comes from (bonita_calculator.php:57-101, 133-183, 278-298):
    the paste of a cadastre extract ("raw KN data") with its cadastral area and parcel
    numbers, the operator's go-ahead, the one-parcel-per-line text form of the list,
    and the split of a parcel number "N" or "N/M" into the cadastre query. */
module Input {
  import opened Options
  import opened Text
  import opened Numeric
  import opened Seqs

  // ---------------------------------------------------------------------------
  // The cadastral-area line: /Katastrální\s+území\s*:\s*(.+?)\[(\d+)\]/u

  const AreaLabel := "Katastrální"
  const AreaWord := "území"

  /** What the pattern captures: the lazy group (.+?) and the digits (\d+). */
  datatype AreaCapture = AreaCapture(rawName: string, digits: string)

  /** The end of the run of \s characters (Unicode whitespace, as the u modifier makes
      them) that starts at index i. */
  function SpacesFrom(t: string, i: nat): (e: nat)
    requires i <= |t|
    ensures i <= e <= |t|
    decreases |t| - i
  {
    if i < |t| && IsUnicodeSpace(t[i]) then SpacesFrom(t, i + 1) else i
  }

  /** The end of the run of digits that starts at index i. */
  function DigitsFrom(t: string, i: nat): (e: nat)
    requires i <= |t|
    ensures i <= e <= |t|
    decreases |t| - i
  {
    if i < |t| && IsDigit(t[i]) then DigitsFrom(t, i + 1) else i
  }

  predicate AllSpaceIn(t: string, i: nat, j: nat)
    requires i <= j <= |t|
  {
    forall k :: i <= k < j ==> IsUnicodeSpace(t[k])
  }

  predicate AllDigitsIn(t: string, i: nat, j: nat)
    requires i <= j <= |t|
  {
    forall k :: i <= k < j ==> IsDigit(t[k])
  }

  /** SpacesFrom ends the run: whitespace up to it, and none at it. */
  lemma {:induction false} SpacesFromEnds(t: string, i: nat)
    requires i <= |t|
    ensures var e := SpacesFrom(t, i); AllSpaceIn(t, i, e) && (e == |t| || !IsUnicodeSpace(t[e]))
    decreases |t| - i
  {
    if i < |t| && IsUnicodeSpace(t[i]) {
      SpacesFromEnds(t, i + 1);
    }
  }

  /** A run of whitespace from a to x that stops at x ends at x. */
  lemma {:induction false} SpacesFromExact(t: string, a: nat, x: nat)
    requires a <= x < |t| && AllSpaceIn(t, a, x) && !IsUnicodeSpace(t[x])
    ensures SpacesFrom(t, a) == x
    decreases x - a
  {
    if a < x {
      SpacesFromExact(t, a + 1, x);
    }
  }

  /** The run from a takes in any whitespace from a to x. */
  lemma {:induction false} SpacesFromCovers(t: string, a: nat, x: nat)
    requires a <= x <= |t| && AllSpaceIn(t, a, x)
    ensures SpacesFrom(t, a) >= x
    decreases x - a
  {
    if a < x {
      SpacesFromCovers(t, a + 1, x);
    }
  }

  lemma {:induction false} DigitsFromEnds(t: string, i: nat)
    requires i <= |t|
    ensures var e := DigitsFrom(t, i); AllDigitsIn(t, i, e) && (e == |t| || !IsDigit(t[e]))
    decreases |t| - i
  {
    if i < |t| && IsDigit(t[i]) {
      DigitsFromEnds(t, i + 1);
    }
  }

  lemma {:induction false} DigitsFromExact(t: string, a: nat, x: nat)
    requires a <= x < |t| && AllDigitsIn(t, a, x) && !IsDigit(t[x])
    ensures DigitsFrom(t, a) == x
    decreases x - a
  {
    if a < x {
      DigitsFromExact(t, a + 1, x);
    }
  }

  /** "[" \d+ "]" at index q: the digits. \d+ is greedy and "]" cannot be a digit, so
      only the whole run of digits can be followed by the "]". */
  function BracketAt(t: string, q: nat): (r: Option<string>)
    ensures r.Some? ==> q < |t| && t[q] == '[' && r.value != []
  {
    if q < |t| && t[q] == '[' then
      var e := DigitsFrom(t, q + 1);
      if e > q + 1 && e < |t| && t[e] == ']' then Some(t[q + 1..e]) else None
    else None
  }

  /** BracketAt reports exactly the digit strings that stand between "[" at q and a
      "]". */
  lemma BracketAtMeaning(t: string, q: nat, ds: string)
    ensures BracketAt(t, q) == Some(ds) <==>
      && q + |ds| + 2 <= |t| && t[q] == '[' && ds != []
      && AllDigits(ds) && t[q + 1..q + 1 + |ds|] == ds && t[q + 1 + |ds|] == ']'
  {
    if q < |t| && t[q] == '[' {
      DigitsFromEnds(t, q + 1);
      var e := DigitsFrom(t, q + 1);
      if BracketAt(t, q) == Some(ds) {
        assert e == q + 1 + |ds| && ds == t[q + 1..e];
        assert forall k :: 0 <= k < |ds| ==> ds[k] == t[q + 1 + k];
      }
      if && q + |ds| + 2 <= |t| && ds != []
         && AllDigits(ds) && t[q + 1..q + 1 + |ds|] == ds && t[q + 1 + |ds|] == ']' {
        assert forall k :: q + 1 <= k < q + 1 + |ds| ==> t[k] == ds[k - q - 1];
        DigitsFromExact(t, q + 1, q + 1 + |ds|);
      }
    }
  }

  /** The first index q >= from where a bracketed number starts. */
  function FirstBracket(t: string, from: nat): (r: Option<nat>)
    ensures r.Some? ==> from <= r.value && BracketAt(t, r.value).Some?
    decreases |t| - from
  {
    if from >= |t| then None
    else if BracketAt(t, from).Some? then Some(from)
    else FirstBracket(t, from + 1)
  }

  /** FirstBracket finds the leftmost bracketed number from `from` on, and nothing only
      when there is none. */
  lemma {:induction false} FirstBracketLeftmost(t: string, from: nat)
    ensures var r := FirstBracket(t, from);
      && (r.Some? ==> forall k :: from <= k < r.value ==> BracketAt(t, k).None?)
      && (r.None? ==> forall k :: from <= k ==> BracketAt(t, k).None?)
    decreases |t| - from
  {
    if from < |t| && BracketAt(t, from).None? {
      FirstBracketLeftmost(t, from + 1);
    }
  }

  /** The index just after the ":" when the label, \s+, the word, \s* and ":" start at
      p. Each of these whitespace runs is followed by a character that is not
      whitespace, so it can only take the whole run. */
  function ColonEnd(t: string, p: nat): (r: Option<nat>)
    ensures r.Some? ==> r.value <= |t|
  {
    if !OccursAt(t, AreaLabel, p) then None
    else
      var a := p + |AreaLabel|;
      var x := SpacesFrom(t, a);
      if x == a || !OccursAt(t, AreaWord, x) then None
      else
        var c := SpacesFrom(t, x + |AreaWord|);
        if c >= |t| || t[c] != ':' then None
        else Some(c + 1)
  }

  /** \s*(.+?)\[(\d+)\] from index d, as PCRE backtracks through it. The greedy \s*
      first keeps all the whitespace it can; the lazy group then ends at the first
      bracketed number that leaves it non-empty. Only when there is none does \s* give
      one whitespace character back, so that this character is the group and the
      bracketed number follows right after the whitespace. */
  function GroupFrom(t: string, d: nat): Option<AreaCapture>
    requires d <= |t|
  {
    var g := SpacesFrom(t, d);
    match FirstBracket(t, g + 1)
    case Some(q) => Some(AreaCapture(t[g..q], BracketAt(t, q).value))
    case None =>
      if g > d && BracketAt(t, g).Some? then Some(AreaCapture(t[g - 1..g], BracketAt(t, g).value))
      else None
  }

  /** The match of the whole pattern that starts at index p. */
  function MatchAt(t: string, p: nat): Option<AreaCapture>
  {
    match ColonEnd(t, p)
    case None => None
    case Some(d) => GroupFrom(t, d)
  }

  /** The pattern up to the colon, stated directly: the label at p, the word at x, the
      colon at c, whitespace between them. */
  ghost predicate HeadShape(t: string, p: nat, x: nat, c: nat)
  {
    && OccursAt(t, AreaLabel, p) && p + |AreaLabel| < x <= |t| && AllSpaceIn(t, p + |AreaLabel|, x)
    && OccursAt(t, AreaWord, x) && x + |AreaWord| <= c < |t| && AllSpaceIn(t, x + |AreaWord|, c)
    && t[c] == ':'
  }

  /** The rest of the pattern from d: whitespace up to g, a non-empty group from g to
      q, and the bracketed number at q. */
  ghost predicate TailShape(t: string, d: nat, g: nat, q: nat)
  {
    d <= g < q <= |t| && AllSpaceIn(t, d, g) && BracketAt(t, q).Some?
  }

  /** The language of the whole pattern. */
  ghost predicate AreaShape(t: string, p: nat, x: nat, c: nat, g: nat, q: nat)
  {
    HeadShape(t, p, x, c) && TailShape(t, c + 1, g, q)
  }

  lemma ColonEndSound(t: string, p: nat) returns (x: nat, c: nat)
    requires ColonEnd(t, p).Some?
    ensures HeadShape(t, p, x, c) && ColonEnd(t, p) == Some(c + 1)
  {
    var a := p + |AreaLabel|;
    x := SpacesFrom(t, a);
    SpacesFromEnds(t, a);
    c := SpacesFrom(t, x + |AreaWord|);
    SpacesFromEnds(t, x + |AreaWord|);
  }

  lemma ColonEndComplete(t: string, p: nat, x: nat, c: nat)
    requires HeadShape(t, p, x, c)
    ensures ColonEnd(t, p) == Some(c + 1)
  {
    var a := p + |AreaLabel|;
    var b := x + |AreaWord|;
    assert t[x] == t[x..b][0] == 'ú';
    SpacesFromExact(t, a, x);
    SpacesFromExact(t, b, c);
  }

  lemma GroupFromSound(t: string, d: nat) returns (g: nat, q: nat)
    requires d <= |t| && GroupFrom(t, d).Some?
    ensures TailShape(t, d, g, q) && GroupFrom(t, d) == Some(AreaCapture(t[g..q], BracketAt(t, q).value))
  {
    g := SpacesFrom(t, d);
    SpacesFromEnds(t, d);
    match FirstBracket(t, g + 1)
    case Some(q') =>
      q := q';
    case None =>
      g, q := g - 1, g;
  }

  lemma GroupFromComplete(t: string, d: nat, g: nat, q: nat)
    requires TailShape(t, d, g, q)
    ensures GroupFrom(t, d).Some?
  {
    SpacesFromCovers(t, d, g);
    var g' := SpacesFrom(t, d);
    FirstBracketLeftmost(t, g' + 1);
    if FirstBracket(t, g' + 1).None? {
      SpacesFromEnds(t, d);
      assert q <= g';
      assert !IsUnicodeSpace(t[q]);
      assert q == g' && g' > d && BracketAt(t, g').Some?;
    }
  }

  /** Every match MatchAt reports has the pattern's shape. */
  lemma MatchAtSound(t: string, p: nat)
    requires MatchAt(t, p).Some?
    ensures exists x: nat, c: nat, g: nat, q: nat ::
      && AreaShape(t, p, x, c, g, q)
      && MatchAt(t, p) == Some(AreaCapture(t[g..q], BracketAt(t, q).value))
  {
    var d :| ColonEnd(t, p) == Some(d);
    MatchAtStages(t, p, d);
    var x, c := ColonEndSound(t, p);
    var g, q := GroupFromSound(t, d);
    assert AreaShape(t, p, x, c, g, q);
  }

  lemma MatchAtStages(t: string, p: nat, d: nat)
    requires ColonEnd(t, p) == Some(d)
    ensures d <= |t| && MatchAt(t, p) == GroupFrom(t, d)
  {
  }

  /** Wherever the pattern's shape starts at p, MatchAt finds a match at p. */
  lemma MatchAtComplete(t: string, p: nat, x: nat, c: nat, g: nat, q: nat)
    requires AreaShape(t, p, x, c, g, q)
    ensures MatchAt(t, p).Some?
  {
    assert HeadShape(t, p, x, c) && TailShape(t, c + 1, g, q);
    ColonEndComplete(t, p, x, c);
    MatchAtStages(t, p, c + 1);
    GroupFromComplete(t, c + 1, g, q);
  }

  /** No position from i up to (not including) j starts a match. */
  ghost predicate NoMatchBetween(t: string, i: nat, j: nat)
  {
    forall k: nat :: i <= k < j ==> MatchAt(t, k).None?
  }

  /** preg_match: the match at the leftmost start position that has one. */
  function FindArea(t: string, p: nat): Option<AreaCapture>
    decreases |t| - p
  {
    if p > |t| then None
    else if MatchAt(t, p).Some? then MatchAt(t, p)
    else FindArea(t, p + 1)
  }

  /** FindArea reports the match at the leftmost position that has one, and nothing
      only when no position has one. */
  lemma {:induction false} FindAreaLeftmost(t: string, p: nat)
    ensures FindArea(t, p).Some? ==>
      exists k: nat :: p <= k <= |t| && MatchAt(t, k) == FindArea(t, p) && NoMatchBetween(t, p, k)
    ensures FindArea(t, p).None? ==> NoMatchBetween(t, p, |t| + 1)
    decreases |t| - p
  {
    if p > |t| {
    } else if MatchAt(t, p).Some? {
      assert NoMatchBetween(t, p, p);
    } else {
      FindAreaLeftmost(t, p + 1);
      assert FindArea(t, p) == FindArea(t, p + 1);
      if FindArea(t, p + 1).Some? {
        var k: nat :| p + 1 <= k <= |t| && MatchAt(t, k) == FindArea(t, p + 1) && NoMatchBetween(t, p + 1, k);
        assert NoMatchBetween(t, p, k);
      } else {
        assert NoMatchBetween(t, p, |t| + 1);
      }
    }
  }

  /** The cadastral area the extract names: name and numeric code. */
  datatype CadastralArea = CadastralArea(name: string, code: int)

  /** The area a (trimmed) line states, if it matches the pattern. */
  function AreaOfLine(t: string): Option<CadastralArea>
  {
    match FindArea(t, 0)
    case None => None
    case Some(m) => Some(CadastralArea(Trim(m.rawName), IntCast(m.digits)))
  }

  // ---------------------------------------------------------------------------
  // Parcel lines: /^\d+(\/\d+)?$/

  /** A parcel number: digits, or digits "/" digits. */
  predicate IsParcelNumber(t: string)
  {
    var n := DigitRun(t);
    n > 0 && (n == |t| || (t[n] == '/' && n + 1 + DigitRun(t[n + 1..]) == |t| && n + 1 < |t|))
  }

  /** The pattern read directly: all digits, or two digit strings around one "/". */
  lemma ParcelNumberShape(t: string)
    ensures IsParcelNumber(t) <==>
      (t != [] && AllDigits(t)) ||
      (exists k :: 0 < k < |t| - 1 && t[k] == '/' && AllDigits(t[..k]) && AllDigits(t[k + 1..]))
  {
    var n := DigitRun(t);
    if t != [] && AllDigits(t) {
      DigitRunAll(t);
    }
    if k :| 0 < k < |t| - 1 && t[k] == '/' && AllDigits(t[..k]) && AllDigits(t[k + 1..]) {
      DigitRunAll(t[..k]);
      DigitRunPrefix(t, k);
      DigitRunAll(t[k + 1..]);
    }
    if IsParcelNumber(t) && n < |t| {
      DigitRunAll(t[n + 1..][..|t| - n - 1]);
      assert t[n + 1..][..|t| - n - 1] == t[n + 1..];
    }
  }

  const ParcelHeader := "Parcelní číslo"

  /** The header with its ASCII letters folded to lower case: stripos folds both the
      line and the searched text, and "P" is the header's only ASCII capital. */
  const FoldedHeader := "parcelní číslo"

  /** stripos($lineTrim, 'Parcelní číslo') !== false */
  predicate IsHeader(t: string)
  {
    Contains(LowerAll(t), FoldedHeader)
  }

  /** A trimmed line that continues the run of parcel numbers. empty() is also true of
      "0", so a line "0" ends the run although it has the shape of a number. */
  predicate ContinuesRun(t: string)
  {
    t != "" && t != "0" && IsParcelNumber(t)
  }

  /** parseRawKNData's result. */
  datatype KnData = KnData(area: Option<CadastralArea>, parcels: seq<string>)

  /** The area a line states once trimmed. */
  function LineArea(line: string): Option<CadastralArea>
  {
    AreaOfLine(Trim(line))
  }

  /** The parcel numbers after the first header among the trimmed lines: the run of
      lines right after it that continue the run; none without a header. */
  function HeaderRun(trimmed: seq<string>): seq<string>
  {
    TakeWhile(AfterFirst(trimmed, IsHeader), ContinuesRun)
  }

  /** What parseRawKNData finds in an extract: the area stated by the first line that
      states one, and the parcel-number lines after the first header. */
  function KnDataOf(raw: string): KnData
  {
    var lines := SplitLines(raw);
    KnData(FirstSome(lines, LineArea), HeaderRun(Map(lines, Trim)))
  }

  /** parseRawKNData (bonita_calculator.php:57-101): the cadastral area of the first
      line that states one, and the parcel numbers listed after the header. */
  method ParseRawKNData(raw: string) returns (r: KnData)
    ensures r == KnDataOf(raw)
  {
    var lines := SplitLines(raw);
    // PHP checks `if (!$lines)`: preg_split always yields at least one line here.
    var area := ScanArea(lines);
    var parcels := CollectParcels(lines);
    r := KnData(area, parcels);
  }

  /** The first loop of parseRawKNData (bonita_calculator.php:71-78). */
  method ScanArea(lines: seq<string>) returns (area: Option<CadastralArea>)
    ensures area == FirstSome(lines, LineArea)
  {
    area := None;
    var i := 0;
    while i < |lines|
      invariant 0 <= i <= |lines|
      invariant FirstSome(lines, LineArea) == FirstSome(lines[i..], LineArea)
    {
      assert lines[i..][0] == lines[i] && lines[i..][1..] == lines[i + 1..];
      var lineTrim := Trim(lines[i]);
      var found := AreaOfLine(lineTrim);
      if found.Some? {
        area := found;
        break;
      }
      i := i + 1;
    }
  }

  /** The second loop of parseRawKNData (bonita_calculator.php:82-98). */
  method CollectParcels(lines: seq<string>) returns (parcels: seq<string>)
    ensures parcels == HeaderRun(Map(lines, Trim))
  {
    ghost var trimmed := Map(lines, Trim);
    ghost var after := AfterFirst(trimmed, IsHeader);
    var collecting := false;
    parcels := [];
    var i := 0;
    while i < |lines|
      invariant 0 <= i <= |lines|
      invariant !collecting ==> parcels == [] && after == AfterFirst(trimmed[i..], IsHeader)
      invariant collecting ==> TakeWhile(after, ContinuesRun) == parcels + TakeWhile(trimmed[i..], ContinuesRun)
    {
      var lineTrim := Trim(lines[i]);
      assert lineTrim == trimmed[i];
      if !collecting {
        HeaderStep(trimmed, i, after);
        if IsHeader(lineTrim) {
          collecting := true;
        }
      } else {
        RunStep(trimmed, i, after, parcels);
        if lineTrim == "" || lineTrim == "0" {
          break;
        }
        if IsParcelNumber(lineTrim) {
          parcels := parcels + [lineTrim];
        } else {
          break;
        }
      }
      i := i + 1;
    }
  }

  /** Before the header: a header line starts the run on the next line; any other
      line leaves the search going. */
  lemma HeaderStep(trimmed: seq<string>, i: nat, after: seq<string>)
    requires i < |trimmed| && after == AfterFirst(trimmed[i..], IsHeader)
    ensures IsHeader(trimmed[i]) ==> TakeWhile(after, ContinuesRun) == [] + TakeWhile(trimmed[i + 1..], ContinuesRun)
    ensures !IsHeader(trimmed[i]) ==> after == AfterFirst(trimmed[i + 1..], IsHeader)
  {
    AfterFirstStep(trimmed, i, IsHeader);
  }

  /** In the run: a line that continues it is collected; any other line ends it. */
  lemma RunStep(trimmed: seq<string>, i: nat, after: seq<string>, parcels: seq<string>)
    requires i < |trimmed|
    requires TakeWhile(after, ContinuesRun) == parcels + TakeWhile(trimmed[i..], ContinuesRun)
    ensures ContinuesRun(trimmed[i]) ==>
      TakeWhile(after, ContinuesRun) == (parcels + [trimmed[i]]) + TakeWhile(trimmed[i + 1..], ContinuesRun)
    ensures !ContinuesRun(trimmed[i]) ==> TakeWhile(after, ContinuesRun) == parcels
  {
    TakeWhileStep(trimmed, i, ContinuesRun);
    var rest := TakeWhile(trimmed[i + 1..], ContinuesRun);
    assert (parcels + [trimmed[i]]) + rest == parcels + ([trimmed[i]] + rest);
  }

  /** What HeaderRun holds: nothing without a header line; otherwise the run right
      after the first header, every element of which continues the run. */
  lemma HeaderRunShape(trimmed: seq<string>)
    ensures (forall i :: 0 <= i < |trimmed| ==> !IsHeader(trimmed[i])) ==> HeaderRun(trimmed) == []
    ensures forall h :: 0 <= h < |trimmed| && IsHeader(trimmed[h]) && NoHeaderBefore(trimmed, h) ==>
      HeaderRun(trimmed) == TakeWhile(trimmed[h + 1..], ContinuesRun)
    ensures forall k :: 0 <= k < |HeaderRun(trimmed)| ==> ContinuesRun(HeaderRun(trimmed)[k])
  {
    if forall i :: 0 <= i < |trimmed| ==> !IsHeader(trimmed[i]) {
      AfterFirstNoMarker(trimmed, IsHeader);
    }
    forall h | 0 <= h < |trimmed| && IsHeader(trimmed[h]) && NoHeaderBefore(trimmed, h)
      ensures HeaderRun(trimmed) == TakeWhile(trimmed[h + 1..], ContinuesRun)
    {
      AfterFirstMarker(trimmed, IsHeader, h);
    }
    TakeWhileMaximal(AfterFirst(trimmed, IsHeader), ContinuesRun);
  }

  ghost predicate NoHeaderBefore(trimmed: seq<string>, h: nat)
    requires h <= |trimmed|
  {
    forall i :: 0 <= i < h ==> !IsHeader(trimmed[i])
  }

  // ---------------------------------------------------------------------------
  // STDIN answers

  /** trim(fgets(STDIN)) for the n-th line the script reads; at end of input fgets
      returns false, which trims to "". */
  function Answer(stdin: seq<string>, n: nat): string
  {
    if n < |stdin| then Trim(stdin[n]) else ""
  }

  /** $answer === '' || strcasecmp($answer, 'y') === 0 */
  predicate IsYes(a: string) { a == "" || a == "y" || a == "Y" }

  /** strcasecmp($answer, 'n') === 0 */
  predicate IsNo(a: string) { a == "n" || a == "N" }

  /** An answer the go-ahead prompt does not accept, so it asks again. */
  predicate Undecided(stdin: seq<string>, n: nat)
  {
    var a := Answer(stdin, n);
    !IsYes(a) && !IsNo(a)
  }

  /** The "Do you want to proceed? [Y/n]" loop (bonita_calculator.php:149-161): asks
      again until an answer is yes or no. Returns whether to proceed and how many lines
      of input the loop read. */
  method AskProceed(stdin: seq<string>, from: nat) returns (proceed: bool, next: nat)
    ensures from < next <= from + |stdin| + 1
    ensures (proceed, next) == Prompt(stdin, from)
  {
    next := from;
    while true
      invariant from <= next <= from + |stdin| + 1
      invariant next <= |stdin| || next == from
      invariant Prompt(stdin, from) == Prompt(stdin, next)
      decreases |stdin| + 1 - next
    {
      var answer := Answer(stdin, next);
      next := next + 1;
      if IsYes(answer) {
        return true, next;
      } else if IsNo(answer) {
        return false, next;
      }
    }
  }

  /** Where the go-ahead loop started at input line n stops: whether the answer was
      yes, and the index of the line after it. Past the end of the input the answer is
      empty, which counts as yes. */
  function Prompt(stdin: seq<string>, n: nat): (r: (bool, nat))
    ensures n < r.1
    decreases |stdin| - n
  {
    if n >= |stdin| then (true, n + 1)
    else
      var a := Answer(stdin, n);
      if IsYes(a) then (true, n + 1)
      else if IsNo(a) then (false, n + 1)
      else Prompt(stdin, n + 1)
  }

  /** Prompt stops at the first yes or no, and its verdict is that answer. */
  lemma {:induction false} PromptAnswered(stdin: seq<string>, from: nat)
    ensures var r := Prompt(stdin, from);
      && AnsweredAt(stdin, from, r.1)
      && (r.0 <==> IsYes(Answer(stdin, r.1 - 1)))
      && (!r.0 <==> IsNo(Answer(stdin, r.1 - 1)))
    decreases |stdin| - from
  {
    if from < |stdin| && Undecided(stdin, from) {
      PromptAnswered(stdin, from + 1);
    }
  }

  /** The prompt first asked at input line `from` got its yes or no from line
      next - 1, after only undecided answers. */
  ghost predicate AnsweredAt(stdin: seq<string>, from: nat, next: nat)
  {
    from < next && (forall n :: from <= n < next - 1 ==> Undecided(stdin, n)) && !Undecided(stdin, next - 1)
  }

  /** The input decides where the prompt loop stops: there is one such line. */
  lemma AnsweredAtUnique(stdin: seq<string>, from: nat, n1: nat, n2: nat)
    requires AnsweredAt(stdin, from, n1) && AnsweredAt(stdin, from, n2)
    ensures n1 == n2
  {
  }

  // ---------------------------------------------------------------------------
  // The parcel list

  /** `$parcels` is either a list or a string with one parcel per line. */
  datatype ParcelSource = ParcelList(items: seq<string>) | ParcelText(text: string)

  predicate NonEmpty(s: string) { s != "" }

  /** The trimmed lines that are not empty, in order. */
  function NonEmptyTrimmed(lines: seq<string>): seq<string>
  {
    Filter(Map(lines, Trim), NonEmpty)
  }

  /** The string form of `$parcels` split into lines (bonita_calculator.php:173-183). */
  method SplitParcelList(text: string) returns (parcels: seq<string>)
    ensures parcels == NonEmptyTrimmed(Explode(text, '\n'))
  {
    var lines := Explode(text, '\n');
    var filtered: seq<string> := [];
    var i := 0;
    while i < |lines|
      invariant 0 <= i <= |lines|
      invariant filtered == NonEmptyTrimmed(lines[..i])
    {
      assert lines[..i + 1][..i] == lines[..i];
      var ts := Map(lines[..i + 1], Trim);
      assert ts[..i] == Map(lines[..i], Trim) && ts[i] == Trim(lines[i]);
      var line := Trim(lines[i]);
      if line != "" {
        filtered := filtered + [line];
      }
      i := i + 1;
    }
    assert lines[..i] == lines;
    parcels := filtered;
  }

  /** The cadastral area and parcels a run works on, or the operator's "n" at the
      go-ahead prompt (exit status 0). `next` counts the input lines read. */
  datatype Selection = Selected(ku: int, parcels: seq<string>, next: nat) | Declined(next: nat)

  /** PHP's empty() of the raw-extract variable: null, "" and "0". */
  predicate IsEmptyText(s: Option<string>)
  {
    s.None? || s.value == "" || s.value == "0"
  }

  /** The area code and parcels the raw extract yields when it is worth offering:
      `if ($knCode && $knParcels)` wants a non-zero code and at least one parcel. */
  function Detected(rawKN: Option<string>): Option<(int, seq<string>)>
  {
    if IsEmptyText(rawKN) then None
    else
      var parsed := KnDataOf(rawKN.value);
      if parsed.area.Some? && parsed.area.value.code != 0 && parsed.parcels != [] then
        Some((parsed.area.value.code, parsed.parcels))
      else None
  }

  /** bonita_calculator.php:133-183: the raw extract overrides the configured area code
      and parcels when it yields a non-zero code and at least one parcel and the
      operator agrees; a parcel list given as text is then split into lines. */
  method SelectParcels(rawKN: Option<string>, defaultKu: int, defaultParcels: ParcelSource,
                       stdin: seq<string>) returns (sel: Selection)
    ensures Detected(rawKN).None? ==> sel == Selected(defaultKu, SourceItems(defaultParcels), 0)
    ensures Detected(rawKN).Some? ==>
      && sel.next == Prompt(stdin, 0).1
      && (sel.Declined? <==> !Prompt(stdin, 0).0)
      && (sel.Selected? ==> sel.ku == Detected(rawKN).value.0 && sel.parcels == Detected(rawKN).value.1)
  {
    var ku := defaultKu;
    var source := defaultParcels;
    var next := 0;
    if !IsEmptyText(rawKN) {
      var parsed := ParseRawKNData(rawKN.value);
      if parsed.area.Some? && parsed.area.value.code != 0 && parsed.parcels != [] {
        assert Detected(rawKN) == Some((parsed.area.value.code, parsed.parcels));
        var proceed;
        proceed, next := AskProceed(stdin, 0);
        if !proceed {
          return Declined(next);
        }
        ku := parsed.area.value.code;
        source := ParcelList(parsed.parcels);
      } else {
        assert Detected(rawKN).None?;
      }
    }
    var parcels: seq<string>;
    match source {
      case ParcelList(items) => parcels := items;
      case ParcelText(text) => parcels := SplitParcelList(text);
    }
    sel := Selected(ku, parcels, next);
  }

  /** The parcels a configured source stands for. */
  function SourceItems(source: ParcelSource): seq<string>
  {
    match source
    case ParcelList(items) => items
    case ParcelText(text) => NonEmptyTrimmed(Explode(text, '\n'))
  }

  // ---------------------------------------------------------------------------
  // Parcel number -> cadastre query (bonita_calculator.php:278-298)

  /** explode('/', $s, 2) when `s` holds a "/": the text before the first "/" and the
      rest. */
  function SplitAtSlash(s: string): (r: (string, string))
    requires '/' in s
    ensures s == r.0 + "/" + r.1 && '/' !in r.0
  {
    if s[0] == '/' then ("", s[1..])
    else
      var (a, b) := SplitAtSlash(s[1..]);
      ([s[0]] + a, b)
  }

  /** A parcel's principal number and, when it was written with a "/", its subdivision. */
  datatype ParcelId = ParcelId(principal: int, subdivision: Option<int>)

  function ParseParcelId(parcel: string): (id: ParcelId)
    ensures id.subdivision.Some? <==> '/' in parcel
  {
    if '/' in parcel then
      var (a, b) := SplitAtSlash(parcel);
      ParcelId(IntCast(a), Some(IntCast(b)))
    else ParcelId(IntCast(parcel), None)
  }

  /** "N/M" gives N and M, "N" gives N and no subdivision. */
  lemma ParseParcelIdDigits(n: string, m: string)
    requires n != [] && AllDigits(n) && AllDigits(m)
    ensures ParseParcelId(n) == ParcelId(DigitsValue(n), None)
    ensures m != [] ==> ParseParcelId(n + "/" + m) == ParcelId(DigitsValue(n), Some(DigitsValue(m)))
  {
    IntCastDigits(n);
    assert forall k :: 0 <= k < |n| ==> n[k] != '/';
    if m != [] {
      var s := n + "/" + m;
      var (a, b) := SplitAtSlash(s);
      SplitUnique(n, m, a, b);
      IntCastDigits(m);
    }
  }

  lemma SplitUnique(n: string, m: string, a: string, b: string)
    requires '/' !in n && '/' !in a && n + "/" + m == a + "/" + b
    ensures a == n && b == m
  {
    var s := n + "/" + m;
    assert |a| == |n| by {
      assert forall k :: 0 <= k < |n| ==> s[k] == n[k] && s[k] != '/';
      assert forall k :: 0 <= k < |a| ==> s[k] == a[k] && s[k] != '/';
      assert s[|a|] == '/' && s[|n|] == '/';
    }
    assert a == s[..|a|] == n;
    assert b == s[|a| + 1..] == m;
  }

  /** The query parameters of the cadastre's parcel search. */
  datatype ParcelQuery = ParcelQuery(kodKatastralnihoUzemi: int, typParcely: string,
                                     druhCislovaniParcely: int, kmenoveCisloParcely: int,
                                     poddeleniCislaParcely: Option<int>)

  /** The query for one parcel: the subdivision is sent only when it is positive. */
  function QueryFor(ku: int, parcel: string): (q: ParcelQuery)
    ensures q.kodKatastralnihoUzemi == ku && q.typParcely == "PKN" && q.druhCislovaniParcely == 2
    ensures q.kmenoveCisloParcely == ParseParcelId(parcel).principal
    ensures q.poddeleniCislaParcely.Some? <==>
      ParseParcelId(parcel).subdivision.Some? && ParseParcelId(parcel).subdivision.value > 0
    ensures q.poddeleniCislaParcely.Some? ==> q.poddeleniCislaParcely == ParseParcelId(parcel).subdivision
  {
    var id := ParseParcelId(parcel);
    ParcelQuery(ku, "PKN", 2, id.principal,
                if id.subdivision.Some? && id.subdivision.value > 0 then id.subdivision else None)
  }
}
