/** The price phase (bonita_calculator.php:341-403): every BPEJ code gets its price from
    the local cache, or else from the code's page on the price website, fetched again
    until one attempt yields a price. */
module Pricing {
  import opened Options
  import opened Text
  import opened Numeric
  import opened Seqs

  /** The bold label on the line that holds the base land price. */
  const PriceMarker := "<b>Základní cena pozemků [Kč/m<sup>2</sup>]"
  const SpanOpen := "<span"
  const SpanClose := "</span>"

  /** Index of the first c in s, or |s| when there is none. */
  function IndexOf(s: string, c: char): (k: nat)
    ensures k <= |s| && (k < |s| ==> s[k] == c)
    ensures forall i :: 0 <= i < k ==> s[i] != c
  {
    if s == [] || s[0] == c then 0 else 1 + IndexOf(s[1..], c)
  }

  /** g is spelled by `[0-9]+(\.[0-9]+)?` from end to end. */
  predicate IsPriceLiteral(g: string)
  {
    var n := DigitRun(g);
    n > 0 && (n == |g| || (g[n] == '.' && n + 1 < |g| && AllDigits(g[n + 1..])))
  }

  /** The pattern /<span[^>]*>([0-9]+(\.[0-9]+)?)<\/span>/ at index p, with its `[^>]*`
      ending at a and the group capturing g. */
  ghost predicate SpanMatch(line: string, p: nat, a: nat, g: string)
  {
    && OccursAt(line, SpanOpen, p)
    && p + |SpanOpen| <= a < |line| && line[a] == '>'
    && (forall i :: p + |SpanOpen| <= i < a ==> line[i] != '>')
    && IsPriceLiteral(g)
    && OccursAt(line, g + SpanClose, a + 1)
  }

  /** The group the pattern captures when it matches at p. `[^>]*` cannot pass a '>',
      and a digit run can only be followed by '.' or '<', so there is no other way for
      it to match there. */
  function SpanAt(line: string, p: nat): Option<string>
    requires p <= |line|
  {
    if !OccursAt(line, SpanOpen, p) then None
    else
      var a := p + 5 + IndexOf(line[p + 5..], '>');
      if a == |line| then None else GroupAt(line[a + 1..])
  }

  /** `([0-9]+(\.[0-9]+)?)<\/span>` at the start of t: the captured group. */
  function GroupAt(t: string): Option<string>
  {
    var n1 := DigitRun(t);
    if n1 == 0 then None
    else if n1 < |t| && t[n1] == '.' && DigitRun(t[n1 + 1..]) > 0 then
      var f := n1 + 1 + DigitRun(t[n1 + 1..]);
      if OccursAt(t, SpanClose, f) then Some(t[..f]) else None
    else if OccursAt(t, SpanClose, n1) then Some(t[..n1])
    else None
  }

  /** t starts with the group g and the closing tag. */
  predicate GroupThenClose(t: string, g: string)
  {
    |g| + 7 <= |t| && t[..|g| + 7] == g + SpanClose
  }

  /** Where `[^>]*` ends for a match at p. */
  lemma AttrEnd(line: string, p: nat, a: nat)
    requires p + 5 <= a < |line| && line[a] == '>'
    requires forall i :: p + 5 <= i < a ==> line[i] != '>'
    ensures p + 5 + IndexOf(line[p + 5..], '>') == a
  {
    var s := line[p + 5..];
    assert s[a - p - 5] == '>';
  }

  /** The group and closing tag at a + 1, seen from the line or from its suffix. */
  lemma GroupThenCloseAt(line: string, a: nat, g: string)
    requires a < |line|
    ensures GroupThenClose(line[a + 1..], g) <==> OccursAt(line, g + SpanClose, a + 1)
  {
    if a + 1 + |g| + 7 <= |line| {
      assert line[a + 1..][..|g| + 7] == line[a + 1..a + 1 + |g| + 7];
    }
  }

  /** What SpanAt captures is a match. */
  lemma SpanAtSound(line: string, p: nat)
    requires p <= |line| && SpanAt(line, p).Some?
    ensures exists a: nat :: SpanMatch(line, p, a, SpanAt(line, p).value)
  {
    var a := p + 5 + IndexOf(line[p + 5..], '>');
    assert line[p + 5..][a - p - 5] == line[a];
    forall i | p + 5 <= i < a ensures line[i] != '>' {
      assert line[p + 5..][i - p - 5] == line[i];
    }
    GroupAtSound(line[a + 1..]);
    GroupThenCloseAt(line, a, SpanAt(line, p).value);
    assert SpanMatch(line, p, a, SpanAt(line, p).value);
  }

  lemma GroupAtSound(t: string)
    requires GroupAt(t).Some?
    ensures IsPriceLiteral(GroupAt(t).value) && GroupThenClose(t, GroupAt(t).value)
  {
    var n1 := DigitRun(t);
    var g := GroupAt(t).value;
    if n1 < |t| && t[n1] == '.' && DigitRun(t[n1 + 1..]) > 0 {
      var n2 := DigitRun(t[n1 + 1..]);
      var f := n1 + 1 + n2;
      assert g == t[..f];
      assert g[..n1] == t[..n1];
      DigitRunPrefix(g, n1);
      assert g[n1 + 1..] == t[n1 + 1..][..n2];
      assert t[..f + 7] == g + SpanClose;
    } else {
      assert g == t[..n1];
      DigitRunAll(g);
      assert t[..n1 + 7] == g + SpanClose;
    }
  }

  /** A match at p is what SpanAt captures. */
  lemma SpanAtComplete(line: string, p: nat, a: nat, g: string)
    requires p <= |line| && SpanMatch(line, p, a, g)
    ensures SpanAt(line, p) == Some(g)
  {
    AttrEnd(line, p, a);
    GroupThenCloseAt(line, a, g);
    GroupAtComplete(line[a + 1..], g);
  }

  lemma GroupAtComplete(t: string, g: string)
    requires IsPriceLiteral(g) && GroupThenClose(t, g)
    ensures GroupAt(t) == Some(g)
  {
    var n := DigitRun(g);
    GroupStart(t, g);
    if n < |g| {
      GroupFraction(t, g, n);
    }
  }

  /** The group's leading digits are the digit run of t, and the closing tag follows the
      group. */
  lemma GroupStart(t: string, g: string)
    requires IsPriceLiteral(g) && GroupThenClose(t, g)
    ensures DigitRun(t) == DigitRun(g) && t[DigitRun(g)] == (if DigitRun(g) == |g| then '<' else '.')
    ensures OccursAt(t, SpanClose, |g|) && t[..|g|] == g
  {
    var n := DigitRun(g);
    var w := g + SpanClose;
    assert AllDigits(t[..n]) && !IsDigit(t[n]) by {
      assert t[..n] == w[..n] == g[..n];
      assert t[n] == w[n];
    }
    DigitRunPrefix(t, n);
    assert t[n] == w[n];
    assert t[|g|..|g| + 7] == w[|g|..];
    assert t[..|g|] == w[..|g|];
  }

  /** The digits after the point run up to the closing tag. */
  lemma GroupFraction(t: string, g: string, n: nat)
    requires IsPriceLiteral(g) && n == DigitRun(g) < |g| && GroupThenClose(t, g)
    ensures DigitRun(t[n + 1..]) == |g| - n - 1
  {
    var u := t[n + 1..];
    var m := |g| - n - 1;
    forall i | 0 <= i < m ensures IsDigit(u[..m][i]) {
      assert u[..m][i] == t[..|g| + 7][n + 1 + i];
      assert g[n + 1..][i] == g[n + 1 + i];
    }
    assert u[m] == t[..|g| + 7][|g|];
    DigitRunPrefix(u, m);
  }

  /** SpanAt for any index; past the end nothing matches. */
  function SpanAtIndex(line: string, q: nat): Option<string>
  {
    if q <= |line| then SpanAt(line, q) else None
  }

  /** preg_match's leftmost match: the group captured at the first index where the
      pattern matches. */
  function SpanSearch(line: string): Option<string>
  {
    FirstFrom(0, |line|, q => SpanAtIndex(line, q))
  }

  /** SpanSearch is the capture at the first matching index, and None when no index
      matches. */
  lemma SpanSearchLeftmost(line: string)
    ensures SpanSearch(line).None? <==> forall q :: 0 <= q <= |line| ==> SpanAt(line, q).None?
    ensures SpanSearch(line).Some? ==>
      exists q :: 0 <= q <= |line| && SpanAt(line, q) == SpanSearch(line) &&
        forall r :: 0 <= r < q ==> SpanAt(line, r).None?
  {
    var f := (q: nat) => SpanAtIndex(line, q);
    FirstFromIsFirst(0, |line|, f);
    assert forall q :: 0 <= q <= |line| ==> f(q) == SpanAt(line, q);
  }

  /** floatval of a captured literal is exact: its digits without the point, scaled by
      the number of digits after the point. */
  lemma LiteralValue(g: string)
    requires IsPriceLiteral(g)
    ensures var n := DigitRun(g);
      var frac := if n == |g| then [] else g[n + 1..];
      AllDigits(g[..n] + frac) && FloatVal(g) == Decimal(DigitsValue(g[..n] + frac), |frac|)
    ensures IsNumeric(g) && NumericValue(g) == FloatVal(g)
  {
    var n := DigitRun(g);
    assert !IsSpace(g[0]) && g[0..] == g && g[0..][..n] == g[..n];
    if n == |g| {
      assert g[..n] + [] == g[..n];
      assert ScanUnsigned(g, 0) == Some((DigitsValue(g[..n]), 0, n));
    } else {
      var frac := g[n + 1..];
      DigitRunAll(frac);
      assert frac[..|frac|] == frac;
      assert ScanUnsigned(g, 0) == Some((DigitsValue(g[..n] + frac), |frac|, |g|));
    }
    assert ScanExponent(g, |g|) == None;
    assert g[|g|..] == [];
  }

  /** The price a page line gives: the line holds the marker, and the first span match
      on it is converted with floatval. */
  function LinePrice(line: string): Option<Decimal>
  {
    if !Contains(line, PriceMarker) then None
    else match SpanSearch(line)
      case None => None
      case Some(g) => Some(FloatVal(g))
  }

  /** The price one fetch attempt gives: None when the fetch failed or returned a false
      value ("" or "0"), else the first line of the page that yields one. */
  function AttemptPrice(html: Option<string>): Option<Decimal>
  {
    match html
    case None => None
    case Some(h) => if h == "" || h == "0" then None else FirstSome(Explode(h, '\n'), LinePrice)
  }

  /** The scan of a page's lines (bonita_calculator.php:380-390), stopping at the first
      line that yields a price. */
  method FindPrice(lines: seq<string>) returns (price: Option<Decimal>)
    ensures price == FirstSome(lines, LinePrice)
  {
    price := None;
    var i := 0;
    while i < |lines|
      invariant i <= |lines|
      invariant FirstSome(lines, LinePrice) == FirstSome(lines[i..], LinePrice)
    {
      assert lines[i..][1..] == lines[i + 1..];
      if Contains(lines[i], PriceMarker) {
        var g := SpanSearch(lines[i]);
        if g.Some? {
          price := Some(FloatVal(g.value));
          return;
        }
      }
      i := i + 1;
    }
  }

  /** The retry loop for one code (bonita_calculator.php:362-400), over the outcomes of
      its fetch attempts in order. The source retries without bound; when the given
      attempts run out without a price the result is None. */
  method ResolvePrice(attempts: seq<Option<string>>) returns (price: Option<Decimal>, tries: nat)
    ensures price == FirstSome(attempts, AttemptPrice)
    ensures tries <= |attempts|
    ensures price.Some? ==> 1 <= tries && price == AttemptPrice(attempts[tries - 1])
    ensures forall k :: 0 <= k < tries - 1 ==> AttemptPrice(attempts[k]).None?
    ensures price.None? ==> tries == |attempts|
  {
    tries := 0;
    price := None;
    while tries < |attempts|
      invariant tries <= |attempts|
      invariant forall k :: 0 <= k < tries ==> AttemptPrice(attempts[k]).None?
      invariant FirstSome(attempts, AttemptPrice) == FirstSome(attempts[tries..], AttemptPrice)
    {
      var html := attempts[tries];
      assert attempts[tries..][1..] == attempts[tries + 1..];
      tries := tries + 1;
      if html.None? || html.value == "" || html.value == "0" {
        continue;
      }
      var found := FindPrice(Explode(html.value, '\n'));
      if found.None? {
        continue;
      }
      price := found;
      return;
    }
  }

  /** The price of one code: the cached value when the cache is in use and holds the
      code, otherwise the first price the code's fetch attempts yield. */
  function CodePrice(code: string, useCache: bool, cache: map<string, Decimal>,
                     pages: string -> seq<Option<string>>): Option<Decimal>
  {
    if useCache && code in cache then Some(cache[code]) else FirstSome(pages(code), AttemptPrice)
  }

  /** `$bpejPrices` once every code has a price, or the first code whose attempts ran out
      without one. */
  datatype Prices = Priced(prices: map<string, Decimal>) | StillRetrying(code: string)

  /** The loop over the codes (bonita_calculator.php:347-403). The cache is only read. */
  method ResolvePrices(codes: seq<string>, useCache: bool, cache: map<string, Decimal>,
                       pages: string -> seq<Option<string>>) returns (r: Prices)
    ensures r.Priced? <==> forall k :: 0 <= k < |codes| ==> CodePrice(codes[k], useCache, cache, pages).Some?
    ensures r.Priced? ==> forall c :: c in r.prices <==> c in codes
    ensures r.Priced? ==> forall c :: c in r.prices ==> Some(r.prices[c]) == CodePrice(c, useCache, cache, pages)
    ensures r.StillRetrying? ==>
      (exists k :: 0 <= k < |codes| && r.code == codes[k] &&
        CodePrice(codes[k], useCache, cache, pages).None? &&
        forall j :: 0 <= j < k ==> CodePrice(codes[j], useCache, cache, pages).Some?)
  {
    var prices := map[];
    var i := 0;
    while i < |codes|
      invariant i <= |codes| && PricedUpTo(prices, codes, i, useCache, cache, pages)
    {
      var code := codes[i];
      if useCache && code in cache {
        PricedStep(prices, codes, i, cache[code], useCache, cache, pages);
        prices := prices[code := cache[code]];
        i := i + 1;
        continue;
      }
      var price, _ := ResolvePrice(pages(code));
      if price.None? {
        return StillRetrying(code);
      }
      PricedStep(prices, codes, i, price.value, useCache, cache, pages);
      prices := prices[code := price.value];
      i := i + 1;
    }
    assert codes[..i] == codes;
    return Priced(prices);
  }

  /** `$bpejPrices` after the first i codes: each of them has a price, and the map holds
      exactly those codes with their prices. */
  ghost predicate PricedUpTo(prices: map<string, Decimal>, codes: seq<string>, i: nat, useCache: bool,
                             cache: map<string, Decimal>, pages: string -> seq<Option<string>>)
    requires i <= |codes|
  {
    && (forall j :: 0 <= j < i ==> CodePrice(codes[j], useCache, cache, pages).Some?)
    && (forall c :: c in prices <==> c in codes[..i])
    && (forall c :: c in prices ==> Some(prices[c]) == CodePrice(c, useCache, cache, pages))
  }

  lemma PricedStep(prices: map<string, Decimal>, codes: seq<string>, i: nat, v: Decimal, useCache: bool,
                   cache: map<string, Decimal>, pages: string -> seq<Option<string>>)
    requires i < |codes| && PricedUpTo(prices, codes, i, useCache, cache, pages)
    requires CodePrice(codes[i], useCache, cache, pages) == Some(v)
    ensures PricedUpTo(prices[codes[i] := v], codes, i + 1, useCache, cache, pages)
  {
    assert codes[..i + 1] == codes[..i] + [codes[i]];
  }

  /** A cached code is priced from the cache whatever its pages would say. */
  lemma CachedPriceWins(code: string, cache: map<string, Decimal>,
                        pages: string -> seq<Option<string>>, pages': string -> seq<Option<string>>)
    requires code in cache
    ensures CodePrice(code, true, cache, pages) == CodePrice(code, true, cache, pages') == Some(cache[code])
  {
  }
}
