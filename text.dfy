/** The optional value used across the model for PHP's null. */
module Options {
  datatype Option<+T> = None | Some(value: T)
  {
    /** The `??` operator: the value, or the default when absent. */
    function GetOr(default: T): T
    {
      match this
      case Some(v) => v
      case None => default
    }
  }
}

/** String routines of the PHP runtime that the calculator relies on: trim(), explode(),
    the line-break split of preg_split('/\r\n|\r|\n/'), substring search (strpos and the
    ASCII case-insensitive stripos) and decimal digit strings. */
module Text {

  predicate IsDigit(c: char) { '0' <= c <= '9' }

  predicate AllDigits(s: string) { forall i :: 0 <= i < |s| ==> IsDigit(s[i]) }

  /** The characters PHP's trim() strips by default: " \t\n\r\0\x0B". */
  predicate IsTrimChar(c: char)
  {
    c == ' ' || c == '\t' || c == '\n' || c == '\r' || c == '\0' || c == '\U{0B}'
  }

  /** The characters PCRE's \s matches without the u modifier, which are also the
      whitespace a PHP numeric string may carry: space, \t, \n, \x0B, \f, \r. */
  predicate IsSpace(c: char)
  {
    c == ' ' || c == '\t' || c == '\n' || c == '\U{0B}' || c == '\U{0C}' || c == '\r'
  }

  /** The characters \s matches under the u modifier, with which PHP puts PCRE in
      Unicode mode: PCRE's horizontal and vertical space characters (the ASCII ones,
      next line U+0085, no-break space U+00A0, U+1680, U+180E, U+2000 to U+200A, the
      line and paragraph separators U+2028 and U+2029, U+202F, U+205F, U+3000), which
      take in every character of Unicode's separator category Z. */
  predicate IsUnicodeSpace(c: char)
  {
    || IsSpace(c) || c == '\U{0085}' || c == '\U{00A0}' || c == '\U{1680}' || c == '\U{180E}'
    || ('\U{2000}' <= c <= '\U{200A}') || c == '\U{2028}' || c == '\U{2029}'
    || c == '\U{202F}' || c == '\U{205F}' || c == '\U{3000}'
  }

  function TrimLeft(s: string): (r: string)
    ensures |r| <= |s|
  {
    if s != [] && IsTrimChar(s[0]) then TrimLeft(s[1..]) else s
  }

  function TrimRight(s: string): (r: string)
    ensures |r| <= |s|
  {
    if s != [] && IsTrimChar(s[|s| - 1]) then TrimRight(s[..|s| - 1]) else s
  }

  /** TrimLeft removes a prefix of trim characters and stops at the first other one. */
  lemma {:induction false} TrimLeftShape(s: string)
    ensures TrimLeft(s) == s[|s| - |TrimLeft(s)|..]
    ensures forall i :: 0 <= i < |s| - |TrimLeft(s)| ==> IsTrimChar(s[i])
    ensures TrimLeft(s) == [] || !IsTrimChar(TrimLeft(s)[0])
  {
    if s != [] && IsTrimChar(s[0]) {
      TrimLeftShape(s[1..]);
      assert forall i :: 1 <= i < |s| ==> s[i] == s[1..][i - 1];
    }
  }

  /** TrimRight removes a suffix of trim characters and stops at the last other one. */
  lemma {:induction false} TrimRightShape(s: string)
    ensures TrimRight(s) == s[..|TrimRight(s)|]
    ensures forall i :: |TrimRight(s)| <= i < |s| ==> IsTrimChar(s[i])
    ensures TrimRight(s) == [] || !IsTrimChar(TrimRight(s)[|TrimRight(s)| - 1])
  {
    if s != [] && IsTrimChar(s[|s| - 1]) {
      TrimRightShape(s[..|s| - 1]);
    }
  }

  /** PHP trim(): what is left after removing the trim characters at both ends. */
  function Trim(s: string): (r: string)
    ensures |r| <= |s|
  {
    TrimRight(TrimLeft(s))
  }

  /** The result of trim() neither starts nor ends with a trim character. */
  lemma TrimEdges(s: string)
    ensures Trim(s) == [] || (!IsTrimChar(Trim(s)[0]) && !IsTrimChar(Trim(s)[|Trim(s)| - 1]))
  {
    var l := TrimLeft(s);
    TrimLeftShape(s);
    TrimRightShape(l);
    if Trim(s) != [] {
      assert Trim(s)[0] == l[0];
    }
  }

  /** trim() keeps a contiguous middle part of its input and removes only trim
      characters around it. */
  lemma TrimMiddle(s: string)
    ensures exists i, j ::
      && 0 <= i <= j <= |s| && Trim(s) == s[i..j]
      && (forall k :: 0 <= k < i ==> IsTrimChar(s[k]))
      && (forall k :: j <= k < |s| ==> IsTrimChar(s[k]))
  {
    var l := TrimLeft(s);
    var r := TrimRight(l);
    TrimLeftShape(s);
    TrimRightShape(l);
    var i := |s| - |l|;
    var j := i + |r|;
    assert r == s[i..j];
    assert forall k :: j <= k < |s| ==> s[k] == l[k - i];
    assert forall k :: j <= k < |s| ==> IsTrimChar(s[k]);
  }

  lemma TrimLeftNoop(s: string)
    requires s == [] || !IsTrimChar(s[0])
    ensures TrimLeft(s) == s
  {
  }

  lemma {:induction false} TrimRightNoop(s: string)
    requires s == [] || !IsTrimChar(s[|s| - 1])
    ensures TrimRight(s) == s
  {
  }

  /** Trimming twice is trimming once. */
  lemma TrimIdempotent(s: string)
    ensures Trim(Trim(s)) == Trim(s)
  {
    var t := Trim(s);
    TrimEdges(s);
    TrimLeftNoop(t);
    TrimRightNoop(t);
  }

  function StartsWith(s: string, prefix: string): bool
  {
    |prefix| <= |s| && s[..|prefix|] == prefix
  }

  /** `sub` occurs in `s` starting at index i. */
  predicate OccursAt(s: string, sub: string, i: int)
  {
    0 <= i <= |s| - |sub| && s[i..i + |sub|] == sub
  }

  /** strpos($s, $sub) !== false */
  function Contains(s: string, sub: string): bool
    decreases |s|
  {
    StartsWith(s, sub) || (s != [] && Contains(s[1..], sub))
  }

  /** Contains holds exactly when `sub` occurs at some index of `s`. */
  lemma {:induction false} ContainsOccurs(s: string, sub: string)
    ensures Contains(s, sub) <==> exists i :: OccursAt(s, sub, i)
    decreases |s|
  {
    if StartsWith(s, sub) {
      assert OccursAt(s, sub, 0);
    } else if s != [] {
      ContainsOccurs(s[1..], sub);
      assert forall i :: OccursAt(s[1..], sub, i) ==> OccursAt(s, sub, i + 1);
      assert forall i :: OccursAt(s, sub, i) && i >= 1 ==> OccursAt(s[1..], sub, i - 1);
      assert !OccursAt(s, sub, 0);
    } else {
      assert forall i :: !OccursAt(s, sub, i);
    }
  }

  /** ASCII lower-casing, as PHP's stripos folds case (bytes outside A-Z are kept). */
  function LowerAscii(c: char): char
  {
    if 'A' <= c <= 'Z' then (c as int + 32) as char else c
  }

  function LowerAll(s: string): (r: string)
    ensures |r| == |s|
  {
    if s == [] then [] else [LowerAscii(s[0])] + LowerAll(s[1..])
  }

  lemma {:induction false} LowerAllPointwise(s: string)
    ensures forall i :: 0 <= i < |s| ==> LowerAll(s)[i] == LowerAscii(s[i])
  {
    if s != [] {
      LowerAllPointwise(s[1..]);
    }
  }

  /** explode($sep, $s): the pieces between separators, in order. */
  function Explode(s: string, sep: char): (parts: seq<string>)
    ensures |parts| >= 1
    ensures forall p :: p in parts ==> sep !in p
  {
    if s == [] then [""]
    else if s[0] == sep then [""] + Explode(s[1..], sep)
    else
      var rest := Explode(s[1..], sep);
      [[s[0]] + rest[0]] + rest[1..]
  }

  /** implode($sep, $parts) */
  function Join(parts: seq<string>, sep: string): string
  {
    if parts == [] then ""
    else if |parts| == 1 then parts[0]
    else parts[0] + sep + Join(parts[1..], sep)
  }

  /** explode loses nothing: gluing the pieces back gives the input. */
  lemma {:induction false} JoinExplode(s: string, sep: char)
    ensures Join(Explode(s, sep), [sep]) == s
  {
    if s == [] {
    } else if s[0] == sep {
      JoinExplode(s[1..], sep);
      assert s == [sep] + s[1..];
    } else {
      var rest := Explode(s[1..], sep);
      JoinExplode(s[1..], sep);
      if |rest| == 1 {
        assert s == [s[0]] + s[1..];
      } else {
        assert Join(rest, [sep]) == rest[0] + [sep] + Join(rest[1..], [sep]);
        assert s == [s[0]] + rest[0] + [sep] + Join(rest[1..], [sep]);
      }
    }
  }

  /** implode loses nothing either: exploding the glued pieces gives them back, as long
      as no piece holds the separator. */
  lemma {:induction false} ExplodeJoin(parts: seq<string>, sep: char)
    requires parts != [] && forall p :: p in parts ==> sep !in p
    ensures Explode(Join(parts, [sep]), sep) == parts
  {
    if |parts| == 1 {
      ExplodeNoSep(parts[0], sep);
    } else {
      assert parts[0] in parts;
      ExplodeJoin(parts[1..], sep);
      ExplodeConcat(parts[0], Join(parts[1..], [sep]), sep);
      assert parts == [parts[0]] + parts[1..];
    }
  }

  lemma {:induction false} ExplodeNoSep(p: string, sep: char)
    requires sep !in p
    ensures Explode(p, sep) == [p]
  {
    if p != [] {
      ExplodeNoSep(p[1..], sep);
      assert p == [p[0]] + p[1..];
    }
  }

  lemma {:induction false} ExplodeConcat(p: string, rest: string, sep: char)
    requires sep !in p
    ensures Explode(p + [sep] + rest, sep) == [p] + Explode(rest, sep)
  {
    var s := p + [sep] + rest;
    if p == [] {
      assert s == [sep] + rest && s[1..] == rest;
    } else {
      assert s[1..] == p[1..] + [sep] + rest;
      ExplodeConcat(p[1..], rest, sep);
      assert p == [p[0]] + p[1..];
    }
  }

  predicate IsBreak(c: char) { c == '\r' || c == '\n' }

  /** preg_split('/\r\n|\r|\n/', $s): "\r\n", a lone "\r" and a lone "\n" each end a line;
      the alternation tries "\r\n" first. */
  function SplitLines(s: string): (lines: seq<string>)
    ensures |lines| >= 1
    ensures forall l :: l in lines ==> forall i :: 0 <= i < |l| ==> !IsBreak(l[i])
  {
    if s == [] then [""]
    else if s[0] == '\n' then [""] + SplitLines(s[1..])
    else if s[0] == '\r' then
      if |s| > 1 && s[1] == '\n' then [""] + SplitLines(s[2..]) else [""] + SplitLines(s[1..])
    else
      var rest := SplitLines(s[1..]);
      [[s[0]] + rest[0]] + rest[1..]
  }

  /** Every line break written as a single "\n". */
  function UnixBreaks(s: string): string
  {
    if s == [] then []
    else if s[0] == '\r' && |s| > 1 && s[1] == '\n' then "\n" + UnixBreaks(s[2..])
    else if s[0] == '\r' then "\n" + UnixBreaks(s[1..])
    else [s[0]] + UnixBreaks(s[1..])
  }

  /** The line split loses nothing but the kind of line break. */
  lemma {:induction false} JoinSplitLines(s: string)
    ensures Join(SplitLines(s), "\n") == UnixBreaks(s)
  {
    if s == [] {
    } else if IsBreak(s[0]) {
      var k := if s[0] == '\r' && |s| > 1 && s[1] == '\n' then 2 else 1;
      JoinSplitLines(s[k..]);
      JoinAfterEmpty(SplitLines(s[k..]));
    } else {
      JoinSplitLines(s[1..]);
      JoinExtendFirst(s[0], SplitLines(s[1..]));
    }
  }

  lemma JoinAfterEmpty(rest: seq<string>)
    requires |rest| >= 1
    ensures Join([""] + rest, "\n") == "\n" + Join(rest, "\n")
  {
    var lines := [""] + rest;
    assert lines[0] == "" && lines[1..] == rest;
    assert Join(lines, "\n") == lines[0] + "\n" + Join(lines[1..], "\n");
  }

  lemma JoinExtendFirst(c: char, rest: seq<string>)
    requires |rest| >= 1
    ensures Join([[c] + rest[0]] + rest[1..], "\n") == [c] + Join(rest, "\n")
  {
    var lines := [[c] + rest[0]] + rest[1..];
    if |rest| > 1 {
      assert lines[1..] == rest[1..];
    }
  }

  /** Value of a string of decimal digits. */
  function DigitsValue(s: string): nat
    requires AllDigits(s)
  {
    if s == [] then 0 else DigitsValue(s[..|s| - 1]) * 10 + (s[|s| - 1] as int - '0' as int)
  }

  function Pow10(n: nat): (p: nat)
    ensures p >= 1
  {
    if n == 0 then 1 else 10 * Pow10(n - 1)
  }

  /** The first digit counts its place value: 10^(|s|-1) times itself. */
  lemma {:induction false} DigitsValueFront(s: string)
    requires s != [] && AllDigits(s)
    ensures DigitsValue(s) == (s[0] as int - '0' as int) * Pow10(|s| - 1) + DigitsValue(s[1..])
  {
    if |s| > 1 {
      var init := s[..|s| - 1];
      var tail := s[1..];
      DigitsValueFront(init);
      assert init[1..] == tail[..|tail| - 1];
      assert tail[|tail| - 1] == s[|s| - 1];
      var d := s[0] as int - '0' as int;
      var last := s[|s| - 1] as int - '0' as int;
      var p := Pow10(|s| - 2);
      var rest := DigitsValue(init[1..]);
      assert DigitsValue(s) == (d * p + rest) * 10 + last;
      assert DigitsValue(tail) == rest * 10 + last;
      PlaceShift(d, p, rest, last);
    } else {
      assert s[..0] == [] && s[1..] == [];
    }
  }

  lemma PlaceShift(d: int, p: int, rest: int, last: int)
    ensures (d * p + rest) * 10 + last == d * (10 * p) + (rest * 10 + last)
  {
  }

  /** A digit string of length n is below 10^n. */
  lemma {:induction false} DigitsValueBound(s: string)
    requires AllDigits(s)
    ensures DigitsValue(s) < Pow10(|s|)
  {
    if s != [] {
      DigitsValueBound(s[..|s| - 1]);
    }
  }

  /** Decimal text of a natural number, as PHP's int-to-string conversion writes it. */
  function NatText(n: nat): (s: string)
    ensures |s| >= 1 && AllDigits(s)
    ensures n == 0 <==> s == "0"
    ensures s[0] != '0' || s == "0"
  {
    if n < 10 then [('0' as int + n) as char] else NatText(n / 10) + [('0' as int + n % 10) as char]
  }

  /** NatText round-trips through DigitsValue. */
  lemma {:induction false} DigitsValueNatText(n: nat)
    ensures DigitsValue(NatText(n)) == n
  {
    if n >= 10 {
      var s := NatText(n);
      assert s[..|s| - 1] == NatText(n / 10);
      DigitsValueNatText(n / 10);
    }
  }

  /** Length of the run of digits at the start of `s`. */
  function DigitRun(s: string): (n: nat)
    ensures n <= |s| && AllDigits(s[..n]) && (n == |s| || !IsDigit(s[n]))
  {
    if s != [] && IsDigit(s[0]) then
      var k := DigitRun(s[1..]);
      assert s[..k + 1] == [s[0]] + s[1..][..k];
      k + 1
    else 0
  }

  /** Length of the run of \s characters at the start of `s`. */
  function SpaceRun(s: string): (n: nat)
    ensures n <= |s| && (forall i :: 0 <= i < n ==> IsSpace(s[i])) && (n == |s| || !IsSpace(s[n]))
  {
    if s != [] && IsSpace(s[0]) then SpaceRun(s[1..]) + 1 else 0
  }

  lemma DigitRunAll(s: string)
    requires AllDigits(s)
    ensures DigitRun(s) == |s|
  {
  }

  /** A digit run ends at the first character that is not a digit. */
  lemma DigitRunPrefix(t: string, k: nat)
    requires k < |t| && AllDigits(t[..k]) && !IsDigit(t[k])
    ensures DigitRun(t) == k
  {
    if k > 0 {
      assert t[1..][..k - 1] == t[..k][1..];
      DigitRunPrefix(t[1..], k - 1);
    }
  }
}
