/** Generic list operations the scripts' loops are specified by: the first element a
    partial function accepts, the run of elements a predicate accepts, the elements
    after the first marker, a map and a filter. */
module Seqs {
  import opened Options

  /** f applied to each element, in order. */
  function Map<T, U>(xs: seq<T>, f: T -> U): (ys: seq<U>)
    ensures |ys| == |xs| && forall k :: 0 <= k < |xs| ==> ys[k] == f(xs[k])
  {
    if xs == [] then [] else Map(xs[..|xs| - 1], f) + [f(xs[|xs| - 1])]
  }

  /** The elements p keeps, in order. */
  function Filter<T>(xs: seq<T>, p: T -> bool): (ys: seq<T>)
    ensures |ys| <= |xs|
  {
    if xs == [] then []
    else if p(xs[|xs| - 1]) then Filter(xs[..|xs| - 1], p) + [xs[|xs| - 1]]
    else Filter(xs[..|xs| - 1], p)
  }

  /** Filter keeps exactly the elements p accepts. */
  lemma {:induction false} FilterMembers<T>(xs: seq<T>, p: T -> bool)
    ensures forall x :: x in Filter(xs, p) <==> x in xs && p(x)
  {
    if xs != [] {
      var init := xs[..|xs| - 1];
      FilterMembers(init, p);
      assert xs == init + [xs[|xs| - 1]];
    }
  }

  /** The value f gives the first element it accepts. */
  function FirstSome<T, U>(xs: seq<T>, f: T -> Option<U>): Option<U>
  {
    if xs == [] then None
    else if f(xs[0]).Some? then f(xs[0])
    else FirstSome(xs[1..], f)
  }

  /** FirstSome is the value of the first accepted element, and None only when f
      accepts no element. */
  lemma {:induction false} FirstSomeIsFirst<T, U>(xs: seq<T>, f: T -> Option<U>)
    ensures FirstSome(xs, f).None? <==> forall i :: 0 <= i < |xs| ==> f(xs[i]).None?
    ensures FirstSome(xs, f).Some? ==>
      exists i :: 0 <= i < |xs| && FirstSome(xs, f) == f(xs[i]) && forall j :: 0 <= j < i ==> f(xs[j]).None?
  {
    if xs != [] && f(xs[0]).None? {
      var rest := xs[1..];
      FirstSomeIsFirst(rest, f);
      assert forall i :: 1 <= i < |xs| ==> xs[i] == rest[i - 1];
      if FirstSome(rest, f).Some? {
        var i :| 0 <= i < |rest| && FirstSome(rest, f) == f(rest[i]) && forall j :: 0 <= j < i ==> f(rest[j]).None?;
        assert FirstSome(xs, f) == f(xs[i + 1]);
        assert forall j :: 0 <= j < i + 1 ==> f(xs[j]).None? by {
          forall j | 0 <= j < i + 1 ensures f(xs[j]).None? {
            if j > 0 { assert xs[j] == rest[j - 1]; }
          }
        }
      }
    } else if xs != [] {
      assert FirstSome(xs, f) == f(xs[0]);
    }
  }

  /** The value f gives the first index from lo to hi (both included) it accepts. */
  function FirstFrom<U>(lo: nat, hi: nat, f: nat -> Option<U>): Option<U>
    decreases hi - lo
  {
    if f(lo).Some? then f(lo) else if lo >= hi then None else FirstFrom(lo + 1, hi, f)
  }

  /** FirstFrom is the value at the first accepted index, and None only when f accepts
      no index in the range. */
  lemma {:induction false} FirstFromIsFirst<U>(lo: nat, hi: nat, f: nat -> Option<U>)
    requires lo <= hi
    ensures FirstFrom(lo, hi, f).None? <==> forall q :: lo <= q <= hi ==> f(q).None?
    ensures FirstFrom(lo, hi, f).Some? ==>
      exists q :: lo <= q <= hi && f(q) == FirstFrom(lo, hi, f) && forall r :: lo <= r < q ==> f(r).None?
    decreases hi - lo
  {
    if f(lo).None? && lo < hi {
      FirstFromIsFirst(lo + 1, hi, f);
      if FirstFrom(lo + 1, hi, f).Some? {
        var q :| lo + 1 <= q <= hi && f(q) == FirstFrom(lo + 1, hi, f) && forall r :: lo + 1 <= r < q ==> f(r).None?;
        assert forall r :: lo <= r < q ==> f(r).None?;
      }
    }
  }

  /** The longest prefix whose elements p accepts. */
  function TakeWhile<T>(xs: seq<T>, p: T -> bool): (run: seq<T>)
    ensures |run| <= |xs|
  {
    if xs == [] || !p(xs[0]) then [] else [xs[0]] + TakeWhile(xs[1..], p)
  }

  /** TakeWhile is a prefix, p accepts all of it, and it stops at the first element p
      rejects. */
  lemma {:induction false} TakeWhileMaximal<T>(xs: seq<T>, p: T -> bool)
    ensures TakeWhile(xs, p) == xs[..|TakeWhile(xs, p)|]
    ensures forall k :: 0 <= k < |TakeWhile(xs, p)| ==> p(xs[k])
    ensures |TakeWhile(xs, p)| == |xs| || !p(xs[|TakeWhile(xs, p)|])
  {
    if xs != [] && p(xs[0]) {
      var rest := xs[1..];
      TakeWhileMaximal(rest, p);
      var n := |TakeWhile(rest, p)|;
      assert forall k :: 1 <= k < n + 1 ==> xs[k] == rest[k - 1];
    }
  }

  /** The elements after the first one `marker` accepts; none when there is no such
      element. */
  function AfterFirst<T>(xs: seq<T>, marker: T -> bool): (r: seq<T>)
    ensures |r| < |xs| || r == []
  {
    if xs == [] then []
    else if marker(xs[0]) then xs[1..]
    else AfterFirst(xs[1..], marker)
  }

  /** Without a marker AfterFirst is empty; with one, it is everything after the first. */
  lemma {:induction false} AfterFirstMarker<T>(xs: seq<T>, marker: T -> bool, h: nat)
    requires h < |xs| && marker(xs[h]) && forall i :: 0 <= i < h ==> !marker(xs[i])
    ensures AfterFirst(xs, marker) == xs[h + 1..]
  {
    if h > 0 {
      assert !marker(xs[0]);
      AfterFirstMarker(xs[1..], marker, h - 1);
      assert xs[1..][h..] == xs[h + 1..];
    }
  }

  lemma {:induction false} AfterFirstNoMarker<T>(xs: seq<T>, marker: T -> bool)
    requires forall i :: 0 <= i < |xs| ==> !marker(xs[i])
    ensures AfterFirst(xs, marker) == []
  {
    if xs != [] {
      AfterFirstNoMarker(xs[1..], marker);
    }
  }

  /** AfterFirst from index i, one element at a time. */
  lemma AfterFirstStep<T>(xs: seq<T>, i: nat, marker: T -> bool)
    requires i < |xs|
    ensures AfterFirst(xs[i..], marker) == if marker(xs[i]) then xs[i + 1..] else AfterFirst(xs[i + 1..], marker)
  {
    assert xs[i..][0] == xs[i] && xs[i..][1..] == xs[i + 1..];
  }

  /** TakeWhile from index i, one element at a time. */
  lemma TakeWhileStep<T>(xs: seq<T>, i: nat, p: T -> bool)
    requires i < |xs|
    ensures TakeWhile(xs[i..], p) == if p(xs[i]) then [xs[i]] + TakeWhile(xs[i + 1..], p) else []
  {
    assert xs[i..][0] == xs[i] && xs[i..][1..] == xs[i + 1..];
  }

  /** A prefix grown by one element, after a fixed front part. */
  lemma AppendTake<T>(front: seq<T>, xs: seq<T>, j: nat)
    requires j < |xs|
    ensures (front + xs[..j]) + [xs[j]] == front + xs[..j + 1]
  {
    assert xs[..j + 1] == xs[..j] + [xs[j]];
  }

  lemma AppendAll<T>(front: seq<T>, xs: seq<T>)
    ensures front + xs[..|xs|] == front + xs
  {
    assert xs[..|xs|] == xs;
  }

  /** Map distributes over appending one element. */
  lemma MapAppend<T, U>(xs: seq<T>, x: T, f: T -> U)
    ensures Map(xs + [x], f) == Map(xs, f) + [f(x)]
  {
    assert (xs + [x])[..|xs|] == xs;
  }

  /** The distinct elements in the order of their first occurrence (PHP's array_unique,
      and the key order of an array that new keys are appended to). */
  function Dedup<T(==)>(xs: seq<T>): (ys: seq<T>)
    ensures |ys| <= |xs|
  {
    if xs == [] then []
    else
      var d := Dedup(xs[..|xs| - 1]);
      if xs[|xs| - 1] in d then d else d + [xs[|xs| - 1]]
  }

  lemma DedupAppend<T>(xs: seq<T>, x: T)
    ensures Dedup(xs + [x]) == if x in Dedup(xs) then Dedup(xs) else Dedup(xs) + [x]
  {
    assert (xs + [x])[..|xs|] == xs;
  }

  /** Dedup keeps every element once: the same elements, no repetitions. */
  lemma {:induction false} DedupMembers<T>(xs: seq<T>)
    ensures forall x :: x in Dedup(xs) <==> x in xs
    ensures forall i, j :: 0 <= i < j < |Dedup(xs)| ==> Dedup(xs)[i] != Dedup(xs)[j]
  {
    if xs != [] {
      var init := xs[..|xs| - 1];
      DedupMembers(init);
      assert xs == init + [xs[|xs| - 1]];
    }
  }

  lemma DedupMember<T>(xs: seq<T>, i: nat)
    requires i < |Dedup(xs)|
    ensures Dedup(xs)[i] in xs
  {
    DedupMembers(xs);
    assert Dedup(xs)[i] in Dedup(xs);
  }

  /** Index of the first occurrence of x. */
  function FirstIndex<T(==)>(xs: seq<T>, x: T): (k: nat)
    requires x in xs
    ensures k < |xs| && xs[k] == x && forall j :: 0 <= j < k ==> xs[j] != x
  {
    if xs[0] == x then 0 else 1 + FirstIndex(xs[1..], x)
  }

  lemma FirstIndexAppend<T>(xs: seq<T>, x: T, y: T)
    requires y in xs
    ensures FirstIndex(xs + [x], y) == FirstIndex(xs, y)
  {
    var k := FirstIndex(xs, y);
    var zs := xs + [x];
    assert zs[k] == y;
    var k' := FirstIndex(zs, y);
    assert xs[k'] == y || k' >= |xs|;
  }

  /** Dedup lists the elements in the order in which they first occur. */
  lemma {:induction false} DedupOrder<T>(xs: seq<T>, i: nat, j: nat)
    requires i < j < |Dedup(xs)|
    ensures Dedup(xs)[i] in xs && Dedup(xs)[j] in xs
    ensures FirstIndex(xs, Dedup(xs)[i]) < FirstIndex(xs, Dedup(xs)[j])
  {
    var init := xs[..|xs| - 1];
    var x := xs[|xs| - 1];
    assert xs == init + [x];
    DedupAppend(init, x);
    var d := Dedup(init);
    assert i < |d| && Dedup(xs)[i] == d[i];
    DedupMember(init, i);
    FirstIndexAppend(init, x, d[i]);
    if j < |d| {
      assert Dedup(xs)[j] == d[j];
      DedupMember(init, j);
      FirstIndexAppend(init, x, d[j]);
      DedupOrder(init, i, j);
    } else {
      assert Dedup(xs)[j] == x && x !in d;
      DedupMembers(init);
      assert x !in init;
      assert FirstIndex(xs, x) == |init|;
    }
  }
}
