/**
 Facts about sequences, sums, extrema and modular indices that several components share.
 Folds run from the end of the sequence, because every component appends at the end.
 */
module Sequences {

  datatype Option<+T> = None | Some(value: T)

  /** The last `n` elements of `s`, or all of `s` when it is shorter. */
  function LastN<T>(s: seq<T>, n: nat): (r: seq<T>)
    ensures |r| == if |s| < n then |s| else n
    ensures s[|s| - |r|..] == r
  {
    if |s| <= n then s else s[|s| - n..]
  }

  predicate NoDuplicates<T(==)>(s: seq<T>) {
    forall i, j :: 0 <= i < j < |s| ==> s[i] != s[j]
  }

  function Sum(s: seq<real>): real {
    if s == [] then 0.0 else Sum(s[..|s| - 1]) + s[|s| - 1]
  }

  function SumNat(s: seq<nat>): nat {
    if s == [] then 0 else SumNat(s[..|s| - 1]) + s[|s| - 1]
  }

  function CountTrue(s: seq<bool>): nat {
    if s == [] then 0 else CountTrue(s[..|s| - 1]) + if s[|s| - 1] then 1 else 0
  }

  function Min(s: seq<real>): real
    requires s != []
  {
    if |s| == 1 then s[0]
    else var m := Min(s[..|s| - 1]); if s[|s| - 1] < m then s[|s| - 1] else m
  }

  function Max(s: seq<real>): real
    requires s != []
  {
    if |s| == 1 then s[0]
    else var m := Max(s[..|s| - 1]); if s[|s| - 1] > m then s[|s| - 1] else m
  }

  function MinNat(s: seq<nat>): nat
    requires s != []
  {
    if |s| == 1 then s[0]
    else var m := MinNat(s[..|s| - 1]); if s[|s| - 1] < m then s[|s| - 1] else m
  }

  function MaxNat(s: seq<nat>): nat
    requires s != []
  {
    if |s| == 1 then s[0]
    else var m := MaxNat(s[..|s| - 1]); if s[|s| - 1] > m then s[|s| - 1] else m
  }

  lemma SumSnoc(s: seq<real>, x: real)
    ensures Sum(s + [x]) == Sum(s) + x
  {
    assert (s + [x])[..|s|] == s;
  }

  lemma SumNatSnoc(s: seq<nat>, x: nat)
    ensures SumNat(s + [x]) == SumNat(s) + x
  {
    assert (s + [x])[..|s|] == s;
  }

  lemma CountTrueSnoc(s: seq<bool>, x: bool)
    ensures CountTrue(s + [x]) == CountTrue(s) + if x then 1 else 0
  {
    assert (s + [x])[..|s|] == s;
  }

  lemma {:induction false} SumUncons(s: seq<real>)
    requires s != []
    ensures Sum(s) == s[0] + Sum(s[1..])
  {
    if |s| > 1 {
      SumUncons(s[..|s| - 1]);
      assert s[..|s| - 1][1..] == s[1..][..|s| - 2];
    }
  }

  lemma ExtremaSnoc(s: seq<real>, x: real)
    ensures s == [] ==> Min(s + [x]) == x && Max(s + [x]) == x
    ensures s != [] ==> Min(s + [x]) == (if x < Min(s) then x else Min(s))
    ensures s != [] ==> Max(s + [x]) == (if x > Max(s) then x else Max(s))
  {
    assert (s + [x])[..|s|] == s;
  }

  lemma NatExtremaSnoc(s: seq<nat>, x: nat)
    ensures s == [] ==> MinNat(s + [x]) == x && MaxNat(s + [x]) == x
    ensures s != [] ==> MinNat(s + [x]) == (if x < MinNat(s) then x else MinNat(s))
    ensures s != [] ==> MaxNat(s + [x]) == (if x > MaxNat(s) then x else MaxNat(s))
  {
    assert (s + [x])[..|s|] == s;
  }

  /** Min and Max are the least and the greatest element. */
  lemma {:induction false} ExtremaBound(s: seq<real>)
    requires s != []
    ensures Min(s) in s && Max(s) in s
    ensures forall x :: x in s ==> Min(s) <= x <= Max(s)
  {
    if |s| > 1 {
      ExtremaBound(s[..|s| - 1]);
      assert s == s[..|s| - 1] + [s[|s| - 1]];
    }
  }

  /** A sum of values that all lie in [lo, hi] lies in [n*lo, n*hi]. */
  lemma {:induction false} SumBetween(s: seq<real>, lo: real, hi: real)
    requires forall x :: x in s ==> lo <= x <= hi
    ensures |s| as real * lo <= Sum(s) <= |s| as real * hi
  {
    if s != [] {
      var n := |s| - 1;
      assert s[n] in s && forall x :: x in s[..n] ==> x in s;
      SumBetween(s[..n], lo, hi);
      assert |s| as real * lo == n as real * lo + lo;
      assert |s| as real * hi == n as real * hi + hi;
    }
  }

  /** Pointwise smaller sequences have smaller sums. */
  lemma {:induction false} SumMonotone(s: seq<real>, t: seq<real>)
    requires |s| == |t| && forall i :: 0 <= i < |s| ==> s[i] <= t[i]
    ensures Sum(s) <= Sum(t)
  {
    if s != [] {
      SumMonotone(s[..|s| - 1], t[..|t| - 1]);
    }
  }

  lemma {:induction false} SumNatAtMost(s: seq<nat>, hi: nat)
    requires forall x :: x in s ==> x <= hi
    ensures SumNat(s) <= |s| * hi
  {
    if s != [] {
      var n := |s| - 1;
      assert s[n] in s && forall x :: x in s[..n] ==> x in s;
      SumNatAtMost(s[..n], hi);
      assert |s| * hi == n * hi + hi;
    }
  }

  /** Dividing keeps bounds that were scaled by the divisor. */
  lemma DivBetween(x: real, n: real, lo: real, hi: real)
    requires n > 0.0
    ensures n * lo <= x ==> lo <= x / n
    ensures x <= n * hi ==> x / n <= hi
  {
    var q := x / n;
    assert q * n == x;
    if q < lo {
      MulStrict(n, q, lo);
    }
    if hi < q {
      MulStrict(n, hi, q);
    }
  }

  lemma MulNonNegative(a: real, b: real)
    requires a >= 0.0 && b >= 0.0
    ensures a * b >= 0.0
  {
  }

  lemma MulMonotone(a: real, b: real, t: real)
    requires a <= b && t >= 0.0
    ensures a * t <= b * t
  {
    MulNonNegative(b - a, t);
    assert (b - a) * t == b * t - a * t;
  }

  lemma MulStrict(n: real, a: real, b: real)
    requires n > 0.0 && a < b
    ensures n * a < n * b
  {
    assert n * (b - a) > 0.0;
  }

  /** A mean lies between any bounds of its values. */
  lemma MeanBetween(s: seq<real>, lo: real, hi: real)
    requires s != [] && forall x :: x in s ==> lo <= x <= hi
    ensures lo <= Sum(s) / |s| as real <= hi
  {
    SumBetween(s, lo, hi);
    DivBetween(Sum(s), |s| as real, lo, hi);
  }

  /** What `x % c` comes to when `x` is below twice `c`. */
  function WrapOnce(x: nat, c: nat): nat
    requires x < 2 * c
  {
    if x < c then x else x - c
  }

  /** The remainder that the circular buffers take, kept out of the callers' proofs. */
  method Modulo(x: nat, c: nat) returns (r: nat)
    requires x < 2 * c
    ensures r == WrapOnce(x, c)
  {
    r := x % c;
    DivModUnique(x, c, if x < c then 0 else 1, WrapOnce(x, c));
  }

  /** The write position of a circular buffer of `c` slots after `n` writes from position 0. */
  function Position(n: nat, c: nat): (p: nat)
    requires c > 0
    ensures p < c
    ensures n < c ==> p == n
  {
    if n == 0 then 0 else WrapOnce(Position(n - 1, c) + 1, c)
  }

  lemma {:induction false} PositionIsRemainder(n: nat, c: nat)
    requires c > 0
    ensures Position(n, c) == n % c
  {
    var q := WrapCount(n, c);
    DivModUnique(n, c, q, Position(n, c));
  }

  /** How often the write position has wrapped around. */
  ghost function WrapCount(n: nat, c: nat): (q: nat)
    requires c > 0
    ensures n == q * c + Position(n, c)
  {
    if n == 0 then 0
    else
      var q := WrapCount(n - 1, c);
      if Position(n - 1, c) + 1 == c then
        MulDistributes(q + 1, q, c);
        q + 1
      else q
  }

  lemma DivModUnique(x: nat, c: nat, q: nat, r: nat)
    requires c > 0 && r < c && x == q * c + r
    ensures x / c == q && x % c == r
  {
    var p, t := x / c, x % c;
    assert x == p * c + t;
    if p < q {
      MulAtLeast(q - p, c);
      MulDistributes(q, p, c);
    } else if q < p {
      MulAtLeast(p - q, c);
      MulDistributes(p, q, c);
    }
  }

  lemma MulAtLeast(k: nat, c: nat)
    requires k >= 1
    ensures k * c >= c
  {
  }

  lemma MulDistributes(p: int, q: int, c: int)
    ensures (p - q) * c == p * c - q * c
  {
  }

  /** The `n` most recently written slots of a circular buffer whose next write goes to `head`, oldest first. */
  function Circular<T>(buf: seq<T>, head: nat, n: nat): (r: seq<T>)
    requires head < |buf| && n <= |buf|
    ensures |r| == n
  {
    if n <= head then buf[head - n..head] else buf[|buf| + head - n..] + buf[..head]
  }

  /** Slot `i` of the visible window. */
  lemma CircularAt<T>(buf: seq<T>, head: nat, n: nat, i: nat)
    requires head < |buf| && n <= |buf| && i < n
    ensures Circular(buf, head, n)[i] == buf[WrapOnce(head + |buf| - n + i, |buf|)]
  {
  }

  /** Writing at `head` appends to the visible slots while some are unused. */
  lemma CircularGrow<T>(buf: seq<T>, head: nat, n: nat, x: T)
    requires head < |buf| && n < |buf|
    ensures Circular(buf[head := x], WrapOnce(head + 1, |buf|), n + 1) == Circular(buf, head, n) + [x]
  {
    var after, next := buf[head := x], WrapOnce(head + 1, |buf|);
    forall i: nat | i <= n
      ensures Circular(after, next, n + 1)[i] == (Circular(buf, head, n) + [x])[i]
    {
      CircularAt(after, next, n + 1, i);
      if i < n {
        CircularAt(buf, head, n, i);
      }
    }
  }

  /** Once every slot is in use, writing at `head` replaces the oldest one. */
  lemma CircularSlide<T>(buf: seq<T>, head: nat, x: T)
    requires head < |buf|
    ensures Circular(buf, head, |buf|)[0] == buf[head]
    ensures Circular(buf[head := x], WrapOnce(head + 1, |buf|), |buf|) == Circular(buf, head, |buf|)[1..] + [x]
  {
    var n, after, next := |buf|, buf[head := x], WrapOnce(head + 1, |buf|);
    CircularAt(buf, head, n, 0);
    forall i: nat | i < n
      ensures Circular(after, next, n)[i] == (Circular(buf, head, n)[1..] + [x])[i]
    {
      CircularAt(after, next, n, i);
      if i + 1 < n {
        CircularAt(buf, head, n, i + 1);
      }
    }
  }

  /** The index arithmetic by which the slots are visited. */
  lemma CircularVisit<T>(buf: seq<T>, head: nat, n: nat, i: nat)
    requires head < |buf| && n <= |buf| && i < n
    ensures buf[WrapOnce(WrapOnce(head + |buf| - n, |buf|) + i, |buf|)] == Circular(buf, head, n)[i]
  {
    CircularAt(buf, head, n, i);
  }

  /** One array store, described on the array's contents. */
  method Store<T>(data: array<T>, i: nat, x: T)
    requires i < data.Length
    modifies data
    ensures data[..] == old(data[..])[i := x]
  {
    data[i] := x;
  }

  /** The read-out loop that both circular buffers run: the `n` visible slots, oldest first. */
  method ReadCircular<T>(data: array<T>, head: nat, n: nat) returns (items: seq<T>)
    requires head < data.Length && n <= data.Length
    ensures items == Circular(data[..], head, n)
  {
    items := [];
    var start := Modulo(head + data.Length - n, data.Length);
    ghost var window := Circular(data[..], head, n);
    for i := 0 to n
      invariant items == window[..i]
    {
      CircularVisit(data[..], head, n, i);
      var index := Modulo(start + i, data.Length);
      items := items + [data[index]];
    }
  }

  lemma LastNSnoc<T>(s: seq<T>, x: T, n: nat)
    requires n > 0
    ensures |s| < n ==> LastN(s + [x], n) == LastN(s, n) + [x]
    ensures |s| >= n ==> LastN(s + [x], n) == LastN(s, n)[1..] + [x]
  {
  }

  /** A circular buffer that has seen exactly the writes `history` since it was empty. */
  ghost predicate Remembers<T>(buf: seq<T>, head: nat, history: seq<T>) {
    && 0 < |buf|
    && head == Position(|history|, |buf|)
    && Circular(buf, head, |LastN(history, |buf|)|) == LastN(history, |buf|)
  }

  /** Writing the next value at `head` keeps the buffer faithful to its history. */
  lemma RemembersWrite<T>(buf: seq<T>, head: nat, history: seq<T>, x: T)
    requires Remembers(buf, head, history)
    ensures Remembers(buf[head := x], WrapOnce(head + 1, |buf|), history + [x])
    ensures |history| >= |buf| ==> buf[head] == LastN(history, |buf|)[0]
  {
    var n, after, next := |buf|, buf[head := x], WrapOnce(head + 1, |buf|);
    LastNSnoc(history, x, n);
    assert next == Position(|history + [x]|, n);
    if |history| < n {
      CircularGrow(buf, head, |history|, x);
      assert Circular(after, next, |history| + 1) == LastN(history + [x], n);
    } else {
      CircularSlide(buf, head, x);
      assert Circular(after, next, n) == LastN(history + [x], n);
    }
  }
}
