/** Bad-block tables as values: a sorted sequence of ranges stands for a set of blocks with an
    acknowledgement flag each. Rounding of sector requests to blocks, and what clearing means. */
module BadBlockRanges {
  import opened Basics

  const MAX_LEN: int := 512
  const MAX_BADBLOCKS: nat := 512

  /** A range of `len` blocks from `offset` on. */
  datatype Entry = Entry(offset: int, len: int, ack: bool) {
    function End(): (e: int) { offset + len }
  }

  type Table = seq<Entry>

  predicate RangeOk(e: Entry) {
    0 <= e.offset && 1 <= e.len <= MAX_LEN
  }

  /** Ranges of 1 to 512 blocks, in order and disjoint (touching is allowed). */
  predicate WellFormed(t: Table) {
    t == [] || (RangeOk(t[0]) && (|t| == 1 || t[0].End() <= t[1].offset) && WellFormed(t[1..]))
  }

  /** The same by position. */
  ghost predicate Ordered(t: Table) {
    && (forall i :: 0 <= i < |t| ==> RangeOk(t[i]))
    && (forall i, j :: 0 <= i < j < |t| ==> t[i].End() <= t[j].offset)
  }

  lemma {:induction false} WellFormedOrdered(t: Table)
    ensures WellFormed(t) <==> Ordered(t)
  {
    if t != [] {
      var u := t[1..];
      WellFormedOrdered(u);
      assert forall i :: 1 <= i < |t| ==> t[i] == u[i - 1];
      if Ordered(t) {
        assert forall i :: 0 <= i < |u| ==> u[i] == t[i + 1];
      }
      if WellFormed(t) && |t| > 1 {
        assert u[0] == t[1];
        forall i, j | 0 <= i < j < |t| ensures t[i].End() <= t[j].offset {
          if i == 0 && j > 1 {
            assert u[0].End() <= u[j - 1].offset;
          }
        }
      }
    }
  }

  predicate Has(e: Entry, b: int) {
    e.offset <= b < e.End()
  }

  /** Block `b` is bad. */
  ghost predicate Bad(t: Table, b: int) {
    exists i :: 0 <= i < |t| && Has(t[i], b)
  }

  /** Block `b` is bad with this acknowledgement status. */
  ghost predicate BadAs(t: Table, b: int, ack: bool) {
    exists i :: 0 <= i < |t| && Has(t[i], b) && t[i].ack == ack
  }

  /** The test with which ranges are found to overlap the blocks from `s` up to `target`. */
  predicate Overlaps(e: Entry, s: int, target: int) {
    e.offset < target && e.End() > s
  }

  // ---------------------------------------------------------------- rounding to blocks

  function Pow2(n: nat): (p: int)
    ensures p >= 1
  {
    if n == 0 then 1 else 2 * Pow2(n - 1)
  }

  function Down(x: int, shift: int): (b: int) {
    if shift > 0 then x / Pow2(shift) else x
  }

  function Up(x: int, shift: int): (b: int) {
    if shift > 0 then (x + Pow2(shift) - 1) / Pow2(shift) else x
  }

  lemma RoundedOutwards(s: nat, n: nat, shift: int)
    ensures Down(s, shift) <= Up(s + n, shift)
  {
    if shift > 0 {
      DivMono(s, s + n + Pow2(shift) - 1, Pow2(shift));
    }
  }

  /** Rounding outwards: the blocks from Down(s) to Up(s + n) are exactly those that hold some
      sector of the request. */
  lemma OuterBlocks(s: int, n: int, shift: int, b: int)
    requires s >= 0 && n > 0
    ensures Down(s, shift) <= b < Up(s + n, shift) <==> exists x :: s <= x < s + n && Down(x, shift) == b
  {
    if Down(s, shift) <= b < Up(s + n, shift) {
      var x := if shift > 0 then OuterSector(s, n, Pow2(shift), b) else b;
      assert Down(x, shift) == b;
    }
    if x :| s <= x < s + n && Down(x, shift) == b {
      if shift > 0 {
        var p := Pow2(shift);
        DivMono(s, x, p);
        DivMono(x + p, s + n + p - 1, p);
        DivShift(x, p);
      }
    }
  }

  function OuterSector(s: int, n: int, p: int, b: int): (x: int)
    requires n > 0 && p >= 1 && s / p <= b < (s + n + p - 1) / p
    ensures s <= x < s + n && x / p == b
  {
    DivBetween(s, p);
    MulLe(p, s / p + 1, b + 1);
    DivBetween(s + n + p - 1, p);
    MulLe(p, b + 1, (s + n + p - 1) / p);
    var x := if b * p < s then s else b * p;
    DivIs(x, p, b);
    x
  }

  /** Rounding inwards: every sector of a block from Up(s) to Down(s + n) was requested. */
  lemma InnerBlocks(s: int, n: int, shift: int, b: int, x: int)
    requires s >= 0 && n >= 0
    requires Up(s, shift) <= b < Down(s + n, shift) && Down(x, shift) == b
    ensures s <= x < s + n
  {
    if shift > 0 {
      var p := Pow2(shift);
      DivBetween(s + p - 1, p);
      DivBetween(s + n, p);
      DivBetween(x, p);
      MulLe(p, Up(s, shift), b);
      MulLe(p, b + 1, Down(s + n, shift));
    }
  }

  /** The inward window is at most one block short of being non-negative. */
  lemma InnerWindow(s: int, n: int, shift: int)
    requires s >= 0 && n >= 0
    ensures Up(s, shift) <= Down(s + n, shift) + 1
  {
    if shift > 0 {
      var p := Pow2(shift);
      DivMono(s + p - 1, s + n + p, p);
      DivShift(s + n, p);
    }
  }

  lemma DivMono(x: int, y: int, p: int)
    requires x <= y && p >= 1
    ensures x / p <= y / p
  {
    DivBetween(x, p);
    DivBetween(y, p);
    if x / p > y / p {
      MulLe(p, y / p + 1, x / p);
    }
  }

  lemma DivIs(x: int, p: int, q: int)
    requires p >= 1 && q * p <= x < q * p + p
    ensures x / p == q
  {
    DivBetween(x, p);
    if x / p < q {
      MulLe(p, x / p + 1, q);
    } else if x / p > q {
      MulLe(p, q + 1, x / p);
    }
  }

  lemma DivShift(x: int, p: int)
    requires p >= 1
    ensures (x + p) / p == x / p + 1
  {
    DivBetween(x, p);
    DivIs(x + p, p, x / p + 1);
  }

  // ---------------------------------------------------------------- clearing, as a table function

  /** What is left of one range when the blocks from `s` up to `target` are cleared. */
  function Cut(e: Entry, s: int, target: int): (r: Table) {
    if e.offset < target && e.End() > target then
      (if e.offset < s then [Entry(e.offset, s - e.offset, e.ack)] else [])
      + [Entry(target, e.End() - target, e.ack)]
    else if e.offset < target && e.End() > s then
      if e.offset < s then [Entry(e.offset, s - e.offset, e.ack)] else []
    else [e]
  }

  function ClearAll(t: Table, s: int, target: int): (r: Table) {
    if t == [] then [] else Cut(t[0], s, target) + ClearAll(t[1..], s, target)
  }

  lemma {:induction false} ClearConcat(a: Table, b: Table, s: int, target: int)
    ensures ClearAll(a + b, s, target) == ClearAll(a, s, target) + ClearAll(b, s, target)
  {
    if a == [] {
      assert a + b == b;
    } else {
      assert (a + b)[1..] == a[1..] + b;
      ClearConcat(a[1..], b, s, target);
    }
  }

  /** Ranges outside the window, and ranges inside it. */
  predicate Stays(e: Entry, s: int, target: int) {
    e.offset >= target || (e.End() <= s && e.End() <= target)
  }

  predicate Goes(e: Entry, s: int, target: int) {
    s <= e.offset < target && s < e.End() <= target
  }

  /** The end of the window is not inside this range. */
  predicate EndsOff(e: Entry, target: int) {
    e.offset >= target || e.End() <= target
  }

  lemma {:induction false} ClearKeeps(t: Table, s: int, target: int)
    requires forall i :: 0 <= i < |t| ==> Stays(t[i], s, target)
    ensures ClearAll(t, s, target) == t
  {
    if t != [] {
      ClearKeeps(t[1..], s, target);
    }
  }

  lemma {:induction false} ClearDrops(t: Table, s: int, target: int)
    requires forall i :: 0 <= i < |t| ==> Goes(t[i], s, target)
    ensures ClearAll(t, s, target) == []
  {
    if t != [] {
      ClearDrops(t[1..], s, target);
    }
  }

  // Concatenation of tables.

  lemma BadConcat(a: Table, b: Table, x: int, ack: bool)
    ensures Bad(a + b, x) <==> Bad(a, x) || Bad(b, x)
    ensures BadAs(a + b, x, ack) <==> BadAs(a, x, ack) || BadAs(b, x, ack)
  {
    var t := a + b;
    forall i | 0 <= i < |a| ensures t[i] == a[i] {
    }
    forall i | 0 <= i < |b| ensures t[|a| + i] == b[i] {
    }
  }

  lemma BadOne(e: Entry, x: int, ack: bool)
    ensures Bad([e], x) <==> Has(e, x)
    ensures BadAs([e], x, ack) <==> Has(e, x) && e.ack == ack
  {
    assert [e][0] == e;
  }

  lemma {:induction false} WellFormedConcat(a: Table, b: Table)
    ensures WellFormed(a + b) <==>
              && WellFormed(a) && WellFormed(b)
              && (a == [] || b == [] || a[|a| - 1].End() <= b[0].offset)
  {
    if a == [] {
      assert a + b == b;
    } else {
      assert (a + b)[1..] == a[1..] + b;
      WellFormedConcat(a[1..], b);
    }
  }

  lemma CutExact(e: Entry, s: int, target: int, x: int, ack: bool)
    requires RangeOk(e) && s <= target + 1
    ensures BadAs(Cut(e, s, target), x, ack) <==> Has(e, x) && e.ack == ack && !(s <= x < target)
  {
    var l, r := Entry(e.offset, s - e.offset, e.ack), Entry(target, e.End() - target, e.ack);
    BadOne(l, x, ack);
    BadOne(r, x, ack);
    BadOne(e, x, ack);
    BadConcat([l], [r], x, ack);
    assert [] + [r] == [r];
  }

  /** Clearing removes exactly the window from the set of bad blocks and keeps the acknowledgement
      of all others. */
  lemma {:induction false} ClearExact(t: Table, s: int, target: int, x: int, ack: bool)
    requires WellFormed(t) && s <= target + 1
    ensures BadAs(ClearAll(t, s, target), x, ack) <==> BadAs(t, x, ack) && !(s <= x < target)
  {
    if t != [] {
      assert t == [t[0]] + t[1..];
      ClearExact(t[1..], s, target, x, ack);
      CutExact(t[0], s, target, x, ack);
      BadOne(t[0], x, ack);
      BadConcat([t[0]], t[1..], x, ack);
      BadConcat(Cut(t[0], s, target), ClearAll(t[1..], s, target), x, ack);
    }
  }

  /** Order, disjointness and range lengths survive clearing a window that is not negative. */
  lemma {:induction false} ClearWellFormed(t: Table, s: int, target: int)
    requires WellFormed(t) && s <= target
    ensures var r := ClearAll(t, s, target); WellFormed(r) && (r == [] || r[0].offset >= t[0].offset)
  {
    if t != [] {
      var c, r := Cut(t[0], s, target), ClearAll(t[1..], s, target);
      ClearWellFormed(t[1..], s, target);
      CutWellFormed(t[0], s, target);
      WellFormedConcat(c, r);
    }
  }

  lemma CutWellFormed(e: Entry, s: int, target: int)
    requires RangeOk(e) && s <= target
    ensures var c := Cut(e, s, target);
            WellFormed(c) && (c == [] || (c[0].offset >= e.offset && c[|c| - 1].End() <= e.End()))
  {
    var l, r := Entry(e.offset, s - e.offset, e.ack), Entry(target, e.End() - target, e.ack);
    assert [l] + [r] == [l, r] && [l, r][1..] == [r];
    assert [] + [r] == [r];
    assert [r][1..] == [] && [l][1..] == [] && [e][1..] == [];
  }

  /** Rounding can leave a window that ends one block before it starts. The set of bad blocks is
      still right then, but the table is spoilt exactly when some range has a block on both sides
      of the end of the window: it is split into two ranges that overlap. */
  lemma {:induction false} ClearShortWindow(t: Table, target: int)
    requires WellFormed(t)
    ensures var r := ClearAll(t, target + 1, target);
            && (WellFormed(r) <==> forall i :: 0 <= i < |t| ==> !(t[i].offset < target < t[i].End()))
            && (WellFormed(r) ==> r == t)
  {
    if t != [] {
      var e, c, r := t[0], Cut(t[0], target + 1, target), ClearAll(t[1..], target + 1, target);
      ClearShortWindow(t[1..], target);
      WellFormedConcat(c, r);
      assert forall i :: 1 <= i < |t| ==> t[i] == t[1..][i - 1];
      if e.offset < target < e.End() {
        var l, h := Entry(e.offset, target + 1 - e.offset, e.ack), Entry(target, e.End() - target, e.ack);
        WellFormedConcat([l], [h]);
      } else {
        assert c == [e];
        assert t == [e] + t[1..];
        if !WellFormed(r) {
          var i :| 0 <= i < |t| - 1 && t[1..][i].offset < target < t[1..][i].End();
          assert t[i + 1] == t[1..][i];
        }
      }
    }
  }

  /** On any request, badblocks_clear keeps the table in order if and only if the rounded window does
      not end one block before it starts inside some range. */
  lemma ClearOrderIff(t: Table, s: int, n: int, shift: int)
    requires WellFormed(t) && s >= 0 && n >= 0
    ensures var b, target := Up(s, shift), Down(s + n, shift);
            WellFormed(ClearAll(t, b, target)) <==>
              b <= target || forall i :: 0 <= i < |t| ==> !(t[i].offset < target < t[i].End())
  {
    var b, target := Up(s, shift), Down(s + n, shift);
    InnerWindow(s, n, shift);
    if b <= target {
      ClearWellFormed(t, b, target);
    } else {
      ClearShortWindow(t, target);
    }
  }

  /** A range that holds a block on both sides of the end of such a window becomes two that overlap. */
  lemma ClearSplits(e: Entry, target: int)
    requires RangeOk(e) && e.offset < target < e.End()
    ensures ClearAll([e], target + 1, target)
         == [Entry(e.offset, target + 1 - e.offset, e.ack), Entry(target, e.End() - target, e.ack)]
    ensures !WellFormed(ClearAll([e], target + 1, target))
  {
    ClearShortWindow([e], target);
    assert [e][0] == e && [e][1..] == [];
  }

  lemma InEights(shift: int)
    requires shift == 3
    ensures Up(9, shift) == 2 && Down(15, shift) == 1
  {
    assert Pow2(0) == 1;
    assert Pow2(1) == 2;
    assert Pow2(2) == 4;
    assert Pow2(shift) == 8;
  }

  /** The exception is real: with blocks of eight sectors, clearing the sectors from 9 to 14 leaves a
      table with two overlapping ranges. */
  lemma ClearSpoilsOrder(t: Table, s: int, n: int, shift: int)
    requires t == [Entry(0, 4, false)] && s == 9 && n == 6 && shift == 3
    ensures WellFormed(t)
    ensures ClearAll(t, Up(s, shift), Down(s + n, shift)) == [Entry(0, 2, false), Entry(1, 3, false)]
    ensures !WellFormed(ClearAll(t, Up(s, shift), Down(s + n, shift)))
  {
    var e := t[0];
    InEights(shift);
    ClearSplits(e, 1);
    assert t == [e] && t[1..] == [];
  }

  // ---------------------------------------------------------------- steps of clearing

  lemma SpliceAt(t: Table, i: nat, e: Entry, k: nat)
    requires i <= |t| && k <= |t|
    ensures (t[..i] + [e] + t[i..])[k] == if k < i then t[k] else if k == i then e else t[k - 1]
  {
  }

  lemma RangeSplice(t: Table, i: nat, d: nat)
    requires i + d <= |t|
    ensures var r := t[..i] + t[i + d..];
            |r| == |t| - d && forall m :: 0 <= m < |r| ==> r[m] == t[if m < i then m else m + d]
  {
  }

  lemma TrimSplice(t: Table, lo: nat, hi: nat, e: Entry)
    requires lo < hi <= |t|
    ensures t[lo := e][..lo + 1] + t[lo := e][hi..] == t[..hi][..lo] + [e] + t[hi..]
  {
  }

  lemma SplitSplice(t: Table, lo: nat, head: Entry, tail: Entry)
    requires lo < |t|
    ensures (t[..lo] + [head] + t[lo..])[lo + 1 := tail] == t[..lo] + ([head] + [tail]) + t[lo + 1..]
  {
  }

  lemma TailSplice(t: Table, lo: nat, tail: Entry, c: Table)
    requires lo < |t|
    ensures t[lo := tail][..lo] == t[..lo]
    ensures c + t[lo := tail][lo..] == c + ([] + [tail]) + t[lo + 1..]
  {
  }

  /** Clearing this window cuts the range in two. */
  predicate Splits(e: Entry, s: int, target: int) {
    e.offset < s && e.offset < target < e.End()
  }

  /** All ranges before one that starts before the end of the window end before it. */
  lemma BeforeLast(t: Table, lo: nat, target: int)
    requires Ordered(t) && lo < |t| && t[lo].offset < target
    ensures Ordered(t[..lo])
    ensures forall i :: 0 <= i < lo ==> EndsOff(t[..lo][i], target)
    ensures lo > 0 ==> t[lo - 1].offset < target
  {
    forall i | 0 <= i < lo ensures EndsOff(t[..lo][i], target) {
      assert t[..lo][i] == t[i] && t[i].End() <= t[lo].offset;
    }
    if lo > 0 {
      assert t[lo - 1].End() <= t[lo].offset && RangeOk(t[lo - 1]);
    }
  }

  /** The same with the last range included, when the window does not end inside it. */
  lemma UpToLast(t: Table, hi: nat, target: int)
    requires Ordered(t) && 0 < hi <= |t| && (hi > 1 ==> t[hi - 1].offset < target) && EndsOff(t[hi - 1], target)
    ensures Ordered(t[..hi])
    ensures forall i :: 0 <= i < hi ==> EndsOff(t[..hi][i], target)
  {
    forall i | 0 <= i < hi ensures EndsOff(t[..hi][i], target) {
      assert t[..hi][i] == t[i];
      if i < hi - 1 {
        assert t[i].End() <= t[hi - 1].offset;
      }
    }
  }

  /** The last range that starts before the end of the window is the only one it can split. */
  lemma OnlySplit(t: Table, lo: nat, s: int, target: int)
    requires Ordered(t) && lo < |t| && (lo > 0 ==> t[lo].offset < target)
    requires forall i :: lo < i < |t| ==> t[i].offset >= target
    ensures (exists i :: 0 <= i < |t| && Splits(t[i], s, target)) <==> Splits(t[lo], s, target)
  {
    if i :| 0 <= i < |t| && Splits(t[i], s, target) {
      if i < lo {
        assert t[i].End() <= t[lo].offset;
      }
    }
  }

  lemma ClearRest(t: Table, hi: nat, s: int, target: int)
    requires hi <= |t| && forall i :: hi <= i < |t| ==> t[i].offset >= target
    ensures ClearAll(t, s, target) == ClearAll(t[..hi], s, target) + t[hi..]
  {
    assert t == t[..hi] + t[hi..];
    ClearConcat(t[..hi], t[hi..], s, target);
    ClearKeeps(t[hi..], s, target);
  }

  lemma ClearStraddled(t: Table, lo: nat, s: int, target: int)
    requires lo < |t| && forall i :: lo < i < |t| ==> t[i].offset >= target
    ensures ClearAll(t, s, target) == ClearAll(t[..lo], s, target) + Cut(t[lo], s, target) + t[lo + 1..]
  {
    ClearRest(t, lo + 1, s, target);
    assert t[..lo + 1] == t[..lo] + [t[lo]];
    ClearConcat(t[..lo], [t[lo]], s, target);
    assert ClearAll([t[lo]], s, target) == Cut(t[lo], s, target) + ClearAll([], s, target);
  }

  /** Nothing before a range that starts before the window changes. */
  lemma ClearBelow(t: Table, lo: nat, s: int, target: int)
    requires Ordered(t) && lo < |t| && t[lo].offset < s && t[lo].offset < target
    ensures ClearAll(t[..lo], s, target) == t[..lo]
  {
    var u := t[..lo];
    forall i | 0 <= i < lo ensures Stays(u[i], s, target) {
      assert u[i] == t[i] && t[i].End() <= t[lo].offset;
    }
    ClearKeeps(u, s, target);
  }

  /** The walk stopped at a range that ends before the window, or at a first range behind it. */
  lemma ClearKept(t: Table, n: nat, s: int, target: int)
    requires Ordered(t) && n <= |t|
    requires forall i :: 0 <= i < |t| ==> EndsOff(t[i], target)
    requires n > 0 ==> t[n - 1].End() <= s || (n == 1 && t[0].offset >= target)
    requires forall i :: n <= i < |t| ==> Goes(t[i], s, target)
    ensures ClearAll(t, s, target) == t[..n]
  {
    forall i | 0 <= i < n ensures Stays(t[i], s, target) {
      StaysBefore(t, n, i, s, target);
    }
    ClearTwoParts(t, n, s, target);
  }

  lemma ClearTwoParts(t: Table, n: nat, s: int, target: int)
    requires n <= |t|
    requires forall i :: 0 <= i < n ==> Stays(t[i], s, target)
    requires forall i :: n <= i < |t| ==> Goes(t[i], s, target)
    ensures ClearAll(t, s, target) == t[..n]
  {
    assert t == t[..n] + t[n..];
    ClearConcat(t[..n], t[n..], s, target);
    ClearKeeps(t[..n], s, target);
    ClearDrops(t[n..], s, target);
  }

  lemma StaysBefore(t: Table, n: nat, i: nat, s: int, target: int)
    requires Ordered(t) && i < n <= |t| && EndsOff(t[i], target)
    requires t[n - 1].End() <= s || (n == 1 && t[0].offset >= target)
    ensures Stays(t[i], s, target)
  {
    if i < n - 1 {
      assert t[i].End() <= t[n - 1].offset;
      assert RangeOk(t[n - 1]);
    }
  }

  lemma ClearTrimmed(t: Table, lo: nat, s: int, target: int)
    requires Ordered(t) && lo < |t| && t[lo].offset < s < t[lo].End() <= target && t[lo].offset < target
    requires forall i :: lo < i < |t| ==> Goes(t[i], s, target)
    ensures ClearAll(t, s, target) == t[..lo] + [Entry(t[lo].offset, s - t[lo].offset, t[lo].ack)]
  {
    assert t == t[..lo] + [t[lo]] + t[lo + 1..];
    ClearConcat(t[..lo] + [t[lo]], t[lo + 1..], s, target);
    ClearConcat(t[..lo], [t[lo]], s, target);
    ClearDrops(t[lo + 1..], s, target);
    ClearKeeps(t[..lo], s, target);
    assert ClearAll([t[lo]], s, target) == Cut(t[lo], s, target) + ClearAll([], s, target);
  }

  function Acked(t: Table): (r: Table) {
    seq(|t|, i requires 0 <= i < |t| => Entry(t[i].offset, t[i].len, true))
  }
}
