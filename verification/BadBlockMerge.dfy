/** Adding a range of bad blocks to a table: the four phases of badblocks_set as functions of the
    table, and exactly when they leave the table that stands for the union. */
module BadBlockMerge {
  import opened BadBlockRanges
  import opened Basics

  /** The position behind the last range that starts at or before `s`. */
  function Place(t: Table, s: int): (hi: nat)
    ensures hi <= |t|
  {
    if t == [] || t[0].offset > s then 0 else 1 + Place(t[1..], s)
  }

  /** The work in progress: `n` blocks from `s` on are still to be added in front of position `hi`. */
  datatype Work = Work(t: Table, s: int, n: int, hi: nat)

  /** Merge with the range before `hi` if the new one starts in it or right behind it. */
  function MergeBefore(w: Work, ack: bool): (r: Work)
    requires w.hi <= |w.t|
    ensures r.hi <= |r.t| == |w.t|
  {
    if w.hi > 0 && w.t[w.hi - 1].End() >= w.s then
      var p := w.t[w.hi - 1];
      var ack' := if w.s == p.offset && w.s + w.n >= p.End() then ack else p.ack && ack;
      var e := Max(p.End(), w.s + w.n);
      if e - p.offset <= MAX_LEN then
        Work(w.t[w.hi - 1 := Entry(p.offset, e - p.offset, ack')], e, 0, w.hi)
      else
        var t := if p.len != MAX_LEN then w.t[w.hi - 1 := Entry(p.offset, MAX_LEN, ack')] else w.t;
        Work(t, p.offset + MAX_LEN, e - p.offset - MAX_LEN, w.hi)
    else w
  }

  /** Merge what is left with the range at `hi` if the two touch. */
  function MergeAfter(w: Work, ack: bool): (r: Work)
    requires w.hi <= |w.t|
    ensures r.hi <= |r.t| == |w.t|
  {
    if w.n != 0 && w.hi < |w.t| && w.t[w.hi].offset <= w.s + w.n then
      var f := w.t[w.hi];
      var ack' := if f.End() <= w.s + w.n then ack else f.ack && ack;
      var e := Max(f.End(), w.s + w.n);
      if e - w.s <= MAX_LEN then
        Work(w.t[w.hi := Entry(w.s, e - w.s, ack')], e, 0, w.hi + 1)
      else
        Work(w.t[w.hi := Entry(w.s, MAX_LEN, ack')], w.s + MAX_LEN, e - w.s - MAX_LEN, w.hi + 1)
    else w
  }

  /** Combine the last merged range with the one behind it. */
  function Combine(w: Work): (r: Work)
    requires w.hi <= |w.t|
    ensures r.hi <= |r.t|
  {
    if w.n == 0 && w.hi < |w.t| && w.hi > 0 then
      var p, f := w.t[w.hi - 1], w.t[w.hi];
      var newLen := p.len + f.len - (w.s - f.offset);
      if w.s >= f.offset && newLen < MAX_LEN then
        Work(w.t[..w.hi - 1] + [Entry(p.offset, newLen, p.ack && f.ack)] + w.t[w.hi + 1..], w.s, 0, w.hi)
      else w
    else w
  }

  /** Insert what is still left in pieces, each in front of position `hi`. */
  function Fill(t: Table, s: int, n: int, hi: nat, ack: bool): (r: (Table, int))
    requires hi <= |t|
    decreases n
  {
    if n <= 0 then (t, 0)
    else if |t| >= MAX_BADBLOCKS then (t, 1)
    else
      var k := if n > MAX_LEN then MAX_LEN else n;
      Fill(t[..hi] + [Entry(s, k, ack)] + t[hi..], s + k, n - k, hi, ack)
  }

  /** Both merging phases together. */
  function Merged(t: Table, s: int, n: int, ack: bool): (w: Work)
    ensures w.hi <= |w.t| == |t|
  {
    MergeAfter(MergeBefore(Work(t, s, n, Place(t, s)), ack), ack)
  }

  /** The other two. */
  function Finished(w: Work, ack: bool): (r: (Table, int))
    requires w.hi <= |w.t|
  {
    var c := Combine(w);
    Fill(c.t, c.s, c.n, c.hi, ack)
  }

  /** badblocks_set on tables. */
  function SetRange(t: Table, s: int, n: int, ack: bool): (r: (Table, int)) {
    Finished(Merged(t, s, n, ack), ack)
  }

  // ---------------------------------------------------------------- when it is the union

  /** The table stands for the blocks of `t` and the `n` blocks from `s` on. */
  ghost predicate IsUnion(t: Table, s: int, n: int, r: Table) {
    WellFormed(r) && forall b :: Bad(r, b) <==> Bad(t, b) || s <= b < s + n
  }

  /** A merged range from `a` to `e` gets along with the range at position `k`: it ends before it,
      or is short enough to be combined with it, or reaches over it and all that sticks out behind
      is bad anyway. */
  ghost predicate JoinOk(t: Table, k: nat, a: int, e: int)
  {
    || k >= |t| || e <= t[k].offset
    || (e <= t[k].End() && t[k].End() - a < MAX_LEN)
    || (a < t[k].End() < e && forall b :: t[k].End() <= b < e ==> Bad(t, b))
  }

  /** The blocks from `s` to `e` fit into one new range in front of position `k`. */
  predicate FillOk(t: Table, k: nat, s: int, e: int)
  {
    |t| < MAX_BADBLOCKS && e - s <= MAX_LEN && (k >= |t| || e <= t[k].offset)
  }

  /** Does the new range start in, or right behind, the range before its place? */
  predicate Merges(t: Table, s: int) {
    Place(t, s) > 0 && t[Place(t, s) - 1].End() >= s
  }

  /** Does it all fit there? */
  predicate FitsBefore(t: Table, s: int, n: int) {
    Merges(t, s) && Max(t[Place(t, s) - 1].End(), s + n) - t[Place(t, s) - 1].offset <= MAX_LEN
  }

  /** Where the part begins that the range before does not take in. */
  function From(t: Table, s: int): (from: int) {
    if Merges(t, s) then t[Place(t, s) - 1].offset + MAX_LEN else s
  }

  /** The blocks from `from` to `end` can be added with the range at `hi`, or in front of it. */
  ghost predicate RestOk(t: Table, hi: nat, from: int, end: int) {
    if hi < |t| && t[hi].offset <= end then
      var e := Max(t[hi].End(), end);
      if e - from <= MAX_LEN then JoinOk(t, hi + 1, from, e) else FillOk(t, hi + 1, from + MAX_LEN, e)
    else FillOk(t, hi, from, end)
  }

  /** The condition, on the table before the call, under which badblocks_set is the union. */
  ghost predicate Unites(t: Table, s: int, n: int) {
    var hi := Place(t, s);
    if FitsBefore(t, s, n) then JoinOk(t, hi, t[hi - 1].offset, Max(t[hi - 1].End(), s + n))
    else n == 0 || RestOk(t, hi, From(t, s), s + n)
  }

  // ---------------------------------------------------------------- the merging phases

  lemma {:induction false} PlaceAround(t: Table, s: int)
    ensures var hi := Place(t, s);
            && (hi > 0 ==> t[hi - 1].offset <= s)
            && (hi < |t| ==> t[hi].offset > s)
  {
    if t != [] && t[0].offset <= s {
      PlaceAround(t[1..], s);
    }
  }

  /** Between the phases: the ranges before `hi` are in order and end by `s`, the others are those
      of the original table, and nothing has been added but what was asked for. */
  ghost predicate Staged(w: Work, t: Table) {
    && w.hi <= |w.t| == |t| && w.n >= 0 && w.s >= 0
    && WellFormed(w.t[..w.hi]) && WellFormed(w.t[w.hi..])
    && (w.hi > 0 ==> w.t[w.hi - 1].End() <= w.s)
    && w.t[w.hi..] == t[w.hi..]
  }

  ghost predicate Covers(w: Work, b: int) {
    Bad(w.t, b) || w.s <= b < w.s + w.n
  }

  lemma SplitWellFormed(t: Table, k: nat)
    requires WellFormed(t) && k <= |t|
    ensures WellFormed(t[..k]) && WellFormed(t[k..])
    ensures 0 < k < |t| ==> t[k - 1].End() <= t[k].offset
  {
    assert t == t[..k] + t[k..];
    WellFormedConcat(t[..k], t[k..]);
  }

  lemma RangeAt(t: Table, k: nat)
    requires WellFormed(t) && k < |t|
    ensures RangeOk(t[k])
  {
    WellFormedOrdered(t);
  }

  lemma OneWellFormed(e: Entry)
    requires RangeOk(e)
    ensures WellFormed([e])
  {
    assert [e][1..] == [];
  }

  /** Replacing one range by another that starts at the same place and ends by `s`. */
  lemma ReplaceLast(t: Table, hi: nat, e: Entry)
    requires WellFormed(t) && 0 < hi <= |t| && RangeOk(e) && e.offset == t[hi - 1].offset
    ensures WellFormed(t[hi - 1 := e][..hi]) && WellFormed(t[hi - 1 := e][hi..])
    ensures t[hi - 1 := e][hi..] == t[hi..]
  {
    SplitWellFormed(t, hi - 1);
    SplitWellFormed(t, hi);
    OneWellFormed(e);
    assert t[hi - 1 := e][..hi] == t[..hi - 1] + [e];
    WellFormedConcat(t[..hi - 1], [e]);
  }

  lemma AfterMergeBefore(t: Table, s: int, n: int, ack: bool)
    requires WellFormed(t) && s >= 0 && n >= 0
    ensures Staged(MergeBefore(Work(t, s, n, Place(t, s)), ack), t)
  {
    var hi := Place(t, s);
    PlaceAround(t, s);
    SplitWellFormed(t, hi);
    if hi > 0 && t[hi - 1].End() >= s {
      RangeAt(t, hi - 1);
      var w := MergeBefore(Work(t, s, n, hi), ack);
      ReplaceLast(t, hi, w.t[hi - 1]);
    }
  }

  /** A change of one range, seen from one block. */
  lemma BadSet(t: Table, k: nat, e: Entry, b: int)
    requires k < |t| && e.offset <= t[k].offset
    requires Has(t[k], b) ==> Has(e, b)
    ensures Bad(t[k := e], b) <==> Bad(t, b) || Has(e, b)
  {
    var u := t[k := e];
    if i :| 0 <= i < |t| && Has(t[i], b) {
      assert Has(u[i], b);
    }
    if Has(e, b) {
      assert Has(u[k], b);
    }
    if i :| 0 <= i < |u| && Has(u[i], b) {
      assert i != k ==> u[i] == t[i];
    }
  }

  lemma CoverBefore(t: Table, s: int, n: int, ack: bool, b: int)
    requires WellFormed(t) && s >= 0 && n >= 0
    ensures Covers(MergeBefore(Work(t, s, n, Place(t, s)), ack), b) <==> Bad(t, b) || s <= b < s + n
  {
    var hi := Place(t, s);
    PlaceAround(t, s);
    if hi > 0 && t[hi - 1].End() >= s {
      RangeAt(t, hi - 1);
      var w := MergeBefore(Work(t, s, n, hi), ack);
      assert w.t == t[hi - 1 := w.t[hi - 1]];
      BadSet(t, hi - 1, w.t[hi - 1], b);
      if Has(w.t[hi - 1], b) && !(s <= b < s + n) {
        assert Has(t[hi - 1], b);
      }
    }
  }

  lemma AfterMergeAfter(w: Work, t: Table, ack: bool)
    requires Staged(w, t)
    ensures Staged(MergeAfter(w, ack), t)
  {
    if w.n != 0 && w.hi < |w.t| && w.t[w.hi].offset <= w.s + w.n {
      var l, r := w.t[..w.hi], w.t[w.hi..];
      assert r == [w.t[w.hi]] + r[1..];
      WellFormedConcat([w.t[w.hi]], r[1..]);
      var v := MergeAfter(w, ack);
      var x := v.t[w.hi];
      assert r[0] == w.t[w.hi] && RangeOk(r[0]);
      OneWellFormed(x);
      WellFormedConcat(l, [x]);
      assert v.t[..v.hi] == l + [x];
      assert v.t[v.hi..] == r[1..] == t[v.hi..];
    }
  }

  /** Seen from one block, the second phase keeps what is covered. What it cuts off the front of the
      range at `hi` is covered by the range before. */
  lemma CoverAfter(w: Work, t: Table, ack: bool, b: int)
    requires Staged(w, t)
    requires w.hi < |t| && t[w.hi].offset <= b < w.s ==> w.hi > 0 && Has(w.t[w.hi - 1], b)
    ensures Covers(MergeAfter(w, ack), b) <==> Covers(w, b)
  {
    if w.n != 0 && w.hi < |w.t| && w.t[w.hi].offset <= w.s + w.n {
      assert w.t[w.hi..][0] == t[w.hi..][0];
      var v := MergeAfter(w, ack);
      var f, x := w.t[w.hi], v.t[w.hi];
      assert v.t == w.t[w.hi := x];
      if i :| 0 <= i < |v.t| && Has(v.t[i], b) {
        if i != w.hi {
          assert Has(w.t[i], b);
        } else if !(w.s <= b < w.s + w.n) {
          assert Has(f, b);
        }
      }
      if i :| 0 <= i < |w.t| && Has(w.t[i], b) {
        if i != w.hi {
          assert Has(v.t[i], b);
        } else if b < w.s {
          assert Has(v.t[w.hi - 1], b);
        } else if !(v.s <= b < v.s + v.n) {
          assert Has(v.t[w.hi], b);
        }
      }
      if w.s <= b < w.s + w.n && !(v.s <= b < v.s + v.n) {
        assert Has(v.t[w.hi], b);
      }
    }
  }

  lemma FrontCovered(t: Table, s: int, n: int, ack: bool, b: int)
    requires WellFormed(t) && s >= 0 && n >= 0
    ensures var w := MergeBefore(Work(t, s, n, Place(t, s)), ack);
            w.hi < |t| && t[w.hi].offset <= b < w.s ==> w.hi > 0 && Has(w.t[w.hi - 1], b)
  {
    PlaceAround(t, s);
  }

  lemma AfterMerging(t: Table, s: int, n: int, ack: bool)
    requires WellFormed(t) && s >= 0 && n >= 0
    ensures Staged(Merged(t, s, n, ack), t) && Shadowed(Merged(t, s, n, ack))
    ensures forall b :: Covers(Merged(t, s, n, ack), b) <==> Bad(t, b) || s <= b < s + n
  {
    var w := MergeBefore(Work(t, s, n, Place(t, s)), ack);
    AfterMergeBefore(t, s, n, ack);
    AfterMergeAfter(w, t, ack);
    ShadowBefore(t, s, n, ack);
    ShadowAfter(w, t, ack);
    forall b ensures Covers(Merged(t, s, n, ack), b) <==> Bad(t, b) || s <= b < s + n {
      CoverBefore(t, s, n, ack, b);
      FrontCovered(t, s, n, ack, b);
      CoverAfter(w, t, ack, b);
    }
  }

  // ---------------------------------------------------------------- the last phases

  /** Behind position `k` of a table, only the ranges from `k` on matter. */
  lemma BadBehind(t: Table, k: nat, b: int)
    requires WellFormed(t) && k < |t| && b >= t[k].End()
    ensures Bad(t, b) <==> Bad(t[k + 1..], b)
  {
    WellFormedOrdered(t);
    var l := t[..k + 1];
    assert t == l + t[k + 1..];
    BadConcat(l, t[k + 1..], b, true);
    forall i | 0 <= i < |l| ensures !Has(l[i], b) {
      assert l[i] == t[i];
      assert i < k ==> t[i].End() <= t[k].offset < t[k].End();
    }
  }

  /** Blocks of the ranges from `hi` on that lie before `s` are in ranges before `hi` as well. */
  ghost predicate Shadowed(w: Work)
    requires w.hi <= |w.t|
  {
    forall b :: Bad(w.t[w.hi..], b) && b < w.s ==> Bad(w.t[..w.hi], b)
  }

  lemma {:induction false} FirstBelow(t: Table, b: int)
    requires WellFormed(t) && Bad(t, b)
    ensures t != [] && t[0].offset <= b
  {
    var i :| 0 <= i < |t| && Has(t[i], b);
    WellFormedOrdered(t);
    assert i > 0 ==> RangeOk(t[0]) && t[0].End() <= t[i].offset;
  }

  lemma ShadowBefore(t: Table, s: int, n: int, ack: bool)
    requires WellFormed(t) && s >= 0 && n >= 0
    ensures Shadowed(MergeBefore(Work(t, s, n, Place(t, s)), ack))
  {
    var w := MergeBefore(Work(t, s, n, Place(t, s)), ack);
    AfterMergeBefore(t, s, n, ack);
    var l, r := w.t[..w.hi], w.t[w.hi..];
    forall b | Bad(r, b) && b < w.s ensures Bad(l, b) {
      FirstBelow(r, b);
      assert r[0] == t[w.hi..][0];
      FrontCovered(t, s, n, ack, b);
      assert Has(l[w.hi - 1], b);
    }
  }

  lemma ShadowAfter(w: Work, t: Table, ack: bool)
    requires Staged(w, t) && Shadowed(w)
    ensures Shadowed(MergeAfter(w, ack))
  {
    var v := MergeAfter(w, ack);
    if v != w {
      var l, r, l', r' := w.t[..w.hi], w.t[w.hi..], v.t[..v.hi], v.t[v.hi..];
      assert r == [r[0]] + r[1..] && r' == r[1..];
      forall b | Bad(r', b) && b < v.s ensures Bad(l', b) {
        assert l' == l + [v.t[w.hi]];
        BadConcat(l, [v.t[w.hi]], b, true);
        BadOne(v.t[w.hi], b, true);
        BadConcat([r[0]], r[1..], b, true);
      }
    }
  }

  /** Gluing the last merged range `p`, the range `f` behind it and the rest back together. */
  lemma GlueWellFormed(l: Table, p: Entry, f: Entry, r: Table)
    requires WellFormed(l + [p]) && WellFormed([f] + r) && p.offset < f.End()
    ensures WellFormed(l + [p] + ([f] + r)) <==> p.End() <= f.offset
    ensures forall len, ack :: p.offset + len == f.End() && len <= MAX_LEN ==>
              WellFormed(l + [Entry(p.offset, len, ack)] + r)
  {
    WellFormedConcat(l, [p]);
    WellFormedConcat([f], r);
    WellFormedConcat(l + [p], [f] + r);
    forall len, ack | p.offset + len == f.End() && len <= MAX_LEN
      ensures WellFormed(l + [Entry(p.offset, len, ack)] + r)
    {
      var x := Entry(p.offset, len, ack);
      OneWellFormed(x);
      WellFormedConcat(l, [x]);
      WellFormedConcat(l + [x], r);
    }
  }

  lemma BadFour(l: Table, p: Entry, f: Entry, r: Table, b: int)
    ensures Bad(l + [p] + ([f] + r), b) <==> Bad(l, b) || Has(p, b) || Has(f, b) || Bad(r, b)
    ensures Bad(l + [p] + r, b) <==> Bad(l, b) || Has(p, b) || Bad(r, b)
  {
    BadConcat(l, [p], b, true);
    BadConcat(l + [p], [f] + r, b, true);
    BadConcat(l + [p], r, b, true);
    BadConcat([f], r, b, true);
    BadOne(p, b, true);
    BadOne(f, b, true);
  }

  ghost predicate SameBlocks(u: Table, v: Table) {
    forall b :: Bad(u, b) <==> Bad(v, b)
  }

  /** Replacing `p` and `f` by one range from the start of `p` to the end of `f` loses exactly what
      `p` has behind `f`, unless the rest has it. */
  lemma CombineBlocks(l: Table, p: Entry, f: Entry, r: Table, x: Entry)
    requires WellFormed(l + [p]) && x.offset == p.offset && x.End() == f.End()
    requires f.offset <= p.End()
    requires forall b :: Bad([f] + r, b) && b < p.End() ==> Bad(l + [p], b)
    ensures SameBlocks(l + [x] + r, l + [p] + ([f] + r)) <==>
              forall b :: f.End() <= b < p.End() ==> p.offset <= b ==> Bad(r, b)
  {
    var u, v := l + [x] + r, l + [p] + ([f] + r);
    forall b ensures (Bad(u, b) <==> Bad(v, b)) <==> (f.End() <= b < p.End() ==> p.offset <= b ==> Bad(r, b)) {
      CombineBlock(l, p, f, r, x, b);
    }
  }

  lemma CombineBlock(l: Table, p: Entry, f: Entry, r: Table, x: Entry, b: int)
    requires WellFormed(l + [p]) && x.offset == p.offset && x.End() == f.End()
    requires f.offset <= p.End()
    requires Bad([f] + r, b) && b < p.End() ==> Bad(l + [p], b)
    ensures (Bad(l + [x] + r, b) <==> Bad(l + [p] + ([f] + r), b)) <==>
              (f.End() <= b < p.End() ==> p.offset <= b ==> Bad(r, b))
  {
    BadFour(l, p, f, r, b);
    BadFour(l, x, f, r, b);
    BadConcat([f], r, b, true);
    BadOne(f, b, true);
    BadConcat(l, [p], b, true);
    BadOne(p, b, true);
    RangeAt(l + [p], |l|);
    if p.offset <= b {
      EndsBefore(l, p, b);
    }
  }

  lemma EndsBefore(l: Table, p: Entry, b: int)
    requires WellFormed(l + [p]) && p.offset <= b
    ensures !Bad(l, b)
  {
    var t := l + [p];
    WellFormedOrdered(t);
    forall i | 0 <= i < |l| ensures !Has(l[i], b) {
      assert l[i] == t[i] && t[i].End() <= t[|l|].offset;
    }
  }

  /** After a merge that took everything in: the last step leaves the right table exactly when the
      merged range gets along with the one behind it. */
  lemma CombineIff(w: Work, t: Table)
    requires WellFormed(t) && Staged(w, t) && Shadowed(w)
    requires w.n == 0 && w.hi > 0 && w.t[w.hi - 1].End() == w.s
    ensures (WellFormed(Combine(w).t) && SameBlocks(Combine(w).t, w.t)) <==>
              JoinOk(t, w.hi, w.t[w.hi - 1].offset, w.s)
  {
    var l, p := w.t[..w.hi - 1], w.t[w.hi - 1];
    assert w.t[..w.hi] == l + [p];
    if w.hi == |w.t| {
      assert w.t == w.t[..w.hi];
    } else {
      var f, r := w.t[w.hi], w.t[w.hi + 1..];
      assert w.t[w.hi..] == [f] + r && w.t == l + [p] + ([f] + r);
      assert t[w.hi..][0] == f && t[w.hi + 1..] == t[w.hi..][1..] == r;
      CombineIffParts(w, t, l, p, f, r);
    }
  }

  lemma CombineIffParts(w: Work, t: Table, l: Table, p: Entry, f: Entry, r: Table)
    requires WellFormed(t) && Staged(w, t) && w.n == 0 && 0 < w.hi < |w.t| && p.End() == w.s
    requires w.t == l + [p] + ([f] + r) && |l| == w.hi - 1
    requires WellFormed(l + [p]) && WellFormed([f] + r)
    requires t[w.hi] == f && t[w.hi + 1..] == r
    requires forall b :: Bad([f] + r, b) && b < p.End() ==> Bad(l + [p], b)
    ensures (WellFormed(Combine(w).t) && SameBlocks(Combine(w).t, w.t)) <==> JoinOk(t, w.hi, p.offset, p.End())
  {
    assert w.t[w.hi - 1] == p && w.t[w.hi] == f;
    var len := f.End() - p.offset;
    var x := Entry(p.offset, len, p.ack && f.ack);
    if w.s >= f.offset && len < MAX_LEN {
      assert w.t[..w.hi - 1] == l && w.t[w.hi + 1..] == r;
      assert Combine(w).t == l + [x] + r;
      CombinedIff(t, w.hi, l, p, f, r, x);
    } else {
      assert Combine(w).t == w.t;
      NotCombinedIff(t, w.hi, l, p, f, r);
    }
  }

  lemma NotCombinedIff(t: Table, k: nat, l: Table, p: Entry, f: Entry, r: Table)
    requires WellFormed(l + [p]) && WellFormed([f] + r) && k < |t| && t[k] == f
    requires p.End() < f.offset || f.End() - p.offset >= MAX_LEN
    ensures WellFormed(l + [p] + ([f] + r)) <==> JoinOk(t, k, p.offset, p.End())
  {
    RangeAt([f] + r, 0);
    RangeAt(l + [p], |l|);
    assert (l + [p])[|l|] == p && ([f] + r)[0] == f;
    WellFormedConcat(l + [p], [f] + r);
  }

  lemma CombinedIff(t: Table, k: nat, l: Table, p: Entry, f: Entry, r: Table, x: Entry)
    requires WellFormed(t) && k < |t| && t[k] == f && t[k + 1..] == r
    requires WellFormed(l + [p]) && WellFormed([f] + r)
    requires p.End() >= f.offset && x.offset == p.offset && x.End() == f.End() && x.len < MAX_LEN
    requires forall b :: Bad([f] + r, b) && b < p.End() ==> Bad(l + [p], b)
    ensures (WellFormed(l + [x] + r) && SameBlocks(l + [x] + r, l + [p] + ([f] + r))) <==>
              JoinOk(t, k, p.offset, p.End())
  {
    RangeAt([f] + r, 0);
    RangeAt(l + [p], |l|);
    if x.len > 0 {
      GlueWellFormed(l, p, f, r);
      CombineBlocks(l, p, f, r, x);
      RestBad(t, k, p, f, r);
    } else {
      assert (l + [x] + r)[|l|] == x;
      WellFormedOrdered(l + [x] + r);
    }
  }

  lemma RestBad(t: Table, k: nat, p: Entry, f: Entry, r: Table)
    requires WellFormed(t) && k < |t| && t[k] == f && t[k + 1..] == r && p.offset < f.End()
    ensures (forall b :: f.End() <= b < p.End() ==> p.offset <= b ==> Bad(r, b)) <==>
              (forall b :: f.End() <= b < p.End() ==> Bad(t, b))
  {
    forall b | f.End() <= b < p.End() ensures Bad(r, b) <==> Bad(t, b) {
      BadBehind(t, k, b);
    }
  }

  /** A second piece is inserted in front of the first one, which spoils the order for good. */
  lemma {:induction false} FillReversed(t: Table, s: int, n: int, hi: nat, ack: bool)
    requires n > 0 && hi < |t| && t[hi].offset < s
    ensures Fill(t, s, n, hi, ack).1 == 0 ==> !WellFormed(Fill(t, s, n, hi, ack).0)
    decreases n
  {
    if |t| < MAX_BADBLOCKS {
      var k := if n > MAX_LEN then MAX_LEN else n;
      var u := t[..hi] + [Entry(s, k, ack)] + t[hi..];
      assert u[hi] == Entry(s, k, ack) && u[hi + 1] == t[hi];
      if n - k > 0 {
        FillReversed(u, s + k, n - k, hi, ack);
      } else {
        WellFormedOrdered(u);
      }
    }
  }

  /** One new range in front of position `w.hi`. */
  lemma InsertIff(w: Work, t: Table, x: Entry, u: Table)
    requires Staged(w, t) && w.n > 0 && x.offset == w.s && x.len == w.n <= MAX_LEN
    requires u == w.t[..w.hi] + [x] + w.t[w.hi..]
    ensures WellFormed(u) <==> w.hi >= |t| || w.s + w.n <= t[w.hi].offset
  {
    var l, r := w.t[..w.hi], w.t[w.hi..];
    OneWellFormed(x);
    assert w.hi > 0 ==> l[|l| - 1] == w.t[w.hi - 1];
    WellFormedConcat(l, [x]);
    WellFormedConcat(l + [x], r);
    assert w.hi < |t| ==> t[w.hi..][0] == r[0] == t[w.hi];
  }

  lemma InsertBlock(w: Work, x: Entry, u: Table, b: int)
    requires w.hi <= |w.t| && x.offset == w.s && x.len == w.n
    requires u == w.t[..w.hi] + [x] + w.t[w.hi..]
    ensures Bad(u, b) <==> Covers(w, b)
  {
    var l, r := w.t[..w.hi], w.t[w.hi..];
    assert w.t == l + r;
    BadConcat(l, [x], b, true);
    BadOne(x, b, true);
    BadConcat(l + [x], r, b, true);
    BadConcat(l, r, b, true);
  }

  /** What is left over after merging is added correctly exactly when it fits as one range. */
  lemma FillIff(w: Work, t: Table, ack: bool)
    requires Staged(w, t) && w.n > 0
    ensures var (r, rv) := Fill(w.t, w.s, w.n, w.hi, ack);
            (rv == 0 && WellFormed(r) && forall b :: Bad(r, b) <==> Covers(w, b)) <==>
              FillOk(t, w.hi, w.s, w.s + w.n)
  {
    if |t| < MAX_BADBLOCKS {
      var x := Entry(w.s, if w.n > MAX_LEN then MAX_LEN else w.n, ack);
      var u := w.t[..w.hi] + [x] + w.t[w.hi..];
      if w.n > MAX_LEN {
        assert u[w.hi] == x;
        FillReversed(u, w.s + MAX_LEN, w.n - MAX_LEN, w.hi, ack);
      } else {
        InsertIff(w, t, x, u);
        forall b ensures Bad(u, b) <==> Covers(w, b) {
          InsertBlock(w, x, u, b);
        }
      }
    }
  }

  lemma BeforeFits(t: Table, s: int, n: int, ack: bool)
    requires FitsBefore(t, s, n)
    ensures var w := Merged(t, s, n, ack);
            && w.n == 0 && w.hi == Place(t, s) && w.t[w.hi - 1].End() == w.s
            && w.t[w.hi - 1].offset == t[w.hi - 1].offset && w.s == Max(t[w.hi - 1].End(), s + n)
  {
  }

  lemma BeforeRest(t: Table, s: int, n: int, ack: bool)
    requires WellFormed(t) && s >= 0 && n >= 0 && !FitsBefore(t, s, n)
    ensures var w := MergeBefore(Work(t, s, n, Place(t, s)), ack);
            && w.hi == Place(t, s) && w.t[w.hi..] == t[w.hi..] && w.s + w.n == s + n
            && w.s == From(t, s)
            && (n > 0 ==> w.n > 0) && (n == 0 ==> w == Work(t, s, 0, w.hi))
  {
    if Merges(t, s) {
      PlaceAround(t, s);
      RangeAt(t, Place(t, s) - 1);
      var w := MergeBefore(Work(t, s, n, Place(t, s)), ack);
      assert w.t[w.hi..] == t[w.hi..];
    }
  }

  /** Which of the last two phases decides, and on what. */
  lemma RestCases(v: Work, t: Table, ack: bool)
    requires v.n > 0 && v.hi <= |v.t| == |t| && (v.hi < |t| ==> v.t[v.hi] == t[v.hi])
    ensures var w := MergeAfter(v, ack);
            && (w.n > 0 ==> (RestOk(t, v.hi, v.s, v.s + v.n) <==> FillOk(t, w.hi, w.s, w.s + w.n)))
            && (w.n <= 0 ==> w.hi > 0 && w.t[w.hi - 1].End() == w.s
                             && (RestOk(t, v.hi, v.s, v.s + v.n) <==> JoinOk(t, w.hi, w.t[w.hi - 1].offset, w.s)))
  {
    if v.hi < |t| && t[v.hi].offset <= v.s + v.n {
      var e := Max(t[v.hi].End(), v.s + v.n);
      var w := MergeAfter(v, ack);
      if e - v.s <= MAX_LEN {
        assert w.t[w.hi - 1].offset == v.s && w.s == e && w.n == 0;
      } else {
        assert w.s + w.n == e && w.s == v.s + MAX_LEN;
      }
    }
  }

  ghost predicate Adds(w: Work, t: Table, s: int, n: int) {
    && Staged(w, t) && Shadowed(w)
    && forall b :: Covers(w, b) <==> Bad(t, b) || s <= b < s + n
  }

  ghost predicate Succeeds(r: (Table, int), t: Table, s: int, n: int) {
    r.1 == 0 && IsUnion(t, s, n, r.0)
  }

  lemma FinishJoined(w: Work, t: Table, s: int, n: int, ack: bool)
    requires WellFormed(t) && Adds(w, t, s, n) && w.n == 0 && w.hi > 0 && w.t[w.hi - 1].End() == w.s
    ensures Succeeds(Finished(w, ack), t, s, n) <==> JoinOk(t, w.hi, w.t[w.hi - 1].offset, w.s)
  {
    CombineIff(w, t);
    UnionIff(t, s, n, w, Combine(w).t);
  }

  lemma FinishFilled(w: Work, t: Table, s: int, n: int, ack: bool)
    requires Adds(w, t, s, n) && w.n > 0
    ensures Succeeds(Finished(w, ack), t, s, n) <==> FillOk(t, w.hi, w.s, w.s + w.n)
  {
    FillIff(w, t, ack);
    FilledUnion(t, s, n, w, Fill(w.t, w.s, w.n, w.hi, ack).0);
  }

  /** Everything that does not fit into the range before. */
  lemma SetRestIff(v: Work, w: Work, t: Table, s: int, n: int, ack: bool)
    requires WellFormed(t) && v.n > 0 && v.hi <= |v.t| == |t| && v.t[v.hi..] == t[v.hi..]
    requires w == MergeAfter(v, ack) && Adds(w, t, s, n)
    requires v.hi == Place(t, s) && v.s == From(t, s) && v.s + v.n == s + n
    ensures Succeeds(Finished(w, ack), t, s, n) <==> RestOk(t, Place(t, s), From(t, s), s + n)
  {
    if v.hi < |t| {
      assert v.t[v.hi..][0] == t[v.hi..][0];
    }
    RestCases(v, t, ack);
    if w.n > 0 {
      FinishFilled(w, t, s, n, ack);
    } else {
      FinishJoined(w, t, s, n, ack);
    }
  }

  lemma SetNothing(t: Table, s: int, ack: bool)
    requires WellFormed(t) && s >= 0 && !FitsBefore(t, s, 0)
    ensures Succeeds(SetRange(t, s, 0, ack), t, s, 0)
  {
    BeforeRest(t, s, 0, ack);
    PlaceAround(t, s);
  }

  lemma SetFits(t: Table, s: int, n: int, ack: bool)
    requires WellFormed(t) && s >= 0 && n >= 0 && FitsBefore(t, s, n)
    ensures Succeeds(SetRange(t, s, n, ack), t, s, n) <==> Unites(t, s, n)
  {
    AfterMerging(t, s, n, ack);
    BeforeFits(t, s, n, ack);
    FinishJoined(Merged(t, s, n, ack), t, s, n, ack);
  }

  lemma SetRest(t: Table, s: int, n: int, ack: bool)
    requires WellFormed(t) && s >= 0 && n > 0 && !FitsBefore(t, s, n)
    ensures Succeeds(SetRange(t, s, n, ack), t, s, n) <==> Unites(t, s, n)
  {
    var v, w := MergeBefore(Work(t, s, n, Place(t, s)), ack), Merged(t, s, n, ack);
    AfterMerging(t, s, n, ack);
    BeforeRest(t, s, n, ack);
    SetRestIff(v, w, t, s, n, ack);
  }

  /** badblocks_set is the union of the old set and the new range, in a well-formed table and with
      return value 0, if and only if the condition holds. */
  lemma SetIff(t: Table, s: int, n: int, ack: bool)
    requires WellFormed(t) && s >= 0 && n >= 0
    ensures Succeeds(SetRange(t, s, n, ack), t, s, n) <==> Unites(t, s, n)
  {
    if FitsBefore(t, s, n) {
      SetFits(t, s, n, ack);
    } else if n == 0 {
      SetNothing(t, s, ack);
    } else {
      SetRest(t, s, n, ack);
    }
  }

  lemma UnionIff(t: Table, s: int, n: int, w: Work, r: Table)
    requires w.n == 0 && forall b :: Covers(w, b) <==> Bad(t, b) || s <= b < s + n
    ensures IsUnion(t, s, n, r) <==> WellFormed(r) && SameBlocks(r, w.t)
  {
    forall b ensures Bad(w.t, b) <==> Bad(t, b) || s <= b < s + n {
      assert Covers(w, b) <==> Bad(w.t, b);
    }
  }

  lemma FilledUnion(t: Table, s: int, n: int, w: Work, r: Table)
    requires forall b :: Covers(w, b) <==> Bad(t, b) || s <= b < s + n
    ensures IsUnion(t, s, n, r) <==> WellFormed(r) && forall b :: Bad(r, b) <==> Covers(w, b)
  {
  }

  /** A condition that is easy to see: at most 512 blocks, a free slot, and no range that starts
      behind the start of the new one overlaps it. */
  lemma SimpleUnites(t: Table, s: int, n: int)
    requires WellFormed(t) && s >= 0 && 0 <= n <= MAX_LEN && |t| < MAX_BADBLOCKS
    requires forall i :: 0 <= i < |t| && t[i].offset > s ==> t[i].offset >= s + n
    ensures Unites(t, s, n)
  {
    var hi := Place(t, s);
    PlaceAround(t, s);
    WellFormedOrdered(t);
    if hi > 0 {
      assert RangeOk(t[hi - 1]);
    }
    if hi < |t| {
      assert RangeOk(t[hi]);
    }
    if FitsBefore(t, s, n) {
      assert hi < |t| ==> t[hi - 1].End() <= t[hi].offset;
    } else if hi < |t| && t[hi].offset <= s + n {
      assert hi + 1 < |t| ==> t[hi].End() <= t[hi + 1].offset;
    }
  }

  /** It is not the union for every range: here the new range covers two later ones, and the blocks
      behind the second are lost. */
  lemma SetLosesBlocks()
    ensures var t := [Entry(10, 2, true), Entry(14, 2, true)];
            && WellFormed(t)
            && SetRange(t, 8, 22, true) == ([Entry(8, 8, true)], 0)
            && !Bad([Entry(8, 8, true)], 20)
  {
    var t := [Entry(10, 2, true), Entry(14, 2, true)];
    assert t[1..] == [Entry(14, 2, true)] && t[1..][1..] == [];
    assert Place(t, 8) == 0;
    var w := Merged(t, 8, 22, true);
    assert w == Work([Entry(8, 22, true), Entry(14, 2, true)], 30, 0, 1);
    assert w.t[..0] + [Entry(8, 8, true)] + w.t[2..] == [Entry(8, 8, true)];
    BadOne(Entry(8, 8, true), 20, true);
  }

  /** Nor does it keep the table in order when it needs two new ranges. */
  lemma SetSpoilsOrder()
    ensures var r := [Entry(512, 100, false), Entry(0, 512, false)];
            SetRange([], 0, 612, false) == (r, 0) && !WellFormed(r)
  {
    var a, b := Entry(0, 512, false), Entry(512, 100, false);
    var e: Table := [];
    assert Merged(e, 0, 612, false) == Work(e, 0, 612, 0);
    assert e[..0] + [a] + e[0..] == [a];
    assert [a][..0] + [b] + [a][0..] == [b, a];
    assert Fill([a], 512, 100, 0, false) == ([b, a], 0);
  }

  lemma {:induction false} PlaceUnique(t: Table, s: int, hi: nat)
    requires hi <= |t|
    requires forall i :: 0 <= i < hi ==> t[i].offset <= s
    requires hi < |t| ==> t[hi].offset > s
    ensures hi == Place(t, s)
  {
    if hi > 0 {
      PlaceUnique(t[1..], s, hi - 1);
    }
  }

  lemma MergesLeaveRest(w: Work, ack: bool)
    requires w.hi <= |w.t| && w.n >= 0
    ensures MergeAfter(MergeBefore(w, ack), ack).n >= 0
  {
  }
}
