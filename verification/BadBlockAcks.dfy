/** What badblocks_set does to acknowledgements. */
module BadBlockAcks {
  import opened BadBlockMerge
  import opened BadBlockRanges
  import opened Basics

  // ---------------------------------------------------------------- an unacknowledged request

  /** Every acknowledged range is one of the old table. */
  ghost predicate NothingNew(t: Table, r: Table) {
    forall e :: e in r && e.ack ==> e in t
  }

  lemma {:induction false} FillNothingNew(t: Table, u: Table, s: int, n: int, hi: nat)
    requires hi <= |u| && NothingNew(t, u)
    ensures NothingNew(t, Fill(u, s, n, hi, false).0)
    decreases n
  {
    if n > 0 && |u| < MAX_BADBLOCKS {
      var k := if n > MAX_LEN then MAX_LEN else n;
      FillNothingNew(t, u[..hi] + [Entry(s, k, false)] + u[hi..], s + k, n - k, hi);
    }
  }

  lemma CombineNothingNew(t: Table, w: Work)
    requires w.hi <= |w.t| && NothingNew(t, w.t)
    requires w.hi > 0 && w.n == 0 && w.hi < |w.t| && w.s >= w.t[w.hi].offset ==> !w.t[w.hi - 1].ack
    ensures NothingNew(t, Combine(w).t)
  {
  }

  lemma BeforeNothingNew(t: Table, s: int, n: int)
    ensures var v := MergeBefore(Work(t, s, n, Place(t, s)), false);
            NothingNew(t, v.t) && (v.n == 0 && v.hi > 0 && v.s > s ==> !v.t[v.hi - 1].ack)
  {
  }

  lemma AfterNothingNew(t: Table, v: Work)
    requires v.hi <= |v.t| && NothingNew(t, v.t)
    ensures var w := MergeAfter(v, false);
            NothingNew(t, w.t) && (w != v ==> !w.t[w.hi - 1].ack)
  {
  }

  /** An unacknowledged request acknowledges nothing. */
  lemma NeverAcknowledges(t: Table, s: int, n: int)
    requires WellFormed(t) && s >= 0 && n >= 0
    ensures NothingNew(t, SetRange(t, s, n, false).0)
  {
    var v := MergeBefore(Work(t, s, n, Place(t, s)), false);
    var w := MergeAfter(v, false);
    BeforeNothingNew(t, s, n);
    AfterNothingNew(t, v);
    PlaceAround(t, s);
    assert w == v && w.hi < |w.t| ==> w.t[w.hi] == t[w.hi];
    CombineNothingNew(t, w);
    var c := Combine(w);
    FillNothingNew(t, c.t, c.s, c.n, c.hi);
  }

  // ---------------------------------------------------------------- the flag of every block

  /** The flag of the range before, once the request is merged into it. */
  predicate FrontAck(p: Entry, s: int, n: int, ack: bool) {
    if s == p.offset && s + n >= p.End() then ack else p.ack && ack
  }

  /** The flag of the range behind, once a request that ends at `end` is merged into it. */
  predicate BackAck(f: Entry, end: int, ack: bool) {
    if f.End() <= end then ack else f.ack && ack
  }

  /** The merged range from `a` to `e` is combined with the range at position `k`. */
  predicate Combines(t: Table, k: nat, a: int, e: int) {
    k < |t| && e >= t[k].offset && t[k].End() - a < MAX_LEN
  }

  /** Is block `b` acknowledged, after a merged range from `a` to `e` with this flag was made? */
  ghost predicate AckedJoined(t: Table, k: nat, a: int, e: int, flag: bool, b: int) {
    if Combines(t, k, a, e) then if a <= b < t[k].End() then flag && t[k].ack else BadAs(t, b, true)
    else if a <= b < e then flag else BadAs(t, b, true)
  }

  /** The same, after the part from `from` to `end` that the range before did not take in was added. */
  ghost predicate AckedRest(t: Table, hi: nat, from: int, end: int, ack: bool, b: int) {
    if hi < |t| && t[hi].offset <= end then
      var e, back := Max(t[hi].End(), end), BackAck(t[hi], end, ack);
      if e - from <= MAX_LEN then AckedJoined(t, hi + 1, from, e, back, b)
      else if from <= b < from + MAX_LEN then back
      else if from + MAX_LEN <= b < e then ack
      else BadAs(t, b, true)
    else if from <= b < end then ack else BadAs(t, b, true)
  }

  /** The same, after the whole request. */
  ghost predicate AckedAfter(t: Table, s: int, n: int, ack: bool, b: int) {
    var hi := Place(t, s);
    if FitsBefore(t, s, n) then
      AckedJoined(t, hi, t[hi - 1].offset, Max(t[hi - 1].End(), s + n), FrontAck(t[hi - 1], s, n, ack), b)
    else if n == 0 then BadAs(t, b, true)
    else if Merges(t, s) && t[hi - 1].offset <= b < From(t, s) then
      if t[hi - 1].len == MAX_LEN then t[hi - 1].ack else FrontAck(t[hi - 1], s, n, ack)
    else AckedRest(t, hi, From(t, s), s + n, ack, b)
  }

  lemma OneFlag(t: Table, b: int, flag: bool)
    requires WellFormed(t) && BadAs(t, b, flag)
    ensures BadAs(t, b, true) <==> flag
    ensures BadAs(t, b, false) <==> !flag
  {
    WellFormedOrdered(t);
    var i :| 0 <= i < |t| && Has(t[i], b) && t[i].ack == flag;
    forall j | 0 <= j < |t| && Has(t[j], b) ensures j == i {
    }
  }

  lemma FlagAt(t: Table, i: nat, b: int)
    requires i < |t| && Has(t[i], b)
    ensures BadAs(t, b, t[i].ack)
  {
  }

  /** Combining two ranges, seen from one block: in the combined range, or in one of the others. */
  lemma FlagCombined(w: Work, t: Table, a: int, e: int, flag: bool, i: nat, b: int)
    requires 0 < w.hi <= |w.t| == |t| && w.n == 0 && w.s == e && w.t[w.hi..] == t[w.hi..]
    requires w.t[w.hi - 1] == Entry(a, e - a, flag)
    requires i < |w.t| && Has(w.t[i], b)
    ensures var join := Combines(t, w.hi, a, e);
            && (join && a <= b < t[w.hi].End() ==> BadAs(Combine(w).t, b, flag && t[w.hi].ack))
            && (!join || (i != w.hi - 1 && i != w.hi) ==> BadAs(Combine(w).t, b, w.t[i].ack))
  {
    var c := Combine(w);
    if Combines(t, w.hi, a, e) {
      assert w.t[w.hi..][0] == t[w.hi..][0];
      assert c.t[w.hi - 1] == Entry(a, t[w.hi].End() - a, flag && t[w.hi].ack);
      if a <= b < t[w.hi].End() {
        FlagAt(c.t, w.hi - 1, b);
      }
      if i < w.hi - 1 {
        assert c.t[i] == w.t[i];
        FlagAt(c.t, i, b);
      }
      if i > w.hi {
        assert c.t[i - 1] == w.t[i];
        FlagAt(c.t, i - 1, b);
      }
    } else {
      assert w.hi < |t| ==> w.t[w.hi..][0] == t[w.hi..][0];
      FlagAt(w.t, i, b);
    }
  }

  /** Where the merged range ends after combining. */
  function Behind(t: Table, k: nat, a: int, e: int): (end: int) {
    if Combines(t, k, a, e) then t[k].End() else e
  }

  /** The same as one statement; a block that the range does not hold is held by an old one, at `i`. */
  lemma FlagJoined(w: Work, t: Table, a: int, e: int, flag: bool, i: nat, b: int)
    requires 0 < w.hi <= |w.t| == |t| && w.n == 0 && w.s == e && w.t[w.hi..] == t[w.hi..] && WellFormed(t)
    requires w.t[w.hi - 1] == Entry(a, e - a, flag)
    requires a <= b < Behind(t, w.hi, a, e)
             || (i < |t| && w.t[i] == t[i] && Has(t[i], b) && i != w.hi - 1 && (Combines(t, w.hi, a, e) ==> i != w.hi))
    ensures BadAs(Combine(w).t, b, AckedJoined(t, w.hi, a, e, flag, b))
  {
    if a <= b < Behind(t, w.hi, a, e) {
      if w.hi < |t| {
        assert w.t[w.hi..][0] == t[w.hi..][0];
      }
      FlagCombined(w, t, a, e, flag, if b < e then w.hi - 1 else w.hi, b);
    } else {
      FlagCombined(w, t, a, e, flag, i, b);
      FlagAt(t, i, b);
      OneFlag(t, b, t[i].ack);
    }
  }

  /** A block behind or before the merged range was bad already, in a range that is still there. */
  lemma FlagOutside(t: Table, k: nat, a: int, e: int, b: int) returns (i: nat)
    requires WellFormed(t) && 0 < k <= |t| && t[k - 1].offset == a && t[k - 1].End() <= e && JoinOk(t, k, a, e)
    requires (Bad(t, b) || a <= b < e) && !(a <= b < Behind(t, k, a, e))
    ensures i < |t| && Has(t[i], b) && i != k - 1 && (Combines(t, k, a, e) ==> i != k)
  {
    WellFormedOrdered(t);
    assert Bad(t, b);
    i :| 0 <= i < |t| && Has(t[i], b);
    if k < |t| {
      assert t[k - 1].End() <= t[k].offset;
    }
  }

  /** A request that fits into the range before. */
  lemma FlagFits(t: Table, s: int, n: int, ack: bool, b: int)
    requires WellFormed(t) && s >= 0 && n >= 0 && FitsBefore(t, s, n) && Unites(t, s, n)
    requires Bad(t, b) || s <= b < s + n
    ensures BadAs(SetRange(t, s, n, ack).0, b, AckedAfter(t, s, n, ack, b))
  {
    var hi, w := Place(t, s), Merged(t, s, n, ack);
    var p := t[hi - 1];
    var e, flag := Max(p.End(), s + n), FrontAck(p, s, n, ack);
    PlaceAround(t, s);
    assert w == Work(t[hi - 1 := Entry(p.offset, e - p.offset, flag)], e, 0, hi);
    var i: nat := 0;
    if !(p.offset <= b < Behind(t, hi, p.offset, e)) {
      i := FlagOutside(t, hi, p.offset, e, b);
    }
    FlagJoined(w, t, p.offset, e, flag, i, b);
  }

  /** The table after the range before has taken in what it can. */
  function Grown(t: Table, s: int, n: int, ack: bool): (u: Table)
    ensures |u| == |t|
  {
    var hi := Place(t, s);
    if Merges(t, s) && t[hi - 1].len != MAX_LEN
    then t[hi - 1 := Entry(t[hi - 1].offset, MAX_LEN, FrontAck(t[hi - 1], s, n, ack))] else t
  }

  /** Block `b` is in the range before, which is full afterwards. */
  predicate InFront(t: Table, s: int, b: int) {
    Merges(t, s) && t[Place(t, s) - 1].offset <= b < From(t, s)
  }

  lemma BeforeGrown(t: Table, s: int, n: int, ack: bool)
    requires WellFormed(t) && s >= 0 && n > 0 && !FitsBefore(t, s, n)
    ensures MergeBefore(Work(t, s, n, Place(t, s)), ack)
         == Work(Grown(t, s, n, ack), From(t, s), s + n - From(t, s), Place(t, s))
    ensures s + n > From(t, s)
  {
    BeforeRest(t, s, n, ack);
  }

  /** The range behind is merged with the request. */
  predicate Touches(t: Table, s: int, n: int) {
    Place(t, s) < |t| && t[Place(t, s)].offset <= s + n
  }

  /** A bad block outside all ranges that change keeps its place. */
  lemma OldHolder(t: Table, s: int, n: int, ack: bool, b: int) returns (i: nat)
    requires WellFormed(t) && Bad(t, b) && !InFront(t, s, b)
    requires Touches(t, s, n) ==> !(From(t, s) <= b < t[Place(t, s)].End())
    ensures i < |t| && Has(t[i], b) && (Touches(t, s, n) ==> i != Place(t, s))
    ensures Grown(t, s, n, ack)[i] == t[i]
  {
    PlaceAround(t, s);
    i :| 0 <= i < |t| && Has(t[i], b);
    RangeAt(t, i);
  }

  lemma FillOnce(t: Table, s: int, n: int, hi: nat, ack: bool)
    requires 0 < n <= MAX_LEN && |t| < MAX_BADBLOCKS && hi <= |t|
    ensures Fill(t, s, n, hi, ack).0 == t[..hi] + [Entry(s, n, ack)] + t[hi..]
  {
  }

  /** A new range is put in, and the others stay. */
  lemma FlagInserted(t: Table, hi: nat, x: Entry, i: nat, b: int)
    requires hi <= |t| && (Has(x, b) || (i < |t| && Has(t[i], b)))
    ensures BadAs(t[..hi] + [x] + t[hi..], b, if Has(x, b) then x.ack else t[i].ack)
  {
    var u := t[..hi] + [x] + t[hi..];
    if Has(x, b) {
      FlagAt(u, hi, b);
    } else {
      FlagAt(u, if i < hi then i else i + 1, b);
    }
  }

  /** The old flag of a block, by its range. */
  lemma OldFlag(t: Table, i: nat, b: int)
    requires WellFormed(t) && i < |t| && Has(t[i], b)
    ensures t[i].ack == BadAs(t, b, true)
  {
    FlagAt(t, i, b);
    OneFlag(t, b, t[i].ack);
  }

  /** A block in the range before, wherever the rest of the request went. */
  lemma AckedFront(t: Table, s: int, n: int, ack: bool, b: int)
    requires WellFormed(t) && n > 0 && !FitsBefore(t, s, n) && InFront(t, s, b)
    ensures Has(Grown(t, s, n, ack)[Place(t, s) - 1], b)
    ensures Grown(t, s, n, ack)[Place(t, s) - 1].ack == AckedAfter(t, s, n, ack, b)
  {
  }

  lemma AckedBehind(t: Table, s: int, n: int, ack: bool, b: int)
    requires n > 0 && !FitsBefore(t, s, n) && !InFront(t, s, b)
    ensures AckedAfter(t, s, n, ack, b) == AckedRest(t, Place(t, s), From(t, s), s + n, ack, b)
  {
  }

  lemma AloneTable(t: Table, s: int, n: int, ack: bool)
    requires WellFormed(t) && s >= 0 && n > 0 && !FitsBefore(t, s, n) && Unites(t, s, n) && !Touches(t, s, n)
    ensures var g, hi, from := Grown(t, s, n, ack), Place(t, s), From(t, s);
            SetRange(t, s, n, ack).0 == g[..hi] + [Entry(from, s + n - from, ack)] + g[hi..]
  {
    var g, hi, from := Grown(t, s, n, ack), Place(t, s), From(t, s);
    BeforeGrown(t, s, n, ack);
    PlaceAround(t, s);
    assert Merged(t, s, n, ack) == Work(g, from, s + n - from, hi);
    FillOnce(g, from, s + n - from, hi, ack);
  }

  /** Nothing behind is touched: the rest becomes a range of its own. */
  lemma FlagAlone(t: Table, s: int, n: int, ack: bool, b: int)
    requires WellFormed(t) && s >= 0 && n > 0 && !FitsBefore(t, s, n) && Unites(t, s, n) && !Touches(t, s, n)
    requires Bad(t, b) || s <= b < s + n
    ensures BadAs(SetRange(t, s, n, ack).0, b, AckedAfter(t, s, n, ack, b))
  {
    var hi, g, from := Place(t, s), Grown(t, s, n, ack), From(t, s);
    var x := Entry(from, s + n - from, ack);
    AloneTable(t, s, n, ack);
    if InFront(t, s, b) {
      AckedFront(t, s, n, ack, b);
      FlagInserted(g, hi, x, hi - 1, b);
    } else {
      AckedBehind(t, s, n, ack, b);
      if from <= b < s + n {
        FlagInserted(g, hi, x, 0, b);
      } else {
        PlaceAround(t, s);
        var i := OldHolder(t, s, n, ack, b);
        FlagInserted(g, hi, x, i, b);
        OldFlag(t, i, b);
      }
    }
  }

  /** The work after the range behind and the rest of the request became one range, of at most 512 blocks. */
  function Touched(t: Table, s: int, n: int, ack: bool): (w: Work)
    requires Touches(t, s, n)
  {
    var hi, from, f := Place(t, s), From(t, s), t[Place(t, s)];
    var e := Max(f.End(), s + n);
    var len := Min(e - from, MAX_LEN);
    Work(Grown(t, s, n, ack)[hi := Entry(from, len, BackAck(f, s + n, ack))], from + len, e - from - len, hi + 1)
  }

  lemma MergeTouched(v: Work, f: Entry, end: int, ack: bool)
    requires v.n > 0 && v.hi < |v.t| && v.t[v.hi] == f && f.offset <= end == v.s + v.n
    ensures var e := Max(f.End(), end);
            var len := Min(e - v.s, MAX_LEN);
            MergeAfter(v, ack)
              == Work(v.t[v.hi := Entry(v.s, len, BackAck(f, end, ack))], v.s + len, e - v.s - len, v.hi + 1)
  {
  }

  lemma GrownBehind(t: Table, s: int, n: int, ack: bool)
    ensures Place(t, s) < |t| ==> Grown(t, s, n, ack)[Place(t, s)] == t[Place(t, s)]
  {
  }

  lemma TouchedMerged(t: Table, s: int, n: int, ack: bool)
    requires WellFormed(t) && s >= 0 && n > 0 && !FitsBefore(t, s, n) && Touches(t, s, n)
    ensures Merged(t, s, n, ack) == Touched(t, s, n, ack)
  {
    BeforeGrown(t, s, n, ack);
    GrownBehind(t, s, n, ack);
    MergeTouched(Work(Grown(t, s, n, ack), From(t, s), s + n - From(t, s), Place(t, s)), t[Place(t, s)], s + n, ack);
  }

  /** The blocks that the joined range leaves out were bad before, in a range that is still there. */
  lemma JoinedHolder(t: Table, s: int, n: int, ack: bool, b: int) returns (i: nat)
    requires WellFormed(t) && s >= 0 && n > 0 && !FitsBefore(t, s, n) && Touches(t, s, n) && !InFront(t, s, b)
    requires var hi := Place(t, s);
             var e := Max(t[hi].End(), s + n);
             && JoinOk(t, hi + 1, From(t, s), e) && (Bad(t, b) || s <= b < s + n)
             && !(From(t, s) <= b < Behind(t, hi + 1, From(t, s), e))
    ensures var hi := Place(t, s);
            && i < |t| && Has(t[i], b) && i != hi
            && (Combines(t, hi + 1, From(t, s), Max(t[hi].End(), s + n)) ==> i != hi + 1)
    ensures Grown(t, s, n, ack)[i] == t[i]
  {
    var hi := Place(t, s);
    PlaceAround(t, s);
    RangeAt(t, hi);
    if hi + 1 < |t| {
      RangeAt(t, hi + 1);
      SplitWellFormed(t, hi + 1);
    }
    i := OldHolder(t, s, n, ack, b);
  }

  /** The work when the range behind and the rest of the request fit together. */
  lemma TouchedWhole(t: Table, s: int, n: int, ack: bool)
    requires WellFormed(t) && s >= 0 && n > 0 && !FitsBefore(t, s, n) && Touches(t, s, n)
    requires Max(t[Place(t, s)].End(), s + n) - From(t, s) <= MAX_LEN
    ensures var w, from, e := Touched(t, s, n, ack), From(t, s), Max(t[Place(t, s)].End(), s + n);
            && 0 < w.hi <= |w.t| == |t| && w.n == 0 && w.s == e && w.t[w.hi..] == t[w.hi..]
            && w.t[w.hi - 1] == Entry(from, e - from, BackAck(t[w.hi - 1], s + n, ack))
            && SetRange(t, s, n, ack).0 == Combine(w).t
  {
    TouchedMerged(t, s, n, ack);
  }

  lemma FlagJoinedFront(t: Table, s: int, n: int, ack: bool, b: int)
    requires WellFormed(t) && s >= 0 && n > 0 && !FitsBefore(t, s, n) && Touches(t, s, n) && InFront(t, s, b)
    requires Max(t[Place(t, s)].End(), s + n) - From(t, s) <= MAX_LEN
    ensures BadAs(SetRange(t, s, n, ack).0, b, AckedAfter(t, s, n, ack, b))
  {
    var w, e := Touched(t, s, n, ack), Max(t[Place(t, s)].End(), s + n);
    TouchedWhole(t, s, n, ack);
    AckedFront(t, s, n, ack, b);
    FlagCombined(w, t, From(t, s), e, BackAck(t[w.hi - 1], s + n, ack), w.hi - 2, b);
  }

  lemma FlagJoinedBehind(t: Table, s: int, n: int, ack: bool, b: int)
    requires WellFormed(t) && s >= 0 && n > 0 && !FitsBefore(t, s, n) && Touches(t, s, n) && !InFront(t, s, b)
    requires var e := Max(t[Place(t, s)].End(), s + n);
             e - From(t, s) <= MAX_LEN && JoinOk(t, Place(t, s) + 1, From(t, s), e)
    requires Bad(t, b) || s <= b < s + n
    ensures var hi, e := Place(t, s), Max(t[Place(t, s)].End(), s + n);
            BadAs(SetRange(t, s, n, ack).0, b,
                  AckedJoined(t, hi + 1, From(t, s), e, BackAck(t[hi], s + n, ack), b))
  {
    var hi, w, from := Place(t, s), Touched(t, s, n, ack), From(t, s);
    var e, back := Max(t[hi].End(), s + n), BackAck(t[hi], s + n, ack);
    TouchedWhole(t, s, n, ack);
    if from <= b < Behind(t, hi + 1, from, e) {
      FlagJoined(w, t, from, e, back, 0, b);
    } else {
      var i := JoinedHolder(t, s, n, ack, b);
      FlagJoined(w, t, from, e, back, i, b);
    }
  }

  lemma FlagWhole(t: Table, s: int, n: int, ack: bool, b: int)
    requires WellFormed(t) && s >= 0 && n > 0 && !FitsBefore(t, s, n) && Unites(t, s, n) && Touches(t, s, n)
    requires Max(t[Place(t, s)].End(), s + n) - From(t, s) <= MAX_LEN
    requires Bad(t, b) || s <= b < s + n
    ensures BadAs(SetRange(t, s, n, ack).0, b, AckedAfter(t, s, n, ack, b))
  {
    if InFront(t, s, b) {
      FlagJoinedFront(t, s, n, ack, b);
    } else {
      AckedBehind(t, s, n, ack, b);
      FlagJoinedBehind(t, s, n, ack, b);
    }
  }

  lemma SplitFilled(w: Work, ack: bool)
    requires 0 < w.n <= MAX_LEN && |w.t| < MAX_BADBLOCKS && w.hi <= |w.t|
    ensures Finished(w, ack).0 == w.t[..w.hi] + [Entry(w.s, w.n, ack)] + w.t[w.hi..]
  {
    FillOnce(w.t, w.s, w.n, w.hi, ack);
  }

  lemma SplitRoom(t: Table, s: int, n: int, ack: bool)
    requires n > 0 && !FitsBefore(t, s, n) && Unites(t, s, n) && Touches(t, s, n)
    requires Max(t[Place(t, s)].End(), s + n) - From(t, s) > MAX_LEN
    ensures var w := Touched(t, s, n, ack); 0 < w.n <= MAX_LEN && |w.t| < MAX_BADBLOCKS && w.hi <= |w.t|
  {
  }

  lemma SplitTable(t: Table, s: int, n: int, ack: bool)
    requires WellFormed(t) && s >= 0 && n > 0 && !FitsBefore(t, s, n) && Unites(t, s, n) && Touches(t, s, n)
    requires Max(t[Place(t, s)].End(), s + n) - From(t, s) > MAX_LEN
    ensures var w := Touched(t, s, n, ack);
            w.hi <= |w.t| && SetRange(t, s, n, ack).0 == w.t[..w.hi] + [Entry(w.s, w.n, ack)] + w.t[w.hi..]
  {
    TouchedMerged(t, s, n, ack);
    SplitRoom(t, s, n, ack);
    SplitFilled(Touched(t, s, n, ack), ack);
  }

  lemma FlagSplitFront(t: Table, s: int, n: int, ack: bool, x: Entry, b: int)
    requires WellFormed(t) && n > 0 && !FitsBefore(t, s, n) && Touches(t, s, n) && InFront(t, s, b) && !Has(x, b)
    ensures var w := Touched(t, s, n, ack);
            BadAs(w.t[..w.hi] + [x] + w.t[w.hi..], b, AckedAfter(t, s, n, ack, b))
  {
    var w := Touched(t, s, n, ack);
    AckedFront(t, s, n, ack, b);
    FlagInserted(w.t, w.hi, x, w.hi - 2, b);
  }

  lemma FlagSplitBehind(t: Table, s: int, n: int, ack: bool, b: int)
    requires WellFormed(t) && n > 0 && !FitsBefore(t, s, n) && Touches(t, s, n) && !InFront(t, s, b)
    requires Max(t[Place(t, s)].End(), s + n) - From(t, s) > MAX_LEN
    requires Bad(t, b) || s <= b < s + n
    ensures var w := Touched(t, s, n, ack);
            BadAs(w.t[..w.hi] + [Entry(w.s, w.n, ack)] + w.t[w.hi..], b,
                  AckedRest(t, Place(t, s), From(t, s), s + n, ack, b))
  {
    var w := Touched(t, s, n, ack);
    var x := Entry(w.s, w.n, ack);
    if From(t, s) <= b < w.s + w.n {
      FlagInserted(w.t, w.hi, x, w.hi - 1, b);
    } else {
      PlaceAround(t, s);
      var i := OldHolder(t, s, n, ack, b);
      FlagInserted(w.t, w.hi, x, i, b);
      OldFlag(t, i, b);
    }
  }

  lemma FlagSplit(t: Table, s: int, n: int, ack: bool, b: int)
    requires WellFormed(t) && s >= 0 && n > 0 && !FitsBefore(t, s, n) && Unites(t, s, n) && Touches(t, s, n)
    requires Max(t[Place(t, s)].End(), s + n) - From(t, s) > MAX_LEN
    requires Bad(t, b) || s <= b < s + n
    ensures BadAs(SetRange(t, s, n, ack).0, b, AckedAfter(t, s, n, ack, b))
  {
    var w := Touched(t, s, n, ack);
    SplitTable(t, s, n, ack);
    if InFront(t, s, b) {
      FlagSplitFront(t, s, n, ack, Entry(w.s, w.n, ack), b);
    } else {
      AckedBehind(t, s, n, ack, b);
      FlagSplitBehind(t, s, n, ack, b);
    }
  }

  lemma FlagNothing(t: Table, s: int, ack: bool, b: int)
    requires WellFormed(t) && s >= 0 && !FitsBefore(t, s, 0) && Bad(t, b)
    ensures BadAs(SetRange(t, s, 0, ack).0, b, AckedAfter(t, s, 0, ack, b))
  {
    BeforeRest(t, s, 0, ack);
    PlaceAround(t, s);
    var i :| 0 <= i < |t| && Has(t[i], b);
    OldFlag(t, i, b);
    FlagAt(t, i, b);
  }

  /** On every block that is bad after a request that unites: acknowledged exactly as stated, in the
      blocks of the request and outside them. */
  lemma FlagAfter(t: Table, s: int, n: int, ack: bool, b: int)
    requires WellFormed(t) && s >= 0 && n >= 0 && Unites(t, s, n)
    requires Bad(t, b) || s <= b < s + n
    ensures BadAs(SetRange(t, s, n, ack).0, b, true) <==> AckedAfter(t, s, n, ack, b)
    ensures BadAs(SetRange(t, s, n, ack).0, b, false) <==> !AckedAfter(t, s, n, ack, b)
  {
    if FitsBefore(t, s, n) {
      FlagFits(t, s, n, ack, b);
    } else if n == 0 {
      FlagNothing(t, s, ack, b);
    } else if !Touches(t, s, n) {
      FlagAlone(t, s, n, ack, b);
    } else if Max(t[Place(t, s)].End(), s + n) - From(t, s) <= MAX_LEN {
      FlagWhole(t, s, n, ack, b);
    } else {
      FlagSplit(t, s, n, ack, b);
    }
    SetIff(t, s, n, ack);
    OneFlag(SetRange(t, s, n, ack).0, b, AckedAfter(t, s, n, ack, b));
  }

  // ---------------------------------------------------------------- an acknowledged request

  /** The rest of the range behind, where the merged range would be too long. */
  predicate Spills(t: Table, s: int, n: int, b: int) {
    var hi := Place(t, s);
    && !FitsBefore(t, s, n) && n > 0 && hi < |t| && t[hi].offset <= s + n
    && Has(t[hi], b) && b >= From(t, s) + MAX_LEN
  }

  /** An unacknowledged block outside the request, when the request fits into the range before. */
  lemma OutsideFits(t: Table, s: int, n: int, ack: bool, i: nat, b: int)
    requires WellFormed(t) && FitsBefore(t, s, n) && i < |t| && Has(t[i], b) && !t[i].ack && !(s <= b < s + n)
    ensures !AckedAfter(t, s, n, ack, b)
  {
    WellFormedOrdered(t);
    OldFlag(t, i, b);
    PlaceAround(t, s);
    var hi := Place(t, s);
    assert i < hi - 1 ==> t[i].End() <= t[hi - 1].offset;
    assert i > hi ==> t[hi].End() <= t[i].offset;
    assert i > hi - 1 ==> t[hi - 1].End() <= t[i].offset;
  }

  lemma OutsideFront(t: Table, s: int, n: int, ack: bool, i: nat, b: int)
    requires WellFormed(t) && s >= 0 && n > 0 && !FitsBefore(t, s, n) && InFront(t, s, b)
    requires i < |t| && Has(t[i], b) && !t[i].ack && !(s <= b < s + n)
    ensures !AckedAfter(t, s, n, ack, b)
  {
    WellFormedOrdered(t);
    PlaceAround(t, s);
    BeforeGrown(t, s, n, ack);
  }

  /** Where the range that holds the block lies, if it is not the range before. */
  lemma OutsideWhere(t: Table, s: int, i: nat, b: int)
    requires WellFormed(t) && !InFront(t, s, b) && i < |t| && Has(t[i], b)
    ensures var hi := Place(t, s);
            && (i < hi ==> b < s) && (i > hi ==> t[hi].End() <= b) && (i > hi + 1 ==> t[hi + 1].End() <= b)
            && (hi < |t| ==> s < t[hi].offset < t[hi].End()) && (i != hi && hi < |t| ==> !Has(t[hi], b))
  {
    WellFormedOrdered(t);
    PlaceAround(t, s);
    if Place(t, s) < |t| {
      assert RangeOk(t[Place(t, s)]);
    }
  }

  lemma OutsideRest(t: Table, s: int, n: int, ack: bool, i: nat, b: int)
    requires WellFormed(t) && s >= 0 && n > 0 && !FitsBefore(t, s, n) && !InFront(t, s, b)
    requires i < |t| && Has(t[i], b) && !t[i].ack && !(s <= b < s + n)
    ensures AckedAfter(t, s, n, ack, b) <==> ack && Spills(t, s, n, b)
  {
    OldFlag(t, i, b);
    OutsideWhere(t, s, i, b);
    AckedBehind(t, s, n, ack, b);
    OutsideFrom(t, s, n, b);
    OutsideBehind(t, Place(t, s), From(t, s), s + n, ack, i, b);
  }

  lemma OutsideFrom(t: Table, s: int, n: int, b: int)
    requires WellFormed(t) && !(s <= b < s + n)
    ensures From(t, s) <= b ==> s + n <= b
  {
    if Merges(t, s) {
      RangeAt(t, Place(t, s) - 1);
    }
  }

  lemma OutsideBehind(t: Table, hi: nat, from: int, end: int, ack: bool, i: nat, b: int)
    requires i < |t| && Has(t[i], b) && !t[i].ack && !BadAs(t, b, true) && (from <= b ==> end <= b)
    requires (i < hi ==> b < from) && (i > hi ==> t[hi].End() <= b) && (i > hi + 1 ==> t[hi + 1].End() <= b)
    ensures AckedRest(t, hi, from, end, ack, b) <==>
              ack && hi < |t| && t[hi].offset <= end && Has(t[hi], b) && b >= from + MAX_LEN
  {
  }

  /** A bad block outside the request that is not acknowledged stays so, except for those that spill
      over from the range behind into a new range when the request is acknowledged. */
  lemma UnackedKept(t: Table, s: int, n: int, ack: bool, b: int)
    requires WellFormed(t) && s >= 0 && n >= 0 && Unites(t, s, n)
    requires BadAs(t, b, false) && !(s <= b < s + n)
    ensures BadAs(SetRange(t, s, n, ack).0, b, false) <==> !(ack && Spills(t, s, n, b))
  {
    FlagAfter(t, s, n, ack, b);
    var i :| 0 <= i < |t| && Has(t[i], b) && t[i].ack == false;
    if FitsBefore(t, s, n) {
      OutsideFits(t, s, n, ack, i, b);
    } else if n == 0 {
      OldFlag(t, i, b);
    } else if InFront(t, s, b) {
      OutsideFront(t, s, n, ack, i, b);
    } else {
      OutsideRest(t, s, n, ack, i, b);
    }
  }

  /** The exception is real: of a full range of 512 blocks that is not acknowledged, the end is
      acknowledged by a request for the two blocks before it. */
  lemma SpillHappens()
    ensures var t := [Entry(2, 512, false)];
            && WellFormed(t) && Unites(t, 0, 2)
            && SetRange(t, 0, 2, true) == ([Entry(0, 512, false), Entry(512, 2, true)], 0)
  {
    var t := [Entry(2, 512, false)];
    assert t[1..] == [];
    assert Place(t, 0) == 0;
    var u := [Entry(0, 512, false)];
    assert Merged(t, 0, 2, true) == Work(u, 512, 2, 1);
    assert u[..1] + [Entry(512, 2, true)] + u[1..] == [Entry(0, 512, false), Entry(512, 2, true)];
  }

  // ---------------------------------------------------------------- acknowledging by marking again

  lemma PlaceAfter(t: Table, i: nat)
    requires WellFormed(t) && i < |t|
    ensures Place(t, t[i].offset) == i + 1 && FitsBefore(t, t[i].offset, t[i].len) && Unites(t, t[i].offset, t[i].len)
  {
    WellFormedOrdered(t);
    assert RangeOk(t[i]);
    PlaceUnique(t, t[i].offset, i + 1);
  }

  /** Marking a range again as acknowledged acknowledges all of it, unless it is combined with a range right
      behind it that is not acknowledged. */
  lemma MarkedAgain(t: Table, i: nat, b: int)
    requires WellFormed(t) && i < |t| && Has(t[i], b)
    ensures BadAs(SetRange(t, t[i].offset, t[i].len, true).0, b, true) <==>
              !(i + 1 < |t| && t[i + 1].offset == t[i].End() && t[i + 1].End() - t[i].offset < MAX_LEN && !t[i + 1].ack)
  {
    WellFormedOrdered(t);
    PlaceAfter(t, i);
    assert Bad(t, b) && RangeOk(t[i]);
    FlagAfter(t, t[i].offset, t[i].len, true, b);
    if i + 1 < |t| {
      assert t[i].End() <= t[i + 1].offset && RangeOk(t[i + 1]);
    }
  }

  /** An acknowledged request that covers the range behind its start, and touches no other, acknowledges all
      its blocks. */
  lemma MarkedOver(t: Table, s: int, n: int, b: int)
    requires WellFormed(t) && s >= 0 && 0 < n <= MAX_LEN && !Merges(t, s) && s <= b < s + n
    requires var hi := Place(t, s); hi < |t| && t[hi].End() <= s + n && (hi + 1 < |t| ==> s + n < t[hi + 1].offset)
    ensures Unites(t, s, n) && BadAs(SetRange(t, s, n, true).0, b, true)
  {
    var hi := Place(t, s);
    WellFormedOrdered(t);
    PlaceAround(t, s);
    assert RangeOk(t[hi]);
    FlagAfter(t, s, n, true, b);
  }
}
