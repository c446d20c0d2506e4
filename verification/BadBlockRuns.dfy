/** Sequences of operations on a bad-block table, and what they do to the set of bad blocks. */
module BadBlockRuns {
  import opened BadBlockAcks
  import opened BadBlockMerge
  import opened BadBlockRanges
  import opened Basics

  const ENOSPC: int := 28

  /** An operation on sectors. */
  datatype Request =
    | Set(s: nat, sectors: nat, acknowledged: bool)
    | Clear(s: nat, sectors: nat)
    | AckAll
    /** The user of the table has stored it. */
    | Stored

  /** The same on blocks, of which `to` is the first that is not meant; a disabled table refuses to be
      set. */
  datatype Op =
    | Mark(from: int, len: int, acknowledged: bool)
    | Refuse
    | Unmark(from: int, to: int)
    | Acknowledge
    | Written
  {
    predicate Ok() {
      match this
      case Mark(from, len, _) => from >= 0 && len >= 0
      case Unmark(from, to) => from <= to + 1
      case _ => true
    }
  }

  /** Setting rounds outwards, clearing inwards. */
  function Rounded(q: Request, shift: int): (op: Op) {
    match q
    case Set(s, sectors, acknowledged) =>
      if shift < 0 then Refuse else Mark(Down(s, shift), Up(s + sectors, shift) - Down(s, shift), acknowledged)
    case Clear(s, sectors) => Unmark(Up(s, shift), Down(s + sectors, shift))
    case AckAll => Acknowledge
    case Stored => Written
  }

  function AllRounded(qs: seq<Request>, shift: int): (ops: seq<Op>) {
    seq(|qs|, i requires 0 <= i < |qs| => Rounded(qs[i], shift))
  }

  lemma RoundedOk(q: Request, shift: int)
    ensures Rounded(q, shift).Ok()
  {
    match q {
      case Set(s, sectors, _) =>
        DownOk(s, shift);
        RoundedOutwards(s, sectors, shift);
      case Clear(s, sectors) => InnerWindow(s, sectors, shift);
      case AckAll =>
      case Stored =>
    }
  }

  lemma DownOk(s: nat, shift: int)
    ensures Down(s, shift) >= 0
  {
    if shift > 0 {
      var p := Pow2(shift);
      DivBetween(s, p);
      if s / p < 0 {
        MulLe(p, s / p, -1);
      }
    }
  }

  /** The table with its two flags. */
  datatype Record = Record(t: Table, changed: bool, unackedExist: bool)

  ghost predicate HasUnacked(t: Table) {
    exists i :: 0 <= i < |t| && !t[i].ack
  }

  // ---------------------------------------------------------------- one operation

  /** A range has to be split and there is no room. */
  ghost predicate NoRoom(t: Table, from: int, to: int) {
    |t| == MAX_BADBLOCKS && exists i :: 0 <= i < |t| && Splits(t[i], from, to)
  }

  /** The record after an operation, and its return value. */
  ghost function Applied(r: Record, op: Op): (a: (Record, int)) {
    match op
    case Mark(from, len, ack) =>
      var u := SetRange(r.t, from, len, ack);
      (Record(u.0, true, !ack || (r.unackedExist && HasUnacked(u.0))), u.1)
    case Refuse => (r, 1)
    case Unmark(from, to) =>
      if NoRoom(r.t, from, to) then (r, -ENOSPC)
      else
        var u := ClearAll(r.t, from, to);
        (Record(u, true, r.unackedExist && HasUnacked(u)), 0)
    case Acknowledge =>
      (Record(if !r.changed && r.unackedExist then Acked(r.t) else r.t, r.changed, r.changed && r.unackedExist), 0)
    case Written => (r.(changed := false), 0)
  }

  /** The conditions of SetIff and ClearShortWindow. */
  ghost predicate Meets(r: Record, op: Op) {
    match op
    case Mark(from, len, _) => Unites(r.t, from, len)
    case Unmark(from, to) => from <= to || forall i :: 0 <= i < |r.t| ==> !(r.t[i].offset < to < r.t[i].End())
    case _ => true
  }

  /** In order, and unacked_exist is set if a range is not acknowledged. */
  ghost predicate RecordOk(r: Record) {
    WellFormed(r.t) && (HasUnacked(r.t) ==> r.unackedExist)
  }

  /** Is block `b` bad after the operation? */
  predicate StillBad(op: Op, rv: int, b: int, was: bool) {
    match op
    case Mark(from, len, _) => was || from <= b < from + len
    case Unmark(from, to) => was && !(rv == 0 && from <= b < to)
    case _ => was
  }

  /** Is it acknowledged then? */
  ghost predicate NowAcked(r: Record, op: Op, b: int) {
    match op
    case Mark(from, len, ack) => AckedAfter(r.t, from, len, ack, b)
    case Acknowledge => !r.changed || BadAs(r.t, b, true)
    case _ => BadAs(r.t, b, true)
  }

  lemma BadIsAs(t: Table, b: int)
    ensures Bad(t, b) <==> BadAs(t, b, true) || BadAs(t, b, false)
  {
    if i :| 0 <= i < |t| && Has(t[i], b) {
      assert BadAs(t, b, t[i].ack);
    }
  }

  // ---------------------------------------------------------------- marking

  ghost predicate AllAcked(t: Table) {
    forall i :: 0 <= i < |t| ==> t[i].ack
  }

  lemma {:induction false} FillAcked(t: Table, s: int, n: int, hi: nat)
    requires hi <= |t| && AllAcked(t)
    ensures AllAcked(Fill(t, s, n, hi, true).0)
    decreases n
  {
    if n > 0 && |t| < MAX_BADBLOCKS {
      var k := if n > MAX_LEN then MAX_LEN else n;
      FillAcked(t[..hi] + [Entry(s, k, true)] + t[hi..], s + k, n - k, hi);
    }
  }

  /** Where everything is acknowledged, an acknowledged request leaves it so. */
  lemma SetAllAcked(t: Table, s: int, n: int)
    requires AllAcked(t)
    ensures AllAcked(SetRange(t, s, n, true).0)
  {
    var v := MergeBefore(Work(t, s, n, Place(t, s)), true);
    assert AllAcked(v.t);
    var w := MergeAfter(v, true);
    assert AllAcked(w.t);
    var c := Combine(w);
    assert AllAcked(c.t);
    FillAcked(c.t, c.s, c.n, c.hi);
  }

  lemma SetInOrder(t: Table, s: int, n: int, ack: bool)
    requires WellFormed(t) && s >= 0 && n >= 0 && Unites(t, s, n)
    ensures WellFormed(SetRange(t, s, n, ack).0)
  {
    SetIff(t, s, n, ack);
  }

  lemma SetMeans(t: Table, s: int, n: int, ack: bool, b: int)
    requires WellFormed(t) && s >= 0 && n >= 0 && Unites(t, s, n)
    ensures var u := SetRange(t, s, n, ack).0;
            && (Bad(u, b) <==> Bad(t, b) || s <= b < s + n)
            && (Bad(u, b) ==> (BadAs(u, b, true) <==> AckedAfter(t, s, n, ack, b)))
  {
    SetIff(t, s, n, ack);
    if Bad(t, b) || s <= b < s + n {
      FlagAfter(t, s, n, ack, b);
    }
  }

  lemma MarkOk(r: Record, op: Op)
    requires RecordOk(r) && op.Mark? && op.Ok() && Meets(r, op)
    ensures RecordOk(Applied(r, op).0)
  {
    SetInOrder(r.t, op.from, op.len, op.acknowledged);
    if op.acknowledged && !HasUnacked(r.t) {
      SetAllAcked(r.t, op.from, op.len);
    }
  }

  lemma MarkMeans(r: Record, op: Op, b: int)
    requires RecordOk(r) && op.Mark? && op.Ok() && Meets(r, op)
    ensures var a := Applied(r, op);
            && (Bad(a.0.t, b) <==> StillBad(op, a.1, b, Bad(r.t, b)))
            && (Bad(a.0.t, b) ==> (BadAs(a.0.t, b, true) <==> NowAcked(r, op, b)))
  {
    SetMeans(r.t, op.from, op.len, op.acknowledged, b);
  }

  // ---------------------------------------------------------------- unmarking

  lemma UnmarkMeans(r: Record, op: Op, b: int)
    requires RecordOk(r) && op.Unmark? && op.Ok()
    ensures var a := Applied(r, op);
            && (Bad(a.0.t, b) <==> StillBad(op, a.1, b, Bad(r.t, b)))
            && (Bad(a.0.t, b) ==> (BadAs(a.0.t, b, true) <==> NowAcked(r, op, b)))
  {
    var a := Applied(r, op);
    BadIsAs(a.0.t, b);
    BadIsAs(r.t, b);
    if a.1 == 0 {
      ClearExact(r.t, op.from, op.to, b, true);
      ClearExact(r.t, op.from, op.to, b, false);
    }
  }

  lemma {:induction false} ClearKeepsFlags(t: Table, s: int, target: int)
    requires HasUnacked(ClearAll(t, s, target))
    ensures HasUnacked(t)
  {
    if t != [] {
      var c, u := Cut(t[0], s, target), ClearAll(t[1..], s, target);
      var r: Table := c + u;
      var i :| 0 <= i < |r| && !r[i].ack;
      if i < |c| {
        assert !t[0].ack;
      } else {
        assert !u[i - |c|].ack;
        ClearKeepsFlags(t[1..], s, target);
        var j :| 0 <= j < |t[1..]| && !t[1..][j].ack;
        assert !t[j + 1].ack;
      }
    }
  }

  lemma UnmarkOk(r: Record, op: Op)
    requires RecordOk(r) && op.Unmark? && op.Ok() && Meets(r, op)
    ensures RecordOk(Applied(r, op).0)
  {
    if op.from <= op.to {
      ClearWellFormed(r.t, op.from, op.to);
    } else {
      ClearShortWindow(r.t, op.to);
    }
    if HasUnacked(ClearAll(r.t, op.from, op.to)) {
      ClearKeepsFlags(r.t, op.from, op.to);
    }
  }

  // ---------------------------------------------------------------- acknowledging

  lemma AckedOk(t: Table)
    requires WellFormed(t)
    ensures WellFormed(Acked(t)) && AllAcked(Acked(t))
  {
    WellFormedOrdered(t);
    assert Ordered(Acked(t));
    WellFormedOrdered(Acked(t));
  }

  lemma AckedMeans(t: Table, b: int)
    ensures (Bad(Acked(t), b) <==> Bad(t, b)) && (BadAs(Acked(t), b, true) <==> Bad(t, b))
  {
    var u := Acked(t);
    if i :| 0 <= i < |t| && Has(t[i], b) {
      assert Has(u[i], b) && u[i].ack;
    }
    if i :| 0 <= i < |u| && Has(u[i], b) {
      assert Has(t[i], b);
    }
  }

  // ---------------------------------------------------------------- any operation

  /** Under its condition, an operation leaves the record in order. */
  lemma AppliedOk(r: Record, op: Op)
    requires RecordOk(r) && op.Ok() && Meets(r, op)
    ensures RecordOk(Applied(r, op).0)
  {
    match op {
      case Mark(_, _, _) => MarkOk(r, op);
      case Refuse =>
      case Unmark(_, _) => UnmarkOk(r, op);
      case Acknowledge => AckedOk(r.t);
      case Written =>
    }
  }

  /** And does to every block what it does to a plain set of blocks with flags. */
  lemma AppliedMeans(r: Record, op: Op, b: int)
    requires RecordOk(r) && op.Ok() && Meets(r, op)
    ensures var a := Applied(r, op);
            && (Bad(a.0.t, b) <==> StillBad(op, a.1, b, Bad(r.t, b)))
            && (Bad(a.0.t, b) ==> (BadAs(a.0.t, b, true) <==> NowAcked(r, op, b)))
  {
    match op {
      case Mark(_, _, _) => MarkMeans(r, op, b);
      case Refuse =>
      case Unmark(_, _) => UnmarkMeans(r, op, b);
      case Acknowledge =>
        AckedMeans(r.t, b);
        BadIsAs(r.t, b);
      case Written =>
    }
  }

  // ---------------------------------------------------------------- runs

  /** Every operation meets its condition when its turn comes. */
  ghost predicate AllMeet(r: Record, ops: seq<Op>)
    decreases ops
  {
    ops == [] || (Meets(r, ops[0]) && AllMeet(Applied(r, ops[0]).0, ops[1..]))
  }

  /** Is block `b` bad after all of these operations, given their return values? */
  predicate BadInTheEnd(ops: seq<Op>, rvs: seq<int>, b: int, was: bool)
    requires |rvs| == |ops|
  {
    if ops == [] then was
    else
      var n := |ops| - 1;
      StillBad(ops[n], rvs[n], b, BadInTheEnd(ops[..n], rvs[..n], b, was))
  }

  /** Table `t` stands for the set of blocks that the operations make of that of `t0`. */
  ghost predicate StandsFor(t: Table, t0: Table, ops: seq<Op>, rvs: seq<int>)
    requires |rvs| == |ops|
  {
    forall b :: Bad(t, b) <==> BadInTheEnd(ops, rvs, b, Bad(t0, b))
  }

  /** One operation more. */
  lemma StandsNext(r: Record, t0: Table, ops: seq<Op>, rvs: seq<int>, op: Op)
    requires RecordOk(r) && op.Ok() && Meets(r, op) && |rvs| == |ops| && StandsFor(r.t, t0, ops, rvs)
    ensures var a := Applied(r, op); StandsFor(a.0.t, t0, ops + [op], rvs + [a.1])
  {
    var a := Applied(r, op);
    assert (ops + [op])[..|ops|] == ops && (rvs + [a.1])[..|ops|] == rvs;
    forall b ensures Bad(a.0.t, b) <==> BadInTheEnd(ops + [op], rvs + [a.1], b, Bad(t0, b)) {
      AppliedMeans(r, op, b);
    }
  }

  /** The records between the operations, and the return values. */
  ghost predicate Follows(trace: seq<Record>, rvs: seq<int>, ops: seq<Op>) {
    && |rvs| == |ops| && |trace| == |ops| + 1
    && forall i :: 0 <= i < |ops| ==> (trace[i + 1], rvs[i]) == Applied(trace[i], ops[i])
  }

  lemma FollowsNext(trace: seq<Record>, rvs: seq<int>, ops: seq<Op>, op: Op)
    requires Follows(trace, rvs, ops)
    ensures var a := Applied(trace[|ops|], op); Follows(trace + [a.0], rvs + [a.1], ops + [op])
  {
  }
}
