/** The bad-block table of a device in its page: the ranges are edited in place. */
module BadBlocks {
  import opened BadBlockMerge
  import opened BadBlockRanges
  import opened BadBlockRuns

  datatype Answer = Answer(rv: int, firstBad: int, badSectors: int)

  class BadBlockTable {
    const page: array<Entry>
    const shift: int
    var count: nat
    var unackedExist: bool
    var changed: bool

    ghost predicate Valid()
      reads this
    {
      page.Length == MAX_BADBLOCKS && count <= page.Length
    }

    ghost function Entries(): (t: Table)
      requires Valid()
      reads this, page
    {
      page[..count]
    }

    constructor (shift: int)
      ensures Valid() && fresh(page) && Entries() == [] && this.shift == shift
      ensures !unackedExist && !changed
    {
      page := new Entry[MAX_BADBLOCKS](_ => Entry(0, 1, false));
      this.shift := shift;
      count, unackedExist, changed := 0, false, false;
    }

    /** The binary search shared by check, set and clear: `lo` is the last range that starts before
        `bound`, unless no range does, and `hi` is the position after it. */
    method Search(bound: int) returns (lo: nat, hi: nat)
      requires Valid() && Ordered(Entries())
      ensures count == 0 ==> lo == hi == 0
      ensures count > 0 ==> hi == lo + 1 <= count
      ensures forall i :: hi <= i < count ==> page[i].offset >= bound
      ensures lo > 0 ==> page[lo].offset < bound
    {
      lo, hi := 0, count;
      while hi - lo > 1
        invariant 0 <= lo <= hi <= count && (count > 0 ==> lo < hi)
        invariant forall i :: hi <= i < count ==> page[i].offset >= bound
        invariant lo > 0 ==> page[lo].offset < bound
      {
        var mid := (lo + hi) / 2;
        if page[mid].offset < bound {
          lo := mid;
        } else {
          forall i | mid <= i < count ensures page[i].offset >= bound {
            assert Entries()[i] == page[i] && Entries()[mid] == page[mid];
          }
          hi := mid;
        }
      }
    }

    /** badblocks_check: binary search and a walk backwards find what a full scan of the table
        would find: nothing, only acknowledged ranges, or some unacknowledged one, and the lowest
        range that overlaps. */
    method Check(s: nat, sectors: nat) returns (a: Answer)
      requires Valid() && WellFormed(Entries())
      ensures var b, target := Down(s, shift), Up(s + sectors, shift);
              var t := Entries();
              && (a.rv == 0 <==> forall i :: 0 <= i < |t| ==> !Overlaps(t[i], b, target))
              && (a.rv == 1 <==> && (exists i :: 0 <= i < |t| && Overlaps(t[i], b, target))
                                 && (forall i :: 0 <= i < |t| && Overlaps(t[i], b, target) ==> t[i].ack))
              && (a.rv == -1 <==> exists i :: 0 <= i < |t| && Overlaps(t[i], b, target) && !t[i].ack)
              && (a.rv != 0 ==> exists i :: 0 <= i < |t| && Overlaps(t[i], b, target)
                                  && a.firstBad == t[i].offset && a.badSectors == t[i].len
                                  && forall j :: 0 <= j < i ==> !Overlaps(t[j], b, target))
    {
      var b, target := Down(s, shift), Up(s + sectors, shift);
      WellFormedOrdered(Entries());
      ghost var t := Entries();
      var start, hi := Search(target);
      var rv, firstBad, badSectors := 0, 0, 0;
      if hi > start {
        var lo: int := start;
        ghost var low := -1;
        while lo >= 0 && page[lo].End() > b
          invariant -1 <= lo < hi && t == Entries()
          invariant forall i :: lo < i < count ==> (Overlaps(t[i], b, target) ==> low >= 0)
          invariant low >= 0 ==> lo < low < count && Overlaps(t[low], b, target)
                                 && firstBad == t[low].offset && badSectors == t[low].len
          invariant low >= 0 ==> forall i :: lo < i < low ==> !Overlaps(t[i], b, target)
          invariant rv == 0 <==> low < 0
          invariant rv == -1 <==> exists i :: lo < i < count && Overlaps(t[i], b, target) && !t[i].ack
          invariant rv == 0 || rv == 1 || rv == -1
        {
          if page[lo].offset < target {
            rv := if rv != -1 && page[lo].ack then 1 else -1;
            firstBad, badSectors := page[lo].offset, page[lo].len;
            low := lo;
          }
          assert t[lo] == page[lo];
          lo := lo - 1;
        }
        forall i | 0 <= i <= lo ensures !Overlaps(t[i], b, target) {
          assert t[i].End() <= t[lo].End() == page[lo].End();
        }
      }
      a := Answer(rv, firstBad, badSectors);
    }

    /** badblocks_update_acked. */
    method UpdateAcked()
      requires Valid()
      modifies this`unackedExist
      ensures unackedExist == (old(unackedExist) && exists i :: 0 <= i < count && !page[i].ack)
    {
      if !unackedExist {
        return;
      }
      var unacked := false;
      var i := 0;
      while i < count && !unacked
        invariant 0 <= i <= count && unackedExist == old(unackedExist)
        invariant unacked <==> exists j :: 0 <= j < i && !page[j].ack
      {
        unacked := !page[i].ack;
        i := i + 1;
      }
      if !unacked {
        unackedExist := false;
      }
    }

    /** ack_all_badblocks. */
    method AckAll()
      requires Valid()
      modifies this`unackedExist, page
      ensures unackedExist == (changed && old(unackedExist))
      ensures Entries() == if !changed && old(unackedExist) then Acked(old(Entries())) else old(Entries())
    {
      if changed {
        return;
      }
      if unackedExist {
        var i := 0;
        while i < count
          invariant 0 <= i <= count
          invariant forall k :: 0 <= k < i ==> page[k] == Acked(old(Entries()))[k]
          invariant forall k :: i <= k < count ==> page[k] == old(page[k])
        {
          if !page[i].ack {
            page[i] := Entry(page[i].offset, page[i].len, true);
          }
          i := i + 1;
        }
        unackedExist := false;
      }
    }

    /** memmove to the right by one from position `i` on, and a new range there. */
    method InsertAt(i: nat, e: Entry)
      requires Valid() && i <= count < MAX_BADBLOCKS
      modifies this`count, page
      ensures Valid() && Entries() == old(Entries())[..i] + [e] + old(Entries())[i..]
    {
      var j := count;
      while j > i
        invariant i <= j <= count == old(count)
        invariant forall k :: 0 <= k < j ==> page[k] == old(page[k])
        invariant forall k :: j < k <= count ==> page[k] == old(page[k - 1])
      {
        page[j] := page[j - 1];
        j := j - 1;
      }
      page[i] := e;
      ghost var t := old(Entries());
      forall k | 0 <= k <= count ensures page[k] == (t[..i] + [e] + t[i..])[k] {
        SpliceAt(t, i, e, k);
      }
      count := count + 1;
      assert Entries() == t[..i] + [e] + t[i..];
    }

    /** memmove of everything from position `j` on down to position `i`. */
    method RemoveRange(i: nat, j: nat)
      requires Valid() && i <= j <= count
      modifies this`count, page
      ensures Valid() && Entries() == old(Entries())[..i] + old(Entries())[j..]
    {
      ghost var t := Entries();
      var d := j - i;
      var k := i;
      while k < count - d
        invariant i <= k <= count - d && count == |t|
        invariant forall m :: 0 <= m < k ==> page[m] == t[if m < i then m else m + d]
        invariant forall m :: k <= m < |t| ==> page[m] == t[m]
      {
        page[k] := page[k + d];
        k := k + 1;
      }
      count := count - d;
      RangeSplice(t, i, d);
      assert forall m :: 0 <= m < count ==> Entries()[m] == page[m];
    }

    /** The backward walk of badblocks_clear: over all ranges inside the window. `v` is the part of
        the table before `hi`. */
    method FindStop(hi: nat, b: int, target: int, ghost v: Table) returns (lo: int)
      requires Valid() && hi <= count && v == Entries()[..hi] && Ordered(v)
      requires forall i :: 0 <= i < |v| ==> EndsOff(v[i], target)
      requires hi > 1 ==> v[hi - 1].offset < target
      ensures -1 <= lo < hi && (lo >= 0 ==> page[lo] == v[lo])
      ensures forall i :: lo < i < |v| ==> Goes(v[i], b, target)
      ensures lo >= 0 ==> || v[lo].End() <= b || (lo == 0 && v[0].offset >= target)
                          || (v[lo].offset < b < v[lo].End() && v[lo].offset < target)
    {
      lo := hi as int - 1;
      while lo >= 0 && page[lo].End() > b && page[lo].offset < target && page[lo].offset >= b
        invariant -1 <= lo < hi
        invariant lo > 0 ==> v[lo].offset < target
        invariant forall i :: lo < i < |v| ==> Goes(v[i], b, target)
      {
        assert page[lo] == v[lo] && EndsOff(v[lo], target);
        assert lo > 0 ==> v[lo - 1].End() <= v[lo].offset && RangeOk(v[lo - 1]);
        lo := lo - 1;
      }
    }

    /** The walk, the trimming of the range on which it ends, and the removal of the ranges it
        walked over. None of the ranges before `hi` reaches past the end of the window. */
    method WalkBack(hi: nat, b: int, target: int, ghost v: Table)
      requires Valid() && hi <= count && v == Entries()[..hi] && Ordered(v)
      requires forall i :: 0 <= i < |v| ==> EndsOff(v[i], target)
      requires hi > 1 ==> v[hi - 1].offset < target
      modifies this`count, page
      ensures Valid()
      ensures Entries() == ClearAll(v, b, target) + old(Entries())[hi..]
    {
      var lo := FindStop(hi, b, target, v);
      if lo >= 0 && page[lo].End() > b && page[lo].offset < target {
        ClearTrimmed(v, lo, b, target);
        TrimAt(lo, hi, Entry(page[lo].offset, b - page[lo].offset, page[lo].ack));
      } else {
        ClearKept(v, lo + 1, b, target);
        assert v[..lo + 1] == Entries()[..lo + 1];
        RemoveRange(lo + 1, hi);
      }
    }

    method TrimAt(lo: nat, hi: nat, e: Entry)
      requires Valid() && lo < hi <= count
      modifies this`count, page
      ensures Valid() && Entries() == old(Entries())[..hi][..lo] + [e] + old(Entries())[hi..]
    {
      ghost var u := Entries();
      TrimSplice(u, lo, hi, e);
      page[lo] := e;
      assert Entries() == u[lo := e];
      RemoveRange(lo + 1, hi);
    }

    /** Split the range at `lo` around the window. */
    method SplitRange(lo: nat, head: Entry, tail: Entry)
      requires Valid() && lo < count < MAX_BADBLOCKS
      modifies this`count, page
      ensures Valid()
      ensures Entries() == old(Entries())[..lo] + ([head] + [tail]) + old(Entries())[lo + 1..]
    {
      ghost var t := Entries();
      InsertAt(lo, head);
      ghost var u := Entries();
      page[lo + 1] := tail;
      assert Entries() == u[lo + 1 := tail];
      SplitSplice(t, lo, head, tail);
    }

    /** Keep only the tail of the range at `lo`, and clear what lies before it. */
    method KeepTail(lo: nat, tail: Entry, b: int, target: int)
      requires Valid() && lo < count && Ordered(Entries()[..lo])
      requires forall i :: 0 <= i < lo ==> EndsOff(Entries()[..lo][i], target)
      requires lo > 1 ==> page[lo - 1].offset < target
      modifies this`count, page
      ensures Valid()
      ensures Entries() == ClearAll(old(Entries())[..lo], b, target) + ([] + [tail]) + old(Entries())[lo + 1..]
    {
      ghost var t := Entries();
      TailSplice(t, lo, tail, ClearAll(t[..lo], b, target));
      page[lo] := tail;
      assert Entries() == t[lo := tail];
      WalkBack(lo, b, target, t[..lo]);
    }

    /** The window ends inside the range at `lo`: keep its tail, and its head if there is one. */
    method ClearInside(lo: nat, b: int, target: int, ghost t: Table) returns (rv: int)
      requires Valid() && t == Entries() && Ordered(t) && lo < count
      requires t[lo].offset < target < t[lo].End()
      requires forall i :: lo < i < |t| ==> t[i].offset >= target
      modifies this`count, page
      ensures Valid()
      ensures if |t| == MAX_BADBLOCKS && t[lo].offset < b
              then rv == -ENOSPC && Entries() == t
              else rv == 0 && Entries() == ClearAll(t, b, target)
    {
      var e := page[lo];
      assert e == t[lo];
      ClearStraddled(t, lo, b, target);
      var tail := Entry(target, e.End() - target, e.ack);
      rv := 0;
      if e.offset < b {
        if count >= MAX_BADBLOCKS {
          return -ENOSPC;
        }
        ClearBelow(t, lo, b, target);
        SplitRange(lo, Entry(e.offset, b - e.offset, e.ack), tail);
      } else {
        BeforeLast(t, lo, target);
        KeepTail(lo, tail, b, target);
      }
    }

    /** badblocks_clear. It fails, and changes nothing, exactly when a range has to be split and
        the table is full. */
    method Clear(s: nat, sectors: nat) returns (rv: int)
      requires Valid() && WellFormed(Entries())
      modifies this`count, this`unackedExist, this`changed, page
      ensures Valid()
      ensures var b, target := Up(s, shift), Down(s + sectors, shift);
              var t := old(Entries());
              && (rv == -ENOSPC <==> |t| == MAX_BADBLOCKS && exists i :: 0 <= i < |t| && Splits(t[i], b, target))
              && (rv != 0 ==> rv == -ENOSPC && Entries() == t && changed == old(changed)
                              && unackedExist == old(unackedExist))
              && (rv == 0 ==> Entries() == ClearAll(t, b, target) && changed
                              && unackedExist == (old(unackedExist) && exists i :: 0 <= i < count && !page[i].ack))
    {
      var b, target := Up(s, shift), Down(s + sectors, shift);
      ghost var t := Entries();
      WellFormedOrdered(t);
      var lo, hi := Search(target);
      rv := 0;
      if hi > lo {
        assert page[lo] == t[lo] && forall i :: lo < i < |t| ==> t[i] == page[i];
        OnlySplit(t, lo, b, target);
        if page[lo].offset < target < page[lo].End() {
          rv := ClearInside(lo, b, target, t);
          if rv != 0 {
            return;
          }
        } else {
          UpToLast(t, hi, target);
          ClearRest(t, hi, b, target);
          WalkBack(hi, b, target, t[..hi]);
        }
      }
      UpdateAcked();
      changed := true;
    }

    /** The place of a new range in the table: `hi` is behind the last range that starts at or
        before `b`. */
    method FindPlace(b: int) returns (hi: nat)
      requires Valid() && WellFormed(Entries())
      ensures hi == Place(Entries(), b)
    {
      ghost var t := Entries();
      WellFormedOrdered(t);
      var lo;
      lo, hi := Search(b + 1);
      if hi > lo && page[lo].offset > b {
        hi := lo;
      }
      assert forall i :: 0 <= i < |t| ==> t[i] == page[i];
      PlaceUnique(t, b, hi);
    }

    /** Merging with the range before the place. */
    method MergeWithPrevious(b: int, n: int, hi: nat, acknowledged: bool) returns (b': int, n': int)
      requires Valid() && hi <= count
      modifies page
      ensures Work(Entries(), b', n', hi) == MergeBefore(Work(old(Entries()), b, n, hi), acknowledged)
    {
      b', n' := b, n;
      if hi > 0 {
        var lo := hi - 1;
        ghost var t := Entries();
        var p := page[lo];
        assert p == t[lo];
        var e := p.End();
        if e >= b {
          var ack := if b == p.offset && b + n >= e then acknowledged else p.ack && acknowledged;
          if e < b + n {
            e := b + n;
          }
          if e - p.offset <= MAX_LEN {
            page[lo] := Entry(p.offset, e - p.offset, ack);
            b' := e;
          } else {
            if p.len != MAX_LEN {
              page[lo] := Entry(p.offset, MAX_LEN, ack);
            }
            b' := p.offset + MAX_LEN;
          }
          n' := e - b';
          assert Entries() == t[lo := page[lo]];
        }
      }
    }

    /** Merging what is left with the range behind the place. */
    method MergeWithNext(b: int, n: int, hi: nat, acknowledged: bool) returns (b': int, n': int, hi': nat)
      requires Valid() && hi <= count
      modifies page
      ensures Work(Entries(), b', n', hi') == MergeAfter(Work(old(Entries()), b, n, hi), acknowledged)
    {
      b', n', hi' := b, n, hi;
      if n != 0 && hi < count {
        ghost var t := Entries();
        var f := page[hi];
        assert f == t[hi];
        var e, ack := f.End(), f.ack;
        if f.offset <= b + n {
          if e <= b + n {
            e, ack := b + n, acknowledged;
          } else {
            ack := ack && acknowledged;
          }
          if e - b <= MAX_LEN {
            page[hi] := Entry(b, e - b, ack);
            b' := e;
          } else {
            page[hi] := Entry(b, MAX_LEN, ack);
            b' := b + MAX_LEN;
          }
          n' := e - b';
          hi' := hi + 1;
          assert Entries() == t[hi := page[hi]];
        }
      }
    }

    /** Combining the merged range, which ends at `b`, with the one behind it. */
    method CombineNeighbours(b: int, n: int, hi: nat)
      requires Valid() && hi <= count
      modifies this`count, page
      ensures Valid() && Work(Entries(), b, n, hi) == Combine(Work(old(Entries()), b, n, hi))
    {
      if n == 0 && 0 < hi < count {
        ghost var t := Entries();
        var p, f := page[hi - 1], page[hi];
        assert p == t[hi - 1] && f == t[hi];
        var newLen := p.len + f.len - (b - f.offset);
        if b >= f.offset && newLen < MAX_LEN {
          TrimAt(hi - 1, hi + 1, Entry(p.offset, newLen, p.ack && f.ack));
          assert t[..hi + 1][..hi - 1] == t[..hi - 1];
        }
      }
    }

    /** Inserting what is still left, in pieces of at most 512 blocks. */
    method FillIn(b: int, n: int, hi: nat, acknowledged: bool) returns (rv: int)
      requires Valid() && hi <= count && n >= 0
      modifies this`count, page
      ensures Valid() && (Entries(), rv) == Fill(old(Entries()), b, n, hi, acknowledged)
    {
      var s, left := b, n;
      rv := 0;
      while left != 0
        invariant Valid() && hi <= count && left >= 0
        invariant Fill(Entries(), s, left, hi, acknowledged) == Fill(old(Entries()), b, n, hi, acknowledged)
      {
        if count >= MAX_BADBLOCKS {
          return 1;
        }
        var k := if left > MAX_LEN then MAX_LEN else left;
        InsertAt(hi, Entry(s, k, acknowledged));
        left, s := left - k, s + k;
      }
    }

    /** The four phases one after the other. */
    method AddRange(start: int, length: int, acknowledged: bool) returns (rv: int)
      requires Valid() && WellFormed(Entries()) && length >= 0
      modifies this`count, page
      ensures Valid() && (Entries(), rv) == SetRange(old(Entries()), start, length, acknowledged)
    {
      ghost var t := Entries();
      var hi := FindPlace(start);
      ghost var w := Work(t, start, length, hi);
      MergesLeaveRest(w, acknowledged);
      var b, n := MergeWithPrevious(start, length, hi, acknowledged);
      b, n, hi := MergeWithNext(b, n, hi, acknowledged);
      assert Work(Entries(), b, n, hi) == Merged(t, start, length, acknowledged);
      CombineNeighbours(b, n, hi);
      rv := FillIn(b, n, hi, acknowledged);
    }

    /** badblocks_set: the range is rounded outwards. */
    method Set(s: nat, sectors: nat, acknowledged: bool) returns (rv: int)
      requires Valid() && WellFormed(Entries())
      modifies this`count, this`unackedExist, this`changed, page
      ensures Valid()
      ensures shift < 0 ==> rv == 1 && Entries() == old(Entries()) && changed == old(changed)
                            && unackedExist == old(unackedExist)
      ensures shift >= 0 ==>
                (Entries(), rv) == SetRange(old(Entries()), Down(s, shift),
                                            Up(s + sectors, shift) - Down(s, shift), acknowledged)
      ensures shift >= 0 ==> changed
      ensures shift >= 0 ==>
                (unackedExist <==> !acknowledged
                                   || (old(unackedExist) && exists i :: 0 <= i < count && !page[i].ack))
    {
      if shift < 0 {
        return 1;
      }
      RoundedOutwards(s, sectors, shift);
      var b := Down(s, shift);
      rv := AddRange(b, Up(s + sectors, shift) - b, acknowledged);
      changed := true;
      if !acknowledged {
        unackedExist := true;
      } else {
        UpdateAcked();
      }
    }

    ghost function State(): (r: Record)
      requires Valid()
      reads this, page
    {
      Record(Entries(), changed, unackedExist)
    }

    lemma UnackedInPage()
      requires Valid()
      ensures HasUnacked(Entries()) <==> exists i :: 0 <= i < count && !page[i].ack
    {
      if i :| 0 <= i < count && !page[i].ack {
        assert !Entries()[i].ack;
      }
    }

    method ApplySet(q: Request) returns (rv: int)
      requires Valid() && WellFormed(Entries()) && q.Set?
      modifies this, page
      ensures Valid() && (State(), rv) == Applied(old(State()), Rounded(q, shift))
    {
      rv := Set(q.s, q.sectors, q.acknowledged);
      UnackedInPage();
    }

    method ApplyClear(q: Request) returns (rv: int)
      requires Valid() && WellFormed(Entries()) && q.Clear?
      modifies this, page
      ensures Valid() && (State(), rv) == Applied(old(State()), Rounded(q, shift))
    {
      rv := Clear(q.s, q.sectors);
      UnackedInPage();
    }

    /** One operation of a run. */
    method Apply(q: Request) returns (rv: int)
      requires Valid() && WellFormed(Entries())
      modifies this, page
      ensures Valid() && (State(), rv) == Applied(old(State()), Rounded(q, shift))
    {
      rv := 0;
      match q {
        case Set(_, _, _) => rv := ApplySet(q);
        case Clear(_, _) => rv := ApplyClear(q);
        case AckAll => AckAll();
        case Stored => changed := false;
      }
    }

    /** Any run whose operations meet their conditions: the page stands for the plain set of blocks that
        the operations leave, and unacked_exist is set whenever a range is not acknowledged. `trace`
        has the records between the operations. */
    method Run(qs: seq<Request>) returns (rvs: seq<int>, ghost trace: seq<Record>)
      requires Valid() && RecordOk(State()) && AllMeet(State(), AllRounded(qs, shift))
      modifies this, page
      ensures Valid() && RecordOk(State()) && Follows(trace, rvs, AllRounded(qs, shift))
      ensures trace[0] == old(State()) && trace[|qs|] == State()
      ensures StandsFor(Entries(), old(Entries()), AllRounded(qs, shift), rvs)
    {
      ghost var ops := AllRounded(qs, shift);
      rvs, trace := [], [State()];
      var i := 0;
      while i < |qs|
        invariant 0 <= i <= |qs| && Valid() && RecordOk(State()) && AllMeet(State(), ops[i..])
        invariant Follows(trace, rvs, ops[..i]) && trace[0] == old(State()) && trace[i] == State()
        invariant StandsFor(Entries(), old(Entries()), ops[..i], rvs)
      {
        ghost var op := ops[i];
        RoundedOk(qs[i], shift);
        AppliedOk(State(), op);
        StandsNext(State(), old(Entries()), ops[..i], rvs, op);
        FollowsNext(trace, rvs, ops[..i], op);
        assert ops[..i + 1] == ops[..i] + [op] && ops[i..][1..] == ops[i + 1..];
        var rv := Apply(qs[i]);
        rvs, trace := rvs + [rv], trace + [State()];
        i := i + 1;
      }
      assert ops[..i] == ops;
    }
  }
}
