/** Exclusive claims on a disk and its partitions. A device records only who holds it and how often;
    the reference is the plain list of outstanding claims, which no field of a device keeps. */
module DiskClaims {
  import opened Basics

  /** A `bd_holder`: nobody, the mark that some partition is claimed, or a claimer. */
  datatype Holder = Null | PartitionMark | Owner(id: int)

  datatype Device = Device(holder: Holder, ops: int, holders: int)

  datatype Target = Whole | Part(i: nat)

  datatype Claim = Claim(target: Target, owner: Holder, ops: int)

  datatype Reply = Ok | Busy | Invalid | Wait

  const NO_OPS: int := 0

  // ---------------------------------------------------------------- the reference

  /** Two claims exclude each other: on the same device by different claimers, or one on the whole
      disk and one on a partition. */
  predicate Conflict(a: Claim, b: Claim) {
    if a.target == b.target then a.owner != b.owner || a.ops != b.ops
    else a.target.Whole? || b.target.Whole?
  }

  predicate Blocked(claims: seq<Claim>, c: Claim) {
    exists i :: 0 <= i < |claims| && Conflict(claims[i], c)
  }

  /** What is outstanding: the claims, and at most one that is being prepared. */
  datatype Ledger = Ledger(claims: seq<Claim>, pending: Option<Claim>)

  /** The calls of the claimers; `index` is the position of the ended claim in the list. */
  datatype Call =
    | Prepare(claim: Claim)
    | Finish(claim: Claim)
    | Abort(claim: Claim)
    | End(claim: Claim, index: nat)

  function Without(claims: seq<Claim>, k: nat): (r: seq<Claim>)
    requires k < |claims|
  {
    claims[..k] + claims[k + 1..]
  }

  /** The reply to a request for `c`. */
  function Answer(l: Ledger, c: Claim): (r: Reply) {
    if c.owner == Null then Invalid
    else if Blocked(l.claims, c) then Busy
    else if l.pending.Some? then Wait
    else Ok
  }

  /** A call that a claimer may make: a request for an existing device, not in the name of the
      private mark; the finish or the abort of a request that succeeded; the end of a claim. */
  predicate Matched(l: Ledger, call: Call, n: nat) {
    match call
    case Prepare(c) => c.owner != PartitionMark && (c.target.Part? ==> c.target.i < n)
    case Finish(c) => l.pending == Some(c)
    case Abort(c) => l.pending == Some(c)
    case End(c, k) => k < |l.claims| && l.claims[k] == c
  }

  /** One call in the reference. */
  function Book(l: Ledger, call: Call): (r: Ledger) {
    match call
    case Prepare(c) => if Answer(l, c) == Ok then l.(pending := Some(c)) else l
    case Finish(c) => Ledger(l.claims + [c], None)
    case Abort(c) => l.(pending := None)
    case End(c, k) => if k < |l.claims| then l.(claims := Without(l.claims, k)) else l
  }

  function BookAll(l: Ledger, calls: seq<Call>): (r: Ledger)
    decreases |calls|
  {
    if calls == [] then l else BookAll(Book(l, calls[0]), calls[1..])
  }

  /** Every call of the run is matched when it is made. */
  predicate MatchedRun(l: Ledger, calls: seq<Call>, n: nat)
    decreases |calls|
  {
    calls == [] || (Matched(l, calls[0], n) && MatchedRun(Book(l, calls[0]), calls[1..], n))
  }

  /** The replies to the requests among the calls. */
  function Replies(l: Ledger, calls: seq<Call>): (r: seq<Reply>)
    decreases |calls|
  {
    if calls == [] then []
    else (if calls[0].Prepare? then [Answer(l, calls[0].claim)] else []) + Replies(Book(l, calls[0]), calls[1..])
  }

  /** No two outstanding claims exclude each other. */
  ghost predicate Exclusive(claims: seq<Claim>) {
    forall i, j :: 0 <= i < |claims| && 0 <= j < |claims| ==> !Conflict(claims[i], claims[j])
  }

  // ---------------------------------------------------------------- counting claims

  function Count(claims: seq<Claim>, d: Target): (n: nat)
    ensures n <= |claims|
  {
    if claims == [] then 0 else (if claims[0].target == d then 1 else 0) + Count(claims[1..], d)
  }

  lemma {:induction false} CountConcat(a: seq<Claim>, b: seq<Claim>, d: Target)
    ensures Count(a + b, d) == Count(a, d) + Count(b, d)
  {
    if a == [] {
      assert a + b == b;
    } else {
      assert (a + b)[1..] == a[1..] + b;
      CountConcat(a[1..], b, d);
    }
  }

  lemma CountAdded(claims: seq<Claim>, c: Claim, d: Target)
    ensures Count(claims + [c], d) == Count(claims, d) + (if c.target == d then 1 else 0)
  {
    CountConcat(claims, [c], d);
    assert [c][1..] == [];
  }

  lemma CountWithout(claims: seq<Claim>, k: nat, d: Target)
    requires k < |claims|
    ensures Count(Without(claims, k), d) == Count(claims, d) - (if claims[k].target == d then 1 else 0)
  {
    assert claims == claims[..k] + ([claims[k]] + claims[k + 1..]);
    CountConcat(claims[..k], [claims[k]] + claims[k + 1..], d);
    CountConcat([claims[k]], claims[k + 1..], d);
    CountConcat(claims[..k], claims[k + 1..], d);
    assert [claims[k]][1..] == [];
  }

  lemma {:induction false} CountZero(claims: seq<Claim>, d: Target)
    ensures Count(claims, d) == 0 <==> forall i :: 0 <= i < |claims| ==> claims[i].target != d
  {
    if claims != [] {
      CountZero(claims[1..], d);
      assert forall i :: 0 < i < |claims| ==> claims[i] == claims[1..][i - 1];
    }
  }

  lemma {:induction false} CountAll(claims: seq<Claim>, d: Target)
    ensures Count(claims, d) == |claims| <==> forall i :: 0 <= i < |claims| ==> claims[i].target == d
  {
    if claims != [] {
      CountAll(claims[1..], d);
      assert forall i :: 0 < i < |claims| ==> claims[i] == claims[1..][i - 1];
    }
  }

  function SumHolders(parts: seq<Device>): (n: int) {
    if parts == [] then 0 else SumHolders(parts[..|parts| - 1]) + parts[|parts| - 1].holders
  }

  /** The claims on the first `n` partitions. */
  function CountBelow(claims: seq<Claim>, n: nat): (r: nat) {
    if claims == [] then 0
    else (if claims[0].target.Part? && claims[0].target.i < n then 1 else 0) + CountBelow(claims[1..], n)
  }

  lemma {:induction false} CountBelowStep(claims: seq<Claim>, n: nat)
    ensures CountBelow(claims, n + 1) == CountBelow(claims, n) + Count(claims, Part(n))
    ensures CountBelow(claims, 0) == 0
  {
    if claims != [] {
      CountBelowStep(claims[1..], n);
    }
  }

  lemma {:induction false} CountBelowAll(claims: seq<Claim>, n: nat)
    requires forall i :: 0 <= i < |claims| ==> claims[i].target.Part? ==> claims[i].target.i < n
    ensures CountBelow(claims, n) == |claims| - Count(claims, Whole)
  {
    if claims != [] {
      CountBelowAll(claims[1..], n);
    }
  }

  lemma {:induction false} SumIsCount(parts: seq<Device>, claims: seq<Claim>)
    requires forall i :: 0 <= i < |parts| ==> parts[i].holders == Count(claims, Part(i))
    ensures SumHolders(parts) == CountBelow(claims, |parts|)
  {
    CountBelowStep(claims, if |parts| == 0 then 0 else |parts| - 1);
    if parts != [] {
      SumIsCount(parts[..|parts| - 1], claims);
    }
  }

  // ---------------------------------------------------------------- the fields against the list

  /** The fields of partition `i`. */
  ghost predicate PartOk(d: Device, claims: seq<Claim>, i: nat) {
    && d.holders == Count(claims, Part(i)) && d.holder != PartitionMark
    && (d.holder == Null <==> d.holders == 0)
    && (d.holder == Null ==> d.ops == NO_OPS)
  }

  /** The fields of the whole disk: it counts every claim, and its own claims twice. */
  ghost predicate WholeOk(d: Device, claims: seq<Claim>) {
    && d.holders == |claims| + Count(claims, Whole)
    && (d.holder == Null <==> claims == [])
    && (d.holder == PartitionMark <==> claims != [] && Count(claims, Whole) == 0)
    && (!d.holder.Owner? ==> d.ops == NO_OPS)
    && (d.holder.Owner? ==> Count(claims, Whole) == |claims|)
  }

  /** A claim is on a device that exists and agrees with the holder recorded there. */
  ghost predicate Recorded(whole: Device, parts: seq<Device>, c: Claim) {
    && c.owner.Owner?
    && (c.target.Part? ==> c.target.i < |parts|)
    && var d := if c.target.Whole? then whole else parts[c.target.i];
       d.holder == c.owner && d.ops == c.ops
  }

  ghost predicate Consistent(whole: Device, parts: seq<Device>, claims: seq<Claim>) {
    && WholeOk(whole, claims)
    && (forall i :: 0 <= i < |parts| ==> PartOk(parts[i], claims, i))
    && (forall i :: 0 <= i < |claims| ==> Recorded(whole, parts, claims[i]))
  }

  /** The device that a claim is on. */
  function At(whole: Device, parts: seq<Device>, t: Target): (d: Device)
    requires t.Part? ==> t.i < |parts|
  {
    if t.Whole? then whole else parts[t.i]
  }

  /** bd_may_claim. */
  predicate MayClaim(whole: Device, parts: seq<Device>, c: Claim)
    requires c.target.Part? ==> c.target.i < |parts|
  {
    var d := At(whole, parts, c.target);
    if d.holder != Null then d.holder == c.owner && d.ops == c.ops
    else c.target.Whole? || whole.holder == Null || whole.holder == PartitionMark
  }

  /** The test on the fields finds exactly the claims that exclude the new one. */
  lemma MayClaimExact(whole: Device, parts: seq<Device>, claims: seq<Claim>, c: Claim)
    requires Consistent(whole, parts, claims) && c.owner.Owner?
    requires c.target.Part? ==> c.target.i < |parts|
    ensures MayClaim(whole, parts, c) <==> !Blocked(claims, c)
  {
    var d := At(whole, parts, c.target);
    CountZero(claims, c.target);
    CountZero(claims, Whole);
    CountAll(claims, Whole);
    if c.target.Part? {
      assert PartOk(parts[c.target.i], claims, c.target.i);
    }
    if !MayClaim(whole, parts, c) {
      if k :| 0 <= k < |claims| && claims[k].target == c.target {
        assert Recorded(whole, parts, claims[k]);
        assert Conflict(claims[k], c);
      } else {
        assert Conflict(claims[0], c);
      }
    } else {
      forall k | 0 <= k < |claims| ensures !Conflict(claims[k], c) {
        assert Recorded(whole, parts, claims[k]);
      }
    }
  }

  /** A claim that nothing excludes is entered in the fields. */
  lemma FinishKeeps(whole: Device, parts: seq<Device>, claims: seq<Claim>, c: Claim, whole': Device,
                    parts': seq<Device>)
    requires Consistent(whole, parts, claims) && c.owner.Owner? && !Blocked(claims, c)
    requires c.target.Part? ==> c.target.i < |parts|
    requires if c.target.Whole? then whole' == Device(c.owner, c.ops, whole.holders + 2) && parts' == parts
             else && whole' == Device(PartitionMark, whole.ops, whole.holders + 1)
                  && parts' == parts[c.target.i := Device(c.owner, c.ops, parts[c.target.i].holders + 1)]
    ensures Consistent(whole', parts', claims + [c])
  {
    var all := claims + [c];
    CountAdded(claims, c, Whole);
    CountZero(claims, Whole);
    if c.target.Whole? {
      forall k | 0 <= k < |claims| ensures claims[k].target == Whole {
        assert !Conflict(claims[k], c);
      }
      CountAll(claims, Whole);
    } else {
      forall k | 0 <= k < |claims| ensures claims[k].target != Whole {
        assert !Conflict(claims[k], c);
      }
    }
    forall i | 0 <= i < |parts'| ensures PartOk(parts'[i], all, i) {
      CountAdded(claims, c, Part(i));
      assert PartOk(parts[i], claims, i);
    }
    forall k | 0 <= k < |all| ensures Recorded(whole', parts', all[k]) {
      if k < |claims| {
        assert Recorded(whole, parts, claims[k]) && !Conflict(claims[k], c);
      }
    }
  }

  /** The release of claim `k` in the fields. */
  function Released(d: Device): (r: Device) {
    if d.holders == 1 then Device(Null, NO_OPS, 0) else d.(holders := d.holders - 1)
  }

  lemma EndKeeps(whole: Device, parts: seq<Device>, claims: seq<Claim>, k: nat, whole': Device, parts': seq<Device>)
    requires Consistent(whole, parts, claims) && k < |claims|
    requires claims[k].target.Part? ==> claims[k].target.i < |parts|
    requires var t := claims[k].target;
             if t.Whole? then
               && parts' == parts
               && whole' == if whole.holders == 2 then Device(Null, NO_OPS, 0) else whole.(holders := whole.holders - 2)
             else
               && parts' == parts[t.i := Released(parts[t.i])]
               && whole' == if whole.holders == 1 then whole.(holder := Null, holders := 0)
                            else whole.(holders := whole.holders - 1)
    ensures Consistent(whole', parts', Without(claims, k))
  {
    var rest := Without(claims, k);
    var t := claims[k].target;
    assert Recorded(whole, parts, claims[k]);
    CountWithout(claims, k, Whole);
    CountZero(claims, Whole);
    CountZero(rest, Whole);
    forall i | 0 <= i < |parts'| ensures PartOk(parts'[i], rest, i) {
      CountWithout(claims, k, Part(i));
      CountZero(claims, Part(i));
      assert PartOk(parts[i], claims, i);
    }
    forall j | 0 <= j < |rest| ensures Recorded(whole', parts', rest[j]) {
      var o := if j < k then j else j + 1;
      assert rest[j] == claims[o] && Recorded(whole, parts, claims[o]);
      CountZero(rest, rest[j].target);
      if rest[j].target.Part? {
        assert PartOk(parts'[rest[j].target.i], rest, rest[j].target.i);
      }
    }
  }

  lemma ConsistentExclusive(whole: Device, parts: seq<Device>, claims: seq<Claim>)
    requires Consistent(whole, parts, claims)
    ensures Exclusive(claims)
  {
    CountZero(claims, Whole);
    CountAll(claims, Whole);
    forall i, j | 0 <= i < |claims| && 0 <= j < |claims| ensures !Conflict(claims[i], claims[j]) {
      assert Recorded(whole, parts, claims[i]) && Recorded(whole, parts, claims[j]);
    }
  }

  /** What the counters add up to. */
  lemma HoldersAddUp(whole: Device, parts: seq<Device>, claims: seq<Claim>)
    requires Consistent(whole, parts, claims)
    ensures whole.holders == SumHolders(parts) + 2 * Count(claims, Whole)
  {
    forall i | 0 <= i < |parts| ensures parts[i].holders == Count(claims, Part(i)) {
      assert PartOk(parts[i], claims, i);
    }
    forall i | 0 <= i < |claims| ensures claims[i].target.Part? ==> claims[i].target.i < |parts| {
      assert Recorded(whole, parts, claims[i]);
    }
    SumIsCount(parts, claims);
    CountBelowAll(claims, |parts|);
  }

  /** A whole-disk holder and a partition holder never coexist. */
  lemma NeverBoth(whole: Device, parts: seq<Device>, claims: seq<Claim>, i: nat)
    requires Consistent(whole, parts, claims) && i < |parts|
    ensures !(whole.holder.Owner? && parts[i].holder.Owner?)
    ensures parts[i].holder.Owner? ==> whole.holder == PartitionMark
  {
    CountZero(claims, Part(i));
    CountAll(claims, Whole);
    CountZero(claims, Whole);
    assert PartOk(parts[i], claims, i);
  }

  /** An outstanding claim is counted where it is ended. */
  lemma ClaimCounted(whole: Device, parts: seq<Device>, claims: seq<Claim>, k: nat)
    requires Consistent(whole, parts, claims) && k < |claims|
    ensures var t := claims[k].target;
            && (t.Part? ==> t.i < |parts| && parts[t.i].holder == claims[k].owner
                            && parts[t.i].holders >= 1 && whole.holders >= 1)
            && (t.Whole? ==> whole.holder == claims[k].owner && whole.holders >= 2)
  {
    assert Recorded(whole, parts, claims[k]);
    CountZero(claims, claims[k].target);
    if claims[k].target.Part? {
      assert PartOk(parts[claims[k].target.i], claims, claims[k].target.i);
    }
  }

  /** Ending a claim never makes room tighter for the one being prepared. */
  lemma StillFree(claims: seq<Claim>, k: nat, pending: Option<Claim>)
    requires k < |claims| && (pending.Some? ==> !Blocked(claims, pending.value))
    ensures pending.Some? ==> !Blocked(Without(claims, k), pending.value)
  {
    var rest := Without(claims, k);
    assert forall j :: 0 <= j < |rest| ==> rest[j] == claims[if j < k then j else j + 1];
  }

  // ---------------------------------------------------------------- the disk

  class Disk {
    var whole: Device
    var parts: seq<Device>
    var claiming: Holder
    ghost var ledger: Ledger

    /** The fields say what the ledger says, and the claim being prepared is still possible. */
    ghost predicate Valid()
      reads this
    {
      && Consistent(whole, parts, ledger.claims)
      && (ledger.pending.None? ==> claiming == Null)
      && (ledger.pending.Some? ==>
            && var c := ledger.pending.value;
               && claiming == c.owner && c.owner.Owner?
               && (c.target.Part? ==> c.target.i < |parts|)
               && !Blocked(ledger.claims, c))
    }

    constructor (n: nat)
      ensures Valid() && ledger == Ledger([], None) && |parts| == n
    {
      whole, claiming := Device(Null, NO_OPS, 0), Null;
      parts := seq(n, _ => Device(Null, NO_OPS, 0));
      ledger := Ledger([], None);
    }

    /** bd_prepare_to_claim, one turn of its loop: Wait means that it sleeps and tries again. */
    method PrepareToClaim(c: Claim) returns (r: Reply)
      requires Valid() && Matched(ledger, Prepare(c), |parts|)
      modifies this
      ensures Valid() && whole == old(whole) && parts == old(parts)
      ensures r == Answer(old(ledger), c)
      ensures ledger == Book(old(ledger), Prepare(c))
    {
      if c.owner == Null {
        return Invalid;
      }
      MayClaimExact(whole, parts, ledger.claims, c);
      if !MayClaim(whole, parts, c) {
        return Busy;
      }
      if claiming != Null {
        return Wait;
      }
      claiming := c.owner;
      ledger := ledger.(pending := Some(c));
      r := Ok;
    }

    /** bd_clear_claiming, with its BUG_ON. */
    method ClearClaiming(owner: Holder)
      requires claiming == owner
      modifies this`claiming
      ensures claiming == Null
    {
      assert claiming == owner;
      claiming := Null;
    }

    /** bd_finish_claiming, with its BUG_ON. */
    method FinishClaiming(c: Claim)
      requires Valid() && ledger.pending == Some(c)
      modifies this
      ensures Valid() && |parts| == |old(parts)|
      ensures ledger == Book(old(ledger), Finish(c))
    {
      MayClaimExact(whole, parts, ledger.claims, c);
      assert MayClaim(whole, parts, c);
      ghost var w, p := whole, parts;
      whole := Device(PartitionMark, whole.ops, whole.holders + 1);
      if c.target.Whole? {
        whole := Device(c.owner, c.ops, whole.holders + 1);
      } else {
        parts := parts[c.target.i := Device(c.owner, c.ops, parts[c.target.i].holders + 1)];
      }
      FinishKeeps(w, p, ledger.claims, c, whole, parts);
      ClearClaiming(c.owner);
      ledger := Ledger(ledger.claims + [c], None);
    }

    /** bd_abort_claiming. */
    method AbortClaiming(c: Claim)
      requires Valid() && ledger.pending == Some(c)
      modifies this
      ensures Valid() && |parts| == |old(parts)|
      ensures ledger == Book(old(ledger), Abort(c))
    {
      ClearClaiming(c.owner);
      ledger := ledger.(pending := None);
    }

    /** bd_end_claim on claim `k`; none of its warnings is due. */
    method EndClaim(t: Target, owner: Holder, ghost k: nat)
      requires Valid() && k < |ledger.claims|
      requires ledger.claims[k].target == t && ledger.claims[k].owner == owner
      modifies this
      ensures Valid() && |parts| == |old(parts)|
      ensures ledger == Book(old(ledger), End(old(ledger).claims[k], k))
    {
      ghost var w, p, cs := whole, parts, ledger.claims;
      ClaimCounted(w, p, cs, k);
      if t.Whole? {
        assert whole.holder == owner && whole.holders - 2 >= 0;
        whole := whole.(holders := whole.holders - 1);
        whole := whole.(holders := whole.holders - 1);
        if whole.holders == 0 {
          whole := whole.(holder := Null, ops := NO_OPS);
        }
      } else {
        var d := parts[t.i];
        assert d.holder == owner && d.holders - 1 >= 0 && whole.holders - 1 >= 0;
        d := d.(holders := d.holders - 1);
        whole := whole.(holders := whole.holders - 1);
        if d.holders == 0 {
          d := d.(holder := Null, ops := NO_OPS);
        }
        parts := parts[t.i := d];
      }
      if whole.holders == 0 {
        whole := whole.(holder := Null);
      }
      EndKeeps(w, p, cs, k, whole, parts);
      StillFree(cs, k, ledger.pending);
      ledger := ledger.(claims := Without(cs, k));
    }

    /** One call of a run. */
    method Step(call: Call, before: seq<Reply>) returns (replies: seq<Reply>)
      requires Valid() && Matched(ledger, call, |parts|)
      modifies this
      ensures Valid() && |parts| == |old(parts)|
      ensures ledger == Book(old(ledger), call)
      ensures replies == before + if call.Prepare? then [Answer(old(ledger), call.claim)] else []
    {
      replies := before;
      match call
      case Prepare(c) =>
        var r := PrepareToClaim(c);
        replies := replies + [r];
      case Finish(c) => FinishClaiming(c);
      case Abort(c) => AbortClaiming(c);
      case End(c, k) => EndClaim(c.target, c.owner, k);
    }

    /** Any matched run of calls by any number of claimers, from any valid state: the replies and
        the outstanding claims are those of the reference, no two claims exclude each other, and
        no BUG_ON and no warning is due on the way. */
    method Run(calls: seq<Call>) returns (replies: seq<Reply>)
      requires Valid() && MatchedRun(ledger, calls, |parts|)
      modifies this
      ensures Valid() && Exclusive(ledger.claims)
      ensures ledger == BookAll(old(ledger), calls)
      ensures replies == Replies(old(ledger), calls)
      ensures whole.holders == SumHolders(parts) + 2 * Count(ledger.claims, Whole)
    {
      replies := [];
      var i := 0;
      while i < |calls|
        invariant 0 <= i <= |calls| && Valid() && |parts| == |old(parts)|
        invariant MatchedRun(ledger, calls[i..], |parts|)
        invariant BookAll(old(ledger), calls) == BookAll(ledger, calls[i..])
        invariant Replies(old(ledger), calls) == replies + Replies(ledger, calls[i..])
      {
        assert calls[i..][1..] == calls[i + 1..] && calls[i..][0] == calls[i];
        replies := Step(calls[i], replies);
        i := i + 1;
      }
      ConsistentExclusive(whole, parts, ledger.claims);
      HoldersAddUp(whole, parts, ledger.claims);
    }
  }
}
