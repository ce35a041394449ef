/**
 * The provider lease: taken by exclusively creating one file, released by unlinking that path
 * without looking at whose lease it holds.
 */
module Lease {
  import opened Common

  /** The lease file of one provider. */
  class LeaseFile {
    var holder: Option<string>

    constructor ()
      ensures holder == None
    {
      holder := None;
    }

    method AcquireLease(leaseId: string) returns (acquired: bool)
      modifies this
      ensures acquired <==> old(holder) == None
      ensures forall live :: Step(State(old(holder), live), Acquire(leaseId))
                          == State(holder, if acquired then live + {leaseId} else live)
      ensures holder == if acquired then Some(leaseId) else old(holder)
    {
      if holder.Some? {
        return false;
      }
      holder := Some(leaseId);
      return true;
    }

    method ReleaseLease(leaseId: string)
      modifies this
      ensures holder == None
      ensures forall live :: Step(State(old(holder), live), Release(leaseId)) == State(holder, live - {leaseId})
    {
      holder := None;
    }
  }

  /** The file, and the leases taken and not yet released by whoever took them. */
  datatype State = State(file: Option<string>, live: set<string>)

  datatype Op = Acquire(id: string) | Release(id: string)

  const FREE := State(None, {})

  function Step(s: State, op: Op): State {
    match op
    case Acquire(id) => if s.file.Some? then s else State(Some(id), s.live + {id})
    case Release(id) => State(None, s.live - {id})
  }

  function Run(ops: seq<Op>): State {
    if ops == [] then FREE else Step(Run(ops[..|ops| - 1]), ops[|ops| - 1])
  }

  /** Lease IDs are drawn fresh: no acquire reuses one that is still live. */
  predicate FreshIds(ops: seq<Op>) {
    forall k :: 0 <= k < |ops| && ops[k].Acquire? ==> ops[k].id !in Run(ops[..k]).live
  }

  /** Operation `k` releases a lease its caller does not hold while somebody holds one. */
  predicate StaleRelease(ops: seq<Op>, k: nat) {
    k < |ops| && ops[k].Release? && ops[k].id !in Run(ops[..k]).live && Run(ops[..k]).live != {}
  }

  /** At most one live lease, now and after any next acquire. */
  ghost predicate Exclusive(s: State) {
    && (forall i, j :: i in s.live && j in s.live ==> i == j)
    && (forall id :: forall i, j :: i in Step(s, Acquire(id)).live && j in Step(s, Acquire(id)).live ==> i == j)
  }

  /** The file names the one live lease, or there is neither. */
  predicate Honest(s: State) {
    if s.file.Some? then s.live == {s.file.value} else s.live == {}
  }

  lemma HonestIsExclusive(s: State)
    requires Honest(s)
    ensures Exclusive(s)
  {
  }

  /** While no stale release has happened, the file is honest. */
  lemma {:induction false} NoStaleReleaseHonest(ops: seq<Op>)
    requires FreshIds(ops) && forall k: nat :: !StaleRelease(ops, k)
    ensures Honest(Run(ops))
  {
    if ops != [] {
      var n := |ops| - 1;
      forall k | 0 <= k < n ensures ops[..n][..k] == ops[..k] {
      }
      forall k: nat ensures !StaleRelease(ops[..n], k) {
        assert k < n ==> ops[..n][..k] == ops[..k];
        assert !StaleRelease(ops, k);
      }
      NoStaleReleaseHonest(ops[..n]);
      assert !StaleRelease(ops, n);
    }
  }

  lemma {:induction false} FirstStale(ops: seq<Op>, k: nat) returns (first: nat)
    requires StaleRelease(ops, k)
    ensures first <= k && StaleRelease(ops, first) && forall j: nat :: j < first ==> !StaleRelease(ops, j)
  {
    if j: nat :| j < k && StaleRelease(ops, j) {
      first := FirstStale(ops, j);
    } else {
      first := k;
    }
  }

  /**
   * The lease is exclusive throughout a run, whatever acquire comes next, exactly when no one
   * ever releases a lease it does not hold while somebody holds one.
   */
  lemma ExclusiveIffNoStaleRelease(ops: seq<Op>)
    requires FreshIds(ops)
    ensures (forall k :: 0 <= k <= |ops| ==> Exclusive(Run(ops[..k]))) <==> forall k: nat :: !StaleRelease(ops, k)
  {
    if k: nat :| StaleRelease(ops, k) {
      var first := FirstStale(ops, k);
      PrefixHonest(ops, first);
      var s := Run(ops[..first + 1]);
      assert ops[..first + 1][..first] == ops[..first];
      var before := Run(ops[..first]);
      assert s == Step(before, ops[first]);
      var holder := before.file.value;
      var next := Step(s, Acquire(holder + "'"));
      assert holder in next.live && holder + "'" in next.live;
      assert |holder + "'"| != |holder|;
      assert !Exclusive(s);
    } else {
      forall k | 0 <= k <= |ops| ensures Exclusive(Run(ops[..k])) {
        PrefixHonest(ops, k);
        HonestIsExclusive(Run(ops[..k]));
      }
    }
  }

  lemma PrefixHonest(ops: seq<Op>, k: nat)
    requires FreshIds(ops) && k <= |ops| && forall j: nat :: j < k ==> !StaleRelease(ops, j)
    ensures Honest(Run(ops[..k]))
  {
    forall j | 0 <= j <= k ensures ops[..k][..j] == ops[..j] {
    }
    forall j: nat ensures !StaleRelease(ops[..k], j) {
      assert j < k ==> ops[..k][..j] == ops[..j] && !StaleRelease(ops, j);
    }
    NoStaleReleaseHonest(ops[..k]);
  }

  /** Releasing twice is enough: the second release unlinks the next holder's lease. */
  lemma DoubleReleaseBreaksExclusion()
    ensures Run([Acquire("a"), Release("a"), Acquire("b"), Release("a"), Acquire("c")]).live == {"b", "c"}
  {
    var ops := [Acquire("a"), Release("a"), Acquire("b"), Release("a"), Acquire("c")];
    assert ops[..4][..3] == ops[..3] && ops[..3][..2] == ops[..2] && ops[..2][..1] == ops[..1] && ops[..1][..0] == [];
    assert Run(ops[..1]) == State(Some("a"), {"a"});
    assert Run(ops[..2]) == FREE;
    assert Run(ops[..3]) == State(Some("b"), {"b"});
    assert Run(ops[..4]) == State(None, {"b"});
  }
}
