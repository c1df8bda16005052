/** The ether behind stakes: what the contract owes, when a run keeps it covered, and what breaks that. */
module Stakes {
  import opened Merkle
  import opened Types
  import opened Batches
  import opened BatchFinality

  /** A stake is withdrawn only for a batch that carried one, and that no rollback under way will still delete: the
      contract checks neither.  Nobody sends from address 0. */
  ghost predicate Careful(s: State, op: Op) {
    op.WithdrawStake? ==> op.id > 0 && (s.marker == 0 || op.id < s.marker) && op.sender != 0
  }

  /** Live batches, other than the genesis batch, below `n` whose stake is still in the contract. */
  function Owed(claims: Bitmap, n: nat): nat {
    if n <= 1 then 0 else Owed(claims, n - 1) + if IsClaimed(n - 1, claims) then 0 else 1
  }

  /** Stakes were withdrawn only for final live batches, and the ether covers one stake for each live, unwithdrawn batch
      after the genesis batch. */
  ghost predicate Covered(p: Params, s: State, block: nat)
    requires forall id: nat :: id < s.next ==> id in s.batches
  {
    && (forall id: nat :: IsClaimed(id, s.claims) ==>
          0 < id < s.next && (s.marker == 0 || id < s.marker) && s.batches[id].finaliseOn < block)
    && s.ether >= Owed(s.claims, s.next) * p.stake
  }

  ghost predicate Inv(p: Params, s: State, block: nat) {
    Ordered(p, s, block) && Covered(p, s, block)
  }

  lemma {:induction false} OwedDrop(claims: Bitmap, n: nat, k: nat)
    requires 1 <= k <= n && forall id :: k <= id < n ==> !IsClaimed(id, claims)
    ensures Owed(claims, n) == Owed(claims, k) + (n - k)
    decreases n
  {
    if k < n {
      OwedDrop(claims, n - 1, k);
    }
  }

  lemma {:induction false} OwedClaim(claims: Bitmap, id: nat, n: nat)
    requires 0 < id && !IsClaimed(id, claims)
    ensures Owed(SetClaimed(id, claims), n) == Owed(claims, n) - if id < n then 1 else 0
  {
    hide SetClaimed, IsClaimed;
    if n > 1 {
      OwedClaim(claims, id, n - 1);
      ClaimAddsOne(id, claims, n - 1);
    }
  }

  /** A rollback under the invariant never lacks ether, and keeps the invariant. */
  lemma RollbackKeepsInv(p: Params, s: State, marker: nat, gas: nat, block: nat)
    requires Inv(p, s, block) && 0 < marker < s.next && (s.marker == 0 || marker <= s.marker)
    requires forall id: nat :: IsClaimed(id, s.claims) ==> id < marker
    ensures RolledBack(p, s.(marker := marker), gas).Some?
    ensures Inv(p, RolledBack(p, s.(marker := marker), gas).value, block)
  {
    hide DeleteN, IsClaimed, Owed;
    var t := s.(marker := marker);
    var n := if gas < t.next - marker then gas else t.next - marker;
    DeleteKeepsRest(t, n);
    EtherSuffices(p, s, n);
    RollbackKeepsOrder(p, s, marker, gas, block);
  }

  lemma EtherSuffices(p: Params, s: State, n: nat)
    requires n < s.next && s.ether >= Owed(s.claims, s.next) * p.stake
    requires forall id: nat :: s.next - n <= id ==> !IsClaimed(id, s.claims)
    ensures s.ether - n * p.stake >= Owed(s.claims, s.next - n) * p.stake >= 0
  {
    hide IsClaimed;
    OwedDrop(s.claims, s.next, s.next - n);
    Distribute(Owed(s.claims, s.next - n), n, p.stake);
  }

  lemma Distribute(a: nat, b: nat, x: nat)
    ensures (a + b) * x == a * x + b * x
  {
  }

  lemma SubmitKeepsInv(p: Params, s: State, block0: nat, block: nat, root: Hash, usage: Usage, size: nat,
                       committer: nat, value: nat)
    requires Inv(p, s, block0) && block0 <= block && block + p.delay < 0x1_0000_0000
    requires Submitted(p, s, block, root, usage, size, committer, value).Some?
    ensures Inv(p, Submitted(p, s, block, root, usage, size, committer, value).value, block)
  {
    hide IsClaimed, Owed;
    SubmitKeepsOrder(p, s, block0, block, root, usage, size, committer, value);
    OneMoreOwed(p, s, block0, value);
  }

  lemma OneMoreOwed(p: Params, s: State, block: nat, value: nat)
    requires Inv(p, s, block) && value >= p.stake
    ensures s.ether + value >= Owed(s.claims, s.next + 1) * p.stake
  {
    hide IsClaimed;
    assert !IsClaimed(s.next, s.claims);
    Distribute(Owed(s.claims, s.next), 1, p.stake);
  }

  /** Every careful step keeps the ether covering one stake for each live, unwithdrawn batch after the genesis batch. */
  lemma StepKeepsInv(p: Params, s: State, op: Op, block0: nat, block: nat)
    requires Inv(p, s, block0) && block0 <= block && block + p.delay < 0x1_0000_0000 && Careful(s, op)
    ensures Inv(p, Step(p, s, op, block), block)
  {
    hide RolledBack, Submitted, IsClaimed, SetClaimed, StakeWithdrawn, Owed;
    assert Inv(p, s, block);
    match op {
      case Submit(root, usage, size, committer, value) =>
        if Submitted(p, s, block, root, usage, size, committer, value).Some? {
          SubmitKeepsInv(p, s, block0, block, root, usage, size, committer, value);
        }
      case SubmitDeposits(root, committer, value) =>
        if DepositsSubmitted(p, s, block, root, committer, value).Some? {
          var t := s.(front := s.front + 1, deposits := s.deposits[s.next := s.queued[s.front - 1]]);
          SubmitKeepsInv(p, t, block0, block, root, DepositBatch, 1, committer, value);
        }
      case QueueSubtree(_) =>
      case Dispute(id, gas) =>
        if id <= s.next && Disputable(s, id, block) {
          DisputableIsLive(p, s, id, block);
          WithdrawnIsFinal(p, s, id, block);
          RollbackKeepsInv(p, s, id, gas, block);
        }
      case KeepRollingBack(gas) =>
        if s.marker > 0 {
          assert s.(marker := s.marker) == s;
          RollbackKeepsInv(p, s, s.marker, gas, block);
        }
      case WithdrawStake(id, sender) => WithdrawKeepsInv(p, s, id, sender, block0, block);
    }
  }

  lemma WithdrawKeepsInv(p: Params, s: State, id: nat, sender: nat, block0: nat, block: nat)
    requires Inv(p, s, block0) && block0 <= block && block + p.delay < 0x1_0000_0000
    requires Careful(s, WithdrawStake(id, sender))
    ensures Inv(p, Step(p, s, WithdrawStake(id, sender), block), block)
  {
    hide IsClaimed, SetClaimed, Submitted, DepositsSubmitted, Disputed, RolledBack;
    if StakeWithdrawn(p, s, id, sender, block).Some? {
      assert id < s.next;
      OwedClaim(s.claims, id, s.next);
      Distribute(Owed(s.claims, s.next) - 1, 1, p.stake);
      forall other: nat
        ensures IsClaimed(other, SetClaimed(id, s.claims)) <==> other == id || IsClaimed(other, s.claims)
      {
        ClaimAddsOne(id, s.claims, other);
      }
    }
  }

  /** No withdrawn batch is at or above one that can be disputed. */
  lemma WithdrawnIsFinal(p: Params, s: State, id: nat, block: nat)
    requires Inv(p, s, block) && Disputable(s, id, block)
    ensures forall w: nat :: IsClaimed(w, s.claims) ==> w < id
  {
  }

  ghost predicate CarefulRun(p: Params, s: State, ops: seq<(Op, nat)>) {
    forall i :: 0 <= i < |ops| ==> Careful(Run(p, s, ops, i), ops[i].0)
  }

  lemma {:induction false} RunKeepsInv(p: Params, s: State, ops: seq<(Op, nat)>, n: nat, block0: nat)
    requires Inv(p, s, block0) && Timely(p, ops, block0) && CarefulRun(p, s, ops) && n <= |ops|
    ensures Inv(p, Run(p, s, ops, n), BlockAfter(ops, n, block0))
  {
    hide Covered, Ordered, Step, Careful;
    if n > 0 {
      RunKeepsInv(p, s, ops, n - 1, block0);
      var before := Run(p, s, ops, n - 1);
      MarkerInRange(p, before, BlockAfter(ops, n - 1, block0));
      StepKeepsInv(p, before, ops[n - 1].0, BlockAfter(ops, n - 1, block0), ops[n - 1].1);
    }
  }

  /** In every run from the genesis state in which stakes are withdrawn with care the ether covers what is owed. */
  lemma EveryRunIsCovered(p: Params, root: Hash, committer: nat, block0: nat, ops: seq<(Op, nat)>, n: nat)
    requires block0 < 0x1_0000_0000 && n <= |ops|
    requires Timely(p, ops, block0) && CarefulRun(p, Genesis(root, committer, block0), ops)
    ensures Inv(p, Run(p, Genesis(root, committer, block0), ops, n), BlockAfter(ops, n, block0))
  {
    var s := Genesis(root, committer, block0);
    assert Inv(p, s, block0);
    RunKeepsInv(p, s, ops, n, block0);
  }

  /** In every careful run from the genesis state a dispute never lacks ether: it condemns any live batch that is not
      final and not condemned already. */
  lemma EveryDisputeIsPaid(p: Params, root: Hash, committer: nat, block0: nat, ops: seq<(Op, nat)>, n: nat, block: nat,
                           id: nat, gas: nat)
    requires block0 < 0x1_0000_0000 && Timely(p, ops, block0) && n <= |ops|
    requires CarefulRun(p, Genesis(root, committer, block0), ops)
    requires BlockAfter(ops, n, block0) <= block
    requires var s := Run(p, Genesis(root, committer, block0), ops, n);
             id in s.batches && block < s.batches[id].finaliseOn && (s.marker == 0 || id < s.marker)
    ensures var s := Run(p, Genesis(root, committer, block0), ops, n);
            && s.marker <= s.next && id < s.next
            && Condemned(p, s, Step(p, s, Dispute(id, gas), block), id, if gas < s.next - id then gas else s.next - id)
  {
    hide IsClaimed, Step, Condemned, Run, CarefulRun;
    EveryRunIsCovered(p, root, committer, block0, ops, n);
    var s := Run(p, Genesis(root, committer, block0), ops, n);
    var deleted := if gas < s.next - id then gas else s.next - id;
    EtherSuffices(p, s, deleted);
    DisputeCondemns(p, s, id, gas, block, deleted);
  }

  // ------------------------------------------------------------------------------------------------ what care is for

  /** Ether beyond one stake for each live, unwithdrawn batch after the genesis batch. */
  ghost function Surplus(p: Params, s: State): int {
    s.ether - Owed(s.claims, s.next) * p.stake
  }

  /** Batches in [lo, hi), the genesis batch aside, whose stake was withdrawn. */
  function Withdrawn(claims: Bitmap, lo: nat, hi: nat): nat
    requires lo <= hi
    decreases hi - lo
  {
    if lo == hi then 0 else Withdrawn(claims, lo, hi - 1) + if hi > 1 && IsClaimed(hi - 1, claims) then 1 else 0
  }

  lemma {:induction false} OwedSplit(claims: Bitmap, lo: nat, hi: nat)
    requires 1 <= lo <= hi
    ensures Owed(claims, hi) + Withdrawn(claims, lo, hi) == Owed(claims, lo) + (hi - lo)
    decreases hi - lo
  {
    if lo < hi {
      OwedSplit(claims, lo, hi - 1);
    }
  }

  /** A withdrawal leaves the surplus alone exactly when its batch is live and not the genesis batch (or nothing is at
      stake): the genesis batch carried no stake, so somebody else's is paid out. */
  lemma WithdrawalSurplus(p: Params, s: State, id: nat, sender: nat, block: nat)
    requires StakeWithdrawn(p, s, id, sender, block).Some? && p.stake > 0
    ensures Surplus(p, StakeWithdrawn(p, s, id, sender, block).value)
         == Surplus(p, s) - if 0 < id < s.next then 0 else p.stake
  {
    hide IsClaimed, SetClaimed;
    if id > 0 {
      OwedClaim(s.claims, id, s.next);
      if id < s.next {
        Distribute(Owed(s.claims, s.next) - 1, 1, p.stake);
      }
    } else {
      GenesisOwesNothing(s.claims, s.next);
    }
  }

  lemma {:induction false} GenesisOwesNothing(claims: Bitmap, n: nat)
    ensures Owed(SetClaimed(0, claims), n) == Owed(claims, n)
  {
    hide SetClaimed, IsClaimed;
    if n > 1 {
      GenesisOwesNothing(claims, n - 1);
      ClaimAddsOne(0, claims, n - 1);
    }
  }

  /** A rollback pays out one stake too many for every batch it deletes whose stake was withdrawn before. */
  lemma RollbackSurplus(p: Params, s: State, gas: nat)
    requires 1 <= s.marker <= s.next && RolledBack(p, s, gas).Some?
    ensures var r := RolledBack(p, s, gas).value;
            1 <= r.next <= s.next && Surplus(p, r) == Surplus(p, s) - Withdrawn(s.claims, r.next, s.next) * p.stake
  {
    hide DeleteN, IsClaimed, Owed, Withdrawn;
    var n := if gas < s.next - s.marker then gas else s.next - s.marker;
    DeleteKeepsRest(s, n);
    var lo := s.next - n;
    OwedSplit(s.claims, lo, s.next);
    var a, b, w := Owed(s.claims, s.next), Owed(s.claims, lo), Withdrawn(s.claims, lo, s.next);
    Distribute(a, w, p.stake);
    Distribute(b, n, p.stake);
  }

  // ------------------------------------------------------------------------------------------------ where care fails

  /** A run in which the genesis stake, which was never paid in, is withdrawn at the expense of another batch. */
  lemma GenesisStakeTaken(p: Params, root: Hash, committer: nat, block0: nat)
    requires p.stake > 0 && block0 + 1 + p.delay < 0x1_0000_0000
    ensures var ops := [(Submit(root, TransferBatch, 1, committer, p.stake), block0 + 1),
                        (WithdrawStake(0, committer), block0 + 1)];
            && Timely(p, ops, block0)
            && Surplus(p, Run(p, Genesis(root, committer, block0), ops, 2)) + p.stake == 0
  {
    hide IsClaimed, SetClaimed, Owed;
    var ops := [(Submit(root, TransferBatch, 1, committer, p.stake), block0 + 1),
                (WithdrawStake(0, committer), block0 + 1)];
    var s0, b := Genesis(root, committer, block0), block0 + 1;
    NothingClaimed();
    var s1 := Step(p, s0, ops[0].0, b);
    assert Run(p, s0, ops, 0) == s0 && Run(p, s0, ops, 1) == s1;
    assert s1 == s0.(batches := s1.batches, next := 2, ether := p.stake) && s1.batches[0] == s0.batches[0];
    assert StakeWithdrawn(p, s1, 0, committer, b).Some?;
    WithdrawalSurplus(p, s1, 0, committer, b);
    OwedForOne(map[]);
  }

  lemma NothingClaimed()
    ensures forall id: nat :: !IsClaimed(id, map[])
  {
  }

  lemma OwedForOne(claims: Bitmap)
    requires !IsClaimed(1, claims)
    ensures Owed(claims, 2) == 1
  {
    assert Owed(claims, 1) == 0;
  }

  /** A run in which the stake of a condemned batch is withdrawn, once its dispute period is over, before the rollback
      reaches it: the rollback then pays it out once more, at the expense of the batch before. */
  lemma CondemnedStakeTaken(p: Params, root: Hash, committer: nat, block0: nat)
    requires p.stake > 0 && p.delay > 0 && block0 + 2 + 2 * p.delay < 0x1_0000_0000
    ensures var b := block0 + 1;
            var ops := [(Submit(root, TransferBatch, 1, committer, p.stake), b),
                        (Submit(root, TransferBatch, 1, committer, p.stake), b), (Dispute(2, 0), b),
                        (WithdrawStake(2, committer), b + p.delay + 1), (KeepRollingBack(1), b + p.delay + 1)];
            && Timely(p, ops, block0)
            && var s := Run(p, Genesis(root, committer, block0), ops, 5);
            s.marker == 0 && s.next == 2 && Surplus(p, s) + p.stake == 0
  {
    hide IsClaimed, SetClaimed, Owed, DeleteN, Withdrawn;
    var b := block0 + 1;
    var late := b + p.delay + 1;
    var submit := Submit(root, TransferBatch, 1, committer, p.stake);
    var ops := [(submit, b), (submit, b), (Dispute(2, 0), b), (WithdrawStake(2, committer),
                                                               late), (KeepRollingBack(1), late)];
    var s0 := Genesis(root, committer, block0);
    NothingClaimed();
    var s1 := Step(p, s0, submit, b);
    var s2 := Step(p, s1, submit, b);
    assert s2 == s0.(batches := s2.batches, next := 3, ether := 2 * p.stake);
    assert s2.batches[2].finaliseOn == b + p.delay && s2.batches[2].committer == committer;
    var s3 := Step(p, s2, Dispute(2, 0), b);
    NothingDeleted(s2.(marker := 2));
    assert s3 == s2.(marker := 2);
    var s4 := Step(p, s3, WithdrawStake(2, committer), late);
    assert s4 == s3.(claims := SetClaimed(2, map[]), ether := p.stake);
    var s5 := Step(p, s4, KeepRollingBack(1), late);
    assert RolledBack(p, s4, 1).Some?;
    RollbackSurplus(p, s4, 1);
    WithdrawalSurplus(p, s3, 2, committer, late);
    OwedForTwo();
    ClaimAddsOne(2, map[], 2);
    WithdrawnTop(SetClaimed(2, map[]));
    assert Run(p, s0, ops, 0) == s0 && Run(p, s0, ops, 1) == s1 && Run(p, s0, ops, 2) == s2;
    assert Run(p, s0, ops, 3) == s3 && Run(p, s0, ops, 4) == s4;
  }

  lemma NothingDeleted(s: State)
    ensures DeleteN(s, 0) == s
  {
  }

  lemma OwedForTwo()
    ensures Owed(map[], 3) == 2
  {
    NothingClaimed();
    OwedForOne(map[]);
  }

  lemma WithdrawnTop(claims: Bitmap)
    requires IsClaimed(2, claims)
    ensures Withdrawn(claims, 2, 3) == 1
  {
    assert Withdrawn(claims, 2, 2) == 0;
  }
}
