/** The order of batches and their finality, in every run of the batch manager. */
module BatchFinality {
  import opened Merkle
  import opened Types
  import opened Batches

  /** Live IDs are those below the next one, the marker is 0 or a live ID above 0, and finalisation blocks grow with the
      ID, by no more than the delay from now. */
  ghost predicate Ordered(p: Params, s: State, block: nat) {
    && 1 <= s.next && (s.marker == 0 || 1 <= s.marker < s.next)
    && (forall id: nat :: id in s.batches <==> id < s.next)
    && s.batches[0].finaliseOn <= block
    && (forall i, j :: 0 <= i <= j < s.next ==> s.batches[i].finaliseOn <= s.batches[j].finaliseOn)
    && (forall id :: 0 <= id < s.next ==> s.batches[id].finaliseOn <= block + p.delay)
  }

  /** Only a live batch after the genesis batch can be disputed. */
  lemma DisputableIsLive(p: Params, s: State, id: nat, block: nat)
    requires Ordered(p, s, block) && Disputable(s, id, block)
    ensures 0 < id < s.next && (s.marker == 0 || id < s.marker)
  {
  }

  lemma RollbackKeepsOrder(p: Params, s: State, marker: nat, gas: nat, block: nat)
    requires Ordered(p, s, block) && 0 < marker < s.next
    ensures var r := RolledBack(p, s.(marker := marker), gas); r.Some? ==> Ordered(p, r.value, block)
  {
    hide DeleteN;
    var t := s.(marker := marker);
    DeleteKeepsRest(t, if gas < t.next - marker then gas else t.next - marker);
  }

  lemma SubmitKeepsOrder(p: Params, s: State, block0: nat, block: nat, root: Hash, usage: Usage, size: nat,
                         committer: nat, value: nat)
    requires Ordered(p, s, block0) && block0 <= block && block + p.delay < 0x1_0000_0000
    ensures var r := Submitted(p, s, block, root, usage, size, committer, value);
            r.Some? ==> Ordered(p, r.value, block)
  {
    assert NewBatch(p, root, usage, size, committer, block).finaliseOn == block + p.delay;
  }

  /** Every call keeps the order, whoever withdraws what. */
  lemma StepKeepsOrder(p: Params, s: State, op: Op, block0: nat, block: nat)
    requires Ordered(p, s, block0) && block0 <= block && block + p.delay < 0x1_0000_0000
    ensures Ordered(p, Step(p, s, op, block), block)
  {
    hide RolledBack, Submitted, IsClaimed, SetClaimed;
    assert Ordered(p, s, block);
    match op {
      case Submit(root, usage, size, committer, value) =>
        SubmitKeepsOrder(p, s, block0, block, root, usage, size, committer, value);
      case SubmitDeposits(root, committer, value) =>
        if s.marker == 0 && 0 < s.front <= |s.queued| {
          var t := s.(front := s.front + 1, deposits := s.deposits[s.next := s.queued[s.front - 1]]);
          SubmitKeepsOrder(p, t, block0, block, root, DepositBatch, 1, committer, value);
        }
      case QueueSubtree(_) =>
      case Dispute(id, gas) =>
        if id <= s.next && Disputable(s, id, block) {
          DisputableIsLive(p, s, id, block);
          RollbackKeepsOrder(p, s, id, gas, block);
        }
      case KeepRollingBack(gas) =>
        if s.marker > 0 {
          assert s.(marker := s.marker) == s;
          RollbackKeepsOrder(p, s, s.marker, gas, block);
        }
      case WithdrawStake(_, _) =>
    }
  }

  /** Blocks never go back, and stay below 2^32 with the delay added: a batch record keeps no more. */
  ghost predicate Timely(p: Params, ops: seq<(Op, nat)>, block0: nat) {
    && (forall i :: 0 <= i < |ops| ==> block0 <= ops[i].1 && ops[i].1 + p.delay < 0x1_0000_0000)
    && (forall i, j :: 0 <= i <= j < |ops| ==> ops[i].1 <= ops[j].1)
  }

  lemma {:induction false} RunKeepsOrder(p: Params, s: State, ops: seq<(Op, nat)>, n: nat, block0: nat)
    requires Ordered(p, s, block0) && Timely(p, ops, block0) && n <= |ops|
    ensures Ordered(p, Run(p, s, ops, n), BlockAfter(ops, n, block0))
  {
    hide Ordered, Step;
    if n > 0 {
      RunKeepsOrder(p, s, ops, n - 1, block0);
      var before := Run(p, s, ops, n - 1);
      MarkerInRange(p, before, BlockAfter(ops, n - 1, block0));
      StepKeepsOrder(p, before, ops[n - 1].0, BlockAfter(ops, n - 1, block0), ops[n - 1].1);
    }
  }

  lemma MarkerInRange(p: Params, s: State, block: nat)
    requires Ordered(p, s, block)
    ensures s.marker <= s.next
  {
  }

  /** After every call of every run from the genesis state the batches are in order. */
  lemma EveryRunIsOrdered(p: Params, root: Hash, committer: nat, block0: nat, ops: seq<(Op, nat)>, n: nat)
    requires block0 < 0x1_0000_0000 && Timely(p, ops, block0) && n <= |ops|
    ensures Ordered(p, Run(p, Genesis(root, committer, block0), ops, n), BlockAfter(ops, n, block0))
  {
    var s := Genesis(root, committer, block0);
    assert Ordered(p, s, block0);
    RunKeepsOrder(p, s, ops, n, block0);
  }

  // ------------------------------------------------------------------------------------------------ finality

  /** Batch `id` is live, final at `block`, and not condemned by a rollback under way. */
  ghost predicate Final(s: State, id: nat, block: nat) {
    id in s.batches && s.batches[id].finaliseOn <= block && (s.marker == 0 || id < s.marker)
  }

  lemma FinalAfterRollback(p: Params, s: State, marker: nat, gas: nat, id: nat, block: nat)
    requires id < marker <= s.next && Final(s, id, block)
    ensures var r := RolledBack(p, s.(marker := marker), gas);
            r.Some? ==> Final(r.value, id, block) && r.value.batches[id] == s.batches[id]
  {
    hide DeleteN;
    var t := s.(marker := marker);
    DeleteKeepsRest(t, if gas < t.next - marker then gas else t.next - marker);
  }

  lemma FinalStays(p: Params, s: State, op: Op, block0: nat, block: nat, id: nat)
    requires Ordered(p, s, block0) && block0 <= block && Final(s, id, block0)
    ensures id in s.batches && Final(Step(p, s, op, block), id, block)
    ensures id in Step(p, s, op, block).batches && Step(p, s, op, block).batches[id] == s.batches[id]
  {
    hide IsClaimed, RolledBack;
    assert Final(s, id, block);
    match op {
      case Dispute(d, gas) =>
        if d <= s.next && Disputable(s, d, block) {
          DisputableIsLive(p, s, d, block);
          FinalAfterRollback(p, s, d, gas, id, block);
        }
      case KeepRollingBack(gas) =>
        if s.marker > 0 {
          assert s.(marker := s.marker) == s;
          FinalAfterRollback(p, s, s.marker, gas, id, block);
        }
      case _ =>
    }
  }

  /** No dispute removes a batch that was final when the dispute opened, nor does anything later: in every run a final
      batch stays for ever, unchanged. */
  lemma {:induction false} FinalForever(p: Params, s: State, ops: seq<(Op, nat)>, n: nat, block0: nat, id: nat)
    requires Ordered(p, s, block0) && Timely(p, ops, block0) && n <= |ops| && Final(s, id, block0)
    ensures Final(Run(p, s, ops, n), id, BlockAfter(ops, n, block0))
    ensures id in s.batches && id in Run(p, s, ops, n).batches && Run(p, s, ops, n).batches[id] == s.batches[id]
  {
    hide Ordered, Step, Final;
    if n > 0 {
      RunKeepsOrder(p, s, ops, n - 1, block0);
      FinalForever(p, s, ops, n - 1, block0, id);
      var before := Run(p, s, ops, n - 1);
      MarkerInRange(p, before, BlockAfter(ops, n - 1, block0));
      FinalStays(p, before, ops[n - 1].0, BlockAfter(ops, n - 1, block0), ops[n - 1].1, id);
    } else {
      FinalIsLive(s, id, block0);
    }
  }

  lemma FinalIsLive(s: State, id: nat, block: nat)
    requires Final(s, id, block)
    ensures id in s.batches
  {
  }

  // ------------------------------------------------------------------------------------------------ time to dispute

  /** No batch from `id` on is final before block `last`. */
  ghost predicate OpenUntil(s: State, id: nat, last: nat) {
    forall i :: i in s.batches && id <= i ==> last <= s.batches[i].finaliseOn
  }

  lemma RollbackKeepsOpen(p: Params, s: State, marker: nat, gas: nat, id: nat, last: nat)
    requires marker <= s.next && OpenUntil(s, id, last)
    ensures var r := RolledBack(p, s.(marker := marker), gas); r.Some? ==> OpenUntil(r.value, id, last)
  {
    hide DeleteN;
    var t := s.(marker := marker);
    DeleteKeepsRest(t, if gas < t.next - marker then gas else t.next - marker);
  }

  lemma StepKeepsOpen(p: Params, s: State, op: Op, block: nat, id: nat, last: nat)
    requires s.marker <= s.next && OpenUntil(s, id, last) && last <= block + p.delay < 0x1_0000_0000
    ensures OpenUntil(Step(p, s, op, block), id, last)
  {
    hide RolledBack, IsClaimed, SetClaimed;
    match op {
      case Dispute(d, gas) =>
        if d <= s.next {
          RollbackKeepsOpen(p, s, d, gas, id, last);
        }
      case KeepRollingBack(gas) =>
        assert s.(marker := s.marker) == s;
        RollbackKeepsOpen(p, s, s.marker, gas, id, last);
      case _ =>
    }
  }

  lemma {:induction false} RunKeepsOpen(p: Params, s: State, ops: seq<(Op, nat)>, n: nat, block0: nat, id: nat,
                                        last: nat)
    requires Timely(p, ops, block0) && n <= |ops| && OpenUntil(s, id, last) && last <= block0 + p.delay
    ensures OpenUntil(Run(p, s, ops, n), id, last)
  {
    hide OpenUntil, Step;
    if n > 0 {
      RunKeepsOpen(p, s, ops, n - 1, block0, id, last);
      var before := Run(p, s, ops, n - 1);
      if before.marker <= before.next {
        StepKeepsOpen(p, before, ops[n - 1].0, ops[n - 1].1, id, last);
      }
    }
  }

  /** The whole delay is there to dispute a batch: submitted in block `b`, at whatever block before `b` + delay, and
      after whatever other calls, a dispute condemns it as long as it is live and not condemned already. */
  lemma DisputableForTheDelay(p: Params, s: State, op: Op, block0: nat, b: nat, ops: seq<(Op, nat)>, n: nat, block: nat,
                              gas: nat, deleted: nat)
    requires Ordered(p, s, block0) && block0 <= b && b + p.delay < 0x1_0000_0000 && Timely(p, ops, b) && n <= |ops|
    requires (op.Submit? || op.SubmitDeposits?) && Step(p, s, op, b).next == s.next + 1 && block < b + p.delay
    requires var t := Run(p, Step(p, s, op, b), ops, n);
             && s.next in t.batches && (t.marker == 0 || s.next < t.marker)
             && s.next + deleted <= t.next && deleted <= gas && (deleted == gas || s.next + deleted == t.next)
             && deleted * p.stake <= t.ether
    ensures var t := Run(p, Step(p, s, op, b), ops, n);
            t.marker <= t.next && Condemned(p, t, Step(p, t, Dispute(s.next, gas), block), s.next, deleted)
  {
    hide Step, Condemned;
    var s1 := Step(p, s, op, b);
    StepKeepsOrder(p, s, op, block0, b);
    SubmittedIsOpen(p, s, op, b);
    RunKeepsOrder(p, s1, ops, n, b);
    RunKeepsOpen(p, s1, ops, n, b, s.next, b + p.delay);
    var t := Run(p, s1, ops, n);
    MarkerInRange(p, t, BlockAfter(ops, n, b));
    DisputeCondemns(p, t, s.next, gas, block, deleted);
  }

  lemma SubmittedIsOpen(p: Params, s: State, op: Op, b: nat)
    requires s.marker <= s.next && b + p.delay < 0x1_0000_0000 && (op.Submit? || op.SubmitDeposits?)
    requires (forall id: nat :: id in s.batches <==> id < s.next) && Step(p, s, op, b).next == s.next + 1
    ensures OpenUntil(Step(p, s, op, b), s.next, b + p.delay)
  {
  }

  /** With a rollback to batch 3 under way, batch 2 can still be condemned: the rollback then goes on to it. */
  lemma LowerBatchIsCondemned(p: Params, s: State, block: nat)
    requires s.marker == 3 <= s.next && 2 in s.batches && block < s.batches[2].finaliseOn
    ensures Step(p, s, Dispute(2, 0), block) == s.(marker := 2)
  {
    DisputeCondemns(p, s, 2, 0, block, 0);
    assert Recorded(s, s.next, s.next) == [];
    var s' := Step(p, s, Dispute(2, 0), block);
    assert s'.batches == s.batches;
  }
}
