/** Deposit subtrees between the queue and the batches. */
module DepositsInFlight {
  import opened Merkle
  import opened Types
  import opened Batches

  /** Deposit roots recorded for live deposit batches below `n`. */
  ghost function LiveDeposits(s: State, n: nat): multiset<Hash> {
    if n == 0 then multiset{} else
      LiveDeposits(s, n - 1)
        + if BatchAt(s, n - 1).usage == DepositBatch then multiset{DepositOf(s, n - 1)} else multiset{}
  }

  /** Subtree roots still to be dequeued, and those in live deposit batches. */
  ghost function Outstanding(s: State): multiset<Hash>
    requires 1 <= s.front <= |s.queued| + 1
  {
    multiset(s.queued[s.front - 1..]) + LiveDeposits(s, s.next)
  }

  /** Among the live batches exactly the deposit batches have a root on record; no root in the queue is zero. */
  ghost predicate Tracked(s: State) {
    && 1 <= s.front <= |s.queued| + 1
    && (forall i :: 0 <= i < |s.queued| ==> s.queued[i] != Word(0))
    && (forall id :: 0 <= id < s.next ==>
          id in s.batches && (DepositOf(s, id) != Word(0) <==> s.batches[id].usage == DepositBatch))
  }

  lemma {:induction false} LiveAgree(s: State, t: State, n: nat)
    requires forall id :: 0 <= id < n ==>
               BatchAt(s, id).usage == BatchAt(t, id).usage && DepositOf(s, id) == DepositOf(t, id)
    ensures LiveDeposits(s, n) == LiveDeposits(t, n)
  {
    if n > 0 {
      LiveAgree(s, t, n - 1);
    }
  }

  lemma QueueGrows(queued: seq<Hash>, front: nat, root: Hash)
    requires 1 <= front <= |queued| + 1
    ensures multiset((queued + [root])[front - 1..]) == multiset(queued[front - 1..]) + multiset{root}
  {
    assert (queued + [root])[front - 1..] == queued[front - 1..] + [root];
  }

  lemma QueueShrinks(queued: seq<Hash>, front: nat)
    requires 1 <= front <= |queued|
    ensures multiset(queued[front - 1..]) == multiset(queued[front..]) + multiset{queued[front - 1]}
  {
    assert queued[front - 1..] == [queued[front - 1]] + queued[front..];
  }

  lemma DeleteTopTracked(s: State)
    requires Tracked(s) && s.next > 0
    ensures Tracked(DeleteTop(s))
  {
  }

  lemma DeleteTopConserves(s: State)
    requires Tracked(s) && s.next > 0
    ensures Tracked(DeleteTop(s)) && Outstanding(DeleteTop(s)) == Outstanding(s)
  {
    hide LiveDeposits;
    var n, t, root := s.next - 1, DeleteTop(s), DepositOf(s, s.next - 1);
    DeleteTopTracked(s);
    TopDeposit(s);
    LiveAgree(s, t, n);
    QueueGrows(s.queued, s.front, root);
    var waiting := multiset(s.queued[s.front - 1..]);
    if root != Word(0) {
      assert multiset(t.queued[t.front - 1..]) == waiting + multiset{root};
      assert Outstanding(s) == waiting + (LiveDeposits(s, n) + multiset{root});
    } else {
      assert Outstanding(s) == waiting + LiveDeposits(s, n);
    }
  }

  lemma TopDeposit(s: State)
    requires Tracked(s) && s.next > 0
    ensures var n, root := s.next - 1, DepositOf(s, s.next - 1);
            LiveDeposits(s, s.next) == LiveDeposits(s, n) + if root != Word(0) then multiset{root} else multiset{}
  {
  }

  lemma {:induction false} DeleteConserves(s: State, n: nat)
    requires Tracked(s) && n <= s.next
    ensures Tracked(DeleteN(s, n)) && Outstanding(DeleteN(s, n)) == Outstanding(s)
  {
    hide Tracked, Outstanding;
    if n > 0 {
      DeleteConserves(s, n - 1);
      DeleteTopConserves(DeleteN(s, n - 1));
    }
  }

  /** An ID that carries a stale deposit root is not given to another kind of batch. */
  ghost predicate NoReuse(s: State, op: Op) {
    && (op.Submit? ==> op.usage != DepositBatch && DepositOf(s, s.next) == Word(0))
    && (op.QueueSubtree? ==> op.subtreeRoot != Word(0))
  }

  lemma SubmitConserves(p: Params, s: State, block: nat, root: Hash, usage: Usage, size: nat, committer: nat,
                        value: nat)
    requires Tracked(s) && usage != DepositBatch && DepositOf(s, s.next) == Word(0)
    requires Submitted(p, s, block, root, usage, size, committer, value).Some?
    ensures var t := Submitted(p, s, block, root, usage, size, committer, value).value;
            Tracked(t) && Outstanding(t) == Outstanding(s)
  {
    hide LiveDeposits;
    var t := Submitted(p, s, block, root, usage, size, committer, value).value;
    SubmitTracked(p, s, block, root, usage, size, committer, value);
    TopDeposit(t);
    LiveAgree(s, t, s.next);
  }

  lemma SubmitTracked(p: Params, s: State, block: nat, root: Hash, usage: Usage, size: nat, committer: nat, value: nat)
    requires Tracked(s) && usage != DepositBatch && DepositOf(s, s.next) == Word(0)
    requires Submitted(p, s, block, root, usage, size, committer, value).Some?
    ensures var t := Submitted(p, s, block, root, usage, size, committer, value).value;
            Tracked(t) && DepositOf(t, s.next) == Word(0) && t.next == s.next + 1
  {
  }

  lemma DepositSubmitConserves(p: Params, s: State, block: nat, root: Hash, committer: nat, value: nat)
    requires Tracked(s) && DepositsSubmitted(p, s, block, root, committer, value).Some?
    ensures var t := DepositsSubmitted(p, s, block, root, committer, value).value;
            Tracked(t) && Outstanding(t) == Outstanding(s)
  {
    hide LiveDeposits;
    var t := DepositsSubmitted(p, s, block, root, committer, value).value;
    DepositSubmitTracked(p, s, block, root, committer, value);
    TopDeposit(t);
    LiveAgree(s, t, s.next);
    QueueShrinks(s.queued, s.front);
    var live, first := LiveDeposits(s, s.next), s.queued[s.front - 1];
    assert Outstanding(t) == multiset(s.queued[s.front..]) + (live + multiset{first});
  }

  lemma DepositSubmitTracked(p: Params, s: State, block: nat, root: Hash, committer: nat, value: nat)
    requires Tracked(s) && DepositsSubmitted(p, s, block, root, committer, value).Some?
    ensures var t := DepositsSubmitted(p, s, block, root, committer, value).value;
            Tracked(t) && DepositOf(t, s.next) == s.queued[s.front - 1] && t.next == s.next + 1
  {
  }

  lemma RollbackConserves(p: Params, s: State, marker: nat, gas: nat)
    requires Tracked(s) && marker <= s.next
    ensures var r := RolledBack(p, s.(marker := marker), gas);
            r.Some? ==> Tracked(r.value) && Outstanding(r.value) == Outstanding(s)
  {
    hide DeleteN, LiveDeposits;
    var t := s.(marker := marker);
    var n := if gas < t.next - marker then gas else t.next - marker;
    SameDeposits(s, t);
    DeleteConserves(t, n);
    var r := RolledBack(p, t, gas);
    if r.Some? {
      SameDeposits(DeleteN(t, n), r.value);
    }
  }

  /** The marker, the claims and the ether have no part in it. */
  lemma SameDeposits(s: State, t: State)
    requires Tracked(s) && t == s.(marker := t.marker, claims := t.claims, ether := t.ether)
    ensures Tracked(t) && Outstanding(t) == Outstanding(s)
  {
    LiveAgree(s, t, s.next);
  }

  /** Deposits are conserved: as long as no ID with a stale root is reused, every subtree root is at all times either
      waiting in the queue or in one live batch, and only a new subtree adds to them. */
  lemma DepositsConserved(p: Params, s: State, op: Op, block: nat)
    requires Tracked(s) && s.marker <= s.next && NoReuse(s, op)
    ensures var s' := Step(p, s, op, block);
            && Tracked(s')
            && Outstanding(s') == Outstanding(s) + if op.QueueSubtree? then multiset{op.subtreeRoot} else multiset{}
  {
    hide IsClaimed, SetClaimed, LiveDeposits, Tracked, RolledBack, Submitted, DepositsSubmitted;
    match op {
      case Submit(root, usage, size, committer, value) =>
        if Submitted(p, s, block, root, usage, size, committer, value).Some? {
          SubmitConserves(p, s, block, root, usage, size, committer, value);
        }
      case SubmitDeposits(root, committer, value) =>
        if DepositsSubmitted(p, s, block, root, committer, value).Some? {
          DepositSubmitConserves(p, s, block, root, committer, value);
        }
      case QueueSubtree(root) =>
        QueueConserves(s, root);
      case Dispute(d, gas) =>
        if d <= s.next && Disputable(s, d, block) {
          RollbackConserves(p, s, d, gas);
        }
      case KeepRollingBack(gas) =>
        if s.marker > 0 {
          assert s.(marker := s.marker) == s;
          RollbackConserves(p, s, s.marker, gas);
        }
      case WithdrawStake(_, _) =>
        SameDeposits(s, Step(p, s, op, block));
    }
  }

  lemma QueueConserves(s: State, root: Hash)
    requires Tracked(s) && root != Word(0)
    ensures var t := s.(queued := s.queued + [root]);
            Tracked(t) && Outstanding(t) == Outstanding(s) + multiset{root}
  {
    LiveAgree(s, s.(queued := s.queued + [root]), s.next);
    QueueGrows(s.queued, s.front, root);
  }

  /** What is left of a batch that was submitted and then deleted. */
  lemma SubmittedThenDeleted(p: Params, s: State, block: nat, root: Hash, usage: Usage, size: nat, committer: nat,
                             value: nat)
    requires Tracked(s) && Submitted(p, s, block, root, usage, size, committer, value).Some?
    ensures var back := DeleteTop(Submitted(p, s, block, root, usage, size, committer, value).value);
            var stale := DepositOf(s, s.next);
            && back.next == s.next && back.front == s.front && back.deposits == s.deposits
            && (forall id :: 0 <= id < s.next ==> BatchAt(back, id) == BatchAt(s, id))
            && back.queued == if stale != Word(0) then s.queued + [stale] else s.queued
  {
  }

  /** The condition is exact: a batch of another kind, submitted and then rolled back, leaves the outstanding deposits
      as they were if and only if its ID had no root on record; otherwise that root is queued once more. */
  lemma ReuseDuplicates(p: Params, s: State, block: nat, root: Hash, usage: Usage, size: nat, committer: nat,
                        value: nat)
    requires Tracked(s) && usage != DepositBatch && Submitted(p, s, block, root, usage, size, committer, value).Some?
    ensures var back := DeleteTop(Submitted(p, s, block, root, usage, size, committer, value).value);
            && 1 <= back.front <= |back.queued| + 1
            && (Outstanding(back) == Outstanding(s) <==> DepositOf(s, s.next) == Word(0))
            && (DepositOf(s, s.next) != Word(0) ==>
                  Outstanding(back) == Outstanding(s) + multiset{DepositOf(s, s.next)})
  {
    hide LiveDeposits, DeleteTop, BatchAt, DepositOf;
    var back := DeleteTop(Submitted(p, s, block, root, usage, size, committer, value).value);
    var stale := DepositOf(s, s.next);
    SubmittedThenDeleted(p, s, block, root, usage, size, committer, value);
    SameRecords(s, back);
    LiveAgree(s, back, s.next);
    QueueGrows(s.queued, s.front, stale);
    if stale != Word(0) {
      assert Outstanding(back) == Outstanding(s) + multiset{stale};
      assert Outstanding(back)[stale] == Outstanding(s)[stale] + 1;
    }
  }

  lemma SameRecords(s: State, t: State)
    requires s.deposits == t.deposits
    ensures forall id :: DepositOf(s, id) == DepositOf(t, id)
  {
  }

  // ------------------------------------------------------------------------------------------------ whole runs

  lemma StepKeepsMarker(p: Params, s: State, op: Op, block: nat)
    requires s.marker <= s.next
    ensures Step(p, s, op, block).marker <= Step(p, s, op, block).next
  {
    hide DeleteN;
  }

  ghost predicate NoReuseRun(p: Params, s: State, ops: seq<(Op, nat)>) {
    forall i :: 0 <= i < |ops| ==> NoReuse(Run(p, s, ops, i), ops[i].0)
  }

  /** Subtree roots that the first `n` calls put in the queue. */
  ghost function QueuedBy(ops: seq<(Op, nat)>, n: nat): multiset<Hash>
    requires n <= |ops|
  {
    if n == 0 then multiset{} else
      QueuedBy(ops, n - 1) + if ops[n - 1].0.QueueSubtree? then multiset{ops[n - 1].0.subtreeRoot} else multiset{}
  }

  lemma {:induction false} RunConserves(p: Params, s: State, ops: seq<(Op, nat)>, n: nat)
    requires Tracked(s) && s.marker <= s.next && NoReuseRun(p, s, ops) && n <= |ops|
    ensures var t := Run(p, s, ops, n);
            Tracked(t) && t.marker <= t.next && Outstanding(t) == Outstanding(s) + QueuedBy(ops, n)
  {
    hide Tracked, Outstanding, Step, NoReuse;
    if n > 0 {
      RunConserves(p, s, ops, n - 1);
      var before := Run(p, s, ops, n - 1);
      DepositsConserved(p, before, ops[n - 1].0, ops[n - 1].1);
      StepKeepsMarker(p, before, ops[n - 1].0, ops[n - 1].1);
    }
  }

  /** In every run from the genesis state in which no ID with a root on record is reused by another kind of batch, the
      subtree roots ever queued are exactly those that wait in the queue or are in a live deposit batch. */
  lemma EveryRunConserves(p: Params, root: Hash, committer: nat, block0: nat, ops: seq<(Op, nat)>, n: nat)
    requires NoReuseRun(p, Genesis(root, committer, block0), ops) && n <= |ops|
    ensures var t := Run(p, Genesis(root, committer, block0), ops, n);
            Tracked(t) && Outstanding(t) == QueuedBy(ops, n)
  {
    var s := Genesis(root, committer, block0);
    assert LiveDeposits(s, 0) == multiset{} && LiveDeposits(s, 1) == multiset{};
    RunConserves(p, s, ops, n);
  }

  /** Where the hypothesis fails: a deposit batch is rolled back, its ID is reused by a transfer batch, and that is
      rolled back too.  The one subtree is then twice in the queue. */
  lemma StaleRootQueuedTwice(p: Params, root: Hash, subtreeRoot: Hash, committer: nat, block0: nat)
    requires p.delay > 0 && block0 + 1 + p.delay < 0x1_0000_0000 && subtreeRoot != Word(0)
    ensures var b := block0 + 1;
            var ops := [(QueueSubtree(subtreeRoot), b),
                        (SubmitDeposits(root, committer, p.stake), b), (Dispute(1, 1), b),
                        (Submit(root, TransferBatch, 1, committer, p.stake), b), (Dispute(1, 1), b)];
            var s0 := Genesis(root, committer, block0);
            var s, t := Run(p, s0, ops, 3), Run(p, s0, ops, 5);
            && Tracked(s) && DepositOf(s, s.next) == subtreeRoot && QueuedBy(ops, 5) == multiset{subtreeRoot}
            && 1 <= t.front <= |t.queued| + 1 && Outstanding(t) == multiset{subtreeRoot, subtreeRoot}
  {
    hide LiveDeposits, Step, Outstanding, QueuedBy, Run;
    var b := block0 + 1;
    var submit := Submit(root, TransferBatch, 1, committer, p.stake);
    var ops := [(QueueSubtree(subtreeRoot), b), (SubmitDeposits(root, committer, p.stake), b), (Dispute(1, 1), b),
                (submit, b), (Dispute(1, 1), b)];
    var s0 := Genesis(root, committer, block0);
    var s1, s2, s3 := DepositRolledBack(p, s0, root, subtreeRoot, committer, b);
    var s4, s5 := IdReused(p, s3, root, subtreeRoot, committer, b);
    FiveSteps(p, s0, ops, s1, s2, s3, s4, s5);
    QueuedOnce(ops, subtreeRoot);
  }

  lemma DepositRolledBack(p: Params, s: State, root: Hash, subtreeRoot: Hash, committer: nat, b: nat)
    returns (s1: State, s2: State, s3: State)
    requires p.delay > 0 && b + p.delay < 0x1_0000_0000 && subtreeRoot != Word(0)
    requires s.next == 1 && s.batches.Keys == {0} && s.marker == 0 && s.ether == 0 && s.queued == [] && s.front == 1
    requires s.deposits == map[] && s.batches[0].usage == GenesisBatch
    ensures s1 == Step(p, s, QueueSubtree(subtreeRoot), b) && s1.marker == 0
    ensures s2 == Step(p, s1, SubmitDeposits(root, committer, p.stake), b) && s2.marker == 0
    ensures s3 == Step(p, s2, Dispute(1, 1), b)
    ensures s3 == s.(queued := [subtreeRoot, subtreeRoot], front := 2, deposits := map[1 := subtreeRoot])
    ensures Tracked(s3) && DepositOf(s3, s3.next) == subtreeRoot
  {
    hide DeleteN;
    s1 := Step(p, s, QueueSubtree(subtreeRoot), b);
    s2 := Step(p, s1, SubmitDeposits(root, committer, p.stake), b);
    assert s1 == s.(queued := [subtreeRoot]);
    var batch := NewBatch(p, root, DepositBatch, 1, committer, b);
    assert s2 == s1.(batches := s.batches[1 := batch], next := 2, front := 2, deposits := map[1 := subtreeRoot],
                     ether := p.stake);
    s3 := Step(p, s2, Dispute(1, 1), b);
    TopDeleted(p, s2, b);
    assert s2.batches - {1} == s.batches;
    assert s2.queued + [subtreeRoot] == [subtreeRoot, subtreeRoot];
  }

  lemma IdReused(p: Params, s: State, root: Hash, subtreeRoot: Hash, committer: nat, b: nat)
    returns (s1: State, s2: State)
    requires p.delay > 0 && b + p.delay < 0x1_0000_0000 && subtreeRoot != Word(0)
    requires s.next == 1 && s.batches.Keys == {0} && s.marker == 0 && s.ether == 0
    requires s.queued == [subtreeRoot, subtreeRoot] && s.front == 2 && s.deposits == map[1 := subtreeRoot]
    requires s.batches[0].usage == GenesisBatch
    ensures s1 == Step(p, s, Submit(root, TransferBatch, 1, committer, p.stake), b) && s1.marker == 0
    ensures s2 == Step(p, s1, Dispute(1, 1), b)
    ensures 1 <= s2.front <= |s2.queued| + 1 && Outstanding(s2) == multiset{subtreeRoot, subtreeRoot}
  {
    hide DeleteN, LiveDeposits;
    s1 := Step(p, s, Submit(root, TransferBatch, 1, committer, p.stake), b);
    assert s1.next == 2 && s1.ether == p.stake;
    s2 := Step(p, s1, Dispute(1, 1), b);
    TopDeleted(p, s1, b);
    assert s2.queued == [subtreeRoot, subtreeRoot, subtreeRoot];
    assert s2.queued[1..] == [subtreeRoot, subtreeRoot];
    OnlyGenesisLive(s2);
  }

  /** A dispute of the last batch, with gas for one deletion. */
  lemma TopDeleted(p: Params, s: State, block: nat)
    requires s.next == 2 && s.marker == 0 && s.ether == p.stake && Disputable(s, 1, block)
    ensures Step(p, s, Dispute(1, 1), block) == DeleteTop(s).(ether := 0)
  {
    var t := s.(marker := 1);
    assert DeleteN(t, 0) == t && DeleteN(t, 1) == DeleteTop(t);
    assert 1 * p.stake == p.stake;
  }

  lemma OnlyGenesisLive(s: State)
    requires s.next == 1 && BatchAt(s, 0).usage == GenesisBatch
    ensures LiveDeposits(s, 1) == multiset{}
  {
    assert LiveDeposits(s, 0) == multiset{};
  }

  lemma FiveSteps(p: Params, s0: State, ops: seq<(Op, nat)>, s1: State, s2: State, s3: State, s4: State, s5: State)
    requires |ops| == 5 && s0.marker <= s0.next && s1 == Step(p, s0, ops[0].0, ops[0].1)
    requires s1.marker <= s1.next && s2 == Step(p, s1, ops[1].0, ops[1].1)
    requires s2.marker <= s2.next && s3 == Step(p, s2, ops[2].0, ops[2].1)
    requires s3.marker <= s3.next && s4 == Step(p, s3, ops[3].0, ops[3].1)
    requires s4.marker <= s4.next && s5 == Step(p, s4, ops[4].0, ops[4].1)
    ensures Run(p, s0, ops, 3) == s3 && Run(p, s0, ops, 5) == s5
  {
    hide Step;
    assert Run(p, s0, ops, 0) == s0 && Run(p, s0, ops, 1) == s1 && Run(p, s0, ops, 2) == s2;
    assert Run(p, s0, ops, 3) == s3 && Run(p, s0, ops, 4) == s4;
  }

  lemma QueuedOnce(ops: seq<(Op, nat)>, subtreeRoot: Hash)
    requires |ops| == 5 && ops[0].0 == QueueSubtree(subtreeRoot)
    requires forall i :: 1 <= i < 5 ==> !ops[i].0.QueueSubtree?
    ensures QueuedBy(ops, 5) == multiset{subtreeRoot}
  {
    assert QueuedBy(ops, 0) == multiset{};
    assert QueuedBy(ops, 1) == multiset{subtreeRoot} && QueuedBy(ops, 2) == QueuedBy(ops, 1);
    assert QueuedBy(ops, 3) == QueuedBy(ops, 2) && QueuedBy(ops, 4) == QueuedBy(ops, 3);
  }
}
