/** contracts/rollup/BatchManager.sol with the queue it re-enqueues to: submission, finality, rollback in pieces and
    stake, as transitions of a state. */
module Batches {
  import opened Merkle
  import opened MerkleTree
  import opened Types

  datatype Usage = GenesisBatch | TransferBatch | MassMigrationBatch | Create2TransferBatch | DepositBatch

  /** A batch record as its accessors read it back. */
  datatype Batch = Batch(commitmentRoot: Hash, usage: Usage, size: nat, committer: nat, finaliseOn: nat)

  datatype Params = Params(stake: nat, delay: nat)

  /** `queued` holds every subtree root ever put in the deposit queue, `front` the ID to be dequeued next. */
  datatype State = State(batches: map<nat, Batch>, next: nat, deposits: map<nat, Hash>, claims: Bitmap, marker: nat,
                         queued: seq<Hash>, front: nat, ether: nat)

  /** A mapping reads as zero where it was never written or was deleted. */
  function BatchAt(s: State, id: nat): Batch {
    if id in s.batches then s.batches[id] else Batch(Word(0), GenesisBatch, 0, 0, 0)
  }

  function DepositOf(s: State, id: nat): Hash {
    if id in s.deposits then s.deposits[id] else Word(0)
  }

  // ------------------------------------------------------------------------------------------------ transitions

  function NewBatch(p: Params, root: Hash, usage: Usage, size: nat, committer: nat, block: nat): Batch {
    Batch(root, usage, size % 0x100, committer, (block + p.delay) % 0x1_0000_0000)
  }

  /** None is a revert. */
  function Submitted(p: Params, s: State, block: nat, root: Hash, usage: Usage, size: nat, committer: nat, value: nat)
    : Option<State>
  {
    if s.marker != 0 || value < p.stake then None else
      Some(s.(batches := s.batches[s.next := NewBatch(p, root, usage, size, committer, block)], next := s.next + 1,
              ether := s.ether + value))
  }

  /** A deposit batch takes the next subtree root from the queue and records it under its ID. */
  function DepositsSubmitted(p: Params, s: State, block: nat, root: Hash, committer: nat, value: nat): Option<State> {
    if s.marker != 0 || s.front == 0 || s.front > |s.queued| then None else
      Submitted(p, s.(front := s.front + 1, deposits := s.deposits[s.next := s.queued[s.front - 1]]), block, root,
                DepositBatch, 1, committer, value)
  }

  /** Removes the last batch; the deposit root recorded under its ID, if any, goes back to the queue and stays
      recorded. */
  function DeleteTop(s: State): State
    requires s.next > 0
  {
    var id := s.next - 1;
    s.(batches := s.batches - {id}, next := id,
       queued := if DepositOf(s, id) != Word(0) then s.queued + [DepositOf(s, id)] else s.queued)
  }

  function DeleteN(s: State, n: nat): State
    requires n <= s.next
    ensures DeleteN(s, n).next == s.next - n
  {
    if n == 0 then s else DeleteTop(DeleteN(s, n - 1))
  }

  /** One call of `rollback` with gas for at most `gas` deletions. */
  function RolledBack(p: Params, s: State, gas: nat): Option<State>
    requires s.marker <= s.next
  {
    var expected := s.next - s.marker;
    var n := if gas < expected then gas else expected;
    if s.ether < n * p.stake then None else
      Some(DeleteN(s, n).(marker := if n == expected then 0 else s.marker, ether := s.ether - n * p.stake))
  }

  predicate Disputable(s: State, id: nat, block: nat) {
    block < BatchAt(s, id).finaliseOn && (id < s.marker || s.marker == 0)
  }

  function Disputed(p: Params, s: State, id: nat, block: nat, gas: nat): Option<State>
    requires id <= s.next
  {
    if !Disputable(s, id, block) then None else RolledBack(p, s.(marker := id), gas)
  }

  function StakeWithdrawn(p: Params, s: State, id: nat, sender: nat, block: nat): Option<State> {
    var batch := BatchAt(s, id);
    if sender != batch.committer || block <= batch.finaliseOn || IsClaimed(id, s.claims) || s.ether < p.stake then None
    else Some(s.(claims := SetClaimed(id, s.claims), ether := s.ether - p.stake))
  }

  // ------------------------------------------------------------------------------------------------ rollback in pieces

  lemma {:induction false} DeleteSum(s: State, a: nat, b: nat)
    requires a + b <= s.next
    ensures DeleteN(s, a + b) == DeleteN(DeleteN(s, a), b)
  {
    if b > 0 {
      DeleteSum(s, a, b - 1);
    }
  }

  lemma {:induction false} DeleteKeepsRest(s: State, n: nat)
    requires n <= s.next
    ensures var d := DeleteN(s, n);
            && d == s.(batches := d.batches, next := s.next - n, queued := d.queued)
            && forall id :: id in d.batches <==> id in s.batches && !(s.next - n <= id < s.next)
    ensures forall id :: id in DeleteN(s, n).batches ==> DeleteN(s, n).batches[id] == s.batches[id]
  {
    if n > 0 {
      DeleteKeepsRest(s, n - 1);
    }
  }

  /** Deletion looks at neither the marker nor the ether. */
  lemma {:induction false} DeleteIgnores(s: State, n: nat, marker: nat, ether: nat)
    requires n <= s.next
    ensures DeleteN(s.(marker := marker, ether := ether), n) == DeleteN(s, n).(marker := marker, ether := ether)
  {
    if n > 0 {
      DeleteIgnores(s, n - 1, marker, ether);
      DeleteKeepsRest(s, n - 1);
    }
  }

  /** What can happen while a rollback is under way: more gas, a successful dispute of a lower batch, a new subtree for
      the deposit queue, or a withdrawal of a stake. */
  datatype Move =
    | Keep(gas: nat)
    | Escalate(id: nat, gas: nat)
    | Queue(root: Hash)
    | Withdraw(id: nat, sender: nat, block: nat)

  function AfterMove(p: Params, s: State, m: Move): Option<State>
    requires s.marker <= s.next
  {
    match m
    case Keep(gas) => if s.marker == 0 then None else RolledBack(p, s, gas)
    case Escalate(id, gas) => if id >= s.marker then None else RolledBack(p, s.(marker := id), gas)
    case Queue(root) => Some(s.(queued := s.queued + [root]))
    case Withdraw(id, sender, block) => StakeWithdrawn(p, s, id, sender, block)
  }

  /** An episode goes on until the marker is cleared; None if some move reverts. */
  function Episode(p: Params, s: State, moves: seq<Move>): Option<State>
    requires s.marker <= s.next
    decreases |moves|
  {
    if moves == [] then Some(s) else
      match AfterMove(p, s, moves[0])
      case None => None
      case Some(s') => if s'.marker > s'.next then None else Episode(p, s', moves[1..])
  }

  /** The last batch disputed in an episode. */
  function LastMarker(marker: nat, moves: seq<Move>): nat
    decreases |moves|
  {
    if moves == [] then marker else LastMarker(if moves[0].Escalate? then moves[0].id else marker, moves[1..])
  }

  /** An unfinished call followed by a finishing one is one finishing call. */
  lemma JoinRollbacks(p: Params, s: State, marker: nat, gas: nat, last: nat)
    requires 0 < last <= marker <= s.next && RolledBack(p, s.(marker := marker), gas).Some?
    requires var s1 := RolledBack(p, s.(marker := marker), gas).value;
             s1.marker == marker && last <= s1.next && RolledBack(p, s1.(marker := last), s1.next).Some?
    ensures var s1 := RolledBack(p, s.(marker := marker), gas).value;
            RolledBack(p, s.(marker := last), s.next) == RolledBack(p, s1.(marker := last), s1.next)
  {
    hide DeleteN;
    var n := if gas < s.next - marker then gas else s.next - marker;
    DeleteIgnores(s, n, marker, s.ether);
    DeleteKeepsRest(s, n);
    var d, ether := DeleteN(s, n), s.ether - n * p.stake;
    assert RolledBack(p, s.(marker := marker), gas) == Some(d.(marker := marker, ether := ether));
    var rest := d.next - last;
    DeleteIgnores(d, rest, last, ether);
    DeleteSum(s, n, rest);
    DeleteIgnores(s, n + rest, last, s.ether);
    assert (n + rest) * p.stake == n * p.stake + rest * p.stake;
  }

  /** Rollback does not depend on how gas, or further disputes, split it: an episode that runs to completion ends with
      the very state, queue order included, of one uninterrupted rollback to the lowest disputed batch. */
  lemma {:induction false} EpisodeIsOneRollback(p: Params, s: State, moves: seq<Move>)
    requires 0 < s.marker <= s.next && Episode(p, s, moves).Some? && Episode(p, s, moves).value.marker == 0
    requires forall i :: 0 <= i < |moves| ==> moves[i].Keep? || (moves[i].Escalate? && moves[i].id > 0)
    ensures var last := LastMarker(s.marker, moves);
            0 < last <= s.marker && Episode(p, s, moves) == RolledBack(p, s.(marker := last), s.next)
    decreases |moves|
  {
    hide DeleteN;
    var m := moves[0];
    var marker := if m.Escalate? then m.id else s.marker;
    var s1 := RolledBack(p, s.(marker := marker), m.gas).value;
    assert AfterMove(p, s, m) == Some(s1);
    if s1.marker == 0 {
      CompleteIsDone(p, s1, moves[1..]);
    } else {
      EpisodeIsOneRollback(p, s1, moves[1..]);
      JoinRollbacks(p, s, marker, m.gas, LastMarker(marker, moves[1..]));
    }
  }

  lemma CompleteIsDone(p: Params, s: State, moves: seq<Move>)
    requires s.marker == 0 && Episode(p, s, moves).Some? && (moves != [] ==> moves[0].Keep? || moves[0].Escalate?)
    ensures moves == []
  {
  }

  /** The recorded non-zero deposit roots of the IDs in [lo, hi), highest ID first. */
  function Recorded(s: State, lo: nat, hi: nat): seq<Hash>
    requires lo <= hi
    decreases hi - lo
  {
    if lo == hi then [] else Recorded(s, lo + 1, hi) + if DepositOf(s, lo) != Word(0) then [DepositOf(s, lo)] else []
  }

  lemma {:induction false} DeleteReenqueues(s: State, n: nat)
    requires n <= s.next
    ensures DeleteN(s, n).queued == s.queued + Recorded(s, s.next - n, s.next)
  {
    if n > 0 {
      DeleteReenqueues(s, n - 1);
      DeleteKeepsRest(s, n - 1);
    }
  }

  /** What a finished rollback leaves: exactly the batches below the marker, the marker cleared, one stake paid out per
      deleted batch, and the recorded deposit roots at the end of the queue, in descending order of their IDs. */
  lemma FinishedRollback(p: Params, s: State)
    requires s.marker <= s.next && RolledBack(p, s, s.next).Some?
    ensures var r := RolledBack(p, s, s.next).value;
            && r.next == s.marker && r.marker == 0
            && (forall id :: id in r.batches <==> id in s.batches && !(s.marker <= id < s.next))
            && (forall id :: id in r.batches ==> r.batches[id] == s.batches[id])
            && r.queued == s.queued + Recorded(s, s.marker, s.next)
            && r.ether + (s.next - s.marker) * p.stake == s.ether
            && r.front == s.front && r.deposits == s.deposits && r.claims == s.claims
  {
    hide DeleteN;
    DeleteKeepsRest(s, s.next - s.marker);
    DeleteReenqueues(s, s.next - s.marker);
  }

  // ----------------------------------------------------------------------------------------- episodes with other calls

  /** `x` is `a` and `b` shuffled together, each in its own order. */
  ghost predicate Shuffled(x: seq<Hash>, a: seq<Hash>, b: seq<Hash>) {
    if x == [] then a == [] && b == [] else
      || (a != [] && x[0] == a[0] && Shuffled(x[1..], a[1..], b))
      || (b != [] && x[0] == b[0] && Shuffled(x[1..], a, b[1..]))
  }

  /** Nothing is lost or doubled. */
  lemma {:induction false} ShuffledKeepsAll(x: seq<Hash>, a: seq<Hash>, b: seq<Hash>)
    requires Shuffled(x, a, b)
    ensures multiset(x) == multiset(a) + multiset(b)
  {
    if x != [] {
      assert x == [x[0]] + x[1..];
      if a != [] && x[0] == a[0] && Shuffled(x[1..], a[1..], b) {
        ShuffledKeepsAll(x[1..], a[1..], b);
        assert a == [a[0]] + a[1..];
      } else {
        ShuffledKeepsAll(x[1..], a, b[1..]);
        assert b == [b[0]] + b[1..];
      }
    }
  }

  lemma {:induction false} ShuffledAfter(first: seq<Hash>, x: seq<Hash>, a: seq<Hash>, b: seq<Hash>)
    requires Shuffled(x, a, b)
    ensures Shuffled(first + x, first + a, b)
  {
    if first == [] {
      assert first + x == x && first + a == a;
    } else {
      ShuffledAfter(first[1..], x, a, b);
      assert (first + x)[1..] == first[1..] + x && (first + a)[1..] == first[1..] + a;
    }
  }

  /** Subtree roots queued by others, in order. */
  function NewRoots(moves: seq<Move>): seq<Hash> {
    if moves == [] then [] else (if moves[0].Queue? then [moves[0].root] else []) + NewRoots(moves[1..])
  }

  function Withdrawals(moves: seq<Move>): nat {
    if moves == [] then 0 else (if moves[0].Withdraw? then 1 else 0) + Withdrawals(moves[1..])
  }

  lemma {:induction false} RecordedSplit(s: State, lo: nat, mid: nat, hi: nat)
    requires lo <= mid <= hi
    ensures Recorded(s, lo, hi) == Recorded(s, mid, hi) + Recorded(s, lo, mid)
    decreases mid - lo
  {
    if lo < mid {
      RecordedSplit(s, lo + 1, mid, hi);
    }
  }

  lemma {:induction false} RecordedAgrees(s: State, t: State, lo: nat, hi: nat)
    requires lo <= hi && s.deposits == t.deposits
    ensures Recorded(s, lo, hi) == Recorded(t, lo, hi)
    decreases hi - lo
  {
    if lo < hi {
      RecordedAgrees(s, t, lo + 1, hi);
    }
  }

  /** What an episode has done when it got from `s` to `e`, going back to batch `last`. */
  ghost predicate WentBack(p: Params, s: State, e: State, last: nat, newRoots: seq<Hash>, withdrawals: nat)
    requires last <= s.next
  {
    && e.next == last && e.deposits == s.deposits && e.front == s.front
    && (forall id :: id in e.batches <==> id in s.batches && !(last <= id < s.next))
    && (forall id :: id in e.batches ==> e.batches[id] == s.batches[id])
    && s.queued <= e.queued && Shuffled(e.queued[|s.queued|..], Recorded(s, last, s.next), newRoots)
    && e.ether + (s.next - last + withdrawals) * p.stake == s.ether
  }

  lemma NothingHappened(p: Params, s: State)
    ensures WentBack(p, s, s, s.next, [], 0)
  {
    assert s.queued[|s.queued|..] == [] && Recorded(s, s.next, s.next) == [];
  }

  /** One call of a rollback, and what follows it. */
  lemma RollbackFirst(p: Params, s: State, s1: State, e: State, last: nat, newRoots: seq<Hash>, withdrawals: nat,
                      n: nat, marker: nat)
    requires n <= s.next && last <= s.next - n && n * p.stake <= s.ether
    requires s1 == DeleteN(s, n).(marker := marker, ether := s.ether - n * p.stake)
    requires WentBack(p, s1, e, last, newRoots, withdrawals)
    ensures WentBack(p, s, e, last, newRoots, withdrawals)
  {
    hide DeleteN, Shuffled;
    DeleteKeepsRest(s, n);
    DeleteReenqueues(s, n);
    RecordedSplit(s, last, s.next - n, s.next);
    RecordedAgrees(s, s1, last, s.next - n);
    var first := Recorded(s, s.next - n, s.next);
    var x := e.queued[|s1.queued|..];
    ShuffledAfter(first, x, Recorded(s1, last, s1.next), newRoots);
    assert e.queued[|s.queued|..] == first + x;
    assert s.queued <= e.queued;
    Shares(s1.next - last + withdrawals, n, p.stake);
  }

  lemma Shares(a: nat, b: nat, x: nat)
    ensures (a + b) * x == a * x + b * x
  {
  }

  lemma QueueFirst(p: Params, s: State, root: Hash, e: State, last: nat, newRoots: seq<Hash>, withdrawals: nat)
    requires last <= s.next && WentBack(p, s.(queued := s.queued + [root]), e, last, newRoots, withdrawals)
    ensures WentBack(p, s, e, last, [root] + newRoots, withdrawals)
  {
    var s1 := s.(queued := s.queued + [root]);
    var x := e.queued[|s1.queued|..];
    RecordedAgrees(s, s1, last, s.next);
    assert e.queued[|s.queued|..] == [root] + x && ([root] + newRoots)[1..] == newRoots && ([root] + x)[1..] == x;
  }

  lemma WithdrawFirst(p: Params, s: State, s1: State, e: State, last: nat, newRoots: seq<Hash>, withdrawals: nat)
    requires last <= s.next && s.ether >= p.stake && s1 == s.(claims := s1.claims, ether := s.ether - p.stake)
    requires WentBack(p, s1, e, last, newRoots, withdrawals)
    ensures WentBack(p, s, e, last, newRoots, withdrawals + 1)
  {
    RecordedAgrees(s, s1, last, s.next);
    Shares(s.next - last + withdrawals, 1, p.stake);
  }

  /** The same with other calls in between: the batches left, the next ID and the cleared marker are those of one
      uninterrupted rollback to the lowest disputed batch; the re-enqueued roots go to the queue in the same descending
      order, new subtrees in between; each deleted batch and each withdrawal takes one stake. */
  lemma {:induction false} EpisodeWithOthers(p: Params, s: State, moves: seq<Move>)
    requires 0 < s.marker <= s.next && Episode(p, s, moves).Some? && Episode(p, s, moves).value.marker == 0
    requires forall i :: 0 <= i < |moves| && moves[i].Escalate? ==> moves[i].id > 0
    requires Ends(p, s, moves)
    ensures var last, e := LastMarker(s.marker, moves), Episode(p, s, moves).value;
            && 0 < last <= s.marker
            && e.batches == DeleteN(s, s.next - last).batches
            && WentBack(p, s, e, last, NewRoots(moves), Withdrawals(moves))
    decreases |moves|
  {
    hide DeleteN, WentBack, StakeWithdrawn;
    EpisodeGoesBack(p, s, moves);
    SameBatches(p, s, Episode(p, s, moves).value, LastMarker(s.marker, moves), NewRoots(moves), Withdrawals(moves));
  }

  /** Nothing is called after the call that clears the marker. */
  ghost predicate Ends(p: Params, s: State, moves: seq<Move>)
    requires s.marker <= s.next
    decreases |moves|
  {
    moves != [] ==>
      var after := AfterMove(p, s, moves[0]);
      after.Some? && after.value.marker <= after.value.next ==>
        if after.value.marker == 0 then moves[1..] == [] else Ends(p, after.value, moves[1..])
  }

  lemma SameBatches(p: Params, s: State, e: State, last: nat, newRoots: seq<Hash>, withdrawals: nat)
    requires last <= s.next && WentBack(p, s, e, last, newRoots, withdrawals)
    ensures e.batches == DeleteN(s, s.next - last).batches
  {
    DeleteKeepsRest(s, s.next - last);
  }

  lemma {:induction false} EpisodeGoesBack(p: Params, s: State, moves: seq<Move>)
    requires 0 < s.marker <= s.next && Episode(p, s, moves).Some? && Episode(p, s, moves).value.marker == 0
    requires forall i :: 0 <= i < |moves| && moves[i].Escalate? ==> moves[i].id > 0
    requires Ends(p, s, moves)
    ensures var last, e := LastMarker(s.marker, moves), Episode(p, s, moves).value;
            0 < last <= s.marker && WentBack(p, s, e, last, NewRoots(moves), Withdrawals(moves))
    decreases |moves|
  {
    hide DeleteN, WentBack, IsClaimed, SetClaimed, RolledBack;
    var m, rest := moves[0], moves[1..];
    var s1, e := AfterMove(p, s, m).value, Episode(p, s, moves).value;
    if s1.marker == 0 {
      assert rest == [] && e == s1;
      NothingHappened(p, s1);
    } else {
      EpisodeGoesBack(p, s1, rest);
    }
    var last := if s1.marker == 0 then s1.next else LastMarker(s1.marker, rest);
    match m {
      case Queue(root) =>
        QueueFirst(p, s, root, e, last, NewRoots(rest), Withdrawals(rest));
      case Withdraw(_, _, _) =>
        WithdrawFirst(p, s, s1, e, last, NewRoots(rest), Withdrawals(rest));
        assert NewRoots(moves) == NewRoots(rest);
      case Keep(gas) =>
        assert s.(marker := s.marker) == s;
        PieceEnds(p, s, s.marker, gas, s1);
        PieceFirst(p, s, s.marker, gas, s1, e, last, NewRoots(rest), Withdrawals(rest));
        assert NewRoots(moves) == NewRoots(rest);
      case Escalate(id, gas) =>
        PieceEnds(p, s, id, gas, s1);
        PieceFirst(p, s, id, gas, s1, e, last, NewRoots(rest), Withdrawals(rest));
        assert NewRoots(moves) == NewRoots(rest);
    }
  }

  lemma PieceEnds(p: Params, s: State, marker: nat, gas: nat, s1: State)
    requires 0 < marker <= s.next && RolledBack(p, s.(marker := marker), gas) == Some(s1)
    ensures marker <= s1.next <= s.next && s1.marker == if s1.next == marker then 0 else marker
  {
    hide DeleteN;
  }

  lemma PieceFirst(p: Params, s: State, marker: nat, gas: nat, s1: State, e: State, last: nat, newRoots: seq<Hash>,
                   withdrawals: nat)
    requires marker <= s.next && RolledBack(p, s.(marker := marker), gas) == Some(s1)
    requires last <= s1.next && WentBack(p, s1, e, last, newRoots, withdrawals)
    ensures WentBack(p, s, e, last, newRoots, withdrawals)
  {
    hide DeleteN, WentBack;
    var n := if gas < s.next - marker then gas else s.next - marker;
    DeleteIgnores(s, n, marker, s.ether);
    DeleteKeepsRest(s, n);
    assert s.(marker := marker, ether := s.ether) == s.(marker := marker);
    RollbackFirst(p, s, s1, e, last, newRoots, withdrawals, n, s1.marker);
  }

  // ------------------------------------------------------------------------------------------------ whole runs

  datatype Op =
    | Submit(root: Hash, usage: Usage, size: nat, committer: nat, value: nat)
    | SubmitDeposits(root: Hash, committer: nat, value: nat)
    | QueueSubtree(subtreeRoot: Hash)
    | Dispute(id: nat, gas: nat)
    | KeepRollingBack(gas: nat)
    | WithdrawStake(id: nat, sender: nat)

  /** A call that reverts changes nothing. */
  function Step(p: Params, s: State, op: Op, block: nat): State
    requires s.marker <= s.next
  {
    var r := match op
      case Submit(root, usage, size, committer, value) => Submitted(p, s, block, root, usage, size, committer, value)
      case SubmitDeposits(root, committer, value) => DepositsSubmitted(p, s, block, root, committer, value)
      case QueueSubtree(root) => Some(s.(queued := s.queued + [root]))
      case Dispute(id, gas) => if id > s.next then None else Disputed(p, s, id, block, gas)
      case KeepRollingBack(gas) => if s.marker == 0 then None else RolledBack(p, s, gas)
      case WithdrawStake(id, sender) => StakeWithdrawn(p, s, id, sender, block);
    if r.Some? then r.value else s
  }

  /** `b` is the record of a batch submitted in `block`: a size below 256 and a finalisation block below 2^32 are kept
      as they are, others modulo the width of their field. */
  ghost predicate Records(b: Batch, p: Params, block: nat, root: Hash, usage: Usage, size: nat, committer: nat) {
    && b.commitmentRoot == root && b.usage == usage && b.committer == committer
    && b.size < 256 && (size - b.size) % 256 == 0
    && b.finaliseOn < 0x1_0000_0000 && (block + p.delay - b.finaliseOn) % 0x1_0000_0000 == 0
  }

  /** A submission outside a rollback that pays the stake adds one record under the next ID, and the value; any other
      changes nothing. */
  lemma SubmitRecords(p: Params, s: State, block: nat, root: Hash, usage: Usage, size: nat, committer: nat, value: nat)
    requires s.marker <= s.next
    ensures var s' := Step(p, s, Submit(root, usage, size, committer, value), block);
            if s.marker > 0 || value < p.stake then s' == s else
              && s.next in s'.batches && Records(s'.batches[s.next], p, block, root, usage, size, committer)
              && s' == s.(batches := s.batches[s.next := s'.batches[s.next]], next := s.next + 1,
                          ether := s.ether + value)
  {
  }

  /** A deposit batch also takes the first subtree root that waits in the queue, and records it under its ID. */
  lemma SubmitDepositsRecords(p: Params, s: State, block: nat, root: Hash, committer: nat, value: nat)
    requires s.marker <= s.next && s.front > 0
    ensures var s' := Step(p, s, SubmitDeposits(root, committer, value), block);
            if s.marker > 0 || value < p.stake || s.front > |s.queued| then s' == s else
              && s.next in s'.batches && Records(s'.batches[s.next], p, block, root, DepositBatch, 1, committer)
              && s' == s.(batches := s.batches[s.next := s'.batches[s.next]], next := s.next + 1,
                          ether := s.ether + value, front := s.front + 1,
                          deposits := s.deposits[s.next := s.queued[s.front - 1]])
  {
  }

  /** A stake is paid once, to the committer on record, after the finalisation block, while there is ether; an ID
      without a batch reads as one of committer 0 that was final from the start. */
  lemma WithdrawPays(p: Params, s: State, id: nat, sender: nat, block: nat)
    requires s.marker <= s.next
    ensures var committer := if id in s.batches then s.batches[id].committer else 0;
            var finaliseOn := if id in s.batches then s.batches[id].finaliseOn else 0;
            var s' := Step(p, s, WithdrawStake(id, sender), block);
            if sender == committer && block > finaliseOn && !IsClaimed(id, s.claims) && s.ether >= p.stake then
              && s' == s.(claims := s'.claims, ether := s.ether - p.stake)
              && forall i: nat :: IsClaimed(i, s'.claims) <==> i == id || IsClaimed(i, s.claims)
            else s' == s
  {
    hide IsClaimed, SetClaimed;
    forall i: nat
      ensures IsClaimed(i, SetClaimed(id, s.claims)) <==> i == id || IsClaimed(i, s.claims)
    {
      ClaimAddsOne(id, s.claims, i);
    }
  }

  /** `s'` is `s` with batch `id` and everything above it condemned, and the top `n` of them deleted: their recorded
      deposit roots are queued again, and one stake each is paid out. */
  ghost predicate Condemned(p: Params, s: State, s': State, id: nat, n: nat)
    requires id + n <= s.next
  {
    && s'.next == s.next - n && s'.marker == (if id + n == s.next then 0 else id)
    && (forall i :: i in s'.batches <==> i in s.batches && !(s.next - n <= i < s.next))
    && (forall i :: i in s'.batches ==> s'.batches[i] == s.batches[i])
    && s'.queued == s.queued + Recorded(s, s.next - n, s.next)
    && s'.ether + n * p.stake == s.ether
    && s'.deposits == s.deposits && s'.claims == s.claims && s'.front == s.front
  }

  /** What a dispute does that is upheld, whatever it is about: a live batch that is not final, and lies below the
      marker of any rollback under way, is condemned with all above it; as many are deleted as the gas allows. */
  lemma DisputeCondemns(p: Params, s: State, id: nat, gas: nat, block: nat, n: nat)
    requires s.marker <= s.next && id in s.batches && id + n <= s.next
    requires block < s.batches[id].finaliseOn && (s.marker == 0 || id < s.marker)
    requires n <= gas && (n == gas || id + n == s.next) && n * p.stake <= s.ether
    ensures Condemned(p, s, Step(p, s, Dispute(id, gas), block), id, n)
  {
    hide DeleteN;
    var t := s.(marker := id);
    DeleteKeepsRest(t, n);
    DeleteReenqueues(t, n);
    RecordedAgrees(s, t, s.next - n, s.next);
  }

  /** And only then: every other dispute changes nothing. */
  lemma DisputeRefused(p: Params, s: State, id: nat, gas: nat, block: nat)
    requires s.marker <= s.next
    requires || id !in s.batches || block >= s.batches[id].finaliseOn || 0 < s.marker <= id
             || (id < s.next && s.ether < (if gas < s.next - id then gas else s.next - id) * p.stake)
    ensures Step(p, s, Dispute(id, gas), block) == s
  {
    hide DeleteN;
  }

  /** The call behind a move of an episode. */
  function CallOf(m: Move): Op {
    match m
    case Keep(gas) => KeepRollingBack(gas)
    case Escalate(id, gas) => Dispute(id, gas)
    case Queue(root) => QueueSubtree(root)
    case Withdraw(id, sender, _) => WithdrawStake(id, sender)
  }

  /** Every move of an episode is a call: a dispute while its batch is live and not final, at any block; a withdrawal at
      its own. */
  lemma MoveIsCall(p: Params, s: State, m: Move, block: nat)
    requires s.marker <= s.next
    requires m.Escalate? ==> s.marker > 0 && m.id in s.batches && block < s.batches[m.id].finaliseOn
    requires m.Withdraw? ==> m.block == block
    ensures Step(p, s, CallOf(m), block) == match AfterMove(p, s, m) case None => s case Some(s') => s'
  {
    hide DeleteN;
  }

  /** The calls of an episode, each in its block. */
  function Calls(moves: seq<Move>, blocks: seq<nat>): (ops: seq<(Op, nat)>)
    requires |blocks| == |moves|
    ensures |ops| == |moves|
  {
    seq(|moves|, i requires 0 <= i < |moves| => (CallOf(moves[i]), blocks[i]))
  }

  /** The state the constructor leaves: one genesis batch, final at once. */
  function Genesis(root: Hash, committer: nat, block: nat): State {
    State(map[0 := Batch(root, GenesisBatch, 1, committer, block % 0x1_0000_0000)], 1, map[], map[], 0, [], 1, 0)
  }

  /** It has a batch of one commitment, final in the block it was deployed in. */
  lemma GenesisRecords(root: Hash, committer: nat, block: nat)
    ensures var s := Genesis(root, committer, block);
            && s.batches.Keys == {0} && Records(s.batches[0], Params(0, 0), block, root, GenesisBatch, 1, committer)
            && s.next == 1 && s.marker == 0 && s.ether == 0 && s.front == 1 && s.queued == []
  {
  }

  /** The first `n` calls of a run, each with the block it is mined in. */
  ghost function Run(p: Params, s: State, ops: seq<(Op, nat)>, n: nat): State
    requires n <= |ops|
  {
    if n == 0 then s else
      var before := Run(p, s, ops, n - 1);
      if before.marker <= before.next then Step(p, before, ops[n - 1].0, ops[n - 1].1) else before
  }

  function BlockAfter(ops: seq<(Op, nat)>, n: nat, block0: nat): nat
    requires n <= |ops|
  {
    if n == 0 then block0 else ops[n - 1].1
  }

  /** Every escalation is of a live batch that is not final, and every withdrawal has its own block. */
  ghost predicate Timed(p: Params, s: State, moves: seq<Move>, blocks: seq<nat>)
    requires s.marker <= s.next && |blocks| == |moves|
    decreases |moves|
  {
    moves != [] ==>
      var m, after := moves[0], AfterMove(p, s, moves[0]);
      && (m.Escalate? ==> m.id in s.batches && blocks[0] < s.batches[m.id].finaliseOn && s.marker > 0)
      && (m.Withdraw? ==> m.block == blocks[0])
      && (after.Some? && after.value.marker <= after.value.next ==> Timed(p, after.value, moves[1..], blocks[1..]))
  }

  lemma {:induction false} RunFromFirst(p: Params, s: State, ops: seq<(Op, nat)>, n: nat)
    requires s.marker <= s.next && 0 < n <= |ops|
    ensures Run(p, s, ops, n) == Run(p, Step(p, s, ops[0].0, ops[0].1), ops[1..], n - 1)
  {
    hide Step;
    if n > 1 {
      RunFromFirst(p, s, ops, n - 1);
    } else {
      assert Run(p, s, ops, 0) == s;
    }
  }

  /** An episode is a run of the contract's calls. */
  lemma {:induction false} EpisodeIsRun(p: Params, s: State, moves: seq<Move>, blocks: seq<nat>)
    requires s.marker <= s.next && |blocks| == |moves|
    requires Episode(p, s, moves).Some? && Timed(p, s, moves, blocks)
    ensures Run(p, s, Calls(moves, blocks), |moves|) == Episode(p, s, moves).value
    decreases |moves|
  {
    hide Step, AfterMove;
    if moves != [] {
      var s1 := AfterMove(p, s, moves[0]).value;
      MoveIsCall(p, s, moves[0], blocks[0]);
      EpisodeIsRun(p, s1, moves[1..], blocks[1..]);
      RunFromFirst(p, s, Calls(moves, blocks), |moves|);
      assert Calls(moves, blocks)[1..] == Calls(moves[1..], blocks[1..]);
    }
  }
}
