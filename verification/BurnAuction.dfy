/** contracts/proposers/BurnAuction.sol: bids for slots, donations and the ether behind them. */
module BurnAuctions {
  import opened Words
  import opened MerkleTree

  const BLOCKS_PER_SLOT: nat := 100
  const DONATION_DENOMINATOR: nat := 10000
  const SLOTS: nat := 0x1_0000_0000
  const ADDRESSES: nat := 0x1_0000_0000_0000_0000_0000_0000_0000_0000_0000_0000
  const TWO_128: nat := 0x1_0000_0000_0000_0000_0000_0000_0000_0000

  datatype Config = Config(donationNumerator: nat, donationAddress: nat, genesisBlock: nat) {
    ghost predicate Valid() { donationNumerator <= DONATION_DENOMINATOR && donationAddress < ADDRESSES }
  }

  datatype Bid = Bid(coordinator: nat, amount: nat, initialized: bool)

  /** `ether` is the balance of the contract's account. */
  datatype State = State(auction: map<nat, Bid>, deposits: map<nat, nat>, ether: nat)

  const START := State(map[], map[], 0)

  const NO_BID := Bid(0, 0, false)

  function BidAt(s: State, slot: nat): Bid {
    if slot in s.auction then s.auction[slot] else NO_BID
  }

  function Get(m: map<nat, nat>, k: nat): nat {
    if k in m then m[k] else 0
  }

  function Donation(c: Config, amount: nat): nat {
    amount * c.donationNumerator / DONATION_DENOMINATOR
  }

  function RawSlot(c: Config, block: nat): nat {
    if block < c.genesisBlock then 0 else (block - c.genesisBlock) / BLOCKS_PER_SLOT
  }

  /** `block2slot`: slots are 32-bit numbers. */
  function Slot(c: Config, block: nat): nat {
    RawSlot(c, block) % SLOTS
  }

  function AuctionSlot(c: Config, block: nat): nat {
    (Slot(c, block) + 2) % SLOTS
  }

  // ------------------------------------------------------------------------------------------------ transitions

  /** `updateBalance`: address 0 keeps no balance; overflow and underflow revert. */
  function Updated(deposits: map<nat, nat>, who: nat, incr: nat, decr: nat): Option<map<nat, nat>> {
    if who == 0 then Some(deposits)
    else if Get(deposits, who) + incr >= TWO_256 || Get(deposits, who) + incr < decr then None
    else Some(deposits[who := Get(deposits, who) + incr - decr])
  }

  datatype Op =
    | Deposit(beneficiary: nat, value: nat)
    | PlaceBid(sender: nat, bidAmount: nat, value: nat)
    | WithdrawDonation
    | Withdraw(sender: nat, amount: nat)

  /** The two checks a bid has to pass; the second adds up in 256 bits. */
  predicate BidPasses(c: Config, s: State, block: nat, sender: nat, bidAmount: nat, value: nat) {
    && bidAmount > BidAt(s, AuctionSlot(c, block)).amount
    && (Get(s.deposits, sender) + value) % TWO_256 >= bidAmount
  }

  /** Refund of the previous best bid, the donation's increase, then the bidder's payment. */
  function BidBalances(c: Config, deposits: map<nat, nat>, previous: Bid, sender: nat, bidAmount: nat, value: nat)
    : Option<map<nat, nat>>
  {
    match Updated(deposits, previous.coordinator, previous.amount, 0)
    case None => None
    case Some(d1) =>
      if bidAmount * c.donationNumerator >= TWO_256 || previous.amount * c.donationNumerator >= TWO_256 then None else
        match Updated(d1, c.donationAddress, Donation(c, bidAmount), Donation(c, previous.amount))
        case None => None
        case Some(d2) => Updated(d2, sender, value, bidAmount)
  }

  function BidPlaced(c: Config, s: State, block: nat, sender: nat, bidAmount: nat, value: nat): Option<State> {
    if !BidPasses(c, s, block, sender, bidAmount, value) then None else
      var slot := AuctionSlot(c, block);
      match BidBalances(c, s.deposits, BidAt(s, slot), sender, bidAmount, value)
      case None => None
      case Some(d) =>
        Some(State(s.auction[slot := Bid(sender, bidAmount % TWO_128, true)], d, s.ether + value))
  }

  /** None is a revert.  An account can be paid only what the contract has. */
  function Step(c: Config, s: State, op: Op, block: nat): Option<State> {
    match op
    case Deposit(beneficiary, value) =>
      var d := Updated(s.deposits, beneficiary, value, 0);
      if d.None? then None else Some(s.(deposits := d.value, ether := s.ether + value))
    case PlaceBid(sender, bidAmount, value) => BidPlaced(c, s, block, sender, bidAmount, value)
    case WithdrawDonation =>
      var amount := Get(s.deposits, c.donationAddress);
      if amount == 0 || s.ether < amount then None
      else Some(s.(deposits := s.deposits[c.donationAddress := 0], ether := s.ether - amount))
    case Withdraw(sender, amount) =>
      if Get(s.deposits, sender) < amount then None else
        var d := Updated(s.deposits, sender, 0, amount);
        if d.None? || s.ether < amount then None
        else Some(s.(deposits := d.value, ether := s.ether - amount))
  }

  // ------------------------------------------------------------------------------------------------ the contract

  class BurnAuction {
    const config: Config
    var auction: map<nat, Bid>
    var deposits: map<nat, nat>
    var ether: nat

    ghost function Abs(): State
      reads this
    {
      State(auction, deposits, ether)
    }

    /** None is the revert on a numerator above the denominator. */
    static method Create(donationAddress: nat, donationNumerator: nat, block: nat) returns (a: BurnAuction?)
      ensures a != null <==> donationNumerator <= DONATION_DENOMINATOR
      ensures a != null ==> fresh(a) && a.Abs() == START
                            && a.config == Config(donationNumerator, donationAddress, block + 1000)
    {
      if donationNumerator > DONATION_DENOMINATOR {
        return null;
      }
      a := new BurnAuction(Config(donationNumerator, donationAddress, block + 1000));
    }

    constructor (config: Config)
      ensures this.config == config && Abs() == START
    {
      this.config := config;
      auction, deposits, ether := map[], map[], 0;
    }

    method UpdateBalance(addr: nat, incr: nat, decr: nat) returns (ok: bool)
      modifies `deposits
      ensures ok == Updated(old(deposits), addr, incr, decr).Some?
      ensures deposits == if ok then Updated(old(deposits), addr, incr, decr).value else old(deposits)
    {
      if addr != 0 {
        var balance: int := Get(deposits, addr);
        balance := balance + incr;
        if balance >= TWO_256 { return false; }
        balance := balance - decr;
        if balance < 0 { return false; }
        deposits := deposits[addr := balance];
      }
      return true;
    }

    method ReceiveDeposit(beneficiary: nat, value: nat) returns (ok: bool)
      modifies `deposits, `ether
      ensures ok == Step(config, old(Abs()), Deposit(beneficiary, value), 0).Some?
      ensures ok ==> Some(Abs()) == Step(config, old(Abs()), Deposit(beneficiary, value), 0)
    {
      ether := ether + value;
      ok := UpdateBalance(beneficiary, value, 0);
    }

    method ReceiveBid(sender: nat, bidAmount: nat, value: nat, block: nat) returns (ok: bool)
      modifies this
      ensures ok == Step(config, old(Abs()), PlaceBid(sender, bidAmount, value), block).Some?
      ensures ok ==> Some(Abs()) == Step(config, old(Abs()), PlaceBid(sender, bidAmount, value), block)
    {
      hide Updated, Donation;
      var auctionSlot := AuctionSlot(config, block);
      var previous := if auctionSlot in auction then auction[auctionSlot] else NO_BID;
      var currentBidAmount := previous.amount;
      if bidAmount <= currentBidAmount { return false; }
      if (Get(deposits, sender) + value) % TWO_256 < bidAmount { return false; }
      ether := ether + value;
      ok := UpdateBalance(previous.coordinator, currentBidAmount, 0);
      if !ok { return; }
      if bidAmount * config.donationNumerator >= TWO_256 || currentBidAmount * config.donationNumerator >= TWO_256 {
        return false;
      }
      ok := UpdateBalance(config.donationAddress, Donation(config, bidAmount), Donation(config, currentBidAmount));
      if !ok { return; }
      ok := UpdateBalance(sender, value, bidAmount);
      if !ok { return; }
      auction := auction[auctionSlot := Bid(sender, bidAmount % TWO_128, true)];
    }

    method PayDonation() returns (ok: bool)
      modifies `deposits, `ether
      ensures ok == Step(config, old(Abs()), WithdrawDonation, 0).Some?
      ensures ok ==> Some(Abs()) == Step(config, old(Abs()), WithdrawDonation, 0)
    {
      var donationAmount := Get(deposits, config.donationAddress);
      if donationAmount == 0 { return false; }
      deposits := deposits[config.donationAddress := 0];
      if ether < donationAmount { return false; }
      ether := ether - donationAmount;
      return true;
    }

    method PayOut(sender: nat, amount: nat) returns (ok: bool)
      modifies `deposits, `ether
      ensures ok == Step(config, old(Abs()), Withdraw(sender, amount), 0).Some?
      ensures ok ==> Some(Abs()) == Step(config, old(Abs()), Withdraw(sender, amount), 0)
    {
      if Get(deposits, sender) < amount { return false; }
      ok := UpdateBalance(sender, 0, amount);
      if !ok || ether < amount { return false; }
      ether := ether - amount;
    }

    /** None is the revert on a slot without a bid. */
    method GetProposer(block: nat) returns (r: Option<nat>)
      ensures r == if BidAt(Abs(), Slot(config, block)).initialized
                   then Some(BidAt(Abs(), Slot(config, block)).coordinator)
                   else None
    {
      var currentSlot := Slot(config, block);
      if currentSlot !in auction || !auction[currentSlot].initialized { return None; }
      return Some(auction[currentSlot].coordinator);
    }
  }

  // ------------------------------------------------------------------------------------------------ sums

  ghost function Sum(m: map<nat, nat>, n: nat): nat
    decreases n, m
  {
    if n == 0 then 0 else Sum(m, n - 1) + Get(m, n - 1)
  }

  lemma {:induction false} SumAgree(m: map<nat, nat>, m': map<nat, nat>, n: nat)
    requires forall k: nat :: k < n ==> Get(m, k) == Get(m', k)
    ensures Sum(m, n) == Sum(m', n)
    decreases n
  {
    if n > 0 {
      SumAgree(m, m', n - 1);
    }
  }

  lemma {:induction false} SumPut(m: map<nat, nat>, n: nat, k: nat, v: nat)
    requires k < n
    ensures Sum(m[k := v], n) == Sum(m, n) - Get(m, k) + v
    decreases n
  {
    if k == n - 1 {
      SumAgree(m, m[k := v], k);
    } else {
      SumPut(m, n - 1, k, v);
    }
  }

  lemma {:induction false} SumAtLeast(m: map<nat, nat>, n: nat, k: nat)
    requires k < n
    ensures Get(m, k) <= Sum(m, n)
    decreases n
  {
    if k < n - 1 {
      SumAtLeast(m, n - 1, k);
    }
  }

  lemma {:induction false} SumOfNone(m: map<nat, nat>, n: nat)
    requires m == map[]
    ensures Sum(m, n) == 0
    decreases n
  {
    if n > 0 {
      SumOfNone(m, n - 1);
    }
  }

  // ------------------------------------------------------------------------------------------------ accounting

  /** The part of a best bid that no account can claim: it is burnt.  A donation to address 0 is credited to nobody. */
  function Burnt(c: Config, amount: nat): nat {
    if c.donationAddress == 0 || Donation(c, amount) > amount then amount else amount - Donation(c, amount)
  }

  function BurntBySlot(c: Config, auction: map<nat, Bid>): map<nat, nat> {
    map slot | slot in auction :: Burnt(c, auction[slot].amount)
  }

  lemma DonationGrows(c: Config, a: nat, b: nat)
    requires c.Valid() && a <= b
    ensures Donation(c, a) <= Donation(c, b) && Donation(c, a) <= a
  {
    var n := c.donationNumerator;
    assert a * n <= b * n by {
      assert b * n == a * n + (b - a) * n;
    }
    assert a * n <= a * DONATION_DENOMINATOR;
  }

  lemma MulBound(amount: nat, n: nat)
    requires amount < TWO_128 && n <= DONATION_DENOMINATOR
    ensures amount * n < TWO_256
  {
    MulGrows(amount, n, DONATION_DENOMINATOR);
    assert amount * DONATION_DENOMINATOR < TWO_128 * DONATION_DENOMINATOR < TWO_256;
  }

  lemma MulGrows(a: nat, n: nat, m: nat)
    requires n <= m
    ensures a * n <= a * m
  {
    assert a * m == a * n + a * (m - n);
  }

  ghost predicate BidWellFormed(b: Bid) {
    b.coordinator < ADDRESSES && b.amount < TWO_128 && (b.amount > 0 ==> b.coordinator > 0)
  }

  ghost predicate SlotsWellFormed(auction: map<nat, Bid>) {
    forall slot :: slot in auction ==> slot < SLOTS && BidWellFormed(auction[slot])
  }

  /** The contract's ether is the deposits, the burnt part of every slot's best bid, and what was sent to address 0. */
  ghost predicate Balanced(c: Config, s: State, lost: nat) {
    && SlotsWellFormed(s.auction) && Get(s.deposits, 0) == 0
    && s.ether == Sum(s.deposits, ADDRESSES) + Sum(BurntBySlot(c, s.auction), SLOTS) + lost
  }

  /** Senders are accounts, and all ether there is fits 128 bits. */
  ghost predicate Sane(s: State, op: Op) {
    match op
    case Deposit(beneficiary, value) => beneficiary < ADDRESSES && s.ether + value < TWO_128
    case PlaceBid(sender, _, value) => 0 < sender < ADDRESSES && s.ether + value < TWO_128
    case WithdrawDonation => s.ether < TWO_128
    case Withdraw(sender, _) => 0 < sender < ADDRESSES && s.ether < TWO_128
  }

  function LostBy(op: Op): nat {
    if op.Deposit? && op.beneficiary == 0 then op.value else 0
  }

  /** The sum after one `updateBalance`. */
  lemma UpdateMoves(deposits: map<nat, nat>, who: nat, incr: nat, decr: nat)
    requires who < ADDRESSES && Updated(deposits, who, incr, decr).Some?
    ensures var d := Updated(deposits, who, incr, decr).value;
            && Sum(d, ADDRESSES) == Sum(deposits, ADDRESSES) + (if who == 0 then 0 else incr - decr)
            && Get(d, 0) == Get(deposits, 0)
            && forall k :: k != who ==> Get(d, k) == Get(deposits, k)
  {
    hide Sum;
    if who != 0 {
      SumPut(deposits, ADDRESSES, who, Get(deposits, who) + incr - decr);
    }
  }

  lemma SlotUpdate(c: Config, auction: map<nat, Bid>, slot: nat, bid: Bid)
    requires slot < SLOTS
    ensures var before := if slot in auction then auction[slot] else NO_BID;
            Sum(BurntBySlot(c, auction[slot := bid]), SLOTS)
            == Sum(BurntBySlot(c, auction), SLOTS) - Burnt(c, before.amount) + Burnt(c, bid.amount)
  {
    hide Sum;
    assert BurntBySlot(c, auction[slot := bid]) == BurntBySlot(c, auction)[slot := Burnt(c, bid.amount)];
    SumPut(BurntBySlot(c, auction), SLOTS, slot, Burnt(c, bid.amount));
    assert Donation(c, 0) == 0;
  }

  /** An account never holds more than the contract, so every deposit can be paid out. */
  lemma DepositsCovered(c: Config, s: State, lost: nat, who: nat)
    requires Balanced(c, s, lost) && who < ADDRESSES
    ensures Get(s.deposits, who) <= s.ether
  {
    hide Sum;
    SumAtLeast(s.deposits, ADDRESSES, who);
  }

  /** A 128-bit amount can be added to a 128-bit balance. */
  lemma UpdateWorks(deposits: map<nat, nat>, who: nat, incr: nat, decr: nat)
    requires Get(deposits, who) < 4 * TWO_128 && incr < TWO_128
    ensures who != 0 && Get(deposits, who) + incr >= decr ==>
              && Updated(deposits, who, incr, decr).Some?
              && Get(Updated(deposits, who, incr, decr).value, who) == Get(deposits, who) + incr - decr
    ensures who == 0 ==> Updated(deposits, who, incr, decr) == Some(deposits)
    ensures Updated(deposits, who, incr, decr).Some? ==>
              forall k :: k != who ==> Get(Updated(deposits, who, incr, decr).value, k) == Get(deposits, k)
  {
  }

  /** The three balance updates of a bid go through, whoever the three accounts are. */
  lemma BidIsPaid(c: Config, deposits: map<nat, nat>, previous: Bid, sender: nat, bidAmount: nat, value: nat)
    requires c.Valid() && previous.amount < bidAmount < TWO_128 && value < TWO_128 && sender != 0
    requires forall who :: who in {previous.coordinator, c.donationAddress, sender} ==> Get(deposits, who) < TWO_128
    requires Get(deposits, sender) + value >= bidAmount
    ensures BidBalances(c, deposits, previous, sender, bidAmount, value).Some?
  {
    hide Donation, Get, Updated;
    MulBound(bidAmount, c.donationNumerator);
    MulBound(previous.amount, c.donationNumerator);
    DonationGrows(c, previous.amount, bidAmount);
    DonationGrows(c, bidAmount, bidAmount);
    UpdateWorks(deposits, previous.coordinator, previous.amount, 0);
    var d1 := Updated(deposits, previous.coordinator, previous.amount, 0).value;
    UpdateWorks(d1, c.donationAddress, Donation(c, bidAmount), Donation(c, previous.amount));
    var d2 := Updated(d1, c.donationAddress, Donation(c, bidAmount), Donation(c, previous.amount)).value;
    UpdateWorks(d2, sender, value, bidAmount);
  }

  /** A bid that passes its two checks is accepted: none of the three balance updates reverts, whatever was withdrawn
      in between, even if the bidder is the donation address or already the best bidder. */
  lemma BidNeverReverts(c: Config, s: State, lost: nat, block: nat, sender: nat, bidAmount: nat, value: nat)
    requires c.Valid() && Balanced(c, s, lost) && Sane(s, PlaceBid(sender, bidAmount, value))
    ensures BidPlaced(c, s, block, sender, bidAmount, value).Some? <==>
              bidAmount > BidAt(s, AuctionSlot(c, block)).amount && Get(s.deposits, sender) + value >= bidAmount
  {
    hide Sum, BidBalances, AuctionSlot;
    var previous := BidAt(s, AuctionSlot(c, block));
    DepositsCovered(c, s, lost, sender);
    DepositsCovered(c, s, lost, c.donationAddress);
    DepositsCovered(c, s, lost, previous.coordinator);
    if bidAmount > previous.amount && Get(s.deposits, sender) + value >= bidAmount {
      BidIsPaid(c, s.deposits, previous, sender, bidAmount, value);
    }
  }

  /** What a bid does to the sum of all balances. */
  lemma BidMoves(c: Config, deposits: map<nat, nat>, previous: Bid, sender: nat, bidAmount: nat, value: nat)
    requires c.Valid() && previous.amount < bidAmount && 0 < sender < ADDRESSES
    requires BidWellFormed(previous) && BidBalances(c, deposits, previous, sender, bidAmount, value).Some?
    ensures var d := BidBalances(c, deposits, previous, sender, bidAmount, value).value;
            && Get(d, 0) == Get(deposits, 0)
            && Sum(d, ADDRESSES) + Burnt(c, bidAmount) == Sum(deposits, ADDRESSES) + Burnt(c, previous.amount) + value
  {
    hide Sum, Updated, Donation;
    var d1 := Updated(deposits, previous.coordinator, previous.amount, 0).value;
    var d2 := Updated(d1, c.donationAddress, Donation(c, bidAmount), Donation(c, previous.amount)).value;
    UpdateMoves(deposits, previous.coordinator, previous.amount, 0);
    UpdateMoves(d1, c.donationAddress, Donation(c, bidAmount), Donation(c, previous.amount));
    UpdateMoves(d2, sender, value, bidAmount);
    DonationGrows(c, previous.amount, bidAmount);
    DonationGrows(c, bidAmount, bidAmount);
  }

  lemma BidKeepsBalance(c: Config, s: State, lost: nat, block: nat, sender: nat, bidAmount: nat, value: nat)
    requires c.Valid() && Balanced(c, s, lost) && Sane(s, PlaceBid(sender, bidAmount, value))
    requires BidPlaced(c, s, block, sender, bidAmount, value).Some?
    ensures Balanced(c, BidPlaced(c, s, block, sender, bidAmount, value).value, lost)
  {
    hide Sum, BidBalances, Burnt, BurntBySlot;
    var slot := AuctionSlot(c, block);
    BidNeverReverts(c, s, lost, block, sender, bidAmount, value);
    DepositsCovered(c, s, lost, sender);
    BidMoves(c, s.deposits, BidAt(s, slot), sender, bidAmount, value);
    SlotUpdate(c, s.auction, slot, Bid(sender, bidAmount, true));
  }

  lemma StepKeepsBalance(c: Config, s: State, lost: nat, op: Op, block: nat)
    requires c.Valid() && Balanced(c, s, lost) && Sane(s, op)
    ensures match Step(c, s, op, block)
            case None => LostBy(op) == 0
            case Some(s') => Balanced(c, s', lost + LostBy(op))
  {
    hide Sum, BidPlaced;
    match op {
      case Deposit(beneficiary, value) =>
        DepositsCovered(c, s, lost, beneficiary);
        UpdateMoves(s.deposits, beneficiary, value, 0);
      case PlaceBid(sender, bidAmount, value) =>
        if BidPlaced(c, s, block, sender, bidAmount, value).Some? {
          BidKeepsBalance(c, s, lost, block, sender, bidAmount, value);
        }
      case WithdrawDonation =>
        SumPut(s.deposits, ADDRESSES, c.donationAddress, 0);
      case Withdraw(sender, amount) =>
        if Get(s.deposits, sender) >= amount {
          DepositsCovered(c, s, lost, sender);
          UpdateMoves(s.deposits, sender, 0, amount);
        }
    }
  }

  /** A withdrawal succeeds exactly when the claimer holds the amount. */
  lemma WithdrawalsArePaid(c: Config, s: State, lost: nat, sender: nat, amount: nat)
    requires Balanced(c, s, lost) && Sane(s, Withdraw(sender, amount)) && c.Valid()
    ensures Step(c, s, Withdraw(sender, amount), 0).Some? <==> amount <= Get(s.deposits, sender)
    ensures Step(c, s, WithdrawDonation, 0).Some? <==> Get(s.deposits, c.donationAddress) > 0
  {
    hide Sum;
    DepositsCovered(c, s, lost, sender);
    DepositsCovered(c, s, lost, c.donationAddress);
  }

  // ------------------------------------------------------------------------------------------------ runs

  function Run(c: Config, s: State, ops: seq<(Op, nat)>, n: nat): State
    requires n <= |ops|
  {
    if n == 0 then s else
      var t := Run(c, s, ops, n - 1);
      match Step(c, t, ops[n - 1].0, ops[n - 1].1)
      case None => t
      case Some(t') => t'
  }

  function Lost(ops: seq<(Op, nat)>, n: nat): nat
    requires n <= |ops|
  {
    if n == 0 then 0 else Lost(ops, n - 1) + LostBy(ops[n - 1].0)
  }

  lemma StartIsBalanced(c: Config)
    ensures Balanced(c, START, 0)
  {
    hide Sum;
    SumOfNone(START.deposits, ADDRESSES);
    SumOfNone(BurntBySlot(c, START.auction), SLOTS);
  }

  /** In every run the ether adds up. */
  lemma {:induction false} EveryRunIsBalanced(c: Config, ops: seq<(Op, nat)>, n: nat)
    requires c.Valid() && n <= |ops|
    requires forall k: nat :: k < n ==> Sane(Run(c, START, ops, k), ops[k].0)
    ensures Balanced(c, Run(c, START, ops, n), Lost(ops, n))
  {
    hide Balanced, Step, Sane;
    if n == 0 {
      StartIsBalanced(c);
    } else {
      EveryRunIsBalanced(c, ops, n - 1);
      StepKeepsBalance(c, Run(c, START, ops, n - 1), Lost(ops, n - 1), ops[n - 1].0, ops[n - 1].1);
    }
  }

  /** One step changes at most the slot two after the current one, to the bidder's offer, kept in 128 bits; an offer
      that fits them is higher than the bid before. */
  lemma StepRaises(c: Config, s: State, op: Op, block: nat, slot: nat)
    requires Step(c, s, op, block).Some?
    ensures var s' := Step(c, s, op, block).value;
            BidAt(s', slot) != BidAt(s, slot) ==>
              && op.PlaceBid? && slot == AuctionSlot(c, block)
              && BidAt(s', slot) == Bid(op.sender, op.bidAmount % TWO_128, true)
              && (op.bidAmount < TWO_128 ==> BidAt(s', slot).amount > BidAt(s, slot).amount)
  {
  }

  lemma SlotsPass(c: Config, block: nat, later: nat)
    requires block <= later && RawSlot(c, later) + 2 < SLOTS
    ensures AuctionSlot(c, block) == RawSlot(c, block) + 2 <= AuctionSlot(c, later)
  {
  }

  /** Once the current slot is past `slot` - 2, the best bid of `slot` never changes again, until slot numbers wrap. */
  lemma {:induction false} SlotIsFrozen(c: Config, s: State, ops: seq<(Op, nat)>, n: nat, block: nat, slot: nat)
    requires n <= |ops| && RawSlot(c, block) + 2 > slot
    requires forall k: nat :: k < n ==> block <= ops[k].1 && RawSlot(c, ops[k].1) + 2 < SLOTS
    ensures BidAt(Run(c, s, ops, n), slot) == BidAt(s, slot)
  {
    if n > 0 {
      SlotIsFrozen(c, s, ops, n - 1, block, slot);
      SlotsPass(c, block, ops[n - 1].1);
    }
  }

  /** A balance update goes through exactly when the balance stays within a word, and changes that balance only; address
      0 takes any update and keeps nothing. */
  lemma UpdatedIf(deposits: map<nat, nat>, who: nat, incr: nat, decr: nat)
    ensures var r := Updated(deposits, who, incr, decr);
            && (r.Some? <==> who == 0 || decr <= Get(deposits, who) + incr < Pow2(256))
            && (r.Some? ==> forall k ::
                  Get(r.value, k) == Get(deposits, k) + if who != 0 && k == who then incr - decr else 0)
  {
    hide Pow2;
    WordSize();
  }

  /** Slot k is the k-th hundred of blocks after the genesis block; bids go to the slot two later. */
  lemma SlotOfBlock(c: Config, block: nat, k: nat)
    requires c.genesisBlock + 100 * k <= block < c.genesisBlock + 100 * (k + 1)
    ensures Slot(c, block) == k % Pow2(32) && AuctionSlot(c, block) == (k + 2) % Pow2(32)
  {
    hide Pow2;
    Pow2Constants();
    DivUnique(block - c.genesisBlock, 100, k, block - c.genesisBlock - 100 * k);
    TwoLater(k);
  }

  lemma TwoLater(k: nat)
    ensures (k % SLOTS + 2) % SLOTS == (k + 2) % SLOTS
  {
    var q, r := k / SLOTS, k % SLOTS;
    if r + 2 < SLOTS {
      DivUnique(k + 2, SLOTS, q, r + 2);
    } else {
      DivUnique(k + 2, SLOTS, q + 1, r + 2 - SLOTS);
    }
  }

  /** The best bid made by the end of slot k decides who proposes, in every block of slot k + 2. */
  lemma WinnerProposes(c: Config, s: State, ops: seq<(Op, nat)>, n: nat, k: nat, later: nat)
    requires n <= |ops| && k + 2 < Pow2(32)
    requires forall i: nat :: i < n ==> c.genesisBlock + 100 * (k + 1) <= ops[i].1 && RawSlot(c, ops[i].1) + 2 < SLOTS
    requires c.genesisBlock + 100 * (k + 2) <= later < c.genesisBlock + 100 * (k + 3)
    ensures BidAt(Run(c, s, ops, n), Slot(c, later)) == BidAt(s, k + 2)
  {
    hide Run, BidAt, Pow2;
    Pow2Constants();
    SlotOfBlock(c, later, k + 2);
    SlotIsFrozen(c, s, ops, n, c.genesisBlock + 100 * (k + 1), k + 2);
  }

  /** The widths of addresses and of the amounts that are kept. */
  lemma Widths()
    ensures Pow2(160) == ADDRESSES && Pow2(128) == TWO_128
  {
    hide Pow2;
    Pow2Constants();
    Pow2Sum(32, 32);
    Pow2Sum(64, 64);
    Pow2Sum(128, 32);
  }

  // ------------------------------------------------------------------------------------------------ donations

  /** `x` is the donated part of an amount: `donationNumerator` ten-thousandths of it, rounded down. */
  ghost predicate IsShare(c: Config, amount: nat, x: nat) {
    10000 * x <= amount * c.donationNumerator < 10000 * (x + 1)
  }

  lemma ShareIsDonation(c: Config, amount: nat, x: nat)
    requires IsShare(c, amount, x)
    ensures x == Donation(c, amount)
  {
    DivUnique(amount * c.donationNumerator, 10000, x, amount * c.donationNumerator - 10000 * x);
  }

  lemma DonationIsShare(c: Config, amount: nat)
    ensures IsShare(c, amount, Donation(c, amount))
  {
  }

  /** What an accepted bid does to the balance of every account: the outbid coordinator gets the old amount back, the
      donation address the increase of the rounded shares, and the bidder pays the amount out of balance and value. */
  lemma BidPays(c: Config, s: State, block: nat, sender: nat, bidAmount: nat, value: nat, x: nat, y: nat, who: nat)
    requires Step(c, s, PlaceBid(sender, bidAmount, value), block).Some? && who != 0
    requires IsShare(c, bidAmount, x) && IsShare(c, BidAt(s, AuctionSlot(c, block)).amount, y)
    ensures var previous := BidAt(s, AuctionSlot(c, block));
            var s' := Step(c, s, PlaceBid(sender, bidAmount, value), block).value;
            && Get(s'.deposits, who) == Get(s.deposits, who)
                 + (if who == previous.coordinator then previous.amount else 0)
                 + (if who == c.donationAddress then x - y else 0)
                 + (if who == sender then value - bidAmount else 0)
            && s'.ether == s.ether + value && bidAmount > previous.amount
            && bidAmount * c.donationNumerator < Pow2(256)
  {
    hide Donation, AuctionSlot, Pow2;
    WordSize();
    ShareIsDonation(c, bidAmount, x);
    ShareIsDonation(c, BidAt(s, AuctionSlot(c, block)).amount, y);
  }

  /** What a call moves in or out of the donation address's balance on other grounds than donations: deposits for it,
      withdrawals, and its own bids. */
  function OtherMoves(c: Config, s: State, op: Op, block: nat): int {
    if Step(c, s, op, block).None? then 0 else
      match op
      case Deposit(beneficiary, value) => if beneficiary == c.donationAddress then value else 0
      case PlaceBid(sender, bidAmount, value) =>
        var previous := BidAt(s, AuctionSlot(c, block));
        (if previous.coordinator == c.donationAddress then previous.amount else 0)
        + if sender == c.donationAddress then value - bidAmount else 0
      case WithdrawDonation => 0 - Get(s.deposits, c.donationAddress)
      case Withdraw(sender, amount) => if sender == c.donationAddress then 0 - amount else 0
  }

  function AllOtherMoves(c: Config, ops: seq<(Op, nat)>, n: nat): int
    requires n <= |ops|
  {
    if n == 0 then 0 else
      AllOtherMoves(c, ops, n - 1) + OtherMoves(c, Run(c, START, ops, n - 1), ops[n - 1].0, ops[n - 1].1)
  }

  function DonationBySlot(c: Config, auction: map<nat, Bid>): map<nat, nat> {
    map slot | slot in auction :: Donation(c, auction[slot].amount)
  }

  lemma DonationSlotUpdate(c: Config, auction: map<nat, Bid>, slot: nat, bid: Bid)
    requires slot < SLOTS
    ensures var before := if slot in auction then auction[slot] else NO_BID;
            Sum(DonationBySlot(c, auction[slot := bid]), SLOTS)
            == Sum(DonationBySlot(c, auction), SLOTS) - Donation(c, before.amount) + Donation(c, bid.amount)
  {
    hide Sum;
    assert DonationBySlot(c, auction[slot := bid]) == DonationBySlot(c, auction)[slot := Donation(c, bid.amount)];
    SumPut(DonationBySlot(c, auction), SLOTS, slot, Donation(c, bid.amount));
    assert Donation(c, 0) == 0;
  }

  /** The donation address holds as much beyond the donations of all slots as before, other moves aside. */
  ghost predicate Donates(c: Config, s: State, s': State, moved: int) {
    Get(s'.deposits, c.donationAddress) - Sum(DonationBySlot(c, s'.auction), SLOTS)
      == Get(s.deposits, c.donationAddress) - Sum(DonationBySlot(c, s.auction), SLOTS) + moved
  }

  lemma BidRecorded(c: Config, s: State, block: nat, sender: nat, bidAmount: nat, value: nat)
    requires Step(c, s, PlaceBid(sender, bidAmount, value), block).Some? && bidAmount < TWO_128
    ensures var op := PlaceBid(sender, bidAmount, value);
            var previous := BidAt(s, AuctionSlot(c, block));
            && Step(c, s, op, block).value.auction == s.auction[AuctionSlot(c, block) := Bid(sender, bidAmount, true)]
            && OtherMoves(c, s, op, block)
               == (if previous.coordinator == c.donationAddress then previous.amount else 0)
                  + if sender == c.donationAddress then value - bidAmount else 0
  {
    hide AuctionSlot, BidBalances, BidPasses;
  }

  lemma BidDonates(c: Config, s: State, lost: nat, sender: nat, bidAmount: nat, value: nat, block: nat)
    requires c.Valid() && c.donationAddress != 0 && Balanced(c, s, lost) && Sane(s, PlaceBid(sender, bidAmount, value))
    requires Step(c, s, PlaceBid(sender, bidAmount, value), block).Some?
    ensures Donates(c, s, Step(c, s, PlaceBid(sender, bidAmount, value), block).value,
                    OtherMoves(c, s, PlaceBid(sender, bidAmount, value), block))
  {
    hide Sum, Donation, AuctionSlot, Step, DonationBySlot, Balanced, Sane, IsShare, OtherMoves, Get;
    var slot := AuctionSlot(c, block);
    var previous := BidAt(s, slot);
    DepositCoversBid(c, s, lost, sender, bidAmount, value, block);
    DonationIsShare(c, bidAmount);
    DonationIsShare(c, previous.amount);
    BidPays(c, s, block, sender, bidAmount, value, Donation(c, bidAmount), Donation(c, previous.amount),
            c.donationAddress);
    BidRecorded(c, s, block, sender, bidAmount, value);
    SlotInRange(c, block);
    DonationSlotUpdate(c, s.auction, slot, Bid(sender, bidAmount, true));
  }

  lemma StepDonates(c: Config, s: State, lost: nat, op: Op, block: nat)
    requires c.Valid() && c.donationAddress != 0 && Balanced(c, s, lost) && Sane(s, op) && Step(c, s, op, block).Some?
    ensures Donates(c, s, Step(c, s, op, block).value, OtherMoves(c, s, op, block))
  {
    hide Sum, DonationBySlot, Balanced, BidPlaced;
    if op.PlaceBid? {
      BidDonates(c, s, lost, op.sender, op.bidAmount, op.value, block);
    }
  }

  lemma SlotInRange(c: Config, block: nat)
    ensures AuctionSlot(c, block) < SLOTS
  {
  }

  lemma DepositCoversBid(c: Config, s: State, lost: nat, sender: nat, bidAmount: nat, value: nat, block: nat)
    requires c.Valid() && Balanced(c, s, lost) && Sane(s, PlaceBid(sender, bidAmount, value))
    requires Step(c, s, PlaceBid(sender, bidAmount, value), block).Some?
    ensures bidAmount < TWO_128
  {
    hide Sum, BidBalances, AuctionSlot;
    DepositsCovered(c, s, lost, sender);
  }

  lemma {:induction false} RunDonates(c: Config, ops: seq<(Op, nat)>, n: nat)
    requires c.Valid() && c.donationAddress != 0 && n <= |ops|
    requires forall k: nat :: k < n ==> Sane(Run(c, START, ops, k), ops[k].0)
    ensures var s := Run(c, START, ops, n);
            Get(s.deposits, c.donationAddress) == AllOtherMoves(c, ops, n) + Sum(DonationBySlot(c, s.auction), SLOTS)
  {
    hide Sum, Balanced, Step, Sane, Donation;
    if n == 0 {
      SumOfNone(DonationBySlot(c, START.auction), SLOTS);
    } else {
      var before := Run(c, START, ops, n - 1);
      RunDonates(c, ops, n - 1);
      EveryRunIsBalanced(c, ops, n - 1);
      if Step(c, before, ops[n - 1].0, ops[n - 1].1).Some? {
        StepDonates(c, before, Lost(ops, n - 1), ops[n - 1].0, ops[n - 1].1);
      }
    }
  }

  /** In every run, what was credited to the donation address for bids is the sum, over the slots, of the rounded shares
      of their best bids. */
  lemma EveryRunDonates(c: Config, ops: seq<(Op, nat)>, n: nat, shares: map<nat, nat>)
    requires c.Valid() && c.donationAddress != 0 && n <= |ops|
    requires forall k: nat :: k < n ==> Sane(Run(c, START, ops, k), ops[k].0)
    requires forall slot: nat :: IsShare(c, BidAt(Run(c, START, ops, n), slot).amount, Get(shares, slot))
    ensures Get(Run(c, START, ops, n).deposits, c.donationAddress) == AllOtherMoves(c, ops, n) + Sum(shares, SLOTS)
  {
    hide Sum, Run, Sane, IsShare, AllOtherMoves;
    RunDonates(c, ops, n);
    var donations := DonationBySlot(c, Run(c, START, ops, n).auction);
    assert Donation(c, 0) == 0;
    forall slot: nat | slot < SLOTS
      ensures Get(shares, slot) == Get(donations, slot)
    {
      ShareIsDonation(c, BidAt(Run(c, START, ops, n), slot).amount, Get(shares, slot));
    }
    SumAgree(shares, donations, SLOTS);
  }
}
