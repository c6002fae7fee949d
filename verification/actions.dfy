/** The contract's three actions: `submit`, `linkballot` and `claim`. Each
    first seeds the configuration as the constructor does, then either
    aborts with an error, so that nothing it wrote persists and no transfer
    is sent, or commits its new state and transfer requests. */
module Actions {
  import opened Widths
  import opened Outcomes
  import opened Records
  import opened Trail
  import opened Config
  import opened Fee
  import opened Policy

  const SAVING_ACCOUNT: Account := "eosio.saving"
  const FEE_MEMO: string := "Worker Proposal Fee"
  const FUNDS_MEMO: string := "Worker proposal funds"

  /** The row `submit` creates: unlinked, inactive, at cycle zero. */
  function NewProposal(id: u64, proposer: Account, title: string, cycles: u16, ipfsLocation: string,
                       amount: i64, receiver: Account, fee: u64): (p: Proposal)
    ensures p.id == id && p.proposer == proposer && p.receiver == receiver
    ensures p.title == title && p.ipfsLocation == ipfsLocation && p.cycles == cycles
    ensures p.amount == ToUnsigned(amount) && p.fee == fee
    ensures p.ballotId == 0 && p.beginTime == 0 && p.endTime == 0
    ensures p.status == STATUS_INACTIVE && p.currentCycle == 0
  {
    Proposal(id, 0, proposer, receiver, title, ipfsLocation, cycles, ToUnsigned(amount), fee, 0, 0,
             STATUS_INACTIVE, 0)
  }

  /** `submit`: charge the fee to the proposer and record a new inactive
      proposal under the table's next key. Neither the cycle count nor the
      sign of the amount is checked. */
  function Submit(self: Account, st: State, signers: set<Account>, proposer: Account, title: string,
                  cycles: u16, ipfsLocation: string, amount: i64, receiver: Account): (r: Outcome)
    ensures r == Err(MissingAuth) <==> proposer !in signers
    ensures r == Err(IdsExhausted) <==> proposer in signers && st.table.nextKey >= U64_MODULUS
    ensures r.Ok? <==> proposer in signers && st.table.nextKey < U64_MODULUS
    ensures r.Ok? ==>
              var env := Seed(self, st.config);
              var id := st.table.nextKey;
              var rows' := r.value.state.table.rows;
              && r.value.state.config == Present(env)
              && rows'.Keys == st.table.rows.Keys + {id}
              && (forall k :: k in st.table.rows && k != id ==> rows'[k] == st.table.rows[k])
              && rows'[id] == NewProposal(id, proposer, title, cycles, ipfsLocation, amount, receiver,
                                          FeeFor(amount, env.feePercentage, env.feeMin))
              && rows'[id].fee >= env.feeMin
              && r.value.state.table.nextKey == id + 1
              && r.value.transfers == [Transfer(proposer, SAVING_ACCOUNT, ToSigned(rows'[id].fee), FEE_MEMO)]
              && (rows'[id].fee < I64_LIMIT ==> r.value.transfers[0].amount == rows'[id].fee)
    ensures r.Ok? && st.table.Valid() ==>
              && st.table.nextKey !in st.table.rows
              && r.value.state.table.Valid()
  {
    var env := Seed(self, st.config);
    if proposer !in signers then Err(MissingAuth)
    else
      var fee := FeeFor(amount, env.feePercentage, env.feeMin);
      var sent := [Transfer(proposer, SAVING_ACCOUNT, ToSigned(fee), FEE_MEMO)];
      if st.table.nextKey >= U64_MODULUS then Err(IdsExhausted)
      else
        var id: u64 := st.table.nextKey;
        var row := NewProposal(id, proposer, title, cycles, ipfsLocation, amount, receiver, fee);
        Ok(Commit(State(Present(env), Table(st.table.rows[id := row], id + 1)), sent))
  }

  /** `linkballot`: bind a proposal to a ballot its caller published,
      copying the ballot's id and voting window and activating the
      proposal. Neither the proposal's status nor its stored proposer is
      consulted. */
  function LinkBallot(self: Account, st: State, trail: Snapshot, signers: set<Account>,
                      propId: u64, ballotId: u64, proposer: Account): (r: Outcome)
    ensures r == Err(MissingAuth) <==> proposer !in signers
    ensures r == Err(ProposalNotFound) <==> proposer in signers && propId !in st.table.rows
    ensures r == Err(BallotNotFound) <==>
              proposer in signers && propId in st.table.rows && ballotId !in trail.ballots
    ensures r == Err(NotBallotPublisher) <==>
              && proposer in signers && propId in st.table.rows && ballotId in trail.ballots
              && trail.ballots[ballotId].publisher != proposer
    ensures r.Ok? <==>
              && proposer in signers && propId in st.table.rows && ballotId in trail.ballots
              && trail.ballots[ballotId].publisher == proposer
    ensures r.Ok? ==>
              var p := st.table.rows[propId];
              var b := trail.ballots[ballotId];
              var p' := p.(ballotId := b.ballotId, beginTime := b.beginTime, endTime := b.endTime,
                           status := STATUS_ACTIVE);
              && r.value.state.config == Present(Seed(self, st.config))
              && r.value.state.table == Table(st.table.rows[propId := p'], st.table.nextKey)
              && r.value.transfers == []
  {
    var env := Seed(self, st.config);
    if proposer !in signers then Err(MissingAuth)
    else if propId !in st.table.rows then Err(ProposalNotFound)
    else if ballotId !in trail.ballots then Err(BallotNotFound)
    else
      var p := st.table.rows[propId];
      var b := trail.ballots[ballotId];
      if b.publisher != proposer then Err(NotBallotPublisher)
      else
        var p' := p.(ballotId := b.ballotId, beginTime := b.beginTime, endTime := b.endTime,
                     status := STATUS_ACTIVE);
        Ok(Commit(State(Present(env), Table(st.table.rows[propId := p'], st.table.nextKey)), []))
  }

  /** Whether every precondition of `claim` up to the given failure holds;
      the checks run in this order. */
  predicate ClaimPasses(st: State, trail: Snapshot, now: u32, signers: set<Account>,
                        propId: u64, proposer: Account, upTo: Error)
  {
    && propId in st.table.rows
    && (upTo == ProposalNotFound || proposer in signers)
    && (upTo in {ProposalNotFound, MissingAuth} || st.table.rows[propId].ballotId in trail.ballots)
    && (upTo in {ProposalNotFound, MissingAuth, BallotNotFound}
        || trail.ballots[st.table.rows[propId].ballotId].endTime < now)
    && (upTo in {ProposalNotFound, MissingAuth, BallotNotFound, CycleStillOpen}
        || st.table.rows[propId].status == STATUS_ACTIVE)
    && (upTo in {ProposalNotFound, MissingAuth, BallotNotFound, CycleStillOpen, ProposalClosed}
        || trail.env.Present?)
  }

  /** `claim`: settle one cycle of an active proposal whose ballot has
      closed. Any signed account may claim; the caller is never compared
      with the proposal's proposer or receiver. At most one transfer, of the
      whole payout, goes to the receiver. */
  function Claim(self: Account, st: State, trail: Snapshot, now: u32, signers: set<Account>,
                 propId: u64, proposer: Account): (r: Outcome)
    ensures r == Err(ProposalNotFound) <==> propId !in st.table.rows
    ensures r == Err(MissingAuth) <==>
              propId in st.table.rows && proposer !in signers
    ensures r == Err(BallotNotFound) <==>
              ClaimPasses(st, trail, now, signers, propId, proposer, MissingAuth)
              && st.table.rows[propId].ballotId !in trail.ballots
    ensures r == Err(CycleStillOpen) <==>
              ClaimPasses(st, trail, now, signers, propId, proposer, BallotNotFound)
              && now <= trail.ballots[st.table.rows[propId].ballotId].endTime
    ensures r == Err(ProposalClosed) <==>
              ClaimPasses(st, trail, now, signers, propId, proposer, CycleStillOpen)
              && st.table.rows[propId].status != STATUS_ACTIVE
    ensures r == Err(TrailEnvMissing) <==>
              ClaimPasses(st, trail, now, signers, propId, proposer, ProposalClosed)
              && trail.env.Absent?
    ensures r.Ok? <==> ClaimPasses(st, trail, now, signers, propId, proposer, TrailEnvMissing)
    ensures r.Ok? ==>
              var p := st.table.rows[propId];
              var b := trail.ballots[p.ballotId];
              var voters := trail.env.value.totalVoters;
              var payout := Payout(p, b, voters);
              && r.value.state.config == Present(Seed(self, st.config))
              && r.value.state.table == Table(st.table.rows[propId := Advance(p, b, voters)], st.table.nextKey)
              && (payout > 0 ==> r.value.transfers == [Transfer(self, p.receiver, payout, FUNDS_MEMO)])
              && (payout <= 0 ==> r.value.transfers == [])
  {
    var env := Seed(self, st.config);
    if propId !in st.table.rows then Err(ProposalNotFound)
    else
      var p := st.table.rows[propId];
      if proposer !in signers then Err(MissingAuth)
      else if p.ballotId !in trail.ballots then Err(BallotNotFound)
      else
        var b := trail.ballots[p.ballotId];
        if !(b.endTime < now) then Err(CycleStillOpen)
        else if p.status != STATUS_ACTIVE then Err(ProposalClosed)
        else if trail.env.Absent? then Err(TrailEnvMissing)
        else
          var voters := trail.env.value.totalVoters;
          var payout := Payout(p, b, voters);
          var sent := if payout > 0 then [Transfer(self, p.receiver, payout, FUNDS_MEMO)] else [];
          Ok(Commit(State(Present(env), Table(st.table.rows[propId := Advance(p, b, voters)], st.table.nextKey)),
                    sent))
  }

  /** When the stored fee and amount are readable as non-negative asset
      amounts, a committed claim sends funds exactly when the refund is due
      or a non-zero principal is due, and then sends their sum. */
  lemma ClaimTransfersIffReleased(self: Account, st: State, trail: Snapshot, now: u32,
                                  signers: set<Account>, propId: u64, proposer: Account)
    requires Claim(self, st, trail, now, signers, propId, proposer).Ok?
    requires st.table.rows[propId].fee < I64_LIMIT && st.table.rows[propId].amount < I64_LIMIT
    ensures var p := st.table.rows[propId];
            var b := trail.ballots[p.ballotId];
            var voters := trail.env.value.totalVoters;
            var sent := Claim(self, st, trail, now, signers, propId, proposer).value.transfers;
            && |sent| <= 1
            && (|sent| == 1 <==> RefundDue(p.fee, b, voters) || (PrincipalDue(b, voters) && p.amount > 0))
            && (|sent| == 1 ==>
                  sent[0].from == self && sent[0].to == p.receiver
                  && sent[0].amount == (if RefundDue(p.fee, b, voters) then p.fee else 0)
                                       + (if PrincipalDue(b, voters) then p.amount else 0))
  {
  }
}
