/** The claim thresholds: which parts of a proposal's funds one cycle's
    tally releases, and the per-cycle update of the proposal row. */
module Policy {
  import opened Widths
  import opened Records
  import opened Trail

  /** Principal quorum: a tenth of all registered voters, rounded down. */
  function QuorumThreshold(totalVoters: nat): (q: nat)
    ensures 10 * q <= totalVoters < 10 * (q + 1)
  {
    totalVoters / 10
  }

  /** Voter quorum for the fee refund: a twentieth of all registered
      voters, rounded down. */
  function FeeVoterThreshold(totalVoters: nat): (q: nat)
    ensures 20 * q <= totalVoters < 20 * (q + 1)
  {
    totalVoters / 20
  }

  function VotesCast(b: Ballot): nat { b.yesCount + b.noCount + b.abstainCount }

  /** Vote share for the fee refund: a fifth of the votes cast, rounded
      down. */
  function FeeVoteThreshold(b: Ballot): (q: nat)
    ensures 5 * q <= b.yesCount + b.noCount + b.abstainCount < 5 * (q + 1)
  {
    VotesCast(b) / 5
  }

  /** The refund test. Without divisions it reads: a fee is outstanding,
      some yes votes exist, yes is at least a fifth of the votes cast
      (five times one more than yes exceeds them) and the unique voters are
      at least a twentieth of the registered voters. */
  function RefundDue(fee: u64, b: Ballot, totalVoters: nat): (due: bool)
    ensures due <==>
              && fee > 0
              && b.yesCount > 0
              && 5 * (b.yesCount + 1) > b.yesCount + b.noCount + b.abstainCount
              && 20 * (b.uniqueVoters + 1) > totalVoters
  {
    && fee != 0
    && b.yesCount > 0
    && b.yesCount >= FeeVoteThreshold(b)
    && b.uniqueVoters >= FeeVoterThreshold(totalVoters)
  }

  /** The principal test. Without divisions it reads: more yes than no
      votes, and the unique voters at least a tenth of the registered
      voters. */
  function PrincipalDue(b: Ballot, totalVoters: nat): (due: bool)
    ensures due <==> b.yesCount > b.noCount && 10 * (b.uniqueVoters + 1) > totalVoters
  {
    b.yesCount > b.noCount && b.uniqueVoters >= QuorumThreshold(totalVoters)
  }

  /** A cycle without yes votes never refunds, whatever the turnout. */
  lemma NoRefundWithoutYesVotes(fee: u64, b: Ballot, totalVoters: nat)
    requires b.yesCount == 0
    ensures !RefundDue(fee, b, totalVoters)
  {
  }

  /** With 100 registered voters, 15 yes, 5 no and 12 unique voters pass
      both tests, so an outstanding fee and the principal are both paid. */
  lemma FullPayoutScenario(p: Proposal, b: Ballot)
    requires p.fee != 0
    requires b.yesCount == 15 && b.noCount == 5 && b.abstainCount == 0 && b.uniqueVoters == 12
    ensures RefundDue(p.fee, b, 100) && PrincipalDue(b, 100)
    ensures Payout(p, b, 100) == ToSigned(p.fee) + ToSigned(p.amount)
  {
  }

  /** Nine unique voters out of 100 miss the quorum of ten, so a majority
      alone releases no principal. */
  lemma LowQuorumScenario(b: Ballot)
    requires b.yesCount > b.noCount && b.uniqueVoters == 9
    ensures !PrincipalDue(b, 100)
  {
  }

  /** The amount one cycle releases: the fee, read back as a signed asset
      amount, when the refund is due, plus the principal when it is due. */
  function Payout(p: Proposal, b: Ballot, totalVoters: nat): (amount: int)
    ensures !RefundDue(p.fee, b, totalVoters) && !PrincipalDue(b, totalVoters) ==> amount == 0
    ensures RefundDue(p.fee, b, totalVoters) && !PrincipalDue(b, totalVoters) ==> amount == ToSigned(p.fee)
    ensures !RefundDue(p.fee, b, totalVoters) && PrincipalDue(b, totalVoters) ==> amount == ToSigned(p.amount)
    ensures RefundDue(p.fee, b, totalVoters) && PrincipalDue(b, totalVoters) ==>
              amount == ToSigned(p.fee) + ToSigned(p.amount)
  {
    (if RefundDue(p.fee, b, totalVoters) then ToSigned(p.fee) else 0)
    + (if PrincipalDue(b, totalVoters) then ToSigned(p.amount) else 0)
  }

  /** The row a successful claim writes back: the fee is zeroed when it is
      refunded, the proposal closes when the cycle just claimed is its last,
      and the cycle counter advances (modulo 2^16) whatever the tally. The
      last-cycle test compares in `int`, so a proposal of zero cycles never
      closes. */
  function Advance(p: Proposal, b: Ballot, totalVoters: nat): (q: Proposal)
    ensures q == p.(status := q.status, fee := q.fee, currentCycle := q.currentCycle)
    ensures q.currentCycle == WrapU16(p.currentCycle + 1)
    ensures p.currentCycle + 1 == p.cycles ==> q.status == STATUS_INACTIVE
    ensures p.currentCycle + 1 != p.cycles ==> q.status == p.status
    ensures RefundDue(p.fee, b, totalVoters) ==> q.fee == 0
    ensures !RefundDue(p.fee, b, totalVoters) ==> q.fee == p.fee
  {
    var fee := if RefundDue(p.fee, b, totalVoters) then 0 else p.fee;
    var status := if p.currentCycle == p.cycles - 1 then STATUS_INACTIVE else p.status;
    p.(status := status, fee := fee, currentCycle := WrapU16(p.currentCycle + 1))
  }

  /** Once a refund has zeroed the fee, no later cycle refunds again, with
      the same tally or any other. */
  lemma RefundOnce(p: Proposal, b: Ballot, totalVoters: nat, b': Ballot, totalVoters': nat)
    requires RefundDue(p.fee, b, totalVoters)
    ensures !RefundDue(Advance(p, b, totalVoters).fee, b', totalVoters')
    ensures Payout(Advance(p, b, totalVoters), b', totalVoters') ==
              (if PrincipalDue(b', totalVoters') then ToSigned(p.amount) else 0)
  {
  }
}
