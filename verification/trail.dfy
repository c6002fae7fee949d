/** The read-only snapshot of the `eosio.trail` voting service that the
    actions consult: its ballot table and its environment singleton. Only
    the fields the contract reads are kept; vote tallies are asset amounts
    of the one token symbol, written as plain counts. */
module Trail {
  import opened Widths
  import opened Outcomes
  import opened Records

  datatype Ballot = Ballot(
    ballotId: u64,
    publisher: Account,
    beginTime: u32,
    endTime: u32,
    yesCount: nat,
    noCount: nat,
    abstainCount: nat,
    uniqueVoters: nat)

  datatype TrailEnv = TrailEnv(totalVoters: nat)

  datatype Snapshot = Snapshot(ballots: map<u64, Ballot>, env: Singleton<TrailEnv>) {

    /** Every ballot sits under its own `ballot_id`. */
    predicate WellKeyed() {
      forall k :: k in ballots ==> ballots[k].ballotId == k
    }
  }
}
