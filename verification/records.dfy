/** The contract's persisted records: the `proposal` row, the `wp_env`
    configuration singleton and the proposal table, with the field widths of
    their C++ declarations; plus the transfer requests the actions emit and
    the failures that abort them. */
module Records {
  import opened Widths
  import opened Outcomes

  /** An account name; the model compares names only for equality. */
  type Account = string

  const STATUS_INACTIVE: u8 := 0
  const STATUS_ACTIVE: u8 := 1

  datatype Proposal = Proposal(
    id: u64,
    ballotId: u64,
    proposer: Account,
    receiver: Account,
    title: string,
    ipfsLocation: string,
    cycles: u16,
    amount: u64,
    fee: u64,
    beginTime: u32,
    endTime: u32,
    status: u8,
    currentCycle: u16)

  /** The `wp_env` singleton: policy parameters read by the actions. */
  datatype WpEnv = WpEnv(
    publisher: Account,
    cycleDuration: u32,
    feePercentage: u16,
    feeMin: u64)

  /** The proposal table: rows by primary key, and the key the table will
      hand out next (the table's `available_primary_key`). */
  datatype Table = Table(rows: map<u64, Proposal>, nextKey: nat) {

    /** Every row sits under its own `id`, and the next key is above all
        keys in use, so it is free. */
    predicate Valid() {
      forall k :: k in rows ==> rows[k].id == k && k < nextKey
    }
  }

  /** Everything the contract persists in its own scope. */
  datatype State = State(config: Singleton<WpEnv>, table: Table)

  /** One inline `eosio.token` transfer request. */
  datatype Transfer = Transfer(from: Account, to: Account, amount: int, memo: string)

  /** The assertion (or authority check) that aborted an action. */
  datatype Error =
    | MissingAuth
    | ProposalNotFound
    | BallotNotFound
    | NotBallotPublisher
    | CycleStillOpen
    | ProposalClosed
    | TrailEnvMissing
    | IdsExhausted

  /** What a committed action leaves behind. */
  datatype Commit = Commit(state: State, transfers: seq<Transfer>)

  type Outcome = Result<Commit, Error>

  /** Only the two documented status values occur in the table. */
  predicate StatusesKnown(t: Table) {
    forall k :: k in t.rows ==> t.rows[k].status in {STATUS_INACTIVE, STATUS_ACTIVE}
  }
}
