/** Sequences of transactions against the contract, and what they can and
    cannot do to one proposal over its lifetime. */
module Lifecycle {
  import opened Widths
  import opened Outcomes
  import opened Records
  import opened Trail
  import opened Policy
  import opened Actions

  datatype Action =
    | SubmitCall(proposer: Account, title: string, cycles: u16, ipfsLocation: string, amount: i64,
                 receiver: Account)
    | LinkCall(propId: u64, ballotId: u64, proposer: Account)
    | ClaimCall(propId: u64, proposer: Account)

  /** One transaction: an action together with what the chain supplies to
      it, namely the accounts that signed it, the voting service's current
      snapshot and the block time. */
  datatype Call = Call(action: Action, signers: set<Account>, trail: Snapshot, now: u32)

  function Apply(self: Account, st: State, c: Call): Outcome {
    match c.action
    case SubmitCall(proposer, title, cycles, ipfsLocation, amount, receiver) =>
      Submit(self, st, c.signers, proposer, title, cycles, ipfsLocation, amount, receiver)
    case LinkCall(propId, ballotId, proposer) =>
      LinkBallot(self, st, c.trail, c.signers, propId, ballotId, proposer)
    case ClaimCall(propId, proposer) =>
      Claim(self, st, c.trail, c.now, c.signers, propId, proposer)
  }

  /** The state after one transaction: an aborted one leaves it untouched. */
  function Next(self: Account, st: State, c: Call): State {
    var r := Apply(self, st, c);
    if r.Ok? then r.value.state else st
  }

  function Run(self: Account, st: State, calls: seq<Call>): State
    decreases |calls|
  {
    if calls == [] then st else Run(self, Next(self, st, calls[0]), calls[1..])
  }

  predicate IsClaimOf(c: Call, propId: u64) {
    c.action.ClaimCall? && c.action.propId == propId
  }

  predicate IsLinkOf(c: Call, propId: u64) {
    c.action.LinkCall? && c.action.propId == propId
  }

  /** Whether the call is a committed claim of the proposal whose tally
      refunds its fee. */
  predicate RefundsFee(self: Account, st: State, c: Call, propId: u64) {
    && IsClaimOf(c, propId)
    && Apply(self, st, c).Ok?
    && var p := st.table.rows[propId];
       RefundDue(p.fee, c.trail.ballots[p.ballotId], c.trail.env.value.totalVoters)
  }

  /** The number of committed claims of the proposal along the calls. */
  function SuccessfulClaims(self: Account, st: State, calls: seq<Call>, propId: u64): nat
    decreases |calls|
  {
    if calls == [] then 0
    else
      (if IsClaimOf(calls[0], propId) && Apply(self, st, calls[0]).Ok? then 1 else 0)
      + SuccessfulClaims(self, Next(self, st, calls[0]), calls[1..], propId)
  }

  /** The number of fee refunds of the proposal along the calls. */
  function Refunds(self: Account, st: State, calls: seq<Call>, propId: u64): nat
    decreases |calls|
  {
    if calls == [] then 0
    else
      (if RefundsFee(self, st, calls[0], propId) then 1 else 0)
      + Refunds(self, Next(self, st, calls[0]), calls[1..], propId)
  }

  predicate Invariant(st: State) {
    st.table.Valid() && StatusesKnown(st.table)
  }

  /** Every action keeps each row under its own id, keeps the next key
      free, and writes no status other than inactive and active. */
  lemma NextPreservesInvariant(self: Account, st: State, c: Call)
    requires Invariant(st)
    ensures Invariant(Next(self, st, c))
  {
  }

  lemma {:induction false} RunPreservesInvariant(self: Account, st: State, calls: seq<Call>)
    requires Invariant(st)
    ensures Invariant(Run(self, st, calls))
    decreases |calls|
  {
    if calls != [] {
      NextPreservesInvariant(self, st, calls[0]);
      RunPreservesInvariant(self, Next(self, st, calls[0]), calls[1..]);
    }
  }

  /** A call that is neither a link nor a claim of the proposal leaves its
      row as it was, provided the table is valid, so that a submission
      cannot land on an existing key. */
  lemma OtherCallsKeepRow(self: Account, st: State, c: Call, propId: u64)
    requires st.table.Valid() && propId in st.table.rows
    requires !IsClaimOf(c, propId) && !IsLinkOf(c, propId)
    ensures propId in Next(self, st, c).table.rows
    ensures Next(self, st, c).table.rows[propId] == st.table.rows[propId]
  {
  }

  /** Claims still open to an active proposal: the cycles it has not yet
      consumed. A closed proposal has none. */
  function Remaining(p: Proposal): int {
    if p.status == STATUS_ACTIVE then p.cycles - p.currentCycle else 0
  }

  /** No call along the run commits a link of the proposal. Link attempts
      that abort, which anyone may send, are allowed: they change nothing. */
  predicate NoCommittedRelink(self: Account, st: State, calls: seq<Call>, propId: u64)
    decreases |calls|
  {
    calls == []
    || (&& (!IsLinkOf(calls[0], propId) || Apply(self, st, calls[0]).Err?)
        && NoCommittedRelink(self, Next(self, st, calls[0]), calls[1..], propId))
  }

  /** Without a further committed link, an active proposal that has not run past its
      cycle count is claimed successfully at most once per remaining cycle. */
  lemma {:induction false} AtMostRemainingClaims(self: Account, st: State, calls: seq<Call>, propId: u64)
    requires st.table.Valid() && propId in st.table.rows
    requires st.table.rows[propId].status == STATUS_ACTIVE ==>
               st.table.rows[propId].currentCycle < st.table.rows[propId].cycles
    requires NoCommittedRelink(self, st, calls, propId)
    ensures SuccessfulClaims(self, st, calls, propId) <= Remaining(st.table.rows[propId])
    decreases |calls|
  {
    if calls != [] {
      var c := calls[0];
      var st' := Next(self, st, c);
      var p := st.table.rows[propId];
      NextPreservesValid(self, st, c);
      if IsClaimOf(c, propId) && Apply(self, st, c).Ok? {
        var p' := st'.table.rows[propId];
        assert p' == Advance(p, c.trail.ballots[p.ballotId], c.trail.env.value.totalVoters);
        assert p'.currentCycle == p.currentCycle + 1;
        assert Remaining(p') == Remaining(p) - 1;
      } else if IsClaimOf(c, propId) || IsLinkOf(c, propId) {
        assert st' == st;
      } else {
        OtherCallsKeepRow(self, st, c, propId);
      }
      AtMostRemainingClaims(self, st', calls[1..], propId);
    }
  }

  lemma NextPreservesValid(self: Account, st: State, c: Call)
    requires st.table.Valid()
    ensures Next(self, st, c).table.Valid()
  {
  }

  /** A proposal just linked, at cycle zero, is paid out on at most as many
      claims as it has cycles, however the calls interleave, as long as it is
      not linked again by a committed call. */
  lemma AtMostCyclesClaims(self: Account, st: State, calls: seq<Call>, propId: u64)
    requires st.table.Valid() && propId in st.table.rows
    requires st.table.rows[propId].status == STATUS_ACTIVE && st.table.rows[propId].currentCycle == 0
    requires st.table.rows[propId].cycles >= 1
    requires NoCommittedRelink(self, st, calls, propId)
    ensures SuccessfulClaims(self, st, calls, propId) <= st.table.rows[propId].cycles
  {
    AtMostRemainingClaims(self, st, calls, propId);
  }

  /** The last-cycle test compares `current_cycle` with `cycles - 1` in
      `int`, so an active proposal of zero cycles is never closed, by claims
      or anything else. */
  lemma {:induction false} ZeroCyclesNeverClose(self: Account, st: State, calls: seq<Call>, propId: u64)
    requires st.table.Valid() && propId in st.table.rows
    requires st.table.rows[propId].cycles == 0 && st.table.rows[propId].status == STATUS_ACTIVE
    ensures propId in Run(self, st, calls).table.rows
    ensures Run(self, st, calls).table.rows[propId].status == STATUS_ACTIVE
    ensures Run(self, st, calls).table.rows[propId].cycles == 0
    decreases |calls|
  {
    if calls != [] {
      var c := calls[0];
      NextPreservesValid(self, st, c);
      if !IsClaimOf(c, propId) && !IsLinkOf(c, propId) {
        OtherCallsKeepRow(self, st, c, propId);
      }
      ZeroCyclesNeverClose(self, Next(self, st, c), calls[1..], propId);
    }
  }

  /** Hence the bound on claims needs at least one cycle: a ready claim on an
      active proposal of zero cycles commits every time it is repeated. */
  lemma {:induction false} ZeroCyclesUnboundedClaims(self: Account, st: State, c: Call, propId: u64, n: nat)
    requires ClaimReady(st, c, propId)
    requires st.table.rows[propId].cycles == 0 && st.table.rows[propId].status == STATUS_ACTIVE
    ensures SuccessfulClaims(self, st, Repeat(c, n), propId) == n
    decreases n
  {
    if n > 0 {
      var p := st.table.rows[propId];
      var st' := Next(self, st, c);
      assert Apply(self, st, c).Ok?;
      assert st'.table.rows[propId] == Advance(p, c.trail.ballots[p.ballotId], c.trail.env.value.totalVoters);
      assert Repeat(c, n)[1..] == Repeat(c, n - 1);
      ZeroCyclesUnboundedClaims(self, st', c, propId, n - 1);
    }
  }

  /** Whatever happens, a proposal's fee is refunded at most once, and never
      once it is zero: no action restores a refunded fee. */
  lemma {:induction false} AtMostOneRefund(self: Account, st: State, calls: seq<Call>, propId: u64)
    requires st.table.Valid() && propId in st.table.rows
    ensures Refunds(self, st, calls, propId) <= (if st.table.rows[propId].fee == 0 then 0 else 1)
    decreases |calls|
  {
    if calls != [] {
      var c := calls[0];
      var st' := Next(self, st, c);
      var p := st.table.rows[propId];
      NextPreservesValid(self, st, c);
      if IsClaimOf(c, propId) && Apply(self, st, c).Ok? {
        var b := c.trail.ballots[p.ballotId];
        var voters := c.trail.env.value.totalVoters;
        assert st'.table.rows[propId] == Advance(p, b, voters);
      } else if IsLinkOf(c, propId) {
        assert st'.table.rows[propId].fee == p.fee;
      } else if !IsClaimOf(c, propId) {
        OtherCallsKeepRow(self, st, c, propId);
      }
      AtMostOneRefund(self, st', calls[1..], propId);
    }
  }

  function Repeat(c: Call, n: nat): (calls: seq<Call>)
    ensures |calls| == n
    ensures forall i :: 0 <= i < n ==> calls[i] == c
  {
    if n == 0 then [] else [c] + Repeat(c, n - 1)
  }

  /** A claim call whose context lets every precondition but the status pass
      for the proposal: a signed caller, its ballot present and closed, and
      the voting service's environment present. */
  predicate ClaimReady(st: State, c: Call, propId: u64) {
    && propId in st.table.rows
    && c.action.ClaimCall? && c.action.propId == propId && c.action.proposer in c.signers
    && st.table.rows[propId].ballotId in c.trail.ballots
    && c.trail.ballots[st.table.rows[propId].ballotId].endTime < c.now
    && c.trail.env.Present?
  }

  /** Repeating a ready claim on an active proposal commits once for each
      remaining cycle, and then leaves it closed at its final cycle. */
  lemma {:induction false} ClaimsUntilClosed(self: Account, st: State, c: Call, propId: u64, n: nat)
    requires ClaimReady(st, c, propId)
    requires st.table.rows[propId].status == STATUS_ACTIVE
    requires n >= 1 && n == st.table.rows[propId].cycles - st.table.rows[propId].currentCycle
    ensures SuccessfulClaims(self, st, Repeat(c, n), propId) == n
    ensures ClaimReady(Run(self, st, Repeat(c, n)), c, propId)
    ensures Run(self, st, Repeat(c, n)).table.rows[propId].status == STATUS_INACTIVE
    ensures Run(self, st, Repeat(c, n)).table.rows[propId].currentCycle == st.table.rows[propId].cycles
    decreases n
  {
    var p := st.table.rows[propId];
    var st' := Next(self, st, c);
    assert Apply(self, st, c).Ok?;
    var p' := st'.table.rows[propId];
    assert p' == Advance(p, c.trail.ballots[p.ballotId], c.trail.env.value.totalVoters);
    assert Repeat(c, n)[1..] == Repeat(c, n - 1);
    if n > 1 {
      ClaimsUntilClosed(self, st', c, propId, n - 1);
    }
  }

  /** A proposal of N >= 1 cycles, linked and at cycle zero, pays out on
      exactly N successive claims, after which a further claim fails because
      the proposal is closed. */
  lemma ExactlyCyclesClaims(self: Account, st: State, c: Call, propId: u64)
    requires ClaimReady(st, c, propId)
    requires st.table.rows[propId].status == STATUS_ACTIVE && st.table.rows[propId].currentCycle == 0
    requires st.table.rows[propId].cycles >= 1
    ensures SuccessfulClaims(self, st, Repeat(c, st.table.rows[propId].cycles), propId)
            == st.table.rows[propId].cycles
    ensures Apply(self, Run(self, st, Repeat(c, st.table.rows[propId].cycles)), c) == Err(ProposalClosed)
  {
    ClaimsUntilClosed(self, st, c, propId, st.table.rows[propId].cycles);
  }

  /** Linking consults neither the proposal's status nor its stored
      proposer, so a proposal whose cycles are all consumed can be linked
      again; its counter is then past the last cycle, and the next claim
      commits without closing it. */
  lemma RelinkReopens(self: Account, st: State, trail: Snapshot, now: u32, signers: set<Account>,
                      propId: u64, ballotId: u64, proposer: Account)
    requires trail.WellKeyed() && trail.env.Present?
    requires proposer in signers && propId in st.table.rows && ballotId in trail.ballots
    requires trail.ballots[ballotId].publisher == proposer && trail.ballots[ballotId].endTime < now
    requires st.table.rows[propId].status == STATUS_INACTIVE
    requires 1 <= st.table.rows[propId].cycles == st.table.rows[propId].currentCycle < 0xFFFF
    ensures LinkBallot(self, st, trail, signers, propId, ballotId, proposer).Ok?
    ensures var st1 := LinkBallot(self, st, trail, signers, propId, ballotId, proposer).value.state;
            var r := Claim(self, st1, trail, now, signers, propId, proposer);
            && r.Ok?
            && r.value.state.table.rows[propId].status == STATUS_ACTIVE
            && r.value.state.table.rows[propId].currentCycle == st.table.rows[propId].cycles + 1
  {
  }

  /** Linking a ballot and then claiming succeeds once the ballot's window
      has closed, provided the ballot table is keyed by ballot id. */
  lemma LinkEnablesClaim(self: Account, st: State, trail: Snapshot, now: u32, signers: set<Account>,
                         propId: u64, ballotId: u64, proposer: Account, caller: Account)
    requires trail.WellKeyed() && trail.env.Present? && caller in signers
    requires LinkBallot(self, st, trail, signers, propId, ballotId, proposer).Ok?
    requires trail.ballots[ballotId].endTime < now
    ensures Claim(self, LinkBallot(self, st, trail, signers, propId, ballotId, proposer).value.state,
                  trail, now, signers, propId, caller).Ok?
  {
  }

  /** Who claims makes no difference, as long as that account signed. */
  lemma ClaimIgnoresCaller(self: Account, st: State, trail: Snapshot, now: u32, signers: set<Account>,
                           propId: u64, a: Account, b: Account)
    requires a in signers && b in signers
    ensures Claim(self, st, trail, now, signers, propId, a) == Claim(self, st, trail, now, signers, propId, b)
  {
  }

  /** The configured cycle duration is seeded and stored but never read:
      configurations that differ only in it lead every action to the same
      outcome, apart from the stored configuration itself. */
  lemma CycleDurationUnused(self: Account, env: WpEnv, duration: u32, t: Table, c: Call)
    ensures var r1 := Apply(self, State(Present(env), t), c);
            var r2 := Apply(self, State(Present(env.(cycleDuration := duration)), t), c);
            && r1.Ok? == r2.Ok?
            && (r1.Err? ==> r1.error == r2.error)
            && (r1.Ok? ==> r1.value.state.table == r2.value.state.table
                           && r1.value.transfers == r2.value.transfers)
  {
  }
}
