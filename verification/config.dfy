/** Seeding of the `wp_env` configuration singleton, which the contract's
    constructor performs before every action. */
module Config {
  import opened Widths
  import opened Outcomes
  import opened Records

  const DEFAULT_CYCLE_DURATION: u32 := 2500000
  const DEFAULT_FEE_PERCENTAGE: u16 := 3
  const DEFAULT_FEE_MIN: u64 := 500000

  /** The configuration the contract works with: the stored singleton if
      there is one, otherwise the defaults published by the contract's own
      account. */
  function Seed(self: Account, stored: Singleton<WpEnv>): (env: WpEnv)
    ensures stored.Absent? ==> env == WpEnv(self, 2500000, 3, 500000)
    ensures stored.Present? ==> env == stored.value
  {
    match stored
    case Absent => WpEnv(self, DEFAULT_CYCLE_DURATION, DEFAULT_FEE_PERCENTAGE, DEFAULT_FEE_MIN)
    case Present(env) => env
  }

  /** Writing back the seeded configuration and seeding again changes
      nothing: a second construction sees the singleton the first stored. */
  lemma SeedIdempotent(self: Account, stored: Singleton<WpEnv>)
    ensures Seed(self, Present(Seed(self, stored))) == Seed(self, stored)
  {
  }
}
