/** How the production stores read a `TIMESTAMPTZ` column back
    (apps/control-plane/src/prod-adapters.ts, apps/agent-host/src/adapters.ts,
    apps/control-plane/src/auth-session.ts): as `new Date(String(column))`. */
module Timestamps {
  import opened Wrappers

  /** The driver of PostgreSQL returns dates, whose text has whole seconds only; the in-memory fake
      returns the text it was given. */
  datatype Driver = ReturnsText | ReturnsDates

  function ReadBack(driver: Driver, t: Instant): (r: Instant)
    ensures r <= t < r + 1000
    ensures r == t <==> driver.ReturnsText? || t % 1000 == 0
    ensures driver.ReturnsDates? ==> r % 1000 == 0
  {
    if driver.ReturnsText? then t else t - t % 1000
  }
}
