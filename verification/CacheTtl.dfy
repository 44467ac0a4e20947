/** The times, in seconds, of the two-tier cache. */
module CacheTtl {
  const LOCAL_SECONDS: nat := 15
  const REDIS_SECONDS: nat := 1800
  const MISSING_LOCAL_SECONDS: nat := 15
  const MISSING_REDIS_SECONDS: nat := 60

  /** What a forced refresh leaves to the entries it finds. */
  const TOUCH_SECONDS: nat := 5
  const EXPIRE_SECONDS: nat := 60
}
