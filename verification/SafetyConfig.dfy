/** The time-to-live rule both request guards rest on. */
module SafetyConfig {
  import opened Common

  /** The key-value store refuses times to live under a minute. */
  function KvTtlSeconds(seconds: int): (ttl: int)
    ensures ttl >= 60 && ttl >= seconds && (ttl == 60 || ttl == seconds)
  {
    Max(60, seconds)
  }
}
