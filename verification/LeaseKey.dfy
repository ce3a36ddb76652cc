/** One Redis key that holds a lock token under an expiry (core/distributed_lock.py:187-210).
    Times are integer milliseconds on one nondecreasing clock. */
module LeaseKey {
  import opened Common

  /** `secrets.token_hex(16)`: tokens are taken to be fresh, so a counter names them. */
  type Token = nat

  datatype Lease = Lease(token: Token, expiry: int)

  /** Redis treats a key whose expiry has come as absent. */
  predicate Live(key: Option<Lease>, now: int) {
    key.Some? && now < key.value.expiry
  }

  predicate OwnedBy(key: Option<Lease>, now: int, token: Token) {
    Live(key, now) && key.value.token == token
  }

  /** `SET key token NX EX ttl` */
  function SetNx(key: Option<Lease>, now: int, token: Token, ttlSeconds: int): Option<Lease> {
    if Live(key, now) then key else Some(Lease(token, now + 1000 * ttlSeconds))
  }

  /** The compare-and-delete script. */
  function CompareAndDelete(key: Option<Lease>, now: int, token: Token): Option<Lease> {
    if OwnedBy(key, now, token) then None else key
  }

  /** The compare-and-extend script; PEXPIRE takes milliseconds. */
  function CompareAndExtend(key: Option<Lease>, now: int, token: Token, ttlSeconds: int): Option<Lease> {
    if OwnedBy(key, now, token) then Some(Lease(token, now + 1000 * ttlSeconds)) else key
  }
}
