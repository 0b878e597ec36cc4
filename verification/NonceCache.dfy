/** The per-account nonce cache. Its locks make each operation one step. */
module NonceCache {
  import opened Options

  type Address = string

  class Cache {
    var nonces: map<Address, int>

    constructor ()
      ensures nonces == map[]
    {
      nonces := map[];
    }

    /** What a reader of the account finds: an account that was never stored counts from 0. */
    function Peek(account: Address): int
      reads this
    {
      if account in nonces then nonces[account] else 0
    }

    method Get(account: Address) returns (nonce: int, loaded: bool)
      modifies this
      ensures nonce == old(Peek(account)) && loaded == (account in old(nonces))
      ensures nonces == old(nonces)[account := nonce]
    {
      loaded := account in nonces;
      if !loaded {
        nonces := nonces[account := 0];
      }
      nonce := nonces[account];
    }

    method Set(account: Address, nonce: int)
      modifies this
      ensures nonces == old(nonces)[account := nonce]
    {
      nonces := nonces[account := nonce];
    }

    method Incr(account: Address) returns (nonce: int)
      modifies this
      ensures nonce == old(Peek(account)) + 1 && nonces == old(nonces)[account := nonce]
    {
      nonce := Peek(account) + 1;
      nonces := nonces[account := nonce];
    }

    method Decr(account: Address) returns (nonce: int)
      modifies this
      ensures nonce == old(Peek(account)) - 1 && nonces == old(nonces)[account := nonce]
    {
      nonce := Peek(account) - 1;
      nonces := nonces[account := nonce];
    }

    /** `fetched` is what the node answered, None for an error: then the cache stays as it is. */
    method Sync(account: Address, fetched: Option<nat>)
      modifies this
      ensures nonces == if fetched.Some? then old(nonces)[account := fetched.value] else old(nonces)
    {
      if fetched.Some? {
        nonces := nonces[account := fetched.value];
      }
    }
  }
}
