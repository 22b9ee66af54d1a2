/** The signer's in-memory store (signer/store.go): request nonces, idempotency claims, chain nonces. */
module SignerStore {
  import opened Common

  const UINT64: int := 0x1_0000_0000_0000_0000

  type uint64 = x: int | 0 <= x < 0x1_0000_0000_0000_0000

  datatype Store = Store(
    nonces: map<string, int>,
    results: map<string, string>,
    locks: set<string>,
    chainNonces: map<string, uint64>)

  const FRESH: Store := Store(map[], map[], {}, map[])

  // ---- request nonces ----

  function Unexpired(nonces: map<string, int>, now: int): map<string, int> {
    map k | k in nonces && nonces[k] >= now :: nonces[k]
  }

  function AcceptNonce(nonces: map<string, int>, nonce: string, ttl: int, now: int): (map<string, int>, bool) {
    var kept := Unexpired(nonces, now);
    if nonce in kept then (kept, false) else (kept[nonce := now + ttl], true)
  }

  // ---- idempotency claims ----

  datatype ClaimReply = Claimed | Saved(response: string) | Busy

  function ClaimResult(s: Store, key: string): (Store, ClaimReply) {
    if key == "" then (s, Claimed)
    else if key in s.results then (s, Saved(s.results[key]))
    else if key in s.locks then (s, Busy)
    else (s.(locks := s.locks + {key}), Claimed)
  }

  function SaveResult(s: Store, key: string, response: string): Store {
    if key == "" then s else s.(results := s.results[key := response], locks := s.locks - {key})
  }

  function ReleaseClaim(s: Store, key: string): Store {
    if key == "" then s else s.(locks := s.locks - {key})
  }

  // ---- chain nonces ----

  function NonceKey(wallet: string, network: string): string {
    wallet + "|" + network
  }

  // Keys of wallets without the separator tell wallet and network apart.
  lemma NonceKeysDiffer(wallet: string, network: string, wallet': string, network': string)
    requires '|' !in wallet && '|' !in wallet' && NonceKey(wallet, network) == NonceKey(wallet', network')
    ensures wallet == wallet' && network == network'
  {
    var k := NonceKey(wallet, network);
    assert k[|wallet|] == '|' && k[|wallet'|] == '|';
    assert k[..|wallet|] == wallet && k[..|wallet'|] == wallet';
    assert k[|wallet| + 1..] == network && k[|wallet'| + 1..] == network';
  }

  // uint64 addition.
  function Successor(n: uint64): uint64 {
    (n + 1) % UINT64
  }

  function NextNonce(chain: map<string, uint64>, key: string, pending: uint64): uint64 {
    if key in chain && Successor(chain[key]) > pending then Successor(chain[key]) else pending
  }

  // ---- the store object ----

  class MemoryStore {
    var nonces: map<string, int>
    var results: map<string, string>
    var locks: set<string>
    var chainNonces: map<string, uint64>

    function State(): Store
      reads this
    {
      Store(nonces, results, locks, chainNonces)
    }

    constructor ()
      ensures State() == FRESH
    {
      nonces, results, locks, chainNonces := map[], map[], {}, map[];
    }

    method Accept(nonce: string, ttl: int, now: int) returns (ok: bool)
      modifies this`nonces
      ensures (nonces, ok) == AcceptNonce(old(nonces), nonce, ttl, now)
    {
      var before := nonces;
      var todo := nonces.Keys;
      while todo != {}
        invariant todo <= before.Keys
        invariant nonces == map k | k in before && (k in todo || before[k] >= now) :: before[k]
        decreases todo
      {
        var key :| key in todo;
        if now > before[key] {
          nonces := map k | k in nonces && k != key :: nonces[k];
        }
        todo := todo - {key};
      }
      assert nonces == Unexpired(before, now);
      if nonce in nonces {
        return false;
      }
      nonces := nonces[nonce := now + ttl];
      return true;
    }

    method Claim(key: string) returns (reply: ClaimReply)
      modifies this`locks
      ensures (State(), reply) == ClaimResult(old(State()), key)
    {
      if key == "" {
        return Claimed;
      }
      if key in results {
        return Saved(results[key]);
      }
      if key in locks {
        return Busy;
      }
      locks := locks + {key};
      return Claimed;
    }

    method Save(key: string, response: string)
      modifies this`results, this`locks
      ensures State() == SaveResult(old(State()), key, response)
    {
      if key != "" {
        results := results[key := response];
        locks := locks - {key};
      }
    }

    method Release(key: string)
      modifies this`locks
      ensures State() == ReleaseClaim(old(State()), key)
    {
      if key != "" {
        locks := locks - {key};
      }
    }

    method ReserveNonce(wallet: string, network: string, pending: uint64) returns (next: uint64)
      modifies this`chainNonces
      ensures next == NextNonce(old(chainNonces), NonceKey(wallet, network), pending)
      ensures chainNonces == old(chainNonces)[NonceKey(wallet, network) := next]
    {
      var key := NonceKey(wallet, network);
      next := pending;
      if key in chainNonces {
        var candidate := Successor(chainNonces[key]);
        if candidate > next {
          next := candidate;
        }
      }
      chainNonces := chainNonces[key := next];
    }
  }
}
