/** Virtual account nonces on top of a chain state. */
module Noncer {
  import opened Transactions

  class TxNoncer {
    const fallback: Address -> nat
    var nonces: map<Address, nat>

    /** The nonce an account has, whether or not it was looked up before. */
    function Value(addr: Address): nat
      reads this
    {
      if addr in nonces then nonces[addr] else fallback(addr)
    }

    constructor (fallback: Address -> nat)
      ensures this.fallback == fallback
      ensures forall a :: Value(a) == fallback(a)
    {
      this.fallback := fallback;
      nonces := map[];
    }

    /** Reading caches the answer and changes no account's nonce. */
    method Get(addr: Address) returns (nonce: nat)
      modifies this
      ensures nonce == Value(addr)
      ensures forall a :: Value(a) == old(Value(a))
    {
      if addr !in nonces {
        nonces := nonces[addr := fallback(addr)];
      }
      nonce := nonces[addr];
    }

    method Set(addr: Address, nonce: nat)
      modifies this
      ensures Value(addr) == nonce
      ensures forall a :: a != addr ==> Value(a) == old(Value(a))
    {
      nonces := nonces[addr := nonce];
    }

    method SetIfLower(addr: Address, nonce: nat)
      modifies this
      ensures Value(addr) == if nonce < old(Value(addr)) then nonce else old(Value(addr))
      ensures forall a :: a != addr ==> Value(a) == old(Value(a))
    {
      if addr !in nonces {
        nonces := nonces[addr := fallback(addr)];
      }
      if nonces[addr] <= nonce {
        return;
      }
      nonces := nonces[addr := nonce];
    }
  }
}
