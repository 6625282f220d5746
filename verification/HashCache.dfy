/** The ancestor hash function handed to the virtual machine: it walks parent links
    down from a header and remembers the hashes it has passed. */
module HashCaches {
  import opened Headers
  import opened HeaderChains

  /** The hash at a number, following parent links one at a time from a header. */
  function HashAt(headers: set<Header>, from: Header, n: nat): Hash {
    if n < from.number then Walk(headers, from.parent, from.number - 1, from.number - 1 - n) else Zero
  }

  class HashCache {
    const headers: set<Header>
    const origin: Header
    var cache: seq<Hash>

    constructor (headers: set<Header>, origin: Header)
      ensures Valid() && this.headers == headers && this.origin == origin
    {
      this.headers, this.origin, cache := headers, origin, [];
    }

    ghost predicate Valid()
      reads this
    {
      && |cache| <= origin.number + 1
      && forall i: nat :: i < |cache| && i < origin.number ==>
           cache[i] == HashAt(headers, origin, origin.number - 1 - i)
    }

    /** Whether a header is stored under a hash and a number, which below zero none is. */
    predicate Known(hash: Hash, number: int) {
      hash.Of? && hash.header in headers && hash.header.number == number
    }

    /** The hash at a number below the origin; zero where the walk runs out of stored
        headers, and for every other number. */
    method Get(n: nat) returns (hash: Hash)
      requires Valid()
      modifies this
      ensures Valid() && old(cache) <= cache
      ensures hash == HashAt(headers, origin, n)
    {
      if cache == [] {
        cache := [origin.parent];
      }
      if n < origin.number && origin.number - n - 1 < |cache| {
        return cache[origin.number - n - 1];
      }
      var lastKnownHash := cache[|cache| - 1];
      var lastKnownNumber: int := origin.number - |cache|;
      while Known(lastKnownHash, lastKnownNumber)
        invariant cache != [] && Valid() && old(cache) <= cache
        invariant lastKnownHash == cache[|cache| - 1] && lastKnownNumber == origin.number - |cache|
        invariant n < lastKnownNumber || n >= origin.number
        decreases lastKnownNumber
      {
        var header := lastKnownHash.header;
        assert HashAt(headers, origin, lastKnownNumber) == lastKnownHash;
        if lastKnownNumber > 0 {
          WalkOn(headers, origin.parent, origin.number - 1, |cache| - 1, 1);
        }
        cache := cache + [header.parent];
        lastKnownHash := header.parent;
        lastKnownNumber := header.number - 1;
        if n == lastKnownNumber {
          return lastKnownHash;
        }
      }
      if n < origin.number {
        WalkOn(headers, origin.parent, origin.number - 1, |cache| - 1, lastKnownNumber - n);
      }
      return Zero;
    }

    /** Earlier queries never change the answer to a later one. */
    method GetAll(ns: seq<nat>) returns (hashes: seq<Hash>)
      requires Valid()
      modifies this
      ensures Valid() && |hashes| == |ns|
      ensures forall i :: 0 <= i < |ns| ==> hashes[i] == HashAt(headers, origin, ns[i])
    {
      hashes := [];
      while |hashes| < |ns|
        invariant Valid() && |hashes| <= |ns|
        invariant forall i :: 0 <= i < |hashes| ==> hashes[i] == HashAt(headers, origin, ns[i])
      {
        var hash := Get(ns[|hashes|]);
        hashes := hashes + [hash];
      }
    }
  }

  /** From a stored header on, the hash at any lower number is that of the ancestor. */
  lemma HashOfAncestor(headers: set<Header>, genesis: Header, from: Header, n: nat)
    requires Closed(headers, genesis) && from in headers && n < from.number
    ensures HashAt(headers, from, n) == Ancestor(from, n) != Zero
  {
    assert Rooted(headers, genesis, from);
    WalkAncestor(headers, genesis, from.parent.header, from.number - 1 - n);
    AncestorStored(headers, genesis, from, n);
  }
}
