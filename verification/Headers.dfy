/** Block headers and the chains their parent links define. Hashing is taken to be free
    of collisions: a hash is the header it was taken of, or the zero hash. */
module Headers {
  datatype Hash = Zero | Of(header: Header)

  datatype Header = Header(parent: Hash, number: nat, difficulty: nat, salt: nat)

  /** The ancestor of a header at a given number, found by following parent links. */
  function Ancestor(h: Header, n: nat): Hash {
    if h.number == n then Of(h)
    else if h.parent.Of? then Ancestor(h.parent.header, n)
    else Zero
  }

  /** Every header but the first has its parent among them, one number below. */
  ghost predicate Closed(headers: set<Header>, genesis: Header) {
    && genesis in headers && genesis.number == 0
    && forall h {:trigger Rooted(headers, genesis, h)} :: h in headers ==> Rooted(headers, genesis, h)
  }

  ghost predicate Rooted(headers: set<Header>, genesis: Header, h: Header) {
    h == genesis ||
      (h.number > 0 && h.parent.Of? && h.parent.header in headers && h.parent.header.number == h.number - 1)
  }

  lemma {:induction false} AncestorStored(headers: set<Header>, genesis: Header, h: Header, n: nat)
    requires Closed(headers, genesis) && h in headers && n <= h.number
    ensures Ancestor(h, n).Of? && Ancestor(h, n).header in headers && Ancestor(h, n).header.number == n
    decreases h
  {
    if n < h.number {
      assert Rooted(headers, genesis, h);
      AncestorStored(headers, genesis, h.parent.header, n);
    }
  }

  /** An ancestor of an ancestor is an ancestor. */
  lemma {:induction false} AncestorOfAncestor(headers: set<Header>, genesis: Header, h: Header, m: nat, n: nat)
    requires Closed(headers, genesis) && h in headers && n <= m <= h.number
    ensures Ancestor(h, m).Of? && Ancestor(Ancestor(h, m).header, n) == Ancestor(h, n)
    decreases h
  {
    if m < h.number {
      assert Rooted(headers, genesis, h);
      AncestorOfAncestor(headers, genesis, h.parent.header, m, n);
    }
  }

  /** A number-to-hash index that is the ancestor chain of a header, without a gap and
      with nothing above it. */
  ghost predicate Exact(index: map<nat, Header>, head: Header) {
    && (forall n: nat :: n in index <==> n <= head.number)
    && (forall n: nat :: n in index ==> Of(index[n]) == Ancestor(head, n))
  }

  /** Consecutive headers, each the parent of the next. */
  ghost predicate Linked(batch: seq<Header>) {
    forall i :: 0 < i < |batch| ==> batch[i].number == batch[i - 1].number + 1 && batch[i].parent == Of(batch[i - 1])
  }

  lemma {:induction false} LinkedNumbers(batch: seq<Header>, i: nat)
    requires Linked(batch) && i < |batch|
    ensures batch[i].number == batch[0].number + i
  {
    if i > 0 {
      LinkedNumbers(batch, i - 1);
    }
  }

  /** The ancestors of the last header of a batch: the batch itself, then the ancestors
      of the header it builds on. */
  lemma {:induction false} LinkedAncestors(batch: seq<Header>, i: nat, n: nat)
    requires Linked(batch) && i < |batch| && batch[0].parent.Of? && batch[0].parent.header.number + 1 == batch[0].number
    requires n <= batch[i].number
    ensures batch[i].number == batch[0].number + i
    ensures Ancestor(batch[i], n) ==
      if n < batch[0].number then Ancestor(batch[0].parent.header, n) else Of(batch[n - batch[0].number])
  {
    LinkedNumbers(batch, i);
    if n < batch[i].number && i > 0 {
      LinkedAncestors(batch, i - 1, n);
    }
  }
}
