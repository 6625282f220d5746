/** The header chain: stored headers with their total difficulties, the index of the
    canonical chain and the head header. */
module HeaderChains {
  import opened Headers
  import opened Transactions

  /** The difficulties of a header and of all its ancestors. */
  function Total(h: Header): nat {
    h.difficulty + if h.parent.Of? then Total(h.parent.header) else 0
  }

  ghost predicate Totalled(tds: map<Header, nat>) {
    forall h :: h in tds ==> tds[h] == Total(h)
  }

  datatype WriteStatus = NonStatTy | CanonStatTy | SideStatTy

  datatype WriteResult =
    | Written(status: WriteStatus, ignored: nat, imported: nat, last: Hash)
    | UnknownAncestor
    | Aborted

  /** Where the canonical chain ends up, given the branch that wins. */
  predicate Overtakes(total: nat, number: nat, headTotal: nat, headNumber: nat, coin: bool) {
    total > headTotal || (total == headTotal && (number < headNumber || (number == headNumber && coin)))
  }

  /** Known headers of a batch come first: a header is not stored without its parent. */
  lemma KnownFirst(headers: set<Header>, genesis: Header, batch: seq<Header>, i: nat, j: nat)
    requires Closed(headers, genesis) && Linked(batch) && i <= j < |batch| && batch[j] in headers
    ensures batch[i] in headers
    decreases j - i
  {
    if i < j {
      LinkedNumbers(batch, j);
      assert Rooted(headers, genesis, batch[j]);
      KnownFirst(headers, genesis, batch, i, j - 1);
    }
  }

  lemma UnknownAfter(headers: set<Header>, genesis: Header, batch: seq<Header>, first: nat)
    requires Closed(headers, genesis) && Linked(batch) && first < |batch| && batch[first] !in headers
    ensures forall i :: first <= i < |batch| ==> batch[i] !in headers
  {
    forall i: nat | first <= i < |batch| ensures batch[i] !in headers {
      if batch[i] in headers {
        KnownFirst(headers, genesis, batch, first, i);
      }
    }
  }

  /** The totals of some headers. */
  ghost predicate TotalsOf(tds: map<Header, nat>, hs: seq<Header>) {
    (forall h :: h in tds <==> h in hs) && Totalled(tds)
  }

  lemma TotalsNext(tds: map<Header, nat>, hs: seq<Header>, h: Header)
    requires TotalsOf(tds, hs)
    ensures TotalsOf(tds[h := Total(h)], hs + [h])
  {
  }

  /** The total of the header before the i-th of a batch. */
  function TotalBefore(batch: seq<Header>, i: nat): (td: nat)
    requires i <= |batch| && batch != [] && batch[0].parent.Of?
    ensures i == |batch| ==> td == Total(batch[|batch| - 1])
  {
    Total(if i == 0 then batch[0].parent.header else batch[i - 1])
  }

  lemma TotalNext(batch: seq<Header>, i: nat)
    requires Linked(batch) && i < |batch| && batch[0].parent.Of?
    ensures TotalBefore(batch, i + 1) == Total(batch[i]) == TotalBefore(batch, i) + batch[i].difficulty
  {
  }

  /** Adding a linked batch on top of a stored header. */
  lemma ClosedWith(headers: set<Header>, genesis: Header, batch: seq<Header>, first: nat)
    requires Closed(headers, genesis) && Linked(batch) && first <= |batch|
    requires forall i :: 0 <= i < first ==> batch[i] in headers
    requires batch != [] && batch[0].number > 0 && batch[0].parent.Of? && batch[0].parent.header in headers
    requires batch[0].parent.header.number == batch[0].number - 1
    ensures Closed(headers + (set h | h in batch[first..]), genesis)
  {
    var all := headers + (set h | h in batch[first..]);
    forall h | h in all ensures Rooted(all, genesis, h) {
      if h in headers {
        assert Rooted(headers, genesis, h);
      } else {
        var i: nat :| first <= i < |batch| && batch[i] == h;
        LinkedNumbers(batch, i);
        if i > 0 {
          assert batch[i].parent == Of(batch[i - 1]);
        }
        if i > first {
          assert batch[i - 1] == batch[first..][i - 1 - first];
        }
      }
    }
  }

  /** The index once the canonical chain ends in the last header of a batch: right up to
      its parent, and on from there. */
  lemma ExactJoined(before: map<nat, Header>, batch: seq<Header>, index: map<nat, Header>)
    requires batch != [] && Linked(batch)
    requires batch[0].parent.Of? && batch[0].parent.header.number + 1 == batch[0].number
    requires forall n: nat :: n < batch[0].number ==>
      n in before && Of(before[n]) == Ancestor(batch[0].parent.header, n)
    requires forall n: nat :: n in before ==> n <= batch[|batch| - 1].number
    requires Assigned(before, batch, index)
    ensures Exact(index, batch[|batch| - 1])
  {
    var first, last := batch[0].number, batch[|batch| - 1];
    LinkedNumbers(batch, |batch| - 1);
    forall n: nat ensures n in index <==> n <= last.number
                  ensures n in index ==> Of(index[n]) == Ancestor(last, n) {
      if first <= n <= last.number {
        LinkedNumbers(batch, n - first);
        LinkedAncestors(batch, |batch| - 1, n);
      } else {
        assert Agree(before, index, n);
        if n < first {
          LinkedAncestors(batch, |batch| - 1, n);
        }
      }
    }
  }

  /** Sorts out the headers of a batch from the first one on that is not stored, and
      their total difficulties. */
  method Sift(stored: set<Header>, parentTd: nat, batch: seq<Header>)
      returns (inserted: seq<Header>, firstInserted: int, td: nat, news: map<Header, nat>)
    requires batch != [] && Linked(batch) && batch[0].parent.Of? && parentTd == Total(batch[0].parent.header)
    ensures -1 <= firstInserted < |batch|
    ensures inserted == if firstInserted < 0 then [] else batch[firstInserted..]
    ensures 0 <= firstInserted ==> batch[firstInserted] !in stored
    ensures forall i :: 0 <= i < |batch| && (firstInserted < 0 || i < firstInserted) ==> batch[i] in stored
    ensures td == Total(batch[|batch| - 1])
    ensures TotalsOf(news, inserted)
  {
    td, inserted, firstInserted, news := parentTd, [], -1, map[];
    var parentKnown := true;
    ghost var known: nat := 0;
    var i: nat := 0;
    while i < |batch|
      invariant Sifting(stored, batch, i, known, inserted, firstInserted) && parentKnown == (known == i)
      invariant td == TotalBefore(batch, i) && TotalsOf(news, inserted)
    {
      var header := batch[i];
      TotalNext(batch, i);
      SiftNext(stored, batch, i, known, inserted, firstInserted);
      td := td + header.difficulty;
      var alreadyKnown := parentKnown && header in stored;
      if !alreadyKnown {
        TotalsNext(news, inserted, header);
        news := news[header := td];
        inserted := inserted + [header];
        if firstInserted < 0 {
          firstInserted := i;
        }
      } else {
        known := known + 1;
      }
      parentKnown := alreadyKnown;
      i := i + 1;
    }
    assert batch[known..i] == batch[known..];
  }

  /** The first headers of a batch are known, and the others up to `i` inserted. */
  ghost predicate Sifting(stored: set<Header>, batch: seq<Header>, i: nat, known: nat, inserted: seq<Header>,
                          firstInserted: int) {
    && known <= i <= |batch| && firstInserted == (if known == i then -1 else known)
    && (forall j :: 0 <= j < known ==> batch[j] in stored)
    && (known < i ==> batch[known] !in stored)
    && inserted == batch[known..i]
  }

  lemma SiftNext(stored: set<Header>, batch: seq<Header>, i: nat, known: nat, inserted: seq<Header>, firstInserted: int)
    requires i < |batch| && Sifting(stored, batch, i, known, inserted, firstInserted)
    ensures if known == i && batch[i] in stored then Sifting(stored, batch, i + 1, known + 1, inserted, firstInserted)
            else Sifting(stored, batch, i + 1, known, inserted + [batch[i]],
                         if firstInserted < 0 then i else firstInserted)
  {
    assert batch[known..i + 1] == batch[known..i] + [batch[i]];
  }

  lemma SiftedAll(headers: set<Header>, genesis: Header, batch: seq<Header>, inserted: seq<Header>, known: nat)
    requires Closed(headers, genesis) && batch != [] && Linked(batch) && batch[0].number > 0
    requires batch[0].parent.Of? && batch[0].parent.header in headers
    requires batch[0].parent.header.number == batch[0].number - 1
    requires known <= |batch| && inserted == batch[known..]
    requires known < |batch| ==> batch[known] !in headers
    requires forall i :: 0 <= i < known ==> batch[i] in headers
    ensures Closed(headers + (set h | h in inserted), genesis)
    ensures headers + (set h | h in inserted) == headers + (set h | h in batch)
    ensures forall i :: 0 <= i < |batch| ==> (batch[i] in headers <==> i < known)
  {
    ClosedWith(headers, genesis, batch, known);
    if known < |batch| {
      UnknownAfter(headers, genesis, batch, known);
    }
    forall h | h in batch ensures h in headers || h in inserted {
      var i: nat :| i < |batch| && batch[i] == h;
      assert i >= known ==> h == inserted[i - known];
    }
  }

  /** `index` is `before` with consecutive headers assigned to their numbers. */
  ghost predicate Assigned(before: map<nat, Header>, batch: seq<Header>, index: map<nat, Header>) {
    && (forall i :: 0 <= i < |batch| ==> batch[i].number in index && index[batch[i].number] == batch[i])
    && (forall n: nat :: (batch == [] || n < batch[0].number || batch[0].number + |batch| <= n) ==>
          Agree(before, index, n))
  }

  ghost predicate Agree(a: map<nat, Header>, b: map<nat, Header>, n: nat) {
    (n in a <==> n in b) && (n in a ==> a[n] == b[n])
  }

  lemma AgreeElsewhere(a: map<nat, Header>, b: map<nat, Header>, h: Header)
    ensures forall n: nat {:trigger Agree(a, b[h.number := h], n)} :: n != h.number && Agree(a, b, n) ==>
      Agree(a, b[h.number := h], n)
  {
  }

  lemma AssignedTwice(a: map<nat, Header>, b: map<nat, Header>, c: map<nat, Header>, batch: seq<Header>, k: nat)
    requires Linked(batch) && k < |batch|
    requires if k == 0 then b == a else Assigned(a, batch[..k], b)
    requires Assigned(b, batch[k..], c)
    ensures Assigned(a, batch, c)
  {
    LinkedNumbers(batch, k);
    forall i: nat | i < |batch| ensures batch[i].number in c && c[batch[i].number] == batch[i] {
      LinkedNumbers(batch, i);
      if i < k {
        assert batch[..k][i] == batch[i];
        assert Agree(b, c, batch[i].number);
      } else {
        assert batch[k..][i - k] == batch[i];
      }
    }
    forall n: nat | n < batch[0].number || batch[0].number + |batch| <= n ensures Agree(a, c, n) {
      assert Agree(b, c, n);
      assert k > 0 ==> Agree(a, b, n);
    }
  }

  /** New headers on top of the head: the index is right if no known ones come first. */
  lemma ExactPiled(canonical: map<nat, Header>, current: Header, batch: seq<Header>, firstInserted: int,
                   index: map<nat, Header>)
    requires Exact(canonical, current)
    requires batch != [] && Linked(batch) && batch[0].parent == Of(current) && batch[0].number == current.number + 1
    requires -1 <= firstInserted < |batch|
    requires Assigned(canonical, if firstInserted < 0 then [] else batch[firstInserted..], index)
    ensures Exact(index, batch[|batch| - 1]) <==> firstInserted == 0
  {
    var last := batch[|batch| - 1];
    LinkedNumbers(batch, |batch| - 1);
    if firstInserted == 0 {
      assert batch[0..] == batch;
      ExactJoined(canonical, batch, index);
    } else {
      if firstInserted > 0 {
        LinkedNumbers(batch, firstInserted);
      }
      assert Agree(canonical, index, batch[0].number);
    }
  }

  /** `head` is the lowest of a target and the floors of the ancestors of `start` from a
      number on. */
  ghost predicate Lowest(start: Header, from: nat, target: nat, floor: Header -> Option<nat>, head: nat) {
    && head <= target
    && (forall n: nat :: from <= n < start.number && FloorAt(start, n, floor).Some? ==>
          head <= FloorAt(start, n, floor).value)
    && (head == target || exists n: nat :: from <= n < start.number && FloorAt(start, n, floor) == Some(head))
  }

  ghost function FloorAt(start: Header, n: nat, floor: Header -> Option<nat>): Option<nat> {
    if Ancestor(start, n).Of? then floor(Ancestor(start, n).header) else None
  }

  lemma LowestNext(start: Header, from: nat, target: nat, floor: Header -> Option<nat>, head: nat, limit: Option<nat>)
    requires 0 < from <= start.number && Lowest(start, from, target, floor, head)
    requires limit == FloorAt(start, from - 1, floor)
    ensures Lowest(start, from - 1, target, floor, if limit.Some? && limit.value < head then limit.value else head)
  {
  }

  /** `nums` has the numbers above `n` of stored headers, and none below. */
  ghost predicate Above(headers: set<Header>, n: int, nums: set<nat>) {
    forall h :: h in headers ==> (h.number in nums <==> h.number > n)
  }

  lemma AboveNext(headers: set<Header>, n: nat, nums: set<nat>)
    requires Above(headers, n, nums)
    ensures Above(headers, n - 1, nums + {n})
  {
  }

  /** Following parent links of stored headers, one at a time. */
  function Walk(headers: set<Header>, hash: Hash, number: nat, k: nat): Hash
    requires k <= number
  {
    if k == 0 then hash
    else if hash.Of? && hash.header in headers && hash.header.number == number then
      Walk(headers, hash.header.parent, number - 1, k - 1)
    else Zero
  }

  lemma {:induction false} WalkAncestor(headers: set<Header>, genesis: Header, h: Header, k: nat)
    requires Closed(headers, genesis) && h in headers && k <= h.number
    ensures Walk(headers, Of(h), h.number, k) == Ancestor(h, h.number - k)
    decreases k
  {
    if k > 0 {
      assert Rooted(headers, genesis, h);
      WalkAncestor(headers, genesis, h.parent.header, k - 1);
    }
  }

  lemma {:induction false} WalkOn(headers: set<Header>, hash: Hash, number: nat, i: nat, j: nat)
    requires i + j <= number
    ensures Walk(headers, hash, number, i + j) == Walk(headers, Walk(headers, hash, number, i), number - i, j)
    decreases i
  {
    if i > 0 && hash.Of? && hash.header in headers && hash.header.number == number {
      WalkOn(headers, hash.header.parent, number - 1, i - 1, j);
    }
  }

  datatype Op =
    | Insert(batch: seq<Header>, interrupted: bool, coin: bool)
    | SetHead(target: nat, floor: Header -> Option<nat>)

  /** Cutting the index above an ancestor of the head makes it that ancestor's chain. */
  lemma CutExact(headers: set<Header>, genesis: Header, canonical: map<nat, Header>, start: Header, to: Header,
                 index: map<nat, Header>)
    requires Closed(headers, genesis) && start in headers && Exact(canonical, start)
    requires to.number <= start.number && Ancestor(start, to.number) == Of(to)
    requires index == map n | n in canonical && n <= to.number :: canonical[n]
    ensures Exact(index, to)
  {
    forall n: nat | n <= to.number ensures Ancestor(to, n) == Ancestor(start, n) {
      AncestorOfAncestor(headers, genesis, start, to.number, n);
    }
  }

  lemma CutClosed(headers: set<Header>, genesis: Header, doomed: set<nat>, n: nat)
    requires Closed(headers, genesis) && Above(headers, n, doomed)
    ensures Closed((set h | h in headers && h.number !in doomed), genesis)
  {
    var kept := set h | h in headers && h.number !in doomed;
    forall h | h in kept ensures Rooted(kept, genesis, h) {
      assert Rooted(headers, genesis, h);
    }
  }

  lemma LevelsOfIndex(headers: set<Header>, genesis: Header, canonical: map<nat, Header>, start: Header, n: nat)
    requires Closed(headers, genesis) && start in headers && Exact(canonical, start) && n in canonical
    ensures canonical[n] in headers && canonical[n].number == n
  {
    AncestorStored(headers, genesis, start, n);
  }

  class HeaderChain {
    const genesis: Header
    var headers: set<Header>
    var tds: map<Header, nat>
    var canonical: map<nat, Header>
    var current: Header

    /** What is stored is closed under parents, with the right total difficulties. */
    ghost predicate Stored()
      reads this
    {
      && Closed(headers, genesis) && genesis.parent == Zero
      && tds.Keys == headers && Totalled(tds)
      && current in headers
    }

    ghost predicate Valid()
      reads this
    {
      Stored() && Exact(canonical, current)
    }

    constructor (genesis: Header)
      requires genesis.number == 0 && genesis.parent == Zero
      ensures Valid() && this.genesis == genesis && headers == {genesis} && current == genesis
    {
      this.genesis := genesis;
      headers, tds := {genesis}, map[genesis := genesis.difficulty];
      canonical, current := map[0 := genesis], genesis;
    }

    /** The total difficulty of a stored header. */
    function GetTd(hash: Hash, number: nat): (td: int)
      requires tds.Keys == headers
      reads this
      ensures td >= 0 <==> hash.Of? && hash.header in headers && hash.header.number == number
    {
      if hash.Of? && hash.header in headers && hash.header.number == number then tds[hash.header] else -1
    }


    predicate IsCanonical(h: Header)
      reads this
    {
      h.number in canonical && canonical[h.number] == h
    }

    /** The batch builds on a stored header. */
    predicate Attached(batch: seq<Header>)
      requires batch != []
      reads this
    {
      && batch[0].number > 0 && batch[0].parent.Of? && batch[0].parent.header in headers
      && batch[0].parent.header.number == batch[0].number - 1
    }

    /** Drops the canonical assignments from a number on. */
    method ClearFrom(from: nat) returns (index: map<nat, Header>)
      requires Valid()
      ensures index == map n | n in canonical && n < from :: canonical[n]
    {
      index := canonical;
      var i := from;
      while i in canonical
        invariant from <= i && (i == from || i <= current.number + 1)
        invariant index == map n | n in canonical && !(from <= n < i) :: canonical[n]
        decreases current.number + 1 - i
      {
        index := index - {i};
        i := i + 1;
      }
    }

    /** Makes the index right up to a stored header, going back from it to the first
        ancestor that is canonical already. */
    method WalkBack(start: Header, before: map<nat, Header>) returns (index: map<nat, Header>)
      requires Valid() && start in headers
      requires forall n: nat :: n <= start.number ==> (n in before <==> n in canonical)
      requires forall n: nat :: n <= start.number && n in canonical ==> before[n] == canonical[n]
      ensures forall n: nat :: n <= start.number ==> n in index && Of(index[n]) == Ancestor(start, n)
      ensures forall n: nat :: n > start.number ==> Agree(before, index, n)
    {
      index := before;
      var h := start;
      while !(h.number in canonical && canonical[h.number] == h)
        invariant h in headers && h.number <= start.number && Ancestor(start, h.number) == Of(h)
        invariant forall n: nat :: h.number < n <= start.number ==> n in index && Of(index[n]) == Ancestor(start, n)
        invariant forall n: nat :: !(h.number < n <= start.number) ==> Agree(before, index, n)
        decreases h.number
      {
        NotGenesis(h);
        assert Rooted(headers, genesis, h);
        AncestorOfAncestor(headers, genesis, start, h.number, h.number - 1);
        AgreeElsewhere(before, index, h);
        index := index[h.number := h];
        h := h.parent.header;
      }
      forall n: nat | n <= h.number ensures n in index && Of(index[n]) == Ancestor(start, n) {
        assert Agree(before, index, n);
        AncestorOfAncestor(headers, genesis, start, h.number, n);
        AncestorOfAncestor(headers, genesis, current, h.number, n);
      }
    }

    lemma NotGenesis(h: Header)
      requires Valid() && h in headers && !(h.number in canonical && canonical[h.number] == h)
      ensures h != genesis
    {
      AncestorStored(headers, genesis, current, 0);
      assert Rooted(headers, genesis, canonical[0]);
    }

    /** Where no header of a winning batch is new, none gets assigned: the index is right
        just when they were canonical before. */
    lemma KnownExact(batch: seq<Header>, index: map<nat, Header>)
      requires Valid() && batch != [] && Linked(batch) && Attached(batch)
      requires forall n: nat :: n < batch[0].number ==>
        n in index && Of(index[n]) == Ancestor(batch[0].parent.header, n)
      requires forall n: nat :: batch[0].number <= n <= batch[|batch| - 1].number ==> Agree(canonical, index, n)
      requires forall n: nat :: n in index ==> n <= batch[|batch| - 1].number
      ensures Exact(index, batch[|batch| - 1]) <==> IsCanonical(batch[|batch| - 1])
    {
      var last := batch[|batch| - 1];
      LinkedNumbers(batch, |batch| - 1);
      assert Agree(canonical, index, last.number);
      if IsCanonical(last) {
        forall n: nat | n <= last.number ensures n in index && Of(index[n]) == Ancestor(last, n) {
          AncestorOfAncestor(headers, genesis, current, last.number, n);
          if n < batch[0].number {
            LinkedAncestors(batch, |batch| - 1, n);
          } else {
            assert Agree(canonical, index, n);
          }
        }
      } else {
        assert last.number in index ==> index[last.number] != last;
      }
    }

    /** The index for a winning batch. It comes out right just when every header of the
        batch gets assigned: where the batch extends the head only the new headers are,
        elsewhere all of them are unless there is none new. */
    method NewIndex(batch: seq<Header>, inserted: seq<Header>, firstInserted: int) returns (index: map<nat, Header>)
      requires Valid() && batch != [] && Linked(batch) && Attached(batch)
      requires -1 <= firstInserted < |batch|
      requires inserted == if firstInserted < 0 then [] else batch[firstInserted..]
      ensures Exact(index, batch[|batch| - 1]) <==>
        if batch[0].parent == Of(current) then firstInserted == 0
        else firstInserted >= 0 || IsCanonical(batch[|batch| - 1])
    {
      var last := batch[|batch| - 1];
      if batch[0].parent == Of(current) {
        index := Assign(canonical, inserted);
        ExactPiled(canonical, current, batch, firstInserted, index);
      } else {
        index := Rewound(batch);
        if firstInserted < 0 {
          KnownExact(batch, index);
        } else {
          ghost var rewound := index;
          if firstInserted > 0 {
            index := Assign(index, batch[..firstInserted]);
          }
          ghost var halfway := index;
          index := Assign(index, inserted);
          AssignedTwice(rewound, halfway, index, batch, firstInserted);
          ExactJoined(rewound, batch, index);
        }
      }
    }

    /** Drops what is above a batch and makes the index right up to where it builds on. */
    method Rewound(batch: seq<Header>) returns (index: map<nat, Header>)
      requires Valid() && batch != [] && Linked(batch) && Attached(batch)
      ensures forall n: nat :: n < batch[0].number ==> n in index && Of(index[n]) == Ancestor(batch[0].parent.header, n)
      ensures forall n: nat :: batch[0].number <= n <= batch[|batch| - 1].number ==> Agree(canonical, index, n)
      ensures forall n: nat :: n in index ==> n <= batch[|batch| - 1].number
    {
      LinkedNumbers(batch, |batch| - 1);
      var cleared := ClearFrom(batch[|batch| - 1].number + 1);
      index := WalkBack(batch[0].parent.header, cleared);
      forall n: nat | batch[0].number <= n <= batch[|batch| - 1].number ensures Agree(canonical, index, n) {
        assert Agree(cleared, index, n);
      }
      forall n: nat | n in index ensures n <= batch[|batch| - 1].number {
        assert n >= batch[0].number ==> Agree(cleared, index, n);
      }
    }

    /** Whether every header of a batch gets assigned in the index should it win. */
    predicate Covered(batch: seq<Header>)
      requires batch != []
      reads this
    {
      var last := batch[|batch| - 1];
      if batch[0].parent == Of(current) then batch[0] !in headers else last !in headers || IsCanonical(last)
    }

    /** Whether a batch takes the canonical chain over. */
    predicate Wins(batch: seq<Header>, coin: bool)
      requires batch != []
      reads this
    {
      var last := batch[|batch| - 1];
      Overtakes(Total(last), last.number, Total(current), current.number, coin)
    }

    method Commit(inserted: seq<Header>, news: map<Header, nat>)
      requires Stored() && TotalsOf(news, inserted)
      requires Closed(headers + (set h | h in inserted), genesis)
      modifies this`headers, this`tds
      ensures Stored() && headers == old(headers) + (set h | h in inserted)
    {
      headers := headers + set h | h in inserted;
      tds := tds + news;
    }

    /** Stores the new headers of a batch and moves the head there if it wins. The stored
        headers stay closed under parents and correctly totalled in any case; the index
        stays exact just when the batch loses or is covered. */
    method WriteHeaders(batch: seq<Header>, interrupted: bool, coin: bool) returns (r: WriteResult)
      requires Valid() && Linked(batch)
      modifies this
      ensures Stored()
      ensures r.UnknownAncestor? <==> batch != [] && !old(Attached(batch))
      ensures r.Aborted? <==> batch != [] && old(Attached(batch)) && interrupted
      ensures !r.Written? || batch == [] ==>
        headers == old(headers) && tds == old(tds) && canonical == old(canonical) && current == old(current)
      ensures batch == [] ==> r == Written(NonStatTy, 0, 0, Zero)
      ensures r.Written? && batch != [] ==>
        && headers == old(headers) + (set h | h in batch)
        && current == (if old(Wins(batch, coin)) then batch[|batch| - 1] else old(current))
        && (!old(Wins(batch, coin)) ==> canonical == old(canonical))
        && (Exact(canonical, current) <==> !old(Wins(batch, coin)) || old(Covered(batch)))
        && r.last == Of(batch[|batch| - 1]) && r.ignored + r.imported == |batch|
        && (forall i :: 0 <= i < |batch| ==> (batch[i] in old(headers) <==> i < r.ignored))
        && (r.status ==
              if r.imported == 0 then NonStatTy else if old(Wins(batch, coin)) then CanonStatTy else SideStatTy)
    {
      if batch == [] {
        return Written(NonStatTy, 0, 0, Zero);
      }
      if batch[0].number == 0 || GetTd(batch[0].parent, batch[0].number - 1) < 0 {
        return UnknownAncestor;
      }
      var inserted, firstInserted, td, news := Sift(headers, GetTd(batch[0].parent, batch[0].number - 1), batch);
      if interrupted {
        return Aborted;
      }
      var last := batch[|batch| - 1];
      ghost var known: nat := if firstInserted < 0 then |batch| else firstInserted;
      SiftedAll(headers, genesis, batch, inserted, known);
      Commit(inserted, news);
      var status := SideStatTy;
      if Overtakes(td, last.number, tds[current], current.number, coin) {
        canonical := NewIndex(batch, inserted, firstInserted);
        current := last;
        status := CanonStatTy;
      }
      if inserted == [] {
        status := NonStatTy;
      }
      return Written(status, |batch| - |inserted|, |inserted|, Of(last));
    }

    /** The numbers above a given one at which headers are stored. Without a gap, they are
        found by counting up to the first number without any. */
    method Leftovers(num: nat) returns (nums: set<nat>)
      requires Closed(headers, genesis)
      ensures Above(headers, num, nums)
    {
      nums := {};
      var n := num + 1;
      ghost var levels := set h | h in headers :: h.number;
      while exists h :: h in headers && h.number == n
        invariant num < n && forall k: nat :: k in nums <==> num < k < n
        invariant nums <= levels
        decreases levels - nums
      {
        nums := nums + {n};
        n := n + 1;
      }
      forall h | h in headers && num < h.number ensures h.number in nums {
        if n <= h.number {
          AncestorStored(headers, genesis, h, n);
        }
      }
    }

    /** Moves the head marker back header by header and collects the numbers to forget. */
    method Rewind(target: nat, floor: Header -> Option<nat>) returns (doomed: set<nat>)
      requires Valid()
      modifies this`current
      ensures current in headers && current.number <= old(current).number
      ensures Ancestor(old(current), current.number) == Of(current)
      ensures old(current).number <= target ==> current == old(current) && doomed == {}
      ensures old(current).number > target ==> Lowest(old(current), current.number, target, floor, current.number)
      ensures old(current).number > target ==> Above(headers, current.number, doomed)
    {
      var head: nat := target;
      doomed := {};
      var origin := true;
      while current.number > head
        invariant current in headers && current.number <= old(current).number
        invariant Ancestor(old(current), current.number) == Of(current)
        invariant Lowest(old(current), current.number, target, floor, head)
        invariant origin ==> current == old(current) && head == target && doomed == {}
        invariant !origin ==> head <= current.number && old(current).number > target
        invariant !origin ==> Above(headers, current.number, doomed)
        decreases current.number
      {
        assert Rooted(headers, genesis, current);
        var num := current.number;
        var parent := current.parent.header;
        var limit := floor(parent);
        AncestorOfAncestor(headers, genesis, old(current), num, num - 1);
        LowestNext(old(current), num, target, floor, head, limit);
        if limit.Some? && limit.value < head {
          head := limit.value;
        }
        current := parent;
        if origin {
          doomed := Leftovers(num);
          origin := false;
        }
        AboveNext(headers, num, doomed);
        doomed := doomed + {num};
      }
    }

    /** Moves the head back to a number, or further where the floor reported for a new
        head is lower, and forgets everything above it. */
    method SetHead(target: nat, floor: Header -> Option<nat>)
      requires Valid()
      modifies this
      ensures Valid() && Ancestor(old(current), current.number) == Of(current)
      ensures old(current).number <= target ==>
        headers == old(headers) && current == old(current) && canonical == old(canonical)
      ensures old(current).number > target ==> headers == set h | h in old(headers) && h.number <= current.number
      ensures old(current).number > target ==> Lowest(old(current), current.number, target, floor, current.number)
    {
      var doomed := Rewind(target, floor);
      if doomed != {} {
        forall n: nat | n in canonical ensures n in doomed <==> n > current.number {
          LevelsOfIndex(headers, genesis, canonical, old(current), n);
        }
        CutExact(headers, genesis, canonical, old(current), current, canonical - doomed);
        CutClosed(headers, genesis, doomed, current.number);
        headers := set h | h in headers && h.number !in doomed;
        tds := map h | h in tds && h.number !in doomed :: tds[h];
        canonical := canonical - doomed;
      }
    }

    function CanonicalHash(number: nat): Hash
      reads this
    {
      if number in canonical then Of(canonical[number]) else Zero
    }

    /** Whether the canonical chain, or the ancestor itself, is met within a number of steps. */
    ghost predicate Reaches(hash: Hash, number: nat, ancestor: nat, steps: nat)
      requires ancestor <= number
      reads this
    {
      exists j: nat :: j <= steps && j <= ancestor && Meets(hash, number, ancestor, j)
    }

    ghost predicate Meets(hash: Hash, number: nat, ancestor: nat, j: nat)
      requires j <= ancestor <= number
      reads this
    {
      j == ancestor || CanonicalHash(number - j) == Walk(headers, hash, number, j)
    }

    ghost predicate MeetsNone(hash: Hash, number: nat, ancestor: nat, j: nat)
      requires j <= ancestor <= number
      reads this
    {
      forall i: nat :: i < j ==> !Meets(hash, number, ancestor, i)
    }

    ghost predicate MeetsFirst(hash: Hash, number: nat, ancestor: nat, j: int)
      requires ancestor <= number
      reads this
    {
      0 <= j <= ancestor && Meets(hash, number, ancestor, j) && MeetsNone(hash, number, ancestor, j)
    }

    /** A canonical header and its ancestors are what the index says. */
    lemma CanonicalWalk(hash: Hash, number: nat, k: nat)
      requires Valid() && k <= number && hash.Of? && CanonicalHash(number) == hash
      ensures Walk(headers, hash, number, k) == CanonicalHash(number - k) != Zero
    {
      LevelsOfIndex(headers, genesis, canonical, current, number);
      WalkAncestor(headers, genesis, hash.header, k);
      AncestorOfAncestor(headers, genesis, current, number, number - k);
    }

    /** Meeting the canonical chain decides the outcome of a walk. */
    lemma MeetingDecides(hash: Hash, number: nat, ancestor: nat, i: nat, h: Hash)
      requires Valid() && i < ancestor <= number && h == Walk(headers, hash, number, i) == CanonicalHash(number - i)
      requires h.Of?
      ensures Walk(headers, hash, number, ancestor) == CanonicalHash(number - ancestor) != Zero
    {
      WalkOn(headers, hash, number, i, ancestor - i);
      CanonicalWalk(h, number - i, ancestor - i);
    }

    predicate IsStored(hash: Hash, number: nat)
      reads this
    {
      hash.Of? && hash.header in headers && hash.header.number == number
    }

    /** Walks up until the canonical chain or the ancestor is met, or the walk must end. */
    method Climb(hash: Hash, number: nat, ancestor: nat, maxNonCanonical: nat) returns (h: Hash, i: nat)
      requires Valid() && ancestor <= number
      ensures i <= ancestor && i <= maxNonCanonical && h == Walk(headers, hash, number, i) && (i > 0 ==> h.Of?)
      ensures MeetsNone(hash, number, ancestor, i)
      ensures Meets(hash, number, ancestor, i) || i == maxNonCanonical || !IsStored(h, number - i)
    {
      h, i := hash, 0;
      while i < ancestor && CanonicalHash(number - i) != h && i < maxNonCanonical && IsStored(h, number - i)
        invariant i <= ancestor && i <= maxNonCanonical
        invariant h == Walk(headers, hash, number, i) && (i > 0 ==> h.Of?)
        invariant MeetsNone(hash, number, ancestor, i)
      {
        assert !Meets(hash, number, ancestor, i);
        WalkOn(headers, hash, number, i, 1);
        assert Rooted(headers, genesis, h.header);
        h := h.header.parent;
        i := i + 1;
      }
    }

    /** A walk that ends without having met the canonical chain finds nothing. */
    lemma EndsEmpty(hash: Hash, number: nat, ancestor: nat, steps: nat, i: nat, h: Hash)
      requires i < ancestor <= number && i <= steps && h == Walk(headers, hash, number, i)
      requires MeetsNone(hash, number, ancestor, i) && !Meets(hash, number, ancestor, i)
      requires i == steps || !IsStored(h, number - i)
      ensures !Reaches(hash, number, ancestor, steps) || Walk(headers, hash, number, ancestor) == Zero
    {
      WalkOn(headers, hash, number, i, ancestor - i);
    }

    /** The ancestor a number of steps up, found with a jump along the index once the walk
        meets the canonical chain: the same as following the parent links step by step, or
        the zero hash where the chain is not met within the allowed steps. A zero hash
        above the head is the exception: there it counts as canonical. */
    method GetAncestor(hash: Hash, number: nat, ancestor: nat, maxNonCanonical: nat)
        returns (found: Hash, at: nat, left: nat)
      requires Valid()
      ensures ancestor > number ==> found == Zero && at == 0
      ensures ancestor <= number && (hash.Of? || number <= current.number || ancestor < 2) ==>
        && found == (if ancestor == 1 || Reaches(hash, number, ancestor, maxNonCanonical)
              then Walk(headers, hash, number, ancestor) else Zero)
        && at == (if found.Of? || ancestor == 0 then number - ancestor else 0)
      ensures 2 <= ancestor <= number && hash.Zero? && number > current.number ==>
        found == CanonicalHash(number - ancestor) && at == number - ancestor
      ensures left <= maxNonCanonical
      ensures 2 <= ancestor <= number && found.Of? && hash.Of? ==>
        MeetsFirst(hash, number, ancestor, maxNonCanonical - left)
    {
      left := maxNonCanonical;
      if ancestor > number {
        return Zero, 0, left;
      }
      if ancestor == 1 {
        if hash.Of? && hash.header in headers && hash.header.number == number {
          assert Rooted(headers, genesis, hash.header);
          return hash.header.parent, number - 1, left;
        }
        return Zero, 0, left;
      }
      var h, i := Climb(hash, number, ancestor, maxNonCanonical);
      left := maxNonCanonical - i;
      if i == ancestor {
        assert Meets(hash, number, ancestor, ancestor);
        return h, number - ancestor, left;
      } else if CanonicalHash(number - i) == h {
        assert Meets(hash, number, ancestor, i);
        if h.Of? {
          MeetingDecides(hash, number, ancestor, i, h);
        }
        return CanonicalHash(number - ancestor), number - ancestor, left;
      }
      EndsEmpty(hash, number, ancestor, maxNonCanonical, i, h);
      return Zero, 0, if left == 0 then 0 else left - 1;
    }

    /** Any run of insertions and rewinds keeps the whole chain right as long as the
        batches that win are covered. */
    method Run(ops: seq<Op>) returns (done: nat)
      requires Valid() && forall i :: 0 <= i < |ops| && ops[i].Insert? ==> Linked(ops[i].batch)
      modifies this
      ensures Valid() && done <= |ops|
      ensures done < |ops| ==>
        ops[done].Insert? && ops[done].batch != [] && Wins(ops[done].batch, ops[done].coin) && !Covered(ops[done].batch)
    {
      done := 0;
      while done < |ops|
        invariant done <= |ops| && Valid()
      {
        match ops[done] {
          case Insert(batch, interrupted, coin) =>
            if batch != [] && Wins(batch, coin) && !Covered(batch) {
              return;
            }
            var _ := WriteHeaders(batch, interrupted, coin);
          case SetHead(target, floor) =>
            SetHead(target, floor);
        }
        done := done + 1;
      }
    }
  }

  /** Assigns consecutive headers to their numbers. */
  method Assign(before: map<nat, Header>, batch: seq<Header>) returns (index: map<nat, Header>)
    requires Linked(batch)
    ensures Assigned(before, batch, index)
  {
    index := before;
    var k: nat := 0;
    while k < |batch|
      invariant k <= |batch|
      invariant forall i :: 0 <= i < k ==> batch[i].number in index && index[batch[i].number] == batch[i]
      invariant forall n: nat :: (k == 0 || n < batch[0].number || batch[0].number + k <= n) ==>
          Agree(before, index, n)
    {
      LinkedNumbers(batch, k);
      forall i: nat | i < k ensures batch[i].number < batch[k].number {
        LinkedNumbers(batch, i);
      }
      AgreeElsewhere(before, index, batch[k]);
      index := index[batch[k].number := batch[k]];
      k := k + 1;
    }
  }

  /** Sending a stored header of the same number and weight as the head once more, where it
      wins the toss, moves the head to it but not the index. */
  method SendAgain(chain: HeaderChain, rival: Header)
    requires chain.Valid() && rival in chain.headers && rival != chain.current && chain.Attached([rival])
    requires rival.number == chain.current.number && Total(rival) == Total(chain.current)
    modifies chain
    ensures chain.Stored() && chain.current == rival && !Exact(chain.canonical, chain.current)
  {
    assert Of(chain.canonical[rival.number]) == Ancestor(chain.current, rival.number) == Of(chain.current);
    var _ := chain.WriteHeaders([rival], false, true);
  }

  /** Two headers of equal weight compete for the first number. The second one loses the
      toss, is sent again and wins. */
  method UncoveredBatch() returns (chain: HeaderChain)
    ensures chain.Stored() && !Exact(chain.canonical, chain.current)
  {
    var genesis := Header(Zero, 0, 1, 0);
    var first, second := Header(Of(genesis), 1, 1, 0), Header(Of(genesis), 1, 1, 1);
    chain := new HeaderChain(genesis);
    assert Total(first) == 2 == Total(second);
    var _ := chain.WriteHeaders([first], false, false);
    var _ := chain.WriteHeaders([second], false, false);
    SendAgain(chain, second);
  }

  /** Asked for the third ancestor of a zero hash above the head, the chain answers with its
      first header, which no parent link leads to. */
  method ZeroHashAncestor() returns (chain: HeaderChain, found: Hash)
    ensures chain.Valid() && Walk(chain.headers, Zero, 3, 3) == Zero && found == Of(chain.genesis)
  {
    chain := new HeaderChain(Header(Zero, 0, 1, 0));
    var at, left;
    found, at, left := chain.GetAncestor(Zero, 3, 3, 10);
    assert Ancestor(chain.current, 0) == Of(chain.genesis);
  }
}
