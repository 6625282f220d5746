/** The chain indexer: it post-processes the canonical chain section by section, while
    the chain may move under it whenever its lock is released. */
module ChainIndexers {
  import opened Headers
  import opened Transactions

  /** A header whose parent links lead down to a first header of number zero. */
  ghost predicate Grounded(h: Header) {
    if h.number == 0 then h.parent == Zero
    else h.parent.Of? && h.parent.header.number == h.number - 1 && Grounded(h.parent.header)
  }

  /** The hash a number of parent links above another. */
  function LinksUp(hash: Hash, k: nat): Hash {
    if k == 0 || hash.Zero? then hash else LinksUp(hash.header.parent, k - 1)
  }

  lemma {:induction false} GroundedAncestor(h: Header, n: nat)
    requires Grounded(h)
    ensures n > h.number ==> Ancestor(h, n) == Zero
    ensures n <= h.number ==> Ancestor(h, n).Of? && Ancestor(h, n).header.number == n && Grounded(Ancestor(h, n).header)
  {
    if h.number != n && h.number > 0 {
      GroundedAncestor(h.parent.header, n);
    }
  }

  /** Going a number of links up from an ancestor leads to the ancestor at that number;
      from the first section to the zero hash. */
  lemma {:induction false} LinksUpAncestor(h: Header, n: nat, k: nat)
    requires Grounded(h) && n <= h.number && k <= n + 1
    ensures LinksUp(Ancestor(h, n), k) == if k == n + 1 then Zero else Ancestor(h, n - k)
    decreases h, k
  {
    GroundedAncestor(h, n);
    if n < h.number {
      LinksUpAncestor(h.parent.header, n, k);
    } else if k > 0 && h.number > 0 {
      LinksUpAncestor(h.parent.header, n - 1, k - 1);
    }
  }

  /** The number of the last block of a section. */
  function LastNumber(size: nat, section: nat): int {
    (section + 1) * size - 1
  }

  function HeadIn(heads: map<nat, Hash>, section: int): Hash {
    if section >= 0 && section in heads then heads[section] else Zero
  }

  /** A section head is one section's worth of parent links above the one before. */
  ghost predicate Follows(heads: map<nat, Hash>, size: nat, section: nat) {
    && section in heads && heads[section].Of?
    && heads[section].header.number == LastNumber(size, section)
    && LinksUp(heads[section], size) == HeadIn(heads, section - 1)
  }

  /** A section being processed with the lock released: its number, the head of the
      section before, and whether the backend has refused it. */
  datatype Pending = Pending(section: nat, oldHead: Hash, refused: bool)

  /** What happens while a section is processed: the heads of the chain at the time each
      of its headers is read, and the failures of the backend. */
  datatype Work = Work(chain: seq<Header>, processFails: nat -> bool, commitFails: bool)

  class ChainIndexer {
    const sectionSize: nat
    const confirmsReq: nat
    const checkpointSections: nat
    const checkpointHead: Hash
    var storedSections: nat
    var knownSections: nat
    var cascadedHead: nat
    var sectionHeads: map<nat, Hash>
    var chainHead: Header
    var pending: Option<Pending>
    ghost var base: nat

    function SectionHead(section: int): Hash
      reads this
    {
      HeadIn(sectionHeads, section)
    }

    function CanonicalHash(number: nat): Hash
      reads this
    {
      Ancestor(chainHead, number)
    }

    /** The number of the last block of a section. */
    function LastOf(section: nat): int {
      LastNumber(sectionSize, section)
    }

    function FirstOf(section: nat): nat {
      section * sectionSize
    }

    /** All sections from `base` on are linked. The base is the checkpoint, or zero once a
        failed reset has thrown the checkpoint away. */
    ghost predicate Valid()
      reads this
    {
      && sectionSize > 0 && Grounded(chainHead)
      && (base == 0 || base == checkpointSections) && base <= storedSections
      && (base > 0 ==> SectionHead(base - 1) == checkpointHead && checkpointHead.Of?)
      && (forall s :: s in sectionHeads ==> s < storedSections)
      && (forall s: nat :: base <= s < storedSections ==> Follows(sectionHeads, sectionSize, s))
      && (pending.Some? ==> storedSections <= pending.value.section)
      && (pending.Some? && !pending.value.refused ==> (pending.value.section > 0 <==> pending.value.oldHead.Of?))
    }

    /** Starts without an index, or with a checkpoint for the sections below it. */
    constructor (sectionSize: nat, confirmsReq: nat, checkpointSections: nat, checkpointHead: Hash, chainHead: Header)
      requires sectionSize > 0 && Grounded(chainHead) && (checkpointSections > 0 ==> checkpointHead.Of?)
      ensures Valid() && storedSections == checkpointSections && knownSections == 0 && pending == None
      ensures this.sectionSize == sectionSize && this.confirmsReq == confirmsReq && this.chainHead == chainHead
      ensures this.checkpointSections == checkpointSections && this.checkpointHead == checkpointHead
    {
      this.sectionSize, this.confirmsReq := sectionSize, confirmsReq;
      this.checkpointSections, this.checkpointHead := checkpointSections, checkpointHead;
      storedSections, knownSections, cascadedHead := checkpointSections, 0, 0;
      sectionHeads := if checkpointSections > 0 then map[checkpointSections - 1 := checkpointHead] else map[];
      this.chainHead, pending, base := chainHead, None, checkpointSections;
    }

    /** The canonical chain moves to any other head. */
    method MoveChain(head: Header)
      requires Valid() && Grounded(head)
      modifies this`chainHead
      ensures Valid() && chainHead == head
    {
      chainHead := head;
    }

    method SetValidSections(sections: nat)
      modifies this`storedSections, this`sectionHeads
      ensures storedSections == sections
      ensures sectionHeads ==
        map s | s in old(sectionHeads) && !(sections <= s < old(storedSections)) :: old(sectionHeads)[s]
    {
      while storedSections > sections
        invariant storedSections <= old(storedSections)
        invariant storedSections < old(storedSections) ==> sections <= storedSections
        invariant sectionHeads ==
          map s | s in old(sectionHeads) && !(storedSections <= s < old(storedSections)) :: old(sectionHeads)[s]
      {
        storedSections := storedSections - 1;
        sectionHeads := sectionHeads - {storedSections};
      }
      storedSections := sections;
    }

    /** Forgets the sections from a number on; below the checkpoint that means all of it. */
    method Shrink(sections: nat)
      requires Valid() && sections <= storedSections && (sections == 0 || base <= sections)
      modifies this`storedSections, this`sectionHeads, this`base
      ensures Valid() && storedSections == sections
      ensures base == if sections == 0 then 0 else old(base)
      ensures sectionHeads == map s | s in old(sectionHeads) && s < sections :: old(sectionHeads)[s]
    {
      SetValidSections(sections);
      if sections == 0 {
        base := 0;
      }
      forall s: nat | base <= s < sections ensures Follows(sectionHeads, sectionSize, s) {
        assert Follows(old(sectionHeads), sectionSize, s);
      }
    }

    /** Drops the last sections until the head of the last one is canonical. */
    method VerifyLastHead()
      requires Valid()
      modifies this`storedSections, this`sectionHeads, this`base
      ensures Valid() && storedSections <= old(storedSections)
      ensures old(base) == 0 ==> base == 0
      ensures sectionHeads == map s | s in old(sectionHeads) && s < storedSections :: old(sectionHeads)[s]
      ensures storedSections > checkpointSections ==>
        SectionHead(storedSections - 1) == CanonicalHash(LastOf(storedSections - 1))
      ensures forall s: nat :: storedSections <= s < old(storedSections) ==>
        old(SectionHead(s) != CanonicalHash(LastOf(s)))
      ensures old(storedSections) <= checkpointSections ==> storedSections == old(storedSections)
      ensures old(storedSections) > checkpointSections ==> storedSections >= checkpointSections
    {
      while storedSections > 0 && storedSections > checkpointSections
        invariant Valid() && storedSections <= old(storedSections) && (old(base) == 0 ==> base == 0)
        invariant sectionHeads == map s | s in old(sectionHeads) && s < storedSections :: old(sectionHeads)[s]
        invariant forall s: nat :: storedSections <= s < old(storedSections) ==>
          old(SectionHead(s) != CanonicalHash(LastOf(s)))
        invariant old(storedSections) <= checkpointSections ==> storedSections == old(storedSections)
        invariant old(storedSections) > checkpointSections ==> storedSections >= checkpointSections
      {
        if SectionHead(storedSections - 1) == CanonicalHash(LastOf(storedSections - 1)) {
          return;
        }
        Shrink(storedSections - 1);
      }
    }

    /** One comparison settles it: where the head of the last section is canonical, so are
        the heads of all sections from the base on. */
    lemma {:induction false} AllCanonical(s: nat)
      requires Valid() && base <= s < storedSections
      requires SectionHead(storedSections - 1) == CanonicalHash(LastOf(storedSections - 1))
      ensures SectionHead(s) == CanonicalHash(LastOf(s)) != Zero
      decreases storedSections - s
    {
      assert Follows(sectionHeads, sectionSize, s);
      if s + 1 < storedSections {
        AllCanonical(s + 1);
        assert Follows(sectionHeads, sectionSize, s + 1);
        GroundedAncestor(chainHead, LastOf(s + 1));
        LinksUpAncestor(chainHead, LastOf(s + 1), sectionSize);
      }
    }

    ghost predicate IsCanonical(section: nat)
      requires sectionSize > 0
      reads this
    {
      SectionHead(section) == CanonicalHash(LastOf(section))
    }

    /** The last head decides on all sections from the base on. */
    lemma LastDecides()
      requires Valid()
      ensures (forall s: nat :: base <= s < storedSections ==> IsCanonical(s)) <==>
        (storedSections == base || IsCanonical(storedSections - 1))
    {
      if base < storedSections && IsCanonical(storedSections - 1) {
        forall s: nat | base <= s < storedSections ensures IsCanonical(s) {
          AllCanonical(s);
        }
      }
    }

    /** The number of stored sections and the head of the last one. The sections from the base
        on are canonical if there are more than below the checkpoint, since the last one has
        been verified then. Otherwise it has not: where a failed reset has thrown the checkpoint
        away, they are canonical exactly if the head that is returned happens to be. */
    method Sections() returns (sections: nat, head: Hash)
      requires Valid()
      modifies this`storedSections, this`sectionHeads, this`base
      ensures Valid() && sections == storedSections && head == SectionHead(sections - 1)
      ensures (forall s: nat :: base <= s < sections ==> IsCanonical(s)) <==>
        sections > checkpointSections || sections == base || head == CanonicalHash(LastOf(sections - 1))
      ensures old(storedSections) <= checkpointSections ==>
        sections == old(storedSections) && head == old(SectionHead(storedSections - 1))
      ensures old(base) == 0 ==> base == 0
    {
      VerifyLastHead();
      sections, head := storedSections, SectionHead(storedSections - 1);
      LastDecides();
    }

    /** Takes back all sections but a number of complete ones; the sections below the
        checkpoint stay stored, but are known only if it is. */
    method TakeBack(complete: nat)
      requires Valid()
      modifies this`knownSections, this`storedSections, this`sectionHeads, this`cascadedHead, this`base
      ensures Valid() && (old(base) == 0 ==> base == 0)
      ensures knownSections == Min(old(knownSections), if complete < checkpointSections then 0 else complete)
      ensures storedSections == Min(old(storedSections), Max(complete, checkpointSections))
      ensures sectionHeads == map s | s in old(sectionHeads) && s < storedSections :: old(sectionHeads)[s]
      ensures cascadedHead == Min(old(cascadedHead), FirstOf(if complete < checkpointSections then 0 else complete))
    {
      var known, stored := complete, complete;
      if known < checkpointSections {
        known := 0;
      }
      if stored < checkpointSections {
        stored := checkpointSections;
      }
      if known < knownSections {
        knownSections := known;
      }
      if stored < storedSections {
        Shrink(stored);
      }
      CascadeBack(FirstOf(known));
    }

    method CascadeBack(head: nat)
      requires Valid()
      modifies this`cascadedHead
      ensures Valid() && cascadedHead == Min(old(cascadedHead), head)
    {
      if head < cascadedHead {
        cascadedHead := head;
      }
    }

    /** A new chain head, or the common ancestor of a reorganisation, which takes back all
        sections that are not complete below it. */
    method NewHead(head: nat, reorg: bool)
      requires Valid()
      modifies this`knownSections, this`storedSections, this`sectionHeads, this`cascadedHead, this`base
      ensures Valid() && (old(base) == 0 ==> base == 0)
      ensures reorg ==>
        && storedSections == Min(old(storedSections), Max((head + 1) / sectionSize, checkpointSections))
        && sectionHeads == (map s | s in old(sectionHeads) && s < storedSections :: old(sectionHeads)[s])
        && knownSections == Min(old(knownSections),
            if (head + 1) / sectionSize < checkpointSections then 0 else (head + 1) / sectionSize)
      ensures !reorg ==>
        && storedSections == old(storedSections) && sectionHeads == old(sectionHeads)
        && cascadedHead == old(cascadedHead)
        && knownSections == if old(Advances(head)) then Confirmed(head) else old(knownSections)
    {
      if reorg {
        TakeBack((head + 1) / sectionSize);
        return;
      }
      if head >= confirmsReq {
        var sections := (head + 1 - confirmsReq) / sectionSize;
        if sections < checkpointSections {
          sections := 0;
        }
        if sections > knownSections {
          if knownSections < checkpointSections {
            if CanonicalHash(checkpointSections * sectionSize - 1) != checkpointHead {
              return;
            }
          }
          knownSections := sections;
        }
      }
    }

    /** The complete sections below a head that has enough confirmations. */
    function Confirmed(head: nat): nat
      requires sectionSize > 0
    {
      if head < confirmsReq || (head + 1 - confirmsReq) / sectionSize < checkpointSections then 0
      else (head + 1 - confirmsReq) / sectionSize
    }

    /** Whether a head makes more sections known; the first ones past the checkpoint are
        only if the chain has the checkpoint. */
    predicate Advances(head: nat)
      requires sectionSize > 0
      reads this
    {
      && Confirmed(head) > knownSections
      && (knownSections < checkpointSections ==> CanonicalHash(checkpointSections * sectionSize - 1) == checkpointHead)
    }

    /** Takes the next section up and releases the lock. */
    method Begin()
      requires Valid() && pending == None
      modifies this
      ensures Valid() && chainHead == old(chainHead) && knownSections == old(knownSections)
      ensures old(base) == 0 ==> base == 0
      ensures pending.Some? <==> old(knownSections > storedSections)
      ensures pending.Some? ==> pending.value == Pending(storedSections, SectionHead(storedSections - 1), false)
      ensures old(storedSections) <= checkpointSections ==>
        storedSections == old(storedSections) && sectionHeads == old(sectionHeads)
    {
      if knownSections > storedSections {
        VerifyLastHead();
        if storedSections > 0 {
          assert base < storedSections ==> Follows(sectionHeads, sectionSize, storedSections - 1);
        }
        pending := Some(Pending(storedSections, SectionHead(storedSections - 1), false));
      }
    }

    /** The backend fails to start on the section: the whole index is given up. */
    method Refuse()
      requires Valid() && pending.Some?
      modifies this
      ensures Valid() && base == storedSections == 0 && sectionHeads == map[] && chainHead == old(chainHead)
      ensures pending == Some(old(pending).value.(refused := true))
    {
      Shrink(0);
      pending := Some(pending.value.(refused := true));
    }

    /** Reads the headers of a section off the canonical chain, wherever that is at each
        step, and accepts them only if they form one chain on top of the given head. */
    method ProcessSection(section: nat, oldHead: Hash, work: Work) returns (newHead: Hash, err: bool)
      requires sectionSize > 0 && |work.chain| == sectionSize && forall h :: h in work.chain ==> Grounded(h)
      ensures !err ==>
        newHead.Of? && newHead.header.number == LastOf(section) && LinksUp(newHead, sectionSize) == oldHead
      ensures !err ==> newHead == Ancestor(work.chain[sectionSize - 1], section * sectionSize + sectionSize - 1)
      ensures err <==> work.commitFails || exists i :: 0 <= i < sectionSize && Breaks(section, oldHead, work, i)
    {
      newHead := oldHead;
      var i: nat := 0;
      while i < sectionSize
        invariant i <= sectionSize && LinksUp(newHead, i) == oldHead
        invariant newHead == if i == 0 then oldHead else Ancestor(work.chain[i - 1], section * sectionSize + i - 1)
        invariant i > 0 ==> newHead.Of? && newHead.header.number == section * sectionSize + i - 1
        invariant forall j :: 0 <= j < i ==> !Breaks(section, oldHead, work, j)
      {
        var number := section * sectionSize + i;
        var hash := Ancestor(work.chain[i], number);
        GroundedAncestor(work.chain[i], number);
        if hash.Zero? || hash.header.parent != newHead || work.processFails(i) {
          assert Breaks(section, oldHead, work, i);
          return Zero, true;
        }
        newHead := hash;
        i := i + 1;
      }
      if work.commitFails {
        return Zero, true;
      }
      err := false;
    }

    /** The i-th header of a section is missing, does not continue the one read before it,
        or is refused by the backend. */
    ghost predicate Breaks(section: nat, oldHead: Hash, work: Work, i: nat)
      requires i < |work.chain|
    {
      var hash := Ancestor(work.chain[i], section * sectionSize + i);
      var before := if i == 0 then oldHead else Ancestor(work.chain[i - 1], section * sectionSize + i - 1);
      hash.Zero? || hash.header.parent != before || work.processFails(i)
    }

    /** Takes the lock back and stores the section, unless it failed or the section before
        it has been taken back in the meantime. */
    method Finish(work: Work)
      requires Valid() && pending.Some? && |work.chain| == sectionSize && forall h :: h in work.chain ==> Grounded(h)
      modifies this
      ensures Valid() && chainHead == old(chainHead) && pending == None
      ensures old(base) == 0 ==> base == 0
      ensures storedSections > old(storedSections) <==> old(Stands(pending.value, work))
      ensures storedSections > old(storedSections) ==>
        && old(storedSections) == old(pending).value.section == storedSections - 1
        && sectionHeads == old(sectionHeads)
             [old(storedSections) := Ancestor(work.chain[sectionSize - 1], LastOf(old(storedSections)))]
        && knownSections == old(knownSections)
      ensures storedSections <= old(storedSections) ==> knownSections == storedSections
    {
      var p := pending.value;
      pending := None;
      var newHead, err := Zero, true;
      if !p.refused {
        newHead, err := ProcessSection(p.section, p.oldHead, work);
      }
      if !err && (p.section == 0 || p.oldHead == SectionHead(p.section - 1)) {
        Commit(p.section, newHead);
      } else {
        VerifyLastHead();
        knownSections := storedSections;
      }
    }

    /** The section came through and the one before it is still stored. */
    ghost predicate Stands(p: Pending, work: Work)
      requires |work.chain| == sectionSize
      reads this
    {
      && !p.refused && !work.commitFails
      && (forall i :: 0 <= i < sectionSize ==> !Breaks(p.section, p.oldHead, work, i))
      && (p.section == 0 || p.oldHead == SectionHead(p.section - 1))
    }

    method Commit(section: nat, newHead: Hash)
      requires Valid() && pending == None && storedSections == section
      requires newHead.Of? && newHead.header.number == LastOf(section)
      requires LinksUp(newHead, sectionSize) == SectionHead(section - 1)
      modifies this
      ensures Valid() && chainHead == old(chainHead) && pending == None
      ensures storedSections == section + 1 && sectionHeads == old(sectionHeads)[section := newHead]
      ensures base == old(base)
      ensures knownSections == old(knownSections)
    {
      sectionHeads := sectionHeads[section := newHead];
      SetValidSections(section + 1);
      forall s: nat | base <= s <= section ensures Follows(sectionHeads, sectionSize, s) {
        assert s < section ==> Follows(old(sectionHeads), sectionSize, s);
      }
      cascadedHead := storedSections * sectionSize - 1;
    }

    /** Any interleaving of chain moves, notices, queries and section processing keeps the
        stored sections linked. */
    method Run(steps: seq<Step>)
      requires Valid() && forall i :: 0 <= i < |steps| ==> Possible(steps[i])
      modifies this
      ensures Valid()
    {
      for i := 0 to |steps|
        invariant Valid()
      {
        match steps[i] {
          case Move(head) => MoveChain(head);
          case Notice(head, reorg) => NewHead(head, reorg);
          case Query => var _, _ := Sections();
          case Start => if pending == None { Begin(); }
          case Reject => if pending.Some? { Refuse(); }
          case Complete(work) => if pending.Some? { Finish(work); }
        }
      }
    }

    ghost predicate Possible(step: Step) {
      match step
      case Move(head) => Grounded(head)
      case Complete(work) => |work.chain| == sectionSize && forall h :: h in work.chain ==> Grounded(h)
      case _ => true
    }
  }

  /** The parent of an ancestor is the ancestor below it. */
  lemma ParentOfAncestor(h: Header, n: nat)
    requires Grounded(h) && n <= h.number
    ensures Ancestor(h, n).Of? && Ancestor(h, n).header.parent == if n == 0 then Zero else Ancestor(h, n - 1)
  {
    GroundedAncestor(h, n);
    LinksUpAncestor(h, n, 1);
    assert LinksUp(Ancestor(h, n), 1) == LinksUp(Ancestor(h, n).header.parent, 0);
  }

  /** Nothing speaks against a section while the chain stays as it is. */
  lemma UndisturbedStands(indexer: ChainIndexer, p: Pending, head: Header, work: Work)
    requires indexer.sectionSize > 0 && Grounded(head) && indexer.LastOf(p.section) <= head.number && !p.refused
    requires |work.chain| == indexer.sectionSize && !work.commitFails
    requires forall i :: 0 <= i < |work.chain| ==> work.chain[i] == head && !work.processFails(i)
    requires p.oldHead == indexer.SectionHead(p.section - 1)
    requires p.oldHead == if p.section == 0 then Zero else Ancestor(head, indexer.FirstOf(p.section) - 1)
    ensures indexer.Stands(p, work)
  {
    forall i: nat | i < indexer.sectionSize ensures !indexer.Breaks(p.section, p.oldHead, work, i) {
      InSection(indexer.sectionSize, p.section, i);
      ParentOfAncestor(head, p.section * indexer.sectionSize + i);
    }
  }

  lemma InSection(size: nat, section: nat, i: nat)
    requires i < size
    ensures 0 <= section * size && section * size + i <= LastNumber(size, section)
    ensures section > 0 ==> 0 < section * size
  {
    assert (section + 1) * size == section * size + size;
  }

  /** A section that stands is stored. */
  method Complete(indexer: ChainIndexer, work: Work)
    requires indexer.Valid() && indexer.pending.Some? && |work.chain| == indexer.sectionSize
    requires (forall h :: h in work.chain ==> Grounded(h)) && indexer.Stands(indexer.pending.value, work)
    modifies indexer
    ensures indexer.Valid() && indexer.pending == None && indexer.chainHead == old(indexer.chainHead)
    ensures indexer.knownSections == old(indexer.knownSections) && (old(indexer.base) == 0 ==> indexer.base == 0)
    ensures indexer.storedSections == old(indexer.storedSections) + 1
    ensures indexer.SectionHead(old(indexer.storedSections)) ==
      Ancestor(work.chain[|work.chain| - 1], indexer.LastOf(old(indexer.storedSections)))
  {
    indexer.Finish(work);
  }

  /** A section below the checkpoint is stored if the chain stays as it is. */
  method Take(indexer: ChainIndexer, head: Header)
    requires indexer.Valid() && indexer.pending == None && Grounded(head) && indexer.chainHead == head
    requires indexer.storedSections < indexer.knownSections && indexer.storedSections < indexer.checkpointSections
    requires indexer.LastOf(indexer.storedSections) <= head.number
    requires indexer.SectionHead(indexer.storedSections - 1) ==
      if indexer.storedSections == 0 then Zero else Ancestor(head, indexer.FirstOf(indexer.storedSections) - 1)
    modifies indexer
    ensures indexer.Valid() && indexer.pending == None && indexer.chainHead == head
    ensures indexer.storedSections == old(indexer.storedSections) + 1
    ensures indexer.SectionHead(old(indexer.storedSections)) ==
      Ancestor(head, indexer.LastOf(old(indexer.storedSections)))
    ensures indexer.knownSections == old(indexer.knownSections) && (old(indexer.base) == 0 ==> indexer.base == 0)
  {
    var work := Work(seq(indexer.sectionSize, _ => head), _ => false, false);
    indexer.Begin();
    UndisturbedStands(indexer, indexer.pending.value, head, work);
    Complete(indexer, work);
  }

  /** An indexer that has given up its checkpoint of two sections and indexed them again. */
  method Reindexed(genesis: Header, first: Header, second: Header) returns (indexer: ChainIndexer)
    requires genesis == Header(Zero, 0, 0, 0) && first == Header(Of(genesis), 1, 0, 0)
    requires second == Header(Of(first), 2, 0, 0)
    ensures fresh(indexer) && indexer.Valid() && indexer.sectionSize == 1 && indexer.checkpointSections == 2
    ensures indexer.base == 0 && indexer.storedSections == 2 && indexer.SectionHead(1) == Of(first)
  {
    indexer := new ChainIndexer(1, 0, 2, Of(first), second);
    indexer.NewHead(2, false);
    indexer.Begin();
    indexer.Refuse();
    indexer.Finish(Work([second], i => false, false));
    indexer.NewHead(2, false);
    Take(indexer, second);
    Take(indexer, second);
  }

  /** Once it has given up its checkpoint, the indexer does not notice that the chain has left
      a section below it: it reports sections from the first one on that are not canonical. */
  method Unverified() returns (indexer: ChainIndexer, sections: nat, head: Hash)
    ensures fresh(indexer) && indexer.Valid() && sections == indexer.storedSections
    ensures indexer.base == 0 < sections <= indexer.checkpointSections && head == indexer.SectionHead(sections - 1)
    ensures !indexer.IsCanonical(sections - 1)
  {
    var genesis := Header(Zero, 0, 0, 0);
    var first := Header(Of(genesis), 1, 0, 0);
    indexer := Reindexed(genesis, first, Header(Of(first), 2, 0, 0));
    indexer.MoveChain(Header(Of(genesis), 1, 0, 1));
    sections, head := indexer.Sections();
  }

  datatype Step =
    | Move(head: Header)
    | Notice(number: nat, reorg: bool)
    | Query
    | Start
    | Reject
    | Complete(work: Work)

  function Min(a: nat, b: nat): nat {
    if a <= b then a else b
  }

  function Max(a: nat, b: nat): nat {
    if a <= b then b else a
  }
}
