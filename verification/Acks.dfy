/** The acknowledgements a block carries for its parent, and when they are accepted. */
module Acks {
  import opened Transactions

  const AGREE: nat := 0
  const OPPOSE: nat := 1

  /** A digest of a block, of an acknowledgement or of all acknowledgements of a block. */
  datatype Digest =
    | OfBlock(id: nat)
    | OfAck(position: nat, number: nat, blockHash: Digest, ackType: nat)
    | OfAcks(acks: seq<Ack>)

  /** An acknowledgement of a block; the signer is missing where the signature does not
      recover. */
  datatype Ack = Ack(signer: Option<Address>, position: nat, number: nat, blockHash: Digest, ackType: nat)

  /** The digest that is signed, of everything but the signature. */
  type Signed = (nat, nat, Digest, nat) -> Digest

  function HashOf(ack: Ack, signed: Signed): Digest {
    signed(ack.position, ack.number, ack.blockHash, ack.ackType)
  }

  datatype AckCount = AckCount(blockNumber: nat, count: nat)

  /** What acceptance depends on in a block and in its parent. */
  datatype Block = Block(number: nat, acks: seq<Ack>, acksHash: Digest, ackCounts: seq<AckCount>, validator: Address)
  datatype ParentBlock = ParentBlock(hash: Digest, visual: bool, validator: Address)

  function CountOf(acks: seq<Ack>, ackType: nat): nat {
    if acks == [] then 0 else
      CountOf(acks[..|acks| - 1], ackType) + if acks[|acks| - 1].ackType == ackType then 1 else 0
  }

  /** An acknowledgement of the block before a number by one of the validators. An agreeing
      one is refused where its digest is that of the parent. */
  predicate Legal(ack: Ack, number: nat, validators: seq<Address>, parentHash: Digest, signed: Signed) {
    && ack.signer.Some? && ack.signer.value in validators && ack.number == number - 1
    && (ack.ackType == AGREE ==> HashOf(ack, signed) != parentHash)
  }

  /** The acknowledgements are legal and no two are by the same validator. */
  ghost predicate AllLegal(acks: seq<Ack>, number: nat, validators: seq<Address>, parentHash: Digest, signed: Signed) {
    && (forall i :: 0 <= i < |acks| ==> Legal(acks[i], number, validators, parentHash, signed))
    && (forall i, j :: 0 <= i < j < |acks| ==> acks[i].signer != acks[j].signer)
  }

  /** More than a third of the validators, or anything with a single one. */
  predicate Enough(count: nat, validators: nat) {
    validators <= 1 || 3 * count > validators
  }

  /** The kind of acknowledgement a block needs and the kind it must not have. */
  function Wanted(parent: ParentBlock): nat {
    if parent.visual then OPPOSE else AGREE
  }

  function Unwanted(parent: ParentBlock): nat {
    if parent.visual then AGREE else OPPOSE
  }

  /** What an accepted block looks like. */
  ghost predicate Accepted(block: Block, parent: ParentBlock, validators: seq<Address>, digest: seq<Ack> -> Digest,
                           signed: Signed)
    requires block.number > 0
  {
    && AllLegal(block.acks, block.number, validators, parent.hash, signed)
    && block.acksHash == digest(block.acks)
    && block.ackCounts == [AckCount(block.number - 1, CountOf(block.acks, Wanted(parent)))]
    && (parent.visual ==> block.validator == parent.validator)
    && CountOf(block.acks, Unwanted(parent)) == 0
    && Enough(CountOf(block.acks, Wanted(parent)), |validators|)
  }

  method CheckIsValidator(validators: seq<Address>, owner: Address) returns (found: bool)
    ensures found <==> owner in validators
  {
    var i: nat := 0;
    while i < |validators|
      invariant i <= |validators| && owner !in validators[..i]
    {
      if validators[i] == owner {
        return true;
      }
      i := i + 1;
    }
    return false;
  }

  /** Goes through the acknowledgements once, counting the two kinds. */
  method CountAcks(acks: seq<Ack>, number: nat, validators: seq<Address>, parentHash: Digest, signed: Signed)
      returns (commitNum: nat, opposeNum: nat, ok: bool)
    requires number > 0
    ensures ok <==> AllLegal(acks, number, validators, parentHash, signed)
    ensures ok ==> commitNum == CountOf(acks, AGREE) && opposeNum == CountOf(acks, OPPOSE)
  {
    commitNum, opposeNum := 0, 0;
    var used: set<Address> := {};
    var i: nat := 0;
    while i < |acks|
      invariant i <= |acks| && AllLegal(acks[..i], number, validators, parentHash, signed)
      invariant used == set j | 0 <= j < i :: acks[j].signer.value
      invariant commitNum == CountOf(acks[..i], AGREE) && opposeNum == CountOf(acks[..i], OPPOSE)
    {
      var ack := acks[i];
      if ack.signer.Some? && ack.signer.value in used {
        return 0, 0, false;
      }
      var isValidator := false;
      if ack.signer.Some? {
        isValidator := CheckIsValidator(validators, ack.signer.value);
      }
      if !isValidator || ack.number != number - 1 {
        return 0, 0, false;
      }
      assert acks[..i + 1][..i] == acks[..i];
      if ack.ackType == AGREE {
        if HashOf(ack, signed) == parentHash {
          return 0, 0, false;
        }
        commitNum := commitNum + 1;
      }
      if ack.ackType == OPPOSE {
        opposeNum := opposeNum + 1;
      }
      used := used + {ack.signer.value};
      i := i + 1;
    }
    assert acks[..i] == acks;
    ok := true;
  }

  method CheckAckNumMin(ackNum: nat, validatorNum: nat) returns (ok: bool)
    ensures ok <==> validatorNum <= 1 || 3 * ackNum > validatorNum
  {
    if validatorNum <= 1 {
      return true;
    }
    return ackNum > validatorNum * 1 / 3;
  }

  /** Accepts a block just when its acknowledgements are in order. */
  method CheckAcks(block: Block, parent: ParentBlock, validators: seq<Address>, digest: seq<Ack> -> Digest,
                   signed: Signed)
      returns (ok: bool)
    requires block.number > 0
    ensures ok <==> Accepted(block, parent, validators, digest, signed)
  {
    var commitNum, opposeNum, legal := CountAcks(block.acks, block.number, validators, parent.hash, signed);
    if !legal {
      return false;
    }
    if block.acksHash != digest(block.acks) {
      return false;
    }
    if |block.ackCounts| != 1 {
      return false;
    }
    if block.ackCounts[0].blockNumber != block.number - 1 {
      return false;
    }
    if parent.visual && block.validator != parent.validator {
      return false;
    }
    if parent.visual {
      var enough := CheckAckNumMin(opposeNum, |validators|);
      return block.ackCounts[0].count == opposeNum && commitNum == 0 && enough;
    }
    var enough := CheckAckNumMin(commitNum, |validators|);
    return block.ackCounts[0].count == commitNum && opposeNum == 0 && enough;
  }

  /** The validators behind the acknowledgements of one kind. */
  function Signers(acks: seq<Ack>, ackType: nat): set<Address> {
    set ack | ack in acks && ack.ackType == ackType && ack.signer.Some? :: ack.signer.value
  }

  lemma {:induction false} SignersCount(acks: seq<Ack>, number: nat, validators: seq<Address>, parentHash: Digest,
                                        signed: Signed, ackType: nat)
    requires AllLegal(acks, number, validators, parentHash, signed)
    ensures |Signers(acks, ackType)| == CountOf(acks, ackType)
    decreases |acks|
  {
    if acks != [] {
      var init, last := acks[..|acks| - 1], acks[|acks| - 1];
      SignersCount(init, number, validators, parentHash, signed, ackType);
      assert acks == init + [last];
      SignersNext(init, last, ackType);
      SignerIsNew(acks, ackType);
    }
  }

  lemma SignerIsNew(acks: seq<Ack>, ackType: nat)
    requires acks != [] && acks[|acks| - 1].signer.Some?
    requires forall i :: 0 <= i < |acks| - 1 ==> acks[i].signer != acks[|acks| - 1].signer
    ensures acks[|acks| - 1].signer.value !in Signers(acks[..|acks| - 1], ackType)
  {
  }

  lemma SignersNext(init: seq<Ack>, last: Ack, ackType: nat)
    requires forall ack :: ack in init + [last] ==> ack.signer.Some?
    ensures Signers(init + [last], ackType) ==
      Signers(init, ackType) + (if last.ackType == ackType then {last.signer.value} else {})
  {
  }

  /** With several validators an accepted block has the wanted acknowledgement of more
      than a third of them, each counted once, and its header says of how many. */
  lemma Quorum(block: Block, parent: ParentBlock, validators: seq<Address>, digest: seq<Ack> -> Digest, signed: Signed)
    requires block.number > 0 && |validators| > 1 && Accepted(block, parent, validators, digest, signed)
    ensures var signers := Signers(block.acks, Wanted(parent));
      && |signers| > |validators| / 3
      && (forall a :: a in signers ==> a in validators)
      && block.ackCounts == [AckCount(block.number - 1, |signers|)]
    ensures Signers(block.acks, Unwanted(parent)) == {}
    ensures forall ack :: ack in block.acks ==> ack.number == block.number - 1
  {
    SignersCount(block.acks, block.number, validators, parent.hash, signed, Wanted(parent));
    SignersCount(block.acks, block.number, validators, parent.hash, signed, Unwanted(parent));
  }

  /** The same acknowledgement for another block. */
  function For(ack: Ack, blockHash: Digest): Ack {
    ack.(blockHash := blockHash)
  }

  ghost predicate SameButBlock(acks: seq<Ack>, acks': seq<Ack>) {
    |acks| == |acks'| && forall i :: 0 <= i < |acks| ==> acks'[i] == For(acks[i], acks'[i].blockHash)
  }

  lemma {:induction false} SameCounts(acks: seq<Ack>, acks': seq<Ack>, ackType: nat)
    requires SameButBlock(acks, acks')
    ensures CountOf(acks, ackType) == CountOf(acks', ackType)
  {
    if acks != [] {
      assert acks'[|acks| - 1].ackType == acks[|acks| - 1].ackType;
      SameCounts(acks[..|acks| - 1], acks'[..|acks| - 1], ackType);
    }
  }

  /** Which blocks the acknowledgements are for plays no part: an accepted block is accepted
      just as well with acknowledgements for any other blocks, if and only if none of the
      agreeing ones has the parent hash for its digest. */
  lemma AnyBlockHash(block: Block, acks: seq<Ack>, parent: ParentBlock, validators: seq<Address>,
                     digest: seq<Ack> -> Digest, signed: Signed)
    requires block.number > 0 && Accepted(block, parent, validators, digest, signed) && SameButBlock(block.acks, acks)
    ensures Accepted(block.(acks := acks, acksHash := digest(acks)), parent, validators, digest, signed) <==>
      forall i :: 0 <= i < |acks| && acks[i].ackType == AGREE ==> HashOf(acks[i], signed) != parent.hash
  {
    SameCounts(block.acks, acks, AGREE);
    SameCounts(block.acks, acks, OPPOSE);
  }

  /** Different contents have different digests, and none of them is that of a block. */
  ghost predicate CollisionFree(digest: seq<Ack> -> Digest, signed: Signed) {
    && (forall a, b :: digest(a) == digest(b) ==> a == b)
    && (forall a: Ack, b: Ack :: HashOf(a, signed) == HashOf(b, signed) ==> a == b.(signer := a.signer))
    && (forall a: Ack :: !HashOf(a, signed).OfBlock?)
  }

  /** Two of three validators agree to a sibling of the parent, and the block is accepted. */
  lemma SiblingAccepted()
      returns (block: Block, parent: ParentBlock, validators: seq<Address>, digest: seq<Ack> -> Digest, signed: Signed)
    ensures CollisionFree(digest, signed) && parent.hash.OfBlock?
    ensures block.number > 0 && Accepted(block, parent, validators, digest, signed) && |validators| > 1
    ensures block.acks != [] && forall ack :: ack in block.acks ==>
      ack.ackType == AGREE && ack.blockHash.OfBlock? && ack.blockHash != parent.hash
  {
    validators, parent := [1, 2, 3], ParentBlock(OfBlock(7), false, 1);
    digest := acks => OfAcks(acks);
    signed := (position: nat, number: nat, blockHash, ackType: nat) => OfAck(position, number, blockHash, ackType);
    var first, second := Ack(Some(1), 0, 4, OfBlock(8), AGREE), Ack(Some(2), 1, 4, OfBlock(8), AGREE);
    var acks := [first, second];
    block := Block(5, acks, OfAcks(acks), [AckCount(4, 2)], 2);
    assert acks[..1] == [first] && acks[..1][..0] == [];
    assert CountOf(acks, AGREE) == 2 && CountOf(acks, OPPOSE) == 0 by {
      assert CountOf([first], AGREE) == CountOf([], AGREE) + 1;
      assert CountOf([first], OPPOSE) == 0;
    }
    assert 1 in validators && 2 in validators;
  }
}
