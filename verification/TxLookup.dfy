/** The table of all pooled transactions, split into local and remote ones, with
    its running slot counter. */
module Lookup {
  import opened Transactions

  class TxLookup {
    var slots: int
    var locals: set<Tx>
    var remotes: set<Tx>

    ghost predicate Valid()
      reads this
    {
      locals !! remotes && slots == SumSlots(locals + remotes)
    }

    ghost function Txs(): set<Tx>
      reads this
    {
      locals + remotes
    }

    constructor ()
      ensures Valid() && Txs() == {}
    {
      slots, locals, remotes := 0, {}, {};
    }

    predicate Has(tx: Tx)
      reads this
    {
      tx in locals || tx in remotes
    }

    /** Adding counts the slots unconditionally, so the counter stays exact just
        when the transaction was not listed before. */
    method Add(tx: Tx, local: bool)
      requires Valid()
      modifies this
      ensures locals == old(locals) + (if local then {tx} else {})
      ensures remotes == old(remotes) + (if local then {} else {tx})
      ensures slots == old(slots) + NumSlots(tx)
      ensures tx !in old(Txs()) ==> Valid()
    {
      ghost var before := Txs();
      slots := slots + NumSlots(tx);
      if local {
        locals := locals + {tx};
      } else {
        remotes := remotes + {tx};
      }
      if tx !in before {
        SumSlotsRemove(before + {tx}, tx);
        assert before + {tx} - {tx} == before;
        assert Txs() == before + {tx};
      }
    }

    /** Removing an unlisted transaction changes nothing. */
    method Remove(tx: Tx)
      requires Valid()
      modifies this
      ensures Valid()
      ensures locals == old(locals) - {tx} && remotes == old(remotes) - {tx}
    {
      if tx !in locals && tx !in remotes {
        return;
      }
      SumSlotsRemove(Txs(), tx);
      assert Txs() - {tx} == (locals - {tx}) + (remotes - {tx});
      slots := slots - NumSlots(tx);
      locals := locals - {tx};
      remotes := remotes - {tx};
    }

    /** Migrates the remote transactions of the given senders. */
    method RemoteToLocals(accounts: set<Address>) returns (migrated: nat)
      requires Valid()
      modifies this
      ensures Valid()
      ensures Txs() == old(Txs()) && slots == old(slots)
      ensures remotes == (set tx | tx in old(remotes) && tx.sender !in accounts)
      ensures migrated == |old(remotes)| - |remotes|
    {
      var todo := remotes;
      migrated := 0;
      while todo != {}
        invariant todo <= remotes <= old(remotes)
        invariant locals !! remotes
        invariant Txs() == old(Txs()) && slots == old(slots)
        invariant forall tx :: tx in old(remotes) && tx !in todo ==> (tx in remotes <==> tx.sender !in accounts)
        invariant migrated == |old(remotes)| - |remotes|
        decreases todo
      {
        var tx :| tx in todo;
        todo := todo - {tx};
        if tx.sender in accounts {
          locals := locals + {tx};
          remotes := remotes - {tx};
          migrated := migrated + 1;
        }
      }
    }

    /** Lists the remote transactions whose tip is below the threshold, each once. */
    method RemotesBelowTip(threshold: nat) returns (found: seq<Tx>)
      ensures Distinct(found)
      ensures forall tx :: tx in found <==> tx in remotes && tx.tipCap < threshold
    {
      var todo := remotes;
      found := [];
      while todo != {}
        invariant todo <= remotes
        invariant Distinct(found)
        invariant forall tx :: tx in found <==> tx in remotes - todo && tx.tipCap < threshold
        decreases todo
      {
        var tx :| tx in todo;
        todo := todo - {tx};
        if tx.tipCap < threshold {
          found := found + [tx];
        }
      }
    }
  }
}
