/** Gas accounting: buying gas, intrinsic costs, refunds and fees of a transaction, and
    the gas pool of a block. The virtual machine is an arbitrary step that returns no
    more gas than it is given. */
module Gas {
  import opened Transactions

  const MAX_UINT64: nat := 0xFFFF_FFFF_FFFF_FFFF
  const TX_GAS: nat := 21000
  const TX_GAS_CONTRACT_CREATION: nat := 53000
  const TX_DATA_ZERO_GAS: nat := 4
  const TX_DATA_NON_ZERO_GAS_FRONTIER: nat := 68
  const TX_DATA_NON_ZERO_GAS_EIP2028: nat := 16
  const TX_ACCESS_LIST_ADDRESS_GAS: nat := 2400
  const TX_ACCESS_LIST_STORAGE_KEY_GAS: nat := 1900
  const REFUND_QUOTIENT: nat := 2
  const REFUND_QUOTIENT_EIP3529: nat := 5

  type Balances = map<Address, nat>

  function BalanceOf(b: Balances, a: Address): nat {
    if a in b then b[a] else 0
  }

  ghost function TotalOver(b: Balances, accounts: set<Address>): nat {
    if accounts == {} then 0 else
      var a :| a in accounts;
      BalanceOf(b, a) + TotalOver(b, accounts - {a})
  }

  /** The money of all accounts. */
  ghost function Total(b: Balances): nat {
    TotalOver(b, b.Keys)
  }

  lemma {:induction false} TotalOverRemove(b: Balances, accounts: set<Address>, a: Address)
    requires a in accounts
    ensures TotalOver(b, accounts) == BalanceOf(b, a) + TotalOver(b, accounts - {a})
    decreases accounts
  {
    var picked :| picked in accounts &&
      TotalOver(b, accounts) == BalanceOf(b, picked) + TotalOver(b, accounts - {picked});
    if picked != a {
      TotalOverRemove(b, accounts - {picked}, a);
      TotalOverRemove(b, accounts - {a}, picked);
      assert accounts - {picked} - {a} == accounts - {a} - {picked};
    }
  }

  lemma {:induction false} TotalOverSame(b: Balances, c: Balances, accounts: set<Address>)
    requires forall a :: a in accounts ==> BalanceOf(b, a) == BalanceOf(c, a)
    ensures TotalOver(b, accounts) == TotalOver(c, accounts)
    decreases accounts
  {
    if accounts != {} {
      var a :| a in accounts;
      TotalOverRemove(b, accounts, a);
      TotalOverRemove(c, accounts, a);
      TotalOverSame(b, c, accounts - {a});
    }
  }

  /** Setting one balance changes the total by the difference. */
  lemma TotalSet(b: Balances, a: Address, amount: nat)
    ensures Total(b[a := amount]) == Total(b) - BalanceOf(b, a) + amount
  {
    var c := b[a := amount];
    var others := b.Keys - {a};
    assert c.Keys - {a} == others;
    TotalOverRemove(c, c.Keys, a);
    TotalOverSame(b, c, others);
    if a in b {
      TotalOverRemove(b, b.Keys, a);
    } else {
      assert others == b.Keys;
    }
  }

  datatype Message = Message(
    from: Address, nonce: nat, gas: nat, gasPrice: nat, feeCap: nat, tipCap: nat, value: nat,
    creates: bool, data: seq<bv8>, accessAddresses: nat, accessKeys: nat)

  /** The rules and the base fee of the block a transaction is in. */
  datatype Env = Env(homestead: bool, istanbul: bool, london: bool, baseFee: nat, coinbase: Address)

  /** The price per gas that a transaction pays: from London on the base fee and its tip,
      up to its fee cap. */
  function EffectivePrice(env: Env, gasPrice: nat, feeCap: nat, tipCap: nat): nat {
    if !env.london then gasPrice else if tipCap + env.baseFee <= feeCap then tipCap + env.baseFee else feeCap
  }

  /** A message as made from a transaction for a block. */
  ghost predicate Priced(msg: Message, env: Env) {
    && msg.gas <= MAX_UINT64
    && msg.gasPrice == EffectivePrice(env, msg.gasPrice, msg.feeCap, msg.tipCap)
    && (!env.london ==> msg.gasPrice == msg.feeCap == msg.tipCap)
  }

  function CountNonZero(data: seq<bv8>): (n: nat)
    ensures n <= |data|
  {
    if data == [] then 0 else CountNonZero(data[..|data| - 1]) + if data[|data| - 1] != 0 then 1 else 0
  }

  function BaseGas(creates: bool, homestead: bool): nat {
    if creates && homestead then TX_GAS_CONTRACT_CREATION else TX_GAS
  }

  function NonZeroGas(eip2028: bool): (price: nat)
    ensures price > 0
  {
    if eip2028 then TX_DATA_NON_ZERO_GAS_EIP2028 else TX_DATA_NON_ZERO_GAS_FRONTIER
  }

  /** What the bytes of a transaction cost. */
  function BytesGas(data: seq<bv8>, price: nat): nat {
    CountNonZero(data) * price + (|data| - CountNonZero(data)) * TX_DATA_ZERO_GAS
  }

  /** What a transaction costs up front, without its access list. */
  function DataGas(data: seq<bv8>, creates: bool, homestead: bool, eip2028: bool): nat {
    BaseGas(creates, homestead) + BytesGas(data, NonZeroGas(eip2028))
  }

  function AccessGas(addresses: nat, keys: nat): nat {
    addresses * TX_ACCESS_LIST_ADDRESS_GAS + keys * TX_ACCESS_LIST_STORAGE_KEY_GAS
  }

  /** A sum in 64-bit arithmetic. */
  function Wrap(x: nat): (r: nat)
    ensures x <= MAX_UINT64 ==> r == x
  {
    x % (MAX_UINT64 + 1)
  }

  lemma WrapTwice(x: nat, y: nat)
    ensures Wrap(Wrap(x) + y) == Wrap(x + y)
  {
  }

  lemma QuotientBound(room: nat, price: nat, n: nat)
    requires price > 0
    ensures room / price < n <==> room < n * price
  {
    if room / price < n {
      assert room < (room / price + 1) * price;
      assert (room / price + 1) * price <= n * price;
    } else {
      assert n * price <= (room / price) * price <= room;
    }
  }

  /** Adds the cost of the bytes unless the sum exceeds 64 bits. */
  method AddBytes(gas0: nat, data: seq<bv8>, price: nat) returns (r: Option<nat>)
    requires gas0 <= MAX_UINT64 && price > 0
    ensures r == if gas0 + BytesGas(data, price) > MAX_UINT64 then None else Some(gas0 + BytesGas(data, price))
  {
    var nz := CountNonZeroBytes(data);
    QuotientBound(MAX_UINT64 - gas0, price, nz);
    if (MAX_UINT64 - gas0) / price < nz {
      return None;
    }
    var gas := gas0 + nz * price;
    var z := |data| - nz;
    QuotientBound(MAX_UINT64 - gas, TX_DATA_ZERO_GAS, z);
    if (MAX_UINT64 - gas) / TX_DATA_ZERO_GAS < z {
      return None;
    }
    return Some(gas + z * TX_DATA_ZERO_GAS);
  }

  /** The gas a transaction costs before it runs. It is an error just when the cost of
      the data exceeds 64 bits; the access list is added without a check. */
  method IntrinsicGas(data: seq<bv8>, accessAddresses: nat, accessKeys: nat, creates: bool, homestead: bool,
                      eip2028: bool)
      returns (r: Option<nat>)
    ensures r.None? <==> DataGas(data, creates, homestead, eip2028) > MAX_UINT64
    ensures r.Some? ==>
      r.value == Wrap(DataGas(data, creates, homestead, eip2028) + AccessGas(accessAddresses, accessKeys))
  {
    var gas := BaseGas(creates, homestead);
    if |data| > 0 {
      var sum := AddBytes(gas, data, NonZeroGas(eip2028));
      if sum.None? {
        return None;
      }
      gas := sum.value;
    }
    WrapTwice(gas + accessAddresses * TX_ACCESS_LIST_ADDRESS_GAS, accessKeys * TX_ACCESS_LIST_STORAGE_KEY_GAS);
    gas := Wrap(gas + accessAddresses * TX_ACCESS_LIST_ADDRESS_GAS);
    gas := Wrap(gas + accessKeys * TX_ACCESS_LIST_STORAGE_KEY_GAS);
    return Some(gas);
  }

  method CountNonZeroBytes(data: seq<bv8>) returns (nz: nat)
    ensures nz == CountNonZero(data)
  {
    nz := 0;
    var i: nat := 0;
    while i < |data|
      invariant i <= |data| && nz == CountNonZero(data[..i])
    {
      assert data[..i + 1][..i] == data[..i];
      if data[i] != 0 {
        nz := nz + 1;
      }
      i := i + 1;
    }
    assert data[..i] == data;
  }

  datatype TxError =
    | NonceTooHigh | NonceTooLow | FeeCapVeryHigh | TipVeryHigh | TipAboveFeeCap | FeeCapTooLow
    | InsufficientFunds | GasLimitReached | GasUintOverflow | TooLittleIntrinsicGas | InsufficientFundsForTransfer

  datatype TxResult = Used(gas: nat) | Failed(error: TxError)

  /** What the virtual machine leaves behind. */
  datatype Outcome = Outcome(balances: Balances, refund: nat, gasLeft: nat)

  /** Any execution of the virtual machine on given balances and gas. */
  type Machine = (Balances, nat) -> Outcome

  ghost predicate Sound(vm: Machine) {
    forall b: Balances, gas: nat :: vm(b, gas).gasLeft <= gas
  }

  class GasPool {
    var gas: nat

    constructor (limit: nat)
      requires limit <= MAX_UINT64
      ensures gas == limit
    {
      gas := limit;
    }

    /** Fails, where the program panics, if the pool would exceed 64 bits. */
    method AddGas(amount: nat) returns (ok: bool)
      requires gas <= MAX_UINT64 && amount <= MAX_UINT64
      modifies this
      ensures ok <==> old(gas) + amount <= MAX_UINT64
      ensures gas == if ok then old(gas) + amount else old(gas)
    {
      if gas > MAX_UINT64 - amount {
        return false;
      }
      gas := gas + amount;
      return true;
    }

    method SubGas(amount: nat) returns (ok: bool)
      modifies this
      ensures ok <==> amount <= old(gas)
      ensures gas == if ok then old(gas) - amount else old(gas)
    {
      if gas < amount {
        return false;
      }
      gas := gas - amount;
      return true;
    }
  }

  class StateDB {
    var balances: Balances
    var nonces: map<Address, nat>
    var refund: nat

    function Nonce(a: Address): nat
      reads this
    {
      if a in nonces then nonces[a] else 0
    }

    constructor (balances: Balances, nonces: map<Address, nat>)
      ensures this.balances == balances && this.nonces == nonces && refund == 0
    {
      this.balances, this.nonces, refund := balances, nonces, 0;
    }

    method AddBalance(a: Address, amount: nat)
      modifies this`balances
      ensures balances == old(balances)[a := BalanceOf(old(balances), a) + amount]
      ensures Total(balances) == Total(old(balances)) + amount
    {
      TotalSet(balances, a, BalanceOf(balances, a) + amount);
      balances := balances[a := BalanceOf(balances, a) + amount];
    }

    method SubBalance(a: Address, amount: nat)
      requires amount <= BalanceOf(balances, a)
      modifies this`balances
      ensures balances == old(balances)[a := BalanceOf(old(balances), a) - amount]
      ensures Total(balances) == Total(old(balances)) - amount
    {
      TotalSet(balances, a, BalanceOf(balances, a) - amount);
      balances := balances[a := BalanceOf(balances, a) - amount];
    }
  }

  /** What the checks before the execution of a message find wrong first. */
  function FeeError(msg: Message, env: Env): Option<TxError> {
    if !env.london then None
    else if msg.feeCap >= TWO_256 then Some(FeeCapVeryHigh)
    else if msg.tipCap >= TWO_256 then Some(TipVeryHigh)
    else if msg.feeCap < msg.tipCap then Some(TipAboveFeeCap)
    else if msg.feeCap < env.baseFee then Some(FeeCapTooLow)
    else None
  }

  /** The price can be paid at the base fee of the block. */
  predicate Affords(msg: Message, env: Env) {
    msg.gasPrice <= msg.feeCap && (env.london ==> env.baseFee <= msg.feeCap)
  }

  /** What the block producer gets per gas. */
  function Tip(msg: Message, env: Env): nat
    requires Affords(msg, env)
  {
    if !env.london then msg.gasPrice
    else if msg.tipCap <= msg.feeCap - env.baseFee then msg.tipCap else msg.feeCap - env.baseFee
  }

  /** What is burnt per gas. */
  function Burnt(env: Env): nat {
    if env.london then env.baseFee else 0
  }

  /** The price is the tip and what is burnt. */
  lemma PriceSplits(msg: Message, env: Env)
    requires Priced(msg, env) && FeeError(msg, env) == None
    ensures Affords(msg, env) && msg.gasPrice == Tip(msg, env) + Burnt(env)
  {
  }

  function Cost(gas: nat, price: nat): nat {
    gas * price
  }

  lemma CostSplits(gas: nat, used: nat, tip: nat, burnt: nat)
    requires used <= gas
    ensures Cost(gas, tip + burnt) == Cost(gas - used, tip + burnt) + Cost(used, tip) + Cost(used, burnt)
  {
  }

  lemma CostMonotone(gas: nat, price: nat, cap: nat)
    requires price <= cap
    ensures Cost(gas, price) <= Cost(gas, cap)
  {
  }

  /** The gas given back on top of what is left, for storage that was cleared. */
  function Refund(used: nat, counter: nat, env: Env): (r: nat)
    ensures r <= used / (if env.london then REFUND_QUOTIENT_EIP3529 else REFUND_QUOTIENT) && r <= counter
  {
    var cap := used / (if env.london then REFUND_QUOTIENT_EIP3529 else REFUND_QUOTIENT);
    if cap > counter then counter else cap
  }

  class StateTransition {
    const gp: GasPool
    const state: StateDB
    const msg: Message
    const env: Env
    var gas: nat
    var initialGas: nat

    constructor (gp: GasPool, state: StateDB, msg: Message, env: Env)
      ensures this.gp == gp && this.state == state && this.msg == msg && this.env == env && gas == initialGas == 0
    {
      this.gp, this.state, this.msg, this.env := gp, state, msg, env;
      gas, initialGas := 0, 0;
    }

    /** Takes the gas of the message out of the pool and its price off the sender, who must
        be able to pay the fee cap. The debit never exceeds the balance. */
    method BuyGas() returns (err: Option<TxError>)
      requires gas == 0 && msg.gasPrice <= msg.feeCap
      modifies this, gp, state`balances
      ensures err ==
        if old(BalanceOf(state.balances, msg.from)) < Cost(msg.gas, msg.feeCap) then Some(InsufficientFunds)
        else if old(gp.gas) < msg.gas then Some(GasLimitReached)
        else None
      ensures err.Some? ==> gp.gas == old(gp.gas) && state.balances == old(state.balances)
      ensures err.None? ==>
        && gp.gas == old(gp.gas) - msg.gas && gas == initialGas == msg.gas
        && state.balances == Bought(old(state.balances), msg)
        && Total(state.balances) == Total(old(state.balances)) - Cost(msg.gas, msg.gasPrice)
        && Cost(msg.gas, msg.gasPrice) <= BalanceOf(old(state.balances), msg.from)
    {
      var cost := Cost(msg.gas, msg.gasPrice);
      if BalanceOf(state.balances, msg.from) < Cost(msg.gas, msg.feeCap) {
        return Some(InsufficientFunds);
      }
      var ok := gp.SubGas(msg.gas);
      if !ok {
        return Some(GasLimitReached);
      }
      gas := gas + msg.gas;
      initialGas := msg.gas;
      CostMonotone(msg.gas, msg.gasPrice, msg.feeCap);
      state.SubBalance(msg.from, cost);
      return None;
    }

    method PreCheck() returns (err: Option<TxError>)
      requires gas == 0 && Priced(msg, env)
      modifies this, gp, state`balances
      ensures err == old(BuyError(state.balances, state.Nonce(msg.from), gp.gas, msg, env))
      ensures err.Some? ==> gp.gas == old(gp.gas) && state.balances == old(state.balances)
      ensures err.None? ==>
        && gp.gas == old(gp.gas) - msg.gas && gas == initialGas == msg.gas
        && Cost(msg.gas, msg.gasPrice) <= BalanceOf(old(state.balances), msg.from)
        && state.balances == Bought(old(state.balances), msg)
        && Total(state.balances) == Total(old(state.balances)) - Cost(msg.gas, msg.gasPrice)
        && Affords(msg, env) && msg.gasPrice == Tip(msg, env) + Burnt(env)
    {
      var stNonce := state.Nonce(msg.from);
      if stNonce < msg.nonce {
        return Some(NonceTooHigh);
      } else if stNonce > msg.nonce {
        return Some(NonceTooLow);
      }
      var feeError := FeeError(msg, env);
      if feeError.Some? {
        return feeError;
      }
      PriceSplits(msg, env);
      err := BuyGas();
    }

    /** Gives the sender the price of the gas left, with the refund, and the pool the gas. */
    method RefundGas() returns (ok: bool)
      requires gas <= initialGas && gp.gas + initialGas <= MAX_UINT64
      modifies this`gas, gp, state`balances
      ensures ok && gas == old(gas) + Refund(initialGas - old(gas), state.refund, env) <= initialGas
      ensures gp.gas == old(gp.gas) + gas
      ensures state.balances == Credited(old(state.balances), msg.from, Cost(gas, msg.gasPrice))
      ensures Total(state.balances) == Total(old(state.balances)) + Cost(gas, msg.gasPrice)
    {
      var refund := (initialGas - gas) / (if env.london then REFUND_QUOTIENT_EIP3529 else REFUND_QUOTIENT);
      if refund > state.refund {
        refund := state.refund;
      }
      gas := gas + refund;
      state.AddBalance(msg.from, Cost(gas, msg.gasPrice));
      ok := gp.AddGas(gas);
    }

    /** Applies the message. Its gas is paid for in full: the unused part returns to the
        sender and to the pool, the tip goes to the block producer, and the base fee of
        the gas used is all that is gone from the accounts beside what the machine does. */
    method TransitionDb(vm: Machine) returns (r: TxResult)
      requires gas == 0 && Priced(msg, env) && gp.gas <= MAX_UINT64 && Sound(vm)
      modifies this, gp, state
      ensures gp.gas <= old(gp.gas)
      ensures r.Failed? <==> old(FirstError(state.balances, state.Nonce(msg.from), gp.gas, msg, env)).Some?
      ensures r.Failed? ==> Some(r.error) == old(FirstError(state.balances, state.Nonce(msg.from), gp.gas, msg, env))
      ensures r.Used? ==>
        var bought := Bought(old(state.balances), msg);
        var out := vm(bought, msg.gas - Intrinsic(msg, env).value);
        var spent := msg.gas - out.gasLeft;
        && r.gas == spent - Refund(spent, out.refund, env)
        && gp.gas == old(gp.gas) - r.gas
        && Affords(msg, env) && state.balances == Settled(out.balances, msg, env, r.gas)
        && Total(state.balances) == Total(old(state.balances)) + Total(out.balances)
               - Total(bought) - Cost(r.gas, Burnt(env))
        && state.nonces == if msg.creates then old(state.nonces)
              else old(state.nonces)[msg.from := old(state.Nonce(msg.from)) + 1]
    {
      var err := Prepare();
      if err.Some? {
        return Failed(err.value);
      }
      Execute(vm);
      var used := Settle();
      return Used(used);
    }

    /** Buys the gas and takes off what the transaction costs before it runs. */
    method Prepare() returns (err: Option<TxError>)
      requires gas == 0 && Priced(msg, env) && gp.gas <= MAX_UINT64
      modifies this, gp, state`balances
      ensures err == old(FirstError(state.balances, state.Nonce(msg.from), gp.gas, msg, env))
      ensures gp.gas <= old(gp.gas)
      ensures err.None? ==>
        && Intrinsic(msg, env).Some? && Intrinsic(msg, env).value <= msg.gas
        && gas == msg.gas - Intrinsic(msg, env).value && initialGas == msg.gas && gp.gas == old(gp.gas) - msg.gas
        && state.balances == Bought(old(state.balances), msg)
        && Total(state.balances) == Total(old(state.balances)) - Cost(msg.gas, msg.gasPrice)
        && Affords(msg, env) && msg.gasPrice == Tip(msg, env) + Burnt(env)
    {
      err := PreCheck();
      if err.Some? {
        return;
      }
      var intrinsic := IntrinsicGas(msg.data, msg.accessAddresses, msg.accessKeys,
                                    msg.creates, env.homestead, env.istanbul);
      if intrinsic.None? {
        return Some(GasUintOverflow);
      }
      if gas < intrinsic.value {
        return Some(TooLittleIntrinsicGas);
      }
      gas := gas - intrinsic.value;
      if msg.value > 0 && BalanceOf(state.balances, msg.from) < msg.value {
        return Some(InsufficientFundsForTransfer);
      }
    }

    /** Refunds the sender and pays the block producer. */
    method Settle() returns (used: nat)
      requires gas <= initialGas == msg.gas && gp.gas + initialGas <= MAX_UINT64
      requires Affords(msg, env) && msg.gasPrice == Tip(msg, env) + Burnt(env)
      modifies this`gas, gp, state`balances
      ensures used == (msg.gas - old(gas)) - Refund(msg.gas - old(gas), state.refund, env)
      ensures gp.gas == old(gp.gas) + msg.gas - used
      ensures state.balances == Settled(old(state.balances), msg, env, used)
      ensures Total(state.balances) == Total(old(state.balances)) + Cost(msg.gas, msg.gasPrice) - Cost(used, Burnt(env))
    {
      var _ := RefundGas();
      used := initialGas - gas;
      state.AddBalance(env.coinbase, Cost(used, Tip(msg, env)));
      CostSplits(msg.gas, used, Tip(msg, env), Burnt(env));
    }

    method Execute(vm: Machine)
      requires Sound(vm)
      modifies this`gas, state
      ensures var out := vm(old(state.balances), old(gas));
        gas == out.gasLeft && state.balances == out.balances && state.refund == out.refund
      ensures state.nonces == if msg.creates then old(state.nonces)
          else old(state.nonces)[msg.from := old(state.Nonce(msg.from)) + 1]
    {
      if !msg.creates {
        state.nonces := state.nonces[msg.from := state.Nonce(msg.from) + 1];
      }
      var out := vm(state.balances, gas);
      gas := out.gasLeft;
      state.balances, state.refund := out.balances, out.refund;
    }
  }

  function Credited(b: Balances, a: Address, amount: nat): Balances {
    b[a := BalanceOf(b, a) + amount]
  }

  /** The balances once the unused gas is paid back and the tip of the used gas is paid. */
  function Settled(b: Balances, msg: Message, env: Env, used: nat): Balances
    requires Affords(msg, env)
  {
    Credited(Credited(b, msg.from, Cost(if used <= msg.gas then msg.gas - used else 0, msg.gasPrice)),
             env.coinbase, Cost(used, Tip(msg, env)))
  }

  function Bought(b: Balances, msg: Message): Balances {
    var cost := Cost(msg.gas, msg.gasPrice);
    b[msg.from := if cost <= BalanceOf(b, msg.from) then BalanceOf(b, msg.from) - cost else 0]
  }

  function Intrinsic(msg: Message, env: Env): Option<nat> {
    if DataGas(msg.data, msg.creates, env.homestead, env.istanbul) > MAX_UINT64 then None
    else Some(Wrap(DataGas(msg.data, msg.creates, env.homestead, env.istanbul)
                   + AccessGas(msg.accessAddresses, msg.accessKeys)))
  }

  function BuyError(b: Balances, nonce: nat, pool: nat, msg: Message, env: Env): Option<TxError> {
    if nonce < msg.nonce then Some(NonceTooHigh)
    else if nonce > msg.nonce then Some(NonceTooLow)
    else if FeeError(msg, env).Some? then FeeError(msg, env)
    else if BalanceOf(b, msg.from) < Cost(msg.gas, msg.feeCap) then Some(InsufficientFunds)
    else if pool < msg.gas then Some(GasLimitReached)
    else None
  }

  /** The first reason, in the order of the checks, for which a message is not applied. */
  function FirstError(b: Balances, nonce: nat, pool: nat, msg: Message, env: Env): Option<TxError> {
    if BuyError(b, nonce, pool, msg, env).Some? then BuyError(b, nonce, pool, msg, env)
    else if Intrinsic(msg, env).None? then Some(GasUintOverflow)
    else if msg.gas < Intrinsic(msg, env).value then Some(TooLittleIntrinsicGas)
    else if msg.value > 0 && BalanceOf(Bought(b, msg), msg.from) < msg.value then Some(InsufficientFundsForTransfer)
    else None
  }

  ghost predicate Conserving(vm: Machine) {
    Sound(vm) && forall b: Balances, gas: nat :: Total(vm(b, gas).balances) == Total(b)
  }

  datatype Receipt = Receipt(gasUsed: nat, cumulativeGasUsed: nat)

  /** The receipts of the first transactions of a block: the gas used adds up, and none
      used more than it bought. */
  ghost predicate AddUp(receipts: seq<Receipt>, msgs: seq<Message>) {
    && |receipts| <= |msgs|
    && forall i {:trigger UsedBefore(receipts, i)} :: 0 <= i < |receipts| ==>
         receipts[i].cumulativeGasUsed == receipts[i].gasUsed + UsedBefore(receipts, i)
         && receipts[i].gasUsed <= msgs[i].gas
  }

  ghost predicate AllConserving(vms: seq<Machine>) {
    forall i :: 0 <= i < |vms| ==> Conserving(vms[i])
  }

  /** The gas used before the i-th transaction. */
  function UsedBefore(receipts: seq<Receipt>, i: nat): nat
    requires i <= |receipts|
  {
    if i == 0 then 0 else receipts[i - 1].cumulativeGasUsed
  }

  /** Applies the transactions of a block in order, up to the first that is invalid. At any
      point what is left in the pool and what has been used make up the gas limit, and if
      the machine moves money without creating or destroying any, the base fee of the gas
      used is all that disappears. */
  method Process(msgs: seq<Message>, vms: seq<Machine>, env: Env, gasLimit: nat, state: StateDB)
      returns (receipts: seq<Receipt>, usedGas: nat, gp: GasPool, ok: bool)
    requires gasLimit <= MAX_UINT64 && |vms| == |msgs|
    requires forall i :: 0 <= i < |msgs| ==> Priced(msgs[i], env)
    requires forall i :: 0 <= i < |msgs| ==> Sound(vms[i])
    modifies state
    ensures gp.gas <= gasLimit && (ok ==> gp.gas + usedGas == gasLimit)
    ensures AddUp(receipts, msgs) && (ok <==> |receipts| == |msgs|) && usedGas == UsedBefore(receipts, |receipts|)
    ensures ok && AllConserving(vms) ==> Total(state.balances) + Cost(usedGas, Burnt(env)) == Total(old(state.balances))
  {
    gp := new GasPool(gasLimit);
    receipts, usedGas, ok := [], 0, true;
    while |receipts| < |msgs|
      invariant fresh(gp) && AddUp(receipts, msgs)
      invariant gp.gas + usedGas == gasLimit && usedGas == UsedBefore(receipts, |receipts|)
      invariant AllConserving(vms) ==> Total(state.balances) + Cost(usedGas, Burnt(env)) == Total(old(state.balances))
    {
      var i := |receipts|;
      var r := Apply(gp, state, msgs[i], env, vms[i]);
      if r.Failed? {
        ok := false;
        return;
      }
      CostAdds(usedGas, r.gas, Burnt(env));
      AddUpNext(receipts, Receipt(r.gas, usedGas + r.gas), msgs);
      usedGas := usedGas + r.gas;
      receipts := receipts + [Receipt(r.gas, usedGas)];
    }
  }

  lemma AddUpNext(receipts: seq<Receipt>, next: Receipt, msgs: seq<Message>)
    requires AddUp(receipts, msgs) && |receipts| < |msgs| && next.gasUsed <= msgs[|receipts|].gas
    requires next.cumulativeGasUsed == next.gasUsed + UsedBefore(receipts, |receipts|)
    ensures AddUp(receipts + [next], msgs)
  {
    var all := receipts + [next];
    forall i | 0 <= i < |all|
      ensures all[i].cumulativeGasUsed == all[i].gasUsed + UsedBefore(all, i) && all[i].gasUsed <= msgs[i].gas {
      assert UsedBefore(all, i) == UsedBefore(receipts, i);
    }
  }

  lemma CostAdds(a: nat, b: nat, price: nat)
    ensures Cost(a + b, price) == Cost(a, price) + Cost(b, price)
  {
  }

  method Apply(gp: GasPool, state: StateDB, msg: Message, env: Env, vm: Machine) returns (r: TxResult)
    requires Priced(msg, env) && gp.gas <= MAX_UINT64 && Sound(vm)
    modifies gp, state
    ensures gp.gas <= old(gp.gas)
    ensures r.Used? ==> r.gas <= msg.gas && gp.gas == old(gp.gas) - r.gas
    ensures r.Used? && Conserving(vm) ==> Total(state.balances) == Total(old(state.balances)) - Cost(r.gas, Burnt(env))
  {
    var st := new StateTransition(gp, state, msg, env);
    r := st.TransitionDb(vm);
  }
}
