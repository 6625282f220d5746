/** The rounds of the validator election: confirm points, round numbers, and which
    validator seals which block. */
module Rounds {
  const INTERVAL_CONFIRM_POINT: nat := 64

  /** How many blocks before the end of an epoch its confirm point is. */
  function ConfirmBlocks(epoch: nat): (c: nat)
    ensures c <= epoch && (epoch > 1 ==> 0 < c < epoch) && (epoch <= 1 ==> c == 0)
  {
    if epoch > INTERVAL_CONFIRM_POINT then INTERVAL_CONFIRM_POINT else epoch / 2
  }

  function RoundId(number: nat, epoch: nat): nat
    requires epoch > 0
  {
    if number == 0 then 0 else
      var factor := number + ConfirmBlocks(epoch) + epoch - 1;
      (factor - factor % epoch) / epoch
  }

  /** The end of the epoch that a block is in. */
  function EpochEnd(number: nat, epoch: nat): (end: nat)
    requires epoch > 0
    ensures number < end && epoch <= end
  {
    EndAfter(number, epoch);
    (number / epoch + 1) * epoch
  }

  lemma EndAfter(number: nat, epoch: nat)
    requires epoch > 0
    ensures number < (number / epoch + 1) * epoch && epoch <= (number / epoch + 1) * epoch
  {
    assert number == number / epoch * epoch + number % epoch;
    assert number / epoch * epoch >= 0;
  }

  predicate IsConfirmPoint(number: nat, epoch: nat)
    requires epoch > 0
  {
    number % (EpochEnd(number, epoch) - ConfirmBlocks(epoch)) == 0
  }

  function LastConfirmPoint(number: nat, epoch: nat): (p: int)
    requires epoch > 0
  {
    if number <= epoch then 0 else (number - 1) / epoch * epoch - ConfirmBlocks(epoch)
  }

  function CurrentConfirmPoint(number: nat, epoch: nat): int
    requires epoch > 0
  {
    var last := LastConfirmPoint(number, epoch);
    if last == 0 then epoch - ConfirmBlocks(epoch) else last + epoch
  }

  lemma Divided(a: int, q: int, r: int, epoch: nat)
    requires 0 <= r < epoch && a == q * epoch + r
    ensures a / epoch == q && a % epoch == r
  {
    var p, s := a / epoch, a % epoch;
    assert p * epoch + s == q * epoch + r;
    assert (p - q) * epoch == p * epoch - q * epoch;
    SmallMultiple(p - q, epoch);
  }

  lemma SmallMultiple(x: int, epoch: nat)
    requires -1 * epoch < x * epoch < epoch
    ensures x == 0
  {
  }

  /** The last confirm point of a block beyond the first epoch. */
  lemma LastPointAt(number: nat, epoch: nat)
    requires epoch > 0 && number > epoch
    ensures var q := (number - 1) / epoch;
      q >= 1 && LastConfirmPoint(number, epoch) == q * epoch - ConfirmBlocks(epoch) > 0
  {
  }

  /** The round of the last confirm point of a block counts the epochs before the block. */
  lemma RoundOfLastPoint(number: nat, epoch: nat)
    requires epoch > 0 && number > 0
    ensures LastConfirmPoint(number, epoch) >= 0
    ensures RoundId(LastConfirmPoint(number, epoch), epoch) == (number - 1) / epoch
  {
    if number <= epoch {
      Divided(number - 1, 0, number - 1, epoch);
    } else {
      LastPointAt(number, epoch);
      var q := (number - 1) / epoch;
      Divided(q * epoch + epoch - 1, q, epoch - 1, epoch);
      var factor := q * epoch + epoch - 1;
      assert factor - factor % epoch == q * epoch;
      Divided(q * epoch, q, 0, epoch);
    }
  }

  /** Where the epoch is at most twice as long as the confirm interval, and longer than
      it, twice the first confirm point is taken for one as well. */
  predicate Regular(epoch: nat) {
    2 <= epoch <= 64 || epoch >= 128
  }

  /** A multiple of the confirm point of its own epoch is that point, in a regular epoch. */
  lemma OnlyMultiple(number: nat, epoch: nat)
    requires Regular(epoch) && number > 0
    ensures IsConfirmPoint(number, epoch) <==> number == EpochEnd(number, epoch) - ConfirmBlocks(epoch)
  {
    var top := EpochEnd(number, epoch);
    MultipleBelow(number, top, ConfirmBlocks(epoch));
  }

  lemma MultipleBelow(number: nat, top: nat, c: nat)
    requires 0 < number < top && 2 * c <= top && c < top
    ensures number % (top - c) == 0 <==> number == top - c
  {
    var d := top - c;
    if number < d {
      Divided(number, 0, number, d);
    } else {
      Divided(number, 1, number - d, d);
    }
  }

  lemma CurrentPointAt(number: nat, epoch: nat)
    requires epoch > 0 && number > 0
    ensures CurrentConfirmPoint(number, epoch) == EpochEnd(number - 1, epoch) - ConfirmBlocks(epoch)
  {
    if number <= epoch {
      Divided(number - 1, 0, number - 1, epoch);
    } else {
      LastPointAt(number, epoch);
    }
  }

  /** A block is in the same epoch as the one before it, or it begins the next. */
  lemma EpochOfNext(number: nat, epoch: nat)
    requires epoch > 0 && number > 0
    ensures var end, before := EpochEnd(number, epoch), EpochEnd(number - 1, epoch);
      end == before || (end == before + epoch && number == before)
  {
    var q, r := (number - 1) / epoch, (number - 1) % epoch;
    assert number == q * epoch + r + 1;
    if r + 1 < epoch {
      Divided(number, q, r + 1, epoch);
    } else {
      assert number == (q + 1) * epoch;
      Divided(number, q + 1, 0, epoch);
      assert (q + 2) * epoch == (q + 1) * epoch + epoch;
    }
  }

  /** In a regular epoch the two notions of a confirm point agree on every block. */
  lemma ConfirmPointsAgree(number: nat, epoch: nat)
    requires Regular(epoch) && number > 0
    ensures IsConfirmPoint(number, epoch) <==> number == CurrentConfirmPoint(number, epoch)
  {
    OnlyMultiple(number, epoch);
    CurrentPointAt(number, epoch);
    EpochOfNext(number, epoch);
  }

  /** In any other epoch they disagree on some block. */
  lemma ConfirmPointsDisagree(epoch: nat) returns (number: nat)
    requires epoch > 0 && !Regular(epoch)
    ensures number > 0 && (IsConfirmPoint(number, epoch) <==> number != CurrentConfirmPoint(number, epoch))
  {
    if epoch == 1 {
      number := 1;
      assert IsConfirmPoint(1, 1) == (1 % 2 == 0);
    } else {
      number := 2 * (epoch - 64);
      Divided(number, 0, number, epoch);
      Divided(number, 2, 0, epoch - 64);
      CurrentPointAt(number, epoch);
      Divided(number - 1, 0, number - 1, epoch);
    }
  }

  /** The two notions agree on all blocks just when the epoch is regular. */
  lemma ConfirmPointsAgreeIff(epoch: nat)
    requires epoch > 0
    ensures Regular(epoch) <==> forall number: nat ::
      number > 0 ==> (IsConfirmPoint(number, epoch) <==> number == CurrentConfirmPoint(number, epoch))
  {
    if Regular(epoch) {
      forall number: nat | number > 0
        ensures IsConfirmPoint(number, epoch) <==> number == CurrentConfirmPoint(number, epoch) {
        ConfirmPointsAgree(number, epoch);
      }
    } else {
      var number := ConfirmPointsDisagree(epoch);
    }
  }

  /** Which of `n` validators seals a block. */
  function SealIndex(number: nat, epoch: nat, n: nat): nat
    requires epoch > 0 && n > 0
  {
    number % epoch % n
  }

  /** How many of a number of consecutive blocks a validator seals. */
  function SealedIn(from: nat, count: nat, epoch: nat, n: nat, i: nat): nat
    requires epoch > 0 && n > 0
  {
    if count == 0 then 0
    else SealedIn(from, count - 1, epoch, n, i) + if SealIndex(from + count - 1, epoch, n) == i then 1 else 0
  }

  lemma {:induction false} SealedSplit(from: nat, a: nat, b: nat, epoch: nat, n: nat, i: nat)
    requires epoch > 0 && n > 0
    ensures SealedIn(from, a + b, epoch, n, i) == SealedIn(from, a, epoch, n, i) + SealedIn(from + a, b, epoch, n, i)
    decreases b
  {
    if b > 0 {
      SealedSplit(from, a, b - 1, epoch, n, i);
    }
  }

  /** One validator's share of the first `m` places when `n` take turns. */
  function Share(m: nat, n: nat, i: nat): nat
    requires n > 0
  {
    m / n + if i < m % n then 1 else 0
  }

  lemma ShareNext(m: nat, n: nat, i: nat)
    requires i < n
    ensures Share(m + 1, n, i) == Share(m, n, i) + if m % n == i then 1 else 0
  {
    var q, r := m / n, m % n;
    assert m == q * n + r;
    if r + 1 < n {
      Divided(m + 1, q, r + 1, n);
    } else {
      assert m + 1 == (q + 1) * n;
      Divided(m + 1, q + 1, 0, n);
    }
  }

  /** Within one epoch a validator seals its share of the leading blocks. */
  lemma {:induction false} SealedLeading(start: nat, m: nat, epoch: nat, n: nat, i: nat)
    requires epoch > 0 && i < n && m <= epoch
    ensures SealedIn(start * epoch, m, epoch, n, i) == Share(m, n, i)
    decreases m
  {
    if m == 0 {
      Divided(0, 0, 0, n);
    } else {
      SealedLeading(start, m - 1, epoch, n, i);
      Divided(start * epoch + m - 1, start, m - 1, epoch);
      ShareNext(m - 1, n, i);
    }
  }

  /** Of the blocks of a round, those with the same last confirm point, each of `n`
      validators seals its share: the epoch divided by `n`, rounded down or up. */
  lemma SealedInRound(round: nat, epoch: nat, n: nat, i: nat)
    requires epoch > 0 && i < n
    ensures SealedIn(round * epoch + 1, epoch, epoch, n, i) == Share(epoch, n, i)
  {
    var start := round * epoch;
    SealedLeading(round, epoch, epoch, n, i);
    Divided(start, round, 0, epoch);
    Divided(start + epoch, round + 1, 0, epoch);
    SealedShifted(start, epoch, n, i);
  }

  lemma SealedShifted(start: nat, epoch: nat, n: nat, i: nat)
    requires epoch > 0 && i < n && SealIndex(start, epoch, n) == SealIndex(start + epoch, epoch, n)
    ensures SealedIn(start + 1, epoch, epoch, n, i) == SealedIn(start, epoch, epoch, n, i)
  {
    SealedSplit(start, 1, epoch, epoch, n, i);
    assert SealedIn(start, 1, epoch, n, i) == SealedIn(start, 0, epoch, n, i) +
      if SealIndex(start, epoch, n) == i then 1 else 0;
    assert SealedIn(start, epoch + 1, epoch, n, i) == SealedIn(start, epoch, epoch, n, i) +
      if SealIndex(start + epoch, epoch, n) == i then 1 else 0;
  }

  type Validator = nat

  /** The validators elected last up to a round. */
  function Elected(rounds: map<nat, seq<Validator>>, round: nat): seq<Validator> {
    if round in rounds && rounds[round] != [] then rounds[round]
    else if round == 0 then []
    else Elected(rounds, round - 1)
  }

  /** The lists of validators, cached by confirm point over the stored elections. */
  class Validators {
    const epoch: nat
    const rounds: map<nat, seq<Validator>>
    var cache: map<nat, seq<Validator>>

    ghost predicate Valid()
      reads this
    {
      epoch > 0 ==> forall p: nat :: p in cache ==> cache[p] == Elected(rounds, RoundId(p, epoch))
    }

    constructor (epoch: nat, rounds: map<nat, seq<Validator>>)
      ensures Valid() && this.epoch == epoch && this.rounds == rounds
    {
      this.epoch, this.rounds, cache := epoch, rounds, map[];
    }

    /** The validators in charge of a block: those elected last in the rounds before its
        epoch, cached or not. */
    method Get(number: nat) returns (accounts: seq<Validator>)
      requires Valid()
      modifies this
      ensures Valid()
      ensures accounts == if epoch == 0 then [] else Elected(rounds, if number == 0 then 0 else (number - 1) / epoch)
    {
      if epoch == 0 {
        return [];
      }
      if number > 0 {
        RoundOfLastPoint(number, epoch);
      }
      var point := LastConfirmPoint(number, epoch);
      if point in cache && cache[point] != [] {
        return cache[point];
      }
      var round := RoundId(point, epoch);
      accounts := if round in rounds then rounds[round] else [];
      while accounts == [] && round > 0
        invariant Elected(rounds, RoundId(point, epoch)) == Elected(rounds, round)
        invariant accounts == if round in rounds then rounds[round] else []
        decreases round
      {
        round := round - 1;
        accounts := if round in rounds then rounds[round] else [];
      }
      if accounts != [] {
        cache := cache[point := accounts];
      }
    }
  }
}
