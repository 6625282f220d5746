/** The exponentially decaying sample: a bounded min-heap of prioritised values,
    kept in place in one array. */
module Reservoir {
  import opened Heaps

  /** A priority; a draw of zero makes it infinite. */
  datatype Priority = Finite(value: real) | Infinite

  datatype Sample = Sample(k: Priority, v: int)

  predicate Less(a: Sample, b: Sample) {
    a.k.Finite? && (b.k.Infinite? || a.k.value < b.k.value)
  }

  lemma LessIsOrder()
    ensures IsOrder(Less)
  {
  }

  function Scaled(s: Sample, factor: real): Sample {
    Sample(if s.k.Infinite? then Infinite else Finite(s.k.value * factor), s.v)
  }

  function AllScaled(s: seq<Sample>, factor: real): (r: seq<Sample>)
    ensures |r| == |s|
  {
    seq(|s|, i requires 0 <= i < |s| => Scaled(s[i], factor))
  }

  /** A positive factor keeps priorities in order. */
  lemma ScaledOrder(a: Sample, b: Sample, factor: real)
    requires factor > 0.0
    ensures Less(Scaled(a, factor), Scaled(b, factor)) <==> Less(a, b)
  {
  }

  class SampleHeap {
    const buf: array<Sample>
    var len: nat

    ghost predicate Valid()
      reads this, buf
    {
      len <= buf.Length && IsHeap(buf[..len], Less)
    }

    ghost function Contents(): seq<Sample>
      reads this, buf
      requires len <= buf.Length
    {
      buf[..len]
    }

    constructor (reservoirSize: nat)
      ensures Valid() && len == 0 && fresh(buf) && buf.Length == reservoirSize
    {
      buf := new Sample[reservoirSize](_ => Sample(Finite(0.0), 0));
      len := 0;
    }

    method Clear()
      modifies this`len
      ensures Valid() && len == 0
    {
      len := 0;
    }

    /** Sifts the element at `j` up. */
    method SiftUp(start: nat)
      requires start < len <= buf.Length
      modifies buf
      ensures buf[..len] == Up(old(buf[..len]), start, Less)
      ensures buf[len..] == old(buf[len..])
    {
      var j: nat := start;
      while 0 < j && Less(buf[j], buf[Parent(j)])
        invariant j < len
        invariant Up(buf[..len], j, Less) == Up(old(buf[..len]), start, Less)
        invariant buf[len..] == old(buf[len..])
        decreases j
      {
        var i := Parent(j);
        ghost var before := buf[..len];
        buf[i], buf[j] := buf[j], buf[i];
        assert buf[..len] == Swap(before, i, j);
        j := i;
      }
    }

    /** Sifts the element at `start` down within the first `n`. */
    method SiftDown(start: nat, n: nat)
      requires n <= len <= buf.Length
      modifies buf
      ensures buf[..len] == Down(old(buf[..len]), start, n, Less, true)
      ensures buf[len..] == old(buf[len..])
    {
      var i: nat := start;
      while 2 * i + 1 < n
        invariant Down(buf[..len], i, n, Less, true) == Down(old(buf[..len]), start, n, Less, true)
        invariant buf[len..] == old(buf[len..])
        decreases n - i
      {
        var j: nat := 2 * i + 1;
        if j + 1 < n && !Less(buf[j], buf[j + 1]) {
          j := j + 1;
        }
        assert j == LesserChild(buf[..len], i, n, Less, true);
        if !Less(buf[j], buf[i]) {
          return;
        }
        ghost var before := buf[..len];
        buf[i], buf[j] := buf[j], buf[i];
        assert buf[..len] == Swap(before, i, j);
        i := j;
      }
    }

    method Push(s: Sample)
      requires Valid() && len < buf.Length
      modifies this`len, buf
      ensures Valid() && len == old(len) + 1
      ensures Contents() == Heaps.Push(old(Contents()), s, Less)
      ensures multiset(Contents()) == multiset(old(Contents())) + multiset{s}
      ensures buf[len..] == old(buf[len + 1..])
    {
      var n := len;
      len := n + 1;
      buf[n] := s;
      assert buf[..len] == old(buf[..len]) + [s];
      SiftUp(n);
      LessIsOrder();
      PushHeap(old(buf[..len]), s, Less);
    }

    /** Takes out the first sample and restores the heap in place. */
    method TakeFirst() returns (s: Sample)
      requires 0 < len <= buf.Length
      modifies this`len, buf
      ensures len == old(len) - 1
      ensures s == old(Contents())[0] && Contents() == Heaps.Pop(old(Contents()), Less, true)
    {
      ghost var h := buf[..len];
      var n: nat := len - 1;
      buf[0], buf[n] := buf[n], buf[0];
      assert buf[..len] == Swap(h, 0, n);
      SiftDown(0, n);
      ghost var r := buf[..len];
      assert r[n] == h[0];
      s := buf[n];
      len := n;
      assert buf[..n] == r[..n];
    }

    /** Takes out a sample of the lowest priority. */
    method Pop() returns (s: Sample)
      requires Valid() && 0 < len
      modifies this`len, buf
      ensures Valid() && len == old(len) - 1
      ensures multiset(old(Contents())) == multiset{s} + multiset(Contents())
      ensures forall x :: x in old(Contents()) ==> !Less(x, s)
    {
      ghost var h := Contents();
      LessIsOrder();
      s := TakeFirst();
      PopHeap(h, Less, true);
      AllLeast(h, Less);
    }

    /** Multiplies every priority while pushing the samples back into the array
        they are read from. Every sample ends up where it was. */
    method Rescale(factor: real)
      requires Valid() && factor > 0.0
      modifies this`len, buf
      ensures Valid() && len == old(len)
      ensures Contents() == AllScaled(old(Contents()), factor)
    {
      ghost var h := buf[..len];
      var m := len;
      Clear();
      var i: nat := 0;
      while i < m
        invariant i <= m && Rescaled(h, i, m, factor)
      {
        PushScaled(h, i, m, factor);
        i := i + 1;
      }
    }

    /** The first `i` samples of a heap of `m` are pushed back scaled, the rest is unread. */
    ghost predicate Rescaled(h: seq<Sample>, i: nat, m: nat, factor: real)
      reads this, buf
    {
      && i <= m == |h| && m <= buf.Length && len == i && Valid()
      && buf[..i] == AllScaled(h, factor)[..i] && buf[i..m] == h[i..]
    }

    method PushScaled(ghost h: seq<Sample>, i: nat, ghost m: nat, factor: real)
      requires factor > 0.0 && IsHeap(h, Less) && i < m && Rescaled(h, i, m, factor)
      modifies this`len, buf
      ensures Rescaled(h, i + 1, m, factor)
    {
      assert buf[i] == buf[i..m][0] == h[i];
      PushInPlace(h, i, factor);
      ghost var rest := buf[i + 1..];
      assert rest[..m - i - 1] == h[i + 1..] by {
        assert buf[i..m][1..] == rest[..m - i - 1];
      }
      Push(Scaled(buf[i], factor));
      assert buf[i + 1..m] == buf[i + 1..][..m - i - 1];
    }
  }

  /** Pushing the next sample of a scaled heap moves nothing. */
  lemma PushInPlace(h: seq<Sample>, i: nat, factor: real)
    requires IsHeap(h, Less) && i < |h| && factor > 0.0
    ensures Heaps.Push(AllScaled(h, factor)[..i], Scaled(h[i], factor), Less) == AllScaled(h, factor)[..i + 1]
  {
    var s := AllScaled(h, factor);
    assert s[..i] + [Scaled(h[i], factor)] == s[..i + 1];
    if 0 < i {
      ScaledOrder(h[i], h[Parent(i)], factor);
    }
  }

  const RESCALE_THRESHOLD := 3600.0

  datatype Observation = Observation(t: real, v: int, random: real)

  class ExpDecaySample {
    const alpha: real
    const reservoirSize: nat
    const exp: real -> real
    const values: SampleHeap
    var count: nat
    var t0: real
    var t1: real

    ghost predicate Valid()
      reads this, values, values.buf
    {
      && values.Valid()
      && values.buf.Length == reservoirSize
      && 0 < reservoirSize
      && forall x :: exp(x) > 0.0
    }

    constructor (reservoirSize: nat, alpha: real, exp: real -> real, now: real)
      requires 0 < reservoirSize
      requires forall x :: exp(x) > 0.0
      ensures Valid() && values.len == 0 && count == 0
      ensures fresh(values) && fresh(values.buf)
      ensures this.reservoirSize == reservoirSize && this.alpha == alpha && this.exp == exp
      ensures t0 == now && t1 == now + RESCALE_THRESHOLD
    {
      this.reservoirSize, this.alpha, this.exp := reservoirSize, alpha, exp;
      values := new SampleHeap(reservoirSize);
      count, t0, t1 := 0, now, now + RESCALE_THRESHOLD;
    }

    /** A value with its priority, which grows with time and shrinks with the draw. */
    function Newcomer(o: Observation, since: real): Sample {
      Sample(if o.random == 0.0 then Infinite else Finite(exp((o.t - since) * alpha) / o.random), o.v)
    }

    /** The factor that moves priorities from one landmark time to a later one. */
    function Decay(t: real, since: real): real {
      exp(-alpha * (t - since))
    }

    /** Makes room if the reservoir is full and pushes the newcomer. */
    method Admit(newcomer: Sample) returns (ghost dropped: seq<Sample>)
      requires Valid()
      modifies values`len, values.buf
      ensures Valid()
      ensures Admitted(old(values.Contents()), newcomer, dropped, values.Contents())
      ensures |dropped| == if old(values.len) == reservoirSize then 1 else 0
      ensures values.len == old(values.len) + 1 - |dropped|
    {
      dropped := [];
      ghost var before := values.Contents();
      if values.len == reservoirSize {
        var least := values.Pop();
        dropped := [least];
      }
      ghost var rest := values.Contents();
      values.Push(newcomer);
      KeptMembers(before, dropped, rest, newcomer, values.Contents());
    }

    /** Samples a new value. `dropped` is the sample that had to go, if the
        reservoir was full, and `kept` what the reservoir held before a rescale. */
    method Update(o: Observation) returns (ghost dropped: seq<Sample>, ghost kept: seq<Sample>)
      requires Valid()
      modifies this`count, this`t0, this`t1, values`len, values.buf
      ensures Valid() && count == old(count) + 1
      ensures |dropped| == if old(values.len) == reservoirSize then 1 else 0
      ensures values.len == old(values.len) + 1 - |dropped|
      ensures Admitted(old(values.Contents()), Newcomer(o, old(t0)), dropped, kept)
      ensures
        if o.t <= old(t1) then values.Contents() == kept && t0 == old(t0) && t1 == old(t1)
        else values.Contents() == AllScaled(kept, Decay(o.t, old(t0))) && t0 == o.t && t1 == o.t + RESCALE_THRESHOLD
    {
      count := count + 1;
      dropped := Admit(Newcomer(o, t0));
      kept := values.Contents();
      if o.t > t1 {
        var since := t0;
        t0, t1 := o.t, o.t + RESCALE_THRESHOLD;
        values.Rescale(Decay(o.t, since));
      }
    }

    /** Over any run of updates the reservoir stays a heap within its size. */
    method UpdateAll(observations: seq<Observation>)
      requires Valid()
      modifies this`count, this`t0, this`t1, values`len, values.buf
      ensures Valid() && count == old(count) + |observations|
      ensures values.len == if old(values.len) + |observations| <= reservoirSize
                            then old(values.len) + |observations| else reservoirSize
    {
      var i: nat := 0;
      while i < |observations|
        invariant i <= |observations|
        invariant Valid() && count == old(count) + i
        invariant values.len == if old(values.len) + i <= reservoirSize then old(values.len) + i else reservoirSize
      {
        ghost var dropped, kept := Update(observations[i]);
        i := i + 1;
      }
    }
  }

  /** The newcomer joined, and if a sample had to go it was one of the lowest
      priority. The newcomer always stays, so the reservoir holds the samples of
      highest priority just when the newcomer is not below the one that went. */
  ghost predicate Admitted(before: seq<Sample>, newcomer: Sample, dropped: seq<Sample>, kept: seq<Sample>) {
    && multiset(before) + multiset{newcomer} == multiset(dropped) + multiset(kept)
    && multiset(dropped) <= multiset(before)
    && (dropped != [] ==>
          && (forall x :: x in before ==> !Less(x, dropped[0]))
          && ((forall x :: x in kept ==> !Less(x, dropped[0])) <==> !Less(newcomer, dropped[0])))
  }

  lemma KeptMembers(before: seq<Sample>, dropped: seq<Sample>, rest: seq<Sample>, newcomer: Sample, kept: seq<Sample>)
    requires multiset(before) == multiset(dropped) + multiset(rest)
    requires multiset(kept) == multiset(rest) + multiset{newcomer}
    requires dropped != [] ==> forall x :: x in before ==> !Less(x, dropped[0])
    ensures Admitted(before, newcomer, dropped, kept)
  {
    forall x | x in kept ensures x == newcomer || x in before {
      assert x in multiset(kept);
      assert x == newcomer || x in multiset(rest);
      assert x == newcomer || x in multiset(before);
    }
    assert newcomer in multiset(kept);
  }

  /** In a full reservoir of one, a newcomer below the sample it holds takes its place. */
  method TakeLower(reservoir: ExpDecaySample, o: Observation)
    requires reservoir.Valid() && reservoir.values.len == 1 == reservoir.reservoirSize && o.t <= reservoir.t1
    requires Less(reservoir.Newcomer(o, reservoir.t0), reservoir.values.Contents()[0])
    modifies reservoir, reservoir.values, reservoir.values.buf
    ensures reservoir.Valid() && reservoir.count == old(reservoir.count) + 1
    ensures reservoir.values.Contents() == [reservoir.Newcomer(o, old(reservoir.t0))]
    ensures Less(reservoir.values.Contents()[0], old(reservoir.values.Contents())[0])
  {
    ghost var before := reservoir.values.Contents();
    ghost var dropped, kept := reservoir.Update(o);
    TakesOver(before, reservoir.Newcomer(o, old(reservoir.t0)), dropped, kept);
  }

  /** A reservoir of one holds a sample drawn with a quarter. A newcomer drawn with a half
      takes its place, although it is below everything that was held. */
  method LowerNewcomer() returns (reservoir: ExpDecaySample, ghost before: seq<Sample>)
    ensures reservoir.Valid() && reservoir.count == 2 && |before| == |reservoir.values.Contents()| == 1
    ensures before[0].v == 10 && reservoir.values.Contents()[0].v == 20
    ensures Less(reservoir.values.Contents()[0], before[0])
  {
    reservoir := new ExpDecaySample(1, 0.0, _ => 1.0, 0.0);
    var first, second := Observation(0.0, 10, 0.25), Observation(1.0, 20, 0.5);
    ghost var empty := reservoir.values.Contents();
    ghost var dropped, kept := reservoir.Update(first);
    FirstIn(empty, reservoir.Newcomer(first, 0.0), dropped, kept);
    before := reservoir.values.Contents();
    TakeLower(reservoir, second);
  }

  lemma FirstIn(before: seq<Sample>, newcomer: Sample, dropped: seq<Sample>, kept: seq<Sample>)
    requires before == dropped == [] && Admitted(before, newcomer, dropped, kept)
    ensures kept == [newcomer]
  {
    assert multiset(before) + multiset{newcomer} == multiset{newcomer} == multiset(dropped) + multiset(kept);
    assert multiset(kept) == multiset{newcomer};
    assert |kept| == |multiset(kept)| == 1;
    assert kept[0] in multiset(kept);
  }

  /** In a reservoir of one the newcomer takes the place of what was held, high or low. */
  lemma TakesOver(before: seq<Sample>, newcomer: Sample, dropped: seq<Sample>, kept: seq<Sample>)
    requires |before| == |dropped| == 1 && Admitted(before, newcomer, dropped, kept)
    ensures dropped == before && kept == [newcomer]
  {
    assert before == [before[0]] && dropped == [dropped[0]];
    assert dropped[0] in multiset(before);
    var one := multiset{before[0]};
    assert one + multiset{newcomer} == one + multiset(kept);
    assert multiset(kept) == one + multiset(kept) - one;
    assert |kept| == |multiset(kept)| == 1;
    assert kept[0] in multiset(kept);
  }
}
