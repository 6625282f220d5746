/** One-to-many event feed. While a value is sent, one array holds all subscribed channels,
    those still to be served first; channels may be unsubscribed in the middle of it. */
module Feeds {
  import opened Heaps

  /** A select case: the control channel for unsubscriptions, or a subscribed channel. */
  datatype Case = RemoveSub | Channel(id: nat)

  const FIRST_SUB_SEND_CASE := 1

  function Without(s: seq<Case>, i: nat): (r: seq<Case>)
    requires i < |s|
    ensures |r| == |s| - 1
  {
    s[..i] + s[i + 1..]
  }

  /** The first `m` of the cases are active. All there were at the start have been served,
      are still active or were removed early, before they were served. */
  ghost predicate Split(cases: seq<Case>, m: nat, start: multiset<Case>, served: seq<Case>, removed: multiset<Case>,
                        early: multiset<Case>) {
    && 1 <= m <= |cases| && cases[0] == RemoveSub
    && multiset(cases[..m]) + multiset(served) + early == start
    && multiset(cases) + removed == start
    && early <= removed
  }

  lemma WithoutMultiset(s: seq<Case>, i: nat)
    requires i < |s|
    ensures multiset(s) == multiset(Without(s, i)) + multiset{s[i]}
  {
    assert s == s[..i] + [s[i]] + s[i + 1..];
  }

  lemma WithoutRest(s: seq<Case>, i: nat)
    requires 1 <= i < |s|
    ensures multiset(Without(s, i)[1..]) == multiset(s[1..]) - multiset{s[i]}
    ensures forall x :: x in Without(s, i)[1..] ==> x in s[1..]
  {
    WithoutMultiset(s[1..], i - 1);
    assert Without(s, i)[1..] == Without(s[1..], i - 1);
  }

  lemma SwappedActive(cases: seq<Case>, m: nat, i: nat)
    requires i < m <= |cases|
    ensures multiset(cases[..m]) == multiset(Swap(cases, i, m - 1)[..m - 1]) + multiset{cases[i]}
  {
    SwapMultiset(cases[..m], i, m - 1);
    assert Swap(cases[..m], i, m - 1) == Swap(cases, i, m - 1)[..m - 1] + [cases[i]];
  }

  lemma WithoutActive(cases: seq<Case>, m: nat, i: nat)
    requires i < |cases| && m <= |cases|
    ensures i < m ==> multiset(cases[..m]) == multiset(Without(cases, i)[..m - 1]) + multiset{cases[i]}
    ensures i >= m ==> Without(cases, i)[..m] == cases[..m]
  {
    if i < m {
      WithoutMultiset(cases[..m], i);
      assert Without(cases[..m], i) == Without(cases, i)[..m - 1];
    }
  }

  /** Serving an active channel swaps it behind the active ones. */
  lemma SplitServed(cases: seq<Case>, m: nat, i: nat, start: multiset<Case>, served: seq<Case>,
                    removed: multiset<Case>, early: multiset<Case>)
    requires Split(cases, m, start, served, removed, early) && 1 <= i < m
    ensures Split(Swap(cases, i, m - 1), m - 1, start, served + [cases[i]], removed, early)
  {
    SwapMultiset(cases, i, m - 1);
    SwappedActive(cases, m, i);
  }

  /** Removing a channel closes the gap, among the active ones too if it was active. */
  lemma SplitRemoved(cases: seq<Case>, m: nat, i: nat, start: multiset<Case>, served: seq<Case>,
                     removed: multiset<Case>, early: multiset<Case>, after: seq<Case>)
    requires Split(cases, m, start, served, removed, early) && 1 <= i < |cases| && after == Without(cases, i)
    ensures i < m ==> Split(after, m - 1, start, served, removed + multiset{cases[i]}, early + multiset{cases[i]})
    ensures i >= m ==> Split(after, m, start, served, removed + multiset{cases[i]}, early)
  {
    WithoutMultiset(cases, i);
    WithoutActive(cases, m, i);
  }

  /** The first place of a case in a list, or -1. */
  method FindFirst(cases: seq<Case>, c: Case) returns (index: int)
    ensures -1 <= index < |cases|
    ensures index >= 0 ==> cases[index] == c && c !in cases[..index]
    ensures index < 0 ==> c !in cases
  {
    index := 0;
    while index < |cases|
      invariant 0 <= index <= |cases| && c !in cases[..index]
    {
      if cases[index] == c {
        return;
      }
      index := index + 1;
    }
    index := -1;
  }

  class Feed {
    /** The array behind the send cases; the first `n` slots are in use. */
    var slots: array<Case>
    var n: nat
    /** Channels that wait for the next value before they join the send cases. */
    var inbox: seq<Case>

    ghost predicate Valid()
      reads this, slots
    {
      1 <= n <= slots.Length && slots[0] == RemoveSub && RemoveSub !in slots[1..n] && RemoveSub !in inbox
    }

    ghost function Cases(): seq<Case>
      requires n <= slots.Length
      reads this, slots
    {
      slots[..n]
    }

    constructor ()
      ensures Valid() && Cases() == [RemoveSub] && inbox == [] && fresh(slots)
    {
      slots := new Case[1](_ => RemoveSub);
      n, inbox := 1, [];
    }

    method Subscribe(id: nat)
      requires Valid()
      modifies this`inbox
      ensures Valid() && inbox == old(inbox) + [Channel(id)]
    {
      inbox := inbox + [Channel(id)];
    }

    /** All subscribed channels. */
    ghost function Subscribed(): multiset<Case>
      requires 1 <= n <= slots.Length
      reads this, slots
    {
      multiset(slots[1..n]) + multiset(inbox)
    }

    /** Moves the waiting channels in with the send cases. */
    method Collect()
      requires Valid()
      modifies this
      ensures Valid() && fresh(slots) && inbox == [] && Cases() == old(Cases()) + old(inbox)
      ensures multiset(Cases()) == old(Subscribed()) + multiset{RemoveSub}
    {
      var cases := slots[..n] + inbox;
      slots := new Case[|cases|](i requires 0 <= i < |cases| => cases[i]);
      n, inbox := |cases|, [];
      assert slots[..] == cases;
      assert cases == [RemoveSub] + (old(slots[1..n]) + old(inbox));
    }

    /** The first place of a case, or -1. */
    method Find(c: Case) returns (index: int)
      requires n <= slots.Length
      ensures -1 <= index < n
      ensures index >= 0 ==> slots[index] == c && c !in slots[..index]
      ensures index < 0 ==> c !in slots[..n]
    {
      index := FindFirst(slots[..n], c);
      assert index >= 0 ==> slots[..n][..index] == slots[..index];
    }

    /** Unsubscribes a channel while no value is being sent: it leaves the inbox if it is
        there, or else the send cases. */
    method Remove(id: nat)
      requires Valid() && Channel(id) in Subscribed()
      modifies this, slots
      ensures Valid() && slots == old(slots) && Subscribed() == old(Subscribed()) - multiset{Channel(id)}
      ensures Channel(id) in old(inbox) ==> Cases() == old(Cases())
    {
      var i := FindFirst(inbox, Channel(id));
      if i >= 0 {
        WithoutMultiset(inbox, i);
        inbox := Without(inbox, i);
      } else {
        RemoveSend(Channel(id));
      }
    }

    method RemoveSend(channel: Case)
      requires Valid() && channel in slots[1..n]
      modifies this`n, slots
      ensures Valid() && slots == old(slots)
      ensures multiset(slots[1..n]) == old(multiset(slots[1..n])) - multiset{channel}
    {
      var index := Find(channel);
      assert Cases()[1..] == slots[1..n];
      WithoutRest(Cases(), index);
      Delete(index);
      assert Cases()[1..] == slots[1..n];
    }

    /** Closes the gap at a place by moving what follows it in the array. */
    method Delete(index: nat)
      requires n <= slots.Length && index < n
      modifies this`n, slots
      ensures slots == old(slots) && n == old(n) - 1 && Cases() == Without(old(Cases()), index)
    {
      var k := index;
      while k + 1 < n
        invariant index <= k < n == old(n)
        invariant forall j :: 0 <= j < index ==> slots[j] == old(slots[j])
        invariant forall j :: index <= j < k ==> slots[j] == old(slots[j + 1])
        invariant forall j :: k < j < n ==> slots[j] == old(slots[j])
      {
        slots[k] := slots[k + 1];
        k := k + 1;
      }
      n := n - 1;
    }

    /** Swaps a case behind the active ones. */
    method Deactivate(i: nat, m: nat)
      requires i < m <= n <= slots.Length
      modifies slots
      ensures Cases() == Swap(old(Cases()), i, m - 1)
    {
      slots[i], slots[m - 1] := slots[m - 1], slots[i];
    }

    /** Delivers the value to an active channel. */
    method Serve(i: nat, m: nat, ghost start: multiset<Case>, served0: seq<Case>, ghost removed: multiset<Case>,
                 ghost early: multiset<Case>)
        returns (served: seq<Case>)
      requires n <= slots.Length && 1 <= i < m <= n && Split(Cases(), m, start, served0, removed, early)
      modifies slots
      ensures served == served0 + [old(slots[i])] && Split(Cases(), m - 1, start, served, removed, early)
    {
      SplitServed(Cases(), m, i, start, served0, removed, early);
      served := served0 + [slots[i]];
      Deactivate(i, m);
    }

    /** Takes an unsubscribed channel out, and out of the active ones if it is among them. */
    method Drop(channel: Case, m0: nat, ghost start: multiset<Case>, ghost served: seq<Case>,
                ghost removed0: multiset<Case>, ghost early0: multiset<Case>)
        returns (m: nat, ghost removed: multiset<Case>, ghost early: multiset<Case>)
      requires n <= slots.Length && m0 <= n && channel != RemoveSub && channel in slots[..n]
      requires Split(Cases(), m0, start, served, removed0, early0)
      modifies this`n, slots
      ensures slots == old(slots) && n == old(n) - 1 && m <= m0
      ensures m <= n && Split(Cases(), m, start, served, removed, early) && removed == removed0 + multiset{channel}
    {
      var index := Find(channel);
      removed := removed0 + multiset{channel};
      if index < m0 {
        early := early0 + multiset{channel};
        m := m0 - 1;
        DeleteCase(index, m0, start, served, removed0, early0);
      } else {
        early := early0;
        m := m0;
        DeleteCase(index, m0, start, served, removed0, early0);
      }
    }

    method DeleteCase(index: nat, ghost m: nat, ghost start: multiset<Case>, ghost served: seq<Case>,
                      ghost removed: multiset<Case>, ghost early: multiset<Case>)
      requires n <= slots.Length && m <= n && 1 <= index < n && Split(Cases(), m, start, served, removed, early)
      modifies this`n, slots
      ensures slots == old(slots) && n == old(n) - 1
      ensures index < m ==>
        Split(Cases(), m - 1, start, served, removed + multiset{old(slots[index])}, early + multiset{old(slots[index])})
      ensures index >= m ==> Split(Cases(), m, start, served, removed + multiset{old(slots[index])}, early)
    {
      ghost var cases := Cases();
      Delete(index);
      SplitRemoved(cases, m, index, start, served, removed, early, Cases());
    }

    /** Serves every active channel that has room. */
    method FastPath(m0: nat, nsent0: nat, served0: seq<Case>, ghost start: multiset<Case>,
                    ghost removed: multiset<Case>, ghost early: multiset<Case>)
        returns (m: nat, nsent: nat, served: seq<Case>)
      requires n <= slots.Length && m0 <= n && nsent0 == |served0| && Split(Cases(), m0, start, served0, removed, early)
      modifies slots
      ensures m <= m0 && nsent == |served| && Split(Cases(), m, start, served, removed, early)
    {
      m, nsent, served := m0, nsent0, served0;
      var i: nat := FIRST_SUB_SEND_CASE;
      while i < m
        invariant 1 <= i <= m <= m0 && nsent == |served| && Split(Cases(), m, start, served, removed, early)
        decreases m - i
      {
        if * {
          served := Serve(i, m, start, served, removed, early);
          nsent, m := nsent + 1, m - 1;
        } else {
          i := i + 1;
        }
      }
    }

    /** Waits for an active channel to take the value, or for a channel to be unsubscribed. */
    method Select(m0: nat, nsent0: nat, served0: seq<Case>, ghost start: multiset<Case>,
                  ghost removed0: multiset<Case>, ghost early0: multiset<Case>)
        returns (m: nat, nsent: nat, served: seq<Case>, ghost removed: multiset<Case>, ghost early: multiset<Case>)
      requires n <= slots.Length && 1 < m0 <= n && start[RemoveSub] == 1 && nsent0 == |served0|
      requires Split(Cases(), m0, start, served0, removed0, early0)
      modifies this`n, slots
      ensures slots == old(slots) && m <= n <= old(n) && n + m < old(n) + m0
      ensures nsent == |served| && Split(Cases(), m, start, served, removed, early)
    {
      m, nsent, served, removed, early := m0, nsent0, served0, removed0, early0;
      if * {
        assert slots[1] in slots[1..n];
        var channel :| channel in slots[1..n];
        OneControl(Cases());
        m, removed, early := Drop(channel, m, start, served, removed, early);
      } else {
        var chosen: nat :| 1 <= chosen < m;
        served := Serve(chosen, m, start, served, removed, early);
        nsent, m := nsent + 1, m - 1;
      }
    }

    /** What others do while a value is sent: they subscribe channels, which wait for the next
        value, and unsubscribe waiting ones. */
    method Interlude(ghost joined0: multiset<Case>, ghost left0: multiset<Case>)
        returns (ghost joined: multiset<Case>, ghost left: multiset<Case>)
      requires RemoveSub !in inbox && multiset(inbox) + left0 == joined0
      modifies this`inbox
      ensures RemoveSub !in inbox && multiset(inbox) + left == joined && joined0 <= joined && left0 <= left
    {
      joined, left := joined0, left0;
      var steps: nat := *;
      while steps > 0
        invariant RemoveSub !in inbox && multiset(inbox) + left == joined && joined0 <= joined && left0 <= left
      {
        if * {
          var id: nat := *;
          inbox := inbox + [Channel(id)];
          joined := joined + multiset{Channel(id)};
        } else if inbox != [] {
          assert inbox[0] in inbox;
          var channel :| channel in inbox;
          var i := FindFirst(inbox, channel);
          WithoutMultiset(inbox, i);
          inbox := Without(inbox, i);
          left := left + multiset{channel};
        }
        steps := steps - 1;
      }
    }

    /** Delivers a value. Each channel subscribed at the start is served once unless it is
        unsubscribed on the way, and then at most once; the count is that of the deliveries.
        Channels that join on the way are not served, and wait unless they leave again. */
    method Send() returns (nsent: nat, served: seq<Case>, ghost removed: multiset<Case>,
                           ghost joined: multiset<Case>, ghost left: multiset<Case>)
      requires Valid()
      modifies this, slots
      ensures Valid() && nsent == |served|
      ensures multiset(Cases()[1..]) + removed == old(Subscribed())
      ensures old(Subscribed()) - removed <= multiset(served) <= old(Subscribed())
      ensures forall c :: old(Subscribed())[c] == 1 && c !in removed ==> multiset(served)[c] == 1
      ensures multiset(inbox) + left == joined
      ensures Subscribed() + removed + left == old(Subscribed()) + joined
    {
      Collect();
      ghost var start, early := multiset(Cases()), multiset{};
      assert Cases()[..n] == Cases();
      nsent, served, removed, early, joined, left := ServeAll(start);
      Finished(Cases(), old(Subscribed()), served, removed, early);
      assert Cases()[1..] == slots[1..n];
    }

    /** Serves the active channels, all cases at first, until none is left. */
    method ServeAll(ghost start: multiset<Case>)
        returns (nsent: nat, served: seq<Case>, ghost removed: multiset<Case>, ghost early: multiset<Case>,
                 ghost joined: multiset<Case>, ghost left: multiset<Case>)
      requires 1 <= n <= slots.Length && slots[0] == RemoveSub && start == multiset(Cases()) && start[RemoveSub] == 1
      requires inbox == []
      modifies this`n, this`inbox, slots
      ensures slots == old(slots) && 1 <= n <= slots.Length && nsent == |served|
      ensures Split(Cases(), 1, start, served, removed, early)
      ensures RemoveSub !in inbox && multiset(inbox) + left == joined
    {
      var m := n;
      nsent, served, removed, early := 0, [], multiset{}, multiset{};
      joined, left := multiset{}, multiset{};
      assert Cases()[..m] == Cases();
      while true
        invariant slots == old(slots) && n <= slots.Length && m <= n && nsent == |served|
        invariant Split(Cases(), m, start, served, removed, early)
        invariant RemoveSub !in inbox && multiset(inbox) + left == joined
        decreases n + m
      {
        joined, left := Interlude(joined, left);
        m, nsent, served := FastPath(m, nsent, served, start, removed, early);
        if m == FIRST_SUB_SEND_CASE {
          break;
        }
        m, nsent, served, removed, early := Select(m, nsent, served, start, removed, early);
      }
    }
  }

  lemma Finished(cases: seq<Case>, subs: multiset<Case>, served: seq<Case>, removed: multiset<Case>,
                 early: multiset<Case>)
    requires RemoveSub !in subs && Split(cases, 1, subs + multiset{RemoveSub}, served, removed, early)
    ensures RemoveSub !in cases[1..]
    ensures multiset(cases[1..]) + removed == subs
    ensures subs - removed <= multiset(served) <= subs
  {
    assert cases == [RemoveSub] + cases[1..];
    assert cases[..1] == [RemoveSub];
    Cancel(multiset(served) + early, subs);
    Cancel(multiset(cases[1..]) + removed, subs);
    var rest := cases[1..];
    assert RemoveSub !in multiset(rest);
  }

  lemma Cancel(a: multiset<Case>, b: multiset<Case>)
    requires a + multiset{RemoveSub} == b + multiset{RemoveSub}
    ensures a == b
  {
    assert a == a + multiset{RemoveSub} - multiset{RemoveSub};
  }

  /** Where there is one control case it is the first. */
  lemma OneControl(cases: seq<Case>)
    requires cases != [] && cases[0] == RemoveSub && multiset(cases)[RemoveSub] <= 1
    ensures RemoveSub !in cases[1..]
  {
    assert cases == [cases[0]] + cases[1..];
  }
}
