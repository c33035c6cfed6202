/** `Feed` of event/feed.go. Subscribing, unsubscribing and sending run concurrently; each method
    here is one step that holds a lock or is a single channel operation, and a run is any
    interleaving of steps. Channel 0 is the feed's own `removeSub`. */
module Feeds {

  type Chan = nat

  // ---------- lists of cases ----------

  function Cut(s: seq<Chan>, i: nat): (r: seq<Chan>)
    requires i < |s|
  {
    s[..i] + s[i + 1..]
  }

  function Exchange(s: seq<Chan>, i: nat, j: nat): (r: seq<Chan>)
    requires i < |s| && j < |s|
  {
    s[i := s[j]][j := s[i]]
  }

  /** Entries of a stretch as a bag. */
  function Bag(s: seq<Chan>, lo: nat, hi: nat): (b: multiset<Chan>)
    requires lo <= hi <= |s|
  {
    multiset(s[lo..hi])
  }

  lemma BagSplit(s: seq<Chan>, lo: nat, mid: nat, hi: nat)
    requires lo <= mid <= hi <= |s|
    ensures Bag(s, lo, hi) == Bag(s, lo, mid) + Bag(s, mid, hi)
  {
    assert s[lo..hi] == s[lo..mid] + s[mid..hi];
  }

  lemma BagOne(s: seq<Chan>, i: nat)
    requires i < |s|
    ensures Bag(s, i, i + 1) == multiset{s[i]}
  {
    assert s[i..i + 1] == [s[i]];
  }

  /** Taking one entry out of a stretch. */
  lemma BagCut(s: seq<Chan>, lo: nat, i: nat, hi: nat)
    requires lo <= i < hi <= |s|
    ensures Bag(Cut(s, i), lo, hi - 1) == Bag(s, lo, hi) - multiset{s[i]}
    ensures s[i] in Bag(s, lo, hi)
  {
    BagSplit(s, lo, i, hi);
    BagSplit(s, i, i + 1, hi);
    BagOne(s, i);
    CutSlice(s, lo, i, hi);
  }

  lemma CutSlice(s: seq<Chan>, lo: nat, i: nat, hi: nat)
    requires lo <= i < hi <= |s|
    ensures Cut(s, i)[lo..hi - 1] == s[lo..i] + s[i + 1..hi]
  {
    var x, y := Cut(s, i)[lo..hi - 1], s[lo..i] + s[i + 1..hi];
    forall j | 0 <= j < |x| ensures x[j] == y[j] {
      assert x[j] == Cut(s, i)[lo + j];
      assert lo + j < i ==> Cut(s, i)[lo + j] == s[lo + j];
      assert lo + j >= i ==> Cut(s, i)[lo + j] == s[lo + j + 1];
    }
  }

  /** Stretches on either side of the place where an entry was taken out. */
  lemma BagCutApart(s: seq<Chan>, lo: nat, hi: nat, i: nat)
    requires lo <= hi <= |s| && i < |s|
    ensures hi <= i ==> Bag(Cut(s, i), lo, hi) == Bag(s, lo, hi)
    ensures i < lo ==> Bag(Cut(s, i), lo - 1, hi - 1) == Bag(s, lo, hi)
  {
    var t := Cut(s, i);
    if hi <= i {
      assert forall j :: lo <= j < hi ==> t[j] == s[j];
      assert t[lo..hi] == s[lo..hi];
    } else if i < lo {
      assert forall j :: lo <= j < hi ==> t[j - 1] == s[j];
      assert t[lo - 1..hi - 1] == s[lo..hi];
    }
  }

  /** Overwriting an entry. */
  lemma BagSet(s: seq<Chan>, lo: nat, i: nat, hi: nat, x: Chan)
    requires lo <= i < hi <= |s|
    ensures Bag(s[i := x], lo, hi) == Bag(s, lo, hi) - multiset{s[i]} + multiset{x}
  {
    assert s[lo..hi] == s[lo..i] + [s[i]] + s[i + 1..hi];
    assert s[i := x][lo..hi] == s[lo..i] + [x] + s[i + 1..hi];
  }

  lemma BagSame(s: seq<Chan>, r: seq<Chan>, lo: nat, hi: nat)
    requires lo <= hi <= |s| == |r| && forall k :: lo <= k < hi ==> s[k] == r[k]
    ensures Bag(s, lo, hi) == Bag(r, lo, hi)
  {
    assert s[lo..hi] == r[lo..hi];
  }

  lemma BagOrder(b: multiset<Chan>, x: Chan, y: Chan)
    requires x in b
    ensures b - multiset{x} + multiset{y} == b + multiset{y} - multiset{x}
  {}

  /** Moving an entry to the end of a stretch takes it out of the rest of the stretch. */
  lemma BagFront(s: seq<Chan>, lo: nat, i: nat, last: nat)
    requires lo <= i <= last < |s|
    ensures Bag(Exchange(s, i, last), lo, last) == Bag(s, lo, last + 1) - multiset{s[i]} && s[i] in Bag(s, lo, last + 1)
  {
    hide Bag;
    var r := Exchange(s, i, last);
    BagSplit(s, lo, last, last + 1);
    BagOne(s, last);
    if i == last {
      BagSame(s, r, lo, last);
    } else {
      BagSame(s[i := s[last]], r, lo, last);
      BagSet(s, lo, i, last, s[last]);
      InBag(s, lo, last, s[i]);
      BagOrder(Bag(s, lo, last), s[i], s[last]);
    }
  }

  lemma BagBack(s: seq<Chan>, i: nat, last: nat, n: nat)
    requires i <= last < n <= |s|
    ensures Bag(Exchange(s, i, last), last, n) == Bag(s, last + 1, n) + multiset{s[i]}
  {
    var r := Exchange(s, i, last);
    BagSplit(r, last, last + 1, n);
    BagOne(r, last);
    BagSame(s, r, last + 1, n);
  }

  lemma InBag(s: seq<Chan>, lo: nat, hi: nat, ch: Chan)
    requires lo <= hi <= |s|
    ensures ch in Bag(s, lo, hi) <==> exists i :: lo <= i < hi && s[i] == ch
  {
    if ch in Bag(s, lo, hi) {
      assert ch in s[lo..hi];
    }
    if i :| lo <= i < hi && s[i] == ch {
      assert s[lo..hi][i - lo] == ch;
    }
  }

  // ---------- the feed ----------

  /** What another goroutine may do next. Steps that are not possible do nothing. */
  datatype Step =
    | Subscribe(ch: Chan)
    | Unsubscribe(ch: Chan)
    | LeaveIdle(ch: Chan)
    | StartSend
    | Deliver(i: nat)
    | LeaveSending(ch: Chan)
    | FinishSend

  /** Books of subscriptions: whoever is subscribed or about to leave has exactly one entry, in
      the inbox or among the cases, and whoever is about to leave has it among the cases. */
  ghost predicate Booked(inbox: seq<Chan>, cases: seq<Chan>, live: multiset<Chan>, leaving: multiset<Chan>)
  {
    && |cases| >= 1 && cases[0] == 0 && (forall i :: 1 <= i < |cases| ==> cases[i] != 0)
    && (forall i :: 0 <= i < |inbox| ==> inbox[i] != 0)
    && multiset(inbox) + Bag(cases, 1, |cases|) == live + leaving
    && leaving <= Bag(cases, 1, |cases|)
  }

  /** Books of a Send: the first k cases have yet to get the value. Every channel present at the
      start has got it, is yet to get it, or left before. */
  ghost predicate Sending(cases: seq<Chan>, k: nat, nsent: nat, initial: multiset<Chan>, delivered: multiset<Chan>,
                          dropped: multiset<Chan>)
  {
    && 1 <= k <= |cases|
    && initial == delivered + Bag(cases, 1, k) + dropped
    && Bag(cases, k, |cases|) <= delivered
    && nsent == |delivered|
  }

  class Feed {
    var store: array<Chan>
    var n: nat               // length of sendCases
    var inbox: seq<Chan>
    var sending: bool
    var k: nat               // length of the prefix `cases`
    var nsent: nat
    var live: multiset<Chan>      // subscriptions, by channel
    var leaving: multiset<Chan>   // goroutines waiting in `remove`
    ghost var initial: multiset<Chan>
    ghost var delivered: multiset<Chan>
    ghost var dropped: multiset<Chan>

    constructor ()
      ensures Valid() && fresh(store) && live == multiset{} && leaving == multiset{} && !sending
    {
      store := new Chan[1](i => 0);
      n, inbox, sending, k, nsent := 1, [], false, 1, 0;
      live, leaving, initial, delivered, dropped := multiset{}, multiset{}, multiset{}, multiset{}, multiset{};
    }

    ghost function Cases(): (s: seq<Chan>)
      reads this`store, this`n, store
      requires n <= store.Length
    {
      store[..n]
    }

    ghost predicate Valid()
      reads this, store
    {
      && n <= store.Length && Booked(inbox, Cases(), live, leaving)
      && (sending ==> Sending(Cases(), k, nsent, initial, delivered, dropped))
    }

    /** `find` on the send cases. */
    method Find(ch: Chan) returns (index: int)
      requires n <= store.Length
      ensures -1 <= index < n
      ensures index == -1 ==> ch !in Cases()
      ensures index >= 0 ==> store[index] == ch && ch !in Cases()[..index]
    {
      for i := 0 to n
        invariant ch !in store[..i]
      {
        if store[i] == ch {
          assert store[..n][..i] == store[..i];
          return i;
        }
        assert store[..i + 1] == store[..i] + [store[i]];
      }
      return -1;
    }

    /** `delete` on the send cases: later entries move down in the shared array. */
    method Delete(index: nat)
      requires index < n <= store.Length
      modifies this`n, store
      ensures n == old(n) - 1 && Cases() == Cut(old(Cases()), index)
    {
      for i := index to n - 1
        invariant n == old(n)
        invariant forall j :: 0 <= j < index ==> store[j] == old(store[j])
        invariant forall j :: index <= j < i ==> store[j] == old(store[j + 1])
        invariant forall j :: i <= j < n ==> store[j] == old(store[j])
      {
        store[i] := store[i + 1];
      }
      n := n - 1;
      assert Cases() == Cut(old(Cases()), index);
    }

    /** `deactivate`: swaps a case behind the prefix of active ones. */
    method Deactivate(index: nat)
      requires index < k <= n <= store.Length
      modifies this`k, store
      ensures k == old(k) - 1 && Cases() == Exchange(old(Cases()), index, k)
    {
      var last := k - 1;
      store[index], store[last] := store[last], store[index];
      k := last;
    }

    // ---------- steps ----------

    /** `Subscribe` */
    method DoSubscribe(ch: Chan)
      requires Valid() && ch != 0
      modifies this`inbox, this`live
      ensures Valid() && live == old(live) + multiset{ch} && inbox == old(inbox) + [ch]
    {
      hide Bag, Sending, Booked;
      InboxAdd(inbox, Cases(), live, leaving, ch);
      inbox := inbox + [ch];
      live := live + multiset{ch};
    }

    /** The part of `remove` under the mutex: a channel still in the inbox is gone at once. */
    method DoUnsubscribe(ch: Chan)
      requires Valid() && ch in live
      modifies this`inbox, this`live, this`leaving
      ensures Valid() && live == old(live) - multiset{ch}
      ensures if ch in old(inbox) then leaving == old(leaving)
              else leaving == old(leaving) + multiset{ch} && inbox == old(inbox)
    {
      hide Bag, Sending, Booked;
      var index := FindIn(inbox, ch);
      if index >= 0 {
        InboxCut(inbox, Cases(), live, leaving, index);
        inbox := Cut(inbox, index);
      } else {
        MustLeave(inbox, Cases(), live, leaving, ch);
        leaving := leaving + multiset{ch};
      }
      live := live - multiset{ch};
    }

    /** The rest of `remove` when no Send is running: it gets the send lock. */
    method DoLeaveIdle(ch: Chan)
      requires Valid() && !sending && ch in leaving
      modifies this`n, this`leaving, store
      ensures Valid() && leaving == old(leaving) - multiset{ch}
    {
      hide Bag, Booked, Cut;
      var index := FindLeaver(ch);
      LeaverGone(inbox, Cases(), live, leaving, index);
      Delete(index);
      leaving := leaving - multiset{ch};
    }

    /** Appends the inbox to the send cases; the array may be a new one. */
    method TakeInbox()
      requires n <= store.Length
      modifies this`store, this`n, this`inbox
      ensures fresh(store) && n <= store.Length && Cases() == old(Cases()) + old(inbox) && inbox == []
    {
      var all := store[..n] + inbox;
      store := Stored(all);
      n, inbox := |all|, [];
    }

    /** Start of `Send`: takes the send lock and the inbox. */
    method DoStartSend()
      requires Valid() && !sending
      modifies this`store, this`n, this`inbox, this`sending, this`k, this`nsent, this`initial, this`delivered,
               this`dropped
      ensures Valid() && sending && fresh(store) && inbox == [] && nsent == 0
      ensures initial == live + leaving && delivered == multiset{} && dropped == multiset{}
    {
      hide Bag, Sending, Booked;
      Merged(inbox, Cases(), live, leaving);
      TakeInbox();
      initial, delivered, dropped := live + leaving, multiset{}, multiset{};
      k, nsent, sending := n, 0, true;
    }

    /** A send to an active case succeeds, whether tried or selected. */
    method DoDeliver(i: nat) returns (ch: Chan)
      requires Valid() && sending && 1 <= i < k
      modifies this`k, this`nsent, this`delivered, store
      ensures Valid() && ch == old(store[i]) && delivered == old(delivered) + multiset{ch} && nsent == old(nsent) + 1
      ensures k == old(k) - 1
    {
      hide Bag, Sending, Booked;
      SendOne(inbox, Cases(), live, leaving, k, nsent, initial, delivered, dropped, i);
      ch := store[i];
      nsent := nsent + 1;
      Deactivate(i);
      delivered := delivered + multiset{ch};
    }

    /** The rest of `remove` when a Send is waiting in its select: the Send takes the channel out. */
    method DoLeaveSending(ch: Chan)
      requires Valid() && sending && k > 1 && ch in leaving
      modifies this`n, this`k, this`leaving, this`dropped, store
      ensures Valid() && leaving == old(leaving) - multiset{ch}
      ensures if ch in old(Bag(Cases(), 1, k)) then dropped == old(dropped) + multiset{ch} && k == old(k) - 1
              else dropped == old(dropped) && k == old(k)
    {
      hide Bag, Sending, Booked, Cut, Cases;
      var index := FindLeaver(ch);
      Leaves(inbox, Cases(), live, leaving, k, nsent, initial, delivered, dropped, index, ch);
      TakeOut(index, leaving - multiset{ch}, if index < k then dropped + multiset{ch} else dropped);
    }

    method FindLeaver(ch: Chan) returns (index: nat)
      requires n <= store.Length && Booked(inbox, Cases(), live, leaving) && ch in leaving
      ensures 1 <= index < n && |Cases()| == n && Cases()[index] == ch && ch !in Cases()[..index]
    {
      hide Bag, Booked;
      LeaverThere(inbox, Cases(), live, leaving, ch);
      index := Find(ch);
    }

    /** Deletes a send case, also from the active ones if it is among them. */
    method TakeOut(index: nat, left: multiset<Chan>, ghost gone: multiset<Chan>)
      requires sending && index < n <= store.Length && 1 <= k && Booked(inbox, Cut(Cases(), index), live, left)
      requires Sending(Cut(Cases(), index), if index < k then k - 1 else k, nsent, initial, delivered, gone)
      modifies this`n, this`k, this`leaving, this`dropped, store
      ensures Valid() && leaving == left && dropped == gone && k == if index < old(k) then old(k) - 1 else old(k)
    {
      hide Cut, Booked, Sending;
      Delete(index);
      leaving, dropped := left, gone;
      if index < k {
        k := k - 1;
      }
    }

    /** End of `Send`: everyone present at its start has got the value exactly once or left first,
        and the result counts the deliveries. */
    method DoFinishSend() returns (count: nat)
      requires Valid() && sending && k == 1
      modifies this`sending
      ensures Valid() && !sending && initial == delivered + dropped && count == |delivered|
    {
      assert Bag(Cases(), 1, 1) == multiset{};
      sending := false;
      count := nsent;
    }

    /** One step of some goroutine, if it is possible now. */
    method Do(step: Step)
      requires Valid()
      modifies this, store
      ensures Valid() && (store == old(store) || fresh(store))
    {
      hide Bag, Sending, Booked;
      match step
      case Subscribe(ch) =>
        if ch != 0 {
          DoSubscribe(ch);
        }
      case Unsubscribe(ch) =>
        if ch in live {
          DoUnsubscribe(ch);
        }
      case LeaveIdle(ch) =>
        if !sending && ch in leaving {
          DoLeaveIdle(ch);
        }
      case StartSend =>
        if !sending {
          DoStartSend();
        }
      case Deliver(i) =>
        if sending && 1 <= i < k {
          var _ := DoDeliver(i);
        }
      case LeaveSending(ch) =>
        if sending && k > 1 && ch in leaving {
          DoLeaveSending(ch);
        }
      case FinishSend =>
        if sending && k == 1 {
          var _ := DoFinishSend();
        }
    }

    /** Over every interleaving the books agree. */
    method Run(steps: seq<Step>)
      requires Valid()
      modifies this, store
      ensures Valid()
    {
      hide Valid;
      for i := 0 to |steps|
        invariant Valid() && (store == old(store) || fresh(store))
      {
        Do(steps[i]);
      }
    }
  }

  method Stored(s: seq<Chan>) returns (a: array<Chan>)
    ensures fresh(a) && a[..] == s
  {
    a := new Chan[|s|](i requires 0 <= i < |s| => s[i]);
  }

  /** `find` */
  method FindIn(s: seq<Chan>, ch: Chan) returns (index: int)
    ensures -1 <= index < |s|
    ensures index == -1 ==> ch !in s
    ensures index >= 0 ==> s[index] == ch && ch !in s[..index]
  {
    for i := 0 to |s|
      invariant ch !in s[..i]
    {
      if s[i] == ch {
        return i;
      }
      assert s[..i + 1] == s[..i] + [s[i]];
    }
    assert s[..|s|] == s;
    return -1;
  }

  // ---------- what the steps keep ----------

  lemma InboxCut(inbox: seq<Chan>, cases: seq<Chan>, live: multiset<Chan>, leaving: multiset<Chan>, i: nat)
    requires Booked(inbox, cases, live, leaving) && i < |inbox| && inbox[i] in live
    ensures Booked(Cut(inbox, i), cases, live - multiset{inbox[i]}, leaving)
  {
    hide Bag;
    var ch, rest := inbox[i], Cut(inbox, i);
    assert inbox == inbox[..i] + [ch] + inbox[i + 1..];
    assert multiset(inbox) == multiset(rest) + multiset{ch};
    BagsFewer(multiset(rest), Bag(cases, 1, |cases|), live, leaving, ch);
  }

  lemma BagsFewer(x: multiset<Chan>, bag: multiset<Chan>, live: multiset<Chan>, leaving: multiset<Chan>, ch: Chan)
    requires x + multiset{ch} + bag == live + leaving && ch in live
    ensures x + bag == live - multiset{ch} + leaving
  {
    forall c ensures (x + bag)[c] == (live - multiset{ch} + leaving)[c] {
      assert (x + multiset{ch} + bag)[c] == (live + leaving)[c];
    }
  }

  lemma InboxAdd(inbox: seq<Chan>, cases: seq<Chan>, live: multiset<Chan>, leaving: multiset<Chan>, ch: Chan)
    requires Booked(inbox, cases, live, leaving) && ch != 0
    ensures Booked(inbox + [ch], cases, live + multiset{ch}, leaving)
  {
    hide Bag;
    assert multiset(inbox + [ch]) == multiset(inbox) + multiset{ch};
    BagsMore(multiset(inbox), Bag(cases, 1, |cases|), live, leaving, ch);
  }

  lemma BagsMore(x: multiset<Chan>, bag: multiset<Chan>, live: multiset<Chan>, leaving: multiset<Chan>, ch: Chan)
    requires x + bag == live + leaving
    ensures x + multiset{ch} + bag == live + multiset{ch} + leaving
  {
    forall c ensures (x + multiset{ch} + bag)[c] == (live + multiset{ch} + leaving)[c] {
      assert (x + bag)[c] == (live + leaving)[c];
    }
  }

  /** A subscription that is not in the inbox is among the cases. */
  lemma MustLeave(inbox: seq<Chan>, cases: seq<Chan>, live: multiset<Chan>, leaving: multiset<Chan>, ch: Chan)
    requires Booked(inbox, cases, live, leaving) && ch in live && ch !in inbox
    ensures Booked(inbox, cases, live - multiset{ch}, leaving + multiset{ch})
  {
    hide Bag;
    var bag := Bag(cases, 1, |cases|);
    assert multiset(inbox)[ch] == 0;
    assert (multiset(inbox) + bag)[ch] == (live + leaving)[ch];
  }

  lemma LeaverThere(inbox: seq<Chan>, cases: seq<Chan>, live: multiset<Chan>, leaving: multiset<Chan>, ch: Chan)
    requires Booked(inbox, cases, live, leaving) && ch in leaving
    ensures ch in cases && ch != 0 && cases[0] == 0
  {
    InBag(cases, 1, |cases|, ch);
  }

  lemma LeaverGone(inbox: seq<Chan>, cases: seq<Chan>, live: multiset<Chan>, leaving: multiset<Chan>, i: nat)
    requires Booked(inbox, cases, live, leaving) && 1 <= i < |cases| && cases[i] in leaving
    ensures Booked(inbox, Cut(cases, i), live, leaving - multiset{cases[i]})
  {
    hide Bag;
    BagCut(cases, 1, i, |cases|);
    BagsLess(multiset(inbox), Bag(cases, 1, |cases|), live, leaving, cases[i]);
  }

  lemma BagsLess(x: multiset<Chan>, bag: multiset<Chan>, live: multiset<Chan>, leaving: multiset<Chan>, ch: Chan)
    requires x + bag == live + leaving && leaving <= bag && ch in leaving
    ensures x + (bag - multiset{ch}) == live + (leaving - multiset{ch}) && leaving - multiset{ch} <= bag - multiset{ch}
  {
    forall c ensures (x + (bag - multiset{ch}))[c] == (live + (leaving - multiset{ch}))[c] {
      assert (x + bag)[c] == (live + leaving)[c];
    }
  }

  lemma LeaverDropped(cases: seq<Chan>, k: nat, nsent: nat, initial: multiset<Chan>, delivered: multiset<Chan>,
                      dropped: multiset<Chan>, i: nat)
    requires Sending(cases, k, nsent, initial, delivered, dropped) && 1 <= i < |cases| && cases[i] !in cases[..i]
    ensures i < k ==> Sending(Cut(cases, i), k - 1, nsent, initial, delivered, dropped + multiset{cases[i]})
    ensures i >= k ==> Sending(Cut(cases, i), k, nsent, initial, delivered, dropped)
    ensures i < k <==> cases[i] in Bag(cases, 1, k)
  {
    hide Bag;
    InBag(cases, 1, k, cases[i]);
    if i < k {
      BagCut(cases, 1, i, k);
      BagCutApart(cases, k, |cases|, i);
    } else {
      BagCut(cases, k, i, |cases|);
      BagCutApart(cases, 1, k, i);
    }
  }

  lemma Leaves(inbox: seq<Chan>, cases: seq<Chan>, live: multiset<Chan>, leaving: multiset<Chan>, k: nat, nsent: nat,
               initial: multiset<Chan>, delivered: multiset<Chan>, dropped: multiset<Chan>, i: nat, ch: Chan)
    requires Booked(inbox, cases, live, leaving) && Sending(cases, k, nsent, initial, delivered, dropped)
    requires 1 <= i < |cases| && cases[i] == ch && ch !in cases[..i] && ch in leaving
    ensures Booked(inbox, Cut(cases, i), live, leaving - multiset{ch}) && 1 <= k
    ensures Sending(Cut(cases, i), if i < k then k - 1 else k, nsent, initial, delivered,
                    if i < k then dropped + multiset{ch} else dropped)
    ensures i < k <==> ch in Bag(cases, 1, k)
  {
    hide Bag, Booked, Cut;
    LeaverGone(inbox, cases, live, leaving, i);
    LeaverDropped(cases, k, nsent, initial, delivered, dropped, i);
  }

  lemma Merged(inbox: seq<Chan>, cases: seq<Chan>, live: multiset<Chan>, leaving: multiset<Chan>)
    requires Booked(inbox, cases, live, leaving)
    ensures var all := cases + inbox;
            && Booked([], all, live, leaving) && Bag(all, 1, |all|) == live + leaving
            && Sending(all, |all|, 0, live + leaving, multiset{}, multiset{})
  {
    var all := cases + inbox;
    BagSplit(all, 1, |cases|, |all|);
    assert all[1..|cases|] == cases[1..|cases|] && all[|cases|..|all|] == inbox;
    assert Bag(all, |all|, |all|) == multiset{};
    BagsJoin(multiset(inbox), Bag(cases, 1, |cases|));
    assert Bag(all, 1, |all|) == live + leaving;
  }

  lemma BagsJoin(x: multiset<Chan>, y: multiset<Chan>)
    ensures x + y == y + x && multiset([]) + x == x
  {}

  lemma SendOne(inbox: seq<Chan>, cases: seq<Chan>, live: multiset<Chan>, leaving: multiset<Chan>,
                k: nat, nsent: nat, initial: multiset<Chan>, delivered: multiset<Chan>, dropped: multiset<Chan>, i: nat)
    requires Booked(inbox, cases, live, leaving) && Sending(cases, k, nsent, initial, delivered, dropped) && 1 <= i < k
    ensures k <= |cases|
    ensures var r := Exchange(cases, i, k - 1);
            && Booked(inbox, r, live, leaving)
            && Sending(r, k - 1, nsent + 1, initial, delivered + multiset{cases[i]}, dropped)
  {
    hide Bag;
    BagFront(cases, 1, i, k - 1);
    BagBack(cases, i, k - 1, |cases|);
    StillBooked(inbox, cases, live, leaving, i, k);
  }

  lemma StillBooked(inbox: seq<Chan>, cases: seq<Chan>, live: multiset<Chan>, leaving: multiset<Chan>, i: nat, k: nat)
    requires Booked(inbox, cases, live, leaving) && 1 <= i < k <= |cases|
    ensures Booked(inbox, Exchange(cases, i, k - 1), live, leaving)
  {
    hide Bag;
    var r := Exchange(cases, i, k - 1);
    BagFront(cases, 1, i, k - 1);
    BagBack(cases, i, k - 1, |cases|);
    BagSplit(cases, 1, k, |cases|);
    BagSplit(r, 1, k - 1, |cases|);
    BagMoved(Bag(cases, 1, k), Bag(cases, k, |cases|), cases[i]);
  }

  lemma BagMoved(x: multiset<Chan>, y: multiset<Chan>, ch: Chan)
    requires ch in x
    ensures (x - multiset{ch}) + (y + multiset{ch}) == x + y
  {}
}
