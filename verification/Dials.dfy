/** The dial scheduler of p2p/dial.go. Times are nanoseconds; what the discovery table offers and
    which peers are connected are parameters. */
module Dials {
  import opened Basics
  import Heap

  type Id = nat

  const HISTORY_EXPIRATION: nat := 30_000_000_000
  const FALLBACK_INTERVAL: nat := 20_000_000_000

  datatype PastDial = PastDial(id: Id, exp: nat)

  datatype DialError = AlreadyDialing | AlreadyConnected | IsSelf | NotWhitelisted | RecentlyDialed

  datatype Task = Dial(id: Id, dynamic: bool) | Lookup | WaitExpire(duration: nat)

  predicate Earlier(a: PastDial, b: PastDial)
  {
    a.exp < b.exp
  }

  // ---------- the history ----------

  ghost predicate Recent(hist: seq<PastDial>, id: Id)
  {
    exists h :: h in hist && h.id == id
  }

  lemma SameEntries(x: seq<PastDial>, y: seq<PastDial>, p: PastDial)
    requires multiset(x) == multiset(y) + multiset{p}
    ensures forall h :: h in x <==> h in y || h == p
  {
    assert forall h :: h in x <==> h in multiset(x);
    assert forall h :: h in y <==> h in multiset(y);
  }

  /** A node has at most one entry. */
  ghost predicate Single(hist: seq<PastDial>)
  {
    && (forall h :: h in hist ==> multiset(hist)[h] == 1)
    && (forall g, h :: g in hist && h in hist && g.id == h.id ==> g == h)
  }

  lemma SingleLess(x: seq<PastDial>, y: seq<PastDial>, p: PastDial)
    requires Single(x) && multiset(x) == multiset(y) + multiset{p}
    ensures Single(y) && !Recent(y, p.id)
  {
    SameEntries(x, y, p);
    forall h | h in y ensures multiset(y)[h] == 1 {
      assert h in x && multiset(x)[h] == multiset(y)[h] + multiset{p}[h];
      assert h in multiset(y);
    }
  }

  lemma SingleMore(x: seq<PastDial>, y: seq<PastDial>, p: PastDial)
    requires Single(y) && multiset(x) == multiset(y) + multiset{p} && !Recent(y, p.id)
    ensures Single(x)
  {
    SameEntries(x, y, p);
    assert p !in multiset(y);
    forall h | h in x ensures multiset(x)[h] == 1 {
      assert multiset(x)[h] == multiset(y)[h] + multiset{p}[h];
    }
  }

  method Contains(hist: seq<PastDial>, id: Id) returns (b: bool)
    ensures b <==> Recent(hist, id)
  {
    for i := 0 to |hist|
      invariant forall k :: 0 <= k < i ==> hist[k].id != id
    {
      if hist[i].id == id {
        return true;
      }
    }
    return false;
  }

  /** `expire`: exactly the entries that are due go. */
  method Expire(hist: seq<PastDial>, now: nat) returns (r: seq<PastDial>)
    requires Heap.IsHeap(hist, Earlier) && Single(hist)
    ensures Heap.IsHeap(r, Earlier) && Single(r) && forall h :: h in r <==> h in hist && h.exp >= now
  {
    r := hist;
    while |r| > 0 && r[0].exp < now
      invariant Heap.IsHeap(r, Earlier) && Single(r)
      invariant (forall h :: h in r ==> h in hist) && forall h :: h in hist && h.exp >= now ==> h in r
      decreases |r|
    {
      var x, rest := Heap.Pop(r, Earlier);
      SameEntries(r, rest, x);
      SingleLess(r, rest, x);
      r := rest;
    }
    forall h | h in r ensures h.exp >= now {
      var k :| 0 <= k < |r| && r[k] == h;
      Heap.RootIsLeast(r, Earlier, k);
    }
  }

  /** `remove`: takes out one entry of a node, if there is any. */
  method RemoveDial(hist: seq<PastDial>, id: Id) returns (r: seq<PastDial>, removed: bool)
    requires Heap.IsHeap(hist, Earlier) && Single(hist)
    ensures Heap.IsHeap(r, Earlier) && Single(r) && (removed <==> Recent(hist, id))
    ensures forall h :: h in r <==> h in hist && h.id != id
  {
    for i := 0 to |hist|
      invariant forall k :: 0 <= k < i ==> hist[k].id != id
    {
      if hist[i].id == id {
        var x;
        x, r := Heap.RemoveAt(hist, Earlier, i);
        SameEntries(hist, r, x);
        SingleLess(hist, r, x);
        return r, true;
      }
    }
    return hist, false;
  }

  // ---------- the scheduler ----------

  function Dynamic(m: map<Id, bool>): (s: set<Id>)
  {
    set id | id in m && m[id]
  }

  /** Nobody is dialed twice, nor if connected, self, excluded or dialed recently. */
  ghost predicate Eligible(id: Id, dialing: map<Id, bool>, peers: map<Id, bool>, self: Option<Id>,
                           allowed: Option<set<Id>>, hist: seq<PastDial>)
  {
    && id !in dialing && id !in peers && self != Some(id)
    && (allowed.Some? ==> id in allowed.value)
    && !Recent(hist, id)
  }

  /** What was dialed before and the dials handed out since. */
  function Granted(d: map<Id, bool>, tasks: seq<Task>): (r: map<Id, bool>)
  {
    if |tasks| == 0 then d
    else
      var r, t := Granted(d, tasks[..|tasks| - 1]), tasks[|tasks| - 1];
      if t.Dial? then r[t.id := t.dynamic] else r
  }

  /** The dials among some tasks turn one set of running dials into another, and each was
      eligible when it was handed out. */
  ghost predicate Handed(d0: map<Id, bool>, d: map<Id, bool>, tasks: seq<Task>, peers: map<Id, bool>, self: Option<Id>,
                         allowed: Option<set<Id>>, hist: seq<PastDial>)
  {
    && d == Granted(d0, tasks)
    && forall i :: 0 <= i < |tasks| && tasks[i].Dial? ==>
         Eligible(tasks[i].id, Granted(d0, tasks[..i]), peers, self, allowed, hist)
  }

  lemma HandedNone(d: map<Id, bool>, peers: map<Id, bool>, self: Option<Id>, allowed: Option<set<Id>>,
                   hist: seq<PastDial>)
    ensures Handed(d, d, [], peers, self, allowed, hist)
  {}

  lemma HandedNext(d0: map<Id, bool>, d: map<Id, bool>, tasks: seq<Task>, peers: map<Id, bool>, self: Option<Id>,
                   allowed: Option<set<Id>>, hist: seq<PastDial>, id: Id, dynamic: bool)
    requires Handed(d0, d, tasks, peers, self, allowed, hist) && Eligible(id, d, peers, self, allowed, hist)
    ensures Handed(d0, d[id := dynamic], tasks + [Dial(id, dynamic)], peers, self, allowed, hist)
  {
    hide Eligible;
    var all := tasks + [Dial(id, dynamic)];
    assert all[..|tasks|] == tasks;
    forall i | 0 <= i < |all| && all[i].Dial?
      ensures Eligible(all[i].id, Granted(d0, all[..i]), peers, self, allowed, hist) {
      assert all[..i] == tasks[..i];
    }
  }

  lemma HandedOther(d0: map<Id, bool>, d: map<Id, bool>, tasks: seq<Task>, peers: map<Id, bool>, self: Option<Id>,
                    allowed: Option<set<Id>>, hist: seq<PastDial>, t: Task)
    requires Handed(d0, d, tasks, peers, self, allowed, hist) && !t.Dial?
    ensures Handed(d0, d, tasks + [t], peers, self, allowed, hist)
  {
    hide Eligible;
    var all := tasks + [t];
    assert all[..|tasks|] == tasks;
    forall i | 0 <= i < |all| && all[i].Dial?
      ensures Eligible(all[i].id, Granted(d0, all[..i]), peers, self, allowed, hist) {
      assert all[..i] == tasks[..i];
    }
  }

  lemma {:induction false} GrantedGrows(d: map<Id, bool>, tasks: seq<Task>, id: Id)
    requires id in d
    ensures id in Granted(d, tasks)
  {
    if |tasks| != 0 {
      GrantedGrows(d, tasks[..|tasks| - 1], id);
    }
  }

  lemma StillEligible(id: Id, d0: map<Id, bool>, d: map<Id, bool>, tasks: seq<Task>, peers: map<Id, bool>,
                      self: Option<Id>, allowed: Option<set<Id>>, hist: seq<PastDial>)
    requires Handed(d0, d, tasks, peers, self, allowed, hist) && (id in d ==> id in d0)
    ensures Eligible(id, d0, peers, self, allowed, hist) <==> Eligible(id, d, peers, self, allowed, hist)
  {
    if id in d0 {
      GrantedGrows(d0, tasks, id);
    }
  }

  lemma DynamicMore(d: map<Id, bool>, id: Id)
    requires id !in d
    ensures |Dynamic(d[id := true])| == |Dynamic(d)| + 1
  {
    assert Dynamic(d[id := true]) == Dynamic(d) + {id};
  }

  lemma DynamicSame(d: map<Id, bool>, id: Id, peers: map<Id, bool>, self: Option<Id>, allowed: Option<set<Id>>,
                    hist: seq<PastDial>)
    requires Eligible(id, d, peers, self, allowed, hist)
    ensures Dynamic(d[id := false]) == Dynamic(d) && id !in d
  {}

  class DialState {
    const maxDynDials: int
    const self: Option<Id>
    const allowed: Option<set<Id>>
    var lookupRunning: bool
    var dialing: map<Id, bool>     // true for dynamic dials
    var lookupBuf: seq<Id>
    var fixed: set<Id>             // static nodes
    var hist: seq<PastDial>
    var bootnodes: seq<Id>
    var started: Option<nat>
    ghost var live: multiset<Id>   // dials handed out and not done
    ghost var lookups: nat         // lookups handed out and not done

    constructor (maxDynDials: int, self: Option<Id>, allowed: Option<set<Id>>, static': set<Id>, bootnodes: seq<Id>)
      ensures Valid() && dialing == map[] && fixed == static' && live == multiset{} && lookups == 0
    {
      this.maxDynDials, this.self, this.allowed, fixed, this.bootnodes :=
        maxDynDials, self, allowed, static', bootnodes;
      lookupRunning, dialing, lookupBuf, hist, started := false, map[], [], [], None;
      live, lookups := multiset{}, 0;
    }

    /** `dialing` is exactly the dials handed out and not done, none of them twice and none in the
        history; at most one lookup is out. */
    ghost predicate Valid()
      reads this`dialing, this`live, this`lookups, this`lookupRunning, this`hist
    {
      && (forall id :: live[id] == if id in dialing then 1 else 0)
      && lookups == (if lookupRunning then 1 else 0)
      && Heap.IsHeap(hist, Earlier) && Single(hist)
      && (forall h :: h in hist ==> h.id !in dialing)
    }

    method CheckDial(id: Id, peers: map<Id, bool>) returns (err: Option<DialError>)
      ensures err.None? <==> Eligible(id, dialing, peers, self, allowed, hist)
      ensures err.Some? ==> match err.value
                            case AlreadyDialing => id in dialing
                            case AlreadyConnected => id in peers
                            case IsSelf => self == Some(id) && id !in dialing && id !in peers
                            case NotWhitelisted =>
                              allowed.Some? && id !in allowed.value && id !in dialing && id !in peers
                            case RecentlyDialed => Recent(hist, id)
    {
      if id in dialing {
        return Some(AlreadyDialing);
      }
      if id in peers {
        return Some(AlreadyConnected);
      }
      if self == Some(id) {
        return Some(IsSelf);
      }
      if allowed.Some? && id !in allowed.value {
        return Some(NotWhitelisted);
      }
      var recent := Contains(hist, id);
      if recent {
        return Some(RecentlyDialed);
      }
      return None;
    }

    /** `addDial` of `newTasks`. */
    method AddDial(id: Id, dynamic: bool, peers: map<Id, bool>) returns (ok: bool)
      requires Valid()
      modifies this`dialing, this`live
      ensures Valid() && (ok <==> Eligible(id, old(dialing), peers, self, allowed, hist))
      ensures dialing == if ok then old(dialing)[id := dynamic] else old(dialing)
    {
      var err := CheckDial(id, peers);
      if err.Some? {
        return false;
      }
      Begin(id, dynamic, peers);
      return true;
    }

    method Begin(id: Id, dynamic: bool, ghost peers: map<Id, bool>)
      requires Valid() && Eligible(id, dialing, peers, self, allowed, hist)
      modifies this`dialing, this`live
      ensures Valid() && dialing == old(dialing)[id := dynamic]
    {
      dialing := dialing[id := dynamic];
      live := live + multiset{id};
    }

    /** A static node in its turn. */
    method StaticDial(id: Id, peers: map<Id, bool>) returns (ok: bool)
      requires Valid()
      modifies this`dialing, this`live, this`fixed
      ensures Valid() && (ok <==> Eligible(id, old(dialing), peers, self, allowed, hist))
      ensures dialing == if ok then old(dialing)[id := false] else old(dialing)
      ensures fixed == old(fixed) || (fixed == old(fixed) - {id}
                                      && (self == Some(id) || (allowed.Some? && id !in allowed.value)))
    {
      hide Eligible;
      var err := CheckDial(id, peers);
      if err == Some(NotWhitelisted) || err == Some(IsSelf) {
        fixed := fixed - {id};
      }
      ok := err.None?;
      if ok {
        Begin(id, false, peers);
      }
    }

    method AddStatic(id: Id)
      requires Valid()
      modifies this`fixed
      ensures Valid() && fixed == old(fixed) + {id}
    {
      fixed := fixed + {id};
    }

    /** `removeStatic`: the node may be dialed again at once. */
    method RemoveStatic(id: Id)
      requires Valid()
      modifies this`fixed, this`hist
      ensures Valid() && fixed == old(fixed) - {id} && !Recent(hist, id)
      ensures forall h :: h in hist <==> h in old(hist) && h.id != id
    {
      fixed := fixed - {id};
      var removed;
      hist, removed := RemoveDial(hist, id);
    }

    /** `taskDone` for a task that was handed out. */
    method TaskDone(task: Task, results: seq<Id>, now: nat)
      requires Valid()
      requires task.Dial? ==> task.id in live
      requires task.Lookup? ==> lookups > 0
      modifies this`dialing, this`live, this`lookups, this`lookupRunning, this`lookupBuf, this`hist
      ensures Valid()
      ensures dialing == if task.Dial? then old(dialing) - {task.id} else old(dialing)
      ensures live == if task.Dial? then old(live) - multiset{task.id} else old(live)
      ensures task.Dial? ==> forall h :: h in hist <==>
                h in old(hist) || h == PastDial(task.id, now + HISTORY_EXPIRATION)
      ensures !task.Dial? ==> hist == old(hist)
      ensures task.Lookup? ==> !lookupRunning && lookupBuf == old(lookupBuf) + results
      ensures !task.Lookup? ==> lookupRunning == old(lookupRunning) && lookupBuf == old(lookupBuf)
    {
      match task
      case Dial(id, _) =>
        var p := PastDial(id, now + HISTORY_EXPIRATION);
        assert !Recent(hist, id);
        hist := Heap.Push(hist, Earlier, p);
        SameEntries(hist, old(hist), p);
        SingleMore(hist, old(hist), p);
        dialing := dialing - {id};
        live := live - multiset{id};
      case Lookup =>
        lookupRunning := false;
        lookups := lookups - 1;
        lookupBuf := lookupBuf + results;
      case WaitExpire(_) =>
    }

    // ---------- new tasks ----------

    /** Dials for static nodes that are not connected; hopeless ones are forgotten. */
    method StaticDials(peers: map<Id, bool>) returns (tasks: seq<Task>)
      requires Valid()
      modifies this`dialing, this`live, this`fixed
      ensures Valid() && Handed(old(dialing), dialing, tasks, peers, self, allowed, hist)
      ensures Dynamic(dialing) == Dynamic(old(dialing)) && (forall t :: t in tasks ==> t.Dial? && !t.dynamic)
      ensures forall id :: id in old(fixed) && Eligible(id, old(dialing), peers, self, allowed, hist) ==>
                Dial(id, false) in tasks
      ensures fixed <= old(fixed)
      ensures forall id :: id in old(fixed) - fixed ==> self == Some(id) || (allowed.Some? && id !in allowed.value)
    {
      hide Handed, Eligible, Valid, Dynamic;
      tasks := [];
      HandedNone(dialing, peers, self, allowed, hist);
      var left := fixed;
      while left != {}
        invariant left <= fixed <= old(fixed) && Valid() && hist == old(hist)
        invariant Handed(old(dialing), dialing, tasks, peers, self, allowed, hist)
        invariant Dynamic(dialing) == Dynamic(old(dialing)) && (forall t :: t in tasks ==> t.Dial? && !t.dynamic)
        invariant forall id :: id in dialing && id !in old(dialing) ==> id !in left
        invariant forall id :: id in old(fixed) - left && Eligible(id, old(dialing), peers, self, allowed, hist) ==>
                    Dial(id, false) in tasks
        invariant forall id :: id in old(fixed) - fixed ==> self == Some(id) || (allowed.Some? && id !in allowed.value)
        decreases left
      {
        var id :| id in left;
        StillEligible(id, old(dialing), dialing, tasks, peers, self, allowed, hist);
        ghost var d1 := dialing;
        left := left - {id};
        var ok := StaticDial(id, peers);
        if ok {
          HandedNext(old(dialing), d1, tasks, peers, self, allowed, hist, id, false);
          DynamicSame(d1, id, peers, self, allowed, hist);
          tasks := tasks + [Dial(id, false)];
        }
      }
    }

    /** Dials candidates in their order until enough are found. Half of the free places may be
        filled from any candidates (`all`), otherwise places are counted down. */
    method DynamicDials(tasks: seq<Task>, need: int, candidates: seq<Id>, limit: nat, all: bool, peers: map<Id, bool>,
                        ghost d0: map<Id, bool>)
      returns (tasks': seq<Task>, need': int, tried: nat)
      requires Valid() && Handed(d0, dialing, tasks, peers, self, allowed, hist) && limit <= |candidates|
      requires need == maxDynDials - |Dynamic(peers)| - |Dynamic(dialing)| && (all ==> limit <= need)
      modifies this`dialing, this`live
      ensures Valid() && Handed(d0, dialing, tasks', peers, self, allowed, hist)
      ensures need' == maxDynDials - |Dynamic(peers)| - |Dynamic(dialing)|
      ensures (if need >= 0 then 0 <= need' <= need else need' == need)
      ensures tried <= limit && (tried < limit ==> !all && need' <= 0)
      ensures tasks <= tasks'
      ensures forall i :: |tasks| <= i < |tasks'| ==>
                tasks'[i].Dial? && tasks'[i].dynamic && tasks'[i].id in candidates[..tried]
      ensures forall k :: 0 <= k < tried ==> !Eligible(candidates[k], dialing, peers, self, allowed, hist)
      ensures forall id :: id in old(dialing) ==> id in dialing
    {
      hide Handed;
      tasks', need', tried := tasks, need, 0;
      while tried < limit && (all || need' > 0)
        invariant tried <= limit && Valid() && Handed(d0, dialing, tasks', peers, self, allowed, hist)
        invariant need' == maxDynDials - |Dynamic(peers)| - |Dynamic(dialing)|
        invariant (if need >= 0 then 0 <= need' <= need else need' == need)
        invariant all ==> limit - tried <= need'
        invariant tasks <= tasks'
        invariant forall i :: |tasks| <= i < |tasks'| ==>
                    tasks'[i].Dial? && tasks'[i].dynamic && tasks'[i].id in candidates[..tried]
        invariant forall k :: 0 <= k < tried ==> !Eligible(candidates[k], dialing, peers, self, allowed, hist)
        invariant forall id :: id in old(dialing) ==> id in dialing
      {
        var id := candidates[tried];
        assert candidates[..tried + 1] == candidates[..tried] + [id];
        ghost var d1 := dialing;
        var ok := AddDial(id, true, peers);
        if ok {
          HandedNext(d0, d1, tasks', peers, self, allowed, hist, id, true);
          DynamicMore(d1, id);
          tasks', need' := tasks' + [Dial(id, true)], need' - 1;
        }
        tried := tried + 1;
      }
    }

    /** It is time to try a bootnode: there are no peers at all, and there have been none for long. */
    predicate Fallback(need: int, peers: map<Id, bool>, now: nat)
      reads this`bootnodes, this`started
    {
      |peers| == 0 && |bootnodes| > 0 && need > 0 && started.Some? && now - started.value > FALLBACK_INTERVAL
    }

    /** The first bootnode goes to the end of the row and is dialed. */
    method TryBootnode(tasks: seq<Task>, need: int, peers: map<Id, bool>, ghost d0: map<Id, bool>)
        returns (tasks': seq<Task>, need': int)
      requires Valid() && Handed(d0, dialing, tasks, peers, self, allowed, hist) && AllDials(tasks) && |bootnodes| > 0
      requires need > 0
      requires need == maxDynDials - |Dynamic(peers)| - |Dynamic(dialing)|
      modifies this`dialing, this`live, this`bootnodes
      ensures Valid() && Handed(d0, dialing, tasks', peers, self, allowed, hist) && tasks <= tasks' && AllDials(tasks')
      ensures need' == maxDynDials - |Dynamic(peers)| - |Dynamic(dialing)| && need - 1 <= need' <= need
      ensures bootnodes == old(bootnodes)[1..] + [old(bootnodes)[0]]
      ensures !Eligible(old(bootnodes)[0], dialing, peers, self, allowed, hist)
      ensures forall id :: id in old(dialing) ==> id in dialing
    {
      hide Handed, Eligible, Dynamic;
      var bootnode := bootnodes[0];
      bootnodes := bootnodes[1..] + [bootnode];
      ghost var d1 := dialing;
      var ok := AddDial(bootnode, true, peers);
      tasks', need' := tasks, need;
      if ok {
        HandedNext(d0, d1, tasks, peers, self, allowed, hist, bootnode, true);
        NowDialing(d1, bootnode, peers, self, allowed, hist);
        tasks', need' := tasks + [Dial(bootnode, true)], need - 1;
      }
    }

    /** The dynamic part of `newTasks`: a bootnode if there is nobody at all, random nodes for half
        of the free places, then lookup results. Whoever was tried is dialed now or was not
        eligible. */
    method FindPeers(tasks: seq<Task>, need: int, peers: map<Id, bool>, random: seq<Id>, now: nat,
                     ghost d0: map<Id, bool>)
      returns (tasks': seq<Task>, need': int)
      requires Valid() && Handed(d0, dialing, tasks, peers, self, allowed, hist) && AllDials(tasks)
      requires need == maxDynDials - |Dynamic(peers)| - |Dynamic(dialing)|
      modifies this`dialing, this`live, this`bootnodes, this`lookupBuf
      ensures Valid() && Handed(d0, dialing, tasks', peers, self, allowed, hist) && tasks <= tasks' && AllDials(tasks')
      ensures need' == maxDynDials - |Dynamic(peers)| - |Dynamic(dialing)|
      ensures (if need >= 0 then 0 <= need' <= need else need' == need)
      ensures bootnodes == if old(Fallback(need, peers, now)) then old(bootnodes)[1..] + [old(bootnodes)[0]]
              else old(bootnodes)
      ensures old(Fallback(need, peers, now)) ==> !Eligible(old(bootnodes)[0], dialing, peers, self, allowed, hist)
      ensures forall k: nat :: k < |random| && k < (if old(Fallback(need, peers, now)) then need - 1 else need) / 2 ==>
                !Eligible(random[k], dialing, peers, self, allowed, hist)
      ensures Used(old(lookupBuf), lookupBuf, dialing, peers, self, allowed, hist) && (lookupBuf == [] || need' <= 0)
    {
      hide Handed, Valid, Dynamic, Eligible;
      tasks', need' := tasks, need;
      ghost var boot := Fallback(need, peers, now);
      if |peers| == 0 && |bootnodes| > 0 && need' > 0 && started.Some? && now - started.value > FALLBACK_INTERVAL {
        tasks', need' := TryBootnode(tasks', need', peers, d0);
      }
      ghost var d1, need1 := dialing, need';
      var tried: nat := 0;
      if need' / 2 > 0 {
        var limit := if need' / 2 < |random| then need' / 2 else |random|;
        tasks', need', tried := DynamicDials(tasks', need', random, limit, true, peers, d0);
      }
      ghost var d2 := dialing;
      tasks', need', tried := DynamicDials(tasks', need', lookupBuf, |lookupBuf|, false, peers, d0);
      lookupBuf := lookupBuf[tried..];
      UsedUp(old(lookupBuf), tried, dialing, peers, self, allowed, hist);
      forall id | !Eligible(id, d1, peers, self, allowed, hist) || !Eligible(id, d2, peers, self, allowed, hist)
        ensures !Eligible(id, dialing, peers, self, allowed, hist) {
        StaysIneligible(id, d1, dialing, peers, self, allowed, hist);
        StaysIneligible(id, d2, dialing, peers, self, allowed, hist);
      }
    }

    /** The end of `newTasks`: a lookup if candidates are wanting, and a timer if there is nothing
        else to do. */
    method KeepTicking(tasks: seq<Task>, need: int, nRunning: nat, peers: map<Id, bool>, now: nat,
                       ghost d0: map<Id, bool>) returns (tasks': seq<Task>)
      requires Valid() && Handed(d0, dialing, tasks, peers, self, allowed, hist) && AllDials(tasks)
      requires forall h :: h in hist ==> h.exp >= now
      modifies this`lookupRunning, this`lookups
      ensures Valid() && Handed(d0, dialing, tasks', peers, self, allowed, hist) && tasks <= tasks'
      ensures |tasks'| <= |tasks| + 1
      ensures Lookup in tasks' <==> !old(lookupRunning) && lookupRunning
      ensures old(lookupRunning) || |lookupBuf| < need ==> lookupRunning
      ensures forall d :: WaitExpire(d) in tasks' ==>
                nRunning == 0 && tasks' == [WaitExpire(d)] && NextExpiry(hist, now + d)
      ensures nRunning == 0 && hist != [] ==> tasks' != []
    {
      hide Handed, Heap.IsHeap, Single;
      tasks' := tasks;
      if |lookupBuf| < need && !lookupRunning {
        lookupRunning, lookups := true, lookups + 1;
        HandedOther(d0, dialing, tasks', peers, self, allowed, hist, Lookup);
        tasks' := tasks' + [Lookup];
      }
      if nRunning == 0 && |tasks'| == 0 && |hist| > 0 {
        FirstExpiry(hist);
        HandedOther(d0, dialing, tasks', peers, self, allowed, hist, WaitExpire(hist[0].exp - now));
        tasks' := tasks' + [WaitExpire(hist[0].exp - now)];
      }
    }

    method ExpireHistory(now: nat)
      requires Valid()
      modifies this`hist
      ensures Valid() && forall h :: h in hist <==> h in old(hist) && h.exp >= now
    {
      hide Heap.IsHeap, Single;
      hist := Expire(hist, now);
    }

    /** `newTasks` */
    method NewTasks(nRunning: nat, peers: map<Id, bool>, random: seq<Id>, now: nat) returns (tasks: seq<Task>)
      requires Valid()
      modifies this
      ensures Valid() && Handed(old(dialing), dialing, tasks, peers, self, allowed, hist)
      ensures forall h :: h in hist <==> h in old(hist) && h.exp >= now
      ensures |Dynamic(dialing)| + |Dynamic(peers)| <= maxDynDials || |Dynamic(dialing)| == |Dynamic(old(dialing))|
      ensures forall id :: id in old(fixed) && Eligible(id, old(dialing), peers, self, allowed, hist) ==>
                Dial(id, false) in tasks
      ensures fixed <= old(fixed)
      ensures forall id :: id in old(fixed) - fixed ==> self == Some(id) || (allowed.Some? && id !in allowed.value)
      ensures forall i :: 0 <= i < |tasks| - 1 ==> tasks[i].Dial?
      ensures Lookup in tasks <==> !old(lookupRunning) && lookupRunning
      ensures lookupBuf == [] || |Dynamic(dialing)| + |Dynamic(peers)| >= maxDynDials
      ensures |Dynamic(dialing)| + |Dynamic(peers)| < maxDynDials ==> lookupRunning
      ensures forall d :: WaitExpire(d) in tasks ==>
                nRunning == 0 && tasks == [WaitExpire(d)] && NextExpiry(hist, now + d)
      ensures nRunning == 0 && hist != [] ==> tasks != []
      ensures started == if old(started).None? then Some(now) else old(started)
      ensures Used(old(lookupBuf), lookupBuf, dialing, peers, self, allowed, hist)
    {
      hide Handed, Dynamic, Eligible, Valid, NextExpiry, Used;
      if started.None? {
        started := Some(now);
      }
      var need := maxDynDials - |Dynamic(peers)| - |Dynamic(dialing)|;
      ExpireHistory(now);
      tasks := StaticDials(peers);
      tasks, need := FindPeers(tasks, need, peers, random, now, old(dialing));
      tasks := KeepTicking(tasks, need, nRunning, peers, now, old(dialing));
    }
  }

  ghost predicate AllDials(tasks: seq<Task>)
  {
    forall t :: t in tasks ==> t.Dial?
  }

  /** The time at which the next entry of the history is due. */
  ghost predicate NextExpiry(hist: seq<PastDial>, t: nat)
  {
    (exists h :: h in hist && h.exp == t) && forall h :: h in hist ==> h.exp >= t
  }

  lemma FirstExpiry(hist: seq<PastDial>)
    requires Heap.IsHeap(hist, Earlier) && hist != []
    ensures NextExpiry(hist, hist[0].exp)
  {
    forall h | h in hist ensures h.exp >= hist[0].exp {
      var k :| 0 <= k < |hist| && hist[k] == h;
      Heap.RootIsLeast(hist, Earlier, k);
    }
  }

  /** No node is handed out twice, and none that was being dialed already. */
  lemma NoDoubleDial(d0: map<Id, bool>, d: map<Id, bool>, tasks: seq<Task>, peers: map<Id, bool>, self: Option<Id>,
                     allowed: Option<set<Id>>, hist: seq<PastDial>, i: nat, j: nat)
    requires Handed(d0, d, tasks, peers, self, allowed, hist) && i < |tasks| && tasks[i].Dial?
    ensures tasks[i].id !in d0 && tasks[i].id !in peers && self != Some(tasks[i].id) && tasks[i].id in d
    ensures i < j < |tasks| && tasks[j].Dial? ==> tasks[i].id != tasks[j].id
  {
    var id := tasks[i].id;
    if id in d0 {
      GrantedGrows(d0, tasks[..i], id);
    }
    GrantedAt(d0, tasks, i);
    if i < j < |tasks| && tasks[j].Dial? {
      GrantedAt(d0, tasks[..j], i);
    }
  }

  lemma {:induction false} GrantedAt(d: map<Id, bool>, tasks: seq<Task>, i: nat)
    requires i < |tasks| && tasks[i].Dial?
    ensures tasks[i].id in Granted(d, tasks)
  {
    if i < |tasks| - 1 {
      GrantedAt(d, tasks[..|tasks| - 1], i);
    }
  }

  /** Candidates taken off the front of a row are dialed or were not eligible. */
  ghost predicate Used(row: seq<Id>, rest: seq<Id>, dialing: map<Id, bool>, peers: map<Id, bool>, self: Option<Id>,
                       allowed: Option<set<Id>>, hist: seq<PastDial>)
  {
    |rest| <= |row| && rest == row[|row| - |rest|..] && forall k :: 0 <= k < |row| - |rest| ==>
      !Eligible(row[k], dialing, peers, self, allowed, hist)
  }

  lemma UsedUp(row: seq<Id>, tried: nat, dialing: map<Id, bool>, peers: map<Id, bool>, self: Option<Id>,
               allowed: Option<set<Id>>, hist: seq<PastDial>)
    requires tried <= |row| && forall k :: 0 <= k < tried ==> !Eligible(row[k], dialing, peers, self, allowed, hist)
    ensures Used(row, row[tried..], dialing, peers, self, allowed, hist)
  {
    hide Eligible;
  }

  lemma StaysIneligible(id: Id, d: map<Id, bool>, d': map<Id, bool>, peers: map<Id, bool>, self: Option<Id>,
                        allowed: Option<set<Id>>, hist: seq<PastDial>)
    requires forall x :: x in d ==> x in d'
    ensures !Eligible(id, d, peers, self, allowed, hist) ==> !Eligible(id, d', peers, self, allowed, hist)
  {}

  lemma NowDialing(d: map<Id, bool>, id: Id, peers: map<Id, bool>, self: Option<Id>, allowed: Option<set<Id>>,
                   hist: seq<PastDial>)
    requires Eligible(id, d, peers, self, allowed, hist)
    ensures !Eligible(id, d[id := true], peers, self, allowed, hist) && |Dynamic(d[id := true])| == |Dynamic(d)| + 1
  {
    DynamicMore(d, id);
  }
}
