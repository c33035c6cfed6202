/** The pool's limits: lengths of lists and their sums, the cut of the longest executable lists,
    and the trimming of the queue. */
module TxLimits {
  import opened Basics
  import opened TxMaps
  import opened TxSorted
  import opened TxLists
  import opened TxBooks
  import opened Sums
  import FairShare

  function Lengths(ls: Lists): (r: map<nat, nat>)
  {
    map a | a in ls :: |ls[a].txs|
  }

  /** Only the highest nonces are missing. */
  ghost predicate TopsCut(ls: Lists, ls': Lists)
  {
    ls.Keys == ls'.Keys && forall a :: a in ls' ==> ls'[a].txs == CapTo(ls[a].txs, |ls'[a].txs|)
  }

  lemma CapAgain(m: TxMap, n: nat)
    requires n + 1 <= |m|
    ensures CapTo(CapTo(m, n + 1), n) == CapTo(m, n)
    decreases |m|
  {
    if n + 1 < |m| {
      CapAgain(m - {MaxOf(m.Keys)}, n);
    }
  }

  lemma CutTop(ls0: Lists, ls: Lists, ls': Lists, a: Addr)
    requires TopsCut(ls0, ls) && a in ls && |ls[a].txs| > 0 && SameBut(ls, ls', a) && a in ls'
    requires ls'[a].txs == CapTo(ls[a].txs, |ls[a].txs| - 1)
    ensures TopsCut(ls0, ls')
  {
    hide CapTo;
    CapAgain(ls0[a].txs, |ls[a].txs| - 1);
    assert ls.Keys == ls'.Keys;
  }

  lemma CutLengths(ls: Lists, ls': Lists, a: Addr)
    requires a in ls && |ls[a].txs| > 0 && SameBut(ls, ls', a) && a in ls' && |ls'[a].txs| == |ls[a].txs| - 1
    ensures a in Lengths(ls) && Lengths(ls') == Lengths(ls)[a := Lengths(ls)[a] - 1]
    ensures Sum(Lengths(ls')) == Sum(Lengths(ls)) - 1
  {
    hide Sum;
    assert Lengths(ls') == Lengths(ls)[a := |ls[a].txs| - 1];
    SumUpdate(Lengths(ls), a, |ls[a].txs| - 1);
  }

  lemma CutOne(ls0: Lists, ls: Lists, ls': Lists, offenders: seq<Addr>, i: nat)
    requires i < |offenders| && Distinct(offenders) && TopsCut(ls0, ls)
    requires var a := offenders[i];
             && a in ls0 && |ls0[a].txs| > 0 && a in ls && |ls[a].txs| > 0 && SameBut(ls, ls', a) && a in ls'
             && ls'[a].txs == CapTo(ls[a].txs, |ls[a].txs| - 1)
    requires Lengths(ls) == FairShare.Lowered(Lengths(ls0), Elems(offenders[..i]))
    ensures TopsCut(ls0, ls') && Sum(Lengths(ls')) == Sum(Lengths(ls)) - 1
    ensures Lengths(ls') == FairShare.Lowered(Lengths(ls0), Elems(offenders[..i + 1]))
  {
    hide CapTo, Sum, FairShare.Lowered, Elems, TopsCut, SameBut;
    CutTop(ls0, ls, ls', offenders[i]);
    CutLengths(ls, ls', offenders[i]);
    FairShare.LoweredNext(Lengths(ls0), offenders, i);
  }

  lemma StillThere(ls0: Lists, ls: Lists, offenders: seq<Addr>, i: nat)
    requires i < |offenders| && Distinct(offenders)
    requires offenders[i] in ls0 && |ls0[offenders[i]].txs| > 0
    requires Lengths(ls) == FairShare.Lowered(Lengths(ls0), Elems(offenders[..i]))
    ensures offenders[i] in ls && |ls[offenders[i]].txs| > 0
  {
    hide FairShare.Lowered, Elems;
    FairShare.LoweredNext(Lengths(ls0), offenders, i);
    assert offenders[i] in Lengths(ls);
  }

  lemma NoRound(ls: Lists, offenders: seq<Addr>)
    ensures TopsCut(ls, ls) && Lengths(ls) == FairShare.Lowered(Lengths(ls), Elems(offenders[..0]))
  {}

  lemma CapCap(m: TxMap, n: nat, k: nat)
    requires k <= n
    ensures CapTo(CapTo(m, n), k) == CapTo(m, k)
    decreases |m|
  {
    if |m| > n {
      CapCap(m - {MaxOf(m.Keys)}, n, k);
    }
  }

  lemma TopsTwice(x: Lists, y: Lists, z: Lists)
    requires TopsCut(x, y) && TopsCut(y, z)
    ensures TopsCut(x, z)
  {
    hide CapTo;
    forall a | a in z ensures z[a].txs == CapTo(x[a].txs, |z[a].txs|) {
      CapCap(x[a].txs, |y[a].txs|, |z[a].txs|);
    }
  }

  lemma AllLong(pending: Lists, lens: map<nat, nat>, big: set<Addr>, floor: nat, limit: nat, h: nat,
                offenders: seq<Addr>, target: nat)
    requires FairShare.Evened(lens, Lengths(pending), big, floor, limit, h)
    requires FairShare.Over(lens, big, Elems(offenders), h, target)
    ensures forall a :: a in offenders ==> a in pending && |pending[a].txs| == h
  {
    hide Sum;
    forall a | a in offenders ensures a in pending && |pending[a].txs| == h {
      assert a in Elems(offenders);
      assert a in Lengths(pending);
    }
  }

  lemma LastLength(pending: Lists, lens: map<nat, nat>, big: set<Addr>, floor: nat, limit: nat, h: nat,
                   offenders: seq<Addr>, target: nat)
    requires FairShare.Evened(lens, Lengths(pending), big, floor, limit, h) && offenders != []
    requires FairShare.Over(lens, big, Elems(offenders), h, target)
    ensures offenders[|offenders| - 1] in pending && |pending[offenders[|offenders| - 1]].txs| == h
  {
    hide FairShare.Evened, FairShare.Over;
    AllLong(pending, lens, big, floor, limit, h, offenders, target);
  }

  /** Accounts that the cut may touch: not local, and above the guaranteed number. */
  function Big(pending: Lists, locals: set<Addr>, floor: nat): (r: set<Addr>)
  {
    set a | a in pending && a !in locals && |pending[a].txs| > floor
  }

  method Total(ls: Lists) returns (n: nat)
    ensures n == Sum(Lengths(ls))
  {
    n := 0;
    var left := Lengths(ls);
    while |left| != 0
      invariant n + Sum(left) == Sum(Lengths(ls))
      decreases |left|
    {
      var a :| a in left;
      SumOut(left, a);
      n, left := n + left[a], left - {a};
    }
  }

  method Longest(ls: Lists, among: set<Addr>) returns (o: Addr)
    requires among != {} && among <= ls.Keys
    ensures o in among && forall s :: s in among ==> |ls[s].txs| <= |ls[o].txs|
  {
    o :| o in among;
    var left := among - {o};
    while left != {}
      invariant left <= among && o in among && forall s :: s in among && s !in left ==> |ls[s].txs| <= |ls[o].txs|
      decreases left
    {
      var a :| a in left;
      if |ls[a].txs| > |ls[o].txs| {
        o := a;
      }
      left := left - {a};
    }
  }

  lemma LengthsAt(ls: Lists, among: set<Addr>)
    requires among <= ls.Keys
    ensures forall a :: a in among ==> a in Lengths(ls) && Lengths(ls)[a] == |ls[a].txs|
  {}

  lemma SpammersThere(pending: Lists, lens: map<nat, nat>, big: set<Addr>, floor: nat, limit: nat,
                      offenders: seq<Addr>, spammers: set<Addr>, h: nat)
    requires FairShare.Evened(lens, Lengths(pending), big, floor, limit, h)
    requires FairShare.Lined(lens, Lengths(pending), big, floor, offenders, spammers, h, true)
    ensures spammers <= pending.Keys
  {
    hide Sum;
    forall a | a in spammers ensures a in pending {
      assert a in Lengths(pending);
    }
  }

  lemma BigStart(pending: Lists, locals: set<Addr>, floor: nat, limit: nat, over: bool)
    ensures var lens, big := Lengths(pending), Big(pending, locals, floor);
            && FairShare.Evened(lens, lens, big, floor, limit, Sum(lens) + floor)
            && FairShare.Lined(lens, lens, big, floor, [], big, Sum(lens) + floor, over)
            && TopsCut(pending, pending)
  {
    hide Sum, FairShare.Evened, FairShare.Lined, TopsCut;
    NoRound(pending, []);
    FairShare.LinedUp(Lengths(pending), Big(pending, locals, floor), floor, limit, over);
  }

  lemma SameStart(queue: Lists, a: Addr)
    ensures SameBut(queue, queue, a) && Txs(queue, a) == CapTo(Txs(queue, a), |Txs(queue, a)|)
  {}

  function Beat(beats: map<Addr, nat>, a: Addr): (t: nat)
  {
    if a in beats then beats[a] else 0
  }

  function Remote(ls: Lists, locals: set<Addr>): (r: set<Addr>)
  {
    set a | a in ls && a !in locals
  }

  /** Accounts in the order of their last activity. */
  method ByHeartbeat(accounts: set<Addr>, beats: map<Addr, nat>) returns (order: seq<Addr>)
    ensures Distinct(order) && Elems(order) == accounts
    ensures forall i, j :: 0 <= i < j < |order| ==> Beat(beats, order[i]) <= Beat(beats, order[j])
  {
    order := [];
    var left := accounts;
    while left != {}
      invariant left <= accounts && Distinct(order) && Elems(order) == accounts - left
      invariant forall i, j :: 0 <= i < j < |order| ==> Beat(beats, order[i]) <= Beat(beats, order[j])
      invariant forall i, a :: 0 <= i < |order| && a in left ==> Beat(beats, order[i]) <= Beat(beats, a)
      decreases left
    {
      var a := Earliest(left, beats);
      assert a !in Elems(order) && a !in order;
      Joins(order, a);
      order, left := order + [a], left - {a};
    }
  }

  method Earliest(among: set<Addr>, beats: map<Addr, nat>) returns (o: Addr)
    requires among != {}
    ensures o in among && forall a :: a in among ==> Beat(beats, o) <= Beat(beats, a)
  {
    o :| o in among;
    var left := among - {o};
    while left != {}
      invariant left <= among && o in among && forall a :: a in among && a !in left ==> Beat(beats, o) <= Beat(beats, a)
      decreases left
    {
      var a :| a in left;
      if Beat(beats, a) < Beat(beats, o) {
        o := a;
      }
      left := left - {a};
    }
  }

  /** The queue after some accounts had their turn; one of them at most has anything left. */
  ghost predicate Trimmed(q0: Lists, q: Lists, touched: set<Addr>, last: set<Addr>)
  {
    && (forall a :: a !in touched && a in q0 ==> a in q)
    && (forall a :: a !in touched ==> Txs(q, a) == Txs(q0, a))
    && (forall a :: a in touched ==> Txs(q, a) == CapTo(Txs(q0, a), |Txs(q, a)|))
    && (forall a :: a in touched && a !in last ==> Txs(q, a) == map[])
  }

  /** If too much is queued, the total is brought down to the limit or, failing that, only local
      accounts are left. Local accounts lose nothing, other accounts lose their highest nonces,
      and whoever was active after somebody who lost anything has nothing left. */
  ghost predicate QueueTrimmed(q0: Lists, q: Lists, locals: set<Addr>, beats: map<Addr, nat>, limit: nat)
  {
    && (Sum(Lengths(q0)) <= limit ==> q == q0)
    && (Sum(Lengths(q0)) > limit ==>
          Sum(Lengths(q)) >= limit && (Sum(Lengths(q)) == limit || forall a :: a !in locals ==> Txs(q, a) == map[]))
    && (forall a :: a in locals ==> Txs(q, a) == Txs(q0, a))
    && (forall a :: Txs(q, a) == CapTo(Txs(q0, a), |Txs(q, a)|))
    && forall a, b :: a !in locals && b !in locals && Beat(beats, a) > Beat(beats, b) && Txs(q, b) != Txs(q0, b) ==>
         Txs(q, a) == map[]
  }

  lemma NotTrimmed(q: Lists, locals: set<Addr>, beats: map<Addr, nat>, limit: nat)
    requires Sum(Lengths(q)) <= limit
    ensures QueueTrimmed(q, q, locals, beats, limit)
  {
    hide Sum;
  }

  lemma TrimStart(q: Lists, order: seq<Addr>)
    ensures Trimmed(q, q, Elems(order[|order|..]), {})
  {}

  lemma TrimNext(q0: Lists, q: Lists, order: seq<Addr>, k: nat)
    requires k < |order| && Distinct(order) && Elems(order) <= q0.Keys
    requires Trimmed(q0, q, Elems(order[k + 1..]), {})
    ensures order[k] !in Elems(order[k + 1..]) && order[k] in q
    ensures Elems(order[k..]) == Elems(order[k + 1..]) + {order[k]}
  {
    hide CapTo;
    assert order[k] in Elems(order);
    assert order[k..] == [order[k]] + order[k + 1..];
  }

  lemma TrimStep(q0: Lists, q: Lists, q': Lists, touched: set<Addr>, a: Addr, last: set<Addr>)
    requires Trimmed(q0, q, touched, {}) && SameBut(q, q', a) && a !in touched
    requires Txs(q', a) == CapTo(Txs(q, a), |Txs(q', a)|) && (a in last || |Txs(q', a)| == 0)
    ensures Trimmed(q0, q', touched + {a}, last)
  {
    hide CapTo;
    SameButTxs(q, q', a);
  }

  lemma SumAt(q: Lists, q': Lists, a: Addr)
    requires SameBut(q, q', a)
    ensures Sum(Lengths(q')) - |Txs(q', a)| == Sum(Lengths(q)) - |Txs(q, a)|
  {
    hide Sum;
    SumBut(Lengths(q), Lengths(q'), a);
  }

  lemma TrimEnd(q0: Lists, q: Lists, order: seq<Addr>, k: nat, drop: nat, locals: set<Addr>, beats: map<Addr, nat>,
                limit: nat)
    requires k <= |order| && Trimmed(q0, q, Elems(order[k..]), if drop > 0 || k == |order| then {} else {order[k]})
    requires Sum(Lengths(q)) == limit + drop && Sum(Lengths(q0)) > limit && (drop == 0 || k == 0)
    requires Elems(order) == Remote(q0, locals)
    requires forall i, j :: 0 <= i < j < |order| ==> Beat(beats, order[i]) <= Beat(beats, order[j])
    ensures QueueTrimmed(q0, q, locals, beats, limit)
  {
    hide Sum, CapTo, Trimmed, Elems, Lengths, Beat;
    TrimCaps(q0, q, Elems(order[k..]), if drop > 0 || k == |order| then {} else {order[k]});
    TrimRemote(q0, q, order, k, drop, locals);
    forall a, b | a !in locals && b !in locals && Beat(beats, a) > Beat(beats, b) && Txs(q, b) != Txs(q0, b)
      ensures Txs(q, a) == map[] {
      TrimOrder(q0, q, order, k, drop, locals, beats, a, b);
    }
  }

  lemma TrimCaps(q0: Lists, q: Lists, touched: set<Addr>, last: set<Addr>)
    requires Trimmed(q0, q, touched, last)
    ensures forall a :: Txs(q, a) == CapTo(Txs(q0, a), |Txs(q, a)|)
    ensures forall a :: a !in q0 ==> Txs(q, a) == map[]
  {
    hide CapTo;
    forall a ensures Txs(q, a) == CapTo(Txs(q0, a), |Txs(q, a)|) {
      if a !in touched {
        CapAll(Txs(q0, a));
      }
    }
    forall a | a !in q0 ensures Txs(q, a) == map[] {
      CapOfNone(|Txs(q, a)|);
    }
  }

  lemma TrimRemote(q0: Lists, q: Lists, order: seq<Addr>, k: nat, drop: nat, locals: set<Addr>)
    requires k <= |order| && Trimmed(q0, q, Elems(order[k..]), if drop > 0 || k == |order| then {} else {order[k]})
    requires Elems(order) == Remote(q0, locals) && (drop == 0 || k == 0)
    ensures forall a :: a in locals ==> Txs(q, a) == Txs(q0, a)
    ensures drop > 0 ==> forall a :: a !in locals ==> Txs(q, a) == map[]
  {
    hide CapTo;
    assert Elems(order[k..]) <= Remote(q0, locals) by {
      assert forall a :: a in order[k..] ==> a in order;
    }
    if drop > 0 {
      assert order[0..] == order;
    }
  }

  lemma TrimOrder(q0: Lists, q: Lists, order: seq<Addr>, k: nat, drop: nat, locals: set<Addr>, beats: map<Addr, nat>,
                  a: Addr, b: Addr)
    requires k <= |order| && Trimmed(q0, q, Elems(order[k..]), if drop > 0 || k == |order| then {} else {order[k]})
    requires Elems(order) == Remote(q0, locals)
    requires forall i, j :: 0 <= i < j < |order| ==> Beat(beats, order[i]) <= Beat(beats, order[j])
    requires a !in locals && b !in locals && Beat(beats, a) > Beat(beats, b) && Txs(q, b) != Txs(q0, b)
    ensures Txs(q, a) == map[]
  {
    hide CapTo;
    assert b in Elems(order[k..]);
    if a in q0 {
      assert a in Elems(order);
      LaterIn(order, beats, k, a, b);
    } else {
      CapOfNone(|Txs(q, a)|);
    }
  }

  lemma LaterIn(order: seq<Addr>, beats: map<Addr, nat>, k: nat, a: Addr, b: Addr)
    requires forall i, j :: 0 <= i < j < |order| ==> Beat(beats, order[i]) <= Beat(beats, order[j])
    requires k < |order| && b in order[k..] && a in order && Beat(beats, a) > Beat(beats, b)
    ensures a in Elems(order[k..]) && a != order[k]
  {
    hide Beat;
    var j :| 0 <= j < |order[k..]| && order[k..][j] == b;
    var i :| 0 <= i < |order| && order[i] == a;
    assert order[k + j] == b;
    assert i > k + j;
    assert order[k..][i - k] == a;
  }

  lemma CapOfNone(n: nat)
    ensures CapTo(map[], n) == map[]
  {}

  lemma CapNone(m: TxMap)
    ensures CapTo(m, 0) == map[]
  {
    assert |CapTo(m, 0)| == 0;
  }

  /** Taking the highest nonce off a capped map caps it further. */
  lemma TopOff(m: TxMap, r: TxMap)
    requires |r| > 0 && |r| <= |m| && r == CapTo(m, |r|)
    ensures r - {MaxOf(r.Keys)} == CapTo(m, |r| - 1)
  {
    hide MaxOf;
    CapAgain(m, |r| - 1);
    assert CapTo(r, |r| - 1) == r - {MaxOf(r.Keys)};
  }

  /** Both limits are met, or only what they exempt is left. */
  ghost predicate Fits(pending: Lists, queue: Lists, locals: set<Addr>, config: Config)
  {
    && (|| Sum(Lengths(pending)) <= config.globalSlots
        || forall a :: a in pending && a !in locals ==> |pending[a].txs| <= config.accountSlots)
    && (Sum(Lengths(queue)) <= config.globalQueue || forall a :: a !in locals ==> Txs(queue, a) == map[])
  }

  lemma LimitsFit(p0: Lists, p: Lists, q0: Lists, q: Lists, locals: set<Addr>, config: Config, beats: map<Addr, nat>)
    requires FairShare.Fair(Lengths(p0), Lengths(p), Big(p0, locals, config.accountSlots), config.accountSlots,
                            config.globalSlots)
    requires QueueTrimmed(q0, q, locals, beats, config.globalQueue)
    ensures Fits(p, q, locals, config)
  {
    hide Sum, CapTo;
    if Sum(Lengths(p)) > config.globalSlots {
      var big, floor := Big(p0, locals, config.accountSlots), config.accountSlots;
      var h :| FairShare.FairLevel(Lengths(p0), big, floor, config.globalSlots, h)
               && Lengths(p) == FairShare.Level(Lengths(p0), big, h);
      forall a | a in p && a !in locals ensures |p[a].txs| <= floor {
        assert a in Lengths(p) && a in Lengths(p0);
        assert Lengths(p)[a] == FairShare.Level(Lengths(p0), big, h)[a];
      }
    }
  }

  /** Promotion bounds an account's queue, and trimming does not add to it. */
  lemma PromotedSize(q: Lists, q': Lists, accounts: seq<Addr>, i: nat, locals: set<Addr>, cap: nat)
    requires i < |accounts| && SameBut(q, q', accounts[i]) && (accounts[i] in locals || |Txs(q', accounts[i])| <= cap)
    requires forall a :: a in accounts[..i] && a !in locals ==> |Txs(q, a)| <= cap
    ensures forall a :: a in accounts[..i + 1] && a !in locals ==> |Txs(q', a)| <= cap
  {
    SameButTxs(q, q', accounts[i]);
    assert accounts[..i + 1] == accounts[..i] + [accounts[i]];
  }

  lemma TrimmedSizes(q: Lists, q': Lists, accounts: seq<Addr>, locals: set<Addr>, beats: map<Addr, nat>, config: Config)
    requires QueueTrimmed(q, q', locals, beats, config.globalQueue)
    requires forall a :: a in accounts && a !in locals ==> |Txs(q, a)| <= config.accountQueue
    ensures forall a :: a in accounts && a !in locals ==> |Txs(q', a)| <= config.accountQueue
  {
    hide Sum;
  }

  /** A remote account with a queue that has not been active for longer than the lifetime. */
  predicate Quiet(queue: Lists, locals: set<Addr>, beats: map<Addr, nat>, now: nat, lifetime: nat, a: Addr)
  {
    a in queue && a !in locals && now - Beat(beats, a) > lifetime
  }

  lemma ElemsOf(s: seq<Addr>, keys: set<Addr>)
    requires forall a :: a in s <==> a in keys
    ensures Elems(s) == keys
  {}

  lemma OneElem(a: Addr)
    ensures Elems([a]) == {a}
  {}
}
