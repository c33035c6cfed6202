/** The shape of the pending equaliser's result: one common level for all offenders. */
module FairShare {
  import opened Basics
  import opened Sums

  /** Lengths after cutting the accounts of `big` down to the level h. */
  function Level(lens: map<nat, nat>, big: set<nat>, h: nat): (r: map<nat, nat>)
    ensures r.Keys == lens.Keys
    ensures forall a :: a in lens ==> r[a] == if a in big && lens[a] > h then h else lens[a]
  {
    map a | a in lens :: if a in big && lens[a] > h then h else lens[a]
  }

  /** The level h is right: not under the guaranteed floor, at or below the limit unless the
      floor stops it, and if anything was cut, one step higher would break the limit. */
  ghost predicate FairLevel(lens: map<nat, nat>, big: set<nat>, floor: nat, limit: nat, h: nat)
  {
    && h >= floor
    && (Sum(Level(lens, big, h)) <= limit || h == floor)
    && (Level(lens, big, h) == lens || Sum(Level(lens, big, h + 1)) > limit)
  }

  /** The cut lengths come from a right level. */
  ghost predicate Fair(before: map<nat, nat>, after: map<nat, nat>, big: set<nat>, floor: nat, limit: nat)
  {
    exists h :: FairLevel(before, big, floor, limit, h) && after == Level(before, big, h)
  }

  lemma LevelAbove(lens: map<nat, nat>, big: set<nat>, h: nat)
    requires forall a :: a in lens && a in big ==> lens[a] <= h
    ensures Level(lens, big, h) == lens
  {}

  lemma LevelMonotone(lens: map<nat, nat>, big: set<nat>, h: nat, h': nat)
    requires h <= h' && big <= lens.Keys
    ensures Sum(Level(lens, big, h)) <= Sum(Level(lens, big, h'))
    decreases h' - h
  {
    if h < h' {
      LevelStep(lens, big, h);
      LevelMonotone(lens, big, h + 1, h');
    }
  }

  /** Accounts that are cut at the level h. */
  function CutAt(lens: map<nat, nat>, big: set<nat>, h: nat): (r: set<nat>)
  {
    set a | a in big && a in lens && lens[a] > h
  }

  lemma LevelStep(lens: map<nat, nat>, big: set<nat>, h: nat)
    requires big <= lens.Keys
    ensures Sum(Level(lens, big, h)) <= Sum(Level(lens, big, h + 1)) <= Sum(Level(lens, big, h)) + |CutAt(lens, big, h)|
  {
    SumWithin(Level(lens, big, h), Level(lens, big, h + 1), CutAt(lens, big, h));
  }

  lemma LevelBelow(lens: map<nat, nat>, big: set<nat>, h: nat)
    requires big <= lens.Keys
    ensures Sum(Level(lens, big, h)) <= Sum(lens)
  {
    hide Sum;
    forall a | a in lens ensures lens[a] <= Sum(lens) + h {
      SumOut(lens, a);
    }
    LevelAbove(lens, big, Sum(lens) + h);
    LevelMonotone(lens, big, h, Sum(lens) + h);
  }

  /** Whoever is cut was over the floor, stays at it or above, and there were too many. */
  lemma Shortened(before: map<nat, nat>, after: map<nat, nat>, big: set<nat>, floor: nat, limit: nat, a: nat)
    requires Fair(before, after, big, floor, limit) && big <= before.Keys && a in before && a in after
    requires after[a] != before[a]
    ensures a in big && floor <= after[a] < before[a] && Sum(before) > limit
  {
    hide Sum;
    var h: nat :| FairLevel(before, big, floor, limit, h) && after == Level(before, big, h);
    LevelBelow(before, big, h + 1);
  }

  /** The cut is the mildest possible: no account would keep more at any other common level
      that respects the limit. */
  lemma FairIsMildest(lens: map<nat, nat>, big: set<nat>, floor: nat, limit: nat, h: nat, h': nat, a: nat)
    requires big <= lens.Keys && FairLevel(lens, big, floor, limit, h) && Sum(Level(lens, big, h')) <= limit
    requires a in lens
    ensures Level(lens, big, h')[a] <= Level(lens, big, h)[a]
  {
    hide Sum;
    if h' > h && Level(lens, big, h) != lens {
      LevelMonotone(lens, big, h + 1, h');
    }
  }

  /** If anything was cut, the total falls short of the limit by less than the number of accounts
      that were cut. */
  lemma FairUndershoot(lens: map<nat, nat>, big: set<nat>, floor: nat, limit: nat, h: nat)
    requires big <= lens.Keys && FairLevel(lens, big, floor, limit, h) && Level(lens, big, h) != lens
    ensures Sum(Level(lens, big, h)) + |CutAt(lens, big, h)| > limit
  {
    LevelStep(lens, big, h);
  }

  /** One less for each of the given accounts. */
  function Lowered(lens: map<nat, nat>, cut: set<nat>): (r: map<nat, nat>)
    ensures r.Keys == lens.Keys
    ensures forall a :: a in lens ==> r[a] == if a in cut && lens[a] > 0 then lens[a] - 1 else lens[a]
  {
    map a | a in lens :: if a in cut && lens[a] > 0 then lens[a] - 1 else lens[a]
  }

  lemma LoweredNext(lens: map<nat, nat>, offenders: seq<nat>, i: nat)
    requires i < |offenders| && Distinct(offenders) && offenders[i] in lens && lens[offenders[i]] > 0
    ensures Lowered(lens, Elems(offenders[..i]))[offenders[i] := lens[offenders[i]] - 1] ==
              Lowered(lens, Elems(offenders[..i + 1]))
    ensures Lowered(lens, Elems(offenders[..i]))[offenders[i]] == lens[offenders[i]]
  {
    var x, y := Elems(offenders[..i]), Elems(offenders[..i + 1]);
    assert offenders[..i + 1] == offenders[..i] + [offenders[i]];
    assert y == x + {offenders[i]};
  }

  /** Cutting everyone above the level by one lowers the level by one. */
  lemma LowerLevel(lens: map<nat, nat>, big: set<nat>, h: nat, cut: set<nat>)
    requires h > 0 && cut <= big && big <= lens.Keys
    requires forall a :: a in big ==> if a in cut then lens[a] >= h else lens[a] < h
    ensures Lowered(Level(lens, big, h), cut) == Level(lens, big, h - 1)
  {}

  /** Lengths on the way: a level not under the floor, and nothing cut without need. */
  ghost predicate Evened(lens: map<nat, nat>, now: map<nat, nat>, big: set<nat>, floor: nat, limit: nat, h: nat)
  {
    && h >= floor
    && now == Level(lens, big, h)
    && (now == lens || Sum(Level(lens, big, h + 1)) > limit)
  }

  /** Exactly the given accounts reach the level, the other big ones are at most at the target. */
  ghost predicate Over(lens: map<nat, nat>, big: set<nat>, cut: set<nat>, h: nat, target: nat)
  {
    cut <= big <= lens.Keys && forall a :: a in big ==> if a in cut then lens[a] >= h else lens[a] <= target
  }

  lemma EvenLower(lens: map<nat, nat>, now: map<nat, nat>, big: set<nat>, floor: nat, limit: nat, h: nat,
                  cut: set<nat>, target: nat)
    requires Evened(lens, now, big, floor, limit, h) && Over(lens, big, cut, h, target) && floor <= target < h
    requires Sum(now) > limit
    ensures Evened(lens, Lowered(now, cut), big, floor, limit, h - 1) && Over(lens, big, cut, h - 1, target)
  {
    hide Sum;
    LowerLevel(lens, big, h, cut);
  }

  /** Big accounts are either offenders, longest first and all at the level as long as the limit
      is broken, or still waiting and not above the level. */
  ghost predicate Lined(lens: map<nat, nat>, now: map<nat, nat>, big: set<nat>, floor: nat, offenders: seq<nat>,
                        waiting: set<nat>, h: nat, over: bool)
  {
    && Distinct(offenders) && Elems(offenders) !! waiting && Elems(offenders) + waiting == big && big <= lens.Keys
    && (forall a :: a in big ==> lens[a] > floor)
    && (forall a :: a in waiting ==> lens[a] <= h)
    && (over ==> forall a :: a in Elems(offenders) ==> lens[a] >= h)
    && (offenders == [] ==> now == lens)
  }

  lemma LinedUp(lens: map<nat, nat>, big: set<nat>, floor: nat, limit: nat, over: bool)
    requires big <= lens.Keys && forall a :: a in big ==> lens[a] > floor
    ensures Evened(lens, lens, big, floor, limit, Sum(lens) + floor)
    ensures Lined(lens, lens, big, floor, [], big, Sum(lens) + floor, over)
  {
    hide Sum;
    forall a | a in lens ensures lens[a] <= Sum(lens) {
      SumOut(lens, a);
    }
    LevelAbove(lens, big, Sum(lens) + floor);
    assert Elems<nat>([]) == {};
  }

  lemma NextOffender(lens: map<nat, nat>, now: map<nat, nat>, big: set<nat>, floor: nat, limit: nat,
                     offenders: seq<nat>, waiting: set<nat>, h: nat, o: nat)
    requires Evened(lens, now, big, floor, limit, h) && Lined(lens, now, big, floor, offenders, waiting, h, true)
    requires o in waiting && forall a :: a in waiting ==> a in now && now[a] <= now[o]
    ensures Distinct(offenders) && floor <= now[o] <= h && now[o] == lens[o]
    ensures Over(lens, big, Elems(offenders), h, now[o])
    ensures offenders == [] ==> Evened(lens, now, big, floor, limit, now[o])
    ensures offenders == [] ==>
              forall over :: Lined(lens, now, big, floor, offenders + [o], waiting - {o}, now[o], over)
  {
    hide Sum;
    assert o !in Elems(offenders) && o !in offenders;
    Joins(offenders, o);
    if offenders == [] {
      LevelAbove(lens, big, now[o]);
    }
  }

  lemma Joined(lens: map<nat, nat>, now: map<nat, nat>, now': map<nat, nat>, big: set<nat>, floor: nat, limit: nat,
               offenders: seq<nat>, waiting: set<nat>, h: nat, o: nat, h': nat)
    requires Evened(lens, now, big, floor, limit, h) && Lined(lens, now, big, floor, offenders, waiting, h, true)
    requires o in waiting && (forall a :: a in waiting ==> a in now && now[a] <= now[o]) && lens[o] <= h' <= h
    ensures Lined(lens, now', big, floor, offenders + [o], waiting - {o}, h', h' == lens[o])
    ensures Lined(lens, now', big, floor, offenders + [o], waiting - {o}, h', false)
  {
    hide Sum;
    assert o !in Elems(offenders) && o !in offenders;
    Joins(offenders, o);
  }

  lemma AllLined(lens: map<nat, nat>, now: map<nat, nat>, big: set<nat>, floor: nat, limit: nat, offenders: seq<nat>,
                 h: nat)
    requires Evened(lens, now, big, floor, limit, h) && Lined(lens, now, big, floor, offenders, {}, h, true)
    ensures floor <= h && Distinct(offenders) && Over(lens, big, Elems(offenders), h, floor)
  {}

  lemma NoneLined(lens: map<nat, nat>, now: map<nat, nat>, big: set<nat>, floor: nat, h: nat)
    requires Lined(lens, now, big, floor, [], {}, h, true)
    ensures big == {}
  {}

  lemma EvenedFair(lens: map<nat, nat>, now: map<nat, nat>, big: set<nat>, floor: nat, limit: nat, h: nat)
    requires Evened(lens, now, big, floor, limit, h) && (Sum(now) <= limit || h == floor || big == {})
    ensures Fair(lens, now, big, floor, limit)
  {
    hide Sum;
    if big == {} {
      LevelAbove(lens, big, floor);
      LevelAbove(lens, big, h);
      assert FairLevel(lens, big, floor, limit, floor);
    } else {
      assert FairLevel(lens, big, floor, limit, h);
    }
  }
}
