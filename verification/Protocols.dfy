/** Protocol matching and message codes of p2p/peer.go ("Capability Messaging" in the devp2p RLPx
    Transport Protocol). Names are numbered in their alphabetical order. */
module Protocols {
  import opened Basics
  import opened Sums
  import Heap

  const BASE_LENGTH: nat := 16

  datatype Cap = Cap(name: nat, version: nat)

  datatype Protocol = Protocol(name: nat, version: nat, length: nat)

  datatype Slot = Slot(version: nat, length: nat, offset: nat)

  type Layout = map<nat, Slot>

  predicate CapLess(a: Cap, b: Cap)
  {
    a.name < b.name || (a.name == b.name && a.version < b.version)
  }

  // ---------- what a match is ----------

  /** Length of the first protocol with a name and version. */
  function Find(protocols: seq<Protocol>, cap: Cap): (r: int)
    ensures r >= 0 <==> exists p :: p in protocols && p.name == cap.name && p.version == cap.version
  {
    if |protocols| == 0 then -1
    else if protocols[0].name == cap.name && protocols[0].version == cap.version then protocols[0].length
    else Find(protocols[1..], cap)
  }

  /** Capabilities that both sides have. */
  ghost predicate Shared(protocols: seq<Protocol>, caps: seq<Cap>, c: Cap)
  {
    c in caps && Find(protocols, c) >= 0
  }

  function Lengths(layout: Layout): (r: map<nat, nat>)
  {
    map n | n in layout :: layout[n].length
  }

  function Before(lens: map<nat, nat>, name: nat): (r: map<nat, nat>)
  {
    map n | n in lens && n < name :: lens[n]
  }

  /** Each name that is shared in some version has a slot for the highest one, of that protocol's
      length. */
  ghost predicate Highest(layout: Layout, protocols: seq<Protocol>, caps: seq<Cap>)
  {
    && (forall n :: n in layout ==>
          Shared(protocols, caps, Cap(n, layout[n].version))
          && layout[n].length == Find(protocols, Cap(n, layout[n].version)))
    && (forall c :: Shared(protocols, caps, c) ==> c.name in layout && c.version <= layout[c.name].version)
  }

  /** Slots follow each other in the order of names, from the base protocol's codes on. */
  ghost predicate Packed(layout: Layout)
  {
    forall n :: n in layout ==> layout[n].offset == BASE_LENGTH + Sum(Before(Lengths(layout), n))
  }

  /** Highest versions and packing leave no choice. */
  lemma LayoutUnique(x: Layout, y: Layout)
    requires Packed(x) && Packed(y) && x.Keys == y.Keys
    requires forall n :: n in x ==> x[n].version == y[n].version && x[n].length == y[n].length
    ensures x == y
  {
    hide Sum;
    assert Lengths(x) == Lengths(y);
    forall n | n in x ensures x[n] == y[n] {
      assert x[n].offset == BASE_LENGTH + Sum(Before(Lengths(x), n));
    }
  }

  // ---------- matching ----------

  /** `matchProtocols` */
  method MatchProtocols(protocols: seq<Protocol>, caps: seq<Cap>) returns (layout: Layout)
    ensures Highest(layout, protocols, caps) && Packed(layout)
  {
    hide Sum, Highest, Packed, Sums.Sum;
    var sorted := SortCaps(caps);
    var offset := BASE_LENGTH;
    layout := map[];
    MatchStart(protocols, sorted);
    for i := 0 to |sorted|
      invariant Highest(layout, protocols, sorted[..i]) && Packed(layout)
      invariant offset == BASE_LENGTH + Sum(Lengths(layout))
    {
      var cap := sorted[i];
      var length := Find(protocols, cap);
      MatchStep(layout, protocols, sorted, i, offset);
      if length >= 0 {
        if cap.name in layout {
          offset := offset - layout[cap.name].length;
        }
        layout := layout[cap.name := Slot(cap.version, length, offset)];
        offset := offset + length;
      }
    }
    assert sorted[..|sorted|] == sorted;
    SameShared(layout, protocols, sorted, caps);
  }

  method SortCaps(caps: seq<Cap>) returns (r: seq<Cap>)
    ensures Heap.Sorted(r, CapLess) && forall c :: c in r <==> c in caps
  {
    r := Heap.Sort(caps, CapLess);
    assert forall c :: c in r <==> c in multiset(r);
    assert forall c :: c in caps <==> c in multiset(caps);
  }

  lemma MatchStart(protocols: seq<Protocol>, sorted: seq<Cap>)
    ensures Highest(map[], protocols, sorted[..0]) && Packed(map[]) && Sum(Lengths(map[])) == 0
  {}

  /** One more capability, in order. */
  lemma MatchStep(layout: Layout, protocols: seq<Protocol>, sorted: seq<Cap>, i: nat, offset: nat)
    requires i < |sorted| && Heap.Sorted(sorted, CapLess)
    requires Highest(layout, protocols, sorted[..i]) && Packed(layout) && offset == BASE_LENGTH + Sum(Lengths(layout))
    ensures var cap := sorted[i];
            var length := Find(protocols, cap);
            if length < 0 then Highest(layout, protocols, sorted[..i + 1])
            else
              var at := offset - if cap.name in layout then layout[cap.name].length else 0;
              && at >= 0
              && var layout' := layout[cap.name := Slot(cap.version, length, at)];
                 Highest(layout', protocols, sorted[..i + 1]) && Packed(layout')
                 && at + length == BASE_LENGTH + Sum(Lengths(layout'))
  {
    hide Sum, Packed, Highest;
    var cap := sorted[i];
    var length := Find(protocols, cap);
    HighestStep(layout, protocols, sorted, i);
    if length >= 0 {
      var at := offset - if cap.name in layout then layout[cap.name].length else 0;
      PackedStep(layout, cap, length, offset);
      HighestSlot(layout, protocols, sorted, i, at);
    }
  }

  lemma HighestStep(layout: Layout, protocols: seq<Protocol>, sorted: seq<Cap>, i: nat)
    requires i < |sorted| && Heap.Sorted(sorted, CapLess) && Highest(layout, protocols, sorted[..i])
    ensures Find(protocols, sorted[i]) < 0 ==> Highest(layout, protocols, sorted[..i + 1])
    ensures forall n :: n in layout ==> n <= sorted[i].name
    ensures sorted[i].name in layout ==> layout[sorted[i].name].version <= sorted[i].version
  {
    assert sorted[..i + 1] == sorted[..i] + [sorted[i]];
    forall n | n in layout
      ensures n < sorted[i].name || (n == sorted[i].name && layout[n].version <= sorted[i].version) {
      var c := Cap(n, layout[n].version);
      assert Shared(protocols, sorted[..i], c);
      var j :| 0 <= j < i && sorted[..i][j] == c;
      assert !CapLess(sorted[i], sorted[j]);
    }
    if Find(protocols, sorted[i]) < 0 {
      forall c | Shared(protocols, sorted[..i + 1], c) ensures Shared(protocols, sorted[..i], c) {
      }
      forall c | Shared(protocols, sorted[..i], c) ensures Shared(protocols, sorted[..i + 1], c) {
      }
    }
  }

  lemma HighestSlot(layout: Layout, protocols: seq<Protocol>, sorted: seq<Cap>, i: nat, at: nat)
    requires i < |sorted| && Highest(layout, protocols, sorted[..i]) && Find(protocols, sorted[i]) >= 0
    requires sorted[i].name in layout ==> layout[sorted[i].name].version <= sorted[i].version
    ensures Highest(layout[sorted[i].name := Slot(sorted[i].version, Find(protocols, sorted[i]), at)], protocols,
                    sorted[..i + 1])
  {
    assert sorted[..i + 1] == sorted[..i] + [sorted[i]];
    forall c | Shared(protocols, sorted[..i], c) ensures Shared(protocols, sorted[..i + 1], c) {
    }
    forall c | Shared(protocols, sorted[..i + 1], c) && c != sorted[i] ensures Shared(protocols, sorted[..i], c) {
    }
  }

  lemma PackedStep(layout: Layout, cap: Cap, length: nat, offset: nat)
    requires Packed(layout) && offset == BASE_LENGTH + Sum(Lengths(layout)) && forall n :: n in layout ==> n <= cap.name
    ensures var at := offset - if cap.name in layout then layout[cap.name].length else 0;
            && at >= 0
            && var layout' := layout[cap.name := Slot(cap.version, length, at)];
               Packed(layout') && at + length == BASE_LENGTH + Sum(Lengths(layout'))
  {
    hide Sum, Before;
    var lens := Lengths(layout);
    var at := offset - if cap.name in layout then layout[cap.name].length else 0;
    LastSum(lens, cap.name, length);
    var layout' := layout[cap.name := Slot(cap.version, length, at)];
    assert Lengths(layout') == lens[cap.name := length];
  }

  /** Changing the last of some lengths. */
  lemma LastSum(lens: map<nat, nat>, name: nat, length: nat)
    requires forall n :: n in lens ==> n <= name
    ensures var rest := Sum(lens) - if name in lens then lens[name] else 0;
            && rest == Sum(Before(lens[name := length], name)) && Sum(lens[name := length]) == rest + length
    ensures forall n :: n in lens && n != name ==> Before(lens[name := length], n) == Before(lens, n)
  {
    hide Sum;
    var lens' := lens[name := length];
    SumWithout(lens, name);
    SumWithout(lens', name);
    assert lens' - {name} == lens - {name};
    assert Before(lens', name) == lens - {name};
  }

  lemma SameShared(layout: Layout, protocols: seq<Protocol>, x: seq<Cap>, y: seq<Cap>)
    requires Highest(layout, protocols, x) && forall c :: c in x <==> c in y
    ensures Highest(layout, protocols, y)
  {
    forall c ensures Shared(protocols, x, c) <==> Shared(protocols, y, c) {
    }
  }

  // ---------- the two ends ----------

  function CapsOf(protocols: seq<Protocol>): (caps: seq<Cap>)
    ensures |caps| == |protocols|
    ensures forall i :: 0 <= i < |caps| ==> caps[i] == Cap(protocols[i].name, protocols[i].version)
  {
    seq(|protocols|, i requires 0 <= i < |protocols| => Cap(protocols[i].name, protocols[i].version))
  }

  lemma CapIn(protocols: seq<Protocol>, c: Cap)
    ensures c in CapsOf(protocols) <==> Find(protocols, c) >= 0
  {
    if Find(protocols, c) >= 0 {
      var p :| p in protocols && p.name == c.name && p.version == c.version;
      var i :| 0 <= i < |protocols| && protocols[i] == p;
      assert CapsOf(protocols)[i] == c;
    }
    if c in CapsOf(protocols) {
      var i :| 0 <= i < |protocols| && CapsOf(protocols)[i] == c;
      assert protocols[i] in protocols;
    }
  }

  /** Both sides give a shared version of a protocol the same length. */
  ghost predicate LengthsAgree(a: seq<Protocol>, b: seq<Protocol>)
  {
    forall c :: Find(a, c) >= 0 && Find(b, c) >= 0 ==> Find(a, c) == Find(b, c)
  }

  /** Each end matches its protocols against the other's capabilities, and both get the same. */
  lemma EndsAgree(a: seq<Protocol>, b: seq<Protocol>, x: Layout, y: Layout)
    requires LengthsAgree(a, b)
    requires Highest(x, a, CapsOf(b)) && Packed(x) && Highest(y, b, CapsOf(a)) && Packed(y)
    ensures x == y
  {
    hide Packed, Sum, CapsOf;
    forall c ensures Shared(a, CapsOf(b), c) <==> Shared(b, CapsOf(a), c) {
      CapIn(a, c);
      CapIn(b, c);
    }
    forall n | n in x ensures n in y && x[n].version <= y[n].version {
      assert Shared(b, CapsOf(a), Cap(n, x[n].version));
    }
    forall n | n in y ensures n in x && y[n].version <= x[n].version {
      assert Shared(a, CapsOf(b), Cap(n, y[n].version));
    }
    forall n | n in x ensures x[n].length == y[n].length {
      var c := Cap(n, x[n].version);
      assert Shared(a, CapsOf(b), c) && Shared(b, CapsOf(a), c);
    }
    LayoutUnique(x, y);
  }

  // ---------- message codes ----------

  predicate InSlot(s: Slot, code: nat)
  {
    s.offset <= code < s.offset + s.length
  }

  /** A slot ends where or before the slots of later names begin. */
  lemma SlotsApart(layout: Layout, m: nat, n: nat)
    requires Packed(layout) && m in layout && n in layout && m < n
    ensures BASE_LENGTH <= layout[m].offset && layout[m].offset + layout[m].length <= layout[n].offset
  {
    hide Sum;
    var lens := Lengths(layout);
    SumWithout(Before(lens, n), m);
    assert Before(lens, m) == Before(Before(lens, n) - {m}, m);
    SumPart(Before(lens, n) - {m}, m);
  }

  lemma {:induction false} SumPart(lens: map<nat, nat>, m: nat)
    ensures Sum(Before(lens, m)) <= Sum(lens)
    decreases |lens|
  {
    hide Sum;
    if k :| k in lens && k >= m {
      SumPart(lens - {k}, m);
      SumWithout(lens, k);
      assert Before(lens - {k}, m) == Before(lens, m);
    } else {
      assert Before(lens, m) == lens;
    }
  }

  /** A code belongs to one protocol at most. */
  lemma OneOwner(layout: Layout, m: nat, n: nat, code: nat)
    requires Packed(layout) && m in layout && n in layout && InSlot(layout[m], code) && InSlot(layout[n], code)
    ensures m == n
  {
    if m < n {
      SlotsApart(layout, m, n);
    } else if n < m {
      SlotsApart(layout, n, m);
    }
  }

  /** The slots cover all codes from the base protocol's on up to their total length. */
  lemma Covered(layout: Layout, code: nat) returns (n: nat)
    requires Packed(layout) && BASE_LENGTH <= code < BASE_LENGTH + Sum(Lengths(layout))
    ensures n in layout && InSlot(layout[n], code)
  {
    n := Locate(Lengths(layout), code - BASE_LENGTH);
  }

  lemma {:induction false} Locate(lens: map<nat, nat>, x: nat) returns (n: nat)
    requires x < Sum(lens)
    ensures n in lens && Sum(Before(lens, n)) <= x < Sum(Before(lens, n)) + lens[n]
    decreases |lens|
  {
    var top := MaxOf(lens.Keys);
    SumWithout(lens, top);
    assert Before(lens, top) == lens - {top};
    if x < Sum(lens - {top}) {
      n := Locate(lens - {top}, x);
      assert Before(lens - {top}, n) == Before(lens, n);
    } else {
      n := top;
    }
  }

  /** `getProto` */
  method GetProto(layout: Layout, code: nat) returns (found: bool, name: nat)
    ensures found ==> name in layout && InSlot(layout[name], code)
    ensures !found ==> forall n :: n in layout ==> !InSlot(layout[n], code)
  {
    var left := layout.Keys;
    while left != {}
      invariant left <= layout.Keys && forall n :: n in layout && n !in left ==> !InSlot(layout[n], code)
      decreases left
    {
      var n :| n in left;
      if code >= layout[n].offset && code < layout[n].offset + layout[n].length {
        return true, n;
      }
      left := left - {n};
    }
    return false, 0;
  }

  /** `protoRW.WriteMsg`: codes outside the protocol's range are refused. */
  method WriteCode(layout: Layout, name: nat, code: nat) returns (ok: bool, wire: nat)
    requires Packed(layout) && name in layout
    ensures ok <==> code < layout[name].length
    ensures ok ==> wire >= BASE_LENGTH && InSlot(layout[name], wire) && wire - layout[name].offset == code
  {
    if code >= layout[name].length {
      return false, 0;
    }
    return true, code + layout[name].offset;
  }

  /** The receiving end of a code: `getProto` and `protoRW.ReadMsg`. */
  method ReadCode(layout: Layout, wire: nat) returns (ok: bool, name: nat, code: nat)
    requires Packed(layout)
    ensures ok <==> BASE_LENGTH <= wire < BASE_LENGTH + Sum(Lengths(layout))
    ensures ok ==> name in layout && InSlot(layout[name], wire) && code == wire - layout[name].offset
  {
    ok, name := GetProto(layout, wire);
    if ok {
      SlotInside(layout, name);
      return true, name, wire - layout[name].offset;
    }
    if BASE_LENGTH <= wire < BASE_LENGTH + Sum(Lengths(layout)) {
      ghost var n := Covered(layout, wire);
      assert false;
    }
    code := 0;
  }

  lemma SlotInside(layout: Layout, name: nat)
    requires Packed(layout) && name in layout
    ensures BASE_LENGTH <= layout[name].offset
    ensures layout[name].offset + layout[name].length <= BASE_LENGTH + Sum(Lengths(layout))
  {
    hide Sum;
    var lens := Lengths(layout);
    SumWithout(lens, name);
    assert Before(lens - {name}, name) == Before(lens, name);
    SumPart(lens - {name}, name);
  }

  /** Two peers match their protocols and one sends a message: it reaches the same protocol with
      the same code. */
  method Talk(a: seq<Protocol>, b: seq<Protocol>, name: nat, code: nat) returns (sent: bool, to: nat, received: nat)
    requires LengthsAgree(a, b)
    ensures sent ==> to == name && received == code
    ensures sent <==> exists v :: Best(a, b, name, v) && code < Find(a, Cap(name, v))
  {
    hide Packed, LengthsAgree;
    to, received := 0, 0;
    var x := MatchProtocols(a, CapsOf(b));
    var y := MatchProtocols(b, CapsOf(a));
    EndsAgree(a, b, x, y);
    BestSlot(a, b, x, name);
    if name !in x {
      return false, 0, 0;
    }
    var wire, ok;
    sent, wire := WriteCode(x, name, code);
    if sent {
      SlotInside(x, name);
      ok, to, received := ReadCode(y, wire);
      OneOwner(y, name, to, wire);
    }
  }

  /** The highest version of a protocol that both sides have. */
  ghost predicate Best(a: seq<Protocol>, b: seq<Protocol>, name: nat, v: nat)
  {
    && Find(a, Cap(name, v)) >= 0 && Find(b, Cap(name, v)) >= 0
    && forall w: nat :: Find(a, Cap(name, w)) >= 0 && Find(b, Cap(name, w)) >= 0 ==> w <= v
  }

  lemma BestSlot(a: seq<Protocol>, b: seq<Protocol>, x: Layout, name: nat)
    requires Highest(x, a, CapsOf(b))
    ensures name in x ==> x[name].length == Find(a, Cap(name, x[name].version))
    ensures forall v :: Best(a, b, name, v) <==> name in x && x[name].version == v
  {
    hide CapsOf;
    forall v: nat ensures Find(a, Cap(name, v)) >= 0 && Find(b, Cap(name, v)) >= 0 <==>
      Shared(a, CapsOf(b), Cap(name, v)) {
      CapIn(b, Cap(name, v));
    }
  }
}
