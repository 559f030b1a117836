/** The layout of a robin-hood table as values: which info byte belongs to which slot, and what
    inserting, erasing and relabelling do to it. */
module RobinHoodLayout {

  const MAX_LOAD_FACTOR_100 := 80
  const INITIAL_INFO_NUM_BITS := 5
  const INITIAL_INFO_INC := 32
  const INFO_PADDING := 8

  /** A storage slot; free storage holds nothing. */
  datatype Node<K, V> = Free | Node(key: K, val: V)

  function CalcMaxNumElementsAllowed(maxElements: nat): nat {
    maxElements * MAX_LOAD_FACTOR_100 / 100
  }

  function CalcNumElementsWithBuffer(numElements: nat): nat {
    var allowed := CalcMaxNumElementsAllowed(numElements);
    numElements + if allowed < 0xFF then allowed else 0xFF
  }

  /** The hash, as a function of the key and the multiplier, the number of home buckets, and how an
      info byte is split between displacement (from inc up) and hash bits (below inc). */
  datatype Geometry<!K> = Geometry(hash: (K, nat) -> nat, multiplier: nat, buckets: nat, inc: nat, shift: nat)
  {
    ghost predicate Valid() {
      && buckets >= 8
      && ((inc == 32 && shift == 0) || (inc == 16 && shift == 1) || (inc == 8 && shift == 2)
          || (inc == 4 && shift == 3) || (inc == 2 && shift == 4))
    }

    function Slots(): nat {
      CalcNumElementsWithBuffer(buckets)
    }

    function Home(k: K): (i: nat)
      requires buckets > 0
      ensures i < buckets
    {
      hash(k, multiplier) / 32 % buckets
    }

    /** The low hash bits that are left in the info byte. */
    function Bits(k: K): (b: nat)
      ensures Valid() ==> b < inc
    {
      var low := hash(k, multiplier) % 32;
      if shift == 0 then low
      else if shift == 1 then low / 2
      else if shift == 2 then low / 4
      else if shift == 3 then low / 8
      else low / 16
    }

    /** The info byte that key k has, or would have, in slot i. */
    function Running(k: K, i: int): int
      requires buckets > 0
    {
      inc * (1 + i - Home(k)) + Bits(k)
    }
  }

  /** A key's label at home: one increment, and as many of the five low bits of the hash, the high ones of them, as fit below it. */
  lemma LabelAtHome<K>(g: Geometry<K>, k: K)
    requires g.Valid()
    ensures var h := g.hash(k, g.multiplier);
            g.Home(k) == h / 32 % g.buckets && g.Running(k, g.Home(k)) == g.inc + h % 32 / (32 / g.inc) && 32 % g.inc == 0
  {
  }

  lemma RunningAtHome<K>(g: Geometry<K>, k: K)
    requires g.Valid()
    ensures g.inc <= g.Running(k, g.Home(k)) < 2 * g.inc
    ensures g.Running(k, g.Home(k)) == g.inc + g.Bits(k)
  {
  }

  lemma RunningNext<K>(g: Geometry<K>, k: K, i: int)
    requires g.Valid()
    ensures g.Running(k, i + 1) == g.Running(k, i) + g.inc
  {
    assert g.inc * (2 + i - g.Home(k)) == g.inc * (1 + i - g.Home(k)) + g.inc;
  }

  /** Away from home the info byte is at least twice the increment, and only there. */
  lemma RunningAway<K>(g: Geometry<K>, k: K, i: int)
    requires g.Valid() && i >= g.Home(k)
    ensures g.Running(k, i) >= g.inc
    ensures g.Running(k, i) >= 2 * g.inc <==> i > g.Home(k)
    ensures g.Running(k, i) >= 2 * (1 + i - g.Home(k))
  {
    var d := i - g.Home(k);
    assert g.inc * (1 + d) == g.inc + g.inc * d;
    assert d >= 1 ==> g.inc * d >= g.inc;
    assert g.inc * (1 + d) >= 2 * (1 + d);
  }

  /** Slot i is taken by a node whose info byte is right. */
  ghost predicate SlotFits<K, V>(g: Geometry<K>, info: int, i: nat, node: Node<K, V>) {
    g.Valid() && node.Node? && g.Home(node.key) <= i && info == g.Running(node.key, i)
  }

  ghost predicate SlotsFit<K, V>(g: Geometry<K>, info: seq<int>, kv: seq<Node<K, V>>) {
    |kv| <= |info| && forall i :: 0 <= i < |kv| && info[i] != 0 ==> SlotFits(g, info[i], i, kv[i])
  }

  /** The robin-hood order: a displaced node's predecessor is no closer to home than the node would
      be in its place. */
  ghost predicate Ordered(inc: int, info: seq<int>, cap: nat) {
    cap <= |info| && forall i :: 0 < i < cap && info[i] >= 2 * inc ==> info[i - 1] >= info[i] - inc
  }

  ghost predicate Distinct<K, V>(info: seq<int>, kv: seq<Node<K, V>>) {
    |kv| <= |info| &&
    forall i, j :: 0 <= i < j < |kv| && info[i] != 0 && info[j] != 0 && kv[i].Node? && kv[j].Node? ==> kv[i].key != kv[j].key
  }

  predicate Bytes(info: seq<int>) {
    forall i :: 0 <= i < |info| ==> 0 <= info[i] <= 0xFF
  }

  /** Bytes, then the sentinel, then zero padding. */
  ghost predicate Framed(info: seq<int>, cap: nat) {
    && |info| == cap + INFO_PADDING && Bytes(info)
    && info[cap] == 1 && forall i :: cap < i < |info| ==> info[i] == 0
  }

  ghost predicate Laid<K, V>(g: Geometry<K>, info: seq<int>, kv: seq<Node<K, V>>) {
    && g.Valid() && |kv| == g.Slots()
    && Framed(info, g.Slots())
    && SlotsFit(g, info, kv)
    && Ordered(g.inc, info, g.Slots())
    && Distinct(info, kv)
  }

  /** Slot i holds key k. */
  ghost predicate Holds<K, V>(info: seq<int>, kv: seq<Node<K, V>>, i: int, k: K) {
    0 <= i < |kv| <= |info| && info[i] != 0 && kv[i].Node? && kv[i].key == k
  }

  /** From home to where the key is, no info byte is below the key's running info. */
  lemma {:induction false} PathIsMonotone<K, V>(g: Geometry<K>, info: seq<int>, kv: seq<Node<K, V>>, k: K, i: int, j: int)
    requires Laid(g, info, kv) && Holds(info, kv, i, k) && g.Home(k) <= j <= i
    ensures info[j] >= g.Running(k, j)
    decreases i - j
  {
    hide Geometry.Running;
    assert SlotFits(g, info[i], i, kv[i]);
    if j < i {
      PathIsMonotone(g, info, kv, k, i, j + 1);
      RunningAway(g, k, j + 1);
      RunningNext(g, k, j);
    }
  }

  /** A search that has come to a slot below the running info has missed nothing ahead. */
  lemma NothingAhead<K, V>(g: Geometry<K>, info: seq<int>, kv: seq<Node<K, V>>, k: K, j: int)
    requires Laid(g, info, kv) && g.Home(k) <= j < |info| && g.Running(k, j) > info[j]
    ensures forall i :: i >= j ==> !Holds(info, kv, i, k)
  {
    forall i | i >= j
      ensures !Holds(info, kv, i, k)
    {
      if Holds(info, kv, i, k) {
        PathIsMonotone(g, info, kv, k, i, j);
      }
    }
  }

  lemma NothingBehindHome<K, V>(g: Geometry<K>, info: seq<int>, kv: seq<Node<K, V>>, k: K)
    requires Laid(g, info, kv)
    ensures forall i :: i < g.Home(k) ==> !Holds(info, kv, i, k)
  {
    hide Geometry.Running, Geometry.Home;
  }

  /** An info byte different from the running info belongs to another key. */
  lemma OtherInfoOtherKey<K, V>(g: Geometry<K>, info: seq<int>, kv: seq<Node<K, V>>, k: K, i: int)
    requires Laid(g, info, kv) && Holds(info, kv, i, k)
    ensures info[i] == g.Running(k, i)
  {
    assert SlotFits(g, info[i], i, kv[i]);
  }

  /** The info bytes after slots ins..e-1 moved up by one and slot ins was labelled anew. */
  function ShiftedUp(info: seq<int>, ins: nat, e: nat, inc: int, mark: int): (r: seq<int>)
    requires ins <= e < |info|
    ensures |r| == |info|
  {
    seq(|info|, j requires 0 <= j < |info| =>
      if j == ins then mark else if ins < j <= e then info[j - 1] + inc else info[j])
  }

  function MovedUp<X>(kv: seq<X>, ins: nat, e: nat, node: X): (r: seq<X>)
    requires ins <= e < |kv|
    ensures |r| == |kv|
  {
    seq(|kv|, j requires 0 <= j < |kv| =>
      if j == ins then node else if ins < j <= e then kv[j - 1] else kv[j])
  }

  /** Where a new key goes: past everything at least as far from home, before the first free slot. */
  ghost predicate InsertionPoint<K, V>(g: Geometry<K>, info: seq<int>, kv: seq<Node<K, V>>, k: K, ins: nat, e: nat) {
    && Laid(g, info, kv)
    && g.Home(k) <= ins <= e < |kv| && info[e] == 0
    && info[ins] < g.Running(k, ins)
    && (ins > g.Home(k) ==> info[ins - 1] >= g.Running(k, ins - 1))
    && (forall j :: ins <= j < e ==> info[j] != 0)
    && (forall i :: !Holds(info, kv, i, k))
  }

  /** No byte would overflow if its node moved up one slot. */
  ghost predicate RoomToShift(inc: int, info: seq<int>, cap: nat) {
    cap <= |info| && forall i :: 0 <= i < cap ==> info[i] + inc <= 0xFF
  }

  lemma LabelFits<K, V>(g: Geometry<K>, info: seq<int>, kv: seq<Node<K, V>>, k: K, ins: nat, e: nat)
    requires InsertionPoint(g, info, kv, k, ins, e) && RoomToShift(g.inc, info, |kv|)
    ensures g.inc <= g.Running(k, ins) <= 0xFF
  {
    RunningAway(g, k, ins);
    if ins > g.Home(k) {
      RunningNext(g, k, ins - 1);
      assert info[ins - 1] + g.inc <= 0xFF;
    }
  }

  lemma InsertedBytes<K, V>(g: Geometry<K>, info: seq<int>, kv: seq<Node<K, V>>, k: K, ins: nat, e: nat)
    requires InsertionPoint(g, info, kv, k, ins, e) && RoomToShift(g.inc, info, |kv|)
    ensures Framed(ShiftedUp(info, ins, e, g.inc, g.Running(k, ins)), |kv|)
  {
    LabelFits(g, info, kv, k, ins, e);
  }

  lemma ShiftKeepsOrder(inc: nat, info: seq<int>, cap: nat, ins: nat, e: nat, mark: int)
    requires Ordered(inc, info, cap) && ins <= e < cap && inc > 0
    requires info[e] == 0 && forall j :: ins <= j < e ==> info[j] >= inc
    requires info[ins] < mark && (mark >= 2 * inc ==> ins > 0 && info[ins - 1] >= mark - inc)
    ensures Ordered(inc, ShiftedUp(info, ins, e, inc, mark), cap)
  {
    var r := ShiftedUp(info, ins, e, inc, mark);
    forall i | 0 < i < cap && r[i] >= 2 * inc
      ensures r[i - 1] >= r[i] - inc
    {
      if i < ins || i > e + 1 {
        assert info[i - 1] >= info[i] - inc;
      } else if ins + 1 < i <= e {
        assert info[i - 1] >= 2 * inc ==> info[i - 2] >= info[i - 1] - inc;
      }
    }
  }

  lemma InsertedOrder<K, V>(g: Geometry<K>, info: seq<int>, kv: seq<Node<K, V>>, k: K, ins: nat, e: nat)
    requires InsertionPoint(g, info, kv, k, ins, e)
    ensures Ordered(g.inc, ShiftedUp(info, ins, e, g.inc, g.Running(k, ins)), |kv|)
  {
    hide Geometry.Running, Ordered;
    RunningAway(g, k, ins);
    RunningNext(g, k, ins - 1);
    forall j | ins <= j < e
      ensures info[j] >= g.inc
    {
      assert SlotFits(g, info[j], j, kv[j]);
      RunningAway(g, kv[j].key, j);
    }
    ShiftKeepsOrder(g.inc, info, |kv|, ins, e, g.Running(k, ins));
  }

  lemma InsertedSlots<K, V>(g: Geometry<K>, info: seq<int>, kv: seq<Node<K, V>>, k: K, v: V, ins: nat, e: nat)
    requires InsertionPoint(g, info, kv, k, ins, e)
    ensures SlotsFit(g, ShiftedUp(info, ins, e, g.inc, g.Running(k, ins)), MovedUp(kv, ins, e, Node(k, v)))
  {
    hide Geometry.Running;
    var r, s := ShiftedUp(info, ins, e, g.inc, g.Running(k, ins)), MovedUp(kv, ins, e, Node(k, v));
    forall i | 0 <= i < |s| && r[i] != 0
      ensures SlotFits(g, r[i], i, s[i])
    {
      if ins < i <= e {
        assert SlotFits(g, info[i - 1], i - 1, kv[i - 1]);
        RunningNext(g, kv[i - 1].key, i - 1);
      } else if i != ins {
        assert SlotFits(g, info[i], i, kv[i]);
      }
    }
  }

  lemma InsertedDistinct<K, V>(g: Geometry<K>, info: seq<int>, kv: seq<Node<K, V>>, k: K, v: V, ins: nat, e: nat)
    requires InsertionPoint(g, info, kv, k, ins, e)
    ensures Distinct(ShiftedUp(info, ins, e, g.inc, g.Running(k, ins)), MovedUp(kv, ins, e, Node(k, v)))
  {
    var r, s := ShiftedUp(info, ins, e, g.inc, g.Running(k, ins)), MovedUp(kv, ins, e, Node(k, v));
    forall i, j | 0 <= i < j < |s| && r[i] != 0 && r[j] != 0 && s[i].Node? && s[j].Node?
      ensures s[i].key != s[j].key
    {
      var i', j' := if ins < i <= e then i - 1 else i, if ins < j <= e then j - 1 else j;
      assert i == ins ==> !Holds(info, kv, j', k);
      assert j == ins ==> !Holds(info, kv, i', k);
    }
  }

  /** Inserting a new key at its insertion point keeps the layout. */
  lemma InsertKeepsLayout<K, V>(g: Geometry<K>, info: seq<int>, kv: seq<Node<K, V>>, k: K, v: V, ins: nat, e: nat)
    requires InsertionPoint(g, info, kv, k, ins, e) && RoomToShift(g.inc, info, |kv|)
    ensures Laid(g, ShiftedUp(info, ins, e, g.inc, g.Running(k, ins)), MovedUp(kv, ins, e, Node(k, v)))
  {
    InsertedBytes(g, info, kv, k, ins, e);
    InsertedOrder(g, info, kv, k, ins, e);
    InsertedSlots(g, info, kv, k, v, ins, e);
    InsertedDistinct(g, info, kv, k, v, ins, e);
  }

  /** The info bytes after the node in slot i was taken out and slots i+1..e-1 moved down. */
  function ShiftedDown(info: seq<int>, i: nat, e: nat, inc: int): (r: seq<int>)
    requires i < e <= |info|
    ensures |r| == |info|
  {
    seq(|info|, j requires 0 <= j < |info| =>
      if i <= j < e - 1 then info[j + 1] - inc else if j == e - 1 then 0 else info[j])
  }

  function MovedDown<K, V>(kv: seq<Node<K, V>>, i: nat, e: nat): (r: seq<Node<K, V>>)
    requires i < e <= |kv|
    ensures |r| == |kv|
  {
    seq(|kv|, j requires 0 <= j < |kv| => if i <= j < e - 1 then kv[j + 1] else if j == e - 1 then Free else kv[j])
  }

  /** Slots i+1..e-1 are all displaced, slot e is not. */
  ghost predicate ErasureRun(inc: int, info: seq<int>, cap: nat, i: nat, e: nat) {
    && i < e <= cap < |info| && info[i] != 0
    && (forall j :: i < j < e ==> info[j] >= 2 * inc)
    && info[e] < 2 * inc
  }

  lemma ErasedOrder(inc: nat, info: seq<int>, cap: nat, i: nat, e: nat)
    requires Ordered(inc, info, cap) && ErasureRun(inc, info, cap, i, e) && inc > 0 && Bytes(info)
    ensures Ordered(inc, ShiftedDown(info, i, e, inc), cap)
  {
    var r := ShiftedDown(info, i, e, inc);
    forall j | 0 < j < cap && r[j] >= 2 * inc
      ensures r[j - 1] >= r[j] - inc
    {
      if j < i || j > e {
        assert info[j - 1] >= info[j] - inc;
      } else if j < e - 1 {
        assert info[j] >= info[j + 1] - inc;
        assert info[j - 1] >= info[j] - inc || j == i;
        if j == i {
          assert info[j] >= 2 * inc ==> info[j - 1] >= info[j] - inc;
        }
      }
    }
  }

  lemma ErasedSlots<K, V>(g: Geometry<K>, info: seq<int>, kv: seq<Node<K, V>>, i: nat, e: nat)
    requires Laid(g, info, kv) && ErasureRun(g.inc, info, |kv|, i, e)
    ensures SlotsFit(g, ShiftedDown(info, i, e, g.inc), MovedDown(kv, i, e))
  {
    hide Geometry.Running;
    var r, s := ShiftedDown(info, i, e, g.inc), MovedDown(kv, i, e);
    forall j | 0 <= j < |s| && r[j] != 0
      ensures SlotFits(g, r[j], j, s[j])
    {
      if i <= j < e - 1 {
        assert SlotFits(g, info[j + 1], j + 1, kv[j + 1]);
        RunningNext(g, kv[j + 1].key, j);
        RunningAway(g, kv[j + 1].key, j + 1);
      } else {
        assert SlotFits(g, info[j], j, kv[j]);
      }
    }
  }

  lemma ErasedDistinct<K, V>(info: seq<int>, kv: seq<Node<K, V>>, i: nat, e: nat, inc: nat)
    requires Distinct(info, kv) && ErasureRun(inc, info, |kv|, i, e) && inc > 0
    ensures Distinct(ShiftedDown(info, i, e, inc), MovedDown(kv, i, e))
  {
    var r, s := ShiftedDown(info, i, e, inc), MovedDown(kv, i, e);
    forall x, y | 0 <= x < y < |s| && r[x] != 0 && r[y] != 0 && s[x].Node? && s[y].Node?
      ensures s[x].key != s[y].key
    {
      var x', y' := if i <= x < e - 1 then x + 1 else x, if i <= y < e - 1 then y + 1 else y;
      assert kv[x'] == s[x] && kv[y'] == s[y] && info[x'] != 0 && info[y'] != 0;
    }
  }

  lemma ErasedRoom(info: seq<int>, cap: nat, i: nat, e: nat, inc: nat)
    requires RoomToShift(inc, info, cap) && i < e <= cap < |info| && inc <= 0xFF
    ensures RoomToShift(inc, ShiftedDown(info, i, e, inc), cap)
  {
    var r := ShiftedDown(info, i, e, inc);
    forall j | 0 <= j < cap
      ensures r[j] + inc <= 0xFF
    {
      assert info[j] + inc <= 0xFF;
      assert j + 1 < cap ==> info[j + 1] + inc <= 0xFF;
    }
  }

  lemma ErasedFrame(info: seq<int>, cap: nat, i: nat, e: nat, inc: nat)
    requires Framed(info, cap) && ErasureRun(inc, info, cap, i, e) && inc > 0
    ensures Framed(ShiftedDown(info, i, e, inc), cap)
  {
  }

  /** Taking a node out and closing the gap keeps the layout. */
  lemma EraseKeepsLayout<K, V>(g: Geometry<K>, info: seq<int>, kv: seq<Node<K, V>>, i: nat, e: nat)
    requires Laid(g, info, kv) && ErasureRun(g.inc, info, |kv|, i, e)
    ensures Laid(g, ShiftedDown(info, i, e, g.inc), MovedDown(kv, i, e))
  {
    ErasedFrame(info, |kv|, i, e, g.inc);
    ErasedDistinct(info, kv, i, e, g.inc);
    ErasedSlots(g, info, kv, i, e);
    ErasedOrder(g.inc, info, |kv|, i, e);
  }

  /** All info bytes halved, the sentinel set again. */
  function Halved(info: seq<int>, cap: nat): (r: seq<int>)
    requires cap < |info|
    ensures |r| == |info|
  {
    seq(|info|, j requires 0 <= j < |info| => if j == cap then 1 else info[j] / 2)
  }

  function FinerGeometry<K>(g: Geometry<K>): Geometry<K> {
    g.(inc := g.inc / 2, shift := g.shift + 1)
  }

  lemma HalvedRunning<K>(g: Geometry<K>, k: K, i: int)
    requires g.Valid() && g.inc > 2
    ensures FinerGeometry(g).Valid()
    ensures FinerGeometry(g).Home(k) == g.Home(k)
    ensures FinerGeometry(g).Running(k, i) == g.Running(k, i) / 2
  {
    var d := 1 + i - g.Home(k);
    var half := g.inc / 2;
    assert FinerGeometry(g).Bits(k) == g.Bits(k) / 2;
    assert g.inc * d == 2 * (half * d) by {
      assert g.inc == 2 * half;
    }
  }

  /** Giving one hash bit up for displacement keeps the layout and makes room. */
  lemma HalvingKeepsLayout<K, V>(g: Geometry<K>, info: seq<int>, kv: seq<Node<K, V>>)
    requires Laid(g, info, kv) && g.inc > 2
    ensures Laid(FinerGeometry(g), Halved(info, |kv|), kv)
    ensures RoomToShift(g.inc / 2, Halved(info, |kv|), |kv|)
    ensures forall i :: 0 <= i < |kv| ==> (Halved(info, |kv|)[i] != 0 <==> info[i] != 0)
  {
    var f, r := FinerGeometry(g), Halved(info, |kv|);
    forall i | 0 <= i < |kv|
      ensures (r[i] != 0 <==> info[i] != 0) && (r[i] != 0 ==> SlotFits(f, r[i], i, kv[i]))
    {
      if info[i] != 0 {
        assert SlotFits(g, info[i], i, kv[i]);
        RunningAway(g, kv[i].key, i);
        HalvedRunning(g, kv[i].key, i);
      }
    }
    HalvedOrder(g.inc, info, |kv|);
    assert f.Valid();
  }

  lemma HalvedOrder(inc: nat, info: seq<int>, cap: nat)
    requires Ordered(inc, info, cap) && cap < |info| && inc % 2 == 0
    ensures Ordered(inc / 2, Halved(info, cap), cap)
  {
    var r := Halved(info, cap);
    forall i | 0 < i < cap && r[i] >= 2 * (inc / 2)
      ensures r[i - 1] >= r[i] - inc / 2
    {
      assert info[i] >= 2 * inc && info[i - 1] >= info[i] - inc;
    }
  }

  /** How many of the first n slots are taken. */
  function Taken(info: seq<int>, n: nat): nat
    requires n <= |info|
  {
    if n == 0 then 0 else Taken(info, n - 1) + if info[n - 1] != 0 then 1 else 0
  }

  lemma {:induction false} TakenAtLeast(info: seq<int>, lo: nat, n: nat)
    requires lo <= n <= |info| && forall j :: lo <= j < n ==> info[j] != 0
    ensures Taken(info, n) >= n - lo
  {
    if lo < n {
      TakenAtLeast(info, lo, n - 1);
    }
  }

  /** One slot more is taken, the others are as they were. */
  lemma {:induction false} TakenOneMore(info: seq<int>, r: seq<int>, n: nat, e: nat)
    requires n <= |info| == |r| && e < |info| && info[e] == 0 && r[e] != 0
    requires forall j :: 0 <= j < n && j != e ==> (info[j] != 0 <==> r[j] != 0)
    ensures Taken(r, n) == Taken(info, n) + if e < n then 1 else 0
  {
    if n > 0 {
      TakenOneMore(info, r, n - 1, e);
    }
  }

  lemma {:induction false} TakenSame(info: seq<int>, r: seq<int>, n: nat)
    requires n <= |info| == |r|
    requires forall j :: 0 <= j < n ==> (info[j] != 0 <==> r[j] != 0)
    ensures Taken(r, n) == Taken(info, n)
  {
    if n > 0 {
      TakenSame(info, r, n - 1);
    }
  }

  /** While the table is not at its load limit, an unbroken run of taken slots from a home bucket on
      ends before the sentinel: else either the buffer alone would hold the whole load, or a node
      255 slots from home would have overflowed its byte. */
  lemma RunEndsBeforeSentinel<K, V>(g: Geometry<K>, info: seq<int>, kv: seq<Node<K, V>>, home: nat, j: nat)
    requires Laid(g, info, kv) && home < g.buckets && home <= j <= |kv|
    requires forall i :: home <= i < j ==> info[i] != 0
    requires Taken(info, |kv|) < CalcMaxNumElementsAllowed(g.buckets)
    ensures j < |kv|
  {
    if j == |kv| {
      if CalcMaxNumElementsAllowed(g.buckets) <= 0xFF {
        TakenAtLeast(info, g.buckets, |kv|);
      } else {
        var i := |kv| - 1;
        assert SlotFits(g, info[i], i, kv[i]);
        RunningAway(g, kv[i].key, i);
      }
    }
  }

  /** The table holds exactly what the map maps. */
  ghost predicate Agrees<K, V>(info: seq<int>, kv: seq<Node<K, V>>, m: map<K, V>) {
    && |kv| <= |info|
    && (forall i :: 0 <= i < |kv| && info[i] != 0 ==> kv[i].Node? && kv[i].key in m && m[kv[i].key] == kv[i].val)
    && (forall k :: k in m ==> exists i :: Holds(info, kv, i, k))
  }

  lemma AbsentKey<K, V>(info: seq<int>, kv: seq<Node<K, V>>, m: map<K, V>, k: K)
    requires Agrees(info, kv, m)
    ensures (forall i :: !Holds(info, kv, i, k)) <==> k !in m
  {
  }

  lemma InsertAgrees<K, V>(info: seq<int>, kv: seq<Node<K, V>>, m: map<K, V>, k: K, v: V, ins: nat, e: nat, inc: nat, mark: int)
    requires Agrees(info, kv, m) && k !in m && ins <= e < |kv| && info[e] == 0 && mark != 0 && inc > 0 && Bytes(info)
    requires forall j :: ins <= j < e ==> info[j] != 0
    ensures Agrees(ShiftedUp(info, ins, e, inc, mark), MovedUp(kv, ins, e, Node(k, v)), m[k := v])
  {
    var r, s, m' := ShiftedUp(info, ins, e, inc, mark), MovedUp(kv, ins, e, Node(k, v)), m[k := v];
    forall x | x in m'
      ensures exists i :: Holds(r, s, i, x)
    {
      if x == k {
        assert Holds(r, s, ins, x);
      } else {
        var i :| Holds(info, kv, i, x);
        assert Holds(r, s, if ins <= i < e then i + 1 else i, x);
      }
    }
  }

  lemma InsertTaken(info: seq<int>, cap: nat, ins: nat, e: nat, inc: nat, mark: int)
    requires ins <= e < cap <= |info| && info[e] == 0 && mark != 0 && inc > 0 && Bytes(info)
    requires forall j :: ins <= j < e ==> info[j] != 0
    ensures Taken(ShiftedUp(info, ins, e, inc, mark), cap) == Taken(info, cap) + 1
  {
    TakenOneMore(info, ShiftedUp(info, ins, e, inc, mark), cap, e);
  }

  lemma OthersDiffer<K, V>(info: seq<int>, kv: seq<Node<K, V>>, i: nat, j: nat)
    requires Distinct(info, kv) && i < |kv| && j < |kv| && i != j
    requires info[i] != 0 && info[j] != 0 && kv[i].Node? && kv[j].Node?
    ensures kv[i].key != kv[j].key
  {
  }

  lemma ErasedNodesAgree<K, V>(info: seq<int>, kv: seq<Node<K, V>>, m: map<K, V>, i: nat, e: nat, inc: nat)
    requires Distinct(info, kv) && Agrees(info, kv, m) && ErasureRun(inc, info, |kv|, i, e) && inc > 0
    ensures kv[i].Node? && kv[i].key in m
    ensures Agrees(ShiftedDown(info, i, e, inc), MovedDown(kv, i, e), m - {kv[i].key})
  {
    hide Distinct;
    var r, s := ShiftedDown(info, i, e, inc), MovedDown(kv, i, e);
    var k := kv[i].key;
    forall j | 0 <= j < |s| && r[j] != 0
      ensures s[j].Node? && s[j].key in m - {k} && m[s[j].key] == s[j].val
    {
      var j' := if i <= j < e - 1 then j + 1 else j;
      assert kv[j'] == s[j] && info[j'] != 0;
      OthersDiffer(info, kv, i, j');
    }
    forall x | x in m - {k}
      ensures exists j :: Holds(r, s, j, x)
    {
      var j :| Holds(info, kv, j, x);
      assert Holds(r, s, if i < j < e then j - 1 else j, x);
    }
  }

  lemma EraseAgrees<K, V>(g: Geometry<K>, info: seq<int>, kv: seq<Node<K, V>>, m: map<K, V>, i: nat, e: nat)
    requires Laid(g, info, kv) && Agrees(info, kv, m) && ErasureRun(g.inc, info, |kv|, i, e)
    ensures kv[i].Node? && kv[i].key in m
    ensures Agrees(ShiftedDown(info, i, e, g.inc), MovedDown(kv, i, e), m - {kv[i].key})
    ensures Taken(ShiftedDown(info, i, e, g.inc), |kv|) == Taken(info, |kv|) - 1
  {
    TakenOneMore(ShiftedDown(info, i, e, g.inc), info, |kv|, e - 1);
    hide Agrees;
    ErasedNodesAgree(info, kv, m, i, e, g.inc);
  }

  lemma HalvingAgrees<K, V>(g: Geometry<K>, info: seq<int>, kv: seq<Node<K, V>>, m: map<K, V>)
    requires Laid(g, info, kv) && g.inc > 2 && Agrees(info, kv, m)
    ensures Agrees(Halved(info, |kv|), kv, m)
    ensures Taken(Halved(info, |kv|), |kv|) == Taken(info, |kv|)
  {
    var r := Halved(info, |kv|);
    HalvingKeepsLayout(g, info, kv);
    TakenSame(info, r, |kv|);
    forall k | k in m
      ensures exists i :: Holds(r, kv, i, k)
    {
      var i :| Holds(info, kv, i, k);
      assert Holds(r, kv, i, k);
    }
  }

  /** A search for a key, arrived at slot idx without having met the key. */
  ghost predicate Searching<K, V>(g: Geometry<K>, info: seq<int>, kv: seq<Node<K, V>>, k: K, idx: nat, running: int) {
    && Laid(g, info, kv)
    && g.Home(k) <= idx < |info| && running == g.Running(k, idx)
    && (forall i :: i < idx ==> !Holds(info, kv, i, k))
  }

  lemma SearchStarts<K, V>(g: Geometry<K>, info: seq<int>, kv: seq<Node<K, V>>, k: K)
    requires Laid(g, info, kv)
    ensures Searching(g, info, kv, k, g.Home(k), g.inc + g.Bits(k)) && g.Home(k) < |kv|
  {
    RunningAtHome(g, k);
    NothingBehindHome(g, info, kv, k);
  }

  /** The byte under the search decides: equal, and the slot holds some node; not below, and the
      search is not past the slots; below, and the key is nowhere. */
  lemma SearchReads<K, V>(g: Geometry<K>, info: seq<int>, kv: seq<Node<K, V>>, k: K, idx: nat, running: int)
    requires Searching(g, info, kv, k, idx, running)
    ensures g.inc <= running
    ensures running <= info[idx] ==> idx < |kv|
    ensures running == info[idx] ==> kv[idx].Node? && (kv[idx].key == k ==> Holds(info, kv, idx, k))
    ensures Holds(info, kv, idx, k) ==> running == info[idx] && kv[idx].key == k
    ensures running > info[idx] ==> forall i :: !Holds(info, kv, i, k)
  {
    RunningAway(g, k, idx);
    if idx < |kv| && info[idx] != 0 {
      assert SlotFits(g, info[idx], idx, kv[idx]);
    }
    if running > info[idx] {
      NothingAhead(g, info, kv, k, idx);
    }
  }

  lemma SearchGoesOn<K, V>(g: Geometry<K>, info: seq<int>, kv: seq<Node<K, V>>, k: K, idx: nat, running: int)
    requires Searching(g, info, kv, k, idx, running) && idx + 1 < |info| && !Holds(info, kv, idx, k)
    ensures Searching(g, info, kv, k, idx + 1, running + g.inc)
  {
    RunningNext(g, k, idx);
    forall i | i < idx + 1
      ensures !Holds(info, kv, i, k)
    {
    }
  }

  /** A search for the place of a key: everything on the way is taken and no closer to home. */
  ghost predicate InsertSearch<K, V>(g: Geometry<K>, info: seq<int>, kv: seq<Node<K, V>>, k: K, idx: nat, running: int) {
    && Searching(g, info, kv, k, idx, running)
    && (idx > g.Home(k) ==> info[idx - 1] >= g.Running(k, idx - 1))
    && (forall j :: g.Home(k) <= j < idx ==> info[j] != 0)
  }

  lemma InsertSearchStarts<K, V>(g: Geometry<K>, info: seq<int>, kv: seq<Node<K, V>>, k: K)
    requires Laid(g, info, kv)
    ensures InsertSearch(g, info, kv, k, g.Home(k), g.inc + g.Bits(k)) && g.Home(k) < |kv|
  {
    SearchStarts(g, info, kv, k);
  }

  lemma InsertSearchReads<K, V>(g: Geometry<K>, info: seq<int>, kv: seq<Node<K, V>>, k: K, idx: nat, running: int)
    requires InsertSearch(g, info, kv, k, idx, running)
    ensures g.inc <= running && idx < |info|
    ensures running <= info[idx] ==> idx < |kv|
    ensures running == info[idx] ==> kv[idx].Node? && (kv[idx].key == k ==> Holds(info, kv, idx, k))
    ensures running <= info[idx] && !(running == info[idx] && kv[idx].key == k) ==>
              InsertSearch(g, info, kv, k, idx + 1, running + g.inc)
    ensures running > info[idx] ==> forall i :: !Holds(info, kv, i, k)
  {
    hide Geometry.Running, Geometry.Bits, Geometry.Home, SlotsFit, Distinct, Ordered;
    SearchReads(g, info, kv, k, idx, running);
    if running <= info[idx] && !(running == info[idx] && kv[idx].key == k) {
      SearchGoesOn(g, info, kv, k, idx, running);
    }
  }

  /** The place is found: it is a slot, and from it the first free slot is one too. */
  lemma InsertSearchEnds<K, V>(g: Geometry<K>, info: seq<int>, kv: seq<Node<K, V>>, k: K, ins: nat, running: int, e: nat)
    requires InsertSearch(g, info, kv, k, ins, running) && running > info[ins]
    requires ins <= e <= |kv| || (e == ins && ins < |info|)
    requires forall j :: ins <= j < e ==> info[j] != 0
    requires Taken(info, |kv|) < CalcMaxNumElementsAllowed(g.buckets)
    ensures e < |kv|
    ensures info[e] == 0 ==> InsertionPoint(g, info, kv, k, ins, e) && running == g.Running(k, ins)
  {
    if ins > |kv| {
      assert info[|kv|] == 1 && info[|kv| + 1] == 0;
      RunEndsBeforeSentinel(g, info, kv, g.Home(k), |kv|);
    } else {
      RunEndsBeforeSentinel(g, info, kv, g.Home(k), e);
    }
    SearchReads(g, info, kv, k, ins, running);
  }

  lemma MovedUpHole<X>(kv: seq<X>, ins: nat, e: nat, x: X)
    requires ins <= e < |kv|
    ensures MovedUp(kv, ins, e, kv[ins])[ins := x] == MovedUp(kv, ins, e, x)
  {
  }

  /** After an insertion every node may still move up, if the new and the moved ones may. */
  lemma InsertedRoom(inc: nat, info: seq<int>, cap: nat, ins: nat, e: nat, mark: int)
    requires RoomToShift(inc, info, cap) && ins <= e < cap && mark + inc <= 0xFF
    requires forall j :: ins <= j < e ==> info[j] + inc + inc <= 0xFF
    ensures RoomToShift(inc, ShiftedUp(info, ins, e, inc, mark), cap)
  {
  }

  /** A byte that could not move up again, before or after it moved, leaves no room. */
  lemma InsertedStuck(inc: nat, info: seq<int>, cap: nat, ins: nat, e: nat, mark: int)
    requires ins <= e < cap < |info|
    requires mark + inc > 0xFF || exists j :: ins <= j < e && info[j] + inc + inc > 0xFF
    ensures !RoomToShift(inc, ShiftedUp(info, ins, e, inc, mark), cap)
  {
    var r := ShiftedUp(info, ins, e, inc, mark);
    if mark + inc > 0xFF {
      assert r[ins] == mark;
    } else {
      var j :| ins <= j < e && info[j] + inc + inc > 0xFF;
      assert r[j + 1] == info[j] + inc;
    }
  }

  /** The shift downwards when it has come to slot idx. */
  function InfoShiftedTo(info: seq<int>, start: nat, idx: nat, inc: int): (r: seq<int>)
    requires start <= idx < |info|
    ensures |r| == |info| && r[idx..] == info[idx..]
  {
    seq(|info|, j requires 0 <= j < |info| => if start <= j < idx then info[j + 1] - inc else info[j])
  }

  function NodesShiftedTo<X>(kv: seq<X>, start: nat, idx: nat): (s: seq<X>)
    requires start <= idx < |kv|
    ensures |s| == |kv| && s[idx..] == kv[idx..]
  {
    seq(|kv|, j requires 0 <= j < |kv| => if start <= j < idx then kv[j + 1] else kv[j])
  }

  lemma NothingShifted<X>(info: seq<int>, kv: seq<X>, start: nat, inc: int)
    requires start < |kv| <= |info|
    ensures InfoShiftedTo(info, start, start, inc) == info
    ensures NodesShiftedTo(kv, start, start) == kv
  {
  }

  lemma ByteAhead(info: seq<int>, start: nat, idx: nat, inc: int, j: nat)
    requires start <= idx <= j < |info|
    ensures InfoShiftedTo(info, start, idx, inc)[j] == info[j]
  {
  }

  lemma OneMoreShifted<X>(info: seq<int>, kv: seq<X>, start: nat, idx: nat, inc: int)
    requires start <= idx && idx + 1 < |kv| <= |info|
    ensures InfoShiftedTo(info, start, idx, inc)[idx + 1] == info[idx + 1]
    ensures InfoShiftedTo(info, start, idx, inc)[idx := info[idx + 1] - inc] == InfoShiftedTo(info, start, idx + 1, inc)
    ensures NodesShiftedTo(kv, start, idx)[idx + 1] == kv[idx + 1]
    ensures NodesShiftedTo(kv, start, idx)[idx := kv[idx + 1]] == NodesShiftedTo(kv, start, idx + 1)
  {
  }

  lemma AllShifted<K, V>(info: seq<int>, kv: seq<Node<K, V>>, start: nat, idx: nat, inc: int)
    requires start <= idx < |kv| <= |info|
    ensures InfoShiftedTo(info, start, idx, inc)[idx := 0] == ShiftedDown(info, start, idx + 1, inc)
    ensures NodesShiftedTo(kv, start, idx)[idx := Free] == MovedDown(kv, start, idx + 1)
  {
  }

  /** The shift upwards, recognized slot by slot. */
  lemma IsShiftedUp(info: seq<int>, r: seq<int>, ins: nat, e: nat, inc: int)
    requires ins <= e < |info| == |r|
    requires forall j :: 0 <= j <= ins || e < j < |r| ==> r[j] == info[j]
    requires forall j :: ins < j <= e ==> r[j] == info[j - 1] + inc
    ensures r == ShiftedUp(info, ins, e, inc, info[ins])
  {
  }

  lemma IsMovedUp<X>(kv: seq<X>, s: seq<X>, ins: nat, e: nat)
    requires ins <= e < |kv| == |s|
    requires forall j :: 0 <= j <= ins || e < j < |s| ==> s[j] == kv[j]
    requires forall j :: ins < j <= e ==> s[j] == kv[j - 1]
    ensures s == MovedUp(kv, ins, e, kv[ins])
  {
  }

  lemma IsErasureRun(inc: int, info: seq<int>, cap: nat, i: nat, e: nat)
    requires i < e <= cap < |info| && info[i] != 0 && info[e] < 2 * inc
    requires forall j :: i < j < e ==> info[j] >= 2 * inc
    ensures ErasureRun(inc, info, cap, i, e)
  {
  }

  lemma ErasureRunFacts(inc: int, info: seq<int>, cap: nat, i: nat, e: nat)
    requires ErasureRun(inc, info, cap, i, e)
    ensures i < e <= cap < |info|
  {
  }

  lemma LaidFacts<K, V>(g: Geometry<K>, info: seq<int>, kv: seq<Node<K, V>>)
    requires Laid(g, info, kv)
    ensures g.Valid() && |kv| == g.Slots() && Framed(info, |kv|) && |info| == |kv| + INFO_PADDING
    ensures 2 <= g.inc <= 32 && Distinct(info, kv)
  {
  }

  lemma ShiftedUpHole(info: seq<int>, ins: nat, e: nat, inc: int, mark: int)
    requires ins <= e < |info|
    ensures ShiftedUp(info, ins, e, inc, info[ins])[ins := mark] == ShiftedUp(info, ins, e, inc, mark)
    ensures info[ins := mark] == ShiftedUp(info, ins, ins, inc, mark)
  {
  }

  lemma NothingMovedUp<X>(kv: seq<X>, ins: nat)
    requires ins < |kv|
    ensures MovedUp(kv, ins, ins, kv[ins]) == kv
  {
  }

  lemma RoomFacts<K, V>(g: Geometry<K>, info: seq<int>, kv: seq<Node<K, V>>, k: K, ins: nat, e: nat)
    requires InsertionPoint(g, info, kv, k, ins, e) && RoomToShift(g.inc, info, |kv|)
    ensures ins <= e < |kv| && 0 < g.Running(k, ins) <= 0xFF && g.Valid()
    ensures forall j :: ins <= j < e ==> 0 <= info[j] && info[j] + g.inc <= 0xFF
  {
    LabelFits(g, info, kv, k, ins, e);
  }

  /** The opened slot, filled with any value, completes a table that maps one key more. */
  lemma SpotOpened<K, V>(g: Geometry<K>, info: seq<int>, kv: seq<Node<K, V>>, m: map<K, V>, k: K, v: V, ins: nat, e: nat,
                         r: seq<int>, s: seq<Node<K, V>>)
    requires InsertionPoint(g, info, kv, k, ins, e) && RoomToShift(g.inc, info, |kv|) && Agrees(info, kv, m) && k !in m
    requires ins <= e < |kv| <= |info| && g.Valid()
    requires r == ShiftedUp(info, ins, e, g.inc, g.Running(k, ins)) && s == MovedUp(kv, ins, e, kv[ins])
    ensures Laid(g, r, s[ins := Node(k, v)])
    ensures Agrees(r, s[ins := Node(k, v)], m[k := v])
    ensures Taken(r, |kv|) == Taken(info, |kv|) + 1
  {
    hide SlotsFit, Ordered, Distinct, Agrees, Taken, ShiftedUp, MovedUp;
    MovedUpHole(kv, ins, e, Node(k, v));
    LabelFits(g, info, kv, k, ins, e);
    InsertKeepsLayout(g, info, kv, k, v, ins, e);
    InsertAgrees(info, kv, m, k, v, ins, e, g.inc, g.Running(k, ins));
    InsertTaken(info, |kv|, ins, e, g.inc, g.Running(k, ins));
  }

  lemma {:induction false} NothingTaken(info: seq<int>, n: nat)
    requires n <= |info| && forall j :: 0 <= j < n ==> info[j] == 0
    ensures Taken(info, n) == 0
  {
    if n > 0 {
      NothingTaken(info, n - 1);
    }
  }

  lemma EmptyLayout<K, V>(g: Geometry<K>, info: seq<int>, kv: seq<Node<K, V>>)
    requires g.Valid() && |kv| == g.Slots() && |info| == |kv| + INFO_PADDING
    requires forall j :: 0 <= j < |info| ==> info[j] == if j == |kv| then 1 else 0
    ensures Laid(g, info, kv) && Agrees(info, kv, map[]) && Taken(info, |kv|) == 0
    ensures RoomToShift(g.inc, info, |kv|)
  {
    NothingTaken(info, |kv|);
  }

  /** What the first n slots store. */
  ghost function Stored<K, V>(info: seq<int>, kv: seq<Node<K, V>>, n: nat): map<K, V>
    requires n <= |kv| <= |info|
  {
    if n == 0 then map[]
    else if info[n - 1] != 0 && kv[n - 1].Node? then Stored(info, kv, n - 1)[kv[n - 1].key := kv[n - 1].val]
    else Stored(info, kv, n - 1)
  }

  ghost predicate SubMap<K, V>(m: map<K, V>, n: map<K, V>) {
    forall k :: k in m ==> k in n && m[k] == n[k]
  }

  lemma {:induction false} StoredSub<K, V>(info: seq<int>, kv: seq<Node<K, V>>, m: map<K, V>, n: nat)
    requires n <= |kv| && Agrees(info, kv, m)
    ensures SubMap(Stored(info, kv, n), m)
    ensures forall k :: k in Stored(info, kv, n) ==> exists i :: i < n && Holds(info, kv, i, k)
  {
    if n > 0 {
      StoredSub(info, kv, m, n - 1);
      if info[n - 1] != 0 {
        assert Holds(info, kv, n - 1, kv[n - 1].key);
      }
    }
  }

  lemma {:induction false} StoredHas<K, V>(info: seq<int>, kv: seq<Node<K, V>>, i: int, k: K, n: nat)
    requires n <= |kv| && Holds(info, kv, i, k) && i < n
    ensures k in Stored(info, kv, n)
  {
    if i < n - 1 {
      StoredHas(info, kv, i, k, n - 1);
    }
  }

  lemma NotYetStored<K, V>(info: seq<int>, kv: seq<Node<K, V>>, m: map<K, V>, n: nat)
    requires n < |kv| && Agrees(info, kv, m) && Distinct(info, kv) && info[n] != 0
    ensures kv[n].Node? && kv[n].key !in Stored(info, kv, n)
  {
    hide Stored, Distinct, SubMap;
    StoredSub(info, kv, m, n);
    forall i | i < n && Holds(info, kv, i, kv[n].key)
      ensures false
    {
      OthersDiffer(info, kv, i, n);
    }
  }

  lemma {:induction false} StoredCount<K, V>(info: seq<int>, kv: seq<Node<K, V>>, m: map<K, V>, n: nat)
    requires n <= |kv| && Agrees(info, kv, m) && Distinct(info, kv)
    ensures |Stored(info, kv, n)| == Taken(info, n)
  {
    if n > 0 {
      StoredCount(info, kv, m, n - 1);
      if info[n - 1] != 0 {
        NotYetStored(info, kv, m, n - 1);
      }
    }
  }

  /** Moving the node of slot i over: it is new, and there is room for it. */
  lemma StoredStep<K, V>(info: seq<int>, kv: seq<Node<K, V>>, m: map<K, V>, i: nat)
    requires i < |kv| <= |info| && Agrees(info, kv, m) && Distinct(info, kv) && |m| == Taken(info, |kv|)
    ensures SubMap(Stored(info, kv, i), m)
    ensures if info[i] == 0 then Stored(info, kv, i + 1) == Stored(info, kv, i)
            else
              && kv[i].Node? && kv[i].key !in Stored(info, kv, i) && |Stored(info, kv, i)| < |m|
              && Stored(info, kv, i + 1) == Stored(info, kv, i)[kv[i].key := kv[i].val]
  {
    hide Distinct, SubMap, Agrees;
    StoredSub(info, kv, m, i);
    StoredCount(info, kv, m, i);
    TakenMonotone(info, i + 1, |kv|);
    if info[i] != 0 {
      NotYetStored(info, kv, m, i);
    }
  }

  lemma AllStored<K, V>(info: seq<int>, kv: seq<Node<K, V>>, m: map<K, V>)
    requires Agrees(info, kv, m) && Distinct(info, kv)
    ensures Stored(info, kv, |kv|) == m
  {
    hide Stored;
    StoredSub(info, kv, m, |kv|);
    forall k | k in m
      ensures k in Stored(info, kv, |kv|)
    {
      var i :| Holds(info, kv, i, k);
      StoredHas(info, kv, i, k, |kv|);
    }
  }

  lemma {:induction false} TakenMonotone(info: seq<int>, i: nat, n: nat)
    requires i <= n <= |info|
    ensures Taken(info, i) <= Taken(info, n)
  {
    if i < n {
      TakenMonotone(info, i, n - 1);
    }
  }

  lemma ReplacedLayout<K, V>(g: Geometry<K>, info: seq<int>, kv: seq<Node<K, V>>, i: nat, k: K, v: V)
    requires Laid(g, info, kv) && Holds(info, kv, i, k)
    ensures Laid(g, info, kv[i := Node(k, v)])
  {
    hide Geometry.Running, Geometry.Home, Geometry.Bits;
    var s := kv[i := Node(k, v)];
    forall j | 0 <= j < |s| && info[j] != 0
      ensures SlotFits(g, info[j], j, s[j])
    {
      assert SlotFits(g, info[j], j, kv[j]);
    }
  }

  lemma ReplacedAgrees<K, V>(info: seq<int>, kv: seq<Node<K, V>>, m: map<K, V>, i: nat, k: K, v: V)
    requires Distinct(info, kv) && Agrees(info, kv, m) && Holds(info, kv, i, k)
    ensures Agrees(info, kv[i := Node(k, v)], m[k := v])
  {
    hide Distinct;
    var s, m' := kv[i := Node(k, v)], m[k := v];
    forall j | 0 <= j < |s| && info[j] != 0
      ensures s[j].Node? && s[j].key in m' && m'[s[j].key] == s[j].val
    {
      if j != i {
        OthersDiffer(info, kv, i, j);
      }
    }
    forall x | x in m'
      ensures exists j :: Holds(info, s, j, x)
    {
      if x == k {
        assert Holds(info, s, i, x);
      } else {
        var j :| Holds(info, kv, j, x);
        assert Holds(info, s, j, x);
      }
    }
  }

  /** Another value under the same key changes nothing in the layout. */
  lemma ValueReplaced<K, V>(g: Geometry<K>, info: seq<int>, kv: seq<Node<K, V>>, m: map<K, V>, i: nat, k: K, v: V)
    requires Laid(g, info, kv) && Agrees(info, kv, m) && Holds(info, kv, i, k)
    ensures Laid(g, info, kv[i := Node(k, v)]) && Agrees(info, kv[i := Node(k, v)], m[k := v])
  {
    LaidFacts(g, info, kv);
    hide Laid, Agrees, Distinct, Framed;
    ReplacedLayout(g, info, kv, i, k, v);
    ReplacedAgrees(info, kv, m, i, k, v);
  }

  /** After a byte equal to the running info comes none above the next running info. */
  lemma OrderedFrom<K, V>(g: Geometry<K>, info: seq<int>, kv: seq<Node<K, V>>, k: K, idx: nat, running: int)
    requires InsertSearch(g, info, kv, k, idx, running) && idx + 1 < |info| && running == info[idx]
    ensures info[idx + 1] <= running + g.inc
  {
    SearchReads(g, info, kv, k, idx, running);
    hide SlotsFit, Distinct, Geometry.Running, Geometry.Home, Geometry.Bits;
  }
}
