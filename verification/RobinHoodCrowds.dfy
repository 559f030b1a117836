/** When a robin-hood table may run out of room: too many keys at home in too few buckets. */
module RobinHoodCrowds {
  import opened RobinHoodLayout

  const TWO_TO_THE_64 := 0x1_0000_0000_0000_0000

  type HashMultiplier = m: nat | m < TWO_TO_THE_64

  /** The keys at home in buckets s to h. */
  ghost function Window<K>(hash: (K, nat) -> nat, m: nat, b: nat, keys: set<K>, s: int, h: int): set<K>
    requires b > 0
  {
    set k | k in keys && s <= hash(k, m) / 32 % b <= h
  }

  /** Some window has 126 keys more than buckets, which is how far a byte can tell a node from home. */
  ghost predicate Tight<K>(hash: (K, nat) -> nat, m: nat, b: nat, keys: set<K>) {
    b > 0 && exists s, h :: 0 <= s <= h < b && |Window(hash, m, b, keys, s, h)| >= h - s + 127
  }

  /** Some window has even more. */
  ghost predicate Overfull<K>(hash: (K, nat) -> nat, m: nat, b: nat, keys: set<K>) {
    b > 0 && exists s, h :: 0 <= s <= h < b && |Window(hash, m, b, keys, s, h)| >= h - s + 128
  }

  /** For some multiplier and some size that is large enough for all keys they are tight. */
  ghost predicate Crowded<K>(hash: (K, nat) -> nat, keys: set<K>) {
    exists m: HashMultiplier, b: nat :: b >= 8 && |keys| <= CalcMaxNumElementsAllowed(b) && Tight(hash, m, b, keys)
  }

  /** For every multiplier and every size they are overfull. */
  ghost predicate Hopeless<K>(hash: (K, nat) -> nat, keys: set<K>) {
    forall m: HashMultiplier, b: nat :: b >= 8 ==> Overfull(hash, m, b, keys)
  }

  lemma SubsetSize<T>(s: set<T>, t: set<T>)
    requires s <= t
    ensures |s| <= |t|
  {
    if s != {} {
      var x :| x in s;
      SubsetSize(s - {x}, t - {x});
    }
  }

  lemma WindowGrows<K>(hash: (K, nat) -> nat, m: nat, b: nat, keys: set<K>, more: set<K>)
    requires keys <= more && Tight(hash, m, b, keys)
    ensures Tight(hash, m, b, more)
  {
    var s, h :| 0 <= s <= h < b && |Window(hash, m, b, keys, s, h)| >= h - s + 127;
    SubsetSize(Window(hash, m, b, keys, s, h), Window(hash, m, b, more, s, h));
  }

  /** The keys of the taken slots from lo to before hi. */
  ghost function KeysIn<K, V>(info: seq<int>, kv: seq<Node<K, V>>, lo: int, hi: int): set<K>
    requires 0 <= lo <= hi
    decreases hi - lo
  {
    if lo == hi then {} else
      KeysIn(info, kv, lo, hi - 1) + if hi <= |kv| <= |info| && info[hi - 1] != 0 && kv[hi - 1].Node? then {kv[hi - 1].key} else {}
  }

  lemma {:induction false} KeysInIs<K, V>(info: seq<int>, kv: seq<Node<K, V>>, lo: int, hi: int, k: K)
    requires 0 <= lo <= hi
    ensures k in KeysIn(info, kv, lo, hi) <==> exists i :: lo <= i < hi && Holds(info, kv, i, k)
    decreases hi - lo
  {
    if lo < hi {
      KeysInIs(info, kv, lo, hi - 1, k);
      assert k in KeysIn(info, kv, lo, hi) <==> k in KeysIn(info, kv, lo, hi - 1) || Holds(info, kv, hi - 1, k);
    }
  }

  lemma {:induction false} KeysInAtMost<K, V>(info: seq<int>, kv: seq<Node<K, V>>, lo: int, hi: int)
    requires 0 <= lo <= hi
    ensures |KeysIn(info, kv, lo, hi)| <= hi - lo
    decreases hi - lo
  {
    if lo < hi {
      KeysInAtMost(info, kv, lo, hi - 1);
    }
  }

  lemma {:induction false} KeysInTaken<K, V>(info: seq<int>, kv: seq<Node<K, V>>, lo: int, hi: int)
    requires 0 <= lo <= hi <= |kv| <= |info| && Distinct(info, kv)
    requires forall i :: lo <= i < hi ==> info[i] != 0 && kv[i].Node?
    ensures |KeysIn(info, kv, lo, hi)| == hi - lo
    decreases hi - lo
  {
    hide Distinct;
    if lo < hi {
      KeysInTaken(info, kv, lo, hi - 1);
      var k := kv[hi - 1].key;
      KeysInIs(info, kv, lo, hi - 1, k);
      forall i | lo <= i < hi - 1 && Holds(info, kv, i, k)
        ensures false
      {
        OthersDiffer(info, kv, i, hi - 1);
      }
    }
  }

  /** A taken slot and how far its node is from home. */
  lemma SlotIs<K, V>(g: Geometry<K>, info: seq<int>, kv: seq<Node<K, V>>, i: int)
    requires Laid(g, info, kv) && 0 <= i < |kv| && info[i] != 0
    ensures 2 <= g.inc <= 32 && 0 < g.buckets && kv[i].Node? && g.Home(kv[i].key) <= i && g.Bits(kv[i].key) < g.inc
    ensures info[i] == g.inc * (1 + i - g.Home(kv[i].key)) + g.Bits(kv[i].key) && info[i] <= 0xFF
  {
    assert SlotFits(g, info[i], i, kv[i]);
  }

  /** A displaced node: the slot before it is taken by a node that is at home no later. */
  lemma Predecessor<K, V>(g: Geometry<K>, info: seq<int>, kv: seq<Node<K, V>>, i: int)
    requires Laid(g, info, kv) && 0 <= i < |kv| && info[i] >= 2 * g.inc
    ensures 0 < i && info[i - 1] != 0 && kv[i].Node? && kv[i - 1].Node? && 0 < g.buckets
    ensures g.Home(kv[i - 1].key) <= g.Home(kv[i].key)
  {
    SlotIs(g, info, kv, i);
    var d := i - g.Home(kv[i].key);
    assert d == 0 ==> g.inc * (1 + d) == g.inc;
    assert info[i - 1] >= info[i] - g.inc;
    SlotIs(g, info, kv, i - 1);
    var c := i - 1 - g.Home(kv[i - 1].key);
    NoCloser(g.inc, c, d - 1, g.Bits(kv[i - 1].key), g.Bits(kv[i].key));
  }

  lemma NoCloser(inc: int, c: int, d: int, bc: int, bd: int)
    requires 2 <= inc && 0 <= bc < inc && 0 <= bd && inc * (1 + c) + bc >= inc * (2 + d) + bd - inc
    ensures c >= d
  {
    assert inc * (2 + d) == inc * (1 + d) + inc;
    assert c < d ==> inc * (1 + c) <= inc * d;
    assert inc * (1 + d) == inc * d + inc;
  }

  /** Slots s to i are taken by nodes at home between s and h. */
  ghost predicate RunTo<K, V>(g: Geometry<K>, info: seq<int>, kv: seq<Node<K, V>>, s: int, i: int, h: int) {
    && 0 <= s <= i < |kv| <= |info| && 0 < g.buckets && s <= h
    && forall j :: s <= j <= i ==> info[j] != 0 && kv[j].Node? && s <= g.Home(kv[j].key) <= h
  }

  lemma OneLonger<K, V>(g: Geometry<K>, info: seq<int>, kv: seq<Node<K, V>>, s: int, i: int, h: int)
    requires 0 < i < |kv| && RunTo(g, info, kv, s, i - 1, h) && info[i] != 0 && kv[i].Node? && h <= g.Home(kv[i].key)
    ensures RunTo(g, info, kv, s, i, g.Home(kv[i].key))
  {
  }

  lemma AtHome<K, V>(g: Geometry<K>, info: seq<int>, kv: seq<Node<K, V>>, i: int)
    requires Laid(g, info, kv) && 0 <= i < |kv| && info[i] != 0 && info[i] < 2 * g.inc
    ensures 0 < g.buckets && kv[i].Node? && RunTo(g, info, kv, i, i, g.Home(kv[i].key))
  {
    SlotIs(g, info, kv, i);
    var d := i - g.Home(kv[i].key);
    assert d > 0 ==> g.inc * (1 + d) >= g.inc * 2;
  }

  /** Back from a taken slot to the last node before it that is at home. */
  lemma {:induction false} Run<K, V>(g: Geometry<K>, info: seq<int>, kv: seq<Node<K, V>>, i: int) returns (s: int)
    requires Laid(g, info, kv) && 0 <= i < |kv| && info[i] != 0
    ensures 0 < g.buckets && kv[i].Node? && RunTo(g, info, kv, s, i, g.Home(kv[i].key))
    decreases i
  {
    LaidFacts(g, info, kv);
    hide Laid, RunTo, Framed, Distinct, Geometry.Home;
    if info[i] >= 2 * g.inc {
      Predecessor(g, info, kv, i);
      s := Run(g, info, kv, i - 1);
      OneLonger(g, info, kv, s, i, g.Home(kv[i - 1].key));
    } else {
      s := i;
      AtHome(g, info, kv, i);
    }
  }

  /** At the least increment a byte that cannot move up is far from home, and no byte is farther than that. */
  lemma FarFromHome<K, V>(g: Geometry<K>, info: seq<int>, kv: seq<Node<K, V>>, i: int)
    requires Laid(g, info, kv) && 0 <= i < |kv| && info[i] != 0
    ensures 0 < g.buckets && kv[i].Node? && g.Home(kv[i].key) <= i <= g.Home(kv[i].key) + 126
    ensures g.inc == 2 && info[i] + g.inc > 0xFF ==> i == g.Home(kv[i].key) + 126
  {
    SlotIs(g, info, kv, i);
    var d := i - g.Home(kv[i].key);
    assert g.inc * (1 + d) >= 2 * (1 + d);
  }

  lemma StuckByte(inc: int, info: seq<int>, cap: nat) returns (i: int)
    requires cap <= |info| && inc <= 0xFF && !RoomToShift(inc, info, cap)
    ensures 0 <= i < cap && info[i] + inc > 0xFF && info[i] != 0
  {
    i :| 0 <= i < cap && info[i] + inc > 0xFF;
  }

  lemma AgreesAt<K, V>(info: seq<int>, kv: seq<Node<K, V>>, m: map<K, V>, i: int, k: K)
    requires Agrees(info, kv, m) && Holds(info, kv, i, k)
    ensures k in m
  {
  }

  lemma SlotOf<K, V>(info: seq<int>, kv: seq<Node<K, V>>, m: map<K, V>, k: K) returns (i: int)
    requires Agrees(info, kv, m) && k in m
    ensures Holds(info, kv, i, k)
  {
    i :| Holds(info, kv, i, k);
  }

  lemma RunInWindow<K, V>(g: Geometry<K>, info: seq<int>, kv: seq<Node<K, V>>, m: map<K, V>, s: int, i: int, h: int, k: K)
    requires Agrees(info, kv, m) && RunTo(g, info, kv, s, i, h) && k in KeysIn(info, kv, s, i + 1)
    ensures k in Window(g.hash, g.multiplier, g.buckets, m.Keys, s, h)
  {
    KeysInIs(info, kv, s, i + 1, k);
    hide Agrees, KeysIn;
    var j :| s <= j < i + 1 && Holds(info, kv, j, k);
    AgreesAt(info, kv, m, j, k);
  }

  lemma RunFills<K, V>(g: Geometry<K>, info: seq<int>, kv: seq<Node<K, V>>, m: map<K, V>, s: int, i: int, h: int)
    requires Agrees(info, kv, m) && RunTo(g, info, kv, s, i, h) && Distinct(info, kv) && h == i - 126 < g.buckets
    ensures Tight(g.hash, g.multiplier, g.buckets, m.Keys)
  {
    KeysInTaken(info, kv, s, i + 1);
    hide Agrees, KeysIn, Distinct, Window;
    var window := Window(g.hash, g.multiplier, g.buckets, m.Keys, s, h);
    forall k | k in KeysIn(info, kv, s, i + 1)
      ensures k in window
    {
      RunInWindow(g, info, kv, m, s, i, h, k);
    }
    SubsetSize(KeysIn(info, kv, s, i + 1), window);
    assert |window| >= h - s + 127;
  }

  /** A byte that cannot move up although no hash bits are left to give up tells of a tight window. */
  lemma NoRoomIsTight<K, V>(g: Geometry<K>, info: seq<int>, kv: seq<Node<K, V>>, m: map<K, V>)
    requires Laid(g, info, kv) && Agrees(info, kv, m) && g.inc == 2 && !RoomToShift(g.inc, info, |kv|)
    ensures Tight(g.hash, g.multiplier, g.buckets, m.Keys)
  {
    LaidFacts(g, info, kv);
    hide Laid, Agrees, RoomToShift, Framed, Distinct, RunTo;
    var i := StuckByte(g.inc, info, |kv|);
    FarFromHome(g, info, kv, i);
    var s := Run(g, info, kv, i);
    RunFills(g, info, kv, m, s, i, g.Home(kv[i].key));
  }

  lemma WindowInSlots<K, V>(g: Geometry<K>, info: seq<int>, kv: seq<Node<K, V>>, m: map<K, V>, s: int, h: int, k: K)
    requires Laid(g, info, kv) && Agrees(info, kv, m) && 0 <= s <= h < g.buckets
    requires k in Window(g.hash, g.multiplier, g.buckets, m.Keys, s, h)
    ensures k in KeysIn(info, kv, s, h + 127)
  {
    hide Laid, Agrees, KeysIn;
    var i := SlotOf(info, kv, m, k);
    FarFromHome(g, info, kv, i);
    KeysInIs(info, kv, s, h + 127, k);
  }

  /** No table holds keys that are overfull for its multiplier and its size. */
  lemma LaidIsNotOverfull<K, V>(g: Geometry<K>, info: seq<int>, kv: seq<Node<K, V>>, m: map<K, V>)
    requires Laid(g, info, kv) && Agrees(info, kv, m)
    ensures !Overfull(g.hash, g.multiplier, g.buckets, m.Keys)
  {
    hide Laid, Agrees, KeysIn, Window;
    if Overfull(g.hash, g.multiplier, g.buckets, m.Keys) {
      var s, h :| 0 <= s <= h < g.buckets && |Window(g.hash, g.multiplier, g.buckets, m.Keys, s, h)| >= h - s + 128;
      var window := Window(g.hash, g.multiplier, g.buckets, m.Keys, s, h);
      forall k | k in window
        ensures k in KeysIn(info, kv, s, h + 127)
      {
        WindowInSlots(g, info, kv, m, s, h, k);
      }
      SubsetSize(window, KeysIn(info, kv, s, h + 127));
      KeysInAtMost(info, kv, s, h + 127);
    }
  }

  /** Fewer than 127 keys are never crowded, whatever the hash function. */
  lemma FewAreNotCrowded<K>(hash: (K, nat) -> nat, keys: set<K>)
    requires Crowded(hash, keys)
    ensures |keys| >= 127
  {
    var m: HashMultiplier, b: nat :| b >= 8 && |keys| <= CalcMaxNumElementsAllowed(b) && Tight(hash, m, b, keys);
    var s, h :| 0 <= s <= h < b && |Window(hash, m, b, keys, s, h)| >= h - s + 127;
    SubsetSize(Window(hash, m, b, keys, s, h), keys);
  }

  lemma FewAreNotOverfull<K>(hash: (K, nat) -> nat, m: nat, b: nat, keys: set<K>)
    requires Overfull(hash, m, b, keys)
    ensures |keys| >= 128
  {
    var s, h :| 0 <= s <= h < b && |Window(hash, m, b, keys, s, h)| >= h - s + 128;
    SubsetSize(Window(hash, m, b, keys, s, h), keys);
  }

  ghost predicate OwnHomes<K>(hash: (K, nat) -> nat, m: nat, b: nat, keys: set<K>) {
    b > 0 && forall k, l :: k in keys && l in keys && hash(k, m) / 32 % b == hash(l, m) / 32 % b ==> k == l
  }

  /** A hash function that gives every key its own home, in every table large enough, never makes them crowded. */
  lemma SpreadIsNotCrowded<K>(hash: (K, nat) -> nat, keys: set<K>)
    requires forall m: HashMultiplier, b: nat :: b >= 8 && |keys| <= CalcMaxNumElementsAllowed(b) ==> OwnHomes(hash, m, b, keys)
    ensures !Crowded(hash, keys)
  {
    forall m: HashMultiplier, b: nat | b >= 8 && |keys| <= CalcMaxNumElementsAllowed(b)
      ensures !Tight(hash, m, b, keys)
    {
      forall s, h | 0 <= s <= h < b
        ensures |Window(hash, m, b, keys, s, h)| <= h - s + 1
      {
        OneEach(hash, m, b, keys, s, h);
      }
    }
  }

  lemma {:induction false} OneEach<K>(hash: (K, nat) -> nat, m: nat, b: nat, keys: set<K>, s: int, h: int)
    requires OwnHomes(hash, m, b, keys) && s <= h + 1
    ensures |Window(hash, m, b, keys, s, h)| <= h - s + 1
    decreases h + 1 - s
  {
    var window := Window(hash, m, b, keys, s, h);
    if s == h + 1 {
      assert window == {};
    } else {
      OneEach(hash, m, b, keys, s, h - 1);
      var rest := Window(hash, m, b, keys, s, h - 1);
      if k :| k in window && k !in rest {
        assert window == rest + {k};
      } else {
        assert window == rest;
      }
    }
  }

  ghost predicate OneHash<K(!new)>(hash: (K, nat) -> nat) {
    forall k, l, m :: hash(k, m) == hash(l, m)
  }

  /** When all keys have one hash the two conditions are a matter of number: 127 keys are crowded, 128 hopeless. */
  lemma SameHash<K(!new)>(hash: (K, nat) -> nat, keys: set<K>)
    requires OneHash(hash)
    ensures Crowded(hash, keys) <==> |keys| >= 127
    ensures Hopeless(hash, keys) <==> |keys| >= 128
  {
    forall m: HashMultiplier, b: nat | b >= 8
      ensures |keys| >= 127 ==> Tight(hash, m, b, keys)
      ensures |keys| >= 128 <==> Overfull(hash, m, b, keys)
    {
      if |keys| >= 127 {
        var k :| k in keys;
        var h := hash(k, m) / 32 % b;
        assert Window(hash, m, b, keys, h, h) == keys;
      }
      if Overfull(hash, m, b, keys) {
        FewAreNotOverfull(hash, m, b, keys);
      }
    }
    if Crowded(hash, keys) {
      FewAreNotCrowded(hash, keys);
    }
    if |keys| >= 127 {
      var b := 8 + 2 * |keys|;
      assert Tight(hash, 0, b, keys);
    }
    if Hopeless(hash, keys) {
      assert Overfull(hash, 0, 8, keys);
    }
  }
}
