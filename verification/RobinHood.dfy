/** The robin-hood hash table: open addressing with one info byte a slot. */
module RobinHood {
  import opened RobinHoodLayout
  import opened RobinHoodCrowds
  import opened InfoWord

  const INITIAL_NUM_ELEMENTS := 8
  const MULTIPLIER_STEP := 0xc4ceb9fe1a85ec54

  datatype Option<T> = None | Some(value: T)

  /** Mask arithmetic and remainders agree on powers of two. */
  predicate PowerOfTwo(n: nat) {
    n == 1 || (n > 0 && n % 2 == 0 && PowerOfTwo(n / 2))
  }

  /** What preparing a slot for a key came to. */
  datatype InsertionState = OverflowError | KeyFound | NewNode | OverwriteNode

  class Table<K(==), V> {
    const hash: (K, nat) -> nat
    var multiplier: HashMultiplier
    var keyVals: array<Node<K, V>>
    var info: array<int>
    var numElements: nat
    var mask: nat
    var maxNumElementsAllowed: nat
    var infoInc: nat
    var infoHashShift: nat
    ghost var contents: map<K, V>

    ghost function Geo(): Geometry<K>
      reads this
    {
      Geometry(hash, multiplier, mask + 1, infoInc, infoHashShift)
    }

    /** Nothing is allocated before the first insertion. */
    ghost predicate Unallocated()
      reads this, info, keyVals
    {
      && mask == 0 && numElements == 0 && maxNumElementsAllowed == 0 && contents == map[]
      && keyVals.Length == 0 && info.Length == INFO_PADDING
      && (forall i :: 0 <= i < info.Length ==> info[i] == 0)
      && infoInc == INITIAL_INFO_INC && infoHashShift == 0
    }

    ghost predicate Counted()
      reads this, info, keyVals
    {
      && keyVals.Length <= info.Length
      && numElements == |contents| == Taken(info[..], keyVals.Length)
      && numElements <= CalcMaxNumElementsAllowed(mask + 1)
    }

    /** Either every node may move up, or the next insertion is stopped first. */
    ghost predicate Guarded()
      reads this, info, keyVals
    {
      || maxNumElementsAllowed == 0
      || (maxNumElementsAllowed == CalcMaxNumElementsAllowed(mask + 1) && RoomToShift(infoInc, info[..], keyVals.Length))
    }

    /** The limit is zeroed for a byte that could not move up once more, and for nothing else. */
    ghost predicate Stopped()
      reads this, info, keyVals
    {
      maxNumElementsAllowed == 0 ==> !RoomToShift(infoInc, info[..], keyVals.Length)
    }

    /** The next key can be placed. */
    ghost predicate Ready()
      reads this
    {
      mask > 0 && numElements < maxNumElementsAllowed
    }

    /** The next key can be placed once the info bytes are relabelled. */
    ghost predicate Relabelable()
      reads this
    {
      mask > 0 && numElements < CalcMaxNumElementsAllowed(mask + 1) && infoInc > 2
    }

    ghost predicate Allocated()
      reads this, info, keyVals
    {
      && mask > 0 && PowerOfTwo(mask + 1)
      && Laid(Geo(), info[..], keyVals[..])
      && Agrees(info[..], keyVals[..], contents)
      && Counted()
    }

    /** What moving the nodes to another table needs: they are all there, wherever they are. */
    ghost predicate Movable()
      reads this, info, keyVals
    {
      && mask > 0 && keyVals.Length == CalcNumElementsWithBuffer(mask + 1)
      && Agrees(info[..], keyVals[..], contents) && Distinct(info[..], keyVals[..])
      && Counted()
    }

    ghost predicate Valid()
      reads this, info, keyVals
    {
      Unallocated() || (Allocated() && Guarded())
    }

    constructor (hash: (K, nat) -> nat)
      ensures Valid() && contents == map[] && this.hash == hash
      ensures fresh(info) && fresh(keyVals)
    {
      this.hash := hash;
      multiplier := 0xc4ceb9fe1a85ec53;
      keyVals := new Node<K, V>[0];
      info := new int[INFO_PADDING](_ => 0);
      numElements, mask, maxNumElementsAllowed := 0, 0, 0;
      infoInc, infoHashShift := INITIAL_INFO_INC, 0;
      contents := map[];
    }

    /** The home bucket of a key and the info byte it has there. */
    method KeyToIdx(key: K) returns (idx: nat, running: int)
      ensures idx == Geo().Home(key)
      ensures running == infoInc + Geo().Bits(key)
    {
      var g := Geometry(hash, multiplier, mask + 1, infoInc, infoHashShift);
      idx, running := g.Home(key), infoInc + g.Bits(key);
    }

    /** A search for a key that has come to a slot. */
    ghost predicate SearchAt(key: K, idx: nat, running: int)
      reads this, info, keyVals
    {
      && Valid() && idx < info.Length
      && if mask == 0 then running >= infoInc else Searching(Geo(), info[..], keyVals[..], key, idx, running)
    }

    lemma SearchBegins(key: K)
      requires Valid()
      ensures SearchAt(key, Geo().Home(key), infoInc + Geo().Bits(key))
      ensures Geo().Home(key) < if mask == 0 then 1 else keyVals.Length
      ensures info.Length == keyVals.Length + INFO_PADDING && infoInc > 0
    {
      if mask > 0 {
        SearchStarts(Geo(), info[..], keyVals[..], key);
      } else {
        HomeInUnallocated(Geo(), key);
      }
    }

    /** What the byte under the search says, and where the search may go. */
    lemma SearchStep(key: K, idx: nat, running: int)
      requires SearchAt(key, idx, running)
      ensures running <= info[idx] ==> idx < keyVals.Length
      ensures running == info[idx] ==> keyVals[idx].Node? && info[idx] != 0
      ensures running == info[idx] && keyVals[idx].key == key ==> key in contents && Holds(info[..], keyVals[..], idx, key)
      ensures running > info[idx] ==> key !in contents
      ensures !(running == info[idx] && keyVals[idx].key == key) && idx + 1 < info.Length ==>
                SearchAt(key, idx + 1, running + infoInc)
    {
      if mask > 0 {
        var g, bytes, nodes := Geo(), info[..], keyVals[..];
        SearchReads(g, bytes, nodes, key, idx, running);
        AbsentKey(bytes, nodes, contents, key);
        if idx + 1 < info.Length && !Holds(bytes, nodes, idx, key) {
          SearchGoesOn(g, bytes, nodes, key, idx, running);
        }
      }
    }

    /** The slot of a key, or the number of slots when it is absent. */
    method FindIdx(key: K) returns (idx: nat)
      requires Valid()
      ensures if key in contents then Holds(info[..], keyVals[..], idx, key) else idx == keyVals.Length
    {
      hide SearchAt, Holds, Valid;
      var running: int;
      idx, running := KeyToIdx(key);
      SearchBegins(key);
      var again := true;
      while again
        invariant SearchAt(key, idx, running) && idx < info.Length
        invariant again ==> idx <= keyVals.Length
        invariant !again ==> key !in contents
        decreases keyVals.Length - idx, again
      {
        SearchStep(key, idx, running);
        if running == info[idx] && key == keyVals[idx].key {
          return;
        }
        idx, running := idx + 1, running + infoInc;
        SearchStep(key, idx, running);
        if running == info[idx] && key == keyVals[idx].key {
          return;
        }
        idx, running := idx + 1, running + infoInc;
        SearchStep(key, idx, running);
        again := running <= info[idx];
      }
      SlotsOfUnallocated();
      idx := if mask == 0 then 0 else keyVals.Length;
    }

    lemma SlotsOfUnallocated()
      requires Valid()
      ensures mask == 0 ==> keyVals.Length == 0
    {
    }

    method Find(key: K) returns (found: Option<V>)
      requires Valid()
      ensures found == if key in contents then Some(contents[key]) else None
    {
      var idx := FindIdx(key);
      if idx == keyVals.Length {
        return None;
      }
      return Some(keyVals[idx].val);
    }

    /** One displaced node moves down into the slot before it. */
    method MoveDown(idx: nat)
      requires idx + 1 < keyVals.Length < info.Length
      modifies info, keyVals
      ensures info[..] == old(info[..])[idx := old(info[idx + 1]) - infoInc]
      ensures keyVals[..] == old(keyVals[..])[idx := old(keyVals[idx + 1])]
    {
      assert info as object != keyVals as object;
      info[idx] := info[idx + 1] - infoInc;
      keyVals[idx] := keyVals[idx + 1];
    }

    /** Takes the node out of a slot and moves the displaced nodes after it down by one. */
    method ShiftDown(start: nat) returns (ghost e: nat)
      requires info.Length > keyVals.Length && info[keyVals.Length] < 2 * infoInc
      requires start < keyVals.Length && info[start] != 0
      modifies info, keyVals
      ensures ErasureRun(infoInc, old(info[..]), keyVals.Length, start, e)
      ensures info[..] == ShiftedDown(old(info[..]), start, e, infoInc)
      ensures keyVals[..] == MovedDown(old(keyVals[..]), start, e)
    {
      hide ShiftedDown, MovedDown, ErasureRun, InfoShiftedTo, NodesShiftedTo;
      ghost var bytes, nodes := info[..], keyVals[..];
      var idx := start;
      NothingShifted(bytes, nodes, start, infoInc);
      while info[idx + 1] >= 2 * infoInc
        invariant start <= idx < |nodes|
        invariant info[..] == InfoShiftedTo(bytes, start, idx, infoInc)
        invariant keyVals[..] == NodesShiftedTo(nodes, start, idx)
        invariant forall j :: start < j <= idx ==> bytes[j] >= 2 * infoInc
        decreases |nodes| - idx
      {
        ByteAhead(bytes, start, idx, infoInc, idx + 1);
        OneMoreShifted(bytes, nodes, start, idx, infoInc);
        MoveDown(idx);
        idx := idx + 1;
      }
      ByteAhead(bytes, start, idx, infoInc, idx + 1);
      info[idx] := 0;
      assert info as object != keyVals as object;
      keyVals[idx] := Free;
      e := idx + 1;
      AllShifted(bytes, nodes, start, idx, infoInc);
      assert info[..] == InfoShiftedTo(bytes, start, idx, infoInc)[idx := 0];
      assert keyVals[..] == NodesShiftedTo(nodes, start, idx)[idx := Free];
      IsErasureRun(infoInc, bytes, |nodes|, start, e);
    }

    /** Removes a key; the result counts the removed nodes. */
    method Erase(key: K) returns (count: nat)
      requires Valid()
      modifies this`numElements, this`contents, info, keyVals
      ensures Valid() && contents == old(contents) - {key}
      ensures count == if key in old(contents) then 1 else 0
    {
      hide SearchAt, Valid;
      var idx, running := KeyToIdx(key);
      SearchBegins(key);
      var again := true;
      while again
        invariant SearchAt(key, idx, running) && idx < info.Length
        invariant again ==> idx <= keyVals.Length
        invariant !again ==> key !in contents
        invariant contents == old(contents) && Valid()
        decreases keyVals.Length - idx, again
      {
        SearchStep(key, idx, running);
        if running == info[idx] && key == keyVals[idx].key {
          EraseAt(idx);
          return 1;
        }
        idx, running := idx + 1, running + infoInc;
        SearchStep(key, idx, running);
        again := running <= info[idx];
      }
      assert contents - {key} == contents;
      count := 0;
    }

    method EraseAt(idx: nat)
      requires Valid() && idx < keyVals.Length && info[idx] != 0
      modifies this`numElements, this`contents, info, keyVals
      ensures Valid() && old(keyVals[idx].Node?) && contents == old(contents) - {old(keyVals[idx].key)}
    {
      hide Laid, Agrees, Geometry.Running, RoomToShift, Taken, Framed, ShiftedDown, MovedDown, ErasureRun;
      ghost var g, bytes, nodes := Geo(), info[..], keyVals[..];
      LaidFacts(g, bytes, nodes);
      ghost var e := ShiftDown(idx);
      ErasureRunFacts(infoInc, bytes, |nodes|, idx, e);
      EraseKeepsLayout(g, bytes, nodes, idx, e);
      EraseAgrees(g, bytes, nodes, contents, idx, e);
      if maxNumElementsAllowed != 0 {
        ErasedRoom(bytes, |nodes|, idx, e, infoInc);
      }
      numElements := numElements - 1;
      contents := contents - {nodes[idx].key};
    }

    /** Moves the nodes of slots insertion_idx..startIdx-1 up by one, into the free slot startIdx. */
    method ShiftNodesUp(startIdx: nat, insertion_idx: nat)
      requires insertion_idx < startIdx < keyVals.Length
      modifies keyVals
      ensures keyVals[..] == MovedUp(old(keyVals[..]), insertion_idx, startIdx, old(keyVals[insertion_idx]))
    {
      hide MovedUp;
      ghost var nodes := keyVals[..];
      var idx := startIdx;
      keyVals[idx] := keyVals[idx - 1];
      idx := idx - 1;
      while idx != insertion_idx
        invariant insertion_idx <= idx < startIdx
        invariant forall j :: 0 <= j <= idx || startIdx < j < |nodes| ==> keyVals[j] == nodes[j]
        invariant forall j :: idx < j <= startIdx ==> keyVals[j] == nodes[j - 1]
      {
        keyVals[idx] := keyVals[idx - 1];
        idx := idx - 1;
      }
      IsMovedUp(nodes, keyVals[..], insertion_idx, startIdx);
    }

    /** The info bytes of the moved nodes. A byte that could not move up once more stops the next
        insertion. */
    method ShiftInfoUp(startIdx: nat, insertion_idx: nat)
      requires insertion_idx < startIdx < info.Length
      requires forall j :: insertion_idx <= j < startIdx ==> 0 <= info[j] && info[j] + infoInc <= 0xFF
      modifies this`maxNumElementsAllowed, info
      ensures info[..] == ShiftedUp(old(info[..]), insertion_idx, startIdx, infoInc, old(info[insertion_idx]))
      ensures maxNumElementsAllowed == old(maxNumElementsAllowed) || maxNumElementsAllowed == 0
      ensures maxNumElementsAllowed != 0 ==>
                forall j :: insertion_idx <= j < startIdx ==> old(info[..])[j] + infoInc + infoInc <= 0xFF
      ensures old(maxNumElementsAllowed) != 0 && maxNumElementsAllowed == 0 ==>
                exists j :: insertion_idx <= j < startIdx && old(info[..])[j] + infoInc + infoInc > 0xFF
    {
      hide ShiftedUp;
      ghost var bytes := info[..];
      var idx := startIdx;
      while idx != insertion_idx
        invariant insertion_idx <= idx <= startIdx
        invariant forall j :: 0 <= j <= idx || startIdx < j < |bytes| ==> info[j] == bytes[j]
        invariant forall j :: idx < j <= startIdx ==> info[j] == bytes[j - 1] + infoInc
        invariant maxNumElementsAllowed == old(maxNumElementsAllowed) || maxNumElementsAllowed == 0
        invariant maxNumElementsAllowed != 0 ==> forall j :: idx <= j < startIdx ==> bytes[j] + infoInc + infoInc <= 0xFF
        invariant old(maxNumElementsAllowed) != 0 && maxNumElementsAllowed == 0 ==>
                    exists j :: insertion_idx <= j < startIdx && bytes[j] + infoInc + infoInc > 0xFF
      {
        assert info[idx - 1] == bytes[idx - 1];
        info[idx] := (info[idx - 1] + infoInc) % 0x100;
        if info[idx] + infoInc > 0xFF {
          maxNumElementsAllowed := 0;
        }
        idx := idx - 1;
      }
      IsShiftedUp(bytes, info[..], insertion_idx, startIdx, infoInc);
    }

    /** Slot idx waits for the node (key, v): with it the table is valid. */
    ghost predicate Prepared(idx: nat, key: K, v: V)
      reads this, info, keyVals
    {
      && mask > 0 && PowerOfTwo(mask + 1) && idx < keyVals.Length <= info.Length
      && Laid(Geo(), info[..], keyVals[..][idx := Node(key, v)])
      && Agrees(info[..], keyVals[..][idx := Node(key, v)], contents[key := v])
      && numElements == |contents| + 1 == Taken(info[..], keyVals.Length)
      && key !in contents
      && numElements <= CalcMaxNumElementsAllowed(mask + 1)
      && Guarded()
    }

    /** The first free slot from the insertion point on; it comes before the sentinel. */
    method FindFreeSlot(key: K, insertion_idx: nat, insertion_info: int) returns (idx: nat)
      requires Allocated() && numElements < CalcMaxNumElementsAllowed(mask + 1)
      requires InsertSearch(Geo(), info[..], keyVals[..], key, insertion_idx, insertion_info)
      requires insertion_idx < info.Length && insertion_info > info[insertion_idx]
      ensures InsertionPoint(Geo(), info[..], keyVals[..], key, insertion_idx, idx)
      ensures insertion_info == Geo().Running(key, insertion_idx) && insertion_idx <= idx < keyVals.Length
    {
      hide Laid, Agrees, InsertSearch, Taken, Geometry.Running, InsertionPoint;
      ghost var g, bytes, nodes := Geo(), info[..], keyVals[..];
      var running := insertion_info;
      idx := insertion_idx;
      InsertSearchEnds(g, bytes, nodes, key, insertion_idx, insertion_info, insertion_idx);
      while info[idx] != 0
        invariant insertion_idx <= idx < |nodes|
        invariant forall j :: insertion_idx <= j < idx ==> bytes[j] != 0
        decreases |nodes| - idx
      {
        InsertSearchEnds(g, bytes, nodes, key, insertion_idx, insertion_info, idx + 1);
        idx, running := idx + 1, running + infoInc;
      }
      InsertSearchEnds(g, bytes, nodes, key, insertion_idx, insertion_info, idx);
    }

    /** Shifts the nodes between the insertion point and the free slot out of the way and writes the
        info byte of the new node. */
    method MakeRoom(insertion_idx: nat, insertion_info: int, idx: nat)
      requires insertion_idx <= idx < keyVals.Length <= info.Length
      requires 0 <= insertion_info <= 0xFF
      requires forall j :: insertion_idx <= j < idx ==> 0 <= info[j] && info[j] + infoInc <= 0xFF
      modifies this`maxNumElementsAllowed, this`numElements, info, keyVals
      ensures info[..] == ShiftedUp(old(info[..]), insertion_idx, idx, infoInc, insertion_info)
      ensures keyVals[..] == MovedUp(old(keyVals[..]), insertion_idx, idx, old(keyVals[insertion_idx]))
      ensures numElements == old(numElements) + 1
      ensures maxNumElementsAllowed == old(maxNumElementsAllowed) || maxNumElementsAllowed == 0
      ensures maxNumElementsAllowed != 0 ==>
                && insertion_info + infoInc <= 0xFF
                && forall j :: insertion_idx <= j < idx ==> old(info[..])[j] + infoInc + infoInc <= 0xFF
      ensures old(maxNumElementsAllowed) != 0 && maxNumElementsAllowed == 0 ==>
                || insertion_info + infoInc > 0xFF
                || exists j :: insertion_idx <= j < idx && old(info[..])[j] + infoInc + infoInc > 0xFF
    {
      hide ShiftedUp, MovedUp;
      assert info as object != keyVals as object;
      ghost var bytes, nodes := info[..], keyVals[..];
      if insertion_info + infoInc > 0xFF {
        maxNumElementsAllowed := 0;
      }
      NothingMovedUp(nodes, insertion_idx);
      ShiftedUpHole(bytes, insertion_idx, idx, infoInc, insertion_info);
      if idx != insertion_idx {
        ShiftNodesUp(idx, insertion_idx);
        assert info[..] == bytes;
        ShiftInfoUp(idx, insertion_idx);
      }
      assert keyVals[..] == MovedUp(nodes, insertion_idx, idx, nodes[insertion_idx]);
      ghost var shifted := info[..];
      info[insertion_idx] := insertion_info % 0x100;
      assert info[..] == shifted[insertion_idx := insertion_info];
      numElements := numElements + 1;
    }

    /** Opens a slot at the insertion point of a new key: both ways of inserting do this. */
    method OpenSpot(key: K, insertion_idx: nat, insertion_info: int) returns (wasFree: bool)
      requires Allocated() && Guarded() && maxNumElementsAllowed != 0 && numElements < CalcMaxNumElementsAllowed(mask + 1)
      requires InsertSearch(Geo(), info[..], keyVals[..], key, insertion_idx, insertion_info)
      requires insertion_idx < info.Length && insertion_info > info[insertion_idx] && key !in contents
      modifies this`maxNumElementsAllowed, this`numElements, info, keyVals
      ensures (forall v :: Prepared(insertion_idx, key, v)) && Stopped()
    {
      hide Laid, Agrees, InsertSearch, Taken, RoomToShift, ShiftedUp, MovedUp, Geometry.Running, PowerOfTwo, InsertionPoint;
      ghost var g, bytes, nodes := Geo(), info[..], keyVals[..];
      LaidFacts(g, bytes, nodes);
      var idx := FindFreeSlot(key, insertion_idx, insertion_info);
      wasFree := idx == insertion_idx;
      RoomFacts(g, bytes, nodes, key, insertion_idx, idx);
      MakeRoom(insertion_idx, insertion_info, idx);
      if maxNumElementsAllowed != 0 {
        InsertedRoom(infoInc, bytes, |nodes|, insertion_idx, idx, insertion_info);
      } else {
        InsertedStuck(infoInc, bytes, |nodes|, insertion_idx, idx, insertion_info);
      }
      forall v
        ensures Prepared(insertion_idx, key, v)
      {
        SpotOpened(g, bytes, nodes, contents, key, v, insertion_idx, idx, info[..], keyVals[..]);
      }
    }

    /** Gives one hash bit of every info byte up for displacement. Eight bytes are halved at a time,
        which reaches past the slots into the padding. */
    method TryIncreaseInfo() returns (ok: bool)
      requires Allocated()
      modifies this`infoInc, this`infoHashShift, this`maxNumElementsAllowed, info
      ensures Allocated()
      ensures ok ==> Guarded() && maxNumElementsAllowed == CalcMaxNumElementsAllowed(mask + 1)
      ensures ok <==> old(infoInc) > 2
      ensures ok ==> infoInc == old(infoInc) / 2 && infoHashShift == old(infoHashShift) + 1
      ensures !ok ==> infoInc == old(infoInc) && maxNumElementsAllowed == old(maxNumElementsAllowed) && info[..] == old(info[..])
    {
      hide Laid, Agrees, Taken, RoomToShift, PowerOfTwo, Halved;
      ghost var g, bytes, nodes := Geo(), info[..], keyVals[..];
      LaidFacts(g, bytes, nodes);
      if infoInc <= 2 {
        return false;
      }
      infoInc := infoInc / 2;
      infoHashShift := infoHashShift + 1;
      HalveInfo(keyVals.Length);
      maxNumElementsAllowed := CalcMaxNumElementsAllowed(mask + 1);
      HalvingKeepsLayout(g, bytes, nodes);
      HalvingAgrees(g, bytes, nodes, contents);
      ok := true;
    }

    method HalveInfo(numElementsWithBuffer: nat)
      requires Framed(info[..], numElementsWithBuffer)
      modifies info
      ensures info[..] == Halved(old(info[..]), numElementsWithBuffer)
    {
      hide HalfWord, Loaded, ByteOf;
      ghost var bytes := info[..];
      var i := 0;
      while i < numElementsWithBuffer
        invariant 0 <= i < numElementsWithBuffer + 8 && i % 8 == 0
        invariant forall j :: 0 <= j < i ==> info[j] == bytes[j] / 2
        invariant forall j :: i <= j < |bytes| ==> info[j] == bytes[j]
      {
        var val := HalfWord(Loaded(info[..], i));
        WordAtOnce(info[..], bytes, i);
        var j := 0;
        while j < 8
          invariant 0 <= j <= 8
          invariant forall m :: 0 <= m < i + j ==> info[m] == bytes[m] / 2
          invariant forall m :: i + j <= m < |bytes| ==> info[m] == bytes[m]
        {
          info[i + j] := ByteOf(val, j) as int;
          j := j + 1;
        }
        i := i + 8;
      }
      info[numElementsWithBuffer] := 1;
      assert info[..] == Halved(bytes, numElementsWithBuffer);
    }

    /** A fresh, empty table. */
    method InitData(maxElements: nat)
      requires maxElements >= 8 && PowerOfTwo(maxElements)
      modifies this
      ensures fresh(info) && fresh(keyVals)
      ensures Allocated() && Guarded() && mask + 1 == maxElements && contents == map[] && multiplier == old(multiplier)
      ensures maxNumElementsAllowed == CalcMaxNumElementsAllowed(maxElements)
    {
      hide PowerOfTwo, Laid, Agrees, Taken, RoomToShift;
      numElements := 0;
      mask := maxElements - 1;
      maxNumElementsAllowed := CalcMaxNumElementsAllowed(maxElements);
      var numElementsWithBuffer := CalcNumElementsWithBuffer(maxElements);
      keyVals := new Node<K, V>[numElementsWithBuffer](_ => Free);
      info := new int[numElementsWithBuffer + INFO_PADDING](_ => 0);
      info[numElementsWithBuffer] := 1;
      infoInc, infoHashShift := INITIAL_INFO_INC, 0;
      contents := map[];
      EmptyLayout(Geo(), info[..], keyVals[..]);
    }

    /** Skips forward to where a key that is known to be absent belongs. */
    method SkipToInsertionPoint(key: K) returns (idx: nat, running: int)
      requires Allocated() && key !in contents
      ensures InsertSearch(Geo(), info[..], keyVals[..], key, idx, running)
      ensures idx < info.Length && running > info[idx]
    {
      hide Laid, Agrees, Taken, PowerOfTwo, InsertSearch, Geometry.Running, Geometry.Home, Geometry.Bits;
      idx, running := KeyToIdx(key);
      ghost var g, bytes, nodes := Geo(), info[..], keyVals[..];
      LaidFacts(g, bytes, nodes);
      AbsentKey(bytes, nodes, contents, key);
      InsertSearchStarts(g, bytes, nodes, key);
      InsertSearchReads(g, bytes, nodes, key, idx, running);
      while running <= info[idx]
        invariant InsertSearch(g, bytes, nodes, key, idx, running) && idx < |bytes|
        decreases |bytes| - idx
      {
        InsertSearchReads(g, bytes, nodes, key, idx, running);
        idx, running := idx + 1, running + infoInc;
        InsertSearchReads(g, bytes, nodes, key, idx, running);
      }
    }

    /** Inserts a node that is known to be new, as a rehash does. */
    method InsertMove(key: K, val: V) returns (ok: bool)
      requires Allocated() && Guarded() && key !in contents && numElements < CalcMaxNumElementsAllowed(mask + 1)
      modifies this`infoInc, this`infoHashShift, this`maxNumElementsAllowed, this`numElements, this`contents, info, keyVals
      ensures Allocated() && Guarded()
      ensures contents == if ok then old(contents)[key := val] else old(contents)
      ensures if ok then Stopped() else maxNumElementsAllowed == 0 && infoInc == 2
      ensures old(Stopped()) ==> Stopped()
    {
      hide Laid, Agrees, Taken, RoomToShift, PowerOfTwo, InsertSearch, CalcMaxNumElementsAllowed;
      LaidFacts(Geo(), info[..], keyVals[..]);
      CapacityGrows(mask + 1);
      if maxNumElementsAllowed == 0 {
        var more := TryIncreaseInfo();
        if !more {
          return false;
        }
      }
      var idx, running := SkipToInsertionPoint(key);
      var wasFree := OpenSpot(key, idx, running);
      FillSpot(idx, key, val);
      ok := true;
    }

    /** Writes the node that a prepared slot waits for. */
    method FillSpot(idx: nat, key: K, val: V)
      requires Prepared(idx, key, val)
      modifies keyVals, this`contents
      ensures Allocated() && Guarded() && Valid() && contents == old(contents)[key := val]
      ensures old(Stopped()) ==> Stopped()
    {
      hide Laid, Agrees, Taken, RoomToShift, PowerOfTwo;
      assert info as object != keyVals as object;
      keyVals[idx] := Node(key, val);
      contents := contents[key := val];
      assert keyVals[..] == old(keyVals[..])[idx := Node(key, val)];
    }

    /** Moves every node to a fresh table. When a byte overflows on the way the nodes not yet moved
        are lost. */
    method RehashPowerOfTwo(numBuckets: nat) returns (ok: bool)
      requires Unallocated() || (Movable() && mask + 1 >= 8)
      requires numBuckets >= 8 && PowerOfTwo(numBuckets) && numElements <= CalcMaxNumElementsAllowed(numBuckets)
      modifies this
      ensures Allocated() && Guarded() && fresh(info) && fresh(keyVals) && mask + 1 == numBuckets
      ensures if ok then contents == old(contents) else SubMap(contents, old(contents))
      ensures multiplier == old(multiplier)
      ensures (!ok || (maxNumElementsAllowed == 0 && infoInc == 2)) ==> Tight(hash, multiplier, numBuckets, old(contents).Keys)
    {
      hide Laid, Agrees, Taken, Guarded, Stopped, PowerOfTwo, CalcMaxNumElementsAllowed, Stored, Distinct, SubMap, Tight;
      var oldKeyVals, oldInfo := keyVals, info;
      var oldMaxElementsWithBuffer := CalcNumElementsWithBuffer(mask + 1);
      ghost var bytes, nodes, m, n := info[..], keyVals[..], contents, numElements;
      ghost var wasAllocated := mask > 0;
      BufferSize(mask + 1);
      InitData(numBuckets);
      CapacityGrows(numBuckets);
      NotStopped();
      if oldMaxElementsWithBuffer > 1 {
        NothingStored(bytes, nodes);
        var i := 0;
        while i < oldMaxElementsWithBuffer
          invariant 0 <= i <= oldMaxElementsWithBuffer == |nodes| <= |bytes|
          invariant oldInfo[..] == bytes && oldKeyVals[..] == nodes && oldInfo != info && oldKeyVals != keyVals
          invariant Allocated() && Guarded() && fresh(info) && fresh(keyVals) && mask + 1 == numBuckets
          invariant contents == Stored(bytes, nodes, i) && Stopped() && multiplier == old(multiplier)
        {
          StoredStep(bytes, nodes, m, i);
          if oldInfo[i] != 0 {
            ok := InsertMove(oldKeyVals[i].key, oldKeyVals[i].val);
            if !ok {
              StoppedIsTight(m);
              return;
            }
          }
          i := i + 1;
        }
        AllStored(bytes, nodes, m);
      }
      SubMapItself(contents);
      StoppedIsTight(contents);
      ok := true;
    }

    lemma NotStopped()
      requires maxNumElementsAllowed > 0
      ensures Stopped()
    {
    }

    /** A table that stops although no hash bits are left is tight. */
    lemma StoppedIsTight(m: map<K, V>)
      requires Allocated() && Stopped() && SubMap(contents, m)
      ensures maxNumElementsAllowed == 0 && infoInc == 2 ==> Tight(hash, multiplier, mask + 1, m.Keys)
    {
      hide Laid, Agrees, Taken, RoomToShift, PowerOfTwo, CalcMaxNumElementsAllowed, Tight;
      if maxNumElementsAllowed == 0 && infoInc == 2 {
        LaidFacts(Geo(), info[..], keyVals[..]);
        NoRoomIsTight(Geo(), info[..], keyVals[..], contents);
        assert contents.Keys <= m.Keys;
        WindowGrows(hash, multiplier, mask + 1, contents.Keys, m.Keys);
      }
    }

    /** Adding an even number keeps an odd multiplier odd. */
    method NextHashMultiplier()
      modifies this`multiplier
      ensures multiplier == (old(multiplier) + MULTIPLIER_STEP) % TWO_TO_THE_64
      ensures multiplier % 2 == old(multiplier) % 2
    {
      multiplier := (multiplier + MULTIPLIER_STEP) % TWO_TO_THE_64;
    }

    /** Makes room for one more key: by allocating, by relabelling, by hashing anew, or by growing. A rehash fails,
        or leaves a table that has to be rehashed again, only when the keys are crowded. */
    method IncreaseSize() returns (ok: bool)
      requires Valid()
      modifies this, info
      ensures Allocated() && Guarded()
      ensures (fresh(info) && fresh(keyVals)) || (info == old(info) && keyVals == old(keyVals))
      ensures if ok then contents == old(contents) else SubMap(contents, old(contents))
      ensures !ok || !(Ready() || Relabelable()) ==> Crowded(hash, old(contents).Keys)
      ensures old(mask == 0 || Relabelable()) ==> ok && Ready()
      ensures mask + 1 == if old(mask) == 0 then INITIAL_NUM_ELEMENTS
                          else if old(Relabelable() || numElements * 2 < CalcMaxNumElementsAllowed(mask + 1)) then old(mask) + 1
                          else 2 * (old(mask) + 1)
      ensures multiplier == if old(mask > 0 && !Relabelable() && numElements * 2 < CalcMaxNumElementsAllowed(mask + 1))
                            then (old(multiplier) + MULTIPLIER_STEP) % TWO_TO_THE_64 else old(multiplier)
    {
      hide Laid, Agrees, Taken, RoomToShift, CalcMaxNumElementsAllowed, SubMap, Tight, Crowded, PowerOfTwo;
      CapacityGrows(mask + 1);
      if mask == 0 {
        InitData(INITIAL_NUM_ELEMENTS);
        return true;
      }
      var maxAllowed := CalcMaxNumElementsAllowed(mask + 1);
      if numElements < maxAllowed {
        ok := TryIncreaseInfo();
        if ok {
          return;
        }
      }
      LaidFacts(Geo(), info[..], keyVals[..]);
      if numElements * 2 < CalcMaxNumElementsAllowed(mask + 1) {
        NextHashMultiplier();
        ok := RehashPowerOfTwo(mask + 1);
      } else {
        ok := RehashPowerOfTwo((mask + 1) * 2);
      }
      LaidFacts(Geo(), info[..], keyVals[..]);
      TightIsCrowded(hash, multiplier, mask + 1, old(contents).Keys);
    }

    /** Where a key is, or where it belongs: first past the bytes above the running info, then over
        those equal to it, comparing keys. */
    method SearchForInsertion(key: K) returns (found: bool, idx: nat, running: int)
      requires Valid()
      ensures found <==> key in contents
      ensures found ==> Holds(info[..], keyVals[..], idx, key)
      ensures !found && mask > 0 ==>
                InsertSearch(Geo(), info[..], keyVals[..], key, idx, running) && idx < info.Length && running > info[idx]
    {
      hide Valid, Geometry.Running, Geometry.Home, Geometry.Bits, InsertAt;
      idx, running := KeyToIdx(key);
      InsertAtBegins(key);
      while running < info[idx]
        invariant idx < info.Length && InsertAt(key, idx, running)
        decreases info.Length - idx
      {
        InsertAtStep(key, idx, running);
        idx, running := idx + 1, running + infoInc;
      }
      while running == info[idx]
        invariant idx < info.Length && InsertAt(key, idx, running) && running >= info[idx]
        decreases info.Length - idx
      {
        InsertAtStep(key, idx, running);
        if key == keyVals[idx].key {
          return true, idx, running;
        }
        InsertAtOrder(key, idx, running);
        idx, running := idx + 1, running + infoInc;
      }
      InsertAtStep(key, idx, running);
      found := false;
    }

    ghost predicate InsertAt(key: K, idx: nat, running: int)
      reads this, info, keyVals
    {
      && Valid() && idx < info.Length
      && if mask == 0 then running >= infoInc else InsertSearch(Geo(), info[..], keyVals[..], key, idx, running)
    }

    lemma InsertAtBegins(key: K)
      requires Valid()
      ensures Geo().Home(key) < info.Length && InsertAt(key, Geo().Home(key), infoInc + Geo().Bits(key))
    {
      if mask > 0 {
        InsertSearchStarts(Geo(), info[..], keyVals[..], key);
      } else {
        HomeInUnallocated(Geo(), key);
      }
    }

    /** After a byte equal to the running info comes none above the next. */
    lemma InsertAtOrder(key: K, idx: nat, running: int)
      requires InsertAt(key, idx, running) && running == info[idx] && idx + 1 < info.Length
      ensures info[idx + 1] <= running + infoInc
    {
      hide Laid, Agrees, Distinct, Taken, Framed, RoomToShift, InsertSearch, Geometry.Running, Geometry.Home, Geometry.Bits;
      if mask > 0 {
        var g, bytes, nodes := Geo(), info[..], keyVals[..];
        LaidFacts(g, bytes, nodes);
        OrderedFrom(g, bytes, nodes, key, idx, running);
      }
    }

    lemma InsertAtStep(key: K, idx: nat, running: int)
      requires InsertAt(key, idx, running) && idx < info.Length
      ensures running <= info[idx] ==> idx + 1 < info.Length && idx < keyVals.Length && keyVals[idx].Node?
      ensures running == info[idx] && keyVals[idx].key == key ==> key in contents && Holds(info[..], keyVals[..], idx, key)
      ensures running > info[idx] ==> key !in contents
      ensures running > info[idx] && mask > 0 ==> InsertSearch(Geo(), info[..], keyVals[..], key, idx, running)
      ensures running <= info[idx] && !(running == info[idx] && keyVals[idx].key == key) ==>
                InsertAt(key, idx + 1, running + infoInc)
    {
      if mask > 0 {
        var g, bytes, nodes := Geo(), info[..], keyVals[..];
        LaidFacts(g, bytes, nodes);
        hide Laid, Geometry.Running, Geometry.Home, Geometry.Bits, InsertSearch, Agrees, Distinct, Taken, Framed, RoomToShift;
        InsertSearchReads(g, bytes, nodes, key, idx, running);
        AbsentKey(bytes, nodes, contents, key);
      }
    }

    /** Finds a key or prepares the slot its node will be written to. */
    method InsertKeyPrepareEmptySpot(key: K) returns (idx: nat, state: InsertionState)
      requires Valid()
      modifies this, info, keyVals
      ensures (fresh(info) && fresh(keyVals)) || (info == old(info) && keyVals == old(keyVals))
      ensures match state
              case KeyFound => Valid() && contents == old(contents) && Holds(info[..], keyVals[..], idx, key)
              case OverflowError =>
                Valid() && SubMap(contents, old(contents)) && key !in old(contents) && Crowded(hash, old(contents).Keys)
              case NewNode => contents == old(contents) && key !in contents && (forall v :: Prepared(idx, key, v))
              case OverwriteNode => contents == old(contents) && key !in contents && (forall v :: Prepared(idx, key, v))
    {
      hide Unallocated, Laid, Agrees, RoomToShift, Taken, Prepared, SubMap, InsertSearch, PowerOfTwo, CalcMaxNumElementsAllowed, Crowded;
      SubMapItself(contents);
      var i := 0;
      while i < 256
        invariant Valid() && contents == old(contents) && SubMap(contents, old(contents))
        invariant i > 0 ==> key !in contents
        invariant i == 0 || Crowded(hash, contents.Keys) || Ready() || (i == 1 && Relabelable())
        invariant i <= 2 || Crowded(hash, contents.Keys)
        invariant (fresh(info) && fresh(keyVals)) || (info == old(info) && keyVals == old(keyVals))
      {
        var found, at, running := SearchForInsertion(key);
        if found {
          return at, KeyFound;
        }
        LimitWhenUnallocated();
        if numElements >= maxNumElementsAllowed {
          var ok := IncreaseSize();
          if !ok {
            return 0, OverflowError;
          }
        } else {
          var wasFree := OpenSpot(key, at, running);
          return at, if wasFree then NewNode else OverwriteNode;
        }
        i := i + 1;
      }
      return 0, OverflowError;
    }

    lemma LimitWhenUnallocated()
      requires Valid()
      ensures mask == 0 ==> numElements >= maxNumElementsAllowed
      ensures mask > 0 ==> Allocated() && Guarded()
    {
    }

    lemma FoundKey(idx: nat, key: K)
      requires Valid() && Holds(info[..], keyVals[..], idx, key)
      ensures mask > 0 && idx < keyVals.Length && key in contents && contents[key] == keyVals[idx].val
      ensures info as object != keyVals as object
    {
    }

    /** Adds a key that is not there yet; a key that is there keeps its value. Without success some
        keys may be gone, but no other mapping has changed. There is success whenever the keys are not crowded,
        in particular when there are fewer than 127, and none when they are hopeless with the new one. */
    method Emplace(key: K, val: V) returns (ok: bool, inserted: bool)
      requires Valid()
      modifies this, info, keyVals
      ensures Valid()
      ensures (fresh(info) && fresh(keyVals)) || (info == old(info) && keyVals == old(keyVals))
      ensures ok ==> contents == (if key in old(contents) then old(contents) else old(contents)[key := val])
      ensures ok ==> (inserted <==> key !in old(contents))
      ensures !ok ==> SubMap(contents, old(contents)) && key !in old(contents)
      ensures !ok ==> Crowded(hash, old(contents).Keys) && |old(contents)| >= 127
      ensures Hopeless(hash, old(contents).Keys + {key}) ==> !ok
    {
      hide Valid, Prepared, SubMap, Allocated, Guarded, Crowded, Hopeless;
      var idx, state := InsertKeyPrepareEmptySpot(key);
      match state {
        case KeyFound =>
          FoundKey(idx, key);
          NotHopeless();
          assert old(contents).Keys + {key} == contents.Keys;
          return true, false;
        case NewNode =>
          FillSpot(idx, key, val);
        case OverwriteNode =>
          FillSpot(idx, key, val);
        case OverflowError =>
          FewAreNotCrowded(hash, old(contents).Keys);
          return false, false;
      }
      NotHopeless();
      assert contents.Keys == old(contents).Keys + {key};
      ok, inserted := true, true;
    }

    /** Adds a key or gives it a new value. */
    method InsertOrAssign(key: K, val: V) returns (ok: bool)
      requires Valid()
      modifies this, info, keyVals
      ensures Valid()
      ensures (fresh(info) && fresh(keyVals)) || (info == old(info) && keyVals == old(keyVals))
      ensures if ok then contents == old(contents)[key := val] else SubMap(contents, old(contents)) && key !in old(contents)
      ensures !ok ==> Crowded(hash, old(contents).Keys) && |old(contents)| >= 127
      ensures Hopeless(hash, old(contents).Keys + {key}) ==> !ok
    {
      hide Valid, Prepared, SubMap, Allocated, Guarded, Crowded, Hopeless;
      var idx, state := InsertKeyPrepareEmptySpot(key);
      match state {
        case KeyFound =>
          ReplaceValue(idx, key, val);
        case NewNode =>
          FillSpot(idx, key, val);
        case OverwriteNode =>
          FillSpot(idx, key, val);
        case OverflowError =>
          FewAreNotCrowded(hash, old(contents).Keys);
          return false;
      }
      NotHopeless();
      assert contents.Keys == old(contents).Keys + {key};
      ok := true;
    }

    /** There is a table for the keys. */
    lemma NotHopeless()
      requires Valid()
      ensures !Hopeless(hash, contents.Keys)
    {
      hide Agrees, Taken, RoomToShift, PowerOfTwo, CalcMaxNumElementsAllowed, Overfull;
      if mask > 0 {
        LaidIsNotOverfull(Geo(), info[..], keyVals[..], contents);
      } else if Hopeless(hash, contents.Keys) {
        assert Overfull(hash, 0, 8, contents.Keys);
        FewAreNotOverfull(hash, 0, 8, contents.Keys);
      }
    }

    method ReplaceValue(idx: nat, key: K, val: V)
      requires Valid() && Holds(info[..], keyVals[..], idx, key)
      modifies keyVals, this`contents
      ensures Valid() && contents == old(contents)[key := val]
    {
      hide Laid, Agrees, Taken, RoomToShift, PowerOfTwo;
      FoundKey(idx, key);
      ghost var g, bytes, nodes, m := Geo(), info[..], keyVals[..], contents;
      ValueReplaced(g, bytes, nodes, m, idx, key, val);
      keyVals[idx] := Node(key, val);
      contents := contents[key := val];
      assert keyVals[..] == nodes[idx := Node(key, val)];
      assert |m[key := val]| == |m|;
    }

    method Size() returns (n: nat)
      requires Valid()
      ensures n == |contents|
    {
      n := numElements;
    }

    /** The smallest doubling of the initial size that may hold n elements. */
    method SizeFor(n: nat) returns (newSize: nat)
      ensures Smallest(newSize, n)
    {
      newSize := INITIAL_NUM_ELEMENTS;
      CapacityGrows(newSize);
      while CalcMaxNumElementsAllowed(newSize) < n
        invariant newSize >= 8 && PowerOfTwo(newSize)
        invariant newSize == 8 || CalcMaxNumElementsAllowed(newSize / 2) < n
        decreases n - CalcMaxNumElementsAllowed(newSize)
      {
        CapacityGrows(newSize);
        newSize := newSize * 2;
      }
    }

    method Reserve(c: nat, forceRehash: bool) returns (ok: bool)
      requires Valid()
      modifies this
      ensures Valid()
      ensures (fresh(info) && fresh(keyVals)) || (info == old(info) && keyVals == old(keyVals))
      ensures if ok then contents == old(contents) else SubMap(contents, old(contents)) && Crowded(hash, old(contents).Keys)
      ensures Resized(old(mask) + 1, mask + 1, if c > |old(contents)| then c else |old(contents)|, forceRehash)
    {
      hide Laid, Agrees, Taken, RoomToShift, PowerOfTwo, SubMap, Crowded, Tight, CalcMaxNumElementsAllowed, Smallest;
      var n := if c > numElements then c else numElements;
      var newSize := SizeFor(n);
      SmallestFacts(newSize, n);
      ok := true;
      if forceRehash || newSize > mask + 1 {
        MovableWhenValid();
        ok := RehashPowerOfTwo(newSize);
        TightIsCrowded(hash, multiplier, mask + 1, old(contents).Keys);
      }
    }

    method Compact() returns (ok: bool)
      requires Valid()
      modifies this
      ensures Valid()
      ensures (fresh(info) && fresh(keyVals)) || (info == old(info) && keyVals == old(keyVals))
      ensures if ok then contents == old(contents) else SubMap(contents, old(contents)) && Crowded(hash, old(contents).Keys)
      ensures Shrunk(old(mask) + 1, mask + 1, |old(contents)|)
    {
      hide Laid, Agrees, Taken, RoomToShift, PowerOfTwo, SubMap, Crowded, Tight, CalcMaxNumElementsAllowed, Smallest;
      var newSize := SizeFor(numElements);
      SmallestFacts(newSize, numElements);
      ok := true;
      if newSize < mask + 1 {
        MovableWhenValid();
        ok := RehashPowerOfTwo(newSize);
        TightIsCrowded(hash, multiplier, mask + 1, old(contents).Keys);
      }
    }

    lemma MovableWhenValid()
      requires Valid()
      ensures Unallocated() || (Movable() && mask + 1 >= 8)
    {
    }

    /** Forgets everything and keeps the storage. */
    method Clear()
      requires Valid()
      modifies this`numElements, this`infoInc, this`infoHashShift, this`contents, info
      ensures Valid() && contents == map[] && mask == old(mask)
    {
      hide Laid, Agrees, Taken, RoomToShift, PowerOfTwo;
      LimitWhenUnallocated();
      if numElements == 0 {
        return;
      }
      LaidFacts(Geo(), info[..], keyVals[..]);
      numElements := 0;
      ghost var nodes := keyVals[..];
      assert info as object != keyVals as object;
      forall i | 0 <= i < info.Length {
        info[i] := 0;
      }
      info[keyVals.Length] := 1;
      infoInc, infoHashShift := INITIAL_INFO_INC, 0;
      contents := map[];
      assert keyVals[..] == nodes;
      EmptyLayout(Geo(), info[..], keyVals[..]);
    }
  }

  /** The least table size that may hold n elements. */
  ghost predicate Smallest(size: nat, n: nat) {
    && size >= 8 && PowerOfTwo(size) && CalcMaxNumElementsAllowed(size) >= n
    && (size == 8 || CalcMaxNumElementsAllowed(size / 2) < n)
  }

  lemma SmallestFacts(size: nat, n: nat)
    requires Smallest(size, n)
    ensures size >= 8 && PowerOfTwo(size) && CalcMaxNumElementsAllowed(size) >= n
  {
  }

  /** A table that had size buckets before and has after for n elements. */
  ghost predicate Resized(before: nat, after: nat, n: nat, force: bool) {
    exists size: nat :: Smallest(size, n) && after == if force || size > before then size else before
  }

  ghost predicate Shrunk(before: nat, after: nat, n: nat) {
    exists size: nat :: Smallest(size, n) && after == if size < before then size else before
  }

  lemma {:induction false} Doublings(size: nat, other: nat)
    requires PowerOfTwo(size) && PowerOfTwo(other) && size < other
    ensures size <= other / 2
  {
    if size > 1 {
      Doublings(size / 2, other / 2);
    }
  }

  lemma OneSmallest(size: nat, n: nat)
    requires Smallest(size, n)
    ensures forall other :: Smallest(other, n) ==> other == size
    ensures forall other :: other >= 8 && PowerOfTwo(other) && CalcMaxNumElementsAllowed(other) >= n ==> size <= other
  {
    forall other: nat | other >= 8 && PowerOfTwo(other) && CalcMaxNumElementsAllowed(other) >= n
      ensures size <= other && (Smallest(other, n) ==> other == size)
    {
      if size < other {
        Doublings(size, other);
      } else if other < size {
        Doublings(other, size);
      }
    }
  }

  lemma TightIsCrowded<K>(hash: (K, nat) -> nat, m: HashMultiplier, b: nat, keys: set<K>)
    requires b >= 8 && |keys| <= CalcMaxNumElementsAllowed(b)
    ensures Tight(hash, m, b, keys) ==> Crowded(hash, keys)
  {
  }

  lemma WordAtOnce(info: seq<int>, bytes: seq<int>, i: nat)
    requires i + 8 <= |info| == |bytes| && Bytes(info) && forall m :: i <= m < |bytes| ==> info[m] == bytes[m]
    ensures forall j :: 0 <= j < 8 ==> ByteOf(HalfWord(Loaded(info, i)), j) as int == bytes[i + j] / 2
  {
    hide HalfWord, Loaded, ByteOf;
    forall j | 0 <= j < 8
      ensures ByteOf(HalfWord(Loaded(info, i)), j) as int == bytes[i + j] / 2
    {
      WordHalvesEachByte(info, i, j);
    }
  }

  lemma HomeInUnallocated<K>(g: Geometry<K>, k: K)
    requires g.buckets > 0
    ensures g.buckets == 1 ==> g.Home(k) == 0
  {
  }

  lemma NothingStored<K, V>(info: seq<int>, kv: seq<Node<K, V>>)
    requires |kv| <= |info|
    ensures Stored(info, kv, 0) == map[]
  {
  }

  lemma BufferSize(n: nat)
    ensures CalcNumElementsWithBuffer(1) == 1
    ensures n >= 8 ==> CalcNumElementsWithBuffer(n) > 8
  {
  }

  lemma CapacityGrows(n: nat)
    ensures CalcMaxNumElementsAllowed(n) <= CalcMaxNumElementsAllowed(2 * n)
    ensures n >= 8 ==> 0 < CalcMaxNumElementsAllowed(n) < CalcMaxNumElementsAllowed(2 * n)
    ensures CalcMaxNumElementsAllowed(8) == 6
    ensures PowerOfTwo(n) && n > 0 ==> PowerOfTwo(2 * n)
    ensures PowerOfTwo(INITIAL_NUM_ELEMENTS)
  {
  }

  lemma SubMapItself<K, V>(m: map<K, V>)
    ensures SubMap(m, m)
  {
  }
}
