/** The address-dispatch table of emu/core/bus.cpp: `map` claims the first free id and paints a range with it,
    `remap` swaps the handlers of a painted area. */
module BusTable {

  const TABSIZ: nat := 16

  /** A mapping as the caller requested it, with the handlers it has now. */
  datatype Area<+R, +W> = Area(start: nat, end: nat, reader: R, writer: W)

  predicate Covers<R, W>(area: Area<R, W>, addr: nat) {
    area.start <= addr < area.end
  }

  ghost predicate Covered<R, W>(areas: seq<Area<R, W>>, addr: nat) {
    exists i :: 0 <= i < |areas| && Covers(areas[i], addr)
  }

  /** The most recent mapping that covers an address. */
  ghost function Latest<R, W>(areas: seq<Area<R, W>>, addr: nat): (i: nat)
    requires Covered(areas, addr)
    ensures i < |areas| && Covers(areas[i], addr)
  {
    var last := |areas| - 1;
    if Covers(areas[last], addr) then last
    else
      assert Covered(areas[..last], addr) by {
        var j :| 0 <= j < |areas| && Covers(areas[j], addr);
        assert areas[..last][j] == areas[j];
      }
      Latest(areas[..last], addr)
  }

  lemma {:induction false} NoneLater<R, W>(areas: seq<Area<R, W>>, addr: nat, j: nat)
    requires Covered(areas, addr) && j < |areas| && Covers(areas[j], addr)
    ensures j <= Latest(areas, addr)
  {
    var last := |areas| - 1;
    if !Covers(areas[last], addr) {
      assert areas[..last][j] == areas[j];
      NoneLater(areas[..last], addr, j);
    }
  }

  lemma LatestUnique<R, W>(areas: seq<Area<R, W>>, addr: nat, i: nat)
    requires i < |areas| && Covers(areas[i], addr)
    requires forall j :: i < j < |areas| ==> !Covers(areas[j], addr)
    ensures Covered(areas, addr) && Latest(areas, addr) == i
  {
    NoneLater(areas, addr, i);
  }

  /** A new mapping wins where it applies and changes nothing elsewhere. */
  lemma LatestAfterMap<R, W>(areas: seq<Area<R, W>>, area: Area<R, W>, addr: nat)
    requires Covered(areas + [area], addr)
    ensures !Covers(area, addr) ==> Covered(areas, addr)
    ensures Latest(areas + [area], addr) == if Covers(area, addr) then |areas| else Latest(areas, addr)
  {
    var all := areas + [area];
    if Covers(area, addr) {
      LatestUnique(all, addr, |areas|);
    } else {
      var j :| 0 <= j < |all| && Covers(all[j], addr);
      assert areas[j] == all[j];
      var i := Latest(areas, addr);
      assert all[i] == areas[i];
      forall k | i < k < |all| ensures !Covers(all[k], addr) {
        if k < |areas| && Covers(areas[k], addr) {
          NoneLater(areas, addr, k);
        }
      }
      LatestUnique(all, addr, i);
    }
  }

  /** Handlers do not matter for who is latest. */
  lemma LatestAfterRemap<R, W>(areas: seq<Area<R, W>>, id: nat, area: Area<R, W>, addr: nat)
    requires id < |areas| && area.start == areas[id].start && area.end == areas[id].end
    ensures Covered(areas[id := area], addr) <==> Covered(areas, addr)
    ensures Covered(areas, addr) ==> Latest(areas[id := area], addr) == Latest(areas, addr)
  {
    var all := areas[id := area];
    assert forall j :: 0 <= j < |all| ==> (Covers(all[j], addr) <==> Covers(areas[j], addr));
    if Covered(areas, addr) {
      var i := Latest(areas, addr);
      forall k | i < k < |all| ensures !Covers(all[k], addr) {
        if Covers(areas[k], addr) {
          NoneLater(areas, addr, k);
        }
      }
      LatestUnique(all, addr, i);
    }
  }

  class Bus<R(0), W(0)> {
    var lookup: array<int>
    var readtab: array<R>
    var writetab: array<W>
    var claimed: array<bool>
    ghost var areas: seq<Area<R, W>>

    ghost predicate Shape()
      reads this
    {
      && readtab.Length == writetab.Length == claimed.Length == TABSIZ
      && readtab as object != writetab && lookup as object != readtab && lookup as object != writetab
      && claimed as object != readtab && claimed as object != writetab
      && |areas| <= TABSIZ
      && forall i :: 0 <= i < |areas| ==> areas[i].start <= areas[i].end <= lookup.Length
    }

    /** Used ids are the first ones, hold the handlers of their mappings, and every covered address carries the
        id of the latest mapping covering it. Uncovered entries hold anything. */
    ghost predicate Valid()
      reads this, lookup, readtab, writetab, claimed
    {
      && Shape()
      && (forall i :: 0 <= i < TABSIZ ==> (claimed[i] <==> i < |areas|))
      && (forall i :: 0 <= i < |areas| ==> readtab[i] == areas[i].reader && writetab[i] == areas[i].writer)
      && (forall a :: 0 <= a < lookup.Length && Covered(areas, a) ==> lookup[a] == Latest(areas, a))
    }

    /** `Bus(size)`. */
    constructor (size: nat)
      ensures Valid() && areas == [] && lookup.Length == size
      ensures fresh(lookup) && fresh(readtab) && fresh(writetab) && fresh(claimed)
    {
      lookup := new int[size];
      readtab := new R[TABSIZ];
      writetab := new W[TABSIZ];
      claimed := new bool[TABSIZ](_ => false);
      areas := [];
    }

    /** `reset`: a table of the new size with every id free again; old handlers stay in their slots, unused. */
    method Reset(newsize: nat)
      requires Valid()
      modifies this`lookup, this`areas, claimed
      ensures Valid() && areas == [] && lookup.Length == newsize && fresh(lookup)
    {
      lookup := new int[newsize];
      for i := 0 to TABSIZ
        invariant readtab == old(readtab) && writetab == old(writetab) && claimed == old(claimed) && areas == old(areas)
        invariant fresh(lookup) && lookup.Length == newsize && claimed.Length == TABSIZ
        invariant forall k :: 0 <= k < i ==> !claimed[k]
      {
        claimed[i] := false;
      }
      areas := [];
    }

    method Map(start: nat, end: nat, reader: R, writer: W)
      requires Valid() && |areas| < TABSIZ && start <= end <= lookup.Length
      modifies this`areas, lookup, readtab, writetab, claimed
      ensures Valid() && lookup == old(lookup)
      ensures areas == old(areas) + [Area(start, end, reader, writer)]
    {
      var id := 0;
      while claimed[id]
        invariant 0 <= id <= |areas|
        decreases |areas| - id
      {
        id := id + 1;
      }
      claimed[id] := true;
      readtab[id] := reader;
      writetab[id] := writer;
      Fill(start, end, id);
      ghost var area := Area(start, end, reader, writer);
      ghost var before := areas;
      forall a | 0 <= a < lookup.Length && Covered(before + [area], a)
        ensures lookup[a] == Latest(before + [area], a)
      {
        LatestAfterMap(before, area, a);
      }
      areas := areas + [area];
    }

    /** `std::fill` over the painted range. */
    method Fill(start: nat, end: nat, id: int)
      requires start <= end <= lookup.Length
      modifies lookup
      ensures forall a :: 0 <= a < lookup.Length ==> lookup[a] == if start <= a < end then id else old(lookup[a])
    {
      for i := start to end
        invariant forall a :: 0 <= a < lookup.Length ==> lookup[a] == if start <= a < i then id else old(lookup[a])
      {
        lookup[i] := id;
      }
    }

    /** Accepted when the range starts and ends where an area's paint does; then that area's handlers change. */
    method Remap(start: nat, end: nat, reader: R, writer: W) returns (accepted: bool)
      requires Valid() && start < end <= lookup.Length && Covered(areas, start)
      modifies this`areas, readtab, writetab
      ensures Valid()
      ensures accepted == ((start == 0 || lookup[start - 1] != lookup[start]) && lookup[end - 1] == lookup[start])
      ensures var id := Latest(old(areas), start);
              areas == if accepted then old(areas)[id := old(areas)[id].(reader := reader, writer := writer)]
                       else old(areas)
    {
      var id := lookup[start];
      if start != 0 && lookup[start - 1] == id {
        return false;
      }
      if lookup[end - 1] != id {
        return false;
      }
      readtab[id] := reader;
      writetab[id] := writer;
      ghost var before, area := areas, areas[id].(reader := reader, writer := writer);
      forall a | 0 <= a < lookup.Length && Covered(before[id := area], a)
        ensures lookup[a] == Latest(before[id := area], a)
      {
        LatestAfterRemap(before, id, area, a);
      }
      areas := areas[id := area];
      return true;
    }

    /** The handlers an access to `addr` goes to. */
    method Dispatch(addr: nat) returns (reader: R, writer: W)
      requires Valid() && addr < lookup.Length && Covered(areas, addr)
      ensures reader == areas[Latest(areas, addr)].reader && writer == areas[Latest(areas, addr)].writer
    {
      reader, writer := readtab[lookup[addr]], writetab[lookup[addr]];
    }
  }

  // ----- Histories -----

  ghost function Handlers<R, W>(areas: seq<Area<R, W>>, addr: nat): (R, W)
    requires Covered(areas, addr)
  {
    var a := areas[Latest(areas, addr)];
    (a.reader, a.writer)
  }

  /** Addresses an area still shows at. */
  ghost predicate Shows<R, W>(areas: seq<Area<R, W>>, id: nat, addr: nat) {
    Covered(areas, addr) && Latest(areas, addr) == id
  }

  /** A remap moves exactly the addresses its area shows at. */
  lemma RemapMovesItsArea<R, W>(areas: seq<Area<R, W>>, id: nat, reader: R, writer: W, addr: nat)
    requires id < |areas| && Covered(areas, addr)
    ensures var after := areas[id := areas[id].(reader := reader, writer := writer)];
            && Covered(after, addr)
            && Handlers(after, addr) == if Shows(areas, id, addr) then (reader, writer) else Handlers(areas, addr)
  {
    LatestAfterRemap(areas, id, areas[id].(reader := reader, writer := writer), addr);
  }

  /** It changes dispatch on the given range and nowhere else if and only if that range is all of the area that
      shows (for handlers that are new to the bus). */
  lemma RemapExact<R, W>(areas: seq<Area<R, W>>, id: nat, reader: R, writer: W, start: nat, end: nat)
    requires id < |areas|
    requires forall i :: 0 <= i < |areas| ==> areas[i].reader != reader
    ensures var after := areas[id := areas[id].(reader := reader, writer := writer)];
            (forall a: nat :: Covered(areas, a) ==>
               Covered(after, a) &&
               Handlers(after, a) == if start <= a < end then (reader, writer) else Handlers(areas, a))
            <==>
            (forall a: nat :: Covered(areas, a) ==> (Shows(areas, id, a) <==> start <= a < end))
  {
    var after := areas[id := areas[id].(reader := reader, writer := writer)];
    forall a: nat | Covered(areas, a)
      ensures Covered(after, a)
      ensures Handlers(after, a) == (if Shows(areas, id, a) then (reader, writer) else Handlers(areas, a))
      ensures Handlers(areas, a).0 != reader
    {
      RemapMovesItsArea(areas, id, reader, writer, a);
    }
  }

  /** The acceptance test looks at three entries only: an area whose middle was painted over by a later mapping
      still passes, and the painted-over part keeps its own handlers. */
  lemma RemapSkipsOverpainted(r1: int, r2: int, r3: int)
    requires r1 != r2 && r2 != r3 && r1 != r3
    ensures var areas := [Area(0, 6, r1, r1), Area(2, 4, r2, r2)];
            var after := areas[0 := areas[0].(reader := r3, writer := r3)];
            && Shows(areas, 0, 0) && Shows(areas, 0, 5) && Shows(areas, 1, 3)
            && Covered(after, 0) && Covered(after, 3)
            && Handlers(after, 0) == (r3, r3) && Handlers(after, 3) == (r2, r2)
  {
    var areas := [Area(0, 6, r1, r1), Area(2, 4, r2, r2)];
    LatestUnique(areas, 0, 0);
    LatestUnique(areas, 5, 0);
    LatestUnique(areas, 3, 1);
    RemapMovesItsArea(areas, 0, r3, r3, 0);
    RemapMovesItsArea(areas, 0, r3, r3, 3);
  }
}
