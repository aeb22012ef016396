/** The mapped block behind a board or a database, and the steps their operations are made of. */
module Heap {
  import opened Bytes
  import opened Probing
  import opened Store

  class Block<X(0)> {
    const data: array<byte>
    const types: array<byte>
    const index: array<Slot<X>>
    var nextpos: int
    var nexttypepos: int
    var remain: int
    var typeremain: int
    var indexcount: int
    ghost var items: seq<Item<X>>   // the live entries, oldest first
    ghost var locs: seq<nat>        // the slot of each

    ghost predicate Valid()
      reads this, data, types, index
    {
      && data != types && index as object != data && index as object != types
      && types.Length == TYPEAREA && index.Length == INDEXSIZE
      && Inv(index[..], data[..], types[..], items, locs, nextpos, nexttypepos, remain, typeremain, indexcount)
    }

    /** A fresh block: the whole file is zeroed, so every slot is never used. */
    constructor (size: nat, blank: X)
      ensures Valid() && fresh(data) && fresh(types) && fresh(index)
      ensures items == [] && locs == [] && data.Length == size && Unused() == INDEXSIZE
    {
      data := new byte[size](_ => 0);
      types := new byte[TYPEAREA](_ => 0);
      index := new Slot<X>[INDEXSIZE](_ => Slot("", 0, 0, false, 0, 0, blank));
      nextpos, nexttypepos := 0, 0;
      remain, typeremain := size, TYPEAREA;
      indexcount := 0;
      items, locs := [], [];
      new;
      TableSizesArePrime();
      AllNeverUsed(Names(index[..]));
    }

    /** The slots that have never been used. */
    ghost function UnusedSlots(): set<nat>
      reads index
    {
      NeverUsed(Names(index[..]))
    }

    ghost function Unused(): nat
      reads index
    {
      |UnusedSlots()|
    }

    /** What a lookup needs in order to end: a never-used slot, or the name itself. */
    ghost predicate LookupEnds(name: string)
      reads index
    {
      exists l :: 0 <= l < index.Length && Stops(Names(index[..]), name, l)
    }

    /** A lookup ends exactly when a never-used slot is left or the name is an entry. */
    lemma LookupEndsExactly(name: string)
      requires Valid() && IsName(name)
      ensures LookupEnds(name) <==> Unused() > 0 || name in Entries(items)
    {
      SomeNeverUsed(Names(index[..]), name);
      LiveNames(index[..], items, locs, name);
    }

    /** The head's counters: entries, and bytes used and left. */
    lemma Counters()
      requires Valid()
      ensures |Entries(items)| == |items| == |locs| == indexcount <= INDEXSIZE - 1
      ensures 0 <= nextpos && 0 <= remain && nextpos + remain == data.Length
      ensures 0 <= nexttypepos && 0 <= typeremain && nexttypepos + typeremain == TYPEAREA
    {
      EntriesCount(items);
    }

    /** Where the type descriptions of the first `i` entries end. */
    ghost function TypeOffset(i: nat): nat
      reads this
      requires i <= |items|
    {
      |Flatten(Typs(items)[..i])|
    }

    /**
     The extents of the live entries, oldest first, tile the used part of the data area: the first starts at 0,
     each ends where the next starts, the last ends at `nextpos`. The type descriptions tile theirs likewise.
     */
    lemma Tiling(i: nat)
      requires Valid() && i < |items|
      ensures |locs| == |items| && locs[i] < index.Length && Live(index[locs[i]])
      ensures i + 1 < |items| ==> locs[i + 1] < index.Length
      ensures var s := index[locs[i]];
              && (i == 0 ==> s.start == 0)
              && s.start + s.size == (if i + 1 < |items| then index[locs[i + 1]].start else nextpos)
      ensures var s := index[locs[i]];
              && (s.typesize > 0 ==> s.typeaddr == TypeOffset(i))
              && TypeOffset(0) == 0 && TypeOffset(i) + s.typesize == TypeOffset(i + 1)
              && TypeOffset(|items|) == nexttypepos
      ensures nextpos + remain == data.Length && nexttypepos + typeremain == TYPEAREA
    {
      hide IndexOk, DistinctNames;
      assert Describes(index[locs[i]], items, i);
      if i + 1 < |items| {
        assert Describes(index[locs[i + 1]], items, i + 1);
      }
      FlattenSplit(Datas(items), i);
      FlattenSplit(Typs(items), i);
      assert Datas(items)[..|items|] == Datas(items) && Typs(items)[..|items|] == Typs(items);
    }

    /** No two live entries share a byte of the data area or of the type area. */
    lemma ExtentsDisjoint(l: nat, m: nat)
      requires Valid() && l < index.Length && m < index.Length && l != m && Live(index[l]) && Live(index[m])
      ensures var s, t := index[l], index[m];
              && (s.start + s.size <= t.start || t.start + t.size <= s.start)
              && (s.typesize > 0 && t.typesize > 0 ==>
                    s.typeaddr + s.typesize <= t.typeaddr || t.typeaddr + t.typesize <= s.typeaddr)
    {
      hide IndexOk, AreaOk, Names, NeverUsed, DistinctNames;
      assert l in locs && m in locs;
      var i :| 0 <= i < |locs| && locs[i] == l;
      var j :| 0 <= j < |locs| && locs[j] == m;
      assert Describes(index[l], items, i) && Describes(index[m], items, j);
      var a, b := if i < j then i else j, if i < j then j else i;
      FlattenMonotone(Datas(items), a, b);
      FlattenMonotone(Typs(items), a, b);
      hide Flatten;
    }

    /** Each entry's slot describes it. */
    lemma LocOf(k: nat)
      requires Valid() && k < |items|
      ensures k < |locs| && locs[k] < index.Length && Describes(index[locs[k]], items, k)
    {
    }

    lemma Distinct()
      requires Valid()
      ensures DistinctNames(items)
    {
    }

    /** The used part of the data area is the entries' bytes end to end. */
    lemma DataIsFlat(k: nat)
      requires Valid() && k < |items|
      ensures |Flatten(Datas(items))| <= data.Length && Flatten(Datas(items)) == data[..|Flatten(Datas(items))|]
      ensures |Flatten(Datas(items)[..k + 1])| == |Flatten(Datas(items)[..k])| + |items[k].data| <= data.Length
      ensures data[DataOffset(k)..DataOffset(k) + |items[k].data|] == items[k].data
    {
      ChunkOf(data[..], Datas(items), k);
      FlattenSplit(Datas(items), k);
      FlattenFront(Datas(items), k + 1);
    }

    lemma SizeOf(k: nat)
      requires Valid() && k < |items|
      ensures k < |locs| && locs[k] < index.Length && index[locs[k]].size == |items[k].data|
    {
    }

    lemma InfoOf(k: nat)
      requires Valid() && k < |items|
      ensures k < |locs| && locs[k] < index.Length && index[locs[k]].extra == items[k].extra
    {
    }

    /** The lookup loop of every operation, over the index alone. */
    static method Probe(index: array<Slot<X>>, name: string) returns (loc: nat, ghost p: nat)
      requires TABLESIZE <= index.Length && Prime(index.Length)
      requires exists l :: 0 <= l < index.Length && Stops(Names(index[..]), name, l)
      ensures loc == At(index.Length, name, p) && StopsFirst(Names(index[..]), name, p)
      ensures index[loc].name == "" || index[loc].name == name
    {
      ghost var names := Names(index[..]);
      LookupEndsIff(names, name);
      ghost var stop: nat :| StopsFirst(names, name, stop);
      hide At, Walk, Names, Hash1, Hash2;
      AtNext(index.Length, name, 0);
      loc := ComputeHash1(name);
      var c := ComputeHash2(name);
      p := 0;
      while index[loc].name != "" && index[loc].name != name
        invariant loc == At(index.Length, name, p) && p <= stop
        invariant forall j :: 0 <= j < p ==> !Stops(names, name, At(index.Length, name, j))
        decreases stop - p
      {
        NameAt(index[..], loc);
        AtNext(index.Length, name, p);
        loc, p := (loc + c) % index.Length, p + 1;
      }
      NameAt(index[..], loc);
    }

    /** Slot of the live item called `name`, or a never-used slot. */
    method Find(name: string) returns (loc: nat, ghost k: int)
      requires Valid() && IsName(name) && LookupEnds(name)
      ensures loc < index.Length && (index[loc].name == "" || index[loc].name == name)
      ensures k == Position(items, name)
      ensures index[loc].name == name <==> k >= 0
      ensures name in Entries(items) <==> k >= 0
      ensures k >= 0 ==> !index[loc].erased && locs[k] == loc && Describes(index[loc], items, k)
      ensures k >= 0 ==> Entries(items)[name] == items[k]
      ensures k >= 0 ==> index[loc].size == |items[k].data| && index[loc].extra == items[k].extra
    {
      ghost var p;
      loc, p := Probe(index, name);
      k := Position(items, name);
      FoundItem(index[..], items, locs, name, p);
    }

    /** The slot search of a creation: the first slot on the path that is never used or a tombstone. */
    static method ProbeFree(index: array<Slot<X>>, name: string, ghost free: nat) returns (loc: nat, ghost p: nat)
      requires TABLESIZE <= index.Length && Prime(index.Length)
      requires free < index.Length && !Live(index[free])
      ensures loc == At(index.Length, name, p) && FreeAt(index[..], name, p) && !Live(index[loc])
    {
      ghost var stop := ProbeOf(index.Length, name, free);
      hide Walk, Hash1, Hash2;
      AtNext(index.Length, name, 0);
      hide At;
      loc := ComputeHash1(name);
      var c := ComputeHash2(name);
      p := 0;
      while index[loc].name != "" && !index[loc].erased
        invariant loc == At(index.Length, name, p) && p <= stop
        invariant forall j :: 0 <= j < p ==> Live(index[At(index.Length, name, j)])
        decreases stop - p
      {
        AtNext(index.Length, name, p);
        loc, p := (loc + c) % index.Length, p + 1;
      }
    }

    method FindFree(name: string) returns (loc: nat, ghost p: nat)
      requires Valid() && IsName(name)
      ensures loc == At(INDEXSIZE, name, p) && FreeAt(index[..], name, p) && !Live(index[loc])
    {
      ghost var free := FreeSlot(index[..], items, locs);
      loc, p := ProbeFree(index, name, free);
    }

    /** Copy `src` into `a` at `pos`. */
    static method Copy(a: array<byte>, pos: nat, src: seq<byte>)
      requires pos + |src| <= a.Length
      modifies a
      ensures a[..] == old(a[..pos]) + src + old(a[pos + |src|..])
    {
      forall i | 0 <= i < |src| {
        a[pos + i] := src[i];
      }
    }

    /** `memmove` everything after the `n` bytes at `pos` down over them. */
    static method MoveDown(a: array<byte>, pos: nat, n: nat)
      requires pos + n <= a.Length
      modifies a
      ensures a[..a.Length - n] == old(a[..pos] + a[pos + n..])
    {
      forall i | pos <= i < a.Length - n {
        a[i] := a[i + n];
      }
    }

    /** Append a type description to the type area when it is kept; report where it went and its length. */
    method TakeType(typ: seq<byte>) returns (addr: int, n: nat)
      requires data != types && AreaOk(types[..], Typs(items), nexttypepos, typeremain)
      modifies types, this`nexttypepos, this`typeremain
      ensures n == |KeptType(typ, old(typeremain))| && addr == old(nexttypepos)
      ensures typeremain == old(typeremain) - n
      ensures AreaOk(types[..], Typs(items) + [KeptType(typ, old(typeremain))], nexttypepos, typeremain)
    {
      ghost var area, kept := types[..], KeptType(typ, typeremain);
      addr, n := nexttypepos, 0;
      if typ != [] && |typ| < TYPEMAXSIZE && |typ| < typeremain {
        Copy(types, nexttypepos, typ);
        n := |typ|;
        nexttypepos, typeremain := nexttypepos + n, typeremain - n;
      }
      AppendArea(area, types[..], Typs(items), kept, addr, typeremain + n);
    }

    /** The item a creation adds: its bytes are whatever the next `size` bytes of the data area hold. */
    ghost function NewItem(name: string, size: nat, typ: seq<byte>, extra: X): Item<X>
      reads this, data
      requires 0 <= nextpos && nextpos + size <= data.Length
    {
      Item(name, data[nextpos..nextpos + size], KeptType(typ, typeremain), extra)
    }

    /** The memory part of a creation: the type description, then the slot. */
    method Enter(loc: nat, ghost p: nat, name: string, size: nat, typ: seq<byte>, extra: X)
      requires Valid() && IsName(name) && Position(items, name) < 0
      requires FreeAt(index[..], name, p) && loc == At(INDEXSIZE, name, p)
      requires size <= remain && indexcount < INDEXSIZE - 1
      modifies index, types, this`nexttypepos, this`typeremain
      ensures index[loc].name == name && index[loc].extra == extra && index[..] == old(index[..])[loc := index[loc]]
      ensures var it := old(NewItem(name, size, typ, extra));
              && Inv(index[..], data[..], types[..], items + [it], locs + [loc],
                     nextpos + size, nexttypepos, remain - size, typeremain, indexcount + 1)
              && Entries(items + [it]) == Entries(items)[name := it]
              && typeremain == old(typeremain) - |it.typ|
    {
      hide IndexOk, Agree, FreeAt, DistinctNames, Entries, NameSet, Names, NeverUsed, KeptType, IsName, At, Position;
      ghost var ix, ts, nt, tr := index[..], types[..], nexttypepos, typeremain;
      ghost var it := NewItem(name, size, typ, extra);
      hide AreaOk, Flatten, Datas, Typs;
      var addr, n := TakeType(typ);
      var stale := index[loc];
      index[loc] := Slot(name, nextpos, size, false, if n > 0 then addr else stale.typeaddr, n, extra);
      AllocateInv(ix, data[..], ts, types[..], items, locs, nextpos, nt, nexttypepos, remain, tr, typeremain,
                  indexcount, loc, p, index[loc], it);
      assert index[..] == ix[loc := index[loc]];
    }

    /** Take slot `loc` and the next `size` bytes for a new item. */
    method Allocate(loc: nat, ghost p: nat, name: string, size: nat, typ: seq<byte>, extra: X)
      requires Valid() && IsName(name) && Position(items, name) < 0
      requires FreeAt(index[..], name, p) && loc == At(INDEXSIZE, name, p)
      requires size <= remain && indexcount < INDEXSIZE - 1
      modifies this, index, types
      ensures Valid()
      ensures items == old(items + [NewItem(name, size, typ, extra)]) && locs == old(locs) + [loc]
      ensures Entries(items) == old(Entries(items)[name := NewItem(name, size, typ, extra)])
      ensures remain == old(remain) - size && typeremain == old(typeremain) - |KeptType(typ, old(typeremain))|
      ensures Unused() == old(Unused()) - if old(index[loc]).name == "" then 1 else 0
      ensures index[loc].extra == extra && forall l :: 0 <= l < index.Length && l != loc ==> index[l] == old(index[l])
    {
      hide IndexOk, Agree, FreeAt, DistinctNames, Entries, NameSet;
      ghost var it := NewItem(name, size, typ, extra);
      ghost var before := index[..];
      Enter(loc, p, name, size, typ, extra);
      hide Inv, AreaOk;
      ghost var ix, ds, ts := index[..], data[..], types[..];
      nextpos, remain, indexcount := nextpos + size, remain - size, indexcount + 1;
      items, locs := items + [it], locs + [loc];
      assert index[..] == ix && data[..] == ds && types[..] == ts;
      Renamed(before, loc, index[loc]);
    }

    static lemma Renamed(ix: seq<Slot<X>>, loc: nat, s: Slot<X>)
      requires loc < |ix| && s.name != ""
      ensures |NeverUsed(Names(ix[loc := s]))| == |NeverUsed(Names(ix))| - if ix[loc].name == "" then 1 else 0
    {
      NeverUsedAfter(Names(ix), loc, s.name);
      assert Names(ix[loc := s]) == Names(ix)[loc := s.name];
    }

    /** The slot walk of a deletion: move every live slot's starts past the hole. */
    static method ShiftSlots(index: array<Slot<X>>, pos: int, size: int, typepos: int, typesize: int)
      modifies index
      ensures forall l :: 0 <= l < index.Length ==> index[l] == Shifted(old(index[l]), pos, size, typepos, typesize)
    {
      for i := 0 to index.Length
        invariant forall l :: 0 <= l < i ==> index[l] == Shifted(old(index[l]), pos, size, typepos, typesize)
        invariant forall l :: i <= l < index.Length ==> index[l] == old(index[l])
      {
        if index[i].name != "" && !index[i].erased {
          if index[i].start > pos {
            index[i] := index[i].(start := index[i].start - size);
          }
          if index[i].typeaddr > typepos {
            index[i] := index[i].(typeaddr := index[i].typeaddr - typesize);
          }
        }
      }
    }

    /** Close the hole an entry leaves in one area. */
    static method CloseGap(area: array<byte>, ghost chunks: seq<seq<byte>>, ghost k: nat, pos: int, n: nat,
                           ghost next: int, ghost remain: int)
      requires AreaOk(area[..], chunks, next, remain) && k < |chunks|
      requires n == |chunks[k]| && (n > 0 ==> pos == |Flatten(chunks[..k])|)
      modifies area
      ensures AreaOk(area[..], Without(chunks, k), next - n, remain + n)
    {
      hide AreaOk, Flatten, Without;
      ghost var was := area[..];
      ReadArea(area[..], chunks, k, next, remain);
      if n > 0 {
        MoveDown(area, pos, n);
      }
      ghost var p := |Flatten(chunks[..k])|;
      assert area[..][..|area[..]| - n] == was[..p] + was[p + n..];
      CompactArea(was, area[..], chunks, k, next, remain);
    }

    /** Turn slot `loc` into a tombstone and move the other slots' starts. */
    static method Bury(index: array<Slot<X>>, loc: nat)
      requires loc < index.Length
      modifies index
      ensures Deleted(old(index[..]), index[..], loc)
      ensures index[loc].name == MARKER && index[loc].erased
      ensures forall l :: 0 <= l < index.Length ==> index[l].extra == old(index[l]).extra
    {
      var dead := index[loc];
      index[loc] := dead.(name := MARKER, erased := true, typesize := 0);
      ShiftSlots(index, dead.start, dead.size, dead.typeaddr, dead.typesize);
    }

    /** The memory part of a deletion: both areas close up, the slot becomes a tombstone, the others shift. */
    method Compact(loc: nat, ghost k: nat)
      requires Valid() && k < |items| && locs[k] == loc
      requires loc < index.Length && Describes(index[loc], items, k)
      modifies data, types, index
      ensures var n, m := |items[k].data|, |items[k].typ|;
              Inv(index[..], data[..], types[..], Without(items, k), Without(locs, k),
                  nextpos - n, nexttypepos - m, remain + n, typeremain + m, indexcount - 1)
      ensures Entries(Without(items, k)) == Entries(items) - {items[k].name}
      ensures UnusedSlots() == old(UnusedSlots())
      ensures forall l :: 0 <= l < index.Length ==> index[l].extra == old(index[l]).extra
    {
      hide IndexOk, Agree, AreaOk, Deleted, DistinctNames, Entries, NameSet;
      ghost var ix, ds, ts := index[..], data[..], types[..];
      var dead := index[loc];
      CloseGap(data, Datas(items), k, dead.start, dead.size, nextpos, remain);
      CloseGap(types, Typs(items), k, dead.typeaddr, dead.typesize, nexttypepos, typeremain);
      Bury(index, loc);
      DeletedNames(ix, index[..], loc);
      RemoveInv(ix, index[..], ds, data[..], ts, types[..], items, locs, nextpos, nexttypepos, remain, typeremain,
          indexcount, k);
    }

    /** Delete the entry in `loc`. */
    method Remove(loc: nat, ghost k: nat)
      requires Valid() && k < |items| && locs[k] == loc
      requires loc < index.Length && Describes(index[loc], items, k)
      modifies this, data, types, index
      ensures Valid()
      ensures items == old(Without(items, k)) && locs == old(Without(locs, k))
      ensures Entries(items) == old(Entries(items) - {items[k].name})
      ensures remain == old(remain) + |old(items[k].data)| && typeremain == old(typeremain) + |old(items[k].typ)|
      ensures UnusedSlots() == old(UnusedSlots())
      ensures forall l :: 0 <= l < index.Length ==> index[l].extra == old(index[l]).extra
    {
      hide IndexOk, Agree, AreaOk, DistinctNames, Entries, NameSet, Names, NeverUsed;
      var size, typesize := index[loc].size, index[loc].typesize;
      Compact(loc, k);
      hide Inv, Describes, Without;
      ghost var ix, ds, ts := index[..], data[..], types[..];
      nextpos, remain, indexcount := nextpos - size, remain + size, indexcount - 1;
      nexttypepos, typeremain := nexttypepos - typesize, typeremain + typesize;
      items, locs := Without(items, k), Without(locs, k);
      assert index[..] == ix && data[..] == ds && types[..] == ts;
    }

    /** Overwrite the bytes of the entry in `loc` from `off` on. */
    method Put(loc: nat, ghost k: nat, off: nat, src: seq<byte>)
      requires Valid() && k < |items| && locs[k] == loc
      requires loc < index.Length && Describes(index[loc], items, k)
      requires off + |src| <= |items[k].data|
      modifies data, this`items
      ensures Valid()
      ensures items == old(items)[k := old(items[k]).(data := Spliced(old(items[k].data), off, src))]
      ensures Entries(items) == old(Entries(items))[items[k].name := items[k]]
    {
      hide IndexOk, Agree, AreaOk, DistinctNames, Entries, NameSet, Flatten, Names, NeverUsed;
      ghost var was, it := data[..], items[k].(data := Spliced(items[k].data, off, src));
      ReadArea(was, Datas(items), k, nextpos, remain);
      var pos := index[loc].start;
      Copy(data, pos + off, src);
      SpliceArea(was, items[k].data, pos, off, src);
      OverwriteArea(was, data[..], Datas(items), k, it.data, nextpos, remain);
      UpdateInv(index[..], was, data[..], types[..], items, locs, nextpos, nexttypepos, remain, typeremain,
          indexcount, k, it);
      hide Inv;
      assert index[..][loc := index[loc].(extra := it.extra)] == index[..];
      items := items[k := it];
    }

    /** Write `src` at `pos` of the data area, whatever entries lie there. */
    method PutAcross(pos: nat, src: seq<byte>)
      requires Valid() && pos + |src| <= data.Length
      modifies data, this`items
      ensures Valid() && |Flatten(Datas(old(items)))| <= data.Length
      ensures data[..] == Spliced(old(data[..]), pos, src)
      ensures items == Recut(old(items), data[..])
    {
      hide IndexOk, Agree, AreaOk, DistinctNames, Flatten, Recut, Datas;
      ghost var was := data[..];
      Copy(data, pos, src);
      RecutInv(index[..], was, data[..], types[..], items, locs, nextpos, nexttypepos, remain, typeremain, indexcount);
      hide Inv;
      items := Recut(items, data[..]);
    }

    /** Record something else about the entry in `loc`. */
    method SetExtra(loc: nat, ghost k: nat, extra: X)
      requires Valid() && k < |items| && locs[k] == loc
      requires loc < index.Length && Describes(index[loc], items, k)
      modifies index, this`items
      ensures Valid()
      ensures items == old(items)[k := old(items[k]).(extra := extra)]
      ensures Entries(items) == old(Entries(items))[items[k].name := items[k]]
      ensures index[..] == old(index[..])[loc := old(index[loc]).(extra := extra)] && Unused() == old(Unused())
    {
      hide IndexOk, Agree, AreaOk, DistinctNames, Entries, NameSet;
      ghost var ix, it := index[..], items[k].(extra := extra);
      assert Datas(items)[k := it.data] == Datas(items);
      UpdateInv(ix, data[..], data[..], types[..], items, locs, nextpos, nexttypepos, remain, typeremain, indexcount,
          k, it);
      hide Inv;
      index[loc] := index[loc].(extra := extra);
      assert index[..] == ix[loc := ix[loc].(extra := extra)];
      assert Names(index[..]) == Names(ix);
      items := items[k := it];
    }

    /** The bytes of the entry in `loc`. */
    method Get(loc: nat, ghost k: nat) returns (bytes: seq<byte>)
      requires Valid() && k < |items| && locs[k] == loc
      requires loc < index.Length && Describes(index[loc], items, k)
      ensures bytes == items[k].data
    {
      ReadArea(data[..], Datas(items), k, nextpos, remain);
      var pos := index[loc].start;
      bytes := data[pos..pos + index[loc].size];
    }

    /** Where the bytes of the `k`-th entry start. */
    ghost function DataOffset(k: nat): nat
      reads this
      requires k <= |items|
    {
      |Flatten(Datas(items)[..k])|
    }

    /** The data area with the type area behind it, as they lie in the mapped file. */
    ghost function Memory(): seq<byte>
      reads data, types
    {
      data[..] + types[..]
    }

    /** The entry's bytes are those of the memory from its offset on. */
    lemma EntryInMemory(k: nat)
      requires Valid() && k < |items|
      ensures DataOffset(k) + |items[k].data| <= data.Length
      ensures Memory()[DataOffset(k)..DataOffset(k) + |items[k].data|] == items[k].data
    {
      ReadArea(data[..], Datas(items), k, nextpos, remain);
    }

    static lemma RunAcross(a: seq<byte>, b: seq<byte>, pos: nat, n: nat)
      requires pos <= |a| && pos + n <= |a| + |b|
      ensures (a + b)[pos..pos + n] == if pos + n <= |a| then a[pos..pos + n] else a[pos..] + b[..pos + n - |a|]
    {
    }

    /**
     `n` bytes from the start of the entry in `loc`, whatever the size of the entry; nothing when they leave the
     file.
     */
    method GetRun(loc: nat, ghost k: nat, n: nat) returns (bytes: Option<seq<byte>>)
      requires Valid() && k < |items| && locs[k] == loc
      requires loc < index.Length && Describes(index[loc], items, k)
      ensures var pos := DataOffset(k);
              bytes == if pos + n <= |Memory()| then Some(Memory()[pos..pos + n]) else None
    {
      EntryInMemory(k);
      hide Inv;
      bytes := CopyOut(data, types, index[loc].start, n);
    }

    /** `n` bytes from `pos` on of two areas that lie one behind the other. */
    static method CopyOut(a: array<byte>, b: array<byte>, pos: nat, n: nat) returns (bytes: Option<seq<byte>>)
      requires pos <= a.Length
      ensures bytes == if pos + n <= |a[..] + b[..]| then Some((a[..] + b[..])[pos..pos + n]) else None
    {
      if pos + n > a.Length + b.Length {
        return None;
      }
      RunAcross(a[..], b[..], pos, n);
      return Some(if pos + n <= a.Length then a[pos..pos + n] else a[pos..] + b[..pos + n - a.Length]);
    }

    /** The type description of the entry in `loc`. */
    method GetType(loc: nat, ghost k: nat) returns (bytes: seq<byte>)
      requires Valid() && k < |items| && locs[k] == loc
      requires loc < index.Length && Describes(index[loc], items, k)
      ensures bytes == items[k].typ
    {
      bytes := [];
      if index[loc].typesize > 0 {
        ReadArea(types[..], Typs(items), k, nexttypepos, typeremain);
        bytes := types[index[loc].typeaddr..index[loc].typeaddr + index[loc].typesize];
      }
    }

    /** Zero the index and reset the counters; the areas keep their bytes. */
    method Reset(blank: X)
      requires Valid()
      modifies this, index
      ensures Valid()
      ensures items == [] && Entries(items) == map[] && remain == data.Length && typeremain == TYPEAREA
      ensures Unused() == INDEXSIZE
    {
      forall l | 0 <= l < index.Length {
        index[l] := Slot("", 0, 0, false, 0, 0, blank);
      }
      remain, typeremain, nextpos, nexttypepos, indexcount := data.Length, types.Length, 0, 0, 0;
      items, locs := [], [];
      TableSizesArePrime();
      AllNeverUsed(Names(index[..]));
    }

    /** Walk the index and collect the names of the live entries. */
    method LiveEntries() returns (names: seq<string>)
      requires Valid()
      ensures |names| == indexcount
      ensures forall n :: n in names <==> Position(items, n) >= 0
    {
      names := [];
      for i := 0 to index.Length
        invariant names == LiveList(index[..i])
      {
        assert index[..i + 1][..i] == index[..i];
        if index[i].name != "" && !index[i].erased {
          names := names + [index[i].name];
        }
      }
      assert index[..index.Length] == index[..];
      LiveListIsItems(index[..], items, locs);
    }
  }
}
