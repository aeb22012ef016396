/**
 Boards: named tags over a block. Each operation of the API is a method on the block, proved to do to the
 map from names to tags what `Step` says.
 */
module Board {
  import opened Bytes
  import opened Probing
  import opened Store
  import opened Heap

  /** `strlenth` as stored; `written` remembers whether a string was written since the tag was created. */
  datatype StringInfo = StringInfo(strlenth: nat, written: bool)

  type Board = Block<StringInfo>

  /** A tag as callers know it. The string length is only known after a string write. */
  datatype Tag = Tag(data: seq<byte>, typ: seq<byte>, strlen: Option<nat>)

  datatype Status =
    | Ok
    | ParameterSize
    | TagNotExist
    | RecordSize
    | StringTooLong
    | BufferTooSmall
    | OutsideBlock
    | ItemNotExist
    | ItemAlreadyExist
    | NoSpace
    | ItemOverflow

  datatype State = State(tags: map<string, Tag>, capacity: nat, room: int, typeroom: int)

  datatype Op =
    | Create(name: string, size: nat, typ: seq<byte>)
    | Delete(name: string)
    | Write(name: string, bytes: seq<byte>)
    | WritePart(name: string, size: nat, off: nat, part: seq<byte>)
    | WriteString(name: string, str: seq<byte>)
    | Clear

  datatype Outcome = Outcome(state: State, status: Status)

  /** What each operation does to the tags, and what it reports. */
  function Step(s: State, op: Op): Outcome {
    match op
    case Create(name, size, typ) =>
      if |typ| > TYPEMAXSIZE then Outcome(s, ParameterSize)
      else if name in s.tags then Outcome(s, ItemAlreadyExist)
      else if s.room < size then Outcome(s, NoSpace)
      else if |s.tags| == INDEXSIZE - 1 then Outcome(s, ItemOverflow)
      else
        var kept := KeptType(typ, s.typeroom);
        Outcome(State(s.tags[name := Tag(Zeros(size), kept, None)], s.capacity, s.room - size, s.typeroom - |kept|), Ok)
    case Delete(name) =>
      if name !in s.tags then Outcome(s, ItemNotExist)
      else
        var t := s.tags[name];
        Outcome(State(s.tags - {name}, s.capacity, s.room + |t.data|, s.typeroom + |t.typ|), Ok)
    case Write(name, bytes) =>
      if name !in s.tags then Outcome(s, TagNotExist)
      else if |s.tags[name].data| != |bytes| then Outcome(s, RecordSize)
      else Outcome(s.(tags := s.tags[name := s.tags[name].(data := bytes)]), Ok)
    case WritePart(name, size, off, part) =>
      if name !in s.tags then Outcome(s, TagNotExist)
      else if |s.tags[name].data| != size || off + |part| > size then Outcome(s, RecordSize)
      else Outcome(s.(tags := s.tags[name := s.tags[name].(data := Spliced(s.tags[name].data, off, part))]), Ok)
    case WriteString(name, str) =>
      if name !in s.tags then Outcome(s, TagNotExist)
      else if |s.tags[name].data| < |str| then Outcome(s, StringTooLong)
      else
        var t := s.tags[name];
        Outcome(s.(tags := s.tags[name := t.(data := str + Zeros(|t.data| - |str|), strlen := Some(|str|))]), Ok)
    case Clear =>
      Outcome(State(map[], s.capacity, s.capacity, TYPEAREA), Ok)
  }

  // ---- The abstract state of a block ----

  function TagOf(it: Item<StringInfo>): Tag {
    Tag(it.data, it.typ, if it.extra.written then Some(it.extra.strlenth) else None)
  }

  function Tags(m: map<string, Item<StringInfo>>): (t: map<string, Tag>)
    ensures t.Keys == m.Keys
  {
    map n | n in m :: TagOf(m[n])
  }

  ghost predicate StringsFit(items: seq<Item<StringInfo>>) {
    forall i :: 0 <= i < |items| && items[i].extra.written ==> items[i].extra.strlenth <= |items[i].data|
  }

  ghost predicate Valid(b: Board)
    reads b, b.data, b.types, b.index
  {
    b.Valid() && StringsFit(b.items)
  }

  ghost function Abs(b: Board): State
    reads b
  {
    State(Tags(Entries(b.items)), b.data.Length, b.remain, b.typeremain)
  }

  lemma TagsUpdate(m: map<string, Item<StringInfo>>, n: string, it: Item<StringInfo>)
    ensures Tags(m[n := it]) == Tags(m)[n := TagOf(it)]
  {
  }

  lemma TagCount(m: map<string, Item<StringInfo>>)
    ensures |Tags(m)| == |m|
  {
    assert Tags(m).Keys == m.Keys;
  }

  // ---- The operations ----

  method CreateB(size: nat) returns (b: Board)
    ensures Valid(b) && fresh(b) && fresh(b.data) && fresh(b.types) && fresh(b.index)
    ensures Abs(b) == State(map[], size, size, TYPEAREA)
    ensures b.Unused() == INDEXSIZE && b.items == [] && b.locs == []
  {
    b := new Block(size, StringInfo(0, false));
    assert Entries(b.items) == map[];
  }

  /** Enter a new tag and zero its bytes. The slot's string length stays whatever it was. */
  method AddZeroed(b: Board, loc: nat, ghost p: nat, name: string, size: nat, typ: seq<byte>)
    requires Valid(b) && IsName(name) && Position(b.items, name) < 0
    requires FreeAt(b.index[..], name, p) && loc == At(INDEXSIZE, name, p)
    requires size <= b.remain && b.indexcount < INDEXSIZE - 1
    modifies b, b.index, b.data, b.types
    ensures Valid(b)
    ensures b.remain == old(b.remain) - size && b.typeremain == old(b.typeremain) - |KeptType(typ, old(b.typeremain))|
    ensures Tags(Entries(b.items))
      == old(Tags(Entries(b.items)))[name := Tag(Zeros(size), KeptType(typ, old(b.typeremain)), None)]
    ensures b.Unused() == old(b.Unused()) - if old(b.index[loc]).name == "" then 1 else 0
    ensures b.locs == old(b.locs) + [loc] && |b.items| == |old(b.items)| + 1
    ensures b.items[|old(b.items)|].name == name
    ensures b.items[|old(b.items)|].extra == StringInfo(old(b.index[loc]).extra.strlenth, false)
  {
    hide Inv, Entries, NameSet, IndexOk, Agree, AreaOk, FreeAt, KeptType, Names, NeverUsed;
    b.Counters();
    var extra := StringInfo(b.index[loc].extra.strlenth, false);
    ghost var m, it := Entries(b.items), b.NewItem(name, size, typ, extra);
    b.Allocate(loc, p, name, size, typ, extra);
    ghost var k := |b.items| - 1;
    b.Counters();
    b.LocOf(k);
    b.Put(loc, k, 0, Zeros(size));
    SplicedAll(it.data, Zeros(size));
    assert Entries(b.items) == m[name := b.items[k]];
    TagsUpdate(m, name, b.items[k]);
  }

  /** A creation takes the first slot on the path of `name` that is free, and with it the string length left there. */
  ghost predicate TookSlot(ix: seq<Slot<StringInfo>>, items: seq<Item<StringInfo>>, locs: seq<nat>,
                           items': seq<Item<StringInfo>>, locs': seq<nat>, name: string) {
    && |ix| == INDEXSIZE && |items'| == |items| + 1 && items'[|items|].name == name
    && exists p: nat :: FreeAt(ix, name, p) && TookAt(ix, items, locs, items', locs', At(INDEXSIZE, name, p))
  }

  ghost predicate TookAt(ix: seq<Slot<StringInfo>>, items: seq<Item<StringInfo>>, locs: seq<nat>,
                         items': seq<Item<StringInfo>>, locs': seq<nat>, loc: nat) {
    && loc < |ix| && |items'| == |items| + 1 && locs' == locs + [loc]
    && items'[|items|].extra == StringInfo(ix[loc].extra.strlenth, false)
  }

  /** The slot taken last counts if it was never used before. */
  ghost predicate UsedUp(ix: seq<Slot<StringInfo>>, unused: nat, unused': nat, locs': seq<nat>) {
    && locs' != [] && locs'[|locs'| - 1] < |ix|
    && unused' == unused - if ix[locs'[|locs'| - 1]].name == "" then 1 else 0
  }

  method CreateItem(b: Board, name: string, size: nat, typ: seq<byte>) returns (status: Status)
    requires Valid(b) && IsName(name) && b.LookupEnds(name)
    modifies b, b.index, b.data, b.types
    ensures Valid(b)
    ensures Outcome(Abs(b), status) == Step(old(Abs(b)), Create(name, size, typ))
    ensures b.Unused() <= old(b.Unused()) <= b.Unused() + if status == Ok then 1 else 0
    ensures status == Ok ==> TookSlot(old(b.index[..]), old(b.items), old(b.locs), b.items, b.locs, name)
    ensures status == Ok ==> UsedUp(old(b.index[..]), old(b.Unused()), b.Unused(), b.locs)
  {
    hide Inv, Entries, NameSet, Describes, FreeAt, StringsFit, KeptType, Names, NeverUsed;
    if |typ| > TYPEMAXSIZE {
      return ParameterSize;
    }
    var loc, k := b.Find(name);
    if b.index[loc].name == name && !b.index[loc].erased {
      return ItemAlreadyExist;
    }
    if b.remain < size {
      return NoSpace;
    }
    ghost var p;
    loc, p := b.FindFree(name);
    TagCount(Entries(b.items));
    b.Counters();
    if b.indexcount == INDEXSIZE - 1 {
      return ItemOverflow;
    }
    ghost var ix, items, locs := b.index[..], b.items, b.locs;
    AddZeroed(b, loc, p, name, size, typ);
    assert TookSlot(ix, items, locs, b.items, b.locs, name);
    return Ok;
  }

  /** A deletion gives up the slot of the tag and no other. */
  ghost predicate ForgotSlot(items: seq<Item<StringInfo>>, locs: seq<nat>, locs': seq<nat>, name: string) {
    var k := Position(items, name);
    0 <= k < |locs| && locs' == Without(locs, k)
  }

  method DeleteItem(b: Board, name: string) returns (status: Status)
    requires Valid(b) && IsName(name) && b.LookupEnds(name)
    modifies b, b.index, b.data, b.types
    ensures Valid(b)
    ensures Outcome(Abs(b), status) == Step(old(Abs(b)), Delete(name))
    ensures b.UnusedSlots() == old(b.UnusedSlots())
    ensures status == Ok ==> |b.items| == |old(b.items)| - 1 && ForgotSlot(old(b.items), old(b.locs), b.locs, name)
    ensures forall l :: 0 <= l < b.index.Length ==> b.index[l].extra == old(b.index[l]).extra
  {
    hide Inv, Entries, NameSet, Describes, Names, NeverUsed;
    var loc, k := b.Find(name);
    if b.index[loc].name == "" || b.index[loc].erased {
      return ItemNotExist;
    }
    b.LocOf(k);
    b.Remove(loc, k);
    return Ok;
  }

  /** With no part given the whole item is written. */
  method WriteB(b: Board, name: string, bytes: seq<byte>) returns (status: Status)
    requires Valid(b) && IsName(name) && b.LookupEnds(name)
    modifies b, b.data
    ensures Valid(b)
    ensures Outcome(Abs(b), status) == Step(old(Abs(b)), Write(name, bytes))
  {
    hide Inv, Entries, NameSet, Describes;
    var loc, k := b.Find(name);
    if b.index[loc].name == "" || b.index[loc].erased {
      return TagNotExist;
    }
    if b.index[loc].size != |bytes| {
      return RecordSize;
    }
    SplicedAll(b.items[k].data, bytes);
    b.Put(loc, k, 0, bytes);
    return Ok;
  }

  /**
   A part of the item: `part` is what lies `off` bytes behind the start of the caller's buffer of `size` bytes. Nothing
   keeps `off` from being negative; then the write begins in front of the item.
   */
  method WriteBPart(b: Board, name: string, size: nat, off: int, part: seq<byte>) returns (status: Status)
    requires Valid(b) && IsName(name) && b.LookupEnds(name)
    modifies b, b.data
    ensures Valid(b) && b.locs == old(b.locs)
    ensures off >= 0 ==> Outcome(Abs(b), status) == Step(old(Abs(b)), WritePart(name, size, off, part))
    ensures off < 0 ==>
      && (status == TagNotExist <==> name !in old(Abs(b)).tags)
      && (status == RecordSize <==>
            name in old(Abs(b)).tags && (|old(Abs(b)).tags[name].data| != size || off + |part| > size))
      && (status == Ok || status == TagNotExist || status == RecordSize || status == OutsideBlock)
      && (status == OutsideBlock ==> name in old(Abs(b)).tags && old(StartOf(b, name)) + off < 0)
      && (status == Ok ==>
            && name in old(Abs(b)).tags && old(StartOf(b, name)) + off >= 0
            && WroteInFront(old(Abs(b)), Abs(b), old(b.data[..]), name, old(StartOf(b, name)) + off, -off, part))
    ensures status != Ok ==> Abs(b) == old(Abs(b))
  {
    hide Inv, Entries, NameSet, Describes, WroteInFront, Flatten, Recut, Spliced;
    var loc, k := b.Find(name);
    if b.index[loc].name == "" || b.index[loc].erased {
      return TagNotExist;
    }
    if b.index[loc].size != size || off + |part| > size {
      return RecordSize;
    }
    if off >= 0 {
      b.Put(loc, k, off, part);
      return Ok;
    }
    var start := StartInSlot(b, loc, k);
    if start + off < 0 {
      return OutsideBlock;
    }
    status := PutInFront(b, k, start + off, -off, part);
  }

  method StartInSlot(b: Board, loc: nat, ghost k: nat) returns (start: nat)
    requires Valid(b) && k < |b.items| && b.locs[k] == loc && loc < b.index.Length
    ensures start == b.DataOffset(k)
  {
    b.LocOf(k);
    start := b.index[loc].start;
  }

  /**
   The tag has its share of the part; the other tags are as before exactly when the bytes in front of it are written
   back as they were.
   */
  ghost predicate WroteInFront(s: State, s': State, area: seq<byte>, name: string, pos: nat, front: nat,
                               part: seq<byte>) {
    && name in s.tags && s'.tags.Keys == s.tags.Keys && s' == s.(tags := s'.tags) && pos + front <= |area|
    && (forall n :: n in s.tags ==> s'.tags[n] == s.tags[n].(data := s'.tags[n].data))
    && (if |part| <= front then s'.tags[name] == s.tags[name]
        else
          && |part| - front <= |s.tags[name].data|
          && s'.tags[name].data == Spliced(s.tags[name].data, 0, part[front..]))
    && (OthersStay(s.tags, s'.tags, name) <==> (forall i :: 0 <= i < |part| && i < front ==> part[i] == area[pos + i]))
  }

  method PutInFront(b: Board, ghost k: nat, pos: nat, ghost front: nat, part: seq<byte>) returns (status: Status)
    requires Valid(b) && k < |b.items| && front > 0 && pos + front == b.DataOffset(k)
    requires |part| <= front + |b.items[k].data|
    modifies b, b.data
    ensures Valid(b) && status == Ok && b.locs == old(b.locs)
    ensures WroteInFront(old(Abs(b)), Abs(b), old(b.data[..]), old(b.items)[k].name, pos, front, part)
  {
    hide Entries, NameSet, Describes, WroteInFront, Flatten, Recut, Spliced, Inv;
    ghost var items, area := b.items, b.data[..];
    b.Distinct();
    b.DataIsFlat(k);
    b.PutAcross(pos, part);
    assert StringsFit(b.items) by { RecutShapes(items, b.data[..]); }
    FrontWritten(items, area, b.data[..], k, pos, front, part, old(Abs(b)), Abs(b));
    status := Ok;
  }

  /** What a tag becomes when the area is cut anew. */
  lemma TagsRecut(items: seq<Item<StringInfo>>, area: seq<byte>, n: string)
    requires DistinctNames(items) && |Flatten(Datas(items))| <= |area|
    ensures
      var i := Position(items, n);
      && (n in Tags(Entries(items)) <==> i >= 0) && (n in Tags(Entries(Recut(items, area))) <==> i >= 0)
      && (i >= 0 ==> Tags(Entries(items))[n] == TagOf(items[i])
                     && Tags(Entries(Recut(items, area)))[n] == TagOf(Recut(items, area)[i]))
  {
    hide Flatten, Recut, Datas, TagOf;
    SamePosition(items, area, n);
  }

  lemma SamePosition(items: seq<Item<StringInfo>>, area: seq<byte>, n: string)
    requires DistinctNames(items) && |Flatten(Datas(items))| <= |area|
    ensures Position(Recut(items, area), n) == Position(items, n)
  {
    hide Flatten, Recut, Datas;
    var r := Recut(items, area);
    RecutShapes(items, area);
    var i, j := Position(items, n), Position(r, n);
    assert i >= 0 ==> r[i].name == n;
    assert j >= 0 ==> items[j].name == n;
  }

  lemma SameTag(items: seq<Item<StringInfo>>, area: seq<byte>, i: nat)
    requires |Flatten(Datas(items))| <= |area| && i < |items|
    ensures TagOf(Recut(items, area)[i]) == TagOf(items[i]) <==> Recut(items, area)[i] == items[i]
    ensures TagOf(Recut(items, area)[i]) == TagOf(items[i]).(data := Recut(items, area)[i].data)
  {
    hide Flatten, Recut;
    RecutAt(items, area, i);
  }

  lemma KeysRecut(items: seq<Item<StringInfo>>, area: seq<byte>)
    requires DistinctNames(items) && |Flatten(Datas(items))| <= |area|
    ensures Tags(Entries(Recut(items, area))).Keys == Tags(Entries(items)).Keys
  {
    hide Flatten, Recut, Entries, Tags, TagOf, Datas, Position, DistinctNames;
    forall n ensures n in Tags(Entries(items)) <==> n in Tags(Entries(Recut(items, area))) {
      TagsRecut(items, area, n);
    }
  }

  /** Tag `n` and its item stay or change together. */
  lemma TagRecut(items: seq<Item<StringInfo>>, area: seq<byte>, i: nat)
    requires DistinctNames(items) && |Flatten(Datas(items))| <= |area| && i < |items|
    ensures
      var ts, ts', n := Tags(Entries(items)), Tags(Entries(Recut(items, area))), items[i].name;
      && n in ts && n in ts' && ts'[n] == ts[n].(data := Recut(items, area)[i].data) && ts[n].data == items[i].data
      && (ts'[n] == ts[n] <==> Recut(items, area)[i] == items[i])
  {
    PositionIs(items, i);
    hide Flatten, Recut, Entries, Tags, Datas, Position, DistinctNames;
    TagsRecut(items, area, items[i].name);
    SameTag(items, area, i);
  }

  ghost predicate OthersStay(ts: map<string, Tag>, ts': map<string, Tag>, name: string) {
    forall n :: n in ts && n != name ==> n in ts' && ts'[n] == ts[n]
  }

  /** Other tags stay exactly when other items do. */
  lemma OthersRecut(items: seq<Item<StringInfo>>, area: seq<byte>, k: nat)
    requires DistinctNames(items) && |Flatten(Datas(items))| <= |area| && k < |items|
    ensures OthersStay(Tags(Entries(items)), Tags(Entries(Recut(items, area))), items[k].name)
      <==> forall i :: 0 <= i < |items| && i != k ==> Recut(items, area)[i] == items[i]
  {
    hide Flatten, Recut, Entries, Tags, TagOf, Datas, Position;
    var ts, ts', r := Tags(Entries(items)), Tags(Entries(Recut(items, area))), Recut(items, area);
    if OthersStay(ts, ts', items[k].name) {
      forall i | 0 <= i < |items| && i != k ensures r[i] == items[i] {
        TagRecut(items, area, i);
      }
    }
    if forall i :: 0 <= i < |items| && i != k ==> r[i] == items[i] {
      forall n | n in ts && n != items[k].name ensures n in ts' && ts'[n] == ts[n] {
        TagsRecut(items, area, n);
        TagRecut(items, area, Position(items, n));
      }
    }
  }

  /** The bytes in front stay exactly when they are written back as they were. */
  lemma FrontStaysIff(area: seq<byte>, pos: nat, front: nat, part: seq<byte>)
    requires pos + front <= |area| && pos + |part| <= |area|
    ensures Spliced(area, pos, part)[..pos + front] == area[..pos + front]
      <==> forall i :: 0 <= i < |part| && i < front ==> part[i] == area[pos + i]
  {
    var area' := Spliced(area, pos, part);
    if area'[..pos + front] == area[..pos + front] {
      forall i | 0 <= i < |part| && i < front ensures part[i] == area[pos + i] {
        assert area'[..pos + front][pos + i] == area[..pos + front][pos + i];
      }
    }
    if forall i :: 0 <= i < |part| && i < front ==> part[i] == area[pos + i] {
      assert forall j :: 0 <= j < pos + front ==> area'[j] == area[j];
    }
  }

  /** The share of the written tag itself. */
  lemma OwnShare(area: seq<byte>, pos: nat, front: nat, part: seq<byte>, size: nat)
    requires pos + front + size <= |area| && |part| <= front + size
    ensures
      var now, was := Spliced(area, pos, part)[pos + front..pos + front + size], area[pos + front..pos + front + size];
      now == if |part| <= front then was else Spliced(was, 0, part[front..])
  {
  }

  lemma OnlyPartChanges(area: seq<byte>, pos: nat, part: seq<byte>)
    requires pos + |part| <= |area|
    ensures forall j :: pos + |part| <= j < |area| ==> Spliced(area, pos, part)[j] == area[j]
  {
  }

  lemma FrontWritten(items: seq<Item<StringInfo>>, area: seq<byte>, area': seq<byte>, k: nat, pos: nat, front: nat,
                     part: seq<byte>, s: State, s': State)
    requires DistinctNames(items) && k < |items| && |Flatten(Datas(items))| <= |area| == |area'|
    requires Flatten(Datas(items)) == area[..|Flatten(Datas(items))|]
    requires |Flatten(Datas(items)[..k + 1])| <= |area|
    requires |Flatten(Datas(items)[..k + 1])| == |Flatten(Datas(items)[..k])| + |items[k].data|
    requires pos + front == |Flatten(Datas(items)[..k])| && |part| <= front + |items[k].data|
    requires area[pos + front..pos + front + |items[k].data|] == items[k].data
    requires area' == Spliced(area, pos, part)
    requires s.tags == Tags(Entries(items)) && s' == s.(tags := Tags(Entries(Recut(items, area'))))
    ensures WroteInFront(s, s', area, items[k].name, pos, front, part)
  {
    hide Flatten, Recut, Datas, Entries, Tags, DistinctNames, Position, Spliced;
    FrontStaysIff(area, pos, front, part);
    FrontDecides(items, area, area', k) by { OnlyPartChanges(area, pos, part); }
    OthersRecut(items, area', k);
    KeysRecut(items, area');
    OwnShare(area, pos, front, part, |items[k].data|);
    RecutAt(items, area', k);
    TagRecut(items, area', k);
    forall n | n in s.tags ensures n in s'.tags && s'.tags[n] == s.tags[n].(data := s'.tags[n].data) {
      TagsRecut(items, area', n);
      TagRecut(items, area', Position(items, n));
    }
  }

  /** Store a string: its length, zeros over the whole item, then its bytes. */
  method PutString(b: Board, loc: nat, ghost k: nat, str: seq<byte>)
    requires Valid(b) && k < |b.items| && b.locs[k] == loc
    requires loc < b.index.Length && Describes(b.index[loc], b.items, k)
    requires |str| <= |b.items[k].data|
    modifies b, b.data, b.index
    ensures Valid(b) && b.remain == old(b.remain) && b.typeremain == old(b.typeremain) && b.Unused() == old(b.Unused())
    ensures b.locs == old(b.locs) && |b.items| == |old(b.items)| && b.items[k].extra == StringInfo(|str|, true)
    ensures var it := old(b.items)[k];
            Tags(Entries(b.items)) == old(Tags(Entries(b.items)))[it.name :=
              Tag(str + Zeros(|it.data| - |str|), it.typ, Some(|str|))]
  {
    hide Inv, Entries, NameSet, Describes, Names, NeverUsed;
    ghost var m, it := Entries(b.items), b.items[k];
    b.LocOf(k);
    b.SetExtra(loc, k, StringInfo(|str|, true));
    b.LocOf(k);
    assert b.index[loc].size == |it.data| by { b.SizeOf(k); }
    b.Put(loc, k, 0, Zeros(b.index[loc].size));
    SplicedAll(it.data, Zeros(|it.data|));
    b.LocOf(k);
    b.Put(loc, k, 0, str);
    assert Spliced(Zeros(|it.data|), 0, str) == str + Zeros(|it.data| - |str|);
    assert Entries(b.items) == m[it.name := b.items[k]];
    TagsUpdate(m, it.name, b.items[k]);
  }

  method WriteB_String(b: Board, name: string, str: seq<byte>) returns (status: Status)
    requires Valid(b) && IsName(name) && b.LookupEnds(name)
    modifies b, b.data, b.index
    ensures Valid(b)
    ensures Outcome(Abs(b), status) == Step(old(Abs(b)), WriteString(name, str))
    ensures b.Unused() == old(b.Unused()) && b.locs == old(b.locs) && |b.items| == |old(b.items)|
    ensures status == Ok ==>
      var k := Position(old(b.items), name);
      0 <= k < |b.items| && b.items[k].extra == StringInfo(|str|, true)
  {
    hide Inv, Entries, NameSet, Describes, StringsFit, Names, NeverUsed;
    var loc, k := b.Find(name);
    if b.index[loc].name == "" || b.index[loc].erased {
      return TagNotExist;
    }
    if b.index[loc].size < |str| {
      return StringTooLong;
    }
    PutString(b, loc, k, str);
    return Ok;
  }

  method ClearB(b: Board)
    requires Valid(b)
    modifies b, b.index
    ensures Valid(b)
    ensures Outcome(Abs(b), Ok) == Step(old(Abs(b)), Clear) && b.Unused() == INDEXSIZE
  {
    b.Reset(StringInfo(0, false));
  }

  datatype Result<+T> = Success(value: T) | Failure(status: Status)

  method ReadB(b: Board, name: string, size: nat) returns (r: Result<seq<byte>>)
    requires Valid(b) && IsName(name) && b.LookupEnds(name)
    ensures name !in Abs(b).tags ==> r == Failure(TagNotExist)
    ensures name in Abs(b).tags && size != |Abs(b).tags[name].data| ==> r == Failure(RecordSize)
    ensures name in Abs(b).tags && size == |Abs(b).tags[name].data| ==> r == Success(Abs(b).tags[name].data)
  {
    hide Inv, Entries, NameSet, Describes;
    var loc, k := b.Find(name);
    if b.index[loc].name == "" || b.index[loc].erased {
      return Failure(TagNotExist);
    }
    if b.index[loc].size != size {
      return Failure(RecordSize);
    }
    var bytes := b.Get(loc, k);
    return Success(bytes);
  }

  /** The string length in the slot of a tag, whether or not a string was written to it. */
  ghost function StoredLength(b: Board, name: string): nat
    reads b
    requires name in Entries(b.items)
  {
    Entries(b.items)[name].extra.strlenth
  }

  /** Where the bytes of a tag start. */
  ghost function StartOf(b: Board, name: string): nat
    reads b
    requires name in Entries(b.items)
  {
    b.DataOffset(Position(b.items, name))
  }

  /** `n` bytes of the memory from `pos` on, for a buffer of `room` bytes. */
  function BytesFrom(memory: seq<byte>, pos: nat, n: nat, room: nat): Result<seq<byte>> {
    if n > room then Failure(BufferTooSmall)
    else if pos + n > |memory| then Failure(OutsideBlock)
    else Success(memory[pos..pos + n])
  }

  /** Reads as many bytes as the slot says a string has. For a tag with a string that is its string. */
  method ReadB_String2(b: Board, name: string, room: nat) returns (r: Result<seq<byte>>)
    requires Valid(b) && IsName(name) && b.LookupEnds(name)
    ensures name !in Abs(b).tags ==> r == Failure(TagNotExist)
    ensures name in Abs(b).tags ==> r == BytesFrom(b.Memory(), StartOf(b, name), StoredLength(b, name), room)
    ensures name in Abs(b).tags && StoredLength(b, name) > room ==> r == Failure(BufferTooSmall)
    ensures name in Abs(b).tags && Abs(b).tags[name].strlen.Some? ==>
      var t := Abs(b).tags[name];
      && StoredLength(b, name) == t.strlen.value <= |t.data|
      && (t.strlen.value <= room ==> r == Success(t.data[..t.strlen.value]))
  {
    hide Inv, Entries, NameSet, Describes;
    var loc, k := b.Find(name);
    if b.index[loc].name == "" || b.index[loc].erased {
      return Failure(TagNotExist);
    }
    StringInside(b, name, room);
    if b.index[loc].extra.strlenth > room {
      return Failure(BufferTooSmall);
    }
    var bytes := b.GetRun(loc, k, b.index[loc].extra.strlenth);
    return if bytes.Some? then Success(bytes.value) else Failure(OutsideBlock);
  }

  /**
   With room enough, what a string read returns is a beginning of the tag's bytes exactly when the length in its slot
   does not exceed the tag. With a string written since the creation that is always so, and the string is returned.
   */
  lemma StringInside(b: Board, name: string, room: nat)
    requires Valid(b) && name in Entries(b.items)
    ensures
      var t, n := Abs(b).tags[name], StoredLength(b, name);
      var r := BytesFrom(b.Memory(), StartOf(b, name), n, room);
      && (n <= room ==> ((r.Success? && r.value <= t.data) <==> n <= |t.data|))
      && (t.strlen.Some? ==> n == t.strlen.value <= |t.data| && (n <= room ==> r == Success(t.data[..n])))
  {
    hide Inv;
    var k := Position(b.items, name);
    b.EntryInMemory(k);
    var pos, n, size := b.DataOffset(k), StoredLength(b, name), |b.items[k].data|;
    if n <= size {
      FrontOfSlice(b.Memory(), pos, n, size);
    }
  }

  lemma FrontOfSlice(s: seq<byte>, pos: nat, n: nat, size: nat)
    requires n <= size && pos + size <= |s|
    ensures s[pos..pos + n] == s[pos..pos + size][..n] <= s[pos..pos + size]
  {
  }

  /** The type description kept at creation; nothing when the tag is unknown or untyped. */
  method ReadType(b: Board, name: string) returns (r: Option<seq<byte>>)
    requires Valid(b) && IsName(name) && b.LookupEnds(name)
    ensures r == if name in Abs(b).tags && Abs(b).tags[name].typ != [] then Some(Abs(b).tags[name].typ) else None
  {
    hide Inv, Entries, NameSet;
    var loc, k := b.Find(name);
    if b.index[loc].name == "" || b.index[loc].erased || b.index[loc].typesize == 0 {
      return None;
    }
    var bytes := b.GetType(loc, k);
    return Some(bytes);
  }

  datatype BoardInfo = BoardInfo(totalsize: nat, remainsize: int, tagcount_head: int, tagcount_act: int)

  /** The counters in the head agree with a count of the index, in every valid board. */
  method ReadBoardInfo(b: Board) returns (info: BoardInfo)
    requires Valid(b)
    ensures info == BoardInfo(Abs(b).capacity, Abs(b).room, |Abs(b).tags|, |Abs(b).tags|)
  {
    var names := b.LiveEntries();
    b.Counters();
    TagCount(Entries(b.items));
    info := BoardInfo(b.data.Length, b.remain, b.indexcount, |names|);
  }

  // ---- The list of names in the caller's rows ----

  /** A row of the caller's table; a name and its terminator may be longer. */
  const ROW := 24

  /** What a copied name can write behind the last row. */
  const BEHIND := MAXNAME - ROW

  /** The memory at the rows and behind them after each name was copied to the start of its row. */
  function Copied(mem: seq<char>, names: seq<string>): (r: seq<char>)
    requires ROW * |names| + BEHIND <= |mem| && forall n :: n in names ==> |n| < MAXNAME
    ensures |r| == |mem|
  {
    if names == [] then mem
    else
      var n := |names| - 1;
      assert names[n] in names;
      var before := Copied(mem, names[..n]);
      before[..ROW * n] + names[n] + [0 as char] + before[ROW * n + |names[n]| + 1..]
  }

  /** Row `k` of the memory. */
  function RowAt(mem: seq<char>, k: nat): seq<char>
    requires ROW * (k + 1) <= |mem|
  {
    mem[ROW * k..ROW * (k + 1)]
  }

  /** The row holds the name and its terminator. */
  ghost predicate Holds(row: seq<char>, name: string) {
    |name| < |row| && row[..|name|] == name && row[|name|] == 0 as char
  }

  /** A copy to the start of row `n` leaves the rows before it alone. */
  lemma EarlierRowStays(before: seq<char>, after: seq<char>, n: nat, k: nat)
    requires k < n && ROW * n <= |before| == |after| && after[..ROW * n] == before[..ROW * n]
    ensures RowAt(after, k) == RowAt(before, k)
  {
    assert RowAt(after, k) == after[..ROW * n][ROW * k..ROW * (k + 1)];
    assert RowAt(before, k) == before[..ROW * n][ROW * k..ROW * (k + 1)];
  }

  lemma CopiedRow(front: seq<char>, name: string, rest: seq<char>, n: nat)
    requires |front| == ROW * n && ROW * (n + 1) <= |front| + |name| + 1 + |rest|
    ensures Holds(RowAt(front + name + [0 as char] + rest, n), name) <==> |name| < ROW
  {
    var mem := front + name + [0 as char] + rest;
    if |name| < ROW {
      assert RowAt(mem, n)[..|name|] == name;
      assert RowAt(mem, n)[|name|] == 0 as char;
    }
  }

  /** Each row holds its name exactly when that is shorter than a row. */
  lemma {:induction false} RowHoldsIff(mem: seq<char>, names: seq<string>, k: nat)
    requires ROW * |names| + BEHIND <= |mem| && k < |names| && forall n :: n in names ==> |n| < MAXNAME
    ensures Holds(RowAt(Copied(mem, names), k), names[k]) <==> |names[k]| < ROW
  {
    hide Holds, RowAt;
    var n := |names| - 1;
    var before := Copied(mem, names[..n]);
    assert names[n] in names;
    var rest := before[ROW * n + |names[n]| + 1..];
    if k < n {
      RowHoldsIff(mem, names[..n], k);
      EarlierRowStays(before, before[..ROW * n] + names[n] + [0 as char] + rest, n, k);
    } else {
      CopiedRow(before[..ROW * n], names[n], rest, n);
    }
  }

  /** Nothing behind the caller's rows changes if the last name copied is shorter than a row, or a row is left. */
  lemma {:induction false} BehindStays(mem: seq<char>, names: seq<string>, room: nat)
    requires |names| <= room && |mem| == ROW * room + BEHIND && forall n :: n in names ==> |n| < MAXNAME
    requires |names| < room || forall n :: n in names ==> |n| < ROW
    ensures Copied(mem, names)[ROW * room..] == mem[ROW * room..]
  {
    if names != [] {
      var n := |names| - 1;
      assert names[n] in names;
      BehindStays(mem, names[..n], room);
    }
  }

  method CopyName(mem: array<char>, at: nat, name: string)
    requires at + |name| < mem.Length
    modifies mem
    ensures mem[..] == old(mem[..at]) + name + [0 as char] + old(mem[at + |name| + 1..])
  {
    forall i | 0 <= i < |name| {
      mem[at + i] := name[i];
    }
    mem[at + |name|] := 0 as char;
  }

  method CopyNames(mem: array<char>, names: seq<string>)
    requires ROW * |names| + BEHIND <= mem.Length && forall n :: n in names ==> |n| < MAXNAME
    modifies mem
    ensures mem[..] == Copied(old(mem[..]), names)
  {
    for i := 0 to |names|
      invariant mem[..] == Copied(old(mem[..]), names[..i])
    {
      assert names[i] in names && names[..i + 1][..i] == names[..i];
      ghost var was := mem[..];
      CopyName(mem, ROW * i, names[i]);
      assert was[..ROW * i] == mem[..][..ROW * i];
    }
    assert names[..|names|] == names;
  }

  lemma TagsHaveNames(b: Board, name: string)
    requires Valid(b) && name in Abs(b).tags
    ensures IsName(name)
  {
    var k := Position(b.items, name);
    assert Describes(b.index[..][b.locs[k]], b.items, k);
  }

  /** The names of the tags, one to each of the caller's `room` rows, if there are enough of them. */
  method ReadInfoB(b: Board, room: nat, mem: array<char>) returns (ok: bool, ghost names: seq<string>)
    requires Valid(b) && mem.Length == ROW * room + BEHIND
    modifies mem
    ensures ok
    ensures |Abs(b).tags| > room ==> names == [] && mem[..] == old(mem[..])
    ensures |Abs(b).tags| <= room ==> |names| == |Abs(b).tags| && forall n :: n in names <==> n in Abs(b).tags
    ensures |names| <= room && (forall n :: n in names ==> |n| < MAXNAME) && mem[..] == Copied(old(mem[..]), names)
  {
    hide Inv;
    b.Counters();
    TagCount(Entries(b.items));
    if b.indexcount > room {
      return true, [];
    }
    var list := b.LiveEntries();
    forall n | n in list ensures |n| < MAXNAME {
      TagsHaveNames(b, n);
    }
    CopyNames(mem, list);
    ok, names := |list| == b.indexcount, list;
  }
}
