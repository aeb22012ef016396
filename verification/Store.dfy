/**
 The memory layout boards and databases share: a probed index of slots, a data area that is bump-allocated
 and compacted on deletion, and a type area kept the same way. `X` is what a slot records beyond that.
 */
module Store {
  import opened Bytes
  import opened Probing

  const TYPEMAXSIZE := 2048
  const TYPEAVGSIZE := 32
  const MAXMSGLEN := 16384
  const TYPEAREA := INDEXSIZE * TYPEAVGSIZE

  datatype Slot<X> = Slot(name: string, start: int, size: int, erased: bool, typeaddr: int, typesize: int, extra: X)

  /** One live entry as a caller sees it: its bytes, and the type description given at creation. */
  datatype Item<X> = Item(name: string, data: seq<byte>, typ: seq<byte>, extra: X)

  function Datas<X>(items: seq<Item<X>>): (d: seq<seq<byte>>)
    ensures |d| == |items| && forall i :: 0 <= i < |items| ==> d[i] == items[i].data
  {
    seq(|items|, i requires 0 <= i < |items| => items[i].data)
  }

  function Typs<X>(items: seq<Item<X>>): (t: seq<seq<byte>>)
    ensures |t| == |items| && forall i :: 0 <= i < |items| ==> t[i] == items[i].typ
  {
    seq(|items|, i requires 0 <= i < |items| => items[i].typ)
  }

  lemma NameAt<X>(ix: seq<Slot<X>>, loc: nat)
    requires loc < |ix|
    ensures |Names(ix)| == |ix| && Names(ix)[loc] == ix[loc].name
  {
  }

  function Names<X>(ix: seq<Slot<X>>): (n: seq<string>)
    ensures |n| == |ix| && forall i :: 0 <= i < |ix| ==> n[i] == ix[i].name
  {
    seq(|ix|, i requires 0 <= i < |ix| => ix[i].name)
  }

  /** The place of `name` among the items, or -1. */
  function Position<X>(items: seq<Item<X>>, name: string): (i: int)
    ensures -1 <= i < |items|
    ensures i >= 0 ==> items[i].name == name
    ensures i < 0 ==> forall j :: 0 <= j < |items| ==> items[j].name != name
  {
    if items == [] then -1
    else if items[|items| - 1].name == name then |items| - 1
    else Position(items[..|items| - 1], name)
  }

  /** The type description that is kept: none when it is absent, too long, or does not fit. */
  function KeptType(typ: seq<byte>, room: int): seq<byte> {
    if typ != [] && |typ| < TYPEMAXSIZE && |typ| < room then typ else []
  }

  ghost predicate Live<X>(s: Slot<X>) {
    s.name != "" && !s.erased
  }

  /** A slot is never used, a tombstone, or holds a proper name. */
  ghost predicate SlotOk<X>(s: Slot<X>) {
    s.erased == (s.name == MARKER) && (s.name != "" && !s.erased ==> IsName(s.name))
  }

  /** Slot `s` describes the `i`-th item: where its bytes start is where those of the items before it end. */
  ghost predicate Describes<X>(s: Slot<X>, items: seq<Item<X>>, i: nat)
    requires i < |items|
  {
    && Live(s) && s.name == items[i].name && s.extra == items[i].extra
    && s.size == |items[i].data| && s.start == |Flatten(Datas(items)[..i])|
    && s.typesize == |items[i].typ| && (s.typesize > 0 ==> s.typeaddr == |Flatten(Typs(items)[..i])|)
  }

  /** The live slots are those listed in `locs`, one for each item. */
  ghost predicate Agree<X>(ix: seq<Slot<X>>, items: seq<Item<X>>, locs: seq<nat>) {
    && |locs| == |items|
    && (forall i :: 0 <= i < |locs| ==> locs[i] < |ix| && Describes(ix[locs[i]], items, i))
    && (forall i, j :: 0 <= i < j < |locs| ==> locs[i] != locs[j])
    && (forall l :: 0 <= l < |ix| && Live(ix[l]) ==> l in locs)
  }

  ghost predicate IndexOk<X>(ix: seq<Slot<X>>) {
    |ix| == INDEXSIZE && (forall l :: 0 <= l < |ix| ==> SlotOk(ix[l])) && ProbeTable(Names(ix))
  }

  /** An area's used part is the chunks end to end, and the counters account for every byte. */
  ghost predicate AreaOk(area: seq<byte>, chunks: seq<seq<byte>>, next: int, remain: int) {
    && 0 <= next <= |area| && next + remain == |area|
    && area[..next] == Flatten(chunks)
  }

  // ---- Counting slots ----

  lemma AreaNext(area: seq<byte>, chunks: seq<seq<byte>>, next: int, remain: int)
    requires AreaOk(area, chunks, next, remain)
    ensures 0 <= next <= |area| && next + remain == |area| && next == |Flatten(chunks)|
  {
  }

  function LiveCount<X>(ix: seq<Slot<X>>): nat {
    if ix == [] then 0
    else LiveCount(ix[..|ix| - 1]) + if ix[|ix| - 1].name != "" && !ix[|ix| - 1].erased then 1 else 0
  }

  ghost function LiveLocs<X>(ix: seq<Slot<X>>): set<nat> {
    set l: nat | l < |ix| && Live(ix[l])
  }

  lemma {:induction false} LiveCountIsCardinality<X>(ix: seq<Slot<X>>)
    ensures LiveCount(ix) == |LiveLocs(ix)|
  {
    if ix != [] {
      var n := |ix| - 1;
      LiveCountIsCardinality(ix[..n]);
      assert LiveLocs(ix) == LiveLocs(ix[..n]) + if Live(ix[n]) then {n} else {};
    }
  }

  ghost function LocSet(locs: seq<nat>): set<nat> {
    set l | l in locs
  }

  lemma {:induction false} DistinctCount(locs: seq<nat>)
    requires forall i, j :: 0 <= i < j < |locs| ==> locs[i] != locs[j]
    ensures |LocSet(locs)| == |locs|
  {
    if locs != [] {
      var n := |locs| - 1;
      DistinctCount(locs[..n]);
      assert locs == locs[..n] + [locs[n]];
      assert LocSet(locs) == LocSet(locs[..n]) + {locs[n]};
      assert locs[n] !in LocSet(locs[..n]);
    }
  }

  /** The index holds exactly as many live slots as there are items. */
  lemma LiveCountIsItemCount<X>(ix: seq<Slot<X>>, items: seq<Item<X>>, locs: seq<nat>)
    requires Agree(ix, items, locs)
    ensures LiveCount(ix) == |items|
  {
    LiveCountIsCardinality(ix);
    DistinctCount(locs);
    assert LiveLocs(ix) == LocSet(locs);
  }

  lemma {:induction false} LiveCountBelow<X>(ix: seq<Slot<X>>)
    ensures LiveCount(ix) <= |ix|
    ensures LiveCount(ix) < |ix| ==> exists l :: 0 <= l < |ix| && !Live(ix[l])
  {
    if ix != [] {
      var n := |ix| - 1;
      LiveCountBelow(ix[..n]);
      if LiveCount(ix[..n]) < n {
        var l :| 0 <= l < n && !Live(ix[..n][l]);
        assert !Live(ix[l]);
      }
    }
  }

  // ---- Values ----

  lemma LiveNames<X>(ix: seq<Slot<X>>, items: seq<Item<X>>, locs: seq<nat>, name: string)
    requires IndexOk(ix) && Agree(ix, items, locs) && IsName(name)
    ensures name in Names(ix) <==> Position(items, name) >= 0
    ensures Position(items, name) >= 0 ==> Names(ix)[locs[Position(items, name)]] == name
  {
    var i := Position(items, name);
    if name in Names(ix) {
      var l :| 0 <= l < |ix| && ix[l].name == name;
      assert Live(ix[l]);
      var j :| 0 <= j < |locs| && locs[j] == l;
      assert items[j].name == name;
    }
    if i >= 0 {
      assert Describes(ix[locs[i]], items, i);
    }
  }

  /** Appending an item leaves the descriptions of the others as they were. */
  lemma AppendDescribes<X>(items: seq<Item<X>>, it: Item<X>)
    ensures Datas(items + [it]) == Datas(items) + [it.data]
    ensures Typs(items + [it]) == Typs(items) + [it.typ]
    ensures forall s: Slot<X>, i :: 0 <= i < |items| && Describes(s, items, i) ==> Describes(s, items + [it], i)
  {
    forall s: Slot<X>, i | 0 <= i < |items| && Describes(s, items, i)
      ensures Describes(s, items + [it], i)
    {
      assert Datas(items + [it])[..i] == Datas(items)[..i];
      assert Typs(items + [it])[..i] == Typs(items)[..i];
    }
  }

  lemma AllocateAgree<X>(ix: seq<Slot<X>>, items: seq<Item<X>>, locs: seq<nat>, loc: nat, s: Slot<X>, it: Item<X>)
    requires Agree(ix, items, locs) && loc < |ix| && !Live(ix[loc])
    requires Live(s) && s.name == it.name && s.extra == it.extra
    requires s.size == |it.data| && s.start == |Flatten(Datas(items))|
    requires s.typesize == |it.typ| && (s.typesize > 0 ==> s.typeaddr == |Flatten(Typs(items))|)
    ensures Agree(ix[loc := s], items + [it], locs + [loc])
  {
    AppendDescribes(items, it);
    var items', locs', ix' := items + [it], locs + [loc], ix[loc := s];
    forall i | 0 <= i < |locs'| ensures locs'[i] < |ix'| && Describes(ix'[locs'[i]], items', i) {
      if i < |locs| {
        assert Describes(ix[locs[i]], items, i);
      } else {
        assert Datas(items')[..i] == Datas(items);
        assert Typs(items')[..i] == Typs(items);
      }
    }
    forall l | 0 <= l < |ix'| && Live(ix'[l]) ensures l in locs' {
      if l == loc {
        assert locs'[|locs|] == loc;
      } else {
        assert l in locs;
        var i :| 0 <= i < |locs| && locs[i] == l;
        assert locs'[i] == l;
      }
    }
  }

  /** Replacing one item by another of the same size keeps every description. */
  lemma UpdateAgree<X>(ix: seq<Slot<X>>, items: seq<Item<X>>, locs: seq<nat>, k: nat, it: Item<X>)
    requires Agree(ix, items, locs) && k < |items|
    requires it.name == items[k].name && it.typ == items[k].typ && |it.data| == |items[k].data|
    ensures Agree(ix[locs[k] := ix[locs[k]].(extra := it.extra)], items[k := it], locs)
    ensures Datas(items[k := it]) == Datas(items)[k := it.data]
    ensures Typs(items[k := it]) == Typs(items)
  {
    var items', ix' := items[k := it], ix[locs[k] := ix[locs[k]].(extra := it.extra)];
    assert Typs(items') == Typs(items);
    assert Datas(items') == Datas(items)[k := it.data];
    forall i | 0 <= i < |locs| ensures locs[i] < |ix'| && Describes(ix'[locs[i]], items', i) {
      assert Describes(ix[locs[i]], items, i);
      if i <= k {
        assert Datas(items')[..i] == Datas(items)[..i];
      } else {
        SameLengths(Datas(items), k, it.data, i);
      }
    }
  }

  lemma SameLengths(s: seq<seq<byte>>, k: nat, c: seq<byte>, i: nat)
    requires k < i <= |s| && |c| == |s[k]|
    ensures |Flatten(s[k := c][..i])| == |Flatten(s[..i])|
  {
    assert s[k := c][..i] == s[..i][k := c];
    FlattenSplit(s[..i], k);
    FlattenUpdate(s[..i], k, c);
  }

  // ---- Compaction ----

  /** What deletion does to a slot that stays: move its starts down past the hole. */
  function Shifted<X>(s: Slot<X>, pos: int, size: int, typepos: int, typesize: int): Slot<X> {
    if s.name != "" && !s.erased then
      s.(start := if s.start > pos then s.start - size else s.start,
         typeaddr := if s.typeaddr > typepos then s.typeaddr - typesize else s.typeaddr)
    else s
  }

  /** Removing chunk `k` moves the later chunks down by its size, and only those. */
  lemma ShiftOffset(s: seq<seq<byte>>, k: nat, j: nat)
    requires k < |s| && j < |s| && j != k
    ensures var pos, o := |Flatten(s[..k])|, |Flatten(s[..j])|;
            |Flatten(Without(s, k)[..if j < k then j else j - 1])| == if o > pos then o - |s[k]| else o
  {
    if j < k {
      assert Without(s, k)[..j] == s[..j];
      FlattenMonotone(s, j, k);
    } else {
      assert Without(s, k)[..j - 1] == Without(s[..j], k);
      FlattenRemove(s[..j], k);
      FlattenSplit(s[..j], k);
      assert s[..j][..k] == s[..k];
    }
  }

  lemma WithoutItems<X>(items: seq<Item<X>>, k: nat)
    requires k < |items|
    ensures Datas(Without(items, k)) == Without(Datas(items), k)
    ensures Typs(Without(items, k)) == Without(Typs(items), k)
  {
  }

  lemma ShiftedDescribes<X>(s: Slot<X>, dead: Slot<X>, items: seq<Item<X>>, k: nat, j: nat)
    requires k < |items| && j < |items| && j != k
    requires Describes(s, items, j) && Describes(dead, items, k)
    ensures Describes(Shifted(s, dead.start, dead.size, dead.typeaddr, dead.typesize),
                      Without(items, k), if j < k then j else j - 1)
  {
    WithoutItems(items, k);
    ShiftOffset(Datas(items), k, j);
    ShiftOffset(Typs(items), k, j);
  }

  /** Slot contents of the index after the entry in `dead` was removed and the others shifted. */
  ghost predicate Deleted<X>(ix: seq<Slot<X>>, ix': seq<Slot<X>>, dead: nat)
    requires dead < |ix|
  {
    && |ix'| == |ix| && !Live(ix'[dead])
    && forall l :: 0 <= l < |ix| && l != dead ==>
         ix'[l] == Shifted(ix[l], ix[dead].start, ix[dead].size, ix[dead].typeaddr, ix[dead].typesize)
  }

  lemma DeletedLength<X>(ix: seq<Slot<X>>, ix': seq<Slot<X>>, dead: nat)
    requires dead < |ix| && Deleted(ix, ix', dead)
    ensures |ix'| == |ix|
  {
  }

  lemma DeleteDescribes<X>(ix: seq<Slot<X>>, ix': seq<Slot<X>>, items: seq<Item<X>>, locs: seq<nat>, k: nat, j: nat)
    requires Agree(ix, items, locs) && k < |items| && j < |items| && j != k
    requires Deleted(ix, ix', locs[k])
    ensures Describes(ix'[locs[j]], Without(items, k), if j < k then j else j - 1)
  {
    assert Describes(ix[locs[k]], items, k) && Describes(ix[locs[j]], items, j);
    assert locs[j] != locs[k];
    ShiftedDescribes(ix[locs[j]], ix[locs[k]], items, k, j);
  }

  lemma ShiftedLive<X>(ix: seq<Slot<X>>, ix': seq<Slot<X>>, dead: nat, l: nat)
    requires dead < |ix| && Deleted(ix, ix', dead) && l < |ix| && Live(ix'[l])
    ensures l != dead && Live(ix[l])
  {
  }

  lemma DeleteLive<X>(ix: seq<Slot<X>>, ix': seq<Slot<X>>, items: seq<Item<X>>, locs: seq<nat>, k: nat, l: nat)
    requires Agree(ix, items, locs) && k < |items|
    requires Deleted(ix, ix', locs[k])
    requires l < |ix| && Live(ix'[l])
    ensures l in Without(locs, k)
  {
    hide Describes, Deleted;
    ShiftedLive(ix, ix', locs[k], l);
    var j :| 0 <= j < |locs| && locs[j] == l;
    assert Without(locs, k)[if j < k then j else j - 1] == l;
  }

  /** The index after a deletion describes the remaining items of the compacted areas. */
  lemma DeleteAgree<X>(ix: seq<Slot<X>>, ix': seq<Slot<X>>, items: seq<Item<X>>, locs: seq<nat>, k: nat)
    requires Agree(ix, items, locs) && k < |items|
    requires Deleted(ix, ix', locs[k])
    ensures Agree(ix', Without(items, k), Without(locs, k))
  {
    hide Describes, Deleted;
    assert |ix'| == |ix| by { DeletedLength(ix, ix', locs[k]); }
    var items', locs' := Without(items, k), Without(locs, k);
    forall i | 0 <= i < |locs'| ensures locs'[i] < |ix'| && Describes(ix'[locs'[i]], items', i) {
      var j := if i < k then i else i + 1;
      assert locs'[i] == locs[j];
      DeleteDescribes(ix, ix', items, locs, k, j);
    }
    forall l | 0 <= l < |ix'| && Live(ix'[l]) ensures l in locs' {
      DeleteLive(ix, ix', items, locs, k, l);
    }
  }

  /** Closing the hole left by chunk `k` leaves the other chunks end to end. */
  lemma CompactArea(area: seq<byte>, area': seq<byte>, chunks: seq<seq<byte>>, k: nat, next: int, remain: int)
    requires AreaOk(area, chunks, next, remain) && k < |chunks| && |area'| == |area|
    requires var pos, n := |Flatten(chunks[..k])|, |chunks[k]|;
             pos + n <= |area| && area'[..|area| - n] == area[..pos] + area[pos + n..]
    ensures AreaOk(area', Without(chunks, k), next - |chunks[k]|, remain + |chunks[k]|)
  {
    var pos, n := |Flatten(chunks[..k])|, |chunks[k]|;
    FlattenSplit(chunks, k);
    FlattenRemove(chunks, k);
    hide Flatten;
    Compacted(area, area', Flatten(chunks[..k]), chunks[k], Flatten(chunks[k + 1..]), next);
  }

  /** Moving what follows `b` down over it. */
  lemma Compacted(area: seq<byte>, area': seq<byte>, a: seq<byte>, b: seq<byte>, c: seq<byte>, next: nat)
    requires next <= |area| == |area'| && area[..next] == a + b + c
    requires area'[..|area| - |b|] == area[..|a|] + area[|a| + |b|..]
    ensures next - |b| == |a| + |c| && area'[..next - |b|] == a + c
  {
    CutPieces(area, a, b, c, next);
    TakeOfConcat(area[..|a|], area[|a| + |b|..], |c|);
    assert area[|a| + |b|..][..|c|] == c;
    assert area'[..next - |b|] == area'[..|area| - |b|][..next - |b|];
  }

  lemma TakeOfConcat(a: seq<byte>, b: seq<byte>, n: nat)
    requires n <= |b|
    ensures (a + b)[..|a| + n] == a + b[..n]
  {
  }

  lemma CutPieces(area: seq<byte>, a: seq<byte>, b: seq<byte>, c: seq<byte>, next: nat)
    requires next <= |area| && area[..next] == a + b + c
    ensures next == |a| + |b| + |c| && area[..|a|] == a && area[|a| + |b|..next] == c
  {
    assert area[..|a|] == area[..next][..|a|];
    assert area[|a| + |b|..next] == area[..next][|a| + |b|..];
  }

  /** Overwriting chunk `k` in place with one of the same size. */
  lemma OverwriteArea(area: seq<byte>, area': seq<byte>, chunks: seq<seq<byte>>, k: nat, c: seq<byte>, next: int,
                      remain: int)
    requires AreaOk(area, chunks, next, remain) && k < |chunks| && |c| == |chunks[k]|
    requires var pos := |Flatten(chunks[..k])|;
             pos + |c| <= |area| && area' == area[..pos] + c + area[pos + |c|..]
    ensures AreaOk(area', chunks[k := c], next, remain)
  {
    var pos := |Flatten(chunks[..k])|;
    FlattenSplit(chunks, k);
    FlattenUpdate(chunks, k, c);
    assert area[..pos] == area[..next][..pos] == Flatten(chunks[..k]);
    assert area[pos + |c|..next] == area[..next][pos + |c|..] == Flatten(chunks[k + 1..]);
    assert area'[..next] == area[..pos] + c + area[pos + |c|..next];
  }

  /** Chunk `k` is found at the offset its slot records. */
  lemma ReadArea(area: seq<byte>, chunks: seq<seq<byte>>, k: nat, next: int, remain: int)
    requires AreaOk(area, chunks, next, remain) && k < |chunks|
    ensures var pos := |Flatten(chunks[..k])|;
            pos + |chunks[k]| <= next <= |area| && area[pos..pos + |chunks[k]|] == chunks[k]
  {
    var pos := |Flatten(chunks[..k])|;
    FlattenSplit(chunks, k);
    assert area[pos..pos + |chunks[k]|] == area[..next][pos..pos + |chunks[k]|];
  }

  lemma AppendArea(area: seq<byte>, area': seq<byte>, chunks: seq<seq<byte>>, c: seq<byte>, next: int, remain: int)
    requires AreaOk(area, chunks, next, remain) && |area'| == |area| && |c| <= remain
    requires area'[..next] == area[..next] && area'[next..next + |c|] == c
    ensures AreaOk(area', chunks + [c], next + |c|, remain - |c|)
  {
    assert (chunks + [c])[..|chunks|] == chunks;
    assert area'[..next + |c|] == area'[..next] + c;
  }

  // ---- The index as a whole ----

  /** Probe `p` is the first on the path of `name` that meets a never-used slot or a tombstone. */
  ghost predicate FreeAt<X>(ix: seq<Slot<X>>, name: string, p: nat)
    requires TABLESIZE <= |ix|
  {
    !Live(ix[At(|ix|, name, p)]) && forall j :: 0 <= j < p ==> Live(ix[At(|ix|, name, j)])
  }

  lemma FoundItem<X>(ix: seq<Slot<X>>, items: seq<Item<X>>, locs: seq<nat>, name: string, p: nat)
    requires IndexOk(ix) && Agree(ix, items, locs) && IsName(name) && StopsFirst(Names(ix), name, p)
    ensures var k, loc := Position(items, name), At(|ix|, name, p);
            && (ix[loc].name == "" || ix[loc].name == name)
            && (ix[loc].name == name <==> k >= 0)
            && (k >= 0 ==> locs[k] == loc && Describes(ix[loc], items, k))
  {
    LookupFindsIff(Names(ix), name, p);
    LiveNames(ix, items, locs, name);
    var k := Position(items, name);
    if k >= 0 {
      LookupFindsLive(Names(ix), name, locs[k], p);
    }
  }

  lemma FreeSlot<X>(ix: seq<Slot<X>>, items: seq<Item<X>>, locs: seq<nat>) returns (free: nat)
    requires Agree(ix, items, locs) && |items| < |ix|
    ensures free < |ix| && !Live(ix[free])
  {
    LiveCountIsItemCount(ix, items, locs);
    LiveCountBelow(ix);
    free :| free < |ix| && !Live(ix[free]);
  }

  lemma AllocateIndex<X>(ix: seq<Slot<X>>, items: seq<Item<X>>, locs: seq<nat>, loc: nat, p: nat, s: Slot<X>,
                         it: Item<X>)
    requires IndexOk(ix) && Agree(ix, items, locs) && Position(items, it.name) < 0 && IsName(it.name)
    requires FreeAt(ix, it.name, p) && loc == At(|ix|, it.name, p)
    requires !s.erased && s.name == it.name && s.extra == it.extra
    requires s.size == |it.data| && s.start == |Flatten(Datas(items))|
    requires s.typesize == |it.typ| && (s.typesize > 0 ==> s.typeaddr == |Flatten(Typs(items))|)
    ensures IndexOk(ix[loc := s]) && Agree(ix[loc := s], items + [it], locs + [loc])
  {
    LiveNames(ix, items, locs, it.name);
    InsertKeeps(Names(ix), it.name, p);
    assert Names(ix[loc := s]) == Names(ix)[loc := it.name];
    AllocateAgree(ix, items, locs, loc, s, it);
  }

  lemma DeleteIndex<X>(ix: seq<Slot<X>>, ix': seq<Slot<X>>, items: seq<Item<X>>, locs: seq<nat>, k: nat)
    requires IndexOk(ix) && Agree(ix, items, locs) && k < |items|
    requires Deleted(ix, ix', locs[k])
    requires ix'[locs[k]].name == MARKER && ix'[locs[k]].erased
    ensures IndexOk(ix') && Agree(ix', Without(items, k), Without(locs, k))
  {
    DeleteKeeps(Names(ix), locs[k]);
    assert Names(ix') == Names(ix)[locs[k] := MARKER];
    DeleteAgree(ix, ix', items, locs, k);
  }

  /** A deletion leaves a tombstone: no never-used slot is taken, and no slot changes what else it records. */
  lemma DeletedNames<X>(ix: seq<Slot<X>>, ix': seq<Slot<X>>, dead: nat)
    requires dead < |ix| && Deleted(ix, ix', dead) && ix'[dead].name == MARKER && Live(ix[dead])
    ensures Names(ix') == Names(ix)[dead := MARKER] && NeverUsed(Names(ix')) == NeverUsed(Names(ix))
  {
    assert Names(ix') == Names(ix)[dead := MARKER];
  }

  lemma UpdateIndex<X>(ix: seq<Slot<X>>, loc: nat, extra: X)
    requires IndexOk(ix) && loc < |ix|
    ensures IndexOk(ix[loc := ix[loc].(extra := extra)])
  {
    assert Names(ix[loc := ix[loc].(extra := extra)]) == Names(ix);
  }

  lemma SplicedAll(s: seq<byte>, src: seq<byte>)
    requires |src| == |s|
    ensures Spliced(s, 0, src) == src
  {
  }

  lemma SpliceArea(area: seq<byte>, chunk: seq<byte>, pos: nat, off: nat, src: seq<byte>)
    requires pos + |chunk| <= |area| && area[pos..pos + |chunk|] == chunk && off + |src| <= |chunk|
    ensures area[..pos + off] + src + area[pos + off + |src|..]
         == area[..pos] + Spliced(chunk, off, src) + area[pos + |chunk|..]
  {
    assert area[..pos + off] == area[..pos] + chunk[..off];
    assert area[pos + off + |src|..] == chunk[off + |src|..] + area[pos + |chunk|..];
  }

  function LiveList<X>(ix: seq<Slot<X>>): (names: seq<string>)
    ensures |names| == LiveCount(ix)
  {
    if ix == [] then []
    else
      var s := ix[|ix| - 1];
      LiveList(ix[..|ix| - 1]) + if s.name != "" && !s.erased then [s.name] else []
  }

  lemma {:induction false} LiveListHas<X>(ix: seq<Slot<X>>, n: string)
    ensures n in LiveList(ix) <==> exists l :: 0 <= l < |ix| && Live(ix[l]) && ix[l].name == n
  {
    if ix != [] {
      var m := |ix| - 1;
      LiveListHas(ix[..m], n);
      if l :| 0 <= l < |ix| && Live(ix[l]) && ix[l].name == n {
        assert l < m ==> ix[..m][l] == ix[l];
      }
    }
  }

  /** The walk over the index lists every item's name once. */
  lemma LiveListIsItems<X>(ix: seq<Slot<X>>, items: seq<Item<X>>, locs: seq<nat>)
    requires Agree(ix, items, locs)
    ensures |LiveList(ix)| == |items|
    ensures forall n :: n in LiveList(ix) <==> Position(items, n) >= 0
  {
    LiveCountIsItemCount(ix, items, locs);
    forall n ensures n in LiveList(ix) <==> Position(items, n) >= 0 {
      LiveListHas(ix, n);
      if l :| 0 <= l < |ix| && Live(ix[l]) && ix[l].name == n {
        var i :| 0 <= i < |locs| && locs[i] == l;
        assert Describes(ix[locs[i]], items, i);
      }
      var i := Position(items, n);
      if i >= 0 {
        assert Describes(ix[locs[i]], items, i);
      }
    }
  }

  // ---- What callers see: a map from names to entries ----

  ghost predicate DistinctNames<X>(items: seq<Item<X>>) {
    forall i, j :: 0 <= i < j < |items| ==> items[i].name != items[j].name
  }

  function NameSet<X>(items: seq<Item<X>>): (names: set<string>)
    ensures forall n :: n in names <==> Position(items, n) >= 0
  {
    set i | 0 <= i < |items| :: items[i].name
  }

  function Entries<X>(items: seq<Item<X>>): map<string, Item<X>> {
    map n | n in NameSet(items) :: items[Position(items, n)]
  }

  lemma PositionIs<X>(items: seq<Item<X>>, i: nat)
    requires DistinctNames(items) && i < |items|
    ensures Position(items, items[i].name) == i
  {
  }

  lemma PositionAppend<X>(items: seq<Item<X>>, it: Item<X>, n: string)
    requires Position(items, it.name) < 0
    ensures Position(items + [it], n) == if n == it.name then |items| else Position(items, n)
  {
    assert (items + [it])[..|items|] == items;
  }

  lemma EntriesAppend<X>(items: seq<Item<X>>, it: Item<X>)
    requires DistinctNames(items) && Position(items, it.name) < 0
    ensures DistinctNames(items + [it]) && Entries(items + [it]) == Entries(items)[it.name := it]
  {
    var items' := items + [it];
    hide Position;
    forall n ensures Position(items', n) == if n == it.name then |items| else Position(items, n) {
      PositionAppend(items, it, n);
    }
    assert NameSet(items') == NameSet(items) + {it.name};
  }

  lemma EntriesUpdate<X>(items: seq<Item<X>>, k: nat, it: Item<X>)
    requires DistinctNames(items) && k < |items| && it.name == items[k].name
    ensures DistinctNames(items[k := it]) && Entries(items[k := it]) == Entries(items)[it.name := it]
  {
    var items' := items[k := it];
    forall n ensures Position(items', n) == Position(items, n) {
      var i, j := Position(items, n), Position(items', n);
      assert i >= 0 ==> items'[i].name == n;
      assert j >= 0 ==> items[j].name == n;
    }
    assert NameSet(items') == NameSet(items);
    PositionIs(items, k);
  }

  lemma EntriesRemove<X>(items: seq<Item<X>>, k: nat)
    requires DistinctNames(items) && k < |items|
    ensures DistinctNames(Without(items, k)) && Entries(Without(items, k)) == Entries(items) - {items[k].name}
  {
    var items' := Without(items, k);
    assert forall i :: 0 <= i < |items'| ==> items'[i] == items[if i < k then i else i + 1];
    forall n ensures (Position(items', n) >= 0) == (Position(items, n) >= 0 && n != items[k].name)
      ensures Position(items', n) >= 0 ==> items'[Position(items', n)] == items[Position(items, n)]
    {
      RemovedPosition(items, k, n);
    }
    assert NameSet(items') == NameSet(items) - {items[k].name};
  }

  lemma RemovedPosition<X>(items: seq<Item<X>>, k: nat, n: string)
    requires DistinctNames(items) && k < |items|
    ensures var items' := Without(items, k);
            && (Position(items', n) >= 0) == (Position(items, n) >= 0 && n != items[k].name)
            && (Position(items', n) >= 0 ==> items'[Position(items', n)] == items[Position(items, n)])
  {
    var items' := Without(items, k);
    var i, j := Position(items, n), Position(items', n);
    if j >= 0 {
      var j0 := if j < k then j else j + 1;
      assert items'[j] == items[j0];
      PositionIs(items, j0);
    }
    if i >= 0 && i != k {
      assert items'[if i < k then i else i - 1] == items[i];
    }
  }

  lemma LastIsNew<X>(items: seq<Item<X>>)
    requires DistinctNames(items) && items != []
    ensures var n := |items| - 1;
      DistinctNames(items[..n]) && Position(items[..n], items[n].name) < 0 && items[n].name !in Entries(items[..n])
  {
  }

  lemma {:induction false} EntriesCount<X>(items: seq<Item<X>>)
    requires DistinctNames(items)
    ensures |Entries(items)| == |items|
  {
    if items != [] {
      var n := |items| - 1;
      LastIsNew(items);
      hide Entries, DistinctNames, Position;
      EntriesCount(items[..n]);
      assert items == items[..n] + [items[n]];
      EntriesAppend(items[..n], items[n]);
      assert Entries(items).Keys == Entries(items[..n]).Keys + {items[n].name};
    } else {
      assert Entries(items) == map[];
    }
  }

  // ---- The block as a whole ----

  /** Everything that holds of a block between operations. */
  ghost predicate Inv<X>(ix: seq<Slot<X>>, data: seq<byte>, types: seq<byte>, items: seq<Item<X>>, locs: seq<nat>,
                         next: int, nexttype: int, remain: int, typeremain: int, count: int)
  {
    && |ix| == INDEXSIZE && IndexOk(ix) && Agree(ix, items, locs)
    && AreaOk(data, Datas(items), next, remain)
    && AreaOk(types, Typs(items), nexttype, typeremain) && |types| == TYPEAREA
    && count == |items| == |locs| <= INDEXSIZE - 1 && DistinctNames(items)
  }

  lemma AllocateInv<X>(ix: seq<Slot<X>>, data: seq<byte>, types: seq<byte>, types': seq<byte>, items: seq<Item<X>>,
                       locs: seq<nat>,
                       next: int, nexttype: int, nexttype': int, remain: int, typeremain: int, typeremain': int,
                       count: int,
                       loc: nat, p: nat, s: Slot<X>, it: Item<X>)
    requires Inv(ix, data, types, items, locs, next, nexttype, remain, typeremain, count)
    requires Position(items, it.name) < 0 && IsName(it.name) && count < INDEXSIZE - 1
    requires FreeAt(ix, it.name, p) && loc == At(INDEXSIZE, it.name, p)
    requires !s.erased && s.name == it.name && s.extra == it.extra
    requires s.size == |it.data| <= remain && s.start == next && it.data == data[next..next + |it.data|]
    requires s.typesize == |it.typ| && (s.typesize > 0 ==> s.typeaddr == nexttype)
    requires AreaOk(types', Typs(items) + [it.typ], nexttype', typeremain') && |types'| == TYPEAREA
    ensures Inv(ix[loc := s], data, types', items + [it], locs + [loc],
                next + s.size, nexttype', remain - s.size, typeremain', count + 1)
    ensures Entries(items + [it]) == Entries(items)[it.name := it]
  {
    AreaNext(data, Datas(items), next, remain);
    AreaNext(types, Typs(items), nexttype, typeremain);
    hide IndexOk, Agree, FreeAt, AreaOk, Flatten;
    AllocateIndex(ix, items, locs, loc, p, s, it);
    AppendArea(data, data, Datas(items), it.data, next, remain);
    AppendDescribes(items, it);
    EntriesAppend(items, it);
  }

  lemma RemoveInv<X>(ix: seq<Slot<X>>, ix': seq<Slot<X>>, data: seq<byte>, data': seq<byte>, types: seq<byte>,
                     types': seq<byte>,
                     items: seq<Item<X>>, locs: seq<nat>,
                     next: int, nexttype: int, remain: int, typeremain: int, count: int, k: nat)
    requires Inv(ix, data, types, items, locs, next, nexttype, remain, typeremain, count)
    requires k < |items| && Deleted(ix, ix', locs[k]) && ix'[locs[k]].name == MARKER && ix'[locs[k]].erased
    requires var n, m := |items[k].data|, |items[k].typ|;
             && AreaOk(data', Without(Datas(items), k), next - n, remain + n)
             && AreaOk(types', Without(Typs(items), k), nexttype - m, typeremain + m) && |types'| == TYPEAREA
    ensures Inv(ix', data', types', Without(items, k), Without(locs, k), next - |items[k].data|,
        nexttype - |items[k].typ|,
                remain + |items[k].data|, typeremain + |items[k].typ|, count - 1)
    ensures Entries(Without(items, k)) == Entries(items) - {items[k].name}
  {
    hide IndexOk, Agree, AreaOk, Deleted;
    DeleteIndex(ix, ix', items, locs, k);
    WithoutItems(items, k);
    EntriesRemove(items, k);
  }

  lemma UpdateInv<X>(ix: seq<Slot<X>>, data: seq<byte>, data': seq<byte>, types: seq<byte>, items: seq<Item<X>>,
                     locs: seq<nat>,
                     next: int, nexttype: int, remain: int, typeremain: int, count: int, k: nat, it: Item<X>)
    requires Inv(ix, data, types, items, locs, next, nexttype, remain, typeremain, count)
    requires k < |items| && it.name == items[k].name && it.typ == items[k].typ && |it.data| == |items[k].data|
    requires AreaOk(data', Datas(items)[k := it.data], next, remain)
    ensures locs[k] < |ix|
    ensures Inv(ix[locs[k] := ix[locs[k]].(extra := it.extra)], data', types, items[k := it], locs,
                next, nexttype, remain, typeremain, count)
    ensures Entries(items[k := it]) == Entries(items)[it.name := it]
  {
    hide IndexOk, AreaOk;
    EntriesUpdate(items, k, it);
    UpdateAgree(ix, items, locs, k, it);
    UpdateIndex(ix, locs[k], it.extra);
  }

  // ---- Bytes written anywhere in the area ----

  lemma DatasFront<X>(items: seq<Item<X>>, n: nat)
    requires n <= |items|
    ensures Datas(items[..n]) == Datas(items)[..n] && Typs(items[..n]) == Typs(items)[..n]
  {
  }

  /** The items with the bytes that `area` has where theirs are. */
  function Recut<X>(items: seq<Item<X>>, area: seq<byte>): (r: seq<Item<X>>)
    requires |Flatten(Datas(items))| <= |area|
    ensures |r| == |items|
  {
    if items == [] then []
    else
      var n := |items| - 1;
      DatasFront(items, n);
      var p := |Flatten(Datas(items)[..n])|;
      Recut(items[..n], area) + [items[n].(data := area[p..p + |items[n].data|])]
  }

  lemma {:induction false} RecutAt<X>(items: seq<Item<X>>, area: seq<byte>, i: nat)
    requires |Flatten(Datas(items))| <= |area| && i < |items|
    ensures |Flatten(Datas(items)[..i])| + |items[i].data| <= |area|
    ensures
      var p := |Flatten(Datas(items)[..i])|;
      Recut(items, area)[i] == items[i].(data := area[p..p + |items[i].data|])
  {
    var n := |items| - 1;
    DatasFront(items, n);
    if i < n {
      assert Datas(items)[..n][..i] == Datas(items)[..i];
      RecutAt(items[..n], area, i);
    }
  }

  /** Cutting the area anew leaves all sizes, and with them all places, as they were. */
  lemma {:induction false} RecutFlat<X>(items: seq<Item<X>>, area: seq<byte>)
    requires |Flatten(Datas(items))| <= |area|
    ensures Flatten(Datas(Recut(items, area))) == area[..|Flatten(Datas(items))|]
  {
    if items != [] {
      var n := |items| - 1;
      DatasFront(items, n);
      RecutFlat(items[..n], area);
      var r, r' := Recut(items, area), Recut(items[..n], area);
      assert r[..n] == r';
      DatasFront(r, n);
      var p := |Flatten(Datas(items)[..n])|;
      assert area[..p] + area[p..p + |items[n].data|] == area[..p + |items[n].data|];
    }
  }

  /** Names, types and sizes are as before. */
  lemma RecutShapes<X>(items: seq<Item<X>>, area: seq<byte>)
    requires |Flatten(Datas(items))| <= |area|
    ensures forall i :: 0 <= i < |items| ==>
      && Recut(items, area)[i] == items[i].(data := Recut(items, area)[i].data)
      && |Recut(items, area)[i].data| == |items[i].data|
  {
    hide Flatten, Recut;
    forall i | 0 <= i < |items| ensures Recut(items, area)[i] == items[i].(data := Recut(items, area)[i].data)
                                        && |Recut(items, area)[i].data| == |items[i].data| {
      RecutAt(items, area, i);
    }
  }

  lemma RecutFront<X>(items: seq<Item<X>>, area: seq<byte>, i: nat)
    requires |Flatten(Datas(items))| <= |area| && i <= |items|
    ensures |Flatten(Datas(items)[..i])| <= |area|
    ensures Flatten(Datas(Recut(items, area))[..i]) == area[..|Flatten(Datas(items)[..i])|]
    ensures Typs(Recut(items, area)) == Typs(items)
  {
    hide Flatten;
    DatasFront(items, i);
    FlattenFront(Datas(items), i);
    var r, r' := Recut(items, area), Recut(items[..i], area);
    forall j | 0 <= j < |items| ensures r[j].typ == items[j].typ && (j < i ==> r[j] == r'[j]) {
      RecutAt(items, area, j);
      if j < i {
        RecutAt(items[..i], area, j);
        assert Datas(items)[..i][..j] == Datas(items)[..j];
      }
    }
    assert r[..i] == r';
    DatasFront(r, i);
    RecutFlat(items[..i], area);
  }

  lemma FlattenFront(s: seq<seq<byte>>, i: nat)
    requires i <= |s|
    ensures |Flatten(s[..i])| <= |Flatten(s)|
  {
    assert s == s[..i] + s[i..];
    FlattenConcat(s[..i], s[i..]);
  }

  lemma RecutAgree<X>(ix: seq<Slot<X>>, items: seq<Item<X>>, locs: seq<nat>, area: seq<byte>)
    requires Agree(ix, items, locs) && |Flatten(Datas(items))| <= |area|
    ensures Agree(ix, Recut(items, area), locs)
  {
    hide Flatten, Recut;
    forall i | 0 <= i < |locs| ensures Describes(ix[locs[i]], Recut(items, area), i) {
      assert Describes(ix[locs[i]], items, i);
      RecutAt(items, area, i);
      RecutFront(items, area, i);
    }
  }

  lemma RecutInv<X>(ix: seq<Slot<X>>, data: seq<byte>, data': seq<byte>, types: seq<byte>, items: seq<Item<X>>,
                    locs: seq<nat>,
                    next: int, nexttype: int, remain: int, typeremain: int, count: int)
    requires Inv(ix, data, types, items, locs, next, nexttype, remain, typeremain, count) && |data'| == |data|
    ensures |Flatten(Datas(items))| == next <= |data'|
    ensures Inv(ix, data', types, Recut(items, data'), locs, next, nexttype, remain, typeremain, count)
  {
    AreaNext(data, Datas(items), next, remain);
    hide Flatten, Recut, Agree, IndexOk;
    RecutFlat(items, data');
    RecutFront(items, data', 0);
    RecutAgree(ix, items, locs, data');
    var r := Recut(items, data');
    forall i | 0 <= i < |items| ensures r[i].name == items[i].name {
      RecutAt(items, data', i);
    }
  }

  /**
   A write that begins in front of item `k` and ends inside it leaves the other items alone exactly when the bytes in
   front stay the same.
   */
  lemma FrontDecides<X>(items: seq<Item<X>>, area: seq<byte>, area': seq<byte>, k: nat)
    requires k < |items| && |area'| == |area| && |Flatten(Datas(items))| <= |area|
    requires Flatten(Datas(items)) == area[..|Flatten(Datas(items))|]
    requires |Flatten(Datas(items)[..k + 1])| <= |area|
    requires forall j :: |Flatten(Datas(items)[..k + 1])| <= j < |area| ==> area'[j] == area[j]
    ensures |Flatten(Datas(items)[..k])| <= |area|
    ensures (forall i :: 0 <= i < |items| && i != k ==> Recut(items, area')[i] == items[i])
      <==> area'[..|Flatten(Datas(items)[..k])|] == area[..|Flatten(Datas(items)[..k])|]
  {
    hide Flatten, Recut;
    var p, r := |Flatten(Datas(items)[..k])|, Recut(items, area');
    FlattenFront(Datas(items), k);
    RecutFront(items, area', k);
    FlattenSplit(Datas(items), k);
    assert Datas(items) == Datas(items)[..k] + Datas(items)[k..];
    FlattenConcat(Datas(items)[..k], Datas(items)[k..]);
    assert Flatten(Datas(items)[..k]) == area[..p];
    if forall i :: 0 <= i < |items| && i != k ==> r[i] == items[i] {
      assert Datas(r)[..k] == Datas(items)[..k];
    }
    if area'[..p] == area[..p] {
      forall i | 0 <= i < |items| && i != k ensures r[i] == items[i] {
        FlattenSplit(Datas(items), i);
        if i < k {
          FlattenMonotone(Datas(items), i, k);
          forall j | 0 <= j < p ensures area'[j] == area[j] {
            assert area'[..p][j] == area[..p][j];
          }
        } else {
          FlattenFront(Datas(items)[..i], k + 1);
          assert Datas(items)[..i][..k + 1] == Datas(items)[..k + 1];
        }
        ItemStays(items, area, area', i);
      }
    }
  }

  lemma ItemStays<X>(items: seq<Item<X>>, area: seq<byte>, area': seq<byte>, i: nat)
    requires i < |items| && |area'| == |area| && |Flatten(Datas(items))| <= |area|
    requires Flatten(Datas(items)) == area[..|Flatten(Datas(items))|]
    requires |Flatten(Datas(items)[..i])| + |items[i].data| <= |area|
    requires
      var q := |Flatten(Datas(items)[..i])|;
      forall j :: q <= j < q + |items[i].data| ==> area'[j] == area[j]
    ensures Recut(items, area')[i] == items[i]
  {
    hide Flatten, Recut;
    var q := |Flatten(Datas(items)[..i])|;
    RecutAt(items, area', i);
    ChunkOf(area, Datas(items), i);
    assert area'[q..q + |items[i].data|] == area[q..q + |items[i].data|];
  }

  lemma ChunkOf(area: seq<byte>, chunks: seq<seq<byte>>, i: nat)
    requires i < |chunks| && |Flatten(chunks)| <= |area| && Flatten(chunks) == area[..|Flatten(chunks)|]
    ensures
      var p := |Flatten(chunks[..i])|;
      p + |chunks[i]| <= |area| && chunks[i] == area[p..p + |chunks[i]|]
  {
    FlattenSplit(chunks, i);
    var p := |Flatten(chunks[..i])|;
    assert chunks[i] == Flatten(chunks)[p..p + |chunks[i]|];
  }

  /** The invariant alone does not keep lookups going: an index of tombstones only satisfies it, and none would end. */
  lemma TombstonesOnly<X>(extra: X, size: nat)
    ensures
      var ix := seq(INDEXSIZE, _ => Slot(MARKER, 0, 0, true, 0, 0, extra));
      && Inv(ix, Zeros(size), Zeros(TYPEAREA), [], [], 0, 0, size, TYPEAREA, 0)
      && |NeverUsed(Names(ix))| == 0
  {
    var ix := seq(INDEXSIZE, _ => Slot(MARKER, 0, 0, true, 0, 0, extra));
    TableSizesArePrime();
    assert NeverUsed(Names(ix)) == {};
  }
}
