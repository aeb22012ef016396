/** Boards on which no slot is left that was never used: how they come about, and that lookups then do not end. */
module BoardFull {
  import opened Arithmetic
  import opened Bytes
  import opened Probing
  import opened Store
  import opened Heap
  import opened Board
  import opened BoardRuns
  import Runs

  /** As many tags as a board takes. */
  const MOST := INDEXSIZE - 1

  /** Names of two characters, all different. */
  function Nth(i: nat): (name: string)
    requires i < MOST
    ensures IsName(name) && |name| == 2
  {
    [(1 + i / 127) as char, (1 + i % 127) as char]
  }

  /** One of the first `n` names. */
  predicate Early(name: string, n: nat) {
    |name| == 2 && (name[0] as int - 1) * 127 + (name[1] as int - 1) < n
  }

  lemma NthEarly(i: nat, n: nat)
    requires i < MOST
    ensures Early(Nth(i), n) <==> i < n
  {
    assert i == i / 127 * 127 + i % 127;
  }

  function Filling(n: nat): seq<Op>
    requires n <= MOST
  {
    if n == 0 then [] else Filling(n - 1) + [Create(Nth(n - 1), 1, [])]
  }

  // ---- Counting slots ----

  /** Every slot is live, never used, or a tombstone; without tombstones the counts add up. */
  lemma NoTombstone(b: Board, l: nat)
    requires Valid(b) && b.Unused() + |b.items| == INDEXSIZE && l < INDEXSIZE
    ensures b.index.Length == INDEXSIZE && (Live(b.index[l]) <==> b.index[l].name != "")
  {
    var ix := b.index[..];
    LiveCountIsItemCount(ix, b.items, b.locs);
    LiveCountIsCardinality(ix);
    var slots := NeverUsed(Names(ix)) + LiveLocs(ix);
    assert NeverUsed(Names(ix)) !! LiveLocs(ix);
    assert |slots| == INDEXSIZE;
    SubsetOfRange(slots, INDEXSIZE);
    assert l in slots;
  }

  /** A creation takes a slot that is not live; without tombstones that is one never used. */
  lemma TookUnused(ix: seq<Slot<StringInfo>>, items: seq<Item<StringInfo>>, locs: seq<nat>,
                   items': seq<Item<StringInfo>>, locs': seq<nat>, name: string)
    requires TookSlot(ix, items, locs, items', locs', name)
    ensures locs' != [] && locs'[|locs'| - 1] < |ix| && !Live(ix[locs'[|locs'| - 1]])
  {
    var p: nat :| FreeAt(ix, name, p) && TookAt(ix, items, locs, items', locs', At(INDEXSIZE, name, p));
  }

  // ---- Filling up ----

  /** The first `n` names are taken, a byte each. */
  ghost predicate Has(s: State, n: nat) {
    |s.tags| == n && s.room == MOST - n && forall name :: name in s.tags ==> Early(name, n)
  }

  lemma HasMore(s: State, n: nat)
    requires Has(s, n) && n < MOST
    ensures Step(s, Create(Nth(n), 1, [])).status == Ok && Has(Step(s, Create(Nth(n), 1, [])).state, n + 1)
  {
    NthEarly(n, n);
    NthEarly(n, n + 1);
    hide Nth;
    assert forall name :: Early(name, n) ==> Early(name, n + 1);
    hide Early;
  }

  lemma HasNone()
    ensures Has(Run(Blank(MOST), Filling(0)), 0) && Created(Blank(MOST), Filling(0)) == 0
  {
  }

  lemma {:induction false} Filled(n: nat)
    requires n <= MOST
    ensures Has(Run(Blank(MOST), Filling(n)), n) && Created(Blank(MOST), Filling(n)) == n
  {
    hide Has, Step, Run, Created, Nth;
    if n == 0 {
      HasNone();
    } else {
      Filled(n - 1);
      HasMore(Run(Blank(MOST), Filling(n - 1)), n - 1);
      CreatedOneMore(Blank(MOST), Filling(n - 1), Create(Nth(n - 1), 1, []));
    }
  }

  method FillUp() returns (b: Board)
    ensures Valid(b) && fresh(b) && fresh(b.data) && fresh(b.types) && fresh(b.index)
    ensures Abs(b) == Run(Blank(MOST), Filling(MOST)) && b.Unused() == 1
  {
    Nothing();
    hide Valid, Nth, Run, Filling;
    b := CreateB(MOST);
    hide Abs, Blank;
    for i := 0 to MOST
      invariant Valid(b) && fresh(b) && fresh(b.data) && fresh(b.types) && fresh(b.index)
      invariant Abs(b) == Run(Blank(MOST), Filling(i)) && b.Unused() == INDEXSIZE - i
    {
      FillOne(b, i);
    }
  }

  lemma Nothing()
    ensures Run(Blank(MOST), Filling(0)) == Blank(MOST)
  {
  }

  lemma OnlyUnusedFree(b: Board)
    requires Valid(b) && b.Unused() + |b.items| == INDEXSIZE
    ensures forall l :: 0 <= l < b.index.Length && !Live(b.index[..][l]) ==> b.index[..][l].name == ""
  {
    forall l | 0 <= l < b.index.Length && !Live(b.index[..][l]) ensures b.index[..][l].name == "" {
      NoTombstone(b, l);
    }
  }

  ghost predicate NoneBuried(ix: seq<Slot<StringInfo>>) {
    |ix| == INDEXSIZE && forall l :: 0 <= l < |ix| && !Live(ix[l]) ==> ix[l].name == ""
  }

  /** Before the next creation: it will find a slot, and no tombstone. */
  lemma ReadyFor(b: Board, i: nat)
    requires Valid(b) && i < MOST && Abs(b) == Run(Blank(MOST), Filling(i)) && b.Unused() == INDEXSIZE - i
    ensures b.LookupEnds(Nth(i)) && NoneBuried(b.index[..])
  {
    hide Run, Filling, Nth;
    Filled(i);
    CountIs(b);
    b.LookupEndsExactly(Nth(i));
    OnlyUnusedFree(b);
  }

  lemma FillsOn(i: nat)
    requires i < MOST
    ensures Step(Run(Blank(MOST), Filling(i)), Create(Nth(i), 1, [])) == Outcome(Run(Blank(MOST), Filling(i + 1)), Ok)
  {
    hide Run, Step, Has, Nth, Created;
    Filled(i);
    HasMore(Run(Blank(MOST), Filling(i)), i);
    CreatedOneMore(Blank(MOST), Filling(i), Create(Nth(i), 1, []));
  }

  method FillOne(b: Board, i: nat)
    requires Valid(b) && i < MOST && Abs(b) == Run(Blank(MOST), Filling(i)) && b.Unused() == INDEXSIZE - i
    modifies b, b.index, b.data, b.types
    ensures Valid(b) && Abs(b) == Run(Blank(MOST), Filling(i + 1)) && b.Unused() == INDEXSIZE - i - 1
  {
    ReadyFor(b, i);
    FillsOn(i);
    ghost var ix, items, locs := b.index[..], b.items, b.locs;
    hide Valid, Abs, Run, Step, Filling, TookSlot, Nth;
    var status := CreateItem(b, Nth(i), 1, []);
    TookUnused(ix, items, locs, b.items, b.locs, Nth(i));
  }

  lemma CountIs(b: Board)
    requires Valid(b)
    ensures |b.items| == |Abs(b).tags| && b.index.Length == INDEXSIZE
  {
    b.Counters();
    TagCount(Entries(b.items));
  }

  // ---- The last slot ----

  /** The only slot never used is the one on the path of `name` at probe `p`, and it is not the last on that path. */
  ghost predicate Last(b: Board, name: string, p: nat)
    reads b.index
  {
    && b.index.Length == INDEXSIZE && p + 1 < INDEXSIZE && b.UnusedSlots() == {At(INDEXSIZE, name, p)}
  }

  lemma OnlyOne(b: Board, u: nat)
    requires b.Unused() == 1 && u < b.index.Length && b.index[u].name == ""
    ensures b.UnusedSlots() == {u}
  {
    assert u in b.UnusedSlots();
    assert |b.UnusedSlots() - {u}| == 0;
  }

  /** After a whole cycle the path is back where it began. */
  lemma CycleEnds(name: string, p: nat)
    requires p < INDEXSIZE && (At(INDEXSIZE, name, p) + Hash2(name)) % INDEXSIZE != Hash1(name)
    ensures p + 1 < INDEXSIZE
  {
    AtNext(INDEXSIZE, name, p);
    var h, c := Hash1(name), Hash2(name);
    hide Hash1, Hash2, Walk;
    WalkClosedForm(INDEXSIZE, h, c, INDEXSIZE);
    ModAddMultiple(h, c, INDEXSIZE);
    assert At(INDEXSIZE, name, INDEXSIZE) == (h + INDEXSIZE * c) % INDEXSIZE == h;
  }

  lemma HashesOf()
    ensures Hash1("!") == 33 && Hash2("!") == 33 && Hash1("~~~") == 101 && Hash2("~~~") == 103
  {
    assert CharSum("!") == 33 by {
      assert "!"[..0] == "";
    }
    assert CharSum("~~~") == 378 by {
      assert "~~~"[..2] == "~~" && "~~"[..1] == "~" && "~"[..0] == "";
    }
  }

  /** One of two names has a path on which the last never-used slot is not the last. */
  method ChooseName(b: Board) returns (name: string, next: nat, ghost p: nat)
    requires Valid(b) && b.Unused() == 1 && "!" !in Abs(b).tags && "~~~" !in Abs(b).tags
    ensures IsName(name) && name !in Abs(b).tags && Last(b, name, p) && next == At(INDEXSIZE, name, p + 1)
  {
    HashesOf();
    hide Valid, Abs, Hash1, Hash2;
    var loc;
    name := "!";
    loc, next, p := Unfilled(b, name);
    if next == 33 {
      ghost var first := loc;
      name := "~~~";
      loc, next, p := Unfilled(b, name);
      if next == 101 {
        OnlyOne(b, first);
        OnlyOne(b, loc);
        assert false;
      }
    }
    CycleEnds(name, p);
  }

  /** The never-used slot that a lookup of an unknown name finds, and the one behind it. */
  method Unfilled(b: Board, name: string) returns (loc: nat, next: nat, ghost p: nat)
    requires Valid(b) && b.Unused() == 1 && IsName(name) && name !in Abs(b).tags
    ensures b.index.Length == INDEXSIZE && p < INDEXSIZE && loc == At(INDEXSIZE, name, p)
    ensures next == At(INDEXSIZE, name, p + 1) == (loc + Hash2(name)) % INDEXSIZE
    ensures b.index[loc].name == "" && b.UnusedSlots() == {loc}
  {
    b.LookupEndsExactly(name);
    TableSizesArePrime();
    ghost var k;
    loc, k := b.Find(name);
    assert k < 0;
    p := ProbeOf(INDEXSIZE, name, loc);
    OnlyOne(b, loc);
    var c := ComputeHash2(name);
    AtNext(INDEXSIZE, name, p);
    next := (loc + c) % INDEXSIZE;
  }

  /** Which slots are taken, once all but one are: every one but that. */
  lemma TakenSlots(b: Board, name: string, p: nat, j: nat)
    requires Valid(b) && |b.items| == MOST && Last(b, name, p) && j <= p + 1 && j != p
    ensures At(INDEXSIZE, name, j) in b.locs && b.index[At(INDEXSIZE, name, j)].name != ""
    ensures j < p ==> At(INDEXSIZE, name, j) != At(INDEXSIZE, name, p + 1)
  {
    TableSizesArePrime();
    AtInjective(INDEXSIZE, name, if j < p then j else p, if j < p then p else j);
    if j < p {
      AtInjective(INDEXSIZE, name, j, p + 1);
    }
    assert At(INDEXSIZE, name, j) !in b.UnusedSlots();
    NoTombstone(b, At(INDEXSIZE, name, j));
  }

  /** The tag in a taken slot. */
  lemma TagInSlot(b: Board, l: nat)
    requires Valid(b) && l in b.locs
    ensures l < b.index.Length && b.index[l].name in Abs(b).tags && IsName(b.index[l].name)
    ensures var k := Position(b.items, b.index[l].name); 0 <= k < |b.locs| && b.locs[k] == l
  {
    var i :| 0 <= i < |b.locs| && b.locs[i] == l;
    assert Describes(b.index[..][b.locs[i]], b.items, i);
    PositionIs(b.items, i);
  }

  lemma LocsLive(b: Board)
    requires Valid(b)
    ensures forall l :: l in b.locs ==> l < b.index.Length && Live(b.index[l])
    ensures |b.locs| == |b.items|
  {
    forall l | l in b.locs ensures l < b.index.Length && Live(b.index[l]) {
      var i :| 0 <= i < |b.locs| && b.locs[i] == l;
      assert Describes(b.index[..][b.locs[i]], b.items, i);
    }
  }

  /** A slot that is not the one given up stays taken. */
  lemma StillTaken(locs: seq<nat>, k: nat, l: nat)
    requires k < |locs| && l in locs && l != locs[k]
    ensures l in Without(locs, k)
  {
    var i :| 0 <= i < |locs| && locs[i] == l;
    assert Without(locs, k)[if i < k then i else i - 1] == l;
  }

  /** The path of `name` leads over taken slots to a slot never used. */
  ghost predicate Leads(b: Board, name: string, p: nat)
    reads b.index
  {
    && b.index.Length == INDEXSIZE && b.UnusedSlots() == {At(INDEXSIZE, name, p)}
    && forall j :: 0 <= j < p ==> Live(b.index[At(INDEXSIZE, name, j)])
  }

  /** Deletes the tag in the slot behind the last unused one. */
  method GiveUp(b: Board, name: string, next: nat, ghost p: nat) returns (gone: string)
    requires Valid(b) && |b.items| == MOST && Last(b, name, p) && next == At(INDEXSIZE, name, p + 1)
    modifies b, b.index, b.data, b.types
    ensures Valid(b) && gone in old(Abs(b)).tags && IsName(gone)
    ensures Outcome(Abs(b), Ok) == Step(old(Abs(b)), Delete(gone)) && Leads(b, name, p)
  {
    TakenSlots(b, name, p, p + 1);
    TagInSlot(b, next);
    gone := b.index[next].name;
    b.LookupEndsExactly(gone);
    ghost var locs, k := b.locs, Position(b.items, gone);
    forall j | 0 <= j < p ensures At(INDEXSIZE, name, j) in locs && At(INDEXSIZE, name, j) != next {
      TakenSlots(b, name, p, j);
    }
    hide Inv, Entries, NameSet, At, Names, NeverUsed, Live, Step, IsName, Position;
    var status := DeleteItem(b, gone);
    assert status == Ok by { GoneIsThere(old(Abs(b)), gone); }
    LocsLive(b);
    forall j | 0 <= j < p ensures Live(b.index[At(INDEXSIZE, name, j)]) {
      StillTaken(locs, k, At(INDEXSIZE, name, j));
    }
  }

  lemma GoneIsThere(s: State, name: string)
    requires name in s.tags
    ensures Step(s, Delete(name)).status == Ok
  {
  }

  /** The creation finds the last unused slot before the tombstone. */
  method TakeIt(b: Board, name: string, ghost p: nat)
    requires Valid(b) && IsName(name) && name !in Abs(b).tags && Leads(b, name, p)
    requires |Abs(b).tags| < MOST && Abs(b).room >= 0
    modifies b, b.index, b.data, b.types
    ensures Valid(b) && b.Unused() == 0 && Outcome(Abs(b), Ok) == Step(old(Abs(b)), Create(name, 0, []))
  {
    assert Step(Abs(b), Create(name, 0, [])).status == Ok;
    b.LookupEndsExactly(name);
    ghost var ix, items, locs := b.index[..], b.items, b.locs;
    assert ix[At(INDEXSIZE, name, p)].name == "" by {
      assert At(INDEXSIZE, name, p) in b.UnusedSlots();
    }
    hide Inv, Entries, NameSet, At, Names, NeverUsed, Step, IsName, Position;
    var status := CreateItem(b, name, 0, []);
    ghost var p': nat :| FreeAt(ix, name, p') && TookAt(ix, items, locs, b.items, b.locs, At(INDEXSIZE, name, p'));
    assert p' == p;
  }

  lemma RunTwo(s: State, ops: seq<Op>, a: Op, b: Op)
    ensures Run(s, ops + [a] + [b]) == After(After(Run(s, ops), a), b)
    ensures !a.Create? && !a.Clear? && b.Create? && Step(After(Run(s, ops), a), b).status == Ok ==>
      Created(s, ops + [a] + [b]) == Created(s, ops) + 1
  {
    CreatedOneMore(s, ops, a);
    CreatedOneMore(s, ops + [a], b);
  }

  lemma NoShortNames()
    ensures "!" !in Run(Blank(MOST), Filling(MOST)).tags && "~~~" !in Run(Blank(MOST), Filling(MOST)).tags
  {
    Filled(MOST);
  }

  /**
   One creation more than a board has room for tags, with a deletion before it, can use up the last slot. No lookup of
   an unknown name ends on that board.
   */
  method NoSlotIsLeft() returns (b: Board, ghost ops: seq<Op>)
    ensures Valid(b) && Abs(b) == Run(Blank(MOST), ops) && Created(Blank(MOST), ops) == INDEXSIZE
    ensures forall name :: IsName(name) && name !in Abs(b).tags ==> !b.LookupEnds(name)
  {
    b := FillUp();
    NoShortNames();
    Filled(MOST);
    CountIs(b);
    ghost var s := Abs(b);
    hide Valid, Abs, Step, Run, IsName, Filling, Created, Last, Leads;
    var name, next, p := ChooseName(b);
    var gone := GiveUp(b, name, next, p);
    AfterDelete(s, gone, name);
    TakeIt(b, name, p);
    ops := Filling(MOST) + [Delete(gone)] + [Create(name, 0, [])];
    RunTwo(Blank(MOST), Filling(MOST), Delete(gone), Create(name, 0, []));
    NoLookupEnds(b);
  }

  lemma NoLookupEnds(b: Board)
    requires Valid(b) && b.Unused() == 0
    ensures forall name :: IsName(name) && name !in Abs(b).tags ==> !b.LookupEnds(name)
  {
    hide Valid, Abs, IsName;
    forall name | IsName(name) && name !in Abs(b).tags ensures !b.LookupEnds(name) {
      FoundExactly(b, name);
    }
  }

  lemma AfterDelete(s: State, gone: string, name: string)
    requires gone in s.tags && name !in s.tags && |s.tags| == MOST && s.room >= 0
    ensures
      var s' := After(s, Delete(gone));
      name !in s'.tags && |s'.tags| < MOST && s'.room >= 0
  {
  }
}
