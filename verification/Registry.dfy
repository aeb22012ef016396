/** The process-wide table of loaded queues, boards and databases. */
module Registry {
  import opened Bytes
  import opened Probing

  /** `handle` stands for the file, the mapping and the locks kept for a loaded name. */
  datatype Entry = Entry(name: string, handle: int, erased: bool, count: int)

  /** What is registered under a name: its handle and how often it is in use. */
  datatype Registration = Registration(handle: int, count: int)

  function Names(table: seq<Entry>): (n: seq<string>)
    ensures |n| == |table| && forall i :: 0 <= i < |table| ==> n[i] == table[i].name
  {
    seq(|table|, i requires 0 <= i < |table| => table[i].name)
  }

  ghost predicate EntryOk(e: Entry) {
    || (e.name == "" && !e.erased && e.count == 0)
    || (e.name == MARKER && e.erased && e.count == 0)
    || (IsName(e.name) && !e.erased && e.count >= 1)
  }

  /** The registrations are exactly the live entries. */
  ghost predicate Shows(table: seq<Entry>, view: map<string, Registration>) {
    && (forall l :: 0 <= l < |table| && LiveName(table[l].name) ==>
          table[l].name in view && view[table[l].name] == Registration(table[l].handle, table[l].count))
    && (forall n :: n in view ==> n in Names(table) && LiveName(n))
  }

  /** What holds of the table between calls; `used` slots have been taken at some time. */
  ghost predicate Inv(table: seq<Entry>, view: map<string, Registration>, used: int) {
    && |table| == TABLESIZE && (forall l :: 0 <= l < |table| ==> EntryOk(table[l]))
    && ProbeTable(Names(table)) && Shows(table, view)
    && |NeverUsed(Names(table))| == TABLESIZE - used && used <= TABLESIZE - 1
  }

  /** One never-used slot always remains, so every probe loop ends. */
  lemma SomeSlotIsNeverUsed(table: seq<Entry>, view: map<string, Registration>, used: int) returns (l: nat)
    requires Inv(table, view, used)
    ensures l < TABLESIZE && table[l].name == ""
  {
    assert NeverUsed(Names(table)) != {};
    l :| l in NeverUsed(Names(table));
  }

  /** A lookup stops at the entry of a registered name, or at a never-used slot. */
  lemma LookupIsExact(table: seq<Entry>, view: map<string, Registration>, used: int, name: string, p: nat)
    requires Inv(table, view, used) && IsName(name) && StopsFirst(Names(table), name, p)
    ensures var e := table[At(TABLESIZE, name, p)];
            if name in view then e.name == name && !e.erased && view[name] == Registration(e.handle, e.count)
            else e.name == ""
  {
    LookupFindsIff(Names(table), name, p);
  }

  lemma SlotIsOk(table: seq<Entry>, view: map<string, Registration>, used: int, l: nat)
    requires Inv(table, view, used) && l < TABLESIZE
    ensures EntryOk(table[l])
  {
  }

  /** Changing handle or count of a live entry. */
  lemma UpdateKeeps(table: seq<Entry>, view: map<string, Registration>, used: int, l: nat, e: Entry)
    requires Inv(table, view, used) && l < |table| && LiveName(table[l].name)
    requires e.name == table[l].name && EntryOk(e)
    ensures Inv(table[l := e], view[e.name := Registration(e.handle, e.count)], used)
  {
    assert Names(table[l := e]) == Names(table);
  }

  lemma EnterKeeps(table: seq<Entry>, view: map<string, Registration>, used: int, p: nat, e: Entry)
    requires Inv(table, view, used) && IsName(e.name) && EntryOk(e) && e.name !in view
    requires var at := table[At(TABLESIZE, e.name, p)];
             !LiveName(at.name) && (at.name == "" ==> used < TABLESIZE - 1)
    requires forall j :: 0 <= j < p ==> LiveName(table[At(TABLESIZE, e.name, j)].name)
    ensures var l := At(TABLESIZE, e.name, p);
            Inv(table[l := e], view[e.name := Registration(e.handle, e.count)],
                if table[l].name == "" then used + 1 else used)
  {
    var l := At(TABLESIZE, e.name, p);
    var table', names := table[l := e], Names(table);
    assert e.name !in names;
    InsertKeeps(names, e.name, p);
    assert Names(table') == names[l := e.name];
    EnterShows(table, view, l, e);
    assert NeverUsed(Names(table')) == NeverUsed(names) - {l};
  }

  lemma EnterShows(table: seq<Entry>, view: map<string, Registration>, l: nat, e: Entry)
    requires Shows(table, view) && l < |table| && !LiveName(table[l].name) && LiveName(e.name) && e.name !in view
    ensures Shows(table[l := e], view[e.name := Registration(e.handle, e.count)])
  {
    var table' := table[l := e];
    forall n | n in view ensures n in Names(table') {
      var i :| 0 <= i < |table| && table[i].name == n;
      assert table'[i].name == n;
    }
    assert Names(table')[l] == e.name;
  }

  lemma LeaveKeeps(table: seq<Entry>, view: map<string, Registration>, used: int, l: nat, e: Entry)
    requires Inv(table, view, used) && l < |table| && LiveName(table[l].name)
    requires e.name == MARKER && EntryOk(e)
    ensures Inv(table[l := e], view - {table[l].name}, used)
  {
    var table', names := table[l := e], Names(table);
    DeleteKeeps(names, l);
    assert Names(table') == names[l := MARKER];
    assert NeverUsed(Names(table')) == NeverUsed(names);
    LeaveShows(table, view, l, e);
  }

  lemma LeaveShows(table: seq<Entry>, view: map<string, Registration>, l: nat, e: Entry)
    requires Shows(table, view) && Distinct(Names(table)) && l < |table| && LiveName(table[l].name) && e.name == MARKER
    ensures Shows(table[l := e], view - {table[l].name})
  {
    var table', names := table[l := e], Names(table);
    forall i | 0 <= i < |table'| && LiveName(table'[i].name) ensures table'[i].name != table[l].name {
      assert names[i] == table[i].name && names[l] == table[l].name;
    }
    forall n | n in view && n != table[l].name ensures n in Names(table') {
      var i :| 0 <= i < |table| && table[i].name == n;
      assert Names(table')[i] == n;
    }
  }

  class RegistryTable {
    const table: array<Entry>
    var tabCounter: int
    ghost var view: map<string, Registration>

    ghost predicate Valid()
      reads this, table
    {
      table.Length == TABLESIZE && Inv(table[..], view, tabCounter) && 0 <= tabCounter <= TABLESIZE - 1
    }

    constructor ()
      ensures Valid() && fresh(table) && view == map[]
    {
      table := new Entry[TABLESIZE](_ => Entry("", 0, false, 0));
      tabCounter := 0;
      view := map[];
      new;
      TableSizesArePrime();
      AllNeverUsed(Names(table[..]));
    }

    /** The lookup loop of `fetchtab`, `fetchtab1` and `deletetab`. It needs no precondition beyond the invariant. */
    method Find(name: string) returns (loc: nat)
      requires Valid() && IsName(name)
      ensures loc < table.Length
      ensures if name in view
              then table[loc].name == name && !table[loc].erased
                && view[name] == Registration(table[loc].handle, table[loc].count)
              else table[loc].name == ""
      ensures EntryOk(table[loc])
    {
      hide Inv, Shows;
      assert table.Length == TABLESIZE;
      ghost var names := Names(table[..]);
      ghost var free := SomeSlotIsNeverUsed(table[..], view, tabCounter);
      TableSizesArePrime();
      LookupEndsIff(names, name);
      assert Stops(names, name, free);
      ghost var stop: nat :| StopsFirst(names, name, stop);
      loc := ComputeHash1(name);
      var c := ComputeHash2(name);
      ghost var p: nat := 0;
      while table[loc].name != "" && table[loc].name != name
        invariant loc == At(TABLESIZE, name, p) && p <= stop
        invariant forall j :: 0 <= j < p ==> !Stops(names, name, At(TABLESIZE, name, j))
        decreases stop - p
      {
        assert names[loc] == table[loc].name;
        loc, p := (loc + c) % TABLESIZE, p + 1;
      }
      assert names[loc] == table[loc].name;
      LookupIsExact(table[..], view, tabCounter, name, p);
      SlotIsOk(table[..], view, tabCounter, loc);
    }

    /** Register a name under its first reusable slot; the table never takes its last never-used slot. */
    method InsertTab(name: string, handle: int) returns (ok: bool)
      requires Valid() && IsName(name) && name !in view
      modifies this, table
      ensures Valid()
      ensures ok ==> view == old(view)[name := Registration(handle, 1)]
      ensures !ok ==> view == old(view) && tabCounter == TABLESIZE - 1
      ensures old(tabCounter) < TABLESIZE - 1 ==> ok
    {
      hide Inv, Shows;
      var loc: nat;
      ghost var p: nat;
      loc, p := FindFree(name);
      if table[loc].erased {
        EnterKeeps(table[..], view, tabCounter, p, Entry(name, handle, false, 1));
      } else if tabCounter == TABLESIZE - 1 {
        return false;
      } else {
        EnterKeeps(table[..], view, tabCounter, p, Entry(name, handle, false, 1));
        tabCounter := tabCounter + 1;
      }
      ghost var t := table[..];
      table[loc] := Entry(name, handle, false, table[loc].count + 1);
      assert table[..] == t[loc := Entry(name, handle, false, 1)];
      view := view[name := Registration(handle, 1)];
      return true;
    }

    method FindFree(name: string) returns (loc: nat, ghost p: nat)
      requires Valid() && IsName(name)
      ensures loc == At(TABLESIZE, name, p)
      ensures !LiveName(table[loc].name) && EntryOk(table[loc])
      ensures forall j :: 0 <= j < p ==> LiveName(table[At(TABLESIZE, name, j)].name)
    {
      hide Inv;
      ghost var free := SomeSlotIsNeverUsed(table[..], view, tabCounter);
      TableSizesArePrime();
      ghost var stop := ProbeOf(TABLESIZE, name, free);
      loc := ComputeHash1(name);
      var c := ComputeHash2(name);
      p := 0;
      while table[loc].name != "" && !table[loc].erased
        invariant loc == At(TABLESIZE, name, p) && p <= stop
        invariant forall j :: 0 <= j < p ==> LiveName(table[At(TABLESIZE, name, j)].name)
        decreases stop - p
      {
        SlotIsOk(table[..], view, tabCounter, loc);
        loc, p := (loc + c) % TABLESIZE, p + 1;
      }
      SlotIsOk(table[..], view, tabCounter, loc);
    }

    method FetchTab(name: string) returns (r: Option<int>)
      requires Valid() && IsName(name)
      ensures r == if name in view then Some(view[name].handle) else None
    {
      var loc := Find(name);
      if table[loc].name == "" || table[loc].erased {
        return None;
      }
      return Some(table[loc].handle);
    }

    /** Fetch and count one more user. */
    method FetchTab1(name: string) returns (r: Option<int>)
      requires Valid() && IsName(name)
      modifies this`view, table
      ensures Valid()
      ensures name !in old(view) ==> r == None && view == old(view)
      ensures name in old(view) ==> var g := old(view)[name];
                r == Some(g.handle) && view == old(view)[name := Registration(g.handle, g.count + 1)]
    {
      hide Inv, Shows;
      var loc := Find(name);
      if table[loc].name == "" || table[loc].erased {
        return None;
      }
      Recount(loc, table[loc].count + 1);
      return Some(table[loc].handle);
    }

    method Recount(loc: nat, count: int)
      requires Valid() && loc < table.Length && LiveName(table[loc].name) && count >= 1
      modifies this`view, table
      ensures Valid()
      ensures old(table[loc]).name in old(view)
      ensures table[loc] == old(table[loc]).(count := count)
      ensures view == old(view)[table[loc].name := Registration(table[loc].handle, count)]
    {
      ghost var t, e := table[..], table[loc].(count := count);
      assert EntryOk(t[loc]);
      UpdateKeeps(t, view, tabCounter, loc, e);
      hide Inv;
      table[loc] := table[loc].(count := count);
      assert table[..] == t[loc := e];
      view := view[e.name := Registration(e.handle, count)];
    }

    /** Count one user less; the last one leaves a tombstone. `tabCounter` stays. */
    method DeleteTab(name: string) returns (freed: Option<int>)
      requires Valid() && IsName(name)
      modifies this`view, table
      ensures Valid()
      ensures name !in old(view) ==> freed == None && view == old(view)
      ensures name in old(view) ==> var g := old(view)[name];
                if g.count > 1 then freed == None && view == old(view)[name := Registration(g.handle, g.count - 1)]
                else freed == Some(g.handle) && view == old(view) - {name}
    {
      hide Inv, Shows;
      var loc := Find(name);
      if table[loc].name == "" || table[loc].erased {
        return None;
      }
      if table[loc].count - 1 < 1 {
        ghost var t, e := table[..], Entry(MARKER, table[loc].handle, true, 0);
        LeaveKeeps(t, view, tabCounter, loc, e);
        freed := Some(table[loc].handle);
        table[loc] := Entry(MARKER, table[loc].handle, true, 0);
        assert table[..] == t[loc := e];
        view := view - {name};
      } else {
        Recount(loc, table[loc].count - 1);
        freed := None;
      }
    }

    /** Loading registers a name at most once. */
    method LoadQ(name: string, handle: int) returns (ok: bool)
      requires Valid() && IsName(name)
      modifies this, table
      ensures Valid()
      ensures name in old(view) ==> ok && view == old(view)
      ensures name !in old(view) && ok ==> view == old(view)[name := Registration(handle, 1)]
      ensures !ok ==> view == old(view) && tabCounter == TABLESIZE - 1
    {
      var found := FetchTab(name);
      if found.Some? {
        return true;
      }
      ok := InsertTab(name, handle);
    }
  }
}
