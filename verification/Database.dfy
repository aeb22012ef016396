/**
 Databases: named tables of fixed-size records over a block. Each operation of the API is a method on the
 block, proved to do to the map from names to tables what `Step` says.
 */
module Database {
  import opened Arithmetic
  import opened Bytes
  import opened Probing
  import opened Store
  import opened Heap
  import opened Records

  /** What a slot records about its table. */
  datatype TableInfo = TableInfo(recordsize: nat, maxcount: nat, currcount: nat)

  type Database = Block<TableInfo>

  datatype Table = Table(recordsize: nat, maxcount: nat, rows: seq<seq<byte>>, typ: seq<byte>)

  datatype Status =
    | Ok
    | ParameterSize
    | TableAlreadyExist
    | TableNotExist
    | NoSpace
    | TableOverflow
    | RecordSize
    | BadRow

  datatype State = State(tables: map<string, Table>, capacity: nat, room: int, typeroom: int)

  datatype Op =
    | Create(name: string, recordsize: nat, maxcount: nat, typ: seq<byte>)
    | Delete(name: string)
    | ClearRows(name: string)
    | Update(name: string, row: int, recordsize: nat, record: seq<byte>)
    | Insert(name: string, recordsize: nat, rows: seq<seq<byte>>)
    | Refresh(name: string, recordsize: nat, rows: seq<seq<byte>>)
    | Clear

  datatype Outcome = Outcome(state: State, status: Status)

  /** What each operation does to the tables, and what it reports. */
  function Step(s: State, op: Op): Outcome {
    match op
    case Create(name, recordsize, maxcount, typ) =>
      if recordsize > MAXMSGLEN || |typ| > TYPEMAXSIZE then Outcome(s, ParameterSize)
      else if name in s.tables then Outcome(s, TableAlreadyExist)
      else if s.room < recordsize * maxcount then Outcome(s, NoSpace)
      else if |s.tables| == INDEXSIZE - 1 then Outcome(s, TableOverflow)
      else
        var kept := KeptType(typ, s.typeroom);
        Outcome(s.(tables := s.tables[name := Table(recordsize, maxcount, [], kept)],
                   room := s.room - recordsize * maxcount, typeroom := s.typeroom - |kept|), Ok)
    case Delete(name) =>
      if name !in s.tables then Outcome(s, TableNotExist)
      else
        var t := s.tables[name];
        Outcome(s.(tables := s.tables - {name}, room := s.room + t.recordsize * t.maxcount,
                   typeroom := s.typeroom + |t.typ|), Ok)
    case ClearRows(name) =>
      if name !in s.tables then Outcome(s, TableNotExist)
      else Outcome(SetRows(s, name, []), Ok)
    case Update(name, row, recordsize, record) =>
      if row < 0 || recordsize == 0 then Outcome(s, Ok)
      else if name !in s.tables then Outcome(s, TableNotExist)
      else if recordsize != s.tables[name].recordsize then Outcome(s, RecordSize)
      else if row >= |s.tables[name].rows| then Outcome(s, BadRow)
      else Outcome(SetRows(s, name, s.tables[name].rows[row := record]), Ok)
    case Insert(name, recordsize, rows) =>
      if rows == [] || recordsize == 0 then Outcome(s, Ok)
      else if name !in s.tables then Outcome(s, TableNotExist)
      else if recordsize != s.tables[name].recordsize then Outcome(s, RecordSize)
      else if |s.tables[name].rows| + |rows| > s.tables[name].maxcount then Outcome(s, NoSpace)
      else Outcome(SetRows(s, name, s.tables[name].rows + rows), Ok)
    case Refresh(name, recordsize, rows) =>
      if rows == [] || recordsize == 0 then Outcome(s, Ok)
      else if name !in s.tables then Outcome(s, TableNotExist)
      else if recordsize != s.tables[name].recordsize then Outcome(s, RecordSize)
      else if |rows| > s.tables[name].maxcount then Outcome(SetRows(s, name, []), NoSpace)
      else Outcome(SetRows(s, name, rows), Ok)
    case Clear =>
      Outcome(State(map[], s.capacity, s.capacity, TYPEAREA), Ok)
  }

  function SetRows(s: State, name: string, rows: seq<seq<byte>>): State
    requires name in s.tables
  {
    s.(tables := s.tables[name := s.tables[name].(rows := rows)])
  }

  // ---- The abstract state of a block ----

  function TableOf(it: Item<TableInfo>): Table {
    Table(it.extra.recordsize, it.extra.maxcount, Rows(it.data, it.extra.recordsize, it.extra.currcount), it.typ)
  }

  function Tables(m: map<string, Item<TableInfo>>): (t: map<string, Table>)
    ensures t.Keys == m.Keys
  {
    map n | n in m :: TableOf(m[n])
  }

  ghost predicate TableFits(it: Item<TableInfo>) {
    it.extra.currcount <= it.extra.maxcount && |it.data| == it.extra.recordsize * it.extra.maxcount
  }

  ghost predicate TablesFit(items: seq<Item<TableInfo>>) {
    forall i :: 0 <= i < |items| ==> TableFits(items[i])
  }

  ghost predicate Valid(d: Database)
    reads d, d.data, d.types, d.index
  {
    d.Valid() && TablesFit(d.items)
  }

  ghost function Abs(d: Database): State
    reads d
  {
    State(Tables(Entries(d.items)), d.data.Length, d.remain, d.typeremain)
  }

  lemma TablesUpdate(m: map<string, Item<TableInfo>>, n: string, it: Item<TableInfo>)
    ensures Tables(m[n := it]) == Tables(m)[n := TableOf(it)]
  {
  }

  lemma TableCount(m: map<string, Item<TableInfo>>)
    ensures |Tables(m)| == |m|
  {
    assert Tables(m).Keys == m.Keys;
  }

  /** The rows of a table that fits its space. */
  lemma FittingRows(it: Item<TableInfo>)
    requires TableFits(it)
    ensures var x := it.extra;
            && 0 <= x.currcount * x.recordsize <= |it.data| && |TableOf(it).rows| == x.currcount
            && Flatten(TableOf(it).rows) == it.data[..x.currcount * x.recordsize]
              && Uniform(TableOf(it).rows, x.recordsize)
  {
    var x := it.extra;
    MulMonotone(x.currcount, x.maxcount, x.recordsize);
    MulMonotone(0, x.currcount, x.recordsize);
    RowAt(it.data, x.recordsize, x.currcount, 0);
    RowsFlatten(it.data, x.recordsize, x.currcount);
  }

  // ---- The operations ----

  method CreateTable(d: Database, name: string, recordsize: nat, maxcount: nat, typ: seq<byte>) returns (status: Status)
    requires Valid(d) && IsName(name) && d.LookupEnds(name)
    modifies d, d.index, d.types
    ensures Valid(d)
    ensures Outcome(Abs(d), status) == Step(old(Abs(d)), Create(name, recordsize, maxcount, typ))
    ensures d.Unused() <= old(d.Unused()) <= d.Unused() + if status == Ok then 1 else 0
  {
    hide Inv, Entries, NameSet, Describes, FreeAt, KeptType, Names, NeverUsed;
    if recordsize > MAXMSGLEN || |typ| > TYPEMAXSIZE {
      return ParameterSize;
    }
    var loc, k := d.Find(name);
    if d.index[loc].name == name && !d.index[loc].erased {
      return TableAlreadyExist;
    }
    var totalsize := recordsize * maxcount;
    if d.remain < totalsize {
      return NoSpace;
    }
    ghost var p;
    loc, p := d.FindFree(name);
    TableCount(Entries(d.items));
    d.Counters();
    if d.indexcount == INDEXSIZE - 1 {
      return TableOverflow;
    }
    ghost var m, it := Entries(d.items), d.NewItem(name, totalsize, typ, TableInfo(recordsize, maxcount, 0));
    d.Allocate(loc, p, name, totalsize, typ, TableInfo(recordsize, maxcount, 0));
    TablesUpdate(m, name, it);
    return Ok;
  }

  method DeleteTable(d: Database, name: string) returns (status: Status)
    requires Valid(d) && IsName(name) && d.LookupEnds(name)
    modifies d, d.index, d.data, d.types
    ensures Valid(d)
    ensures Outcome(Abs(d), status) == Step(old(Abs(d)), Delete(name)) && d.Unused() == old(d.Unused())
  {
    hide Inv, Entries, NameSet, Describes, Names, NeverUsed;
    var loc, k := d.Find(name);
    if d.index[loc].name == "" || d.index[loc].erased {
      return TableNotExist;
    }
    d.Remove(loc, k);
    return Ok;
  }

  /** Change how many records of a table count as present. */
  method SetCount(d: Database, loc: nat, ghost k: nat, count: nat)
    requires Valid(d) && k < |d.items| && d.locs[k] == loc
    requires loc < d.index.Length && Describes(d.index[loc], d.items, k)
    requires count <= d.items[k].extra.maxcount
    modifies d, d.index
    ensures Valid(d) && d.remain == old(d.remain) && d.typeremain == old(d.typeremain) && d.Unused() == old(d.Unused())
    ensures d.items == old(d.items)[k := old(d.items)[k].(extra := old(d.items)[k].extra.(currcount := count))]
    ensures Tables(Entries(d.items)) == old(Tables(Entries(d.items)))[old(d.items)[k].name := TableOf(d.items[k])]
    ensures d.locs == old(d.locs) && Describes(d.index[loc], d.items, k)
  {
    hide Inv, Entries, NameSet, Describes, Names, NeverUsed;
    ghost var m := Entries(d.items);
    d.InfoOf(k);
    d.SetExtra(loc, k, d.index[loc].extra.(currcount := count));
    TablesUpdate(m, d.items[k].name, d.items[k]);
    d.LocOf(k);
  }

  method ClearTable(d: Database, name: string) returns (status: Status)
    requires Valid(d) && IsName(name) && d.LookupEnds(name)
    modifies d, d.index
    ensures Valid(d)
    ensures Outcome(Abs(d), status) == Step(old(Abs(d)), ClearRows(name)) && d.Unused() == old(d.Unused())
  {
    hide Inv, Entries, NameSet, Describes, Names, NeverUsed;
    var loc, k := d.Find(name);
    if d.index[loc].name == "" || d.index[loc].erased {
      return TableNotExist;
    }
    SetCount(d, loc, k, 0);
    return Ok;
  }

  method UpdateTable(d: Database, name: string, row: int, recordsize: nat, record: seq<byte>) returns (status: Status)
    requires Valid(d) && IsName(name) && d.LookupEnds(name)
    requires |record| == recordsize
    modifies d, d.data
    ensures Valid(d)
    ensures Outcome(Abs(d), status) == Step(old(Abs(d)), Update(name, row, recordsize, record))
  {
    hide Inv, Entries, NameSet, Describes;
    if row < 0 || recordsize == 0 {
      return Ok;
    }
    var loc, k := d.Find(name);
    if d.index[loc].name == "" || d.index[loc].erased {
      return TableNotExist;
    }
    if recordsize != d.index[loc].extra.recordsize {
      return RecordSize;
    }
    FittingRows(d.items[k]);
    if !(row < d.index[loc].extra.currcount) {
      return BadRow;
    }
    ghost var m, it := Entries(d.items), d.items[k];
    ReplaceRow(it.data, recordsize, it.extra.currcount, row, record);
    d.Put(loc, k, row * recordsize, record);
    TablesUpdate(m, name, d.items[k]);
    return Ok;
  }

  /** Copy records in after the present ones and count them. */
  method Append(d: Database, loc: nat, ghost k: nat, rows: seq<seq<byte>>)
    requires Valid(d) && k < |d.items| && d.locs[k] == loc
    requires loc < d.index.Length && Describes(d.index[loc], d.items, k)
    requires Uniform(rows, d.items[k].extra.recordsize)
    requires d.items[k].extra.currcount + |rows| <= d.items[k].extra.maxcount
    modifies d, d.data, d.index
    ensures Valid(d) && d.remain == old(d.remain) && d.typeremain == old(d.typeremain) && d.Unused() == old(d.Unused())
    ensures var t := TableOf(old(d.items)[k]);
            Tables(Entries(d.items)) == old(Tables(Entries(d.items)))[old(d.items)[k].name := t.(rows := t.rows + rows)]
  {
    hide Inv, Entries, NameSet, Describes, Rows, Names, NeverUsed;
    ghost var m, it := Entries(d.items), d.items[k];
    d.InfoOf(k);
    var x := d.index[loc].extra;
    MulMonotone(x.currcount + |rows|, x.maxcount, x.recordsize);
    AppendRows(it.data, x.recordsize, x.currcount, rows);
    d.Put(loc, k, x.currcount * x.recordsize, Flatten(rows));
    d.LocOf(k);
    SetCount(d, loc, k, x.currcount + |rows|);
    TablesUpdate(m, it.name, d.items[k]);
  }

  method InsertTable(d: Database, name: string, recordsize: nat, rows: seq<seq<byte>>) returns (status: Status)
    requires Valid(d) && IsName(name) && d.LookupEnds(name)
    requires Uniform(rows, recordsize)
    modifies d, d.data, d.index
    ensures Valid(d)
    ensures Outcome(Abs(d), status) == Step(old(Abs(d)), Insert(name, recordsize, rows))
      && d.Unused() == old(d.Unused())
  {
    hide Inv, Entries, NameSet, Describes, Names, NeverUsed;
    if |rows| == 0 || recordsize == 0 {
      return Ok;
    }
    var loc, k := d.Find(name);
    if d.index[loc].name == "" || d.index[loc].erased {
      return TableNotExist;
    }
    if recordsize != d.index[loc].extra.recordsize {
      return RecordSize;
    }
    FittingRows(d.items[k]);
    if d.index[loc].extra.currcount + |rows| > d.index[loc].extra.maxcount {
      return NoSpace;
    }
    Append(d, loc, k, rows);
    return Ok;
  }

  lemma NoRows(it: Item<TableInfo>)
    requires it.extra.currcount == 0
    ensures TableOf(it) == Table(it.extra.recordsize, it.extra.maxcount, [], it.typ)
  {
  }

  /** Empty the table, then copy the records in when they fit. */
  method Replace(d: Database, loc: nat, ghost k: nat, rows: seq<seq<byte>>) returns (fits: bool)
    requires Valid(d) && k < |d.items| && d.locs[k] == loc
    requires loc < d.index.Length && Describes(d.index[loc], d.items, k)
    requires Uniform(rows, d.items[k].extra.recordsize)
    modifies d, d.data, d.index
    ensures Valid(d) && d.remain == old(d.remain) && d.typeremain == old(d.typeremain) && d.Unused() == old(d.Unused())
    ensures fits == (|rows| <= old(d.items)[k].extra.maxcount)
    ensures var t := TableOf(old(d.items)[k]);
            Tables(Entries(d.items)) ==
              old(Tables(Entries(d.items)))[old(d.items)[k].name := t.(rows := if fits then rows else [])]
  {
    hide Inv, Entries, NameSet, Describes, Names, NeverUsed;
    ghost var t := TableOf(d.items[k]);
    SetCount(d, loc, k, 0);
    d.InfoOf(k);
    NoRows(d.items[k]);
    fits := d.index[loc].extra.currcount + |rows| <= d.index[loc].extra.maxcount;
    if fits {
      assert [] + rows == rows;
      Append(d, loc, k, rows);
    }
  }

  /** Replace all records. The table is emptied first, and stays empty when the new records do not fit. */
  method RefreshTable(d: Database, name: string, recordsize: nat, rows: seq<seq<byte>>) returns (status: Status)
    requires Valid(d) && IsName(name) && d.LookupEnds(name)
    requires Uniform(rows, recordsize)
    modifies d, d.data, d.index
    ensures Valid(d)
    ensures Outcome(Abs(d), status) == Step(old(Abs(d)), Refresh(name, recordsize, rows))
      && d.Unused() == old(d.Unused())
  {
    hide Inv, Entries, NameSet, Describes, TablesFit, Names, NeverUsed;
    if |rows| == 0 || recordsize == 0 {
      return Ok;
    }
    var loc, k := d.Find(name);
    if d.index[loc].name == "" || d.index[loc].erased {
      return TableNotExist;
    }
    if recordsize != d.index[loc].extra.recordsize {
      return RecordSize;
    }
    var fits := Replace(d, loc, k, rows);
    return if fits then Ok else NoSpace;
  }

  datatype Selection = Selection(ok: bool, count: nat, recordsize: nat, bytes: seq<byte>)

  /** All records of a table, laid end to end. */
  method SelectTable(d: Database, name: string) returns (r: Selection)
    requires Valid(d) && IsName(name) && d.LookupEnds(name)
    ensures if name !in Abs(d).tables then r == Selection(false, 0, 0, [])
            else var t := Abs(d).tables[name];
                 r == Selection(true, |t.rows|, t.recordsize, Flatten(t.rows)) && Uniform(t.rows, t.recordsize)
  {
    hide Inv, Entries, NameSet, Describes;
    var loc, k := d.Find(name);
    if d.index[loc].name == "" || d.index[loc].erased {
      return Selection(false, 0, 0, []);
    }
    var x := d.index[loc].extra;
    FittingRows(d.items[k]);
    if x.currcount == 0 {
      return Selection(true, 0, x.recordsize, []);
    }
    var bytes := d.Get(loc, k);
    return Selection(true, x.currcount, x.recordsize, bytes[..x.currcount * x.recordsize]);
  }

  method ClearDB(d: Database)
    requires Valid(d)
    modifies d, d.index
    ensures Valid(d)
    ensures Outcome(Abs(d), Ok) == Step(old(Abs(d)), Clear) && d.Unused() == INDEXSIZE
  {
    d.Reset(TableInfo(0, 0, 0));
  }

  method CreateDB(size: nat) returns (d: Database)
    ensures Valid(d) && fresh(d) && fresh(d.data) && fresh(d.types) && fresh(d.index)
    ensures Abs(d) == State(map[], size, size, TYPEAREA) && d.Unused() == INDEXSIZE
  {
    d := new Block(size, TableInfo(0, 0, 0));
    assert Entries(d.items) == map[];
  }
}
