/** Databases over whole runs of operations: what a block holds after any of them, and what reading it then returns. */
module DatabaseRuns {
  import opened Bytes
  import opened Probing
  import opened Store
  import opened Heap
  import opened Records
  import opened Database
  import Runs

  function After(s: State, op: Op): State {
    Step(s, op).state
  }

  function Report(s: State, op: Op): Status {
    Step(s, op).status
  }

  function Run(s: State, ops: seq<Op>): State {
    Runs.Run(After, s, ops)
  }

  /** A database just created. */
  function Blank(size: nat): State {
    State(map[], size, size, TYPEAREA)
  }

  /** The names and records a caller may pass: all records of the size announced. */
  ghost predicate Proper(op: Op) {
    && (op.Clear? || IsName(op.name))
    && (op.Insert? || op.Refresh? ==> Uniform(op.rows, op.recordsize)) && (op.Update? ==> |op.record| == op.recordsize)
  }

  predicate Clears(op: Op) {
    op.Clear?
  }

  /** A creation that succeeds. */
  predicate Creates(s: State, op: Op) {
    op.Create? && Step(s, op).status == Ok
  }

  /** The creations that succeeded since the database was last cleared. */
  function Created(s: State, ops: seq<Op>): nat {
    Runs.Count(After, Clears, Creates, s, ops)
  }

  /** Between two clears there are fewer creations than slots. */
  ghost predicate Enough(s: State, ops: seq<Op>) {
    forall k :: 0 <= k <= |ops| ==> Created(s, ops[..k]) < INDEXSIZE
  }

  /** The block went through `ops` since it was created with `size` bytes. */
  ghost predicate Served(d: Database, size: nat, ops: seq<Op>)
    reads d, d.data, d.types, d.index
  {
    Valid(d) && Abs(d) == Run(Blank(size), ops) && d.Unused() >= INDEXSIZE - Created(Blank(size), ops)
  }

  // ---- One operation after the other ----

  /** Any operation, by its own method. */
  method Perform(d: Database, op: Op) returns (status: Status)
    requires Valid(d) && Proper(op) && (op.Clear? || d.LookupEnds(op.name))
    modifies d, d.data, d.types, d.index
    ensures Valid(d) && Outcome(Abs(d), status) == Step(old(Abs(d)), op)
    ensures d.Unused() >= if op.Clear? then INDEXSIZE else old(d.Unused()) - if op.Create? && status == Ok then 1 else 0
  {
    hide Valid, Abs, Step;
    match op
    case Create(name, recordsize, maxcount, typ) => status := CreateTable(d, name, recordsize, maxcount, typ);
    case Delete(name) => status := DeleteTable(d, name);
    case ClearRows(name) => status := ClearTable(d, name);
    case Update(name, row, recordsize, record) => status := UpdateTable(d, name, row, recordsize, record);
    case Insert(name, recordsize, rows) => status := InsertTable(d, name, recordsize, rows);
    case Refresh(name, recordsize, rows) => status := RefreshTable(d, name, recordsize, rows);
    case Clear =>
      ClearDB(d);
      status := Ok;
  }

  lemma CreatedOneMore(s: State, ops: seq<Op>, op: Op)
    ensures Run(s, ops + [op]) == After(Run(s, ops), op)
    ensures Created(s, ops + [op]) ==
      if op.Clear? then 0
      else Created(s, ops) + if op.Create? && Step(Run(s, ops), op).status == Ok then 1 else 0
  {
    Runs.RunOneMore(After, s, ops, op);
    Runs.CountOneMore(After, Clears, Creates, s, ops, op);
  }

  /** One more operation on a block that went through `ops`. */
  method ServeOne(d: Database, op: Op, ghost size: nat, ghost ops: seq<Op>) returns (status: Status)
    requires Served(d, size, ops) && Proper(op) && Created(Blank(size), ops) < INDEXSIZE
    modifies d, d.data, d.types, d.index
    ensures Served(d, size, ops + [op]) && status == Report(Runs.Run(After, Blank(size), ops), op)
  {
    if !op.Clear? {
      d.LookupEndsExactly(op.name);
    }
    hide Valid, Abs, Step, Run;
    status := Perform(d, op);
    CreatedOneMore(Blank(size), ops, op);
  }

  lemma NothingServed(d: Database, size: nat)
    requires Valid(d) && Abs(d) == Blank(size) && d.Unused() == INDEXSIZE
    ensures Served(d, size, [])
  {
  }

  /** All operations, one after the other. */
  method ServeAll(d: Database, ghost size: nat, ops: seq<Op>) returns (statuses: seq<Status>)
    requires Served(d, size, []) && Enough(Blank(size), ops) && forall op :: op in ops ==> Proper(op)
    modifies d, d.data, d.types, d.index
    ensures Served(d, size, ops) && |statuses| == |ops| && Runs.Reported(After, Report, Blank(size), ops, statuses)
  {
    hide Served, Created, Run, Step, Proper, Blank, Report;
    statuses := [];
    for i := 0 to |ops|
      invariant Served(d, size, ops[..i]) && |statuses| == i && Runs.Reported(After, Report, Blank(size), ops, statuses)
    {
      Runs.ReportedMore(After, Report, Blank(size), ops, statuses);
      assert ops[..i + 1] == ops[..i] + [ops[i]];
      var status := ServeOne(d, ops[i], size, ops[..i]);
      statuses := statuses + [status];
    }
    assert ops[..|ops|] == ops;
  }

  /** From a fresh database every operation completes, as long as creations are fewer than slots between clears. */
  method Serve(size: nat, ops: seq<Op>) returns (d: Database, statuses: seq<Status>)
    requires Enough(Blank(size), ops) && forall op :: op in ops ==> Proper(op)
    ensures Served(d, size, ops) && fresh(d) && fresh(d.data) && fresh(d.types) && fresh(d.index)
    ensures |statuses| == |ops| && Runs.Reported(After, Report, Blank(size), ops, statuses)
  {
    d := CreateDB(size);
    NothingServed(d, size);
    hide Served, Created, Run, Step, Proper, Valid, Abs, Enough;
    statuses := ServeAll(d, size, ops);
  }

  // ---- What stays ----

  /** Only operations on `name` itself, or clearing the database, change what table `name` holds. */
  predicate Touches(op: Op, name: string) {
    op.Clear? || (!op.Create? && op.name == name)
  }

  lemma {:induction false} UntouchedStays(s: State, ops: seq<Op>, name: string)
    requires name in s.tables && forall op :: op in ops ==> !Touches(op, name)
    ensures name in Run(s, ops).tables && Run(s, ops).tables[name] == s.tables[name]
  {
    if ops != [] {
      var init, last := ops[..|ops| - 1], ops[|ops| - 1];
      assert last in ops && ops == init + [last];
      UntouchedStays(s, init, name);
      Runs.RunOneMore(After, s, init, last);
    }
  }

  /** Whatever is created, deleted, compacted or written elsewhere, a table nobody touches stays as it is. */
  lemma OtherTablesStay(d: Database, d': Database, size: nat, before: seq<Op>, after: seq<Op>, name: string)
    requires Served(d, size, before) && Served(d', size, before + after)
    requires name in Abs(d).tables && forall op :: op in after ==> !Touches(op, name)
    ensures name in Abs(d').tables && Abs(d').tables[name] == Abs(d).tables[name]
  {
    hide Valid, Abs, Created, Step;
    Runs.RunConcat(After, Blank(size), before, after);
    UntouchedStays(Run(Blank(size), before), after, name);
  }

  /** Before a call it can be told whether its lookup will end. */
  lemma FoundExactly(d: Database, name: string)
    requires Valid(d) && IsName(name)
    ensures d.LookupEnds(name) <==> d.Unused() > 0 || name in Abs(d).tables
  {
    d.LookupEndsExactly(name);
  }

  // ---- What is selected ----

  /** A run with an operation in the middle that succeeds. */
  ghost predicate Around(size: nat, before: seq<Op>, op: Op, after: seq<Op>) {
    && Enough(Blank(size), before + [op] + after) && (forall o :: o in before + [op] + after ==> Proper(o))
    && Step(Run(Blank(size), before), op).status == Ok
  }

  /** A run with an operation in the middle, whatever that reports. */
  ghost predicate AroundAny(size: nat, before: seq<Op>, op: Op, after: seq<Op>) {
    Enough(Blank(size), before + [op] + after) && (forall o :: o in before + [op] + after ==> Proper(o))
  }

  /** What a served block shows of a table, and that it can be selected. */
  lemma ServedShows(d: Database, size: nat, before: seq<Op>, op: Op, after: seq<Op>)
    requires Served(d, size, before + [op] + after) && Around(size, before, op, after) && !op.Clear?
    requires op.name in After(Run(Blank(size), before), op).tables && forall o :: o in after ==> !Touches(o, op.name)
    ensures op.name in Abs(d).tables
    ensures Abs(d).tables[op.name] == After(Run(Blank(size), before), op).tables[op.name]
    ensures IsName(op.name) && d.LookupEnds(op.name) && Valid(d)
  {
    AnyShows(d, size, before, op, after);
  }

  lemma AnyShows(d: Database, size: nat, before: seq<Op>, op: Op, after: seq<Op>)
    requires Served(d, size, before + [op] + after) && AroundAny(size, before, op, after) && !op.Clear?
    requires op.name in After(Run(Blank(size), before), op).tables && forall o :: o in after ==> !Touches(o, op.name)
    ensures op.name in Abs(d).tables
    ensures Abs(d).tables[op.name] == After(Run(Blank(size), before), op).tables[op.name]
    ensures IsName(op.name) && d.LookupEnds(op.name) && Valid(d)
  {
    hide Created, Enough, Step;
    Runs.RunConcat(After, Blank(size), before + [op], after);
    Runs.RunOneMore(After, Blank(size), before, op);
    UntouchedStays(After(Run(Blank(size), before), op), after, op.name);
    assert op in before + [op] + after;
    hide After, Run, Touches;
    d.LookupEndsExactly(op.name);
  }

  lemma RefreshLeaves(s: State, name: string, recordsize: nat, rows: seq<seq<byte>>)
    requires rows != [] && recordsize != 0 && Step(s, Refresh(name, recordsize, rows)).status == Ok
    ensures
      var s' := After(s, Refresh(name, recordsize, rows));
      name in s'.tables && s'.tables[name].rows == rows && s'.tables[name].recordsize == recordsize
  {
  }

  lemma InsertLeaves(s: State, name: string, recordsize: nat, rows: seq<seq<byte>>)
    requires rows != [] && recordsize != 0 && Step(s, Insert(name, recordsize, rows)).status == Ok
    ensures
      var s' := After(s, Insert(name, recordsize, rows));
      && name in s.tables && name in s'.tables
      && s'.tables[name].rows == s.tables[name].rows + rows && s'.tables[name].recordsize == recordsize
  {
  }

  /** The records of a refresh are what is selected later, whatever happens to the other tables. */
  method RefreshedRowsAreSelected(size: nat, before: seq<Op>, name: string, recordsize: nat, rows: seq<seq<byte>>,
                                  after: seq<Op>)
      returns (r: Selection)
    requires rows != [] && recordsize != 0 && Around(size, before, Refresh(name, recordsize, rows), after)
    requires forall op :: op in after ==> !Touches(op, name)
    ensures r == Selection(true, |rows|, recordsize, Flatten(rows))
  {
    hide Valid, Run, Created, Proper, Touches, Step, After, Served, Enough;
    var d, statuses := Serve(size, before + [Refresh(name, recordsize, rows)] + after);
    RefreshLeaves(Run(Blank(size), before), name, recordsize, rows);
    ServedShows(d, size, before, Refresh(name, recordsize, rows), after);
    hide Around;
    r := SelectTable(d, name);
  }

  /** Inserted records are selected behind those the table held. */
  method InsertedRowsAreSelected(size: nat, before: seq<Op>, name: string, recordsize: nat, rows: seq<seq<byte>>,
                                 after: seq<Op>)
      returns (r: Selection)
    requires rows != [] && recordsize != 0 && Around(size, before, Insert(name, recordsize, rows), after)
    requires forall op :: op in after ==> !Touches(op, name)
    ensures name in Run(Blank(size), before).tables
    ensures var was := Run(Blank(size), before).tables[name].rows;
            r == Selection(true, |was| + |rows|, recordsize, Flatten(was) + Flatten(rows))
  {
    hide Valid, Run, Created, Proper, Touches, Step, After, Served, Enough;
    var d, statuses := Serve(size, before + [Insert(name, recordsize, rows)] + after);
    InsertLeaves(Run(Blank(size), before), name, recordsize, rows);
    ServedShows(d, size, before, Insert(name, recordsize, rows), after);
    hide Around;
    FlattenConcat(Run(Blank(size), before).tables[name].rows, rows);
    r := SelectTable(d, name);
  }

  lemma EnoughBefore(s: State, a: seq<Op>, b: seq<Op>)
    requires Enough(s, a + b)
    ensures Enough(s, a)
  {
    forall k | 0 <= k <= |a| ensures Created(s, a[..k]) < INDEXSIZE {
      assert (a + b)[..k] == a[..k];
    }
  }

  /** What is selected from a table before an operation on it that succeeds. */
  method SelectBefore(size: nat, before: seq<Op>, name: string, op: Op, after: seq<Op>) returns (r: Selection)
    requires Around(size, before, op, after) && !op.Clear? && op.name == name && name in Run(Blank(size), before).tables
    ensures
      var t := Run(Blank(size), before).tables[name];
      r == Selection(true, |t.rows|, t.recordsize, Flatten(t.rows)) && Uniform(t.rows, t.recordsize)
  {
    assert before + [op] + after == before + ([op] + after);
    EnoughBefore(Blank(size), before, [op] + after);
    assert op in before + [op] + after;
    assert forall o :: o in before ==> o in before + [op] + after;
    hide Valid, Run, Created, Step, After, Enough, Around;
    var d, statuses := Serve(size, before);
    d.LookupEndsExactly(name);
    r := SelectTable(d, name);
  }

  lemma UpdateLeaves(s: State, name: string, row: int, recordsize: nat, record: seq<byte>)
    requires row >= 0 && recordsize != 0 && |record| == recordsize && name in s.tables
    requires Uniform(s.tables[name].rows, s.tables[name].recordsize)
    requires Step(s, Update(name, row, recordsize, record)).status == Ok
    ensures
      var s' := After(s, Update(name, row, recordsize, record));
      && name in s'.tables && s.tables[name].recordsize == s'.tables[name].recordsize == recordsize
      && |s'.tables[name].rows| == |s.tables[name].rows|
      && OneRowChanged(Flatten(s.tables[name].rows), Flatten(s'.tables[name].rows), row, record)
  {
    var was, now := s.tables[name].rows, After(s, Update(name, row, recordsize, record)).tables[name].rows;
    FlattenRow(was, recordsize, row);
    FlattenUpdate(was, row, record);
    FlattenRow(was[..row], recordsize, 0);
    FlattenSplit(was, row);
    hide Flatten, Step;
  }

  /** Record number `row` is `record` now, and all bytes outside it are as they were. */
  ghost predicate OneRowChanged(was: seq<byte>, now: seq<byte>, row: nat, record: seq<byte>) {
    var at := row * |record|;
    && |now| == |was| && 0 <= at && at + |record| <= |was| && now[at..at + |record|] == record
    && now[..at] == was[..at] && now[at + |record|..] == was[at + |record|..]
  }

  /** An updated record is selected in its place, and all others as before the update. */
  method UpdatedRowIsSelected(size: nat, before: seq<Op>, name: string, row: nat, recordsize: nat, record: seq<byte>,
                              after: seq<Op>)
      returns (was: Selection, r: Selection)
    requires recordsize != 0 && Around(size, before, Update(name, row, recordsize, record), after)
    requires forall op :: op in after ==> !Touches(op, name)
    ensures was.ok && r.ok && r.count == was.count > row && r.recordsize == was.recordsize == recordsize
    ensures OneRowChanged(was.bytes, r.bytes, row, record)
  {
    var op := Update(name, row, recordsize, record);
    assert op in before + [op] + after;
    assert name in Run(Blank(size), before).tables && row < |Run(Blank(size), before).tables[name].rows|;
    hide Valid, Run, Created, Touches, Step, After, Served, Enough;
    was := SelectBefore(size, before, name, op, after);
    UpdateLeaves(Run(Blank(size), before), name, row, recordsize, record);
    hide OneRowChanged;
    var d, statuses := Serve(size, before + [op] + after);
    ServedShows(d, size, before, op, after);
    hide Around;
    r := SelectTable(d, name);
  }

  /** A table just created, cleared, or refreshed with too many records is selected empty until it is filled. */
  method EmptyTableIsSelected(size: nat, before: seq<Op>, op: Op, after: seq<Op>) returns (r: Selection)
    requires op.Create? || op.ClearRows? || (op.Refresh? && op.rows != [] && op.recordsize != 0)
    requires AroundAny(size, before, op, after) && forall o :: o in after ==> !Touches(o, op.name)
    requires Step(Run(Blank(size), before), op).status == if op.Refresh? then NoSpace else Ok
    ensures r.ok && r.count == 0 && r.bytes == []
    ensures op.Create? ==> r.recordsize == op.recordsize
  {
    hide Valid, Run, Created, Proper, Touches, After, Served, Enough;
    var d, statuses := Serve(size, before + [op] + after);
    EmptyLeaves(Run(Blank(size), before), op);
    AnyShows(d, size, before, op, after);
    hide AroundAny, Step;
    r := SelectTable(d, op.name);
  }

  lemma EmptyLeaves(s: State, op: Op)
    requires op.Create? || op.ClearRows? || (op.Refresh? && op.rows != [] && op.recordsize != 0)
    requires Step(s, op).status == if op.Refresh? then NoSpace else Ok
    ensures op.name in After(s, op).tables && After(s, op).tables[op.name].rows == []
    ensures op.Create? ==>
      After(s, op).tables[op.name].recordsize == op.recordsize && After(s, op).tables[op.name].maxcount == op.maxcount
  {
  }

  /** A table deleted, or cleared away with all others, is unknown until it is created again. */
  method GoneIsUnknown(size: nat, before: seq<Op>, op: Op, name: string, after: seq<Op>) returns (r: Selection)
    requires (op.Clear? || op == Delete(name)) && Around(size, before, op, after) && IsName(name)
    requires forall o :: o in after ==> !(o.Create? && o.name == name)
    ensures !r.ok
  {
    GoneStays(After(Run(Blank(size), before), op), after, name);
    Runs.RunConcat(After, Blank(size), before + [op], after);
    Runs.RunOneMore(After, Blank(size), before, op);
    var ops := before + [op] + after;
    assert ops[..|ops|] == ops && Created(Blank(size), ops[..|ops|]) < INDEXSIZE;
    hide Valid, Run, Created, Proper, Step, After, Enough;
    var d, statuses := Serve(size, ops);
    d.LookupEndsExactly(name);
    hide Around;
    r := SelectTable(d, name);
  }

  lemma {:induction false} GoneStays(s: State, ops: seq<Op>, name: string)
    requires name !in s.tables && forall op :: op in ops ==> !(op.Create? && op.name == name)
    ensures name !in Run(s, ops).tables
  {
    if ops != [] {
      var init, last := ops[..|ops| - 1], ops[|ops| - 1];
      assert last in ops && ops == init + [last];
      GoneStays(s, init, name);
      Runs.RunOneMore(After, s, init, last);
    }
  }

  // ---- What is refused ----

  /** The bytes set aside for some tables together. */
  function TotalSize(items: seq<Item<TableInfo>>): nat {
    if items == [] then 0
    else
      var x := items[|items| - 1].extra;
      TotalSize(items[..|items| - 1]) + x.recordsize * x.maxcount
  }

  lemma {:induction false} TotalIsFlat(items: seq<Item<TableInfo>>)
    requires TablesFit(items)
    ensures |Flatten(Datas(items))| == TotalSize(items)
  {
    if items != [] {
      var n := |items| - 1;
      TotalIsFlat(items[..n]);
      assert Datas(items)[..n] == Datas(items[..n]);
    }
  }

  /** The room of a database is its capacity less what is set aside for all its tables. */
  lemma RoomIsWhatIsLeft(d: Database)
    requires Valid(d)
    ensures Abs(d).room == Abs(d).capacity - TotalSize(d.items) && |Abs(d).tables| == |d.items|
    ensures forall i :: 0 <= i < |d.items| ==>
      && d.items[i].name in Abs(d).tables
      && Abs(d).tables[d.items[i].name].recordsize == d.items[i].extra.recordsize
      && Abs(d).tables[d.items[i].name].maxcount == d.items[i].extra.maxcount
  {
    TotalIsFlat(d.items);
    AreaNext(d.data[..], Datas(d.items), d.nextpos, d.remain);
    d.Counters();
    TableCount(Entries(d.items));
    forall i | 0 <= i < |d.items|
      ensures d.items[i].name in Abs(d).tables && Abs(d).tables[d.items[i].name] == TableOf(d.items[i]) {
      PositionIs(d.items, i);
    }
  }

  /** A creation fails for the first of four reasons that applies, and for no other. */
  lemma CreateReports(d: Database, name: string, recordsize: nat, maxcount: nat, typ: seq<byte>)
    requires Valid(d)
    ensures
      var status := Step(Abs(d), Create(name, recordsize, maxcount, typ)).status;
      var fits, unknown := recordsize <= MAXMSGLEN && |typ| <= TYPEMAXSIZE, name !in Abs(d).tables;
      var room := TotalSize(d.items) + recordsize * maxcount <= d.data.Length;
      && (status == ParameterSize <==> !fits) && (status == TableAlreadyExist <==> fits && !unknown)
      && (status == NoSpace <==> fits && unknown && !room)
      && (status == TableOverflow <==> fits && unknown && room && |d.items| == INDEXSIZE - 1)
      && (status == Ok <==> fits && unknown && room && |d.items| < INDEXSIZE - 1)
  {
    RoomIsWhatIsLeft(d);
    d.Counters();
    var s, total, n := Abs(d), TotalSize(d.items), |d.items|;
    hide Valid, Abs, Step, TotalSize;
    CreationReports(s, name, recordsize, maxcount, typ, total, n);
  }

  lemma CreationReports(s: State, name: string, recordsize: nat, maxcount: nat, typ: seq<byte>, total: nat, n: nat)
    requires s.room == s.capacity - total && n == |s.tables| <= INDEXSIZE - 1
    ensures
      var status := Step(s, Create(name, recordsize, maxcount, typ)).status;
      var fits, unknown := recordsize <= MAXMSGLEN && |typ| <= TYPEMAXSIZE, name !in s.tables;
      var room := total + recordsize * maxcount <= s.capacity;
      && (status == ParameterSize <==> !fits) && (status == TableAlreadyExist <==> fits && !unknown)
      && (status == NoSpace <==> fits && unknown && !room)
      && (status == TableOverflow <==> fits && unknown && room && n == INDEXSIZE - 1)
      && (status == Ok <==> fits && unknown && room && n < INDEXSIZE - 1)
  {
  }

  /** Nothing is asked of a table by a row before the first, by no records, or by records without bytes. */
  predicate Idle(op: Op) {
    || (op.Update? && (op.row < 0 || op.recordsize == 0))
    || ((op.Insert? || op.Refresh?) && (op.rows == [] || op.recordsize == 0))
  }

  /** The other operations fail when the table is unknown, and the writes when what is written does not fit it. */
  lemma OthersReport(s: State, op: Op)
    requires !op.Create? && !op.Clear?
    ensures Idle(op) ==> Step(s, op) == Outcome(s, Ok)
    ensures !Idle(op) ==> (Step(s, op).status == TableNotExist <==> op.name !in s.tables)
    ensures (op.Delete? || op.ClearRows?) && op.name in s.tables ==> Step(s, op).status == Ok
    ensures !Idle(op) && (op.Update? || op.Insert? || op.Refresh?) && op.name in s.tables ==>
      (Step(s, op).status == RecordSize <==> op.recordsize != s.tables[op.name].recordsize)
    ensures !Idle(op) && op.Update? && op.name in s.tables && op.recordsize == s.tables[op.name].recordsize ==>
      Step(s, op).status == if op.row < |s.tables[op.name].rows| then Ok else BadRow
    ensures !Idle(op) && op.Insert? && op.name in s.tables && op.recordsize == s.tables[op.name].recordsize ==>
      Step(s, op).status == if |s.tables[op.name].rows| + |op.rows| <= s.tables[op.name].maxcount then Ok else NoSpace
    ensures !Idle(op) && op.Refresh? && op.name in s.tables && op.recordsize == s.tables[op.name].recordsize ==>
      Step(s, op).status == if |op.rows| <= s.tables[op.name].maxcount then Ok else NoSpace
  {
  }

  /** A refusal changes nothing, but for a refresh with too many records, which has emptied the table. */
  lemma RefusedChangesNothing(s: State, op: Op)
    requires Step(s, op).status != Ok && !(op.Refresh? && Step(s, op).status == NoSpace)
    ensures Step(s, op).state == s
  {
  }

  /** Records inserted in two batches are those inserted at once. */
  method InsertSplits(d: Database, name: string, recordsize: nat, a: seq<seq<byte>>, b: seq<seq<byte>>)
    requires Valid(d) && IsName(name) && d.LookupEnds(name) && a != [] && b != []
    requires Uniform(a, recordsize) && Uniform(b, recordsize)
      && Step(Abs(d), Insert(name, recordsize, a + b)).status == Ok
    modifies d, d.data, d.index
    ensures Valid(d) && Abs(d) == Step(old(Abs(d)), Insert(name, recordsize, a + b)).state
  {
    InsertTwice(Abs(d), name, recordsize, a, b);
    FoundExactly(d, name);
    hide Valid, Step, Abs;
    var first := InsertTable(d, name, recordsize, a);
    FoundExactly(d, name);
    var second := InsertTable(d, name, recordsize, b);
  }

  lemma InsertTwice(s: State, name: string, recordsize: nat, a: seq<seq<byte>>, b: seq<seq<byte>>)
    requires a != [] && b != [] && Step(s, Insert(name, recordsize, a + b)).status == Ok
    ensures name in After(s, Insert(name, recordsize, a)).tables <==> name in s.tables
    ensures After(After(s, Insert(name, recordsize, a)), Insert(name, recordsize, b))
      == After(s, Insert(name, recordsize, a + b))
  {
    if recordsize != 0 {
      Associates(s.tables[name].rows, a, b);
    }
  }

  // ---- No table overflows ----

  ghost predicate Bounded(s: State) {
    forall n :: n in s.tables ==>
      |s.tables[n].rows| <= s.tables[n].maxcount && Uniform(s.tables[n].rows, s.tables[n].recordsize)
  }

  /** In every database the operations can make no table holds more records than its maximum, all of its record size. */
  lemma AlwaysBounded(d: Database)
    requires Valid(d)
    ensures Bounded(Abs(d))
  {
    hide Inv;
    forall n | n in Abs(d).tables
      ensures |Abs(d).tables[n].rows| <= Abs(d).tables[n].maxcount
        && Uniform(Abs(d).tables[n].rows, Abs(d).tables[n].recordsize)
    {
      FittingRows(d.items[Position(d.items, n)]);
    }
  }
}
