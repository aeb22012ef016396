/** Boards over whole runs of operations: what a block holds after any of them, and what reading it then returns. */
module BoardRuns {
  import opened Bytes
  import opened Probing
  import opened Store
  import opened Heap
  import opened Board
  import Runs

  function After(s: State, op: Op): State {
    Step(s, op).state
  }

  function Report(s: State, op: Op): Status {
    Step(s, op).status
  }

  function Run(s: State, ops: seq<Op>): State {
    Runs.Run(After, s, ops)
  }

  /** A board just created. */
  function Blank(size: nat): State {
    State(map[], size, size, TYPEAREA)
  }

  /** The names a caller may pass. */
  predicate Proper(op: Op) {
    op.Clear? || IsName(op.name)
  }

  predicate Clears(op: Op) {
    op.Clear?
  }

  /** A creation that succeeds. */
  predicate Creates(s: State, op: Op) {
    op.Create? && Step(s, op).status == Ok
  }

  /** The creations that succeeded since the board was last cleared. */
  function Created(s: State, ops: seq<Op>): nat {
    Runs.Count(After, Clears, Creates, s, ops)
  }

  /** Between two clears there are fewer creations than slots. */
  ghost predicate Enough(s: State, ops: seq<Op>) {
    forall k :: 0 <= k <= |ops| ==> Created(s, ops[..k]) < INDEXSIZE
  }

  /** The block went through `ops` since it was created with `size` bytes. */
  ghost predicate Served(b: Board, size: nat, ops: seq<Op>)
    reads b, b.data, b.types, b.index
  {
    Valid(b) && Abs(b) == Run(Blank(size), ops) && b.Unused() >= INDEXSIZE - Created(Blank(size), ops)
  }

  // ---- One operation after the other ----

  /** Any operation, by its own method. */
  method Perform(b: Board, op: Op) returns (status: Status)
    requires Valid(b) && Proper(op) && (op.Clear? || b.LookupEnds(op.name))
    modifies b, b.data, b.types, b.index
    ensures Valid(b) && Outcome(Abs(b), status) == Step(old(Abs(b)), op)
    ensures b.Unused() >= if op.Clear? then INDEXSIZE else old(b.Unused()) - if op.Create? && status == Ok then 1 else 0
  {
    hide Valid, Abs, Step;
    match op
    case Create(name, size, typ) => status := CreateItem(b, name, size, typ);
    case Delete(name) => status := DeleteItem(b, name);
    case Write(name, bytes) => status := WriteB(b, name, bytes);
    case WritePart(name, size, off, part) => status := WriteBPart(b, name, size, off, part);
    case WriteString(name, str) => status := WriteB_String(b, name, str);
    case Clear =>
      ClearB(b);
      status := Ok;
  }

  lemma CreatedOneMore(s: State, ops: seq<Op>, op: Op)
    ensures Run(s, ops + [op]) == After(Run(s, ops), op)
    ensures Created(s, ops + [op]) ==
      if op.Clear? then 0
      else Created(s, ops) + if op.Create? && Step(Run(s, ops), op).status == Ok then 1 else 0
  {
    Runs.RunOneMore(After, s, ops, op);
    Runs.CountOneMore(After, Clears, Creates, s, ops, op);
  }

  /** One more operation on a block that went through `ops`. */
  method ServeOne(b: Board, op: Op, ghost size: nat, ghost ops: seq<Op>) returns (status: Status)
    requires Served(b, size, ops) && Proper(op) && Created(Blank(size), ops) < INDEXSIZE
    modifies b, b.data, b.types, b.index
    ensures Served(b, size, ops + [op]) && status == Report(Runs.Run(After, Blank(size), ops), op)
  {
    if !op.Clear? {
      b.LookupEndsExactly(op.name);
    }
    hide Valid, Abs, Step, Run;
    status := Perform(b, op);
    CreatedOneMore(Blank(size), ops, op);
  }

  lemma NothingServed(b: Board, size: nat)
    requires Valid(b) && Abs(b) == Blank(size) && b.Unused() == INDEXSIZE
    ensures Served(b, size, [])
  {
  }

  /** All operations, one after the other. */
  method ServeAll(b: Board, ghost size: nat, ops: seq<Op>) returns (statuses: seq<Status>)
    requires Served(b, size, []) && Enough(Blank(size), ops) && forall op :: op in ops ==> Proper(op)
    modifies b, b.data, b.types, b.index
    ensures Served(b, size, ops) && |statuses| == |ops| && Runs.Reported(After, Report, Blank(size), ops, statuses)
  {
    hide Served, Created, Run, Step, Proper, Blank, Report;
    statuses := [];
    for i := 0 to |ops|
      invariant Served(b, size, ops[..i]) && |statuses| == i && Runs.Reported(After, Report, Blank(size), ops, statuses)
    {
      Runs.ReportedMore(After, Report, Blank(size), ops, statuses);
      assert ops[..i + 1] == ops[..i] + [ops[i]];
      var status := ServeOne(b, ops[i], size, ops[..i]);
      statuses := statuses + [status];
    }
    assert ops[..|ops|] == ops;
  }

  /** From a fresh board every operation completes, as long as creations are fewer than slots between clears. */
  method Serve(size: nat, ops: seq<Op>) returns (b: Board, statuses: seq<Status>)
    requires Enough(Blank(size), ops) && forall op :: op in ops ==> Proper(op)
    ensures Served(b, size, ops) && fresh(b) && fresh(b.data) && fresh(b.types) && fresh(b.index)
    ensures |statuses| == |ops| && Runs.Reported(After, Report, Blank(size), ops, statuses)
  {
    b := CreateB(size);
    NothingServed(b, size);
    hide Served, Created, Run, Step, Proper, Valid, Abs, Enough;
    statuses := ServeAll(b, size, ops);
  }

  // ---- What stays ----

  /** The operations that can change the bytes of an existing tag `name`. */
  predicate Touches(op: Op, name: string) {
    op.Clear? || (!op.Create? && op.name == name)
  }

  /** The operations that can end the life of tag `name`. */
  predicate Ends(op: Op, name: string) {
    op.Clear? || op == Delete(name)
  }

  lemma {:induction false} UntouchedStays(s: State, ops: seq<Op>, name: string)
    requires name in s.tags && forall op :: op in ops ==> !Touches(op, name)
    ensures name in Run(s, ops).tags && Run(s, ops).tags[name] == s.tags[name]
  {
    if ops != [] {
      var init, last := ops[..|ops| - 1], ops[|ops| - 1];
      assert last in ops && ops == init + [last];
      UntouchedStays(s, init, name);
      Runs.RunOneMore(After, s, init, last);
    }
  }

  lemma {:induction false} ShapeStays(s: State, ops: seq<Op>, name: string)
    requires name in s.tags && forall op :: op in ops ==> !Ends(op, name)
    ensures name in Run(s, ops).tags
    ensures |Run(s, ops).tags[name].data| == |s.tags[name].data| && Run(s, ops).tags[name].typ == s.tags[name].typ
  {
    if ops != [] {
      var init, last := ops[..|ops| - 1], ops[|ops| - 1];
      assert last in ops && ops == init + [last];
      ShapeStays(s, init, name);
      Runs.RunOneMore(After, s, init, last);
    }
  }

  /** Whatever is created, deleted, compacted or written elsewhere, a tag nobody touches stays as it is. */
  lemma UntouchedTagStays(b: Board, b': Board, size: nat, before: seq<Op>, after: seq<Op>, name: string)
    requires Served(b, size, before) && Served(b', size, before + after)
    requires name in Abs(b).tags && forall op :: op in after ==> !Touches(op, name)
    ensures name in Abs(b').tags && Abs(b').tags[name] == Abs(b).tags[name]
  {
    hide Valid, Abs, Created, Step;
    Runs.RunConcat(After, Blank(size), before, after);
    UntouchedStays(Run(Blank(size), before), after, name);
  }

  /** Size and type description are fixed at creation, through every write and every compaction. */
  lemma ShapeIsFixed(b: Board, b': Board, size: nat, before: seq<Op>, after: seq<Op>, name: string)
    requires Served(b, size, before) && Served(b', size, before + after)
    requires name in Abs(b).tags && forall op :: op in after ==> !Ends(op, name)
    ensures name in Abs(b').tags && |Abs(b').tags[name].data| == |Abs(b).tags[name].data|
      && Abs(b').tags[name].typ == Abs(b).tags[name].typ
  {
    hide Valid, Abs, Created, Step;
    Runs.RunConcat(After, Blank(size), before, after);
    ShapeStays(Run(Blank(size), before), after, name);
  }

  /** String lengths never outgrow their tag, in every board the operations can make. */
  lemma StringsAlwaysFit(b: Board, name: string)
    requires Valid(b) && name in Abs(b).tags && Abs(b).tags[name].strlen.Some?
    ensures Abs(b).tags[name].strlen.value <= |Abs(b).tags[name].data|
  {
    StringInside(b, name, 0);
  }

  // ---- What is read ----

  /** A run with an operation in the middle that succeeds. */
  ghost predicate Around(size: nat, before: seq<Op>, op: Op, after: seq<Op>) {
    && Enough(Blank(size), before + [op] + after) && (forall o :: o in before + [op] + after ==> Proper(o))
    && Step(Run(Blank(size), before), op).status == Ok
  }

  lemma AroundEnds(size: nat, before: seq<Op>, op: Op, after: seq<Op>)
    ensures Run(Blank(size), before + [op] + after) == Run(After(Run(Blank(size), before), op), after)
  {
    Runs.RunConcat(After, Blank(size), before + [op], after);
    Runs.RunOneMore(After, Blank(size), before, op);
  }

  /** The tag an operation leaves stays until something else touches it. */
  lemma LeftStays(size: nat, before: seq<Op>, op: Op, after: seq<Op>)
    requires Around(size, before, op, after) && !op.Clear? && !op.Delete?
    requires forall o :: o in after ==> !Touches(o, op.name)
    ensures
      var end := Run(Blank(size), before + [op] + after);
      var s := After(Run(Blank(size), before), op);
      op.name in s.tags && op.name in end.tags && end.tags[op.name] == s.tags[op.name] && IsName(op.name)
  {
    hide Enough;
    assert op in before + [op] + after;
    AroundEnds(size, before, op, after);
    UntouchedStays(After(Run(Blank(size), before), op), after, op.name);
  }

  /** Before a call it can be told whether its lookup will end. */
  lemma FoundExactly(b: Board, name: string)
    requires Valid(b) && IsName(name)
    ensures b.LookupEnds(name) <==> b.Unused() > 0 || name in Abs(b).tags
  {
    b.LookupEndsExactly(name);
  }

  /** What a served block shows of a tag, and that it can be read. */
  lemma ServedShows(b: Board, size: nat, before: seq<Op>, op: Op, after: seq<Op>)
    requires Served(b, size, before + [op] + after) && Around(size, before, op, after) && !op.Clear? && !op.Delete?
    requires forall o :: o in after ==> !Touches(o, op.name)
    ensures op.name in After(Run(Blank(size), before), op).tags && op.name in Abs(b).tags
    ensures Abs(b).tags[op.name] == After(Run(Blank(size), before), op).tags[op.name]
    ensures IsName(op.name) && b.LookupEnds(op.name) && Valid(b)
  {
    hide Around, Created;
    LeftStays(size, before, op, after);
    hide After, Run, Touches;
    b.LookupEndsExactly(op.name);
  }

  // What a successful operation leaves in its tag.

  lemma WriteLeaves(s: State, name: string, bytes: seq<byte>)
    requires Step(s, Write(name, bytes)).status == Ok
    ensures name in After(s, Write(name, bytes)).tags && After(s, Write(name, bytes)).tags[name].data == bytes
  {
  }

  lemma CreateLeaves(s: State, name: string, size: nat, typ: seq<byte>)
    requires Step(s, Create(name, size, typ)).status == Ok
    ensures name in After(s, Create(name, size, typ)).tags
    ensures After(s, Create(name, size, typ)).tags[name] == Tag(Zeros(size), KeptType(typ, s.typeroom), None)
  {
  }

  lemma StringLeaves(s: State, name: string, str: seq<byte>)
    requires Step(s, WriteString(name, str)).status == Ok
    ensures name in After(s, WriteString(name, str)).tags
    ensures
      var t := After(s, WriteString(name, str)).tags[name];
      && t.strlen == Some(|str|) && |str| <= |t.data| && t.data[..|str|] == str
      && forall i :: |str| <= i < |t.data| ==> t.data[i] == 0
  {
    var t := s.tags[name];
    assert (str + Zeros(|t.data| - |str|))[..|str|] == str;
  }

  /** A binary read returns the last full write, after any other operations. */
  method LastWriteIsRead(size: nat, before: seq<Op>, name: string, bytes: seq<byte>, after: seq<Op>)
      returns (r: Result<seq<byte>>)
    requires Around(size, before, Write(name, bytes), after) && forall op :: op in after ==> !Touches(op, name)
    ensures r == Success(bytes)
  {
    hide Valid, Run, Created, Proper, Touches, Step, After, Served, Enough;
    var b, statuses := Serve(size, before + [Write(name, bytes)] + after);
    WriteLeaves(Run(Blank(size), before), name, bytes);
    ServedShows(b, size, before, Write(name, bytes), after);
    hide Around;
    r := ReadB(b, name, |bytes|);
  }

  lemma EnoughBefore(s: State, a: seq<Op>, b: seq<Op>)
    requires Enough(s, a + b)
    ensures Enough(s, a)
  {
    forall k | 0 <= k <= |a| ensures Created(s, a[..k]) < INDEXSIZE {
      assert (a + b)[..k] == a[..k];
    }
  }

  lemma PartLeaves(s: State, name: string, n: nat, off: nat, part: seq<byte>)
    requires Step(s, WritePart(name, n, off, part)).status == Ok
    ensures name in s.tags && name in After(s, WritePart(name, n, off, part)).tags && off + |part| <= n
    ensures
      var was, now := s.tags[name].data, After(s, WritePart(name, n, off, part)).tags[name].data;
      && |was| == |now| == n && now[off..off + |part|] == part
      && now[..off] == was[..off] && now[off + |part|..] == was[off + |part|..]
  {
  }

  /** What is read before a part write, and after it and any others: the part is there, the rest as before. */
  method WrittenPartIsRead(size: nat, before: seq<Op>, name: string, n: nat, off: nat, part: seq<byte>, after: seq<Op>)
      returns (was: Result<seq<byte>>, r: Result<seq<byte>>)
    requires Around(size, before, WritePart(name, n, off, part), after)
    requires forall op :: op in after ==> !Touches(op, name)
    ensures was.Success? && r.Success? && |was.value| == |r.value| == n && off + |part| <= n
    ensures r.value[off..off + |part|] == part
    ensures r.value[..off] == was.value[..off] && r.value[off + |part|..] == was.value[off + |part|..]
  {
    hide Valid, Run, Created, Proper, Touches, Step, After, Served, Enough;
    PartLeaves(Run(Blank(size), before), name, n, off, part);
    was := ReadBefore(size, before, name, n, WritePart(name, n, off, part), after);
    var b, statuses := Serve(size, before + [WritePart(name, n, off, part)] + after);
    ServedShows(b, size, before, WritePart(name, n, off, part), after);
    hide Around;
    r := ReadB(b, name, n);
  }

  /** What a tag reads like before an operation on it that succeeds. */
  method ReadBefore(size: nat, before: seq<Op>, name: string, n: nat, op: Op, after: seq<Op>)
      returns (r: Result<seq<byte>>)
    requires Around(size, before, op, after) && !op.Clear? && op.name == name && name in Run(Blank(size), before).tags
    ensures
      var data := Run(Blank(size), before).tags[name].data;
      r == if |data| == n then Success(data) else Failure(RecordSize)
  {
    assert before + [op] + after == before + ([op] + after);
    EnoughBefore(Blank(size), before, [op] + after);
    assert op in before + [op] + after;
    assert forall o :: o in before ==> o in before + [op] + after;
    hide Valid, Run, Created, Step, After, Enough, Around;
    var b, statuses := Serve(size, before);
    b.LookupEndsExactly(name);
    r := ReadB(b, name, n);
  }

  /** A new tag reads as zeros until it is written. */
  method NewTagReadsZeros(size: nat, before: seq<Op>, name: string, n: nat, typ: seq<byte>, after: seq<Op>)
      returns (r: Result<seq<byte>>)
    requires Around(size, before, Create(name, n, typ), after) && forall op :: op in after ==> !Touches(op, name)
    ensures r == Success(Zeros(n))
  {
    hide Valid, Run, Created, Proper, Touches, Step, After, Served, Enough, KeptType;
    var b, statuses := Serve(size, before + [Create(name, n, typ)] + after);
    CreateLeaves(Run(Blank(size), before), name, n, typ);
    ServedShows(b, size, before, Create(name, n, typ), after);
    hide Around;
    r := ReadB(b, name, n);
  }

  /** A string read returns exactly the last string written. */
  method LastStringIsRead(size: nat, before: seq<Op>, name: string, str: seq<byte>, after: seq<Op>, room: nat)
      returns (r: Result<seq<byte>>)
    requires Around(size, before, WriteString(name, str), after) && forall op :: op in after ==> !Touches(op, name)
    requires |str| <= room
    ensures r == Success(str)
  {
    hide Valid, Run, Created, Proper, Touches, Step, After, Served, Enough;
    var b, statuses := Serve(size, before + [WriteString(name, str)] + after);
    StringLeaves(Run(Blank(size), before), name, str);
    ServedShows(b, size, before, WriteString(name, str), after);
    hide Around;
    r := ReadB_String2(b, name, room);
  }

  /** A string leaves nothing behind it of what the tag held before. */
  method StringIsPadded(size: nat, before: seq<Op>, name: string, str: seq<byte>, after: seq<Op>, n: nat)
      returns (r: Result<seq<byte>>)
    requires Around(size, before, WriteString(name, str), after) && forall op :: op in after ==> !Touches(op, name)
    ensures r.Success? ==> |r.value| == n && str <= r.value && forall i :: |str| <= i < n ==> r.value[i] == 0
    ensures r.Success? || r == Failure(RecordSize)
  {
    hide Valid, Run, Created, Proper, Touches, Step, After, Served, Enough;
    var b, statuses := Serve(size, before + [WriteString(name, str)] + after);
    StringLeaves(Run(Blank(size), before), name, str);
    ServedShows(b, size, before, WriteString(name, str), after);
    hide Around;
    r := ReadB(b, name, n);
  }

  /** What a served block shows of the type of a tag that was created and never ended. */
  lemma ServedType(b: Board, size: nat, before: seq<Op>, name: string, n: nat, typ: seq<byte>, after: seq<Op>)
    requires Served(b, size, before + [Create(name, n, typ)] + after)
      && Around(size, before, Create(name, n, typ), after)
    requires forall op :: op in after ==> !Ends(op, name)
    ensures name in Abs(b).tags && Abs(b).tags[name].typ == KeptType(typ, Run(Blank(size), before).typeroom)
    ensures IsName(name) && b.LookupEnds(name) && Valid(b)
  {
    hide Created, Enough, KeptType;
    var op := Create(name, n, typ);
    CreateLeaves(Run(Blank(size), before), name, n, typ);
    AroundEnds(size, before, op, after);
    ShapeStays(After(Run(Blank(size), before), op), after, name);
    assert op in before + [op] + after;
    hide After, Run, Ends, Step;
    b.LookupEndsExactly(name);
  }

  /**
   The type description given at creation is read back, after any writes and compactions, exactly when it was kept.
   */
  method TypeIsRead(size: nat, before: seq<Op>, name: string, n: nat, typ: seq<byte>, after: seq<Op>)
      returns (r: Option<seq<byte>>)
    requires Around(size, before, Create(name, n, typ), after) && forall op :: op in after ==> !Ends(op, name)
    ensures r == Some(typ) <==> typ != [] && |typ| < TYPEMAXSIZE && |typ| < Run(Blank(size), before).typeroom
    ensures r == Some(typ) || r == None
  {
    hide Valid, Run, Created, Proper, Ends, Step, After, Served, Enough;
    var b, statuses := Serve(size, before + [Create(name, n, typ)] + after);
    ServedType(b, size, before, name, n, typ, after);
    hide Around;
    r := ReadType(b, name);
  }

  lemma CreateDeleteStep(s: State, name: string, size: nat, typ: seq<byte>)
    requires Step(s, Create(name, size, typ)).status == Ok
    ensures name in After(s, Create(name, size, typ)).tags
    ensures Step(After(s, Create(name, size, typ)), Delete(name)) == Outcome(s, Ok)
  {
    assert After(s, Create(name, size, typ)).tags - {name} == s.tags;
  }

  /** Creating a tag and deleting it again gives every byte back and changes nothing else. */
  method DeleteUndoesCreate(b: Board, name: string, size: nat, typ: seq<byte>)
    requires Valid(b) && IsName(name) && b.LookupEnds(name) && Step(Abs(b), Create(name, size, typ)).status == Ok
    modifies b, b.data, b.types, b.index
    ensures Valid(b) && Abs(b) == old(Abs(b)) && old(b.Unused()) - 1 <= b.Unused() <= old(b.Unused())
  {
    ghost var s := Abs(b);
    CreateDeleteStep(s, name, size, typ);
    hide Valid, Step, Abs, TookSlot;
    var created := CreateItem(b, name, size, typ);
    FoundExactly(b, name);
    var deleted := DeleteItem(b, name);
  }

  // ---- What is refused, and what is gone ----

  /** The bytes of some tags together. */
  function TotalSize(items: seq<Item<StringInfo>>): nat {
    if items == [] then 0 else TotalSize(items[..|items| - 1]) + |items[|items| - 1].data|
  }

  function TotalType(items: seq<Item<StringInfo>>): nat {
    if items == [] then 0 else TotalType(items[..|items| - 1]) + |items[|items| - 1].typ|
  }

  lemma {:induction false} TotalsAreFlat(items: seq<Item<StringInfo>>)
    ensures |Flatten(Datas(items))| == TotalSize(items) && |Flatten(Typs(items))| == TotalType(items)
  {
    if items != [] {
      var n := |items| - 1;
      TotalsAreFlat(items[..n]);
      assert Datas(items)[..n] == Datas(items[..n]) && Typs(items)[..n] == Typs(items[..n]);
    }
  }

  /** The room of a board is its capacity less the bytes of all its tags, and so for the type descriptions. */
  lemma RoomIsWhatIsLeft(b: Board)
    requires Valid(b)
    ensures Abs(b).room == Abs(b).capacity - TotalSize(b.items) && Abs(b).typeroom == TYPEAREA - TotalType(b.items)
    ensures |Abs(b).tags| == |b.items|
    ensures forall i :: 0 <= i < |b.items| ==>
      b.items[i].name in Abs(b).tags && |Abs(b).tags[b.items[i].name].data| == |b.items[i].data|
  {
    TotalsAreFlat(b.items);
    AreaNext(b.data[..], Datas(b.items), b.nextpos, b.remain);
    AreaNext(b.types[..], Typs(b.items), b.nexttypepos, b.typeremain);
    b.Counters();
    TagCount(Entries(b.items));
    forall i | 0 <= i < |b.items|
      ensures b.items[i].name in Abs(b).tags && |Abs(b).tags[b.items[i].name].data| == |b.items[i].data| {
      PositionIs(b.items, i);
    }
  }

  /** A creation fails for the first of four reasons that applies, and for no other. */
  lemma CreateReports(b: Board, name: string, size: nat, typ: seq<byte>)
    requires Valid(b)
    ensures
      var status := Step(Abs(b), Create(name, size, typ)).status;
      var fits, unknown := |typ| <= TYPEMAXSIZE, name !in Abs(b).tags;
      var room := TotalSize(b.items) + size <= b.data.Length;
      && (status == ParameterSize <==> !fits) && (status == ItemAlreadyExist <==> fits && !unknown)
      && (status == NoSpace <==> fits && unknown && !room)
      && (status == ItemOverflow <==> fits && unknown && room && |b.items| == INDEXSIZE - 1)
      && (status == Ok <==> fits && unknown && room && |b.items| < INDEXSIZE - 1)
  {
    RoomIsWhatIsLeft(b);
    b.Counters();
    var s, total, n := Abs(b), TotalSize(b.items), |b.items|;
    hide Valid, Abs, Step, TotalSize;
    CreationReports(s, name, size, typ, total, n);
  }

  lemma CreationReports(s: State, name: string, size: nat, typ: seq<byte>, total: nat, n: nat)
    requires s.room == s.capacity - total && n == |s.tags| <= INDEXSIZE - 1
    ensures
      var status := Step(s, Create(name, size, typ)).status;
      var fits, unknown, room := |typ| <= TYPEMAXSIZE, name !in s.tags, total + size <= s.capacity;
      && (status == ParameterSize <==> !fits) && (status == ItemAlreadyExist <==> fits && !unknown)
      && (status == NoSpace <==> fits && unknown && !room)
      && (status == ItemOverflow <==> fits && unknown && room && n == INDEXSIZE - 1)
      && (status == Ok <==> fits && unknown && room && n < INDEXSIZE - 1)
  {
  }

  /** The other operations fail when the tag is unknown, and the writes when what is written does not fit it. */
  lemma OthersReport(s: State, op: Op)
    requires !op.Create?
    ensures op.Clear? ==> Step(s, op).status == Ok
    ensures op.Delete? ==> Step(s, op).status == if op.name in s.tags then Ok else ItemNotExist
    ensures op.Write? || op.WritePart? || op.WriteString? ==>
      (Step(s, op).status == TagNotExist <==> op.name !in s.tags)
    ensures op.Write? && op.name in s.tags ==>
      Step(s, op).status == if |op.bytes| == |s.tags[op.name].data| then Ok else RecordSize
    ensures op.WritePart? && op.name in s.tags ==>
      (Step(s, op).status == Ok <==> op.size == |s.tags[op.name].data| && op.off + |op.part| <= op.size)
      && (Step(s, op).status == Ok || Step(s, op).status == RecordSize)
    ensures op.WriteString? && op.name in s.tags ==>
      Step(s, op).status == if |op.str| <= |s.tags[op.name].data| then Ok else StringTooLong
  {
  }

  lemma RefusedChangesNothing(s: State, op: Op)
    requires Step(s, op).status != Ok
    ensures Step(s, op).state == s
  {
  }

  lemma {:induction false} GoneStays(s: State, ops: seq<Op>, name: string)
    requires name !in s.tags && forall op :: op in ops ==> !(op.Create? && op.name == name)
    ensures name !in Run(s, ops).tags
  {
    if ops != [] {
      var init, last := ops[..|ops| - 1], ops[|ops| - 1];
      assert last in ops && ops == init + [last];
      GoneStays(s, init, name);
      Runs.RunOneMore(After, s, init, last);
    }
  }

  /** A tag deleted, or cleared away with all others, is unknown until it is created again. */
  method GoneIsUnknown(size: nat, before: seq<Op>, op: Op, name: string, n: nat, after: seq<Op>)
      returns (r: Result<seq<byte>>)
    requires (op.Clear? || op == Delete(name)) && Around(size, before, op, after) && IsName(name)
    requires forall o :: o in after ==> !(o.Create? && o.name == name)
    ensures r == Failure(TagNotExist)
  {
    GoneStays(After(Run(Blank(size), before), op), after, name);
    AroundEnds(size, before, op, after);
    var ops := before + [op] + after;
    assert ops[..|ops|] == ops && Created(Blank(size), ops[..|ops|]) < INDEXSIZE;
    hide Valid, Run, Created, Proper, Step, After, Enough;
    var b, statuses := Serve(size, ops);
    b.LookupEndsExactly(name);
    hide Around;
    r := ReadB(b, name, n);
  }

  // ---- A string length left behind ----

  /** On a board without tags a creation takes the slot its name hashes to. */
  lemma FirstSlot(ix: seq<Slot<StringInfo>>, items: seq<Item<StringInfo>>, locs: seq<nat>,
                  items': seq<Item<StringInfo>>, locs': seq<nat>, name: string)
    requires Agree(ix, items, locs) && items == [] && TookSlot(ix, items, locs, items', locs', name)
    ensures locs' == [At(INDEXSIZE, name, 0)] && |items'| == 1 && items'[0].name == name
    ensures items'[0].extra == StringInfo(ix[At(INDEXSIZE, name, 0)].extra.strlenth, false)
  {
    var p: nat :| FreeAt(ix, name, p) && TookAt(ix, items, locs, items', locs', At(INDEXSIZE, name, p));
    var firstIsLive := Live(ix[At(INDEXSIZE, name, 0)]);
    assert p > 0 ==> firstIsLive;
  }

  /** The slot of the only tag records what the tag records. */
  lemma OnlySlot(b: Board, loc: nat)
    requires Valid(b) && b.locs == [loc]
    ensures |b.items| == 1 && loc < b.index.Length && b.index[loc].extra == b.items[0].extra
  {
    b.Counters();
    b.InfoOf(0);
  }

  lemma OnlyTag(b: Board, name: string)
    requires Valid(b) && |b.items| == 1 && b.items[0].name == name
    ensures Position(b.items, name) == 0 && name in Entries(b.items) && Entries(b.items)[name] == b.items[0]
    ensures b.DataOffset(0) == 0 && StartOf(b, name) == 0 && StoredLength(b, name) == b.items[0].extra.strlenth
  {
    PositionIs(b.items, 0);
  }

  /** A new board with one tag, to which a string was written. */
  method StringOnce(size: nat, name: string, str: seq<byte>) returns (b: Board)
    requires IsName(name) && |str| <= size
    ensures Valid(b) && fresh(b) && fresh(b.data) && fresh(b.types) && fresh(b.index) && b.Unused() >= INDEXSIZE - 1
    ensures Step(Abs(b), Delete(name)) == Outcome(Blank(size), Ok)
    ensures b.locs == [At(INDEXSIZE, name, 0)] && |b.items| == 1 && b.items[0].extra.strlenth == |str|
  {
    hide Inv, Entries, NameSet, Names, NeverUsed, At, IsName, KeptType, FreeAt;
    b := CreateB(size);
    b.LookupEndsExactly(name);
    ghost var ix := b.index[..];
    assert Agree(ix, b.items, b.locs) by { Fresh(b); }
    var created := CreateItem(b, name, |str|, []);
    FirstSlot(ix, [], [], b.items, b.locs, name);
    OnlyTag(b, name);
    FoundExactly(b, name);
    var written := WriteB_String(b, name, str);
    EmptyAgain(size, name, str);
  }

  lemma EmptyAgain(size: nat, name: string, str: seq<byte>)
    requires |str| <= size
    ensures Step(Blank(size), Create(name, |str|, [])).status == Ok
    ensures
      var s := After(After(Blank(size), Create(name, |str|, [])), WriteString(name, str));
      Step(s, Delete(name)) == Outcome(Blank(size), Ok)
  {
    assert |Blank(size).tags| == 0;
    assert map[name := 0] - {name} == map[];
    var s := After(After(Blank(size), Create(name, |str|, [])), WriteString(name, str));
    assert s.tags - {name} == map[];
  }

  /** The tag is deleted again: its slot still records the length of the string. */
  method StringLeftBehind(size: nat, name: string, str: seq<byte>) returns (b: Board)
    requires IsName(name) && |str| <= size
    ensures Valid(b) && fresh(b) && fresh(b.data) && fresh(b.types) && fresh(b.index)
    ensures Abs(b) == Blank(size) && b.items == [] && b.Unused() >= INDEXSIZE - 1
    ensures b.index[At(INDEXSIZE, name, 0)].extra.strlenth == |str|
  {
    hide Inv, Entries, NameSet, Names, NeverUsed, At, IsName, Step;
    b := StringOnce(size, name, str);
    b.LookupEndsExactly(name);
    OnlySlot(b, At(INDEXSIZE, name, 0));
    var deleted := DeleteItem(b, name);
  }

  lemma Fresh(b: Board)
    requires Valid(b)
    ensures Agree(b.index[..], b.items, b.locs)
  {
  }

  /** A string outlives its tag: a new and shorter tag of that name gives out as many bytes as the string had. */
  method StaleLengthIsRead(size: nat, name: string, str: seq<byte>, n: nat) returns (b: Board, r: Result<seq<byte>>)
    requires IsName(name) && n < |str| <= size
    ensures Valid(b) && name in Abs(b).tags && |Abs(b).tags[name].data| == n
    ensures r.Success? && |r.value| == |str| && r.value[..n] == Zeros(n)
  {
    hide Inv, Entries, NameSet, Names, NeverUsed, At, IsName, KeptType, FreeAt;
    b := StringLeftBehind(size, name, str);
    b.LookupEndsExactly(name);
    ghost var ix, locs := b.index[..], b.locs;
    assert Agree(ix, b.items, b.locs) by { Fresh(b); }
    var created := CreateItem(b, name, n, []);
    FirstSlot(ix, [], locs, b.items, b.locs, name);
    OnlyTag(b, name);
    FoundExactly(b, name);
    b.EntryInMemory(0);
    r := ReadB_String2(b, name, |str|);
    assert b.Memory()[..|str|][..n] == b.Memory()[..n];
  }
}
