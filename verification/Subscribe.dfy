/**
 The subscription index: for every tag the subscribers in order and the latest PLC server, and for every connection the
 tags to look under when it leaves.
 */
module Subscribe {
  import opened Bytes

  /** `eventid` is a number from the wire; 1 is DEFAULT and 2 is POST_DELAY. */
  datatype EventNode<C(==)> = EventNode(subscriber: C, eventname: string, eventid: int, eventarg: int)

  const DEFAULT := 1
  const POST_DELAY := 2

  // ---- Lists of nodes ----

  /** The nodes of everyone but `c`, in order. */
  function Others<C(==)>(nodes: seq<EventNode<C>>, c: C): (r: seq<EventNode<C>>) {
    if nodes == [] then []
    else
      var last := nodes[|nodes| - 1];
      Others(nodes[..|nodes| - 1], c) + if last.subscriber == c then [] else [last]
  }

  lemma {:induction false} OthersConcat<C>(a: seq<EventNode<C>>, b: seq<EventNode<C>>, c: C)
    ensures Others(a + b, c) == Others(a, c) + Others(b, c)
  {
    if b == [] {
      assert a + b == a;
    } else {
      assert (a + b)[..|a + b| - 1] == a + b[..|b| - 1];
      OthersConcat(a, b[..|b| - 1], c);
    }
  }

  lemma {:induction false} OthersHasNone<C>(nodes: seq<EventNode<C>>, c: C)
    ensures forall n :: n in Others(nodes, c) <==> n in nodes && n.subscriber != c
  {
    if nodes != [] {
      OthersHasNone(nodes[..|nodes| - 1], c);
    }
  }

  lemma {:induction false} OthersIsAll<C>(nodes: seq<EventNode<C>>, c: C)
    requires forall n :: n in nodes ==> n.subscriber != c
    ensures Others(nodes, c) == nodes
  {
    if nodes != [] {
      var init, last := nodes[..|nodes| - 1], nodes[|nodes| - 1];
      assert nodes == init + [last];
      assert last in nodes;
      OthersIsAll(init, c);
    }
  }

  // ---- The index as a value ----

  /** The subscribers of each tag. */
  type Subjects<!C(==)> = map<string, seq<EventNode<C>>>

  datatype Index<!C(==)> = Index(subjects: Subjects<C>, plc: map<string, C>,
                                 tags: map<C, seq<string>>, plcTags: map<C, seq<string>>)

  function Nodes<C>(subjects: Subjects<C>, tag: string): seq<EventNode<C>> {
    if tag in subjects then subjects[tag] else []
  }

  function Lookup<K, V>(m: map<K, V>, k: K): Option<V> {
    if k in m then Some(m[k]) else None
  }

  function Tags<C>(tags: map<C, seq<string>>, c: C): seq<string> {
    if c in tags then tags[c] else []
  }

  /** What a connection is subscribed to, it finds in its own lists. */
  ghost predicate Reversed<C>(ix: Index<C>) {
    && (forall tag, i | tag in ix.subjects && 0 <= i < |ix.subjects[tag]| ::
          tag in Tags(ix.tags, ix.subjects[tag][i].subscriber))
    && (forall tag | tag in ix.plc :: tag in Tags(ix.plcTags, ix.plc[tag]))
  }

  function AttachTo<C>(subjects: Subjects<C>, tag: string, node: EventNode<C>): Subjects<C> {
    subjects[tag := Nodes(subjects, tag) + [node]]
  }

  function DetachFrom<C(==)>(subjects: Subjects<C>, tag: string, c: C): Subjects<C> {
    subjects[tag := Others(Nodes(subjects, tag), c)]
  }

  function DetachPlcFrom<C(==)>(plc: map<string, C>, tag: string, c: C): map<string, C> {
    if tag in plc && plc[tag] == c then plc - {tag} else plc
  }

  /** Detaching under one tag after the other. */
  function DetachAll<C(==)>(subjects: Subjects<C>, tags: seq<string>, c: C): Subjects<C> {
    if tags == [] then subjects else DetachFrom(DetachAll(subjects, tags[..|tags| - 1], c), tags[|tags| - 1], c)
  }

  function DetachPlcAll<C(==)>(plc: map<string, C>, tags: seq<string>, c: C): map<string, C> {
    if tags == [] then plc else DetachPlcFrom(DetachPlcAll(plc, tags[..|tags| - 1], c), tags[|tags| - 1], c)
  }

  lemma {:induction false} DetachAllFilters<C>(subjects: Subjects<C>, tags: seq<string>, c: C,
                                               tag: string)
    ensures Nodes(DetachAll(subjects, tags, c), tag)
         == if tag in tags then Others(Nodes(subjects, tag), c) else Nodes(subjects, tag)
  {
    if tags != [] {
      DetachAllFilters(subjects, tags[..|tags| - 1], c, tag);
      OthersHasNone(Nodes(subjects, tag), c);
      OthersIsAll(Others(Nodes(subjects, tag), c), c);
    }
  }

  lemma {:induction false} DetachPlcAllFilters<C>(plc: map<string, C>, tags: seq<string>, c: C, tag: string)
    ensures Lookup(DetachPlcAll(plc, tags, c), tag) ==
      if tag in tags && Lookup(plc, tag) == Some(c) then None else Lookup(plc, tag)
  {
    if tags != [] {
      DetachPlcAllFilters(plc, tags[..|tags| - 1], c, tag);
    }
  }

  // ---- Requests and their history ----

  datatype Request<C(==)> =
    | Subscribed(tag: string, node: EventNode<C>)
    | Registered(tag: string, server: C)
    | Cancelled(conn: C)
    | Freed(conn: C)

  /** A connection that goes back to the pool forgets its tags without a look at the index. */
  function Apply<C(==)>(ix: Index<C>, r: Request<C>): Index<C> {
    match r
    case Subscribed(tag, node) =>
      var c := node.subscriber;
      ix.(tags := ix.tags[c := Tags(ix.tags, c) + [tag]], subjects := AttachTo(ix.subjects, tag, node))
    case Registered(tag, server) =>
      ix.(plcTags := ix.plcTags[server := Tags(ix.plcTags, server) + [tag]], plc := ix.plc[tag := server])
    case Cancelled(conn) =>
      Index(DetachAll(ix.subjects, Tags(ix.tags, conn), conn), DetachPlcAll(ix.plc, Tags(ix.plcTags, conn), conn),
            ix.tags[conn := []], ix.plcTags[conn := []])
    case Freed(conn) => ix.(tags := ix.tags[conn := []], plcTags := ix.plcTags[conn := []])
  }

  /** Leaving takes away every node and registration of the connection, and nothing else. */
  lemma CancelLeavesNoTrace<C>(ix: Index<C>, c: C, tag: string)
    requires Reversed(ix)
    ensures Nodes(Apply(ix, Cancelled(c)).subjects, tag) == Others(Nodes(ix.subjects, tag), c)
    ensures Lookup(Apply(ix, Cancelled(c)).plc, tag) ==
      if Lookup(ix.plc, tag) == Some(c) then None else Lookup(ix.plc, tag)
  {
    DetachAllFilters(ix.subjects, Tags(ix.tags, c), c, tag);
    DetachPlcAllFilters(ix.plc, Tags(ix.plcTags, c), c, tag);
    if tag !in Tags(ix.tags, c) {
      OthersIsAll(Nodes(ix.subjects, tag), c);
    }
  }

  lemma {:induction false} OthersAt<C>(nodes: seq<EventNode<C>>, c: C, i: nat) returns (j: nat)
    requires i < |Others(nodes, c)|
    ensures j < |nodes| && nodes[j] == Others(nodes, c)[i] && nodes[j].subscriber != c
  {
    var init := nodes[..|nodes| - 1];
    if i < |Others(init, c)| {
      j := OthersAt(init, c, i);
    } else {
      j := |nodes| - 1;
    }
  }

  lemma ReversedCancel<C>(ix: Index<C>, c: C)
    requires Reversed(ix)
    ensures Reversed(Apply(ix, Cancelled(c)))
  {
    hide DetachAll, DetachPlcAll, Others;
    var ix' := Apply(ix, Cancelled(c));
    forall tag, i | tag in ix'.subjects && 0 <= i < |ix'.subjects[tag]|
      ensures tag in Tags(ix'.tags, ix'.subjects[tag][i].subscriber)
    {
      CancelLeavesNoTrace(ix, c, tag);
      var j := OthersAt(Nodes(ix.subjects, tag), c, i);
      assert tag in ix.subjects && ix.subjects[tag][j] == ix'.subjects[tag][i];
    }
    forall tag | tag in ix'.plc ensures tag in Tags(ix'.plcTags, ix'.plc[tag]) {
      CancelLeavesNoTrace(ix, c, tag);
      assert Lookup(ix'.plc, tag) == Some(ix'.plc[tag]);
    }
  }

  /** The index has nothing of the connection under the tag. */
  ghost predicate Absent<C>(ix: Index<C>, c: C, tag: string) {
    (forall n :: n in Nodes(ix.subjects, tag) ==> n.subscriber != c) && Lookup(ix.plc, tag) != Some(c)
  }

  lemma ReversedFreedIff<C>(ix: Index<C>, c: C)
    requires Reversed(ix)
    ensures Reversed(Apply(ix, Freed(c))) <==> forall tag :: Absent(ix, c, tag)
  {
    if Reversed(Apply(ix, Freed(c))) {
      forall tag ensures Absent(ix, c, tag) {
        assert Apply(ix, Freed(c)).subjects == ix.subjects;
      }
    } else if forall tag :: Absent(ix, c, tag) {
      forall tag, i | tag in ix.subjects && 0 <= i < |ix.subjects[tag]| ensures ix.subjects[tag][i].subscriber != c {
        assert Absent(ix, c, tag) && ix.subjects[tag][i] in Nodes(ix.subjects, tag);
      }
      forall tag | tag in ix.plc ensures ix.plc[tag] != c {
        assert Absent(ix, c, tag);
      }
    }
  }

  /** The reverse index stays complete exactly when no connection is freed that the index still knows. */
  lemma ReversedIff<C>(ix: Index<C>, r: Request<C>)
    requires Reversed(ix)
    ensures Reversed(Apply(ix, r)) <==> (r.Freed? ==> forall tag :: Absent(ix, r.conn, tag))
  {
    hide DetachAll, DetachPlcAll, Others, Absent;
    if r.Cancelled? {
      ReversedCancel(ix, r.conn);
    } else if r.Freed? {
      ReversedFreedIff(ix, r.conn);
    }
  }

  function Serve<C(==)>(ix: Index<C>, history: seq<Request<C>>): Index<C> {
    if history == [] then ix else Apply(Serve(ix, history[..|history| - 1]), history[|history| - 1])
  }

  /** The connection cancels, or goes back to the pool. */
  predicate Leaves<C(==)>(r: Request<C>, c: C) {
    (r.Cancelled? || r.Freed?) && r.conn == c
  }

  predicate Left<C(==)>(later: seq<Request<C>>, c: C) {
    Cancelled(c) in later || Freed(c) in later
  }

  /** The subscriptions to a tag whose connection has not left since, in the order they were made. */
  function Live<C(==)>(history: seq<Request<C>>, tag: string): seq<EventNode<C>> {
    if history == [] then []
    else Standing(history[0], history[1..], tag) + Live(history[1..], tag)
  }

  /** The node a request made under `tag`, if its connection does not leave in `later`. */
  function Standing<C(==)>(r: Request<C>, later: seq<Request<C>>, tag: string): seq<EventNode<C>> {
    if r.Subscribed? && r.tag == tag && !Left(later, r.node.subscriber) then [r.node] else []
  }

  lemma LeftOneMore<C>(later: seq<Request<C>>, s: Request<C>, c: C)
    ensures Left(later + [s], c) <==> Left(later, c) || Leaves(s, c)
  {
    assert forall r :: r in later + [s] <==> r in later || r == s;
  }

  lemma StandingOneMore<C>(r: Request<C>, later: seq<Request<C>>, s: Request<C>, tag: string)
    ensures Standing(r, later + [s], tag)
      == if s.Cancelled? || s.Freed? then Others(Standing(r, later, tag), s.conn) else Standing(r, later, tag)
  {
    hide Left;
    if r.Subscribed? {
      LeftOneMore(later, s, r.node.subscriber);
      if s.Cancelled? || s.Freed? {
        OthersOne(r.node, s.conn);
      }
    }
  }

  lemma OthersOne<C>(n: EventNode<C>, c: C)
    ensures Others([n], c) == if n.subscriber == c then [] else [n]
  {
  }

  lemma {:induction false} LiveWasAsked<C>(history: seq<Request<C>>, tag: string, n: EventNode<C>)
    requires n in Live(history, tag)
    ensures Subscribed(tag, n) in history
  {
    if n in Live(history[1..], tag) {
      LiveWasAsked(history[1..], tag, n);
    }
  }

  /** The latest registration for a tag, unless its connection has left since. */
  function LivePlc<C(==)>(history: seq<Request<C>>, tag: string): Option<C> {
    if history == [] then None
    else if Later(history[1..], tag) then LivePlc(history[1..], tag)
    else if history[0].Registered? && history[0].tag == tag && !Left(history[1..], history[0].server) then
      Some(history[0].server)
    else None
  }

  predicate Later<C(==)>(history: seq<Request<C>>, tag: string) {
    exists i :: 0 <= i < |history| && history[i].Registered? && history[i].tag == tag
  }

  lemma {:induction false} LiveOneMore<C>(history: seq<Request<C>>, r: Request<C>, tag: string)
    ensures Live(history + [r], tag) == match r
      case Subscribed(t, node) => Live(history, tag) + if t == tag then [node] else []
      case Registered(_, _) => Live(history, tag)
      case Cancelled(c) => Others(Live(history, tag), c)
      case Freed(c) => Others(Live(history, tag), c)
  {
    hide Standing;
    if history == [] {
      assert history + [r] == [r];
      assert Standing(r, [], tag) == match r
        case Subscribed(t, node) => if t == tag then [node] else []
        case Registered(_, _) => []
        case Cancelled(_) => []
        case Freed(_) => [] by { StandingLast(r, tag); }
    } else {
      var first, rest := history[0], history[1..];
      assert (history + [r])[1..] == rest + [r];
      LiveOneMore(rest, r, tag);
      StandingOneMore(first, rest, r, tag);
      if r.Cancelled? || r.Freed? {
        OthersConcat(Standing(first, rest, tag), Live(rest, tag), r.conn);
      }
    }
  }

  lemma StandingLast<C>(r: Request<C>, tag: string)
    ensures Standing(r, [], tag) == if r.Subscribed? && r.tag == tag then [r.node] else []
  {
  }

  lemma {:induction false} LivePlcOneMore<C>(history: seq<Request<C>>, r: Request<C>, tag: string)
    ensures LivePlc(history + [r], tag) == match r
      case Subscribed(_, _) => LivePlc(history, tag)
      case Registered(t, server) => if t == tag then Some(server) else LivePlc(history, tag)
      case Cancelled(c) => if LivePlc(history, tag) == Some(c) then None else LivePlc(history, tag)
      case Freed(c) => if LivePlc(history, tag) == Some(c) then None else LivePlc(history, tag)
  {
    if history == [] {
      assert history + [r] == [r];
    } else {
      hide Left, Later;
      var rest := history[1..];
      if history[0].Registered? {
        LeftOneMore(rest, r, history[0].server);
      }
      assert (history + [r])[1..] == rest + [r];
      LivePlcOneMore(rest, r, tag);
      LaterOneMore(rest, r, tag);
    }
  }

  lemma LaterOneMore<C>(history: seq<Request<C>>, r: Request<C>, tag: string)
    ensures Later(history + [r], tag) <==> Later(history, tag) || (r.Registered? && r.tag == tag)
  {
    assert (history + [r])[|history|] == r;
    if Later(history, tag) {
      var i :| 0 <= i < |history| && history[i].Registered? && history[i].tag == tag;
      assert (history + [r])[i] == history[i];
    }
  }

  lemma NothingYet<C>(ix: Index<C>, tag: string)
    requires ix.subjects == map[] && ix.plc == map[]
    ensures Reversed(ix) && Nodes(ix.subjects, tag) == Live<C>([], tag) && Lookup(ix.plc, tag) == LivePlc<C>([], tag)
  {
  }

  /** The history has nothing of the connection left under the tag. */
  ghost predicate Gone<C>(history: seq<Request<C>>, c: C, tag: string) {
    (forall n :: n in Live(history, tag) ==> n.subscriber != c) && LivePlc(history, tag) != Some(c)
  }

  ghost predicate AllGone<C>(history: seq<Request<C>>, c: C) {
    forall tag :: Gone(history, c, tag)
  }

  /** No connection was freed with a subscription or registration made after its last cancellation. */
  ghost predicate Clean<C>(history: seq<Request<C>>) {
    history != [] ==>
      && Clean(history[..|history| - 1])
      && (history[|history| - 1].Freed? ==> AllGone(history[..|history| - 1], history[|history| - 1].conn))
  }

  /** Each tag has exactly its live subscriptions in order and its live server. */
  ghost predicate Reflects<C>(ix: Index<C>, history: seq<Request<C>>) {
    forall tag :: Nodes(ix.subjects, tag) == Live(history, tag) && Lookup(ix.plc, tag) == LivePlc(history, tag)
  }

  lemma ReflectsStep<C>(ix: Index<C>, history: seq<Request<C>>, r: Request<C>)
    requires Reversed(ix) && Reflects(ix, history)
    requires r.Freed? ==> AllGone(history, r.conn)
    ensures Reversed(Apply(ix, r)) && Reflects(Apply(ix, r), history + [r])
  {
    hide Reversed, Live, LivePlc, DetachAll, DetachPlcAll, Others;
    if r.Freed? {
      forall tag ensures Absent(ix, r.conn, tag) {
        assert Gone(history, r.conn, tag);
      }
    }
    ReversedIff(ix, r);
    forall tag ensures Nodes(Apply(ix, r).subjects, tag) == Live(history + [r], tag)
                       && Lookup(Apply(ix, r).plc, tag) == LivePlc(history + [r], tag) {
      LiveOneMore(history, r, tag);
      LivePlcOneMore(history, r, tag);
      if r.Cancelled? {
        CancelLeavesNoTrace(ix, r.conn, tag);
      } else if r.Freed? {
        assert Gone(history, r.conn, tag);
        OthersIsAll(Live(history, tag), r.conn);
      }
    }
  }

  /** After a clean history, from an empty index, the index is the history's and the reverse index is complete. */
  lemma {:induction false} IndexIsHistory<C>(ix: Index<C>, history: seq<Request<C>>)
    requires ix.subjects == map[] && ix.plc == map[] && Clean(history)
    ensures Reversed(Serve(ix, history)) && Reflects(Serve(ix, history), history)
  {
    if history == [] {
      forall tag ensures Nodes(ix.subjects, tag) == Live<C>([], tag) && Lookup(ix.plc, tag) == LivePlc<C>([], tag) {
        NothingYet(ix, tag);
      }
    } else {
      var init, r := history[..|history| - 1], history[|history| - 1];
      assert history == init + [r];
      IndexIsHistory(ix, init);
      hide Reversed, Reflects, Gone;
      ReflectsStep(Serve(ix, init), init, r);
    }
  }

  /** At every moment of the history, that is after each beginning of it. */
  ghost predicate AlwaysReflects<C>(ix: Index<C>, history: seq<Request<C>>) {
    forall k :: 0 <= k <= |history| ==> Reflects(Serve(ix, history[..k]), history[..k])
  }

  lemma FreedWasGone<C>(ix: Index<C>, history: seq<Request<C>>, c: C)
    requires Reflects(ix, history) && Reflects(Apply(ix, Freed(c)), history + [Freed(c)])
    ensures AllGone(history, c)
  {
    hide Live, LivePlc, Others;
    forall tag ensures Gone(history, c, tag) {
      LiveOneMore(history, Freed(c), tag);
      LivePlcOneMore(history, Freed(c), tag);
      assert Nodes(ix.subjects, tag) == Live(history, tag)
        && Nodes(Apply(ix, Freed(c)).subjects, tag) == Live(history + [Freed(c)], tag);
      assert Lookup(ix.plc, tag) == LivePlc(history, tag)
        && Lookup(Apply(ix, Freed(c)).plc, tag) == LivePlc(history + [Freed(c)], tag);
      OthersHasNone(Live(history, tag), c);
    }
  }

  lemma {:induction false} IndexIsHistoryIff<C>(ix: Index<C>, history: seq<Request<C>>)
    requires ix.subjects == map[] && ix.plc == map[]
    ensures AlwaysReflects(ix, history) <==> Clean(history)
  {
    hide Reflects, Gone, AllGone, Apply;
    if history == [] {
      IndexIsHistory(ix, history);
      assert history[..0] == history;
    } else {
      var init, r := history[..|history| - 1], history[|history| - 1];
      IndexIsHistoryIff(ix, init);
      ReflectsSoFar(ix, history);
      assert history == init + [r];
      if Clean(history) {
        IndexIsHistory(ix, history);
      } else if AlwaysReflects(ix, init) && Reflects(Serve(ix, history), history) {
        assert init[..|init|] == init;
        FreedWasGone(Serve(ix, init), init, r.conn);
      }
    }
  }

  lemma ReflectsSoFar<C>(ix: Index<C>, history: seq<Request<C>>)
    requires history != []
    ensures AlwaysReflects(ix, history)
      <==> AlwaysReflects(ix, history[..|history| - 1]) && Reflects(Serve(ix, history), history)
  {
    hide Reflects, Serve;
    var init := history[..|history| - 1];
    assert history[..|history|] == history;
    assert forall k :: 0 <= k < |history| ==> history[..k] == init[..k];
    if AlwaysReflects(ix, history) {
      forall k | 0 <= k <= |init| ensures Reflects(Serve(ix, init[..k]), init[..k]) {
        assert Reflects(Serve(ix, history[..k]), history[..k]);
      }
    }
  }

  lemma NothingNew<C>(ix: Index<C>, r: Request<C>, tag: string, n: EventNode<C>)
    requires n in Nodes(Apply(ix, r).subjects, tag)
    ensures n in Nodes(ix.subjects, tag) || r == Subscribed(tag, n)
  {
    hide DetachAll, DetachPlcAll, Others;
    if r.Cancelled? {
      DetachAllFilters(ix.subjects, Tags(ix.tags, r.conn), r.conn, tag);
      OthersHasNone(Nodes(ix.subjects, tag), r.conn);
    }
  }

  lemma NoNewServer<C>(ix: Index<C>, r: Request<C>, tag: string, c: C)
    requires Lookup(Apply(ix, r).plc, tag) == Some(c)
    ensures Lookup(ix.plc, tag) == Some(c) || r == Registered(tag, c)
  {
    hide DetachAll, DetachPlcAll;
    if r.Cancelled? {
      DetachPlcAllFilters(ix.plc, Tags(ix.plcTags, r.conn), r.conn, tag);
    }
  }

  /** Whatever the history, the index holds nothing that was not asked for. */
  lemma {:induction false} NodesWereAsked<C>(ix: Index<C>, history: seq<Request<C>>, tag: string, n: EventNode<C>)
    requires ix.subjects == map[] && ix.plc == map[] && n in Nodes(Serve(ix, history).subjects, tag)
    ensures Subscribed(tag, n) in history
  {
    if history != [] {
      var init, r := history[..|history| - 1], history[|history| - 1];
      assert history == init + [r];
      NothingNew(Serve(ix, init), r, tag, n);
      if n in Nodes(Serve(ix, init).subjects, tag) {
        NodesWereAsked(ix, init, tag, n);
      }
    }
  }

  lemma {:induction false} ServerWasAsked<C>(ix: Index<C>, history: seq<Request<C>>, tag: string, c: C)
    requires ix.subjects == map[] && ix.plc == map[] && Lookup(Serve(ix, history).plc, tag) == Some(c)
    ensures Registered(tag, c) in history
  {
    if history != [] {
      var init, r := history[..|history| - 1], history[|history| - 1];
      assert history == init + [r];
      NoNewServer(Serve(ix, init), r, tag, c);
      if Lookup(Serve(ix, init).plc, tag) == Some(c) {
        ServerWasAsked(ix, init, tag, c);
      }
    }
  }

  /** Subscribed after its cancellation and then freed: a node that no later cancellation of the connection removes. */
  function LateSubscription<C>(n: EventNode<C>, tag: string): seq<Request<C>> {
    [Cancelled(n.subscriber), Subscribed(tag, n), Freed(n.subscriber), Cancelled(n.subscriber)]
  }

  lemma FreedNodeStays<C>(ix: Index<C>, n: EventNode<C>, tag: string)
    requires ix == Index(map[], map[], map[], map[])
    ensures Nodes(Serve(ix, LateSubscription(n, tag)).subjects, tag) == [n] && Live(LateSubscription(n, tag), tag) == []
  {
    hide Live;
    var h, c := LateSubscription(n, tag), n.subscriber;
    var ix1 := Apply(ix, h[0]);
    assert ix1.subjects == map[];
    var ix3 := Apply(Apply(ix1, h[1]), h[2]);
    assert Tags(ix3.tags, c) == [] && Nodes(ix3.subjects, tag) == [n];
    assert Nodes(Apply(ix3, h[3]).subjects, tag) == [n];
    hide Apply;
    ServeFour(ix, h);
    NothingOfOthers(n, tag);
  }

  lemma ServeFour<C>(ix: Index<C>, h: seq<Request<C>>)
    requires |h| == 4
    ensures Serve(ix, h) == Apply(Apply(Apply(Apply(ix, h[0]), h[1]), h[2]), h[3])
  {
    hide Apply;
    assert h[..3][..2] == h[..2] && h[..2][..1] == h[..1] && h[..1][..0] == [];
    assert Serve(ix, h[..1]) == Apply(ix, h[0]);
    assert Serve(ix, h[..2]) == Apply(Apply(ix, h[0]), h[1]);
  }

  lemma NothingOfOthers<C>(n: EventNode<C>, tag: string)
    ensures Live(LateSubscription(n, tag), tag) == []
  {
    var h, c := LateSubscription(n, tag), n.subscriber;
    assert h == h[..3] + [h[3]];
    hide Live;
    LiveOneMore(h[..3], h[3], tag);
    if Others(Live(h[..3], tag), c) != [] {
      var j := OthersAt(Live(h[..3], tag), c, 0);
      LiveWasAsked(h[..3], tag, Live(h[..3], tag)[j]);
      assert false;
    }
  }

  // ---- The index object ----

  class CSubscribe<C(==)> {
    var mapSubject: Subjects<C>
    var mapSubjectPlcIoServer: map<string, C>

    constructor ()
      ensures mapSubject == map[] && mapSubjectPlcIoServer == map[]
    {
      mapSubject := map[];
      mapSubjectPlcIoServer := map[];
    }

    method Attach(tagname: string, observer: EventNode<C>)
      modifies this`mapSubject
      ensures mapSubject == AttachTo(old(mapSubject), tagname, observer)
    {
      mapSubject := mapSubject[tagname := Nodes(mapSubject, tagname) + [observer]];
    }

    /** Erases the nodes of the observer one by one while walking the list. */
    method Detach(tagname: string, observer: C)
      modifies this`mapSubject
      ensures mapSubject == DetachFrom(old(mapSubject), tagname, observer)
    {
      var list := Nodes(mapSubject, tagname);
      var it := 0;
      ghost var was, passed := list, 0;
      while it < |list|
        invariant it <= |list| && passed <= |was|
        invariant list[..it] == Others(was[..passed], observer)
        invariant list[it..] == was[passed..]
        decreases |was| - passed
      {
        assert was[..passed + 1][..passed] == was[..passed] && list[it] == list[it..][0] == was[passed];
        if list[it].subscriber == observer {
          list := list[..it] + list[it + 1..];
        } else {
          it := it + 1;
        }
        passed := passed + 1;
      }
      assert was[..passed] == was && list[..it] == list;
      mapSubject := mapSubject[tagname := list];
    }

    method GetSubscriber(tagname: string) returns (nodes: seq<EventNode<C>>)
      ensures nodes == Nodes(mapSubject, tagname)
    {
      nodes := if tagname in mapSubject then mapSubject[tagname] else [];
    }

    method AttachPlcIoServer(tagname: string, observer: C)
      modifies this`mapSubjectPlcIoServer
      ensures mapSubjectPlcIoServer == old(mapSubjectPlcIoServer)[tagname := observer]
    {
      mapSubjectPlcIoServer := mapSubjectPlcIoServer[tagname := observer];
    }

    method DetachPlcIoServer(tagname: string, observer: C)
      modifies this`mapSubjectPlcIoServer
      ensures mapSubjectPlcIoServer == DetachPlcFrom(old(mapSubjectPlcIoServer), tagname, observer)
    {
      if tagname in mapSubjectPlcIoServer && mapSubjectPlcIoServer[tagname] == observer {
        mapSubjectPlcIoServer := mapSubjectPlcIoServer - {tagname};
      }
    }

    method GetPlcIoServer(tagname: string) returns (server: Option<C>)
      ensures server == Lookup(mapSubjectPlcIoServer, tagname)
    {
      server := if tagname in mapSubjectPlcIoServer then Some(mapSubjectPlcIoServer[tagname]) else None;
    }
  }
}
