/**
 Polling groups: the tags of a PLC are put into few contiguous reads. Tags are named by their place in the
 configuration, which is what the pointers of a group point to.
 */
module ReadGroups {
  import opened Bytes

  datatype DataType = BOOL | INT | WORD | DINT | DWORD | REAL | STRING
  datatype Area = DB | I | Q | M
  datatype Key = Key(area: Area, dbnumber: int)

  datatype Tag = Tag(key: Key, offset: int, dataType: DataType, size: int)

  /** A read of `total` bytes from `start` on; `tags` are the tags found in it. */
  datatype Group = Group(key: Key, start: int, total: int, tags: seq<int>)

  const GAPTHRESHOLD := 64
  const MAXGROUPBYTES := 256
  const LARGETAGBYTES := 128

  /** How many bits a value has; a string begins with its two lengths. */
  function Width(dt: DataType, maxlen: int): int {
    if dt == BOOL then 1
    else if dt == STRING then 8 + 8 + 8 * maxlen
    else if dt == INT || dt == WORD then 16
    else 32
  }

  /** The least number of bytes that hold a value. */
  function CalcByteSize(dt: DataType, maxlen: int): (n: int)
    ensures maxlen >= 0 ==> n > 0
    ensures 8 * (n - 1) < Width(dt, maxlen) <= 8 * n
  {
    match dt
    case BOOL => 1
    case INT => 2
    case WORD => 2
    case DINT => 4
    case DWORD => 4
    case REAL => 4
    case STRING => maxlen + 2
  }

  predicate IsLarge(t: Tag) {
    t.dataType == STRING || t.size >= LARGETAGBYTES
  }

  predicate Known(tags: seq<Tag>, ptrs: seq<int>) {
    forall i :: 0 <= i < |ptrs| ==> 0 <= ptrs[i] < |tags|
  }

  function End(t: Tag): int {
    t.offset + t.size
  }

  /** Where the furthest of the first `n` tags ends. */
  function RunningEnd(tags: seq<Tag>, ptrs: seq<int>, n: nat): (e: int)
    requires 0 < n <= |ptrs| && Known(tags, ptrs)
    ensures forall i :: 0 <= i < n ==> End(tags[ptrs[i]]) <= e
    ensures exists i :: 0 <= i < n && End(tags[ptrs[i]]) == e
  {
    var last := End(tags[ptrs[n - 1]]);
    if n == 1 then last
    else
      var e := RunningEnd(tags, ptrs, n - 1);
      if last > e then last else e
  }

  /** Whether tag `p` may be read together with the tags of a group. */
  predicate CanJoin(tags: seq<Tag>, ptrs: seq<int>, p: int)
    requires ptrs != [] && Known(tags, ptrs) && 0 <= p < |tags|
  {
    var e := RunningEnd(tags, ptrs, |ptrs|);
    && tags[p].offset - e <= GAPTHRESHOLD
    && (if End(tags[p]) > e then End(tags[p]) else e) - tags[ptrs[0]].offset <= MAXGROUPBYTES
    && (forall i :: 0 <= i < |ptrs| ==> !IsLarge(tags[ptrs[i]])) && !IsLarge(tags[p])
  }

  /** The group reads from its first tag to the furthest end, and every further tag could join those before it. */
  ghost predicate GroupOk(tags: seq<Tag>, g: Group, key: Key) {
    && g.tags != [] && Known(tags, g.tags) && g.key == key
    && g.start == tags[g.tags[0]].offset && g.start + g.total == RunningEnd(tags, g.tags, |g.tags|)
    && forall k :: 0 < k < |g.tags| ==> JoinedAt(tags, g.tags, k)
  }

  /** The tag at place `k` could join those before it. */
  predicate JoinedAt(tags: seq<Tag>, ptrs: seq<int>, k: nat)
    requires 0 < k < |ptrs| && Known(tags, ptrs)
  {
    CanJoin(tags, ptrs[..k], ptrs[k])
  }

  function TagsOf(groups: seq<Group>): seq<seq<int>> {
    seq(|groups|, i requires 0 <= i < |groups| => groups[i].tags)
  }

  /** All the places in the groups, group after group. */
  function Members(groups: seq<Group>): seq<int> {
    Flatten(TagsOf(groups))
  }

  ghost predicate ByOffset(tags: seq<Tag>, ptrs: seq<int>) {
    Known(tags, ptrs) && forall i, j :: 0 <= i < j < |ptrs| ==> tags[ptrs[i]].offset <= tags[ptrs[j]].offset
  }

  /** The group ends only because the next one begins with a tag that may not join it. */
  ghost predicate Apart(tags: seq<Tag>, g: Group, next: Group) {
    && g.tags != [] && Known(tags, g.tags) && next.tags != [] && 0 <= next.tags[0] < |tags|
    && !CanJoin(tags, g.tags, next.tags[0])
  }

  ghost predicate Greedy(tags: seq<Tag>, groups: seq<Group>) {
    forall i, j :: 0 <= i < |groups| && j == i + 1 < |groups| && groups[i].key == groups[j].key ==>
      Apart(tags, groups[i], groups[j])
  }

  // ---- Merging the tags of one area ----

  /** The group collected so far: what it holds, where it ends, whether it is a large tag on its own. */
  ghost predicate Collecting(tags: seq<Tag>, current: Group, key: Key, end: int, large: bool) {
    && current.tags != [] && Known(tags, current.tags) && current.key == key
    && current.start == tags[current.tags[0]].offset && end == RunningEnd(tags, current.tags, |current.tags|)
    && (large <==> exists i :: 0 <= i < |current.tags| && IsLarge(tags[current.tags[i]]))
    && forall k :: 0 < k < |current.tags| ==> JoinedAt(tags, current.tags, k)
  }

  lemma BeginGroup(tags: seq<Tag>, key: Key, p: int)
    requires 0 <= p < |tags|
    ensures Collecting(tags, Group(key, tags[p].offset, 0, [p]), key, End(tags[p]), IsLarge(tags[p]))
  {
    assert [p][0] == p;
  }

  lemma JoinGroup(tags: seq<Tag>, current: Group, key: Key, end: int, p: int)
    requires Collecting(tags, current, key, end, false) && 0 <= p < |tags| && CanJoin(tags, current.tags, p)
    ensures
      var mergedEnd := if End(tags[p]) > end then End(tags[p]) else end;
      Collecting(tags, current.(tags := current.tags + [p]), key, mergedEnd, false)
  {
    var ptrs, n := current.tags + [p], |current.tags|;
    RunningPrefix(tags, current.tags, p, n);
    assert ptrs[..n] == current.tags;
    forall k | 0 < k < |ptrs| ensures JoinedAt(tags, ptrs, k) {
      if k < n {
        assert ptrs[..k] == current.tags[..k] && JoinedAt(tags, current.tags, k);
      }
    }
  }

  lemma {:induction false} RunningPrefix(tags: seq<Tag>, ptrs: seq<int>, p: int, n: nat)
    requires 0 < n <= |ptrs| && Known(tags, ptrs) && 0 <= p < |tags|
    ensures RunningEnd(tags, ptrs + [p], n) == RunningEnd(tags, ptrs, n)
  {
    if n > 1 {
      RunningPrefix(tags, ptrs, p, n - 1);
    }
  }

  /** The guards of the merge loop say exactly whether the tag may join. */
  lemma GuardsDecide(tags: seq<Tag>, current: Group, key: Key, end: int, large: bool, p: int)
    requires Collecting(tags, current, key, end, large) && 0 <= p < |tags|
    ensures
      var mergedEnd := if End(tags[p]) > end then End(tags[p]) else end;
      CanJoin(tags, current.tags, p) <==>
        !(tags[p].offset - end > GAPTHRESHOLD) && !(mergedEnd - current.start > MAXGROUPBYTES)
          && !(large || IsLarge(tags[p]))
  {
  }

  lemma GroupDone(tags: seq<Tag>, current: Group, key: Key, end: int, large: bool)
    requires Collecting(tags, current, key, end, large)
    ensures current.tags != [] && GroupOk(tags, current.(total := end - current.start), key)
  {
  }

  lemma NotJoined(tags: seq<Tag>, current: Group, key: Key, end: int, large: bool, next: Group)
    requires Collecting(tags, current, key, end, large) && next.tags != [] && 0 <= next.tags[0] < |tags|
    requires !CanJoin(tags, current.tags, next.tags[0])
    ensures Apart(tags, current.(total := end - current.start), next)
  {
  }

  lemma NothingYet(tags: seq<Tag>, ptrs: seq<int>, current: Group)
    requires ptrs != [] && current.tags == [ptrs[0]]
    ensures Members([]) + current.tags == ptrs[..1] && Greedy(tags, [] + [current])
  {
  }

  lemma OneMoreGroup(groups: seq<Group>, g: Group)
    ensures Members(groups + [g]) == Members(groups) + g.tags
  {
    var all := TagsOf(groups + [g]);
    assert all[..|all| - 1] == TagsOf(groups);
  }

  /** Only the first tag of the last group matters to the one before it. */
  lemma GreedyGrows(tags: seq<Tag>, groups: seq<Group>, g: Group, g': Group)
    requires Greedy(tags, groups + [g]) && g.tags != [] && g'.tags != [] && g'.tags[0] == g.tags[0] && g'.key == g.key
    ensures Greedy(tags, groups + [g'])
  {
    var was, now := groups + [g], groups + [g'];
    forall i, j | 0 <= i < |now| && j == i + 1 < |now| && now[i].key == now[j].key ensures Apart(tags, now[i], now[j]) {
      assert Apart(tags, was[i], was[j]);
    }
  }

  lemma GreedyNext(tags: seq<Tag>, groups: seq<Group>, g: Group, next: Group)
    requires Greedy(tags, groups + [g]) && (g.key == next.key ==> Apart(tags, g, next))
    ensures Greedy(tags, groups + [g] + [next])
  {
    var was, now := groups + [g], groups + [g] + [next];
    forall i, j | 0 <= i < |now| && j == i + 1 < |now| && now[i].key == now[j].key ensures Apart(tags, now[i], now[j]) {
      if j < |was| {
        assert Apart(tags, was[i], was[j]);
      }
    }
  }

  method MergeTags(tags: seq<Tag>, ptrs: seq<int>, key: Key) returns (groups: seq<Group>)
    requires Known(tags, ptrs) && ptrs != []
    ensures groups != [] && Members(groups) == ptrs && Greedy(tags, groups)
    ensures forall g :: g in groups ==> GroupOk(tags, g, key)
  {
    hide Collecting, CanJoin, Apart, RunningEnd, Flatten, IsLarge;
    groups := [];
    var current := Group(key, tags[ptrs[0]].offset, 0, [ptrs[0]]);
    var end := End(tags[ptrs[0]]);
    var large := IsLarge(tags[ptrs[0]]);
    BeginGroup(tags, key, ptrs[0]);
    NothingYet(tags, ptrs, current);
    for i := 1 to |ptrs|
      invariant Collecting(tags, current, key, end, large)
      invariant Members(groups) + current.tags == ptrs[..i]
      invariant Greedy(tags, groups + [current]) && forall g :: g in groups ==> GroupOk(tags, g, key)
    {
      var p := ptrs[i];
      var mergedEnd := if End(tags[p]) > end then End(tags[p]) else end;
      GuardsDecide(tags, current, key, end, large, p);
      if !(tags[p].offset - end > GAPTHRESHOLD) && !(mergedEnd - current.start > MAXGROUPBYTES)
        && !(large || IsLarge(tags[p])) {
        GroupDone(tags, current, key, end, large);
        JoinGroup(tags, current, key, end, p);
        GreedyGrows(tags, groups, current, current.(tags := current.tags + [p]));
        Associates(Members(groups), current.tags, [p]);
        current := current.(tags := current.tags + [p]);
        end := mergedEnd;
      } else {
        GroupDone(tags, current, key, end, large);
        var next := Group(key, tags[p].offset, 0, [p]);
        NotJoined(tags, current, key, end, large, next);
        GreedyGrows(tags, groups, current, current.(total := end - current.start));
        current := current.(total := end - current.start);
        GreedyNext(tags, groups, current, next);
        OneMoreGroup(groups, current);
        groups := groups + [current];
        current := next;
        end, large := End(tags[p]), IsLarge(tags[p]);
        BeginGroup(tags, key, p);
      }
    }
    GroupDone(tags, current, key, end, large);
    GreedyGrows(tags, groups, current, current.(total := end - current.start));
    current := current.(total := end - current.start);
    OneMoreGroup(groups, current);
    groups := groups + [current];
  }

  // ---- What a group is good for ----

  /**
   Every tag lies inside the read; a group of several has no large tag, stays within 256 bytes and leaves no gap over
   64.
   */
  lemma GroupCovers(tags: seq<Tag>, g: Group, key: Key)
    requires GroupOk(tags, g, key) && ByOffset(tags, g.tags)
    ensures forall i :: 0 <= i < |g.tags| ==>
      g.start <= tags[g.tags[i]].offset && End(tags[g.tags[i]]) <= g.start + g.total
    ensures |g.tags| > 1 ==> g.total <= MAXGROUPBYTES && forall i :: 0 <= i < |g.tags| ==> !IsLarge(tags[g.tags[i]])
    ensures forall k :: 0 < k < |g.tags| ==> tags[g.tags[k]].offset <= RunningEnd(tags, g.tags, k) + GAPTHRESHOLD
  {
    var n := |g.tags| - 1;
    if n > 0 {
      assert JoinedAt(tags, g.tags, n);
      PrefixEnd(tags, g.tags, n, n);
      forall i | 0 <= i < n ensures !IsLarge(tags[g.tags[i]]) {
        assert g.tags[..n][i] == g.tags[i];
      }
      assert g.tags[..n][0] == g.tags[0];
    }
    forall k | 0 < k < |g.tags| ensures tags[g.tags[k]].offset <= RunningEnd(tags, g.tags, k) + GAPTHRESHOLD {
      assert JoinedAt(tags, g.tags, k);
      PrefixEnd(tags, g.tags, k, k);
    }
  }

  /** Strings, and whatever takes 128 bytes or more, are read on their own: no group of several has one. */
  lemma OnlySmallTogether(tags: seq<Tag>, g: Group, key: Key)
    requires GroupOk(tags, g, key) && |g.tags| > 1
    ensures forall i :: 0 <= i < |g.tags| ==> tags[g.tags[i]].dataType != STRING && tags[g.tags[i]].size < 128
  {
    var n := |g.tags| - 1;
    assert JoinedAt(tags, g.tags, n);
    forall i | 0 <= i < |g.tags| ensures !IsLarge(tags[g.tags[i]]) {
      assert i < n ==> g.tags[..n][i] == g.tags[i];
    }
  }

  /** Two reads of one area follow each other for one of three reasons: a gap, the size, or a large tag. */
  lemma WhyApart(tags: seq<Tag>, groups: seq<Group>, i: nat)
    requires Greedy(tags, groups) && i + 1 < |groups| && groups[i].key == groups[i + 1].key
    requires GroupOk(tags, groups[i], groups[i].key) && ByOffset(tags, groups[i].tags)
    ensures
      var g, next := groups[i], groups[i + 1].tags;
      && next != [] && 0 <= next[0] < |tags|
      && var t := tags[next[0]];
         || t.offset > g.start + g.total + 64
         || t.offset + t.size > g.start + 256
         || g.total > 256
         || t.dataType == STRING || t.size >= 128
         || exists k :: 0 <= k < |g.tags| && (tags[g.tags[k]].dataType == STRING || tags[g.tags[k]].size >= 128)
  {
    assert Apart(tags, groups[i], groups[i + 1]);
  }

  lemma {:induction false} PrefixEnd(tags: seq<Tag>, ptrs: seq<int>, n: nat, k: nat)
    requires 0 < k <= n <= |ptrs| && Known(tags, ptrs)
    ensures RunningEnd(tags, ptrs[..n], k) == RunningEnd(tags, ptrs, k)
  {
    if k > 1 {
      PrefixEnd(tags, ptrs, n, k - 1);
    }
  }

  // ---- All tags of a PLC ----

  /** The places of the tags of one area among the first `n`, in order. */
  function ClassOf(tags: seq<Tag>, n: nat, key: Key): seq<int>
    requires n <= |tags|
    decreases n
  {
    if n == 0 then [] else ClassOf(tags, n - 1, key) + if tags[n - 1].key == key then [n - 1] else []
  }

  lemma {:induction false} ClassIsKnown(tags: seq<Tag>, n: nat, key: Key)
    requires n <= |tags|
    ensures Known(tags, ClassOf(tags, n, key))
    ensures forall i :: 0 <= i < |ClassOf(tags, n, key)| ==> tags[ClassOf(tags, n, key)[i]].key == key
  {
    if n > 0 {
      ClassIsKnown(tags, n - 1, key);
    }
  }

  lemma {:induction false} ClassHasOnce(tags: seq<Tag>, n: nat, key: Key, p: int)
    requires n <= |tags|
    ensures Times(ClassOf(tags, n, key), p) == if 0 <= p < n && tags[p].key == key then 1 else 0
    decreases n
  {
    ClassStep(tags, n, key);
    hide ClassOf, Times;
    if n == 0 {
      TimesNone(p);
    } else {
      ClassHasOnce(tags, n - 1, key, p);
      TimesOneMore(ClassOf(tags, n - 1, key), n - 1, p);
    }
  }

  /** How often a place occurs. */
  function Times(ptrs: seq<int>, p: int): nat {
    multiset(ptrs)[p]
  }

  lemma TimesNone(p: int)
    ensures Times([], p) == 0
  {
  }

  lemma TimesConcat(a: seq<int>, b: seq<int>, p: int)
    ensures Times(a + b, p) == Times(a, p) + Times(b, p)
  {
    assert multiset(a + b) == multiset(a) + multiset(b);
  }

  lemma TimesOneMore(ptrs: seq<int>, x: int, p: int)
    ensures Times(ptrs + [x], p) == Times(ptrs, p) + if x == p then 1 else 0
  {
    TimesConcat(ptrs, [x], p);
    assert multiset([x])[p] == if x == p then 1 else 0;
  }

  lemma ClassStep(tags: seq<Tag>, n: nat, key: Key)
    requires n <= |tags|
    ensures n == 0 ==> ClassOf(tags, n, key) == []
    ensures n > 0 && tags[n - 1].key == key ==> ClassOf(tags, n, key) == ClassOf(tags, n - 1, key) + [n - 1]
    ensures n > 0 && tags[n - 1].key != key ==> ClassOf(tags, n, key) == ClassOf(tags, n - 1, key)
  {
  }

  function Insert(tags: seq<Tag>, ptrs: seq<int>, p: int): seq<int>
    requires Known(tags, ptrs) && 0 <= p < |tags|
    decreases |ptrs|
  {
    if ptrs == [] || tags[p].offset < tags[ptrs[0]].offset then [p] + ptrs
    else [ptrs[0]] + Insert(tags, ptrs[1..], p)
  }

  lemma {:induction false} InsertKeeps(tags: seq<Tag>, ptrs: seq<int>, p: int)
    requires Known(tags, ptrs) && 0 <= p < |tags|
    ensures multiset(Insert(tags, ptrs, p)) == multiset(ptrs) + multiset{p} && Known(tags, Insert(tags, ptrs, p))
    decreases |ptrs|
  {
    if ptrs != [] && tags[p].offset >= tags[ptrs[0]].offset {
      InsertKeeps(tags, ptrs[1..], p);
      assert ptrs == [ptrs[0]] + ptrs[1..];
    }
  }

  /** The inserted tag does not come before one with a smaller offset. */
  lemma {:induction false} InsertSorts(tags: seq<Tag>, ptrs: seq<int>, p: int)
    requires ByOffset(tags, ptrs) && 0 <= p < |tags|
    ensures ByOffset(tags, Insert(tags, ptrs, p))
    decreases |ptrs|
  {
    InsertKeeps(tags, ptrs, p);
    if ptrs != [] && tags[p].offset >= tags[ptrs[0]].offset {
      var rest := Insert(tags, ptrs[1..], p);
      InsertSorts(tags, ptrs[1..], p);
      InsertKeeps(tags, ptrs[1..], p);
      assert ptrs == [ptrs[0]] + ptrs[1..] && Insert(tags, ptrs, p) == [ptrs[0]] + rest;
      hide Insert, Known;
      SortedCons(tags, ptrs[0], ptrs[1..], p, rest);
    }
  }

  lemma SortedCons(tags: seq<Tag>, head: int, ptrs: seq<int>, p: int, rest: seq<int>)
    requires ByOffset(tags, rest) && multiset(rest) == multiset(ptrs) + multiset{p}
    requires ByOffset(tags, [head] + ptrs) && 0 <= p < |tags| && 0 <= head < |tags|
      && tags[p].offset >= tags[head].offset
    ensures ByOffset(tags, [head] + rest)
  {
    var all := [head] + ptrs;
    forall j | 0 <= j < |rest| ensures tags[head].offset <= tags[rest[j]].offset {
      assert rest[j] in multiset(ptrs) + multiset{p};
      if rest[j] != p {
        var k :| 0 <= k < |ptrs| && ptrs[k] == rest[j];
        assert all[0] == head && all[k + 1] == ptrs[k];
      }
    }
  }

  /** The places sorted by offset. */
  method Sort(tags: seq<Tag>, ptrs: seq<int>) returns (r: seq<int>)
    requires Known(tags, ptrs)
    ensures ByOffset(tags, r) && multiset(r) == multiset(ptrs)
  {
    r := [];
    for i := 0 to |ptrs|
      invariant ByOffset(tags, r) && multiset(r) == multiset(ptrs[..i])
    {
      assert ptrs[..i + 1] == ptrs[..i] + [ptrs[i]];
      InsertSorts(tags, r, ptrs[i]);
      InsertKeeps(tags, r, ptrs[i]);
      r := Insert(tags, r, ptrs[i]);
    }
    assert ptrs[..|ptrs|] == ptrs;
  }

  function Rank(a: Area): nat {
    match a case DB => 0 case I => 1 case Q => 2 case M => 3
  }

  predicate Less(a: Key, b: Key) {
    if a.area != b.area then Rank(a.area) < Rank(b.area) else a.dbnumber < b.dbnumber
  }

  predicate IsFirst(keys: set<Key>, k: Key) {
    k in keys && forall o :: o in keys ==> !Less(o, k)
  }

  lemma {:induction false} FirstExists(keys: set<Key>) returns (k: Key)
    requires keys != {}
    ensures IsFirst(keys, k)
    decreases |keys|
  {
    var x :| x in keys;
    var rest := keys - {x};
    if rest == {} {
      k := x;
      assert keys == {x};
    } else {
      var f := FirstExists(rest);
      k := if Less(x, f) then x else f;
      assert forall o :: o in keys ==> o == x || o in rest;
    }
  }

  ghost predicate ClassesOf(classes: map<Key, seq<int>>, tags: seq<Tag>, n: nat)
    requires n <= |tags|
  {
    && (forall key :: key in classes <==> ClassOf(tags, n, key) != [])
    && (forall key :: key in classes ==> classes[key] == ClassOf(tags, n, key))
  }

  lemma ClassesNone(tags: seq<Tag>)
    ensures ClassesOf(map[], tags, 0)
  {
  }

  lemma ClassesStep(classes: map<Key, seq<int>>, tags: seq<Tag>, n: nat)
    requires n < |tags| && ClassesOf(classes, tags, n)
    ensures
      var key := tags[n].key;
      ClassesOf(classes[key := (if key in classes then classes[key] else []) + [n]], tags, n + 1)
  {
    forall key ensures ClassOf(tags, n + 1, key) == ClassOf(tags, n, key) + if tags[n].key == key then [n] else [] {
      ClassStep(tags, n + 1, key);
    }
    hide ClassOf;
  }

  /** The tags of each area, kept in a map. */
  method Classify(tags: seq<Tag>) returns (classes: map<Key, seq<int>>)
    ensures ClassesOf(classes, tags, |tags|)
  {
    hide ClassesOf, ClassOf;
    classes := map[];
    ClassesNone(tags);
    for i := 0 to |tags|
      invariant ClassesOf(classes, tags, i)
    {
      ClassesStep(classes, tags, i);
      var key := tags[i].key;
      classes := classes[key := (if key in classes then classes[key] else []) + [i]];
    }
  }

  ghost predicate Placed(tags: seq<Tag>, g: Group) {
    && GroupOk(tags, g, g.key) && ByOffset(tags, g.tags)
    && forall i :: 0 <= i < |g.tags| ==> tags[g.tags[i]].key == g.key
  }

  /** The groups made of sorted tags are sorted themselves. */
  lemma GroupWithin(tags: seq<Tag>, ptrs: seq<int>, key: Key, groups: seq<Group>, k: nat)
    requires Members(groups) == ptrs && ByOffset(tags, ptrs) && k < |groups| && GroupOk(tags, groups[k], key)
    requires forall i :: 0 <= i < |ptrs| ==> tags[ptrs[i]].key == key
    ensures Placed(tags, groups[k])
  {
    hide GroupOk;
    var all := TagsOf(groups);
    FlattenSplit(all, k);
    var from := |Flatten(all[..k])|;
    assert all[k] == groups[k].tags;
    assert forall i :: 0 <= i < |groups[k].tags| ==> groups[k].tags[i] == ptrs[from + i];
    KeyIs(tags, groups[k], key);
  }

  lemma KeyIs(tags: seq<Tag>, g: Group, key: Key)
    requires GroupOk(tags, g, key)
    ensures g.key == key
  {
  }

  lemma GreedyConcat(tags: seq<Tag>, a: seq<Group>, b: seq<Group>)
    requires Greedy(tags, a) && Greedy(tags, b) && (a != [] && b != [] ==> a[|a| - 1].key != b[0].key)
    ensures Greedy(tags, a + b)
  {
    var all := a + b;
    forall i, j | 0 <= i < |all| && j == i + 1 < |all| && all[i].key == all[j].key ensures Apart(tags, all[i], all[j]) {
      if j < |a| {
        assert Apart(tags, a[i], a[j]);
      } else if i >= |a| {
        assert Apart(tags, b[i - |a|], b[j - |a|]);
      }
    }
  }

  lemma FlattenTags(a: seq<Group>, b: seq<Group>)
    ensures Members(a + b) == Members(a) + Members(b)
  {
    assert TagsOf(a + b) == TagsOf(a) + TagsOf(b);
    FlattenConcat(TagsOf(a), TagsOf(b));
  }

  /** Each tag whose area is not in `left` is there once, and nothing else is. */
  ghost predicate Covers(ptrs: seq<int>, tags: seq<Tag>, left: set<Key>) {
    forall p: int :: Times(ptrs, p) == if 0 <= p < |tags| && tags[p].key !in left then 1 else 0
  }

  /** Each tag of one area is there once, and nothing else is. */
  ghost predicate IsClass(ptrs: seq<int>, tags: seq<Tag>, key: Key) {
    forall p: int :: Times(ptrs, p) == if 0 <= p < |tags| && tags[p].key == key then 1 else 0
  }

  lemma CoversNone(tags: seq<Tag>, classes: map<Key, seq<int>>)
    requires forall key :: key in classes <==> ClassOf(tags, |tags|, key) != []
    ensures Covers(Members([]), tags, classes.Keys)
  {
    assert Members([]) == [];
    forall p: int | 0 <= p < |tags| ensures tags[p].key in classes {
      ClassHasOnce(tags, |tags|, tags[p].key, p);
    }
  }

  lemma CoversMore(a: seq<int>, b: seq<int>, tags: seq<Tag>, left: set<Key>, key: Key)
    requires Covers(a, tags, left) && key in left && IsClass(b, tags, key)
    ensures Covers(a + b, tags, left - {key})
  {
    forall p: int {
      TimesConcat(a, b, p);
    }
  }

  lemma SortedIsClass(tags: seq<Tag>, ptrs: seq<int>, sorted: seq<int>, key: Key)
    requires multiset(sorted) == multiset(ptrs) && ptrs == ClassOf(tags, |tags|, key)
    ensures IsClass(sorted, tags, key)
    ensures Known(tags, sorted) && forall i :: 0 <= i < |sorted| ==> tags[sorted[i]].key == key
    ensures sorted == [] <==> ptrs == []
  {
    ClassIsKnown(tags, |tags|, key);
    forall p: int {
      ClassHasOnce(tags, |tags|, key, p);
    }
    forall i | 0 <= i < |sorted| ensures 0 <= sorted[i] < |tags| && tags[sorted[i]].key == key {
      assert sorted[i] in multiset(ptrs);
    }
    assert |multiset(sorted)| == |multiset(ptrs)|;
  }

  /** The groups of one area. */
  method GroupClass(tags: seq<Tag>, ptrs: seq<int>, key: Key) returns (groups: seq<Group>)
    requires ptrs == ClassOf(tags, |tags|, key) != []
    ensures groups != [] && Greedy(tags, groups) && IsClass(Members(groups), tags, key)
    ensures forall g :: g in groups ==> g.key == key && Placed(tags, g)
  {
    ClassIsKnown(tags, |tags|, key);
    var sorted := Sort(tags, ptrs);
    SortedIsClass(tags, ptrs, sorted, key);
    hide ClassOf;
    groups := MergeTags(tags, sorted, key);
    hide Greedy, GroupOk, Placed, Flatten, IsClass;
    forall g | g in groups ensures g.key == key && Placed(tags, g) {
      var k :| 0 <= k < |groups| && groups[k] == g;
      GroupWithin(tags, sorted, key, groups, k);
      KeyIs(tags, g, key);
    }
  }

  /** The groups stand in the order of their areas, and those of the areas left come later. */
  ghost predicate InKeyOrder(groups: seq<Group>, left: set<Key>) {
    && (forall i, j :: 0 <= i < j < |groups| ==> !Less(groups[j].key, groups[i].key))
    && (forall i, k :: 0 <= i < |groups| && k in left ==> k != groups[i].key && !Less(k, groups[i].key))
  }

  lemma OrderMore(groups: seq<Group>, more: seq<Group>, left: set<Key>, key: Key)
    requires InKeyOrder(groups, left) && IsFirst(left, key) && forall g :: g in more ==> g.key == key
    ensures InKeyOrder(groups + more, left - {key})
    ensures groups != [] && more != [] ==> groups[|groups| - 1].key != more[0].key
  {
    var all := groups + more;
    forall i | 0 <= i < |all| ensures if i < |groups| then all[i] == groups[i] else all[i].key == key {
      if i >= |groups| {
        assert all[i] in more;
      }
    }
  }

  /** Areas in order, each with its own groups; every tag is in exactly one group. */
  method BuildReadGroups(tags: seq<Tag>) returns (groups: seq<Group>)
    ensures forall p: int :: Times(Members(groups), p) == if 0 <= p < |tags| then 1 else 0
    ensures forall g :: g in groups ==> Placed(tags, g)
    ensures Greedy(tags, groups) && forall i, j :: 0 <= i < j < |groups| ==> !Less(groups[j].key, groups[i].key)
  {
    var classes := Classify(tags);
    var remaining := classes.Keys;
    groups := [];
    NoGroups(tags, remaining);
    CoversNone(tags, classes);
    hide Greedy, Placed, Members, Covers, IsClass, InKeyOrder, IsFirst, ClassOf;
    while remaining != {}
      invariant remaining <= classes.Keys && Greedy(tags, groups) && InKeyOrder(groups, remaining)
      invariant Covers(Members(groups), tags, remaining)
      invariant forall g :: g in groups ==> Placed(tags, g)
    {
      ghost var first := FirstExists(remaining);
      var key :| key in remaining && IsFirst(remaining, key);
      var more := GroupClass(tags, classes[key], key);
      OrderMore(groups, more, remaining, key);
      GreedyConcat(tags, groups, more);
      FlattenTags(groups, more);
      CoversMore(Members(groups), Members(more), tags, remaining, key);
      groups := groups + more;
      remaining := remaining - {key};
    }
    CoversAll(Members(groups), tags);
    KeysInOrder(groups);
  }

  lemma NoGroups(tags: seq<Tag>, left: set<Key>)
    ensures Greedy(tags, []) && InKeyOrder([], left)
  {
  }

  lemma CoversAll(ptrs: seq<int>, tags: seq<Tag>)
    requires Covers(ptrs, tags, {})
    ensures forall p: int :: Times(ptrs, p) == if 0 <= p < |tags| then 1 else 0
  {
  }

  lemma KeysInOrder(groups: seq<Group>)
    requires InKeyOrder(groups, {})
    ensures forall i, j :: 0 <= i < j < |groups| ==> !Less(groups[j].key, groups[i].key)
  {
  }
}
