/**
 The connection pool: all connections, those free to take, and those resting before they become free again. The sequence
 number of a connection grows at every move, so that it tells one use of the connection from another.
 */
module Pool {
  import opened Bytes

  class Connection {
    var iCurrsequence: nat
    var inRecyTime: int
    var iThrowsendCount: int
    var fd: int
    var listTag: seq<string>
    var listPlcTag: seq<string>

    constructor ()
      ensures iCurrsequence == 0 && listTag == [] && listPlcTag == []
    {
      iCurrsequence, inRecyTime, iThrowsendCount, fd := 0, 0, 0, -1;
      listTag, listPlcTag := [], [];
    }

    method GetOneToUse()
      modifies this`iCurrsequence, this`iThrowsendCount
      ensures iCurrsequence == old(iCurrsequence) + 1 && iThrowsendCount == 0
    {
      iCurrsequence := iCurrsequence + 1;
      iThrowsendCount := 0;
    }

    /** Clears the tag lists as well; the subscription index does not hear of it. */
    method PutOneToFree()
      modifies this`iCurrsequence, this`iThrowsendCount, this`listTag, this`listPlcTag
      ensures iCurrsequence == old(iCurrsequence) + 1 && iThrowsendCount == 0 && listTag == [] && listPlcTag == []
    {
      iCurrsequence := iCurrsequence + 1;
      iThrowsendCount := 0;
      listTag, listPlcTag := [], [];
    }
  }

  // ---- The lists ----

  ghost predicate Distinct<T>(s: seq<T>) {
    forall i, j :: 0 <= i < j < |s| ==> s[i] != s[j]
  }

  /** Every connection is free, resting, or neither, which is in use; never two of these. */
  ghost predicate Partition(all: seq<Connection>, free: seq<Connection>, resting: seq<Connection>) {
    && Distinct(all) && Distinct(free) && Distinct(resting)
    && (forall c :: c in free ==> c in all && c !in resting)
    && (forall c :: c in resting ==> c in all)
  }

  lemma Remove<T>(s: seq<T>, k: nat)
    requires Distinct(s) && k < |s|
    ensures Distinct(s[..k] + s[k + 1..]) && forall x :: x in s[..k] + s[k + 1..] <==> x in s && x != s[k]
  {
    var r := s[..k] + s[k + 1..];
    assert forall j :: 0 <= j < |r| ==> r[j] == s[if j < k then j else j + 1];
    forall x | x in s && x != s[k] ensures x in r {
      var j :| 0 <= j < |s| && s[j] == x;
      assert r[if j < k then j else j - 1] == x;
    }
  }

  /** A resting connection is taken out of its list. */
  lemma WakeKeeps(all: seq<Connection>, free: seq<Connection>, resting: seq<Connection>, k: nat)
    requires Partition(all, free, resting) && k < |resting|
    ensures Partition(all, free, resting[..k] + resting[k + 1..])
    ensures resting[k] in all && resting[k] !in free && resting[k] !in resting[..k] + resting[k + 1..]
  {
    Remove(resting, k);
  }

  lemma TakeKeeps(all: seq<Connection>, free: seq<Connection>, resting: seq<Connection>)
    requires Partition(all, free, resting) && free != []
    ensures Partition(all, free[1..], resting) && free[0] !in free[1..] && free[0] in all && free[0] !in resting
  {
    assert free[..0] + free[1..] == free[1..];
    Remove(free, 0);
  }

  // ---- Who is due ----

  /** The rest of a connection is over, or the program is stopping. */
  predicate Due(rested: int, wait: int, now: int, stopping: int) {
    !(rested + wait > now && stopping == 0)
  }

  /** The connections that are due, in order; `since` tells when each began to rest. */
  ghost function Freed(resting: seq<Connection>, since: map<Connection, int>, wait: int, now: int,
                       stopping: int): seq<Connection> {
    if resting == [] then []
    else
      var c := resting[0];
      var due := c in since && Due(since[c], wait, now, stopping);
      (if due then [c] else []) + Freed(resting[1..], since, wait, now, stopping)
  }

  ghost function Kept(resting: seq<Connection>, since: map<Connection, int>, wait: int, now: int,
                      stopping: int): seq<Connection> {
    if resting == [] then []
    else
      var c := resting[0];
      var due := c in since && Due(since[c], wait, now, stopping);
      (if due then [] else [c]) + Kept(resting[1..], since, wait, now, stopping)
  }

  lemma {:induction false} NoneFreed(resting: seq<Connection>, since: map<Connection, int>, wait: int, now: int,
                                     stopping: int)
    requires forall c :: c in resting ==> c in since && !Due(since[c], wait, now, stopping)
    ensures Freed(resting, since, wait, now, stopping) == [] && Kept(resting, since, wait, now, stopping) == resting
  {
    if resting != [] {
      NoneFreed(resting[1..], since, wait, now, stopping);
    }
  }

  /** Taking out the first connection that is due. */
  lemma {:induction false} FirstFreed(resting: seq<Connection>, k: nat, since: map<Connection, int>, wait: int,
                                      now: int, stopping: int)
    requires k < |resting| && resting[k] in since && Due(since[resting[k]], wait, now, stopping)
    requires forall i :: 0 <= i < k ==> resting[i] in since && !Due(since[resting[i]], wait, now, stopping)
    ensures
      var rest := resting[..k] + resting[k + 1..];
      && Freed(resting, since, wait, now, stopping) == [resting[k]] + Freed(rest, since, wait, now, stopping)
      && Kept(resting, since, wait, now, stopping) == Kept(rest, since, wait, now, stopping)
  {
    if k == 0 {
      assert resting[..0] + resting[1..] == resting[1..];
    } else {
      FirstFreed(resting[1..], k - 1, since, wait, now, stopping);
      var rest := resting[..k] + resting[k + 1..];
      assert rest[1..] == resting[1..][..k - 1] + resting[1..][k..];
    }
  }

  /** The two lists hold the resting connections, split by whether they are due. */
  lemma {:induction false} FreedOrKept(resting: seq<Connection>, since: map<Connection, int>, wait: int, now: int,
                                       stopping: int, c: Connection)
    requires forall c :: c in resting ==> c in since
    ensures c in Freed(resting, since, wait, now, stopping) <==> c in resting && Due(since[c], wait, now, stopping)
    ensures c in Kept(resting, since, wait, now, stopping) <==> c in resting && !Due(since[c], wait, now, stopping)
  {
    if resting != [] {
      assert resting == [resting[0]] + resting[1..];
      FreedOrKept(resting[1..], since, wait, now, stopping, c);
    }
  }

  /** A connection put to rest at `rested` is free from `rested + wait` on, and not before unless the program stops. */
  lemma RestsAsLongAs(resting: seq<Connection>, since: map<Connection, int>, wait: int, now: int, stopping: int,
                      c: Connection)
    requires (forall o :: o in resting ==> o in since) && c in resting
    ensures c in Freed(resting, since, wait, now, stopping) <==> since[c] + wait <= now || stopping != 0
    ensures c in Kept(resting, since, wait, now, stopping) <==> now < since[c] + wait && stopping == 0
  {
    FreedOrKept(resting, since, wait, now, stopping, c);
  }

  ghost function Since(all: seq<Connection>): map<Connection, int>
    reads all`inRecyTime
  {
    map c | c in all :: c.inRecyTime
  }

  /** The number of the use a connection is in, and the tags it is known to have asked for. */
  datatype Use = Use(number: nat, tags: seq<string>, plcTags: seq<string>)

  ghost function Uses(all: seq<Connection>): map<Connection, Use>
    reads all`iCurrsequence, all`listTag, all`listPlcTag
  {
    map c | c in all :: Use(c.iCurrsequence, c.listTag, c.listPlcTag)
  }

  /** The connections of `moved` have the next number and no tags, the others are as they were. */
  ghost predicate Advanced(before: map<Connection, Use>, after: map<Connection, Use>, moved: seq<Connection>) {
    && after.Keys == before.Keys
    && forall c :: c in before ==> after[c] == if c in moved then Use(before[c].number + 1, [], []) else before[c]
  }

  class ConnectionPool {
    var connectionList: seq<Connection>
    var freeconnectionList: seq<Connection>
    var recyconnectionList: seq<Connection>
    var total: int
    var free: int
    var recycling: int

    ghost predicate Valid()
      reads this
    {
      && Partition(connectionList, freeconnectionList, recyconnectionList)
      && total == |connectionList| && free == |freeconnectionList| && recycling == |recyconnectionList|
    }

    ghost predicate InUse(c: Connection)
      reads this
    {
      c in connectionList && c !in freeconnectionList && c !in recyconnectionList
    }

    constructor (n: nat)
      ensures Valid() && total == free == n && recycling == 0
      ensures forall c :: c in connectionList ==> fresh(c) && c.iCurrsequence == 1
    {
      connectionList, freeconnectionList, recyconnectionList := [], [], [];
      total, free, recycling := 0, 0, 0;
      new;
      for i := 0 to n
        invariant Valid() && total == free == i && recycling == 0 && freeconnectionList == connectionList
        invariant forall c :: c in connectionList ==> fresh(c) && c.iCurrsequence == 1
      {
        var c := new Connection();
        c.GetOneToUse();
        connectionList := connectionList + [c];
        freeconnectionList := freeconnectionList + [c];
        total, free := total + 1, free + 1;
      }
    }

    /** The first free connection, or a new one; either way with a number it never had before. */
    method GetConnection(isock: int) returns (c: Connection)
      requires Valid()
      modifies this, connectionList
      ensures Valid() && InUse(c) && c.fd == isock
      ensures c in old(connectionList) ==> c in old(freeconnectionList) && c.iCurrsequence == old(c.iCurrsequence) + 1
      ensures c !in old(connectionList) ==> old(freeconnectionList) == [] && fresh(c) && c.iCurrsequence == 1
      ensures freeconnectionList == if old(freeconnectionList) == [] then [] else old(freeconnectionList)[1..]
      ensures connectionList == if old(freeconnectionList) == [] then old(connectionList) + [c] else old(connectionList)
      ensures recyconnectionList == old(recyconnectionList)
      ensures forall o :: o in old(connectionList) && o != c ==> unchanged(o)
    {
      if freeconnectionList != [] {
        TakeKeeps(connectionList, freeconnectionList, recyconnectionList);
        c := freeconnectionList[0];
        freeconnectionList := freeconnectionList[1..];
        c.GetOneToUse();
        free := free - 1;
        c.fd := isock;
      } else {
        c := new Connection();
        c.GetOneToUse();
        connectionList := connectionList + [c];
        total := total + 1;
        c.fd := isock;
      }
    }

    method FreeConnection(c: Connection)
      requires Valid() && InUse(c)
      modifies this`freeconnectionList, this`free, c`iCurrsequence, c`iThrowsendCount, c`listTag, c`listPlcTag
      ensures Valid() && freeconnectionList == old(freeconnectionList) + [c]
      ensures c.iCurrsequence == old(c.iCurrsequence) + 1 && c.iThrowsendCount == 0
      ensures c.listTag == [] && c.listPlcTag == []
    {
      c.PutOneToFree();
      freeconnectionList := freeconnectionList + [c];
      free := free + 1;
    }

    method InRecyConnectQueue(c: Connection, now: int)
      requires Valid() && InUse(c)
      modifies this`recyconnectionList, this`recycling, c`inRecyTime, c`iCurrsequence
      ensures Valid() && recyconnectionList == old(recyconnectionList) + [c]
      ensures c.iCurrsequence == old(c.iCurrsequence) + 1 && c.inRecyTime == now
    {
      c.inRecyTime := now;
      c.iCurrsequence := c.iCurrsequence + 1;
      recyconnectionList := recyconnectionList + [c];
      recycling := recycling + 1;
    }
  
    /** Looks through the resting connections and frees the first that is due. */
    method FreeFirstDue(now: int, wait: int, stopping: int) returns (restart: bool)
      requires Valid()
      modifies this`freeconnectionList, this`free, this`recyconnectionList, this`recycling
      modifies connectionList`iCurrsequence, connectionList`iThrowsendCount
      modifies connectionList`listTag, connectionList`listPlcTag
      ensures Valid()
      ensures restart ==>
        exists k :: 0 <= k < |old(recyconnectionList)|
          && Woken(old(recyconnectionList), recyconnectionList, k, Since(connectionList), wait, now, stopping)
          && freeconnectionList == old(freeconnectionList) + [old(recyconnectionList)[k]]
          && Advanced(old(Uses(connectionList)), Uses(connectionList), [old(recyconnectionList)[k]])
      ensures !restart ==>
        && recyconnectionList == old(recyconnectionList) && freeconnectionList == old(freeconnectionList)
        && Uses(connectionList) == old(Uses(connectionList))
        && forall c :: c in recyconnectionList ==> !Due(c.inRecyTime, wait, now, stopping)
    {
      var pos := 0;
      while pos < |recyconnectionList|
        invariant pos <= |recyconnectionList|
        invariant forall i :: 0 <= i < pos ==> !Due(recyconnectionList[i].inRecyTime, wait, now, stopping)
      {
        var c := recyconnectionList[pos];
        if c.inRecyTime + wait > now && stopping == 0 {
          pos := pos + 1;
        } else {
          WakeKeeps(connectionList, freeconnectionList, recyconnectionList, pos);
          recycling := recycling - 1;
          recyconnectionList := recyconnectionList[..pos] + recyconnectionList[pos + 1..];
          FreeConnection(c);
          assert Woken(old(recyconnectionList), recyconnectionList, pos, Since(connectionList), wait, now, stopping);
          return true;
        }
      }
      return false;
    }

    /** One connection freed, or none: what was due is that one and what is still due. */
    method FreeNext(now: int, wait: int, stopping: int, ghost woken: seq<Connection>)
        returns (restart: bool, ghost c: seq<Connection>)
      requires Valid() && forall w :: w in woken ==> w in freeconnectionList
      modifies this`freeconnectionList, this`free, this`recyconnectionList, this`recycling
      modifies connectionList`iCurrsequence, connectionList`iThrowsendCount
      modifies connectionList`listTag, connectionList`listPlcTag
      ensures Valid() && |c| == (if restart then 1 else 0) && freeconnectionList == old(freeconnectionList) + c
      ensures Freed(old(recyconnectionList), Since(connectionList), wait, now, stopping)
           == c + Freed(recyconnectionList, Since(connectionList), wait, now, stopping)
      ensures Kept(old(recyconnectionList), Since(connectionList), wait, now, stopping)
           == Kept(recyconnectionList, Since(connectionList), wait, now, stopping)
      ensures Advanced(old(Uses(connectionList)), Uses(connectionList), c)
      ensures restart ==> |recyconnectionList| < |old(recyconnectionList)|
      ensures forall w :: w in c ==> w !in woken
      ensures !restart ==>
        && recyconnectionList == old(recyconnectionList)
        && forall c :: c in recyconnectionList ==> !Due(c.inRecyTime, wait, now, stopping)
    {
      hide Partition, Advanced, Freed, Kept;
      ghost var resting, uses, free, since := recyconnectionList, Uses(connectionList), freeconnectionList,
        Since(connectionList);
      restart := FreeFirstDue(now, wait, stopping);
      c := [];
      if restart {
        ghost var k :| 0 <= k < |resting| && Woken(resting, recyconnectionList, k, since, wait, now, stopping)
          && freeconnectionList == free + [resting[k]] && Advanced(uses, Uses(connectionList), [resting[k]]);
        FirstFreed(resting, k, since, wait, now, stopping);
        StillResting(connectionList, free, resting, k);
        c := [resting[k]];
      } else {
        AdvancedNone(uses);
      }
    }

    /** Starts over after each connection freed, until none is due: exactly the due ones become free, in order. */
    method RecyclePass(now: int, wait: int, stopping: int)
      requires Valid()
      modifies this`freeconnectionList, this`free, this`recyconnectionList, this`recycling
      modifies connectionList`iCurrsequence, connectionList`iThrowsendCount
      modifies connectionList`listTag, connectionList`listPlcTag
      ensures Valid()
      ensures recyconnectionList == Kept(old(recyconnectionList), Since(connectionList), wait, now, stopping)
      ensures
        var freed := Freed(old(recyconnectionList), Since(connectionList), wait, now, stopping);
        freeconnectionList == old(freeconnectionList) + freed
          && Advanced(old(Uses(connectionList)), Uses(connectionList), freed)
    {
      hide Partition, Advanced, Freed, Kept;
      ghost var since, woken := Since(connectionList), [];
      AdvancedNone(Uses(connectionList));
      RestingHaveTimes(connectionList, freeconnectionList, recyconnectionList);
      if recycling == 0 {
        NoneFreed(recyconnectionList, since, wait, now, stopping);
        return;
      }
      var restart := true;
      while restart
        invariant Valid() && Since(connectionList) == since
        invariant freeconnectionList == old(freeconnectionList) + woken
        invariant woken + Freed(recyconnectionList, since, wait, now, stopping)
          == Freed(old(recyconnectionList), since, wait, now, stopping)
        invariant Kept(recyconnectionList, since, wait, now, stopping)
          == Kept(old(recyconnectionList), since, wait, now, stopping)
        invariant Advanced(old(Uses(connectionList)), Uses(connectionList), woken)
        invariant !restart ==> forall c :: c in recyconnectionList ==> !Due(c.inRecyTime, wait, now, stopping)
        decreases |recyconnectionList|, restart
      {
        ghost var uses, c := Uses(connectionList), [];
        restart, c := FreeNext(now, wait, stopping, woken);
        AdvancedMore(old(Uses(connectionList)), uses, Uses(connectionList), woken, c);
        Associates(woken, c, Freed(recyconnectionList, since, wait, now, stopping));
        woken := woken + c;
      }
      RestingHaveTimes(connectionList, freeconnectionList, recyconnectionList);
      NoneFreed(recyconnectionList, since, wait, now, stopping);
      assert woken + [] == woken;
    }

    /** The program stops: whatever still rests is freed. */
    method FreeAll()
      requires Valid()
      modifies this`freeconnectionList, this`free, this`recyconnectionList, this`recycling
      modifies connectionList`iCurrsequence, connectionList`iThrowsendCount
      modifies connectionList`listTag, connectionList`listPlcTag
      ensures Valid() && recyconnectionList == []
        && freeconnectionList == old(freeconnectionList) + old(recyconnectionList)
      ensures Advanced(old(Uses(connectionList)), Uses(connectionList), old(recyconnectionList))
    {
      hide Partition, Advanced;
      AdvancedNone(Uses(connectionList));
      ghost var resting, k := recyconnectionList, 0;
      ghost var free0, n0 := freeconnectionList, Uses(connectionList);
      assert free0 + resting[..0] == free0;
      while recycling > 0
        invariant Valid() && k <= |resting| && recyconnectionList == resting[k..]
          && freeconnectionList == free0 + resting[..k]
        invariant Advanced(n0, Uses(connectionList), resting[..k])
        decreases |recyconnectionList|
      {
        ghost var uses, free := Uses(connectionList), freeconnectionList;
        assert resting[..k + 1] == resting[..k] + [resting[k]] && recyconnectionList[1..] == resting[k + 1..];
        FreeFirst();
        StillResting(connectionList, free, resting[k..], 0);
        AdvancedMore(n0, uses, Uses(connectionList), resting[..k], [resting[k]]);
        k := k + 1;
      }
      assert resting[..k] == resting;
    }

    method FreeFirst()
      requires Valid() && recyconnectionList != []
      modifies this`freeconnectionList, this`free, this`recyconnectionList, this`recycling
      modifies connectionList`iCurrsequence, connectionList`iThrowsendCount
      modifies connectionList`listTag, connectionList`listPlcTag
      ensures Valid() && recyconnectionList == old(recyconnectionList[1..])
      ensures freeconnectionList == old(freeconnectionList + [recyconnectionList[0]])
      ensures Advanced(old(Uses(connectionList)), Uses(connectionList), [old(recyconnectionList[0])])
    {
      var c := recyconnectionList[0];
      WakeKeeps(connectionList, freeconnectionList, recyconnectionList, 0);
      assert recyconnectionList[..0] + recyconnectionList[1..] == recyconnectionList[1..];
      recycling := recycling - 1;
      recyconnectionList := recyconnectionList[1..];
      FreeConnection(c);
    }
  }

  /** `resting[k]` is the first connection that is due, and `rest` what is left without it. */
  ghost predicate Woken(resting: seq<Connection>, rest: seq<Connection>, k: nat, since: map<Connection, int>,
                        wait: int, now: int, stopping: int) {
    && k < |resting| && resting[k] in since && Due(since[resting[k]], wait, now, stopping)
    && (forall i :: 0 <= i < k ==> resting[i] in since && !Due(since[resting[i]], wait, now, stopping))
    && rest == resting[..k] + resting[k + 1..]
  }

  lemma RestingHaveTimes(all: seq<Connection>, free: seq<Connection>, resting: seq<Connection>)
    requires Partition(all, free, resting)
    ensures forall c :: c in resting ==> c in Since(all)
  {
  }

  lemma StillResting(all: seq<Connection>, free: seq<Connection>, resting: seq<Connection>, k: nat)
    requires Partition(all, free, resting) && k < |resting|
    ensures resting[k] in all && resting[k] !in free
  {
  }

  lemma AdvancedNone(uses: map<Connection, Use>)
    ensures Advanced(uses, uses, [])
  {
  }

  lemma AdvancedMore(n0: map<Connection, Use>, n1: map<Connection, Use>, n2: map<Connection, Use>,
                     moved: seq<Connection>, more: seq<Connection>)
    requires Advanced(n0, n1, moved) && Advanced(n1, n2, more) && forall c :: c in more ==> c !in moved
    ensures Advanced(n0, n2, moved + more)
  {
  }
}
