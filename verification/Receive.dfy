/** The receiving side of a connection: cutting a byte stream into messages as it arrives in pieces. */
module Receive {
  import opened Arithmetic
  import opened Bytes

  const HEADER := 180            // the size of a packed message head
  const LENGTHAT := 124          // where the head keeps the body length
  const PKG_MAX_LENGTH := 16384

  datatype Message = Message(head: seq<byte>, body: seq<byte>)

  /** The body length as the receiver takes it from a head: the low 16 bits of a little-endian field. */
  function BodyLength(head: seq<byte>): nat
    requires |head| == HEADER
  {
    head[LENGTHAT] as int + 256 * head[LENGTHAT + 1] as int
  }

  datatype Parsed = Parsed(messages: seq<Message>, rest: seq<byte>)

  /** The messages of a whole stream, in one go, and the bytes left over. A head announcing too much is skipped. */
  function Parse(s: seq<byte>): Parsed {
    if |s| < HEADER then Parsed([], s)
    else
      var head := s[..HEADER];
      var n := BodyLength(head);
      if n > PKG_MAX_LENGTH then Parse(s[HEADER..])
      else if |s| < HEADER + n then Parsed([], s)
      else
        var tail := Parse(s[HEADER + n..]);
        Parsed([Message(head, s[HEADER..HEADER + n])] + tail.messages, tail.rest)
  }

  /** What a longer stream adds depends only on the bytes that were left over. */
  lemma {:induction false} ParseExtends(a: seq<byte>, b: seq<byte>)
    ensures var p := Parse(a);
            var q := Parse(p.rest + b);
            Parse(a + b) == Parsed(p.messages + q.messages, q.rest)
    decreases |a|
  {
    if |a| >= HEADER {
      var n := BodyLength(a[..HEADER]);
      assert (a + b)[..HEADER] == a[..HEADER];
      if n > PKG_MAX_LENGTH {
        assert (a + b)[HEADER..] == a[HEADER..] + b;
        ParseExtends(a[HEADER..], b);
      } else if |a| >= HEADER + n {
        assert (a + b)[HEADER..HEADER + n] == a[HEADER..HEADER + n];
        assert (a + b)[HEADER + n..] == a[HEADER + n..] + b;
        ParseExtends(a[HEADER + n..], b);
      }
    }
  }

  /** What the left-over bytes of a stream become when more arrive, while they still fit one message. */
  lemma ParseHeadOnly(s: seq<byte>)
    ensures |s| < HEADER ==> Parse(s) == Parsed([], s)
    ensures |s| == HEADER ==>
              Parse(s) == if BodyLength(s) > PKG_MAX_LENGTH then Parsed([], [])
                          else if BodyLength(s) == 0 then Parsed([Message(s, [])], [])
                          else Parsed([], s)
  {
    if |s| == HEADER {
      assert s[..HEADER] == s && s[HEADER..] == [];
      assert Parse([]) == Parsed([], []);
    }
  }

  lemma ParseOneMessage(head: seq<byte>, body: seq<byte>)
    requires |head| == HEADER && |body| <= BodyLength(head) <= PKG_MAX_LENGTH
    ensures Parse(head + body) ==
      if |body| == BodyLength(head) then Parsed([Message(head, body)], []) else Parsed([], head + body)
  {
    var s := head + body;
    assert s[..HEADER] == head;
    if |body| == BodyLength(head) {
      assert s[HEADER..HEADER + |body|] == body && s[HEADER + |body|..] == [];
      assert Parse([]) == Parsed([], []);
    }
  }

  /** A head that announces more than a message may have is skipped, and the next head is looked for right behind it. */
  lemma OversizedIsSkipped(head: seq<byte>, rest: seq<byte>)
    requires |head| == HEADER && BodyLength(head) > 16384
    ensures Parse(head + rest) == Parse(rest)
  {
    assert (head + rest)[..HEADER] == head && (head + rest)[HEADER..] == rest;
  }

  // ---- Sending and receiving are inverse ----

  ghost predicate Proper(m: Message) {
    |m.head| == HEADER && |m.body| == BodyLength(m.head) <= PKG_MAX_LENGTH
  }

  function Encode(messages: seq<Message>): seq<byte> {
    if messages == [] then [] else messages[0].head + messages[0].body + Encode(messages[1..])
  }

  /** Any run of proper messages laid end to end is cut back into exactly those messages. */
  lemma {:induction false} ParseInvertsEncode(messages: seq<Message>)
    requires forall m :: m in messages ==> Proper(m)
    ensures Parse(Encode(messages)) == Parsed(messages, [])
  {
    if messages != [] {
      var m, s := messages[0], Encode(messages);
      assert Proper(m);
      assert s[..HEADER] == m.head;
      assert s[HEADER..HEADER + |m.body|] == m.body;
      assert s[HEADER + |m.body|..] == Encode(messages[1..]);
      ParseInvertsEncode(messages[1..]);
    }
  }

  // ---- The length as the sender writes it ----

  datatype Field = Field(name: string, size: nat)

  /** The fields of a message head, packed without gaps. */
  const MSGHEAD := [
    Field("id", 4), Field("qname", 40), Field("itemname", 40), Field("qbdtype", 4), Field("datasize", 4),
    Field("datatype", 4), Field("timestamp", 16), Field("start", 4), Field("count", 4), Field("recsize", 4),
    Field("bodysize", 4), Field("readptr", 4), Field("writeptr", 4), Field("error", 4), Field("subsize", 4),
    Field("offset", 4), Field("ip", 16), Field("arraysize", 4), Field("eventid", 4), Field("eventarg", 4),
    Field("timeout", 4)]

  /** Where field number `k` begins: behind all fields before it. */
  function Offset(k: nat): nat
    requires k <= |MSGHEAD|
  {
    if k == 0 then 0 else Offset(k - 1) + MSGHEAD[k - 1].size
  }

  /** The number of the field that holds the length of the body. */
  const BODYSIZE := 10

  lemma HeadFields()
    ensures BODYSIZE < |MSGHEAD| && MSGHEAD[BODYSIZE] == Field("bodysize", 4)
    ensures Offset(BODYSIZE) == LENGTHAT && Offset(|MSGHEAD|) == HEADER
  {
    assert Offset(2) == 44 && Offset(4) == 88;
    assert Offset(6) == 96 && Offset(8) == 116 && Offset(10) == 124;
    assert Offset(12) == 132 && Offset(14) == 140 && Offset(16) == 148;
    assert Offset(18) == 168 && Offset(20) == 176;
  }

  /** The bytes of a number, the low one first. */
  function Bytewise(v: nat, n: nat): (b: seq<byte>)
    ensures |b| == n
  {
    if n == 0 then [] else [v % 256] + Bytewise(v / 256, n - 1)
  }

  /** The head with `v` in its length field. */
  function WithLength(head: seq<byte>, v: nat): (r: seq<byte>)
    requires |head| == HEADER
    ensures |r| == HEADER
  {
    HeadFields();
    var at := Offset(BODYSIZE);
    head[..at] + Bytewise(v, MSGHEAD[BODYSIZE].size) + head[at + MSGHEAD[BODYSIZE].size..]
  }

  /** The receiver sees the low 16 bits of what the sender wrote, whatever else is in the head. */
  lemma LengthIsRead(head: seq<byte>, v: nat)
    requires |head| == HEADER
    ensures BodyLength(WithLength(head, v)) == v % 0x1_0000
  {
    HeadFields();
    var b := Bytewise(v, 4);
    assert b[0] == v % 256;
    assert b[1] == Bytewise(v / 256, 3)[0] == v / 256 % 256;
    hide Bytewise, Offset;
    var h := WithLength(head, v);
    assert h[LENGTHAT] == b[0] && h[LENGTHAT + 1] == b[1];
    LowBytes(v);
  }

  lemma LowBytes(v: nat)
    ensures v % 256 + 256 * (v / 256 % 256) == v % 0x1_0000
  {
    var rest := v / 256;
    assert rest == rest / 256 * 256 + rest % 256;
    DivModUnique(v, rest / 256, v % 256 + 256 * (rest % 256), 0x1_0000);
  }

  /** What a sender fills in: a head and a body. */
  datatype Draft = Draft(head: seq<byte>, body: seq<byte>)

  function Made(drafts: seq<Draft>): (m: seq<Message>)
    requires forall d :: d in drafts ==> |d.head| == HEADER
    ensures |m| == |drafts|
  {
    if drafts == [] then []
    else
      assert drafts[0] in drafts;
      [Message(WithLength(drafts[0].head, |drafts[0].body|), drafts[0].body)] + Made(drafts[1..])
  }

  predicate Sendable(n: nat) {
    n % 0x1_0000 == n <= 16384
  }

  function Size(messages: seq<Message>): nat {
    if messages == [] then 0 else HEADER + |messages[0].body| + Size(messages[1..])
  }

  /** Parsing makes no bytes. */
  lemma {:induction false} ParseMakesNoBytes(s: seq<byte>)
    ensures Size(Parse(s).messages) + |Parse(s).rest| <= |s|
  {
    if |s| >= HEADER {
      var n := BodyLength(s[..HEADER]);
      if n > PKG_MAX_LENGTH {
        ParseMakesNoBytes(s[HEADER..]);
      } else if |s| >= HEADER + n {
        ParseMakesNoBytes(s[HEADER + n..]);
        var p := Parse(s);
        assert p.messages[1..] == Parse(s[HEADER + n..]).messages;
      }
    }
  }

  lemma {:induction false} EncodedSize(messages: seq<Message>)
    requires forall m :: m in messages ==> |m.head| == HEADER
    ensures |Encode(messages)| == Size(messages)
  {
    if messages != [] {
      assert messages[0] in messages;
      EncodedSize(messages[1..]);
    }
  }

  /** Messages are cut back into themselves exactly when each length fits the field as it is read, and the limit. */
  lemma {:induction false} MadeAreReceivedIff(drafts: seq<Draft>)
    requires forall d :: d in drafts ==> |d.head| == HEADER
    ensures Parse(Encode(Made(drafts))) == Parsed(Made(drafts), [])
      <==> forall d :: d in drafts ==> Sendable(|d.body|)
  {
    if drafts != [] {
      var d, rest := drafts[0], drafts[1..];
      assert d in drafts && drafts == [d] + rest;
      var m, s := Made(drafts)[0], Encode(Made(drafts));
      MadeAreReceivedIff(rest);
      LengthIsRead(d.head, |d.body|);
      MadeHeads(rest);
      EncodedSize(Made(rest));
      FirstIsReceivedIff(m, Made(rest));
    }
  }

  lemma {:induction false} MadeHeads(drafts: seq<Draft>)
    requires forall d :: d in drafts ==> |d.head| == HEADER
    ensures forall m :: m in Made(drafts) ==> |m.head| == HEADER
  {
    if drafts != [] {
      assert drafts[0] in drafts;
      MadeHeads(drafts[1..]);
    }
  }

  lemma FirstIsReceivedIff(m: Message, rest: seq<Message>)
    requires |m.head| == HEADER && |Encode(rest)| == Size(rest)
    ensures Parse(Encode([m] + rest)) == Parsed([m] + rest, [])
      <==> |m.body| == BodyLength(m.head) <= PKG_MAX_LENGTH && Parse(Encode(rest)) == Parsed(rest, [])
  {
    var n, s := BodyLength(m.head), Encode([m] + rest);
    assert ([m] + rest)[1..] == rest;
    assert s == m.head + m.body + Encode(rest);
    assert s[..HEADER] == m.head;
    if n > PKG_MAX_LENGTH {
      ParseMakesNoBytes(s[HEADER..]);
    } else if |s| >= HEADER + n {
      if n == |m.body| {
        assert s[HEADER..HEADER + n] == m.body && s[HEADER + n..] == Encode(rest);
      } else {
        assert Parse(s).messages[0] == Message(m.head, s[HEADER..HEADER + n]);
      }
    }
  }

  // ---- The receiving state machine ----

  datatype Stat = HdInit | HdRecving | BdInit | BdRecving

  class Connection {
    const dataHeadInfo: array<byte>
    var curStat: Stat
    var body: array<byte>             // the body part of the memory taken for the message under way
    var pos: nat                      // how far into the current buffer the next bytes go
    var irecvlen: nat                 // how many bytes are still wanted there
    var dispatched: seq<Message>      // handed to the worker threads, in order
    ghost var consumed: seq<byte>     // everything received so far

    ghost predicate Valid()
      reads this, dataHeadInfo, body
    {
      && dataHeadInfo.Length == HEADER && dataHeadInfo != body
      && 0 < irecvlen
      && match curStat
         case HdInit => pos == 0 && irecvlen == HEADER
         case HdRecving => 0 < pos && pos + irecvlen == HEADER
         case BdInit => pos == 0 && BodyUnderWay()
         case BdRecving => 0 < pos && BodyUnderWay()
    }

    ghost predicate BodyUnderWay()
      requires dataHeadInfo.Length == HEADER
      reads this, dataHeadInfo, body
    {
      pos + irecvlen == body.Length == BodyLength(dataHeadInfo[..]) <= PKG_MAX_LENGTH
    }

    /** The received bytes that belong to no dispatched message yet. */
    ghost function Pending(): seq<byte>
      requires Valid()
      reads this, dataHeadInfo, body
    {
      if curStat.HdInit? || curStat.HdRecving? then dataHeadInfo[..pos] else dataHeadInfo[..] + body[..pos]
    }

    /** What was dispatched and what is pending are what parsing the whole stream gives. */
    ghost predicate Faithful()
      requires Valid()
      reads this, dataHeadInfo, body
    {
      Parse(consumed) == Parsed(dispatched, Pending())
    }

    constructor GetOneToUse()
      ensures Valid() && Faithful() && fresh(dataHeadInfo) && fresh(body)
      ensures consumed == [] && dispatched == []
    {
      dataHeadInfo := new byte[HEADER](_ => 0);
      body := new byte[0];
      curStat, pos, irecvlen, dispatched, consumed := HdInit, 0, HEADER, [], [];
    }

    /** `recv` put `chunk` where the connection asked for it. */
    method Deposit(buffer: array<byte>, chunk: seq<byte>)
      requires pos + |chunk| <= buffer.Length
      modifies buffer
      ensures buffer[..pos + |chunk|] == old(buffer[..pos]) + chunk
    {
      forall i | 0 <= i < |chunk| {
        buffer[pos + i] := chunk[i];
      }
    }

    /** Some bytes arrived: between one and as many as were asked for. */
    method ReadRequestHandler(chunk: seq<byte>)
      requires Valid() && Faithful() && 1 <= |chunk| <= irecvlen
      modifies this, dataHeadInfo, body
      ensures Valid() && Faithful() && (body == old(body) || fresh(body))
      ensures consumed == old(consumed) + chunk
    {
      ParseExtends(consumed, chunk);
      if curStat == HdInit || curStat == HdRecving {
        ReceiveHead(chunk);
      } else {
        ReceiveBody(chunk);
      }
      consumed := consumed + chunk;
    }

    method ReceiveHead(chunk: seq<byte>)
      requires Valid() && 1 <= |chunk| <= irecvlen && (curStat == HdInit || curStat == HdRecving)
      modifies this`curStat, this`pos, this`irecvlen, this`body, this`dispatched, dataHeadInfo
      ensures Valid() && (body == old(body) || fresh(body))
      ensures var p := Parse(old(Pending()) + chunk);
              dispatched == old(dispatched) + p.messages && Pending() == p.rest
    {
      ghost var was := Pending();
      var reco := |chunk|;
      Deposit(dataHeadInfo, chunk);
      assert dataHeadInfo[..pos + reco] == was + chunk;
      ParseHeadOnly(was + chunk);
      assert pos + reco == HEADER ==> dataHeadInfo[..] == was + chunk;
      if curStat == HdInit {
        if reco == HEADER {
          WaitRequestHandlerProcP1();
        } else {
          curStat, pos, irecvlen := HdRecving, pos + reco, irecvlen - reco;
        }
      } else {
        if irecvlen == reco {
          WaitRequestHandlerProcP1();
        } else {
          pos, irecvlen := pos + reco, irecvlen - reco;
        }
      }
    }

    method ReceiveBody(chunk: seq<byte>)
      requires Valid() && 1 <= |chunk| <= irecvlen && (curStat == BdInit || curStat == BdRecving)
      modifies this`curStat, this`pos, this`irecvlen, this`dispatched, body
      ensures Valid()
      ensures var p := Parse(old(Pending()) + chunk);
              dispatched == old(dispatched) + p.messages && Pending() == p.rest
    {
      ghost var was := Pending();
      var reco := |chunk|;
      Deposit(body, chunk);
      assert was + chunk == dataHeadInfo[..] + body[..pos + reco];
      ParseOneMessage(dataHeadInfo[..], body[..pos + reco]);
      if curStat == BdInit {
        if reco == irecvlen {
          assert body[..pos + reco] == body[..];
          WaitRequestHandlerProcPlast(body[..]);
        } else {
          curStat, pos, irecvlen := BdRecving, pos + reco, irecvlen - reco;
        }
      } else {
        if irecvlen == reco {
          assert body[..pos + reco] == body[..];
          WaitRequestHandlerProcPlast(body[..]);
        } else {
          pos, irecvlen := pos + reco, irecvlen - reco;
        }
      }
    }

    /** The head is complete: skip it, dispatch it at once, or make room for its body. */
    method WaitRequestHandlerProcP1()
      requires dataHeadInfo.Length == HEADER && dataHeadInfo != body
      modifies this`curStat, this`pos, this`irecvlen, this`body, this`dispatched
      ensures Valid() && (body == old(body) || fresh(body))
      ensures var p := if BodyLength(dataHeadInfo[..]) > PKG_MAX_LENGTH then Parsed([], [])
                       else if BodyLength(dataHeadInfo[..]) == 0 then Parsed([Message(dataHeadInfo[..], [])], [])
                       else Parsed([], dataHeadInfo[..]);
              dispatched == old(dispatched) + p.messages && Pending() == p.rest
    {
      var pkgLen := BodyLength(dataHeadInfo[..]);
      if pkgLen > PKG_MAX_LENGTH {
        curStat, pos, irecvlen := HdInit, 0, HEADER;
      } else {
        if pkgLen == 0 {
          WaitRequestHandlerProcPlast([]);
        } else {
          body := new byte[pkgLen];
          curStat, pos, irecvlen := BdInit, 0, pkgLen;
        }
      }
    }

    /** A whole message arrived: hand it over and wait for the next head. */
    method WaitRequestHandlerProcPlast(bodyBytes: seq<byte>)
      requires dataHeadInfo.Length == HEADER && dataHeadInfo != body
      modifies this`curStat, this`pos, this`irecvlen, this`dispatched
      ensures Valid() && dispatched == old(dispatched) + [Message(dataHeadInfo[..], bodyBytes)] && Pending() == []
    {
      dispatched := dispatched + [Message(dataHeadInfo[..], bodyBytes)];
      curStat, pos, irecvlen := HdInit, 0, HEADER;
    }
  }

  /**
   Serve a stream cut arbitrarily: the `i`-th read returns `cuts[i]` bytes as far as that many are wanted and
   there, and at least one. Whatever the cuts, the messages dispatched are those of the whole stream.
   */
  method ServeStream(stream: seq<byte>, cuts: seq<nat>) returns (c: Connection)
    ensures fresh(c) && c.Valid() && c.consumed == stream
    ensures c.dispatched == Parse(stream).messages && c.Pending() == Parse(stream).rest
  {
    c := new Connection.GetOneToUse();
    var at, i := 0, 0;
    while at < |stream|
      invariant 0 <= at <= |stream| && c.consumed == stream[..at]
      invariant c.Valid() && c.Faithful() && fresh(c) && fresh(c.dataHeadInfo) && fresh(c.body)
    {
      var wanted := if i < |cuts| && cuts[i] > 0 then cuts[i] else 1;
      var reco := if wanted < c.irecvlen then wanted else c.irecvlen;
      reco := if reco < |stream| - at then reco else |stream| - at;
      c.ReadRequestHandler(stream[at..at + reco]);
      assert stream[..at] + stream[at..at + reco] == stream[..at + reco];
      at, i := at + reco, i + 1;
    }
    assert stream[..at] == stream;
  }

  /** Two connections that received the same bytes, however cut, dispatched the same messages. */
  lemma ChunkingIsInvisible(c: Connection, d: Connection)
    requires c.Valid() && c.Faithful() && d.Valid() && d.Faithful()
    requires c.consumed == d.consumed
    ensures c.dispatched == d.dispatched && c.Pending() == d.Pending()
  {
  }
}
