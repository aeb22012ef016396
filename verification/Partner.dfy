/**
 Block transfer between two S7 partners: a block is cut into slices that fit the negotiated PDU length, every slice is
 answered, and the receiver lays the slices end to end.
 */
module Partner {
  import opened Bytes

  type word = x: int | 0 <= x < 0x1_0000
  type longword = x: int | 0 <= x < 0x1_0000_0000

  const HEADERSIZE := 10
  const PARAMSIZE := 12
  const DATASIZE := 12
  const HEADERS := HEADERSIZE + PARAMSIZE + DATASIZE
  const BLOCKMAX := 65536
  /** The receiver fills its whole buffer structure from the front: two 32-bit fields and the data. */
  const RXROOM := 65536 + 8

  /** What a slice says; `eos` is 0 on the last one, `payload` is all that follows the data header. */
  datatype Slice = Slice(eos: byte, idSeq: byte, len: word, dataLen: word, rid: longword, payload: seq<byte>)

  /** A PDU with its running number, the answer number it repeats, and whether it is marked as block transfer. */
  datatype PDU = PDU(sequence: word, seqIn: byte, bsend: bool, slice: Slice)

  /** What the exchange of one PDU came to. */
  datatype Response = Response(exchanged: bool, seqOut: byte, err: word)

  datatype Error = NoError | SendingBlock | SendRefused | InvalidPDU | RecvingBlock

  function IsoSize(p: PDU): nat {
    HEADERS + |p.slice.payload|
  }

  function Joined(high: byte, low: byte): word {
    256 * (high as int) + low as int
  }

  /** A 16-bit number with its high byte first. */
  function BigEndian(n: word): (b: seq<byte>)
    ensures |b| == 2 && n == 256 * (b[0] as int) + b[1] as int && Joined(b[0], b[1]) == n
  {
    [n / 256, n % 256]
  }

  // ---- The plan of a transfer ----

  /** How many of the remaining bytes the next slice takes. */
  function ChunkSize(left: nat, first: bool, pduLength: int): (n: nat)
    requires pduLength >= HEADERS + 2
    ensures n <= left && n + HEADERS + (if first then 2 else 0) <= pduLength
    ensures left > 0 && !first ==> n > 0
  {
    var room := pduLength - HEADERS - if first then 2 else 0;
    if left > room then room else left
  }

  /** The block in slices; the first leaves two bytes for the length of the block. */
  function Cut(data: seq<byte>, first: bool, pduLength: int): (chunks: seq<seq<byte>>)
    requires pduLength >= HEADERS + 2
    decreases |data|, first
  {
    if data == [] then []
    else
      var n := ChunkSize(|data|, first, pduLength);
      [data[..n]] + Cut(data[n..], false, pduLength)
  }

  function NextId(b: byte): byte {
    if b + 1 >= 255 then 1 else b + 1
  }

  function IdAfter(b: byte, n: nat): byte {
    if n == 0 then b else NextId(IdAfter(b, n - 1))
  }

  /** Slice `k` of a block. */
  function SliceAt(data: seq<byte>, rid: longword, pduLength: int, id: byte, k: nat): Slice
    requires HEADERS + 2 <= pduLength < 0x1_0000 && k < |Cut(data, true, pduLength)|
  {
    var chunks := Cut(data, true, pduLength);
    var extra := if k == 0 then 2 else 0;
    Slice(if k == |chunks| - 1 then 0 else 1, if |chunks| == 1 then 0 else IdAfter(id, k + 1),
          (|chunks[k]| + 8 + extra) % 0x1_0000, (DATASIZE + |chunks[k]| + extra) % 0x1_0000, rid,
          (if k == 0 then BigEndian(|data| % 0x1_0000) else []) + chunks[k])
  }

  lemma CutStep(rest: seq<byte>, first: bool, pduLength: int, n: nat)
    requires HEADERS + 2 <= pduLength && rest != []
    requires n == ChunkSize(|rest|, first, pduLength)
    ensures
      var chunks := Cut(rest, first, pduLength);
      && chunks != [] && chunks[0] == rest[..n] && chunks[1..] == Cut(rest[n..], false, pduLength)
      && (|chunks| == 1 <==> n == |rest|)
  {
  }

  lemma {:induction false} CutRebuilds(data: seq<byte>, first: bool, pduLength: int)
    requires pduLength >= HEADERS + 2
    ensures Flatten(Cut(data, first, pduLength)) == data
    decreases |data|, first
  {
    if data != [] {
      hide Cut, Flatten, ChunkSize;
      var n := ChunkSize(|data|, first, pduLength);
      SplitAt(data, n);
      CutStep(data, first, pduLength, n);
      CutRebuilds(data[n..], false, pduLength);
      HeadFirst(Cut(data, first, pduLength), data[..n], Cut(data[n..], false, pduLength));
    }
  }

  lemma HeadFirst(chunks: seq<seq<byte>>, head: seq<byte>, rest: seq<seq<byte>>)
    requires chunks != [] && chunks[0] == head && chunks[1..] == rest
    ensures Flatten(chunks) == head + Flatten(rest)
  {
    hide Flatten;
    assert chunks == [head] + rest;
    FlattenConcat([head], rest);
    FlattenOne(head);
  }

  lemma SplitAt<T>(s: seq<T>, n: nat)
    requires n <= |s|
    ensures s[..n] + s[n..] == s
  {
  }

  lemma FlattenOne(chunk: seq<byte>)
    ensures Flatten([chunk]) == chunk
  {
    assert Flatten([chunk][..0]) == [];
  }

  lemma {:induction false} CutFits(data: seq<byte>, first: bool, pduLength: int, k: nat)
    requires pduLength >= HEADERS + 2 && k < |Cut(data, first, pduLength)|
    ensures |Cut(data, first, pduLength)[k]| + HEADERS + (if first && k == 0 then 2 else 0) <= pduLength
    ensures k > 0 ==> Cut(data, first, pduLength)[k] != []
    decreases |data|, first
  {
    if k > 0 {
      var n := ChunkSize(|data|, first, pduLength);
      CutFits(data[n..], false, pduLength, k - 1);
    }
  }

  // ---- The receiver ----

  datatype Delivery = Delivery(error: Error, rid: longword, size: nat, data: seq<byte>)

  /** What the receiver remembers between slices; `room` is its buffer. */
  datatype RecvState = RecvState(pending: bool, offset: nat, total: nat, rid: longword, room: seq<byte>,
      delivered: seq<Delivery>)

  /** How many bytes the receiver takes from a slice. */
  function Taken(p: PDU, first: bool): nat {
    (p.slice.len - if first then 10 else 8) % 0x1_0000
  }

  /** The slice carries the bytes its length field announces, and they fit the buffer. */
  predicate Fits(p: PDU, first: bool, offset: nat, room: nat) {
    Taken(p, first) + (if first then 2 else 0) <= |p.slice.payload|
      && (if first then 0 else offset) + Taken(p, first) <= room
  }

  function Cleared(s: RecvState): RecvState {
    s.(pending := false, offset := 0, total := 0, rid := 0)
  }

  /** The receiver after a PDU; `answered` tells whether its answer went out. */
  function Receive(s: RecvState, p: PDU, answered: bool): RecvState
    requires p.bsend ==> Fits(p, !s.pending, s.offset, |s.room|)
  {
    if !p.bsend then
      Cleared(s).(delivered := s.delivered + [Delivery(InvalidPDU, 0, 0, [])])
    else
      var first := !s.pending;
      var bytes := if first then p.slice.payload[2..][..Taken(p, first)] else p.slice.payload[..Taken(p, first)];
      var offset := if first then 0 else s.offset;
      var total := if first then Joined(p.slice.payload[0], p.slice.payload[1]) else s.total;
      var rid := if first then p.slice.rid else s.rid;
      var room := Spliced(s.room, offset, bytes);
      if !answered then
        Cleared(s).(room := room, delivered := s.delivered + [Delivery(RecvingBlock, 0, 0, [])])
      else if p.slice.eos == 0 then
        var told := Delivery(NoError, rid, total, if total <= |room| then room[..total] else room);
        Cleared(s).(room := room, delivered := s.delivered + [told])
      else
        RecvState(true, offset + |bytes|, total, rid, room, s.delivered)
  }

  /** The receiver after a run of PDUs that all fit, each answered. */
  function ReceiveAll(s: RecvState, pdus: seq<PDU>): Option<RecvState> {
    if pdus == [] then Some(s)
    else
      var before := ReceiveAll(s, pdus[..|pdus| - 1]);
      var p := pdus[|pdus| - 1];
      if before.None? || !Fits(p, !before.value.pending, before.value.offset, |before.value.room|) then None
      else Some(Receive(before.value, p, true))
  }

  // ---- Sending and receiving ----

  /** The PDUs carry the slices of the block, in order. */
  ghost predicate Carries(pdus: seq<PDU>, data: seq<byte>, rid: longword, pduLength: int, id: byte)
    requires HEADERS + 2 <= pduLength < 0x1_0000
  {
    && |pdus| <= |Cut(data, true, pduLength)|
    && forall k :: 0 <= k < |pdus| ==> pdus[k].bsend && pdus[k].slice == SliceAt(data, rid, pduLength, id, k)
  }

  ghost predicate Idle(s: RecvState) {
    !s.pending && s.offset == 0 && s.total == 0 && s.rid == 0 && |s.room| == RXROOM
  }

  /** In the middle of a block: what has arrived is the beginning of the block. */
  ghost predicate Midway(s0: RecvState, s: RecvState, data: seq<byte>, rid: longword, done: seq<byte>) {
    && s.pending && s.total == |data| % 0x1_0000 && s.rid == rid && s.delivered == s0.delivered
    && |s.room| == RXROOM && s.offset == |done| && s.offset <= RXROOM && s.room[..s.offset] == done
  }

  lemma ChunkBounds(data: seq<byte>, pduLength: int, k: nat)
    requires HEADERS + 2 <= pduLength && k < |Cut(data, true, pduLength)|
    ensures
      var chunks := Cut(data, true, pduLength);
      && |chunks[k]| + HEADERS + (if k == 0 then 2 else 0) <= pduLength
      && Flatten(chunks[..k + 1]) == Flatten(chunks[..k]) + chunks[k]
      && |Flatten(chunks[..k + 1])| <= |data|
      && (k == |chunks| - 1 ==> Flatten(chunks[..k + 1]) == data)
  {
    var chunks := Cut(data, true, pduLength);
    CutFits(data, true, pduLength, k);
    CutRebuilds(data, true, pduLength);
    FlattenSplit(chunks, k);
    if k + 1 < |chunks| {
      FlattenSplit(chunks, k + 1);
    } else {
      assert chunks[..k + 1] == chunks;
    }
  }

  /** What the user is told of a block: its size is kept in 16 bits. */
  function Report(data: seq<byte>, rid: longword): Delivery {
    Delivery(NoError, rid, |data| % 0x1_0000, data[..|data| % 0x1_0000])
  }

  /** One slice arrives. */
  lemma SliceArrives(s0: RecvState, s: RecvState, p: PDU, data: seq<byte>, rid: longword, pduLength: int, id: byte,
                     k: nat)
    requires HEADERS + 2 <= pduLength < 0x1_0000 && |data| <= BLOCKMAX && k < |Cut(data, true, pduLength)|
    requires p.bsend && p.slice == SliceAt(data, rid, pduLength, id, k)
    requires
      var done := Flatten(Cut(data, true, pduLength)[..k]);
      if k == 0 then s == s0 && Idle(s) else Midway(s0, s, data, rid, done)
    ensures Fits(p, !s.pending, s.offset, |s.room|)
    ensures
      var chunks := Cut(data, true, pduLength);
      var s' := Receive(s, p, true);
      if k < |chunks| - 1 then Midway(s0, s', data, rid, Flatten(chunks[..k + 1]))
      else Idle(s') && s'.delivered == s0.delivered + [Report(data, rid)]
  {
    var chunks := Cut(data, true, pduLength);
    var done, chunk := Flatten(chunks[..k]), chunks[k];
    ChunkBounds(data, pduLength, k);
    SliceCarries(p, data, rid, pduLength, id, k);
    assert k == 0 ==> done == [];
    hide Cut, Flatten, SliceAt, Taken;
    OneArrives(s, p, chunk, done, |data| % 0x1_0000, rid, k == 0);
    if k == |chunks| - 1 {
      Beginning(Spliced(s.room, |done|, chunk), data, |data| % 0x1_0000);
    }
  }

  lemma Beginning(room: seq<byte>, data: seq<byte>, n: nat)
    requires n <= |data| <= |room| && room[..|data|] == data
    ensures room[..n] == data[..n]
  {
    assert room[..n] == room[..|data|][..n];
  }

  /** What receiving one slice does: its bytes go behind those received before. */
  lemma OneArrives(s: RecvState, p: PDU, chunk: seq<byte>, done: seq<byte>, total: nat, rid: longword, first: bool)
    requires p.bsend && first == !s.pending && Taken(p, first) == |chunk| && |done| + |chunk| <= |s.room| == RXROOM
    requires first ==> done == [] && |p.slice.payload| == |chunk| + 2 && p.slice.payload[2..][..|chunk|] == chunk
                       && Joined(p.slice.payload[0], p.slice.payload[1]) == total && p.slice.rid == rid
    requires !first ==>
      p.slice.payload == chunk && s.total == total && s.rid == rid && s.offset == |done| && s.room[..s.offset] == done
    ensures Fits(p, first, s.offset, |s.room|)
    ensures
      var s' := Receive(s, p, true);
      && s'.room == Spliced(s.room, |done|, chunk) && s'.room[..|done| + |chunk|] == done + chunk
      && (p.slice.eos != 0 ==> s' == RecvState(true, |done| + |chunk|, total, rid, s'.room, s.delivered))
      && (p.slice.eos == 0 ==>
            && s' == RecvState(false, 0, 0, 0, s'.room, s'.delivered)
            && s'.delivered == s.delivered
              + [Delivery(NoError, rid, total, if total <= RXROOM then s'.room[..total] else s'.room)])
  {
    hide Taken;
    assert chunk[..|chunk|] == chunk;
    SpliceExtends(s.room, |done|, done, chunk);
    hide Spliced;
  }

  /** What the receiver reads off a slice. */
  lemma SliceCarries(p: PDU, data: seq<byte>, rid: longword, pduLength: int, id: byte, k: nat)
    requires HEADERS + 2 <= pduLength < 0x1_0000 && k < |Cut(data, true, pduLength)|
    requires p.slice == SliceAt(data, rid, pduLength, id, k)
    ensures
      var chunk := Cut(data, true, pduLength)[k];
      && Taken(p, k == 0) == |chunk| && p.slice.rid == rid
        && (p.slice.eos == 0 <==> k == |Cut(data, true, pduLength)| - 1)
      && (k == 0 ==> |p.slice.payload| == |chunk| + 2 && p.slice.payload[2..][..|chunk|] == chunk
                     && Joined(p.slice.payload[0], p.slice.payload[1]) == |data| % 0x1_0000)
      && (k > 0 ==> p.slice.payload == chunk && p.slice.payload[..|chunk|] == chunk)
  {
    CutFits(data, true, pduLength, k);
    hide Cut, IdAfter;
    var chunk := Cut(data, true, pduLength)[k];
    SmallWord(|chunk| + 8 + if k == 0 then 2 else 0);
    SmallWord(|chunk|);
    hide BigEndian;
    Prefixed(if k == 0 then BigEndian(|data| % 0x1_0000) else [], chunk);
  }

  lemma Prefixed(head: seq<byte>, chunk: seq<byte>)
    ensures (head + chunk)[|head|..][..|chunk|] == chunk
    ensures head == [] ==> head + chunk == chunk
    ensures |head| == 2 ==> (head + chunk)[0] == head[0] && (head + chunk)[1] == head[1]
  {
  }

  lemma SmallWord(n: nat)
    requires n < 0x1_0000
    ensures n % 0x1_0000 == n
  {
  }

  lemma SpliceExtends(room: seq<byte>, offset: nat, done: seq<byte>, bytes: seq<byte>)
    requires offset == |done| && offset + |bytes| <= |room| && room[..offset] == done
    ensures Spliced(room, offset, bytes)[..offset + |bytes|] == done + bytes
  {
  }

  /** The state of the receiver after the first `|pdus|` slices of a block. */
  lemma {:induction false} Arrives(s: RecvState, pdus: seq<PDU>, data: seq<byte>, rid: longword, pduLength: int,
                                   id: byte)
    requires HEADERS + 2 <= pduLength < 0x1_0000 && |data| <= BLOCKMAX && Idle(s)
    requires Carries(pdus, data, rid, pduLength, id)
    ensures ReceiveAll(s, pdus).Some?
    ensures
      var chunks := Cut(data, true, pduLength);
      var s' := ReceiveAll(s, pdus).value;
      if pdus == [] then s' == s
      else if |pdus| < |chunks| then Midway(s, s', data, rid, Flatten(chunks[..|pdus|]))
      else Idle(s') && s'.delivered == s.delivered + [Report(data, rid)]
  {
    hide Cut, Flatten, Receive, Fits, SliceAt, Midway;
    if pdus != [] {
      var k := |pdus| - 1;
      Arrives(s, pdus[..k], data, rid, pduLength, id);
      var before := ReceiveAll(s, pdus[..k]).value;
      SliceArrives(s, before, pdus[k], data, rid, pduLength, id, k);
    }
  }

  /** What the user is told in all at the end of a block. */
  function Told(told: seq<Delivery>, data: seq<byte>, rid: longword): seq<Delivery> {
    if data == [] then told
    else told + [Report(data, rid)]
  }

  lemma WholeArrives(s: RecvState, pdus: seq<PDU>, data: seq<byte>, rid: longword, pduLength: int, id: byte)
    requires HEADERS + 2 <= pduLength < 0x1_0000 && |data| <= BLOCKMAX && Idle(s)
    requires Carries(pdus, data, rid, pduLength, id) && |pdus| == |Cut(data, true, pduLength)|
    ensures ReceiveAll(s, pdus).Some? && Idle(ReceiveAll(s, pdus).value)
    ensures ReceiveAll(s, pdus).value.delivered == Told(s.delivered, data, rid)
  {
    Arrives(s, pdus, data, rid, pduLength, id);
    assert Cut(data, true, pduLength) == [] <==> data == [];
    hide Cut, ReceiveAll, Carries, Flatten, Midway;
  }

  lemma ToldIff(told: seq<Delivery>, data: seq<byte>, rid: longword)
    requires |data| <= BLOCKMAX
    ensures Told(told, data, rid) == told + [Delivery(NoError, rid, |data|, data)] <==> 0 < |data| < BLOCKMAX
  {
    var whole := Delivery(NoError, rid, |data|, data);
    if data == [] {
      assert |told + [whole]| == |told| + 1;
    } else {
      var total := |data| % 0x1_0000;
      assert data[..|data|] == data;
      OnlyLastDiffers(told, whole, Delivery(NoError, rid, total, data[..total]));
    }
  }

  /** A block sent and received whole is the same block, size and number, exactly when it has 1 to 65535 bytes. */
  lemma BlockArrivesIff(s: RecvState, pdus: seq<PDU>, data: seq<byte>, rid: longword, pduLength: int, id: byte)
    requires HEADERS + 2 <= pduLength < 0x1_0000 && |data| <= BLOCKMAX && Idle(s)
    requires Carries(pdus, data, rid, pduLength, id) && |pdus| == |Cut(data, true, pduLength)|
    ensures ReceiveAll(s, pdus).Some? && Idle(ReceiveAll(s, pdus).value)
    ensures ReceiveAll(s, pdus).value.delivered == s.delivered + [Delivery(NoError, rid, |data|, data)]
      <==> 0 < |data| < BLOCKMAX
  {
    hide Cut, ReceiveAll, Carries, Told;
    WholeArrives(s, pdus, data, rid, pduLength, id);
    ToldIff(s.delivered, data, rid);
  }

  lemma OnlyLastDiffers<T>(s: seq<T>, a: T, b: T)
    ensures s + [a] == s + [b] <==> a == b
  {
    assert (s + [a])[|s|] == a && (s + [b])[|s|] == b;
  }

  /** Slices of a block in several parts carry numbers 1 to 254, never the same twice in a row. */
  lemma {:induction false} IdsDiffer(id: byte, n: nat)
    requires id < 255
    ensures 1 <= IdAfter(id, n + 1) <= 254 && IdAfter(id, n + 1) != IdAfter(id, n)
  {
    if n > 0 {
      IdsDiffer(id, n - 1);
    }
  }

  /** Only the last slice of a block is marked as the end. */
  lemma EndIsLast(data: seq<byte>, rid: longword, pduLength: int, id: byte, k: nat)
    requires HEADERS + 2 <= pduLength < 0x1_0000 && k < |Cut(data, true, pduLength)|
    ensures SliceAt(data, rid, pduLength, id, k).eos == 0 <==> k == |Cut(data, true, pduLength)| - 1
    ensures HEADERS + |SliceAt(data, rid, pduLength, id, k).payload| <= pduLength
  {
    ChunkBounds(data, pduLength, k);
  }

  /** The length fields of a slice count the bytes that follow them, and the first slice begins with the length. */
  lemma LengthFields(data: seq<byte>, rid: longword, pduLength: int, id: byte, k: nat)
    requires HEADERS + 2 <= pduLength < 0x1_0000 && k < |Cut(data, true, pduLength)|
    ensures
      var s := SliceAt(data, rid, pduLength, id, k);
      && s.dataLen == |s.payload| + 12 && s.len == |s.payload| + 8 && s.rid == rid
      && (k == 0 ==> |s.payload| >= 2 && 256 * (s.payload[0] as int) + s.payload[1] as int == |data| % 0x1_0000)
  {
    ChunkBounds(data, pduLength, k);
    var n := |SliceAt(data, rid, pduLength, id, k).payload|;
    SmallWord(n + 8);
    SmallWord(n + 12);
  }

  /** Every slice but the last fills its PDU, so that no fewer could carry the block. */
  lemma SlicesAreFull(data: seq<byte>, rid: longword, pduLength: int, id: byte, k: nat)
    requires HEADERS + 2 <= pduLength < 0x1_0000 && k + 1 < |Cut(data, true, pduLength)|
    ensures HEADERS + |SliceAt(data, rid, pduLength, id, k).payload| == pduLength
  {
    ChunksAreFull(data, true, pduLength, k);
  }

  lemma {:induction false} ChunksAreFull(data: seq<byte>, first: bool, pduLength: int, k: nat)
    requires pduLength >= HEADERS + 2 && k + 1 < |Cut(data, first, pduLength)|
    ensures |Cut(data, first, pduLength)[k]| + HEADERS + (if first && k == 0 then 2 else 0) == pduLength
    decreases |data|, first
  {
    if k > 0 {
      var n := ChunkSize(|data|, first, pduLength);
      ChunksAreFull(data[n..], false, pduLength, k - 1);
    }
  }

  /** A block in one slice carries number 0; the slices of any other count on from the last number used. */
  lemma PartNumbers(data: seq<byte>, rid: longword, pduLength: int, id: byte, k: nat)
    requires HEADERS + 2 <= pduLength < 0x1_0000 && k < |Cut(data, true, pduLength)| && id < 255
    ensures |Cut(data, true, pduLength)| == 1 ==> SliceAt(data, rid, pduLength, id, k).idSeq == 0
    ensures |Cut(data, true, pduLength)| > 1 ==>
      var was := if k == 0 then id else SliceAt(data, rid, pduLength, id, k - 1).idSeq;
      SliceAt(data, rid, pduLength, id, k).idSeq == if was == 254 then 1 else was + 1
  {
    hide Cut;
    IdsDiffer(id, k);
    assert IdAfter(id, 0) == id && IdAfter(id, k + 1) == NextId(IdAfter(id, k));
  }

  /** A PDU of another kind, or one whose answer could not be sent, ends the block with an error. */
  lemma FailureEndsBlock(s: RecvState, p: PDU, answered: bool)
    requires p.bsend ==> Fits(p, !s.pending, s.offset, |s.room|)
    requires !p.bsend || !answered
    ensures
      var s' := Receive(s, p, answered);
      && !s'.pending && s'.offset == 0 && s'.total == 0
      && s'.delivered == s.delivered + [Delivery(if p.bsend then RecvingBlock else InvalidPDU, 0, 0, [])]
  {
  }

  // ---- The partner ----

  /** How the sender makes up slice `k`. */
  lemma SliceIs(data: seq<byte>, rid: longword, pduLength: int, id: byte, k: nat, s: Slice, last: bool)
    requires HEADERS + 2 <= pduLength < 0x1_0000 && k < |Cut(data, true, pduLength)|
      && last == (k == |Cut(data, true, pduLength)| - 1)
    requires
      var chunk, extra := Cut(data, true, pduLength)[k], if k == 0 then 2 else 0;
      s == Slice(if last then 0 else 1, if k == 0 && last then 0 else IdAfter(id, k + 1),
                 (|chunk| + 8 + extra) % 0x1_0000, (DATASIZE + |chunk| + extra) % 0x1_0000, rid,
                 if k == 0 then BigEndian(|data| % 0x1_0000) + chunk else chunk)
    ensures s == SliceAt(data, rid, pduLength, id, k)
  {
    hide Cut, IdAfter;
  }

  lemma NextIdAfter(id: byte, n: nat)
    ensures IdAfter(id, 0) == id && IdAfter(id, n + 1) == NextId(IdAfter(id, n))
  {
  }

  /** After the first `k` slices, `offset` bytes of the block are gone. */
  ghost predicate AtChunk(data: seq<byte>, offset: nat, k: nat, first: bool, pduLength: int)
    requires HEADERS + 2 <= pduLength
  {
    var chunks := Cut(data, true, pduLength);
    offset <= |data| && k <= |chunks| && chunks[k..] == Cut(data[offset..], first, pduLength)
  }

  lemma CutAt(data: seq<byte>, offset: nat, k: nat, first: bool, pduLength: int, n: nat)
    requires HEADERS + 2 <= pduLength && AtChunk(data, offset, k, first, pduLength) && offset < |data|
    requires n == ChunkSize(|data| - offset, first, pduLength)
    ensures
      var chunks := Cut(data, true, pduLength);
      && k < |chunks| && offset + n <= |data| && chunks[k] == data[offset..offset + n]
      && AtChunk(data, offset + n, k + 1, false, pduLength) && (k == |chunks| - 1 <==> offset + n == |data|)
  {
    hide Cut;
    var rest := data[offset..];
    CutStep(rest, first, pduLength, n);
    DropTake(data, offset, n);
    DropHead(Cut(data, true, pduLength), k, Cut(rest, first, pduLength));
  }

  lemma DropTake<T>(s: seq<T>, o: nat, n: nat)
    requires o + n <= |s|
    ensures s[o..][..n] == s[o..o + n] && s[o..][n..] == s[o + n..]
  {
  }

  lemma DropHead<T>(s: seq<T>, k: nat, rest: seq<T>)
    requires k <= |s| && s[k..] == rest && rest != []
    ensures k < |s| && s[k] == rest[0] && s[k + 1..] == rest[1..] && (k == |s| - 1 <==> |rest| == 1)
  {
  }

  lemma AllCut(data: seq<byte>, offset: nat, k: nat, first: bool, pduLength: int)
    requires HEADERS + 2 <= pduLength && AtChunk(data, offset, k, first, pduLength)
    ensures offset == |data| ==> k == |Cut(data, true, pduLength)|
  {
  }

  function ErrorOf(r: Response): Error {
    if !r.exchanged then SendingBlock else if r.err != 0 then SendRefused else NoError
  }

  class TSnap7Partner {
    var pduLength: int
    var linked: bool
    var sendPending: bool
    var nextByte: byte
    var cntword: word
    var lastError: Error
    const txData: array<byte>
    var txSize: nat
    var txRid: longword
    var bytesSent: longword
    const rxBuffer: array<byte>
    var recvPending: bool
    var first: bool
    var done: bool
    var offset: nat
    var totalLength: nat
    var inRid: longword
    var seqOut: byte
    var delivered: seq<Delivery>

    ghost predicate Valid()
      reads this
    {
      && HEADERS + 2 <= pduLength < 0x1_0000 && nextByte < 255
      && txData.Length == BLOCKMAX && txSize <= BLOCKMAX && rxBuffer.Length == RXROOM && txData != rxBuffer
    }

    /** The block to send. */
    ghost function Block(): seq<byte>
      reads this, txData
      requires Valid()
    {
      txData[..txSize]
    }

    ghost function Received(): RecvState
      reads this, rxBuffer
    {
      RecvState(recvPending, offset, totalLength, inRid, rxBuffer[..], delivered)
    }

    constructor (pduLength: int)
      requires HEADERS + 2 <= pduLength < 0x1_0000
      ensures Valid() && Idle(Received()) && this.pduLength == pduLength && !linked && !sendPending && !first
        && delivered == []
      ensures fresh(txData) && fresh(rxBuffer)
    {
      this.pduLength := pduLength;
      linked, sendPending, nextByte, cntword, lastError := false, false, 0, 0, NoError;
      txData := new byte[BLOCKMAX];
      rxBuffer := new byte[RXROOM];
      txSize, txRid, bytesSent := 0, 0, 0;
      recvPending, first, done, offset, totalLength, inRid, seqOut, delivered := false, false, false, 0, 0, 0, 0, [];
    }

    method GetNextByte() returns (b: byte)
      requires Valid()
      modifies this`nextByte
      ensures Valid() && b == nextByte == NextId(old(nextByte))
    {
      nextByte := nextByte + 1;
      if nextByte == 0xFF {
        nextByte := 1;
      }
      b := nextByte;
    }

    method GetNextWord() returns (w: word)
      modifies this`cntword
      ensures w == (if old(cntword) == 0xFFFF then 0 else old(cntword)) && cntword == w + 1
    {
      if cntword == 0xFFFF {
        cntword := 0;
      }
      w := cntword;
      cntword := cntword + 1;
    }

    /** Takes a block for sending, unless one is under way. */
    method AsBSend(rid: longword, data: seq<byte>) returns (accepted: bool)
      requires Valid() && |data| <= BLOCKMAX
      modifies this`txRid, this`txSize, this`sendPending, txData
      ensures Valid() && accepted == (linked && !old(sendPending))
      ensures accepted ==> Block() == data && txRid == rid && sendPending
      ensures !accepted ==>
        txData[..] == old(txData[..]) && txSize == old(txSize) && txRid == old(txRid) && sendPending == old(sendPending)
      ensures Received() == old(Received())
    {
      accepted := linked && !sendPending;
      if accepted {
        for i := 0 to |data|
          invariant txData[..i] == data[..i]
        {
          txData[i] := data[i];
        }
        txRid, txSize := rid, |data|;
        sendPending := true;
      }
    }

    /** Makes up slice `k` from `n` bytes of the block. */
    method MakeSlice(offset: nat, n: nat, first: bool, last: bool, seqIn: byte, ghost id: byte, ghost k: nat)
        returns (p: PDU)
      requires Valid() && offset + n <= txSize && k < |Cut(Block(), true, pduLength)|
      requires Cut(Block(), true, pduLength)[k] == Block()[offset..offset + n] && first == (k == 0)
      requires last == (k == |Cut(Block(), true, pduLength)| - 1)
      requires nextByte == IdAfter(id, if |Cut(Block(), true, pduLength)| == 1 then 0 else k)
      modifies this`nextByte, this`cntword
      ensures Valid() && p.bsend && p.seqIn == seqIn && p.slice == SliceAt(Block(), txRid, pduLength, id, k)
      ensures nextByte == IdAfter(id, if |Cut(Block(), true, pduLength)| == 1 then 0 else k + 1)
    {
      hide Cut, IdAfter, SliceAt, BigEndian;
      NextIdAfter(id, k);
      var source := txData[offset..offset + n];
      assert source == Block()[offset..offset + n];
      var sequence := GetNextWord();
      var eos := if last then 0 else 1;
      var idSeq := 0;
      if !(first && last) {
        idSeq := GetNextByte();
      }
      var extra := if first then 2 else 0;
      var payload := if first then BigEndian(txSize % 0x1_0000) + source else source;
      var s := Slice(eos, idSeq, (n + 8 + extra) % 0x1_0000, (DATASIZE + n + extra) % 0x1_0000, txRid, payload);
      SliceIs(Block(), txRid, pduLength, id, k, s, last);
      p := PDU(sequence, seqIn, true, s);
    }

    /** The next slice while sending. */
    method NextSlice(offset: nat, n: nat, first: bool, last: bool, seqIn: byte,
                     ghost id: byte, ghost sent: seq<PDU>, ghost peer: nat -> Response) returns (p: PDU)
      requires Valid() && Sending(Block(), txRid, pduLength, id, offset, first, nextByte, sent, peer, NoError, seqIn)
        && offset < txSize
      requires n == ChunkSize(txSize - offset, first, pduLength) && last == (offset + n == txSize)
      modifies this`nextByte, this`cntword
      ensures Valid()
      ensures Sending(Block(), txRid, pduLength, id, offset + n, false, nextByte, sent + [p], peer,
                      ErrorOf(peer(|sent|)), peer(|sent|).seqOut)
    {
      hide Cut, AtChunk, Carries, Exchanged, SliceAt, IdAfter, ChunkSize;
      CutAt(Block(), offset, |sent|, first, pduLength, n);
      p := MakeSlice(offset, n, first, last, seqIn, id, |sent|);
      SentMore(sent, p, Block(), txRid, pduLength, id, peer, seqIn);
    }

    /** Sends the block slice by slice; `peer(k)` is what the exchange of slice `k` comes to. */
    method BlockSend(peer: nat -> Response) returns (ok: bool, sent: seq<PDU>)
      requires Valid()
      modifies this`lastError, this`nextByte, this`cntword, this`bytesSent
      ensures Valid() && ok == (lastError == NoError)
      ensures Carries(sent, Block(), txRid, pduLength, old(nextByte))
      ensures exists seqIn :: Exchanged(sent, peer, lastError, seqIn)
      ensures ok <==> AllWell(peer, |sent|)
      ensures !ok ==>
        && sent != [] && AllWell(peer, |sent| - 1)
        && lastError == if peer(|sent| - 1).exchanged then SendRefused else SendingBlock
      ensures ok ==> |sent| == |Cut(Block(), true, pduLength)|
      ensures bytesSent == if ok then (old(bytesSent) + txSize) % 0x1_0000_0000 else old(bytesSent)
    {
      lastError := NoError;
      sent := [];
      var totalSize, offset, first, seqIn := txSize, 0, true, 0;
      var maxSlice := pduLength - HEADERS - 2;
      ghost var data, id := Block(), nextByte;
      NothingSent(data, txRid, pduLength, id, peer);
      hide Cut, ErrorOf, Exchanged, Carries, Sending, AllWell;
      while totalSize > 0 && lastError == NoError
        invariant Valid() && bytesSent == old(bytesSent)
        invariant 0 <= totalSize && totalSize + offset == txSize
          && maxSlice == pduLength - HEADERS - if first then 2 else 0
        invariant Sending(data, txRid, pduLength, id, offset, first, nextByte, sent, peer, lastError, seqIn)
        decreases totalSize, first
      {
        var slice := totalSize;
        if slice > maxSlice {
          slice := maxSlice;
        }
        totalSize := totalSize - slice;
        var p := NextSlice(offset, slice, first, totalSize == 0, seqIn, id, sent, peer);
        offset := offset + slice;
        var r := peer(|sent|);
        sent := sent + [p];
        lastError := ErrorOf(r);
        seqIn := r.seqOut;
        if first {
          first := false;
          maxSlice := maxSlice + 2;
        }
      }
      Sent(data, txRid, pduLength, id, offset, first, nextByte, sent, peer, lastError, seqIn);
      ExchangeTells(sent, peer, lastError, seqIn);
      if lastError == NoError {
        bytesSent := (bytesSent + txSize) % 0x1_0000_0000;
      }
      ok := lastError == NoError;
    }

    method ClearRecv()
      modifies this`first, this`done, this`offset, this`totalLength, this`inRid, this`seqOut, this`recvPending
      ensures !first && !done && !recvPending && offset == 0 && totalLength == 0 && inRid == 0
    {
      first, done, offset, totalLength, inRid, seqOut := false, false, 0, 0, 0, 0;
      recvPending := false;
    }

    /** Copies the bytes of a slice behind those already received; `answered` tells whether the answer goes out. */
    method PickData(p: PDU, answered: bool) returns (ok: bool)
      requires Valid() && (p.bsend ==> Fits(p, first, offset, rxBuffer.Length))
      modifies this`lastError, this`totalLength, this`inRid, this`offset, this`done, rxBuffer
      ensures ok == (p.bsend && answered)
        && lastError == (if !p.bsend then InvalidPDU else if answered then NoError else RecvingBlock)
      ensures !p.bsend ==> rxBuffer[..] == old(rxBuffer[..])
      ensures p.bsend ==>
        var bytes := if first then p.slice.payload[2..][..Taken(p, first)] else p.slice.payload[..Taken(p, first)];
        var at := if first then 0 else old(offset);
        && rxBuffer[..] == Spliced(old(rxBuffer[..]), at, bytes) && offset == at + |bytes| && done == (p.slice.eos == 0)
        && totalLength == (if first then Joined(p.slice.payload[0], p.slice.payload[1]) else old(totalLength))
        && inRid == (if first then p.slice.rid else old(inRid))
    {
      lastError := NoError;
      if !p.bsend {
        lastError := InvalidPDU;
        return false;
      }
      ghost var room := rxBuffer[..];
      var source, slice := p.slice.payload, Taken(p, first);
      if first {
        totalLength := Joined(source[0], source[1]);
        source := source[2..];
        inRid := p.slice.rid;
        offset := 0;
      }
      done := p.slice.eos == 0;
      CopyIn(offset, source, slice);
      offset := offset + slice;
      if !answered {
        lastError := RecvingBlock;
      }
      ok := lastError == NoError;
    }

    method CopyIn(target: nat, source: seq<byte>, n: nat)
      requires n <= |source| && target + n <= rxBuffer.Length
      modifies rxBuffer
      ensures rxBuffer[..] == Spliced(old(rxBuffer[..]), target, source[..n])
    {
      for i := 0 to n
        invariant rxBuffer[..target] == old(rxBuffer[..target]) && rxBuffer[target..target + i] == source[..i]
        invariant rxBuffer[target + i..] == old(rxBuffer[target + i..])
      {
        rxBuffer[target + i] := source[i];
      }
    }

    /** Takes one PDU of a block; after the last one, or on an error, reports to the user. */
    method BlockRecv(p: PDU, answered: bool) returns (ok: bool)
      requires Valid() && !first && (p.bsend ==> Fits(p, !recvPending, offset, rxBuffer.Length))
      modifies this`lastError, this`totalLength, this`inRid, this`offset, this`done, this`first, this`recvPending,
          this`seqOut, this`nextByte
      modifies this`delivered, rxBuffer
      ensures Valid() && !first && ok == (p.bsend && answered)
      ensures Received() == Receive(old(Received()), p, answered)
    {
      if !recvPending {
        seqOut := GetNextByte();
        recvPending, first, done := true, true, false;
      }
      ok := PickData(p, answered);
      first := false;
      if !ok || done {
        var error, rid, size := lastError, 0, 0;
        if ok {
          rid, size := inRid, totalLength;
        }
        var data := if size <= rxBuffer.Length then rxBuffer[..size] else rxBuffer[..];
        delivered := delivered + [Delivery(error, rid, size, data)];
        ClearRecv();
      }
    }
  }

  /**
   In the middle of sending: `offset` bytes are gone in the slices `sent`, and the next slice is the first one or
   not.
   */
  ghost predicate Sending(data: seq<byte>, rid: longword, pduLength: int, id: byte, offset: nat, first: bool,
                          nextByte: byte,
                          sent: seq<PDU>, peer: nat -> Response, error: Error, seqIn: byte) {
    && HEADERS + 2 <= pduLength < 0x1_0000 && first == (sent == [])
    && AtChunk(data, offset, |sent|, first, pduLength)
    && nextByte == IdAfter(id, if |Cut(data, true, pduLength)| == 1 then 0 else |sent|)
    && Carries(sent, data, rid, pduLength, id) && Exchanged(sent, peer, error, seqIn)
  }

  /**
   Every slice went out after the one before was answered well, repeating the number of that answer; the last one may
   have failed.
   */
  ghost predicate Exchanged(sent: seq<PDU>, peer: nat -> Response, error: Error, seqIn: byte) {
    && (forall k :: 0 <= k < |sent| ==> sent[k].seqIn == if k == 0 then 0 else peer(k - 1).seqOut)
    && (forall k :: 0 <= k < |sent| - 1 ==> ErrorOf(peer(k)) == NoError)
    && (sent == [] ==> error == NoError && seqIn == 0)
    && (sent != [] ==> error == ErrorOf(peer(|sent| - 1)) && seqIn == peer(|sent| - 1).seqOut)
  }

  /** The first `n` slices were exchanged and not refused. */
  ghost predicate AllWell(peer: nat -> Response, n: nat) {
    forall k :: 0 <= k < n ==> peer(k).exchanged && peer(k).err == 0
  }

  /** What the exchanges say of the whole transfer. */
  lemma ExchangeTells(sent: seq<PDU>, peer: nat -> Response, error: Error, seqIn: byte)
    requires Exchanged(sent, peer, error, seqIn)
    ensures error == NoError <==> AllWell(peer, |sent|)
    ensures error != NoError ==>
      && sent != [] && AllWell(peer, |sent| - 1)
      && error == if peer(|sent| - 1).exchanged then SendRefused else SendingBlock
  {
  }

  lemma NothingSent(data: seq<byte>, rid: longword, pduLength: int, id: byte, peer: nat -> Response)
    requires HEADERS + 2 <= pduLength < 0x1_0000
    ensures Sending(data, rid, pduLength, id, 0, true, id, [], peer, NoError, 0)
  {
    assert data[0..] == data;
  }

  lemma Sent(data: seq<byte>, rid: longword, pduLength: int, id: byte, offset: nat, first: bool, nextByte: byte,
             sent: seq<PDU>, peer: nat -> Response, error: Error, seqIn: byte)
    requires Sending(data, rid, pduLength, id, offset, first, nextByte, sent, peer, error, seqIn)
    ensures Carries(sent, data, rid, pduLength, id) && Exchanged(sent, peer, error, seqIn)
    ensures offset == |data| ==> |sent| == |Cut(data, true, pduLength)|
  {
    AllCut(data, offset, |sent|, first, pduLength);
  }

  lemma SentMore(sent: seq<PDU>, p: PDU, data: seq<byte>, rid: longword, pduLength: int, id: byte,
                 peer: nat -> Response, seqIn: byte)
    requires HEADERS + 2 <= pduLength < 0x1_0000 && Carries(sent, data, rid, pduLength, id)
      && Exchanged(sent, peer, NoError, seqIn)
    requires |sent| < |Cut(data, true, pduLength)| && p.bsend && p.slice == SliceAt(data, rid, pduLength, id, |sent|)
      && p.seqIn == seqIn
    ensures Carries(sent + [p], data, rid, pduLength, id)
    ensures Exchanged(sent + [p], peer, ErrorOf(peer(|sent|)), peer(|sent|).seqOut)
  {
  }

  /** What a completed transfer brings about: the PDUs of a successful send, each received and answered. */
  lemma SentBlockArrives(s: RecvState, sent: seq<PDU>, data: seq<byte>, rid: longword, pduLength: int, id: byte)
    requires HEADERS + 2 <= pduLength < 0x1_0000 && 0 < |data| < BLOCKMAX && Idle(s)
    requires Carries(sent, data, rid, pduLength, id) && |sent| == |Cut(data, true, pduLength)|
    ensures ReceiveAll(s, sent).Some?
    ensures ReceiveAll(s, sent).value.delivered == s.delivered + [Delivery(NoError, rid, |data|, data)]
    ensures forall k :: 0 <= k < |sent| ==>
      IsoSize(sent[k]) <= pduLength && (sent[k].slice.eos == 0 <==> k == |sent| - 1)
    ensures Idle(ReceiveAll(s, sent).value)
  {
    hide Cut, SliceAt, ReceiveAll;
    BlockArrivesIff(s, sent, data, rid, pduLength, id);
    forall k | 0 <= k < |sent| ensures IsoSize(sent[k]) <= pduLength && (sent[k].slice.eos == 0 <==> k == |sent| - 1) {
      EndIsLast(data, rid, pduLength, id, k);
    }
  }
}
