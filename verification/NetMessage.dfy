/** Reassembling protocol messages from a byte stream that arrives in arbitrary pieces. */
module NetMessage {

  type Byte = x: nat | x < 256

  const HEADER_SIZE := 24
  const MAX_SIZE := 0x0200_0000

  /** A message being received: header bytes so far, then data bytes so far. */
  datatype Msg = Msg(inData: bool, hdr: seq<Byte>, data: seq<Byte>)

  /** The size field follows four bytes of network magic and twelve of command. */
  function MessageSize(hdr: seq<Byte>): nat
    requires |hdr| == HEADER_SIZE
  {
    LittleEndian(hdr[16], hdr[17], hdr[18], hdr[19])
  }

  function LittleEndian(a: nat, b: nat, c: nat, d: nat): nat {
    a + 0x100 * b + 0x1_0000 * c + 0x100_0000 * d
  }

  predicate Complete(msg: Msg) {
    msg.inData && |msg.hdr| == HEADER_SIZE && |msg.data| == MessageSize(msg.hdr)
  }

  // ---------------------------------------------------------------- what a stream means

  datatype Frames = Frames(queue: seq<Msg>, ok: bool)

  /** Cut a whole stream into messages; the last one may be incomplete or have an oversized header. */
  ghost function Cut(s: seq<Byte>): Frames
    decreases |s|
  {
    if s == [] then Frames([], true)
    else if |s| < HEADER_SIZE then Frames([Msg(false, s, [])], true)
    else
      var hdr := s[..HEADER_SIZE];
      var end := HEADER_SIZE + MessageSize(hdr);
      if MessageSize(hdr) > MAX_SIZE then Frames([Msg(false, hdr, [])], false)
      else if |s| <= end then Frames([Msg(true, hdr, s[HEADER_SIZE..])], true)
      else
        var rest := Cut(s[end..]);
        Frames([Msg(true, hdr, s[HEADER_SIZE..end])] + rest.queue, rest.ok)
  }

  /** A message that has been received in full. */
  ghost predicate Whole(m: Msg) {
    Complete(m) && |m.data| <= MAX_SIZE
  }

  ghost function Raw(m: Msg): seq<Byte> {
    m.hdr + m.data
  }

  /** The bytes of messages one after the other. */
  ghost function Flat(q: seq<Msg>): seq<Byte> {
    if q == [] then [] else Raw(q[0]) + Flat(q[1..])
  }

  lemma CutHead(m: Msg, t: seq<Byte>)
    requires Whole(m)
    ensures Cut(Raw(m) + t) == Frames([m] + Cut(t).queue, Cut(t).ok)
  {
    var s := Raw(m) + t;
    var end := HEADER_SIZE + |m.data|;
    assert s[..HEADER_SIZE] == m.hdr;
    if t == [] {
      assert s[HEADER_SIZE..] == m.data;
    } else {
      assert s[HEADER_SIZE..end] == m.data && s[end..] == t;
    }
  }

  lemma Assoc<T>(a: seq<T>, b: seq<T>, c: seq<T>)
    ensures a + b + c == a + (b + c)
  {
  }

  lemma Prepend<T>(q: seq<T>, r: seq<T>)
    requires q != []
    ensures [q[0]] + (q[1..] + r) == q + r
  {
  }

  /** Whole messages are cut off as they are, whatever follows them. */
  lemma {:induction false} CutFlat(q: seq<Msg>, u: seq<Byte>, c: Frames)
    requires (forall m :: m in q ==> Whole(m)) && c == Cut(u)
    ensures Cut(Flat(q) + u) == Frames(q + c.queue, c.ok)
    decreases |q|
  {
    if q == [] {
      assert Flat(q) + u == u && q + c.queue == c.queue;
    } else {
      CutFlat(q[1..], u, c);
      Assoc(Raw(q[0]), Flat(q[1..]), u);
      CutHead(q[0], Flat(q[1..]) + u);
      Prepend(q, c.queue);
    }
  }

  /** Cutting the bytes of whole messages gives those messages back. */
  lemma CutOfMessages(q: seq<Msg>)
    requires forall m :: m in q ==> Whole(m)
    ensures Cut(Flat(q)) == Frames(q, true)
  {
    CutFlat(q, [], Frames([], true));
    assert Flat(q) + [] == Flat(q) && q + [] == q;
  }

  lemma {:induction false} FlatSnoc(q: seq<Msg>, m: Msg)
    ensures Flat(q + [m]) == Flat(q) + Raw(m)
    decreases |q|
  {
    if q == [] {
      assert q + [m] == [m] && [m][1..] == [];
      assert Raw(m) + [] == Raw(m) == [] + Raw(m);
    } else {
      FlatSnoc(q[1..], m);
      assert (q + [m])[1..] == q[1..] + [m];
      Assoc(Raw(q[0]), Flat(q[1..]), Raw(m));
    }
  }

  // ---------------------------------------------------------------- receiving

  /** A message whose bytes so far are in order. */
  ghost predicate Receiving(m: Msg) {
    if m.inData then |m.hdr| == HEADER_SIZE && |m.data| <= MessageSize(m.hdr) <= MAX_SIZE
    else |m.hdr| < HEADER_SIZE && m.data == []
  }

  lemma CutReceiving(m: Msg)
    requires Receiving(m) && m.hdr != []
    ensures Cut(Raw(m)) == Frames([m], true)
  {
    if m.inData {
      assert Raw(m)[..HEADER_SIZE] == m.hdr && Raw(m)[HEADER_SIZE..] == m.data;
    } else {
      assert Raw(m) == m.hdr;
    }
  }

  predicate Rejected(m: Msg) {
    !m.inData && |m.hdr| == HEADER_SIZE
  }

  /** The state after bytes that start with a header of too large a size. */
  ghost predicate Oversized(u: seq<Byte>, m: Msg) {
    |u| >= HEADER_SIZE && m == Msg(false, u[..HEADER_SIZE], []) && MessageSize(m.hdr) > MAX_SIZE
  }

  /** Copy bytes to the header; a full header opens the data or is refused. Negative means refused. */
  method ReadHeader(msg: Msg, pch: seq<Byte>) returns (handled: int, msg': Msg)
    requires !msg.inData && |msg.hdr| <= HEADER_SIZE && msg.data == [] && pch != []
    ensures Rejected(msg) ==> handled == -1 && msg' == msg
    ensures !Rejected(msg) && handled < 0 ==> Oversized(Raw(msg) + pch, msg')
    ensures handled >= 0 ==> 1 <= handled <= |pch| && Receiving(msg') && Raw(msg') == Raw(msg) + pch[..handled] && msg'.hdr != []
  {
    var nRemaining := HEADER_SIZE - |msg.hdr|;
    var nCopy := if nRemaining <= |pch| then nRemaining else |pch|;
    var hdr := msg.hdr + pch[..nCopy];
    if |hdr| < HEADER_SIZE {
      return nCopy, msg.(hdr := hdr);
    }
    if Rejected(msg) {
      // the header buffer has been read already, and reading it again fails
      return -1, msg;
    }
    if MessageSize(hdr) > MAX_SIZE {
      return -1, msg.(hdr := hdr);
    }
    return nCopy, Msg(true, hdr, []);
  }

  method ReadData(msg: Msg, pch: seq<Byte>) returns (handled: int, msg': Msg)
    requires Receiving(msg) && msg.inData && !Complete(msg) && pch != []
    ensures 1 <= handled <= |pch| && Receiving(msg') && Raw(msg') == Raw(msg) + pch[..handled] && msg'.hdr != []
  {
    var nRemaining := MessageSize(msg.hdr) - |msg.data|;
    var nCopy := if nRemaining <= |pch| then nRemaining else |pch|;
    handled, msg' := nCopy, msg.(data := msg.data + pch[..nCopy]);
  }

  // ---------------------------------------------------------------- the queue of a node

  ghost predicate AllButLastWhole(q: seq<Msg>) {
    forall i :: 0 <= i < |q| - 1 ==> Whole(q[i])
  }

  /** The last message may still be growing. */
  ghost predicate Open(q: seq<Msg>) {
    AllButLastWhole(q) && (q != [] ==> var m := q[|q| - 1]; m.hdr != [] && Receiving(m))
  }

  /** The last message has been refused; everything from its header on is v. */
  ghost predicate Shut(q: seq<Msg>, v: seq<Byte>) {
    q != [] && AllButLastWhole(q) && Oversized(v, q[|q| - 1])
  }

  ghost predicate Refused(q: seq<Msg>) {
    q != [] && Rejected(q[|q| - 1]) && q[|q| - 1].data == []
  }

  lemma FlatLast(q: seq<Msg>)
    requires q != []
    ensures Flat(q) == Flat(q[..|q| - 1]) + Raw(q[|q| - 1])
  {
    FlatSnoc(q[..|q| - 1], q[|q| - 1]);
    assert q == q[..|q| - 1] + [q[|q| - 1]];
  }

  /** The queue of an open node is the stream so far cut into messages. */
  lemma CutOpen(q: seq<Msg>)
    requires Open(q)
    ensures Cut(Flat(q)) == Frames(q, true)
  {
    if q != [] {
      var p, m := q[..|q| - 1], q[|q| - 1];
      FlatLast(q);
      CutReceiving(m);
      CutFlat(p, Raw(m), Frames([m], true));
      assert p + [m] == q;
    }
  }

  lemma CutShut(q: seq<Msg>, v: seq<Byte>)
    requires Shut(q, v)
    ensures Cut(Flat(q[..|q| - 1]) + v) == Frames(q, false)
  {
    var p, m := q[..|q| - 1], q[|q| - 1];
    assert Cut(v) == Frames([m], false);
    CutFlat(p, v, Frames([m], false));
    assert p + [m] == q;
  }

  class Node {
    var vRecvMsg: seq<Msg>
    /** Every byte received so far. */
    ghost var stream: seq<Byte>

    ghost predicate Valid()
      reads this
    {
      || (Open(vRecvMsg) && stream == Flat(vRecvMsg))
      || (exists v :: Shut(vRecvMsg, v) && stream == Flat(vRecvMsg[..|vRecvMsg| - 1]) + v)
    }

    constructor ()
      ensures Valid() && vRecvMsg == [] && stream == []
    {
      vRecvMsg, stream := [], [];
    }

    lemma Meaning()
      requires Valid()
      ensures Cut(stream) == Frames(vRecvMsg, Open(vRecvMsg))
    {
      if Open(vRecvMsg) {
        CutOpen(vRecvMsg);
        forall v | Shut(vRecvMsg, v) && stream == Flat(vRecvMsg[..|vRecvMsg| - 1]) + v ensures Cut(stream).queue == vRecvMsg {
          CutShut(vRecvMsg, v);
        }
      } else {
        var v :| Shut(vRecvMsg, v) && stream == Flat(vRecvMsg[..|vRecvMsg| - 1]) + v;
        CutShut(vRecvMsg, v);
      }
    }

    /** One turn of the receive loop: absorb at least one byte, or refuse the message. */
    method Absorb(pch: seq<Byte>) returns (handled: int, ghost v: seq<Byte>)
      requires pch != [] && (Open(vRecvMsg) || Refused(vRecvMsg))
      modifies `vRecvMsg
      ensures old(Refused(vRecvMsg)) ==> handled < 0 && vRecvMsg == old(vRecvMsg)
      ensures handled >= 0 ==> 1 <= handled <= |pch| && Open(vRecvMsg) && Flat(vRecvMsg) == old(Flat(vRecvMsg)) + pch[..handled]
      ensures handled < 0 && old(Open(vRecvMsg)) ==>
                Shut(vRecvMsg, v) && old(Flat(vRecvMsg)) + pch == Flat(vRecvMsg[..|vRecvMsg| - 1]) + v
    {
      if vRecvMsg == [] || Complete(vRecvMsg[|vRecvMsg| - 1]) {
        FlatSnoc(vRecvMsg, Msg(false, [], []));
        vRecvMsg := vRecvMsg + [Msg(false, [], [])];
        assert Flat(vRecvMsg) == old(Flat(vRecvMsg));
      }
      handled, v := Extend(pch);
    }

    /** Hand bytes to the last message. */
    method Extend(pch: seq<Byte>) returns (handled: int, ghost v: seq<Byte>)
      requires vRecvMsg != [] && pch != [] && !Complete(vRecvMsg[|vRecvMsg| - 1])
      requires Refused(vRecvMsg) || (AllButLastWhole(vRecvMsg) && Receiving(vRecvMsg[|vRecvMsg| - 1]))
      modifies `vRecvMsg
      ensures old(Refused(vRecvMsg)) ==> handled < 0 && vRecvMsg == old(vRecvMsg)
      ensures handled >= 0 ==> 1 <= handled <= |pch| && Open(vRecvMsg) && Flat(vRecvMsg) == old(Flat(vRecvMsg)) + pch[..handled]
      ensures handled < 0 && !old(Refused(vRecvMsg)) ==>
                Shut(vRecvMsg, v) && old(Flat(vRecvMsg)) + pch == Flat(vRecvMsg[..|vRecvMsg| - 1]) + v
    {
      var n := |vRecvMsg| - 1;
      ghost var p := vRecvMsg[..n];
      var msg := vRecvMsg[n];
      FlatLast(vRecvMsg);
      v := Raw(msg) + pch;
      Assoc(Flat(p), Raw(msg), pch);
      ghost var before := Raw(msg);
      if !msg.inData {
        handled, msg := ReadHeader(msg, pch);
      } else {
        handled, msg := ReadData(msg, pch);
      }
      vRecvMsg := vRecvMsg[n := msg];
      assert vRecvMsg[..n] == p;
      FlatLast(vRecvMsg);
      if handled >= 0 {
        Assoc(Flat(p), before, pch[..handled]);
      }
    }

    /** Take in a piece of the stream. */
    method ReceiveMsgBytes(pch: seq<Byte>) returns (ok: bool)
      requires Valid()
      modifies this
      ensures Valid() && stream == old(stream) + pch
      ensures Cut(stream) == Frames(vRecvMsg, Open(vRecvMsg))
      ensures ok <==> pch == [] || Open(vRecvMsg)
      ensures pch == [] || !old(Open(vRecvMsg)) ==> vRecvMsg == old(vRecvMsg)
    {
      ok := Receive(pch);
      Meaning();
    }

    method Receive(pch: seq<Byte>) returns (ok: bool)
      requires Valid()
      modifies this
      ensures Valid() && stream == old(stream) + pch
      ensures ok <==> pch == [] || Open(vRecvMsg)
      ensures pch == [] || !old(Open(vRecvMsg)) ==> vRecvMsg == old(vRecvMsg)
    {
      var rest := pch;
      stream := stream + pch;
      if pch == [] {
        assert stream == old(stream);
      }
      ghost var open := Open(vRecvMsg);
      while rest != []
        invariant stream == old(stream) + pch
        invariant if open then Open(vRecvMsg) && Flat(vRecvMsg) + rest == stream
                  else rest == pch && vRecvMsg == old(vRecvMsg)
        invariant rest == pch ==> vRecvMsg == old(vRecvMsg)
        decreases |rest|
      {
        ghost var flat := Flat(vRecvMsg);
        var handled, v := Absorb(rest);
        if handled < 0 {
          if !open {
            StillShut(old(vRecvMsg), old(stream), pch);
          }
          return false;
        }
        assert rest == rest[..handled] + rest[handled..];
        Assoc(flat, rest[..handled], rest[handled..]);
        rest := rest[handled..];
      }
      assert Flat(vRecvMsg) + [] == Flat(vRecvMsg);
      ok := true;
    }
  }

  /** A refused message stays refused. */
  lemma StillShut(q: seq<Msg>, s: seq<Byte>, pch: seq<Byte>)
    requires exists v :: Shut(q, v) && s == Flat(q[..|q| - 1]) + v
    ensures exists v :: Shut(q, v) && s + pch == Flat(q[..|q| - 1]) + v
  {
    var v :| Shut(q, v) && s == Flat(q[..|q| - 1]) + v;
    Assoc(Flat(q[..|q| - 1]), v, pch);
    assert (v + pch)[..HEADER_SIZE] == v[..HEADER_SIZE];
    assert Shut(q, v + pch);
  }

  /** However a stream is cut into pieces, the queue and the outcome are those of the whole stream. */
  method ReceiveAll(node: Node, pieces: seq<seq<Byte>>) returns (ok: bool)
    requires node.Valid() && Open(node.vRecvMsg)
    modifies node
    ensures node.Valid() && node.stream == old(node.stream) + Concat(pieces)
    ensures Cut(old(node.stream) + Concat(pieces)) == Frames(node.vRecvMsg, ok)
  {
    ok := true;
    for i := 0 to |pieces|
      invariant node.Valid() && node.stream == old(node.stream) + Concat(pieces[..i]) && (ok <==> Open(node.vRecvMsg))
    {
      ConcatSnoc(pieces[..i], pieces[i]);
      assert pieces[..i] + [pieces[i]] == pieces[..i + 1];
      Assoc(old(node.stream), Concat(pieces[..i]), pieces[i]);
      var more := node.ReceiveMsgBytes(pieces[i]);
      ok := ok && more;
    }
    assert pieces[..|pieces|] == pieces;
    node.Meaning();
  }

  ghost function Concat(pieces: seq<seq<Byte>>): seq<Byte> {
    if pieces == [] then [] else pieces[0] + Concat(pieces[1..])
  }

  lemma {:induction false} ConcatSnoc(pieces: seq<seq<Byte>>, p: seq<Byte>)
    ensures Concat(pieces + [p]) == Concat(pieces) + p
    decreases |pieces|
  {
    if pieces == [] {
      assert pieces + [p] == [p] && [p][1..] == [];
      assert p + [] == p == [] + p;
    } else {
      ConcatSnoc(pieces[1..], p);
      assert (pieces + [p])[1..] == pieces[1..] + [p];
      Assoc(pieces[0], Concat(pieces[1..]), p);
    }
  }

  // ---------------------------------------------------------------- sending

  /** A 32-bit number as the bytes in memory, lowest first. */
  function SizeField(n: nat): (field: seq<Byte>)
    ensures |field| == 4
  {
    [n % 0x100, n / 0x100 % 0x100, n / 0x1_0000 % 0x100, n / 0x100_0000 % 0x100]
  }

  /** What a message consists of besides its size. */
  datatype Sending = Sending(start: seq<Byte>, command: seq<Byte>, checksum: seq<Byte>, data: seq<Byte>) {
    ghost predicate Valid() {
      |start| == 4 && |command| == 12 && |checksum| == 4
    }

    /** The header with a given number in the size field. */
    ghost function Header(n: nat): (hdr: seq<Byte>)
      requires Valid()
      ensures |hdr| == 24
    {
      start + command + SizeField(n) + checksum
    }
  }

  /** Write the header with no size and no checksum, then the data, then fill in both. */
  method PushMessage(m: Sending) returns (ssSend: seq<Byte>)
    requires m.Valid()
    ensures ssSend == m.Header(|m.data|) + m.data
  {
    ssSend := m.start + m.command + [0, 0, 0, 0] + [0, 0, 0, 0];
    ssSend := ssSend + m.data;
    ssSend := Patched(ssSend, 16, SizeField(|ssSend| - 24));
    ssSend := Patched(ssSend, 20, m.checksum);
  }

  /** Four bytes are overwritten. */
  function Patched(s: seq<Byte>, offset: nat, field: seq<Byte>): seq<Byte>
    requires offset + 4 <= |s| && |field| == 4
  {
    s[..offset] + field + s[offset + 4..]
  }

  /** A number that fits 32 bits is the one its bytes stand for. */
  lemma FieldValue(n: nat)
    requires n < 0x1_0000_0000
    ensures var f := SizeField(n); LittleEndian(f[0], f[1], f[2], f[3]) == n
  {
    assert n / 0x100 / 0x100 == n / 0x1_0000 && n / 0x1_0000 / 0x100 == n / 0x100_0000;
  }

  lemma HeaderSize(m: Sending, n: nat)
    requires m.Valid() && n < 0x1_0000_0000
    ensures MessageSize(m.Header(n)) == n
  {
    var hdr, f := m.Header(n), SizeField(n);
    assert hdr[16] == f[0] && hdr[17] == f[1] && hdr[18] == f[2] && hdr[19] == f[3];
    FieldValue(n);
  }

  /** What the receiver should hold of a message. */
  ghost function Received(m: Sending): Msg
    requires m.Valid()
  {
    Msg(true, m.Header(|m.data|), m.data)
  }

  ghost predicate AllSendable(ms: seq<Sending>) {
    forall i :: 0 <= i < |ms| ==> ms[i].Valid() && |ms[i].data| <= 0x0200_0000
  }

  /** The bytes of messages, sent one after the other. */
  ghost function StreamOf(ms: seq<Sending>): seq<Byte>
    requires AllSendable(ms)
  {
    if ms == [] then []
    else
      var n := |ms| - 1;
      StreamOf(ms[..n]) + (ms[n].Header(|ms[n].data|) + ms[n].data)
  }

  method PushAll(ms: seq<Sending>) returns (stream: seq<Byte>)
    requires AllSendable(ms)
    ensures stream == StreamOf(ms)
  {
    stream := [];
    for i := 0 to |ms|
      invariant stream == StreamOf(ms[..i])
    {
      var bytes := PushMessage(ms[i]);
      assert ms[..i + 1][..i] == ms[..i];
      stream := stream + bytes;
    }
    assert ms[..|ms|] == ms;
  }

  ghost function ReceivedAll(ms: seq<Sending>): (q: seq<Msg>)
    requires AllSendable(ms)
    ensures |q| == |ms| && forall i :: 0 <= i < |ms| ==> q[i] == Received(ms[i])
  {
    seq(|ms|, i requires 0 <= i < |ms| => Received(ms[i]))
  }

  lemma {:induction false} StreamIsFlat(ms: seq<Sending>)
    requires AllSendable(ms)
    ensures StreamOf(ms) == Flat(ReceivedAll(ms))
  {
    if ms != [] {
      var n := |ms| - 1;
      StreamIsFlat(ms[..n]);
      FlatSnoc(ReceivedAll(ms[..n]), Received(ms[n]));
      assert ReceivedAll(ms) == ReceivedAll(ms[..n]) + [Received(ms[n])];
    }
  }

  /** Messages within the maximum size come out of the stream of their bytes as they went in. */
  lemma SentComesBack(ms: seq<Sending>)
    requires AllSendable(ms)
    ensures Cut(StreamOf(ms)) == Frames(ReceivedAll(ms), true)
    ensures forall i :: 0 <= i < |ms| ==> Complete(ReceivedAll(ms)[i])
  {
    forall i | 0 <= i < |ms| ensures Whole(ReceivedAll(ms)[i]) {
      HeaderSize(ms[i], |ms[i].data|);
    }
    StreamIsFlat(ms);
    CutOfMessages(ReceivedAll(ms));
  }

  /** A header that announces more than the maximum is refused, whatever follows it. */
  lemma TooLargeRefused(m: Sending, n: nat, t: seq<Byte>)
    requires m.Valid() && 0x0200_0000 < n < 0x1_0000_0000
    ensures Cut(m.Header(n) + t) == Frames([Msg(false, m.Header(n), [])], false)
  {
    HeaderSize(m, n);
    assert (m.Header(n) + t)[..24] == m.Header(n);
  }

  /** Messages reach a fresh node through a connection that delivers their bytes in any pieces. */
  method Deliver(ms: seq<Sending>, pieces: seq<seq<Byte>>) returns (node: Node, ok: bool)
    requires AllSendable(ms) && Concat(pieces) == StreamOf(ms)
    ensures fresh(node) && ok && |node.vRecvMsg| == |ms|
    ensures forall i :: 0 <= i < |ms| ==>
              Complete(node.vRecvMsg[i]) && node.vRecvMsg[i] == Msg(true, ms[i].Header(|ms[i].data|), ms[i].data)
  {
    node := new Node();
    ok := ReceiveAll(node, pieces);
    SentComesBack(ms);
    assert [] + Concat(pieces) == Concat(pieces);
  }

  /** The same with a header that announces too much: the answer is no and nothing but the header is kept. */
  method DeliverTooLarge(m: Sending, n: nat, t: seq<Byte>, pieces: seq<seq<Byte>>) returns (node: Node, ok: bool)
    requires m.Valid() && 0x0200_0000 < n < 0x1_0000_0000 && Concat(pieces) == m.Header(n) + t
    ensures fresh(node) && !ok && node.vRecvMsg == [Msg(false, m.Header(n), [])]
  {
    node := new Node();
    ok := ReceiveAll(node, pieces);
    TooLargeRefused(m, n, t);
    assert [] + Concat(pieces) == Concat(pieces);
  }
}
