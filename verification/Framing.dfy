/** Messages over a byte stream: a 16-byte header with the length in bytes 8..12, then the message. */
module Framing {
  import opened Wrappers
  import opened Bytes

  const HEADER := 16

  const TWO32 := 0x1_0000_0000

  /** A frame as writeMsg sends it; the other header bytes are whatever the pooled header holds. */
  function Frame(header: bytes, msg: bytes): bytes
    requires |header| == HEADER
  {
    header[..8] + BigEndian(|msg| % TWO32, 4) + header[12..] + msg
  }

  function Stream(headers: seq<bytes>, msgs: seq<bytes>): bytes
    requires |headers| == |msgs| && forall i | 0 <= i < |headers| :: |headers[i]| == HEADER
  {
    if msgs == [] then [] else Frame(headers[0], msgs[0]) + Stream(headers[1..], msgs[1..])
  }

  /** The first message of a stream and what follows it. */
  function Unframe(s: bytes): (r: Option<(bytes, bytes)>)
    ensures r.Some? ==> |r.value.1| < |s|
  {
    if |s| < HEADER then None
    else
      var n := FromBigEndian(s[8..12]);
      if |s| < HEADER + n then None else Some((s[HEADER..HEADER + n], s[HEADER + n..]))
  }

  function Messages(s: bytes): seq<bytes>
    decreases |s|
  {
    if Unframe(s).None? then [] else [Unframe(s).value.0] + Messages(Unframe(s).value.1)
  }

  /** A framed message is found again, with everything behind it, exactly when its length fits 32 bits. */
  lemma {:induction false} UnframeFrame(header: bytes, msg: bytes, rest: bytes)
    requires |header| == HEADER
    ensures Unframe(Frame(header, msg) + rest) == Some((msg, rest)) <==> |msg| < TWO32
  {
    var s := Frame(header, msg) + rest;
    Pow256Values();
    BigEndianRoundTrip(|msg| % TWO32, 4);
    assert s[8..12] == BigEndian(|msg| % TWO32, 4);
    if |msg| < TWO32 {
      assert s[HEADER..HEADER + |msg|] == msg && s[HEADER + |msg|..] == rest;
    }
  }

  /** The 16 bytes in front of a message: its length in the third four, and the rest of the pooled header. */
  lemma {:induction false} FrameLayout(header: bytes, msg: bytes)
    requires |header| == HEADER
    ensures var s := Frame(header, msg);
      && |header| == 16 && |s| == 16 + |msg| && s[16..] == msg
      && s[..8] == header[..8] && s[12..16] == header[12..]
      && FromBigEndian(s[8..12]) == |msg| % 0x1_0000_0000
  {
    var s := Frame(header, msg);
    Pow256Values();
    BigEndianRoundTrip(|msg| % TWO32, 4);
    assert s[8..12] == BigEndian(|msg| % TWO32, 4);
  }

  /** Whatever the pooled headers hold, the messages of a stream are recovered exactly and in order. */
  lemma {:induction false} StreamRoundTrip(headers: seq<bytes>, msgs: seq<bytes>)
    requires |headers| == |msgs| && forall i | 0 <= i < |headers| :: |headers[i]| == HEADER
    requires forall i | 0 <= i < |msgs| :: |msgs[i]| < TWO32
    ensures Messages(Stream(headers, msgs)) == msgs
  {
    if msgs != [] {
      UnframeFrame(headers[0], msgs[0], Stream(headers[1..], msgs[1..]));
      StreamRoundTrip(headers[1..], msgs[1..]);
    }
  }

  // ---------------------------------------------------------------- writing

  /** The buffered writer; what is flushed reaches the other side in this order. */
  class Writer {
    var sent: bytes
    const size: nat

    constructor (size: nat)
      requires size > 0
      ensures sent == [] && this.size == size
    {
      sent, this.size := [], size;
    }

    method Write(p: bytes)
      modifies this
      ensures sent == old(sent) + p
    {
      sent := sent + p;
    }
  }

  method WriteMsgHeader(w: Writer, header: array<byte>, dataLen: nat)
    requires header.Length == HEADER
    modifies w, header
    ensures header[..] == old(header[..8]) + BigEndian(dataLen % TWO32, 4) + old(header[12..])
    ensures w.sent == old(w.sent) + header[..]
  {
    var n := BigEndian(dataLen % TWO32, 4);
    header[8], header[9], header[10], header[11] := n[0], n[1], n[2], n[3];
    w.Write(header[..]);
  }

  function Min(a: nat, b: nat): nat { if a < b then a else b }

  /** In chunks of the writer's size; the last one is empty if the size divides the length. */
  method WriteMsgData(w: Writer, msg: bytes, writerSize: nat)
    requires writerSize > 0
    modifies w
    ensures w.sent == old(w.sent) + msg
  {
    hide ChunkStart;
    var last := |msg| / writerSize;
    var i := 0;
    ghost var end := 0;
    FirstChunk(|msg|, writerSize);
    while i <= last
      invariant i <= last + 1
      invariant end == ChunkStart(i, |msg|, writerSize) <= |msg|
      invariant i == last + 1 ==> end == |msg|
      invariant w.sent == old(w.sent) + msg[..end]
    {
      Chunks(i, |msg|, writerSize);
      var from := i * writerSize;
      var x := from + writerSize;
      if x > |msg| {
        x := |msg|;
      }
      w.Write(msg[from..x]);
      assert msg[..end] + msg[end..x] == msg[..x];
      i, end := i + 1, x;
    }
    assert msg[..|msg|] == msg;
  }

  lemma {:induction false} FirstChunk(n: nat, size: nat)
    requires size > 0
    ensures ChunkStart(0, n, size) == 0 <= n / size
  {
  }

  /** Where chunk i of n bytes starts; behind the last chunk this is n. */
  function ChunkStart(i: nat, n: nat, size: nat): (k: nat)
    ensures k <= n
  {
    Min(i * size, n)
  }

  lemma {:induction false} Chunks(i: nat, n: nat, size: nat)
    requires size > 0 && i <= n / size
    ensures i * size == ChunkStart(i, n, size)
    ensures ChunkStart(i + 1, n, size) == Min(i * size + size, n)
    ensures i == n / size ==> ChunkStart(i + 1, n, size) == n
  {
    QuotientBounds(n, size);
    Monotone(i, n / size, size);
    OneMore(i, size);
  }

  lemma {:induction false} QuotientBounds(n: nat, size: nat)
    requires size > 0
    ensures n / size * size <= n < n / size * size + size
  {
  }

  lemma {:induction false} Monotone(a: nat, b: nat, size: nat)
    requires a <= b
    ensures a * size <= b * size
  {
  }

  lemma {:induction false} OneMore(i: nat, size: nat)
    ensures (i + 1) * size == i * size + size
  {
  }

  method WriteMsg(w: Writer, header: array<byte>, msg: bytes)
    requires header.Length == HEADER && w.size > 0
    modifies w, header
    ensures w.sent == old(w.sent) + Frame(old(header[..]), msg)
  {
    WriteMsgHeader(w, header, |msg|);
    WriteMsgData(w, msg, w.size);
  }

  // ---------------------------------------------------------------- reading

  /** The connection's reader: everything that will still arrive, handed out in pieces of any size. */
  class Reader {
    var pending: bytes

    constructor (pending: bytes)
      ensures this.pending == pending
    {
      this.pending := pending;
    }

    /** Fills some of p[from..to]: at least one byte unless there is no room, and an error at the end. */
    method Read(p: array<byte>, from: nat, to: nat) returns (n: Option<nat>)
      requires from <= to <= p.Length
      modifies this, p
      ensures n.None? <==> from < to && old(pending) == []
      ensures n.None? ==> pending == old(pending) && p[..] == old(p[..])
      ensures n.Some? ==>
        && (from < to ==> 0 < n.value)
        && n.value <= to - from && n.value <= |old(pending)|
        && pending == old(pending)[n.value..]
        && p[..from + n.value] == old(p[..from]) + old(pending)[..n.value]
        && p[from + n.value..] == old(p[from + n.value..])
    {
      if from < to && pending == [] {
        return None;
      }
      var limit := Min(to - from, |pending|);
      var got: nat :| got <= limit && (limit > 0 ==> got > 0);
      var i := 0;
      while i < got
        invariant i <= got
        invariant pending == old(pending)
        invariant p[..from + i] == old(p[..from]) + pending[..i]
        invariant p[from + i..] == old(p[from + i..])
      {
        p[from + i] := pending[i];
        i := i + 1;
      }
      pending := pending[got..];
      return Some(got);
    }
  }

  /** io.ReadAtLeast for the whole header; the length of the message, or None at the end of the stream. */
  method ReadMsgHeader(r: Reader, header: array<byte>) returns (dataLen: Option<nat>)
    requires header.Length == HEADER
    modifies r, header
    ensures dataLen.None? <==> |old(r.pending)| < HEADER
    ensures dataLen.Some? ==> dataLen.value == FromBigEndian(old(r.pending)[8..12])
    ensures dataLen.Some? ==> r.pending == old(r.pending)[HEADER..]
  {
    ghost var s := r.pending;
    var n := 0;
    while n < HEADER
      invariant n <= HEADER && n <= |s|
      invariant r.pending == s[n..]
      invariant header[..n] == s[..n]
    {
      var nn := r.Read(header, n, HEADER);
      if nn.None? {
        return None;
      }
      Prefix(s, n, nn.value);
      n := n + nn.value;
    }
    assert header[8..12] == header[..HEADER][8..12] == s[..HEADER][8..12] == s[8..12];
    return Some(FromBigEndian(header[8..12]));
  }

  lemma {:induction false} Prefix(s: bytes, n: nat, m: nat)
    requires n + m <= |s|
    ensures s[..n] + s[n..][..m] == s[..n + m] && s[n..][m..] == s[n + m..]
  {
  }

  /** The message lands in buf if it fits and in a new array otherwise; None at the end of the stream. */
  method ReadMsgData(r: Reader, buf: array<byte>, dataLen: nat) returns (msg: Option<array<byte>>)
    modifies r, buf
    ensures msg.None? <==> |old(r.pending)| < dataLen
    ensures msg.Some? ==>
      && (if dataLen <= buf.Length then msg.value == buf else fresh(msg.value))
      && dataLen <= msg.value.Length
      && msg.value[..dataLen] == old(r.pending)[..dataLen]
      && r.pending == old(r.pending)[dataLen..]
  {
    ghost var s := r.pending;
    var data := buf;
    if buf.Length < dataLen {
      data := new byte[dataLen](_ => 0);
    }
    var n := r.Read(data, 0, dataLen);
    if n.None? {
      return None;
    }
    var got := n.value;
    var remain := dataLen - got;
    while remain > 0
      invariant 0 <= remain <= dataLen && got == dataLen - remain <= |s|
      invariant r.pending == s[got..]
      invariant data[..got] == s[..got]
    {
      var nbytes := r.Read(data, got, dataLen);
      if nbytes.None? {
        return None;
      }
      Prefix(s, got, nbytes.value);
      got := got + nbytes.value;
      remain := remain - nbytes.value;
    }
    return Some(data);
  }

  method ReadMsg(r: Reader, header: array<byte>, buf: array<byte>) returns (msg: Option<(array<byte>, nat)>)
    requires header.Length == HEADER && header != buf
    modifies r, header, buf
    ensures msg.None? <==> Unframe(old(r.pending)).None?
    ensures msg.Some? ==>
      var (data, n) := msg.value;
      && n <= data.Length && Unframe(old(r.pending)) == Some((data[..n], r.pending))
      && (if n <= buf.Length then data == buf else fresh(data))
  {
    var msgLen := ReadMsgHeader(r, header);
    if msgLen.None? {
      return None;
    }
    ghost var s := old(r.pending);
    var data := ReadMsgData(r, buf, msgLen.value);
    if data.None? {
      return None;
    }
    assert s[HEADER..][..msgLen.value] == s[HEADER..HEADER + msgLen.value];
    assert s[HEADER..][msgLen.value..] == s[HEADER + msgLen.value..];
    return Some((data.value, msgLen.value));
  }

  /**
   readerLoop, with the copy that msgCallback makes of each message: the queued replies hold all
   messages of the stream, although later messages overwrite the buffer earlier ones were read into.
   */
  method ReaderLoop(r: Reader, header: array<byte>, buf: array<byte>) returns (replies: seq<array<byte>>)
    requires header.Length == HEADER && header != buf
    modifies r, header, buf
    ensures |replies| == |Messages(old(r.pending))|
    ensures forall i | 0 <= i < |replies| :: fresh(replies[i]) && replies[i][..] == Messages(old(r.pending))[i]
  {
    replies := [];
    ghost var done: seq<bytes> := [];
    assert [] + Messages(r.pending) == Messages(r.pending);
    while true
      invariant done + Messages(r.pending) == Messages(old(r.pending))
      invariant |replies| == |done|
      invariant forall i | 0 <= i < |replies| :: fresh(replies[i]) && replies[i][..] == done[i]
      decreases |r.pending|
    {
      ghost var was := r.pending;
      var msg := ReadMsg(r, header, buf);
      if msg.None? {
        assert done + [] == done;
        return;
      }
      var (data, n) := msg.value;
      var reply := new byte[n](i requires 0 <= i < n reads data => data[i]);
      assert reply[..] == data[..n];
      assert done + ([reply[..]] + Messages(r.pending)) == (done + [reply[..]]) + Messages(r.pending);
      done := done + [reply[..]];
      replies := replies + [reply];
    }
  }

  /** From writer to queued replies: every list of messages arrives, under every split into short reads. */
  method SendAndReceive(w: Writer, header: array<byte>, msgs: seq<bytes>, readHeader: array<byte>, buf: array<byte>)
    returns (replies: seq<array<byte>>)
    requires w.size > 0 && w.sent == []
    requires header.Length == readHeader.Length == HEADER && readHeader != buf
    requires forall i | 0 <= i < |msgs| :: |msgs[i]| < TWO32
    modifies w, header, readHeader, buf
    ensures |replies| == |msgs| && forall i | 0 <= i < |msgs| :: replies[i][..] == msgs[i]
  {
    ghost var headers: seq<bytes> := [];
    for i := 0 to |msgs|
      invariant |headers| == i && forall k | 0 <= k < i :: |headers[k]| == HEADER
      invariant w.sent == Stream(headers, msgs[..i])
    {
      StreamAppend(headers, msgs[..i], header[..], msgs[i]);
      assert msgs[..i + 1] == msgs[..i] + [msgs[i]];
      headers := headers + [header[..]];
      WriteMsg(w, header, msgs[i]);
    }
    assert msgs[..|msgs|] == msgs;
    StreamRoundTrip(headers, msgs);
    var r := new Reader(w.sent);
    replies := ReaderLoop(r, readHeader, buf);
  }

  lemma {:induction false} StreamAppend(headers: seq<bytes>, msgs: seq<bytes>, header: bytes, msg: bytes)
    requires |headers| == |msgs| && |header| == HEADER && forall i | 0 <= i < |headers| :: |headers[i]| == HEADER
    ensures Stream(headers + [header], msgs + [msg]) == Stream(headers, msgs) + Frame(header, msg)
  {
    if msgs == [] {
      assert [] + [msg] == [msg] && [] + [header] == [header];
      assert Stream([header][1..], [msg][1..]) == [];
    } else {
      StreamAppend(headers[1..], msgs[1..], header, msg);
      assert (headers + [header])[1..] == headers[1..] + [header] && (msgs + [msg])[1..] == msgs[1..] + [msg];
    }
  }
}
