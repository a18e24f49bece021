// Message framing of the IPC sockets (gps/utils/LocIpc.cpp): a message longer than the datagram
// limit is announced by a length header and sent in chunks.
//
// The channel is a lossless FIFO of whole datagrams from one sender.
module LocIpcFraming {
  type Byte = b: int | 0 <= b < 256
  type Bytes = seq<Byte>

  const SIZE_MAX := 0xffff_ffff_ffff_ffff

  // "$MSGLEN$", and "LocIpc::Sock::ABORT" with its terminating NUL
  const LOC_IPC_HEAD: Bytes := [36, 77, 83, 71, 76, 69, 78, 36]
  const MSG_ABORT: Bytes := [76, 111, 99, 73, 112, 99, 58, 58, 83, 111, 99, 107, 58, 58, 65, 66, 79, 82, 84, 0]

  // ----- Decimal text -----

  // to_string of an unsigned number
  function ToString(n: nat): (s: Bytes)
    ensures s != []
    ensures forall d :: d in s ==> 48 <= d <= 57
  {
    if n < 10 then [48 + n] else ToString(n / 10) + [48 + n % 10]
  }

  predicate IsDigit(b: Byte) { 48 <= b <= 57 }

  predicate IsSpace(b: Byte) { b == 32 || 9 <= b <= 13 }

  // The digits s starts with, read on from acc
  function ScanDigits(s: Bytes, acc: nat): nat {
    if s == [] || !IsDigit(s[0]) then acc else ScanDigits(s[1..], acc * 10 + (s[0] - 48))
  }

  // sscanf("%zu") into a variable that holds 0: blanks, an optional sign, digits, saturating
  function ScanSize(s: Bytes): (n: nat)
    ensures n <= SIZE_MAX
  {
    if s == [] then 0
    else if IsSpace(s[0]) then ScanSize(s[1..])
    else if s[0] == 45 then ScanNegative(s[1..])
    else
      var v := ScanDigits(if s[0] == 43 then s[1..] else s, 0);
      if v > SIZE_MAX then SIZE_MAX else v
  }

  function ScanNegative(s: Bytes): (n: nat)
    ensures n <= SIZE_MAX
  {
    var v := ScanDigits(s, 0);
    if v > SIZE_MAX then SIZE_MAX else if v == 0 then 0 else SIZE_MAX + 1 - v
  }

  // ----- Sending -----

  function Min(a: nat, b: nat): nat {
    if a < b then a else b
  }

  function Header(len: nat): Bytes {
    LOC_IPC_HEAD + ToString(len)
  }

  function Chunks(msg: Bytes, max: nat): seq<Bytes>
    requires 0 < max
  {
    if msg == [] then [] else [msg[..Min(|msg|, max)]] + Chunks(msg[Min(|msg|, max)..], max)
  }

  // The datagrams of one message
  function Fragments(msg: Bytes, max: nat): seq<Bytes>
    requires 0 < max
  {
    if |msg| <= max then [msg] else [Header(|msg|)] + Chunks(msg, max)
  }

  // ----- Receiving -----

  function Zeros(n: nat): (z: Bytes)
    ensures |z| == n && forall i :: 0 <= i < n ==> z[i] == 0
  {
    seq(n, _ => 0)
  }

  // recvfrom into a buffer of size bytes cuts the datagram off
  function Cut(d: Bytes, size: nat): Bytes {
    d[..Min(|d|, size)]
  }

  // The receive buffer as a C string: the zero-filled buffer and its terminator
  function Buffer(d: Bytes, max: nat): Bytes
    requires |d| <= max
  {
    d + Zeros(max - |d|) + [0]
  }

  // strncmp(s, t, |t|) == 0 for a t with no NUL before its last byte, s being NUL-terminated
  predicate StartsWith(s: Bytes, t: Bytes) {
    |t| <= |s| && s[..|t|] == t
  }

  // What one call of recvfrom does to the queue: the messages it hands to the listener, what is
  // left, and whether listening goes on (a positive return value).  Blocked when the queue runs out.
  datatype Received = Got(msgs: seq<Bytes>, rest: seq<Bytes>, goesOn: bool) | Blocked

  function Collect(q: seq<Bytes>, len: nat, got: Bytes): Received
    requires |got| <= len
    decreases |q|
  {
    if |got| == len then Got([got], q, len > 0)
    else if q == [] then Blocked
    else
      var d := Cut(q[0], len - |got|);
      if d == [] then Got([], q[1..], false) else Collect(q[1..], len, got + d)
  }

  function Receive(q: seq<Bytes>, max: nat): Received {
    if q == [] then Blocked
    else
      var d := Cut(q[0], max);
      if d == [] then Got([], q[1..], false)
      else if StartsWith(Buffer(d, max), MSG_ABORT) then Got([], q[1..], false)
      else if !StartsWith(Buffer(d, max), LOC_IPC_HEAD) then Got([d], q[1..], true)
      else Collect(q[1..], ScanSize(Buffer(d, max)[|LOC_IPC_HEAD|..]), [])
  }

  // Everything delivered by receiving until the queue blocks or listening stops
  function Listen(q: seq<Bytes>, max: nat): seq<Bytes>
    decreases |q|
  {
    match Receive(q, max)
    case Blocked => []
    case Got(msgs, rest, goesOn) =>
      if goesOn && |rest| < |q| then msgs + Listen(rest, max) else msgs
  }
}

module LocIpc {
  import opened Wrappers
  import opened Sequences
  import opened LocIpcFraming

  class Channel {
    var queue: seq<Bytes>
    constructor ()
      ensures queue == []
    {
      queue := [];
    }

    method Put(d: Bytes) returns (sent: nat)
      modifies this
      ensures queue == old(queue) + [d] && sent == |d|
    {
      queue := queue + [d];
      sent := |d|;
    }

    // Takes the next datagram, cut off at size bytes; None when nothing is queued
    method Take(size: nat) returns (d: Option<Bytes>)
      modifies this
      ensures if old(queue) == [] then d == None && queue == []
              else d == Some(Cut(old(queue)[0], size)) && queue == old(queue)[1..]
    {
      if queue == [] {
        return None;
      }
      d := Some(Cut(queue[0], size));
      queue := queue[1..];
    }
  }

  class Listener {
    var received: seq<Bytes>
    constructor ()
      ensures received == []
    {
      received := [];
    }

    method OnReceive(msg: Bytes)
      modifies this
      ensures received == old(received) + [msg]
    {
      received := received + [msg];
    }
  }

  class Sock {
    const mMaxTxSize: nat
    const wire: Channel

    constructor (wire: Channel, maxTxSize: nat)
      requires 0 < maxTxSize
      ensures this.wire == wire && mMaxTxSize == maxTxSize
    {
      this.wire, mMaxTxSize := wire, maxTxSize;
    }

    method Send(buf: Bytes) returns (rtv: int)
      requires 0 < mMaxTxSize
      modifies wire
      ensures buf == [] ==> rtv == -1 && wire.queue == old(wire.queue)
      ensures buf != [] ==> wire.queue == old(wire.queue) + Fragments(buf, mMaxTxSize)
      ensures buf != [] ==> rtv == if |buf| <= mMaxTxSize then |buf| else |Header(|buf|)| + |buf|
    {
      rtv := -1;
      if buf != [] {
        rtv := SendTo(buf);
      }
    }

    method SendTo(buf: Bytes) returns (rtv: int)
      requires 0 < mMaxTxSize && buf != []
      modifies wire
      ensures wire.queue == old(wire.queue) + Fragments(buf, mMaxTxSize)
      ensures rtv == if |buf| <= mMaxTxSize then |buf| else |Header(|buf|)| + |buf|
    {
      if |buf| <= mMaxTxSize {
        rtv := wire.Put(buf);
      } else {
        var head := Header(|buf|);
        rtv := wire.Put(head);
        if rtv > 0 {
          Associate(old(wire.queue), [head], Chunks(buf, mMaxTxSize));
          rtv := SendChunks(buf, rtv);
          rtv := if rtv > 0 then |head| + |buf| else -1;
        }
      }
    }

    method SendChunks(buf: Bytes, headSent: int) returns (rtv: int)
      requires 0 < mMaxTxSize && headSent > 0
      modifies wire
      ensures wire.queue == old(wire.queue) + Chunks(buf, mMaxTxSize) && rtv > 0
    {
      rtv := headSent;
      var offset := 0;
      while offset < |buf| && rtv > 0
        invariant 0 <= offset <= |buf| && rtv > 0
        invariant wire.queue + Chunks(buf[offset..], mMaxTxSize) == old(wire.queue) + Chunks(buf, mMaxTxSize)
        decreases |buf| - offset
      {
        var n := Min(|buf| - offset, mMaxTxSize);
        ChunkStep(wire.queue, buf, offset, mMaxTxSize);
        rtv := wire.Put(buf[offset..offset + n]);
        offset := offset + rtv;
      }
    }

    static lemma ChunkStep(queue: seq<Bytes>, buf: Bytes, offset: nat, max: nat)
      requires offset < |buf| && 0 < max
      ensures var n := Min(|buf| - offset, max);
              queue + Chunks(buf[offset..], max) == (queue + [buf[offset..offset + n]]) + Chunks(buf[offset + n..], max)
    {
      var n := Min(|buf| - offset, max);
      assert buf[offset..][..n] == buf[offset..offset + n] && buf[offset..][n..] == buf[offset + n..];
      Associate(queue, [buf[offset..offset + n]], Chunks(buf[offset + n..], max));
    }

    /** One receive call.  None stands for a call that is still waiting for a datagram. */
    method RecvFrom(dataCb: Listener) returns (nBytes: Option<int>)
      requires 0 < mMaxTxSize
      modifies wire, dataCb
      ensures match Receive(old(wire.queue), mMaxTxSize)
              case Got(msgs, rest, goesOn) =>
                && nBytes.Some? && (nBytes.value > 0 <==> goesOn) && wire.queue == rest
                && dataCb.received == old(dataCb.received) + msgs
              case Blocked => nBytes == None && dataCb.received == old(dataCb.received)
    {
      var first := wire.Take(mMaxTxSize);
      if first == None {
        return None;
      }
      var msg := first.value;
      if msg == [] {
        return Some(0);
      }
      var data := Buffer(msg, mMaxTxSize);
      if StartsWith(data, MSG_ABORT) {
        return Some(0);
      }
      if !StartsWith(data, LOC_IPC_HEAD) {
        dataCb.OnReceive(msg);
        return Some(|msg|);
      }
      var msgLen := ScanSize(data[|LOC_IPC_HEAD|..]);
      var got: Bytes := [];
      var n := |msg|;
      ghost var afterHead := wire.queue;
      assert Receive(old(wire.queue), mMaxTxSize) == Collect(afterHead, msgLen, []);
      while |got| < msgLen && n > 0
        invariant n >= 0 && |got| <= msgLen && dataCb.received == old(dataCb.received)
        invariant n > 0 ==> Collect(wire.queue, msgLen, got) == Collect(afterHead, msgLen, [])
        invariant n == 0 ==> Collect(afterHead, msgLen, []) == Got([], wire.queue, false)
        decreases msgLen - |got|, n
      {
        var d := wire.Take(msgLen - |got|);
        if d == None {
          return None;
        }
        n := |d.value|;
        got := got + d.value;
      }
      if n == 0 {
        return Some(0);
      }
      assert Receive(old(wire.queue), mMaxTxSize) == Collect(wire.queue, msgLen, got);
      dataCb.OnReceive(got);
      return Some(msgLen);
    }

    /** startBlockingListening: receive while the calls return a positive count. */
    method ListenAll(dataCb: Listener)
      requires 0 < mMaxTxSize
      modifies wire, dataCb
      ensures dataCb.received == old(dataCb.received) + Listen(old(wire.queue), mMaxTxSize)
      decreases |wire.queue|
    {
      ghost var q, before := wire.queue, dataCb.received;
      ReceiveShrinks(q, mMaxTxSize);
      var n := RecvFrom(dataCb);
      if n.Some? && n.value > 0 {
        ListenAll(dataCb);
        Associate(before, Receive(q, mMaxTxSize).msgs, Listen(Receive(q, mMaxTxSize).rest, mMaxTxSize));
      }
    }
  }

  lemma ReceiveShrinks(q: seq<Bytes>, max: nat)
    ensures Receive(q, max).Got? ==> |Receive(q, max).rest| < |q|
  {
    if Receive(q, max).Got? {
      var d := Cut(q[0], max);
      if d != [] && !StartsWith(Buffer(d, max), MSG_ABORT) && StartsWith(Buffer(d, max), LOC_IPC_HEAD) {
        CollectShrinks(q[1..], ScanSize(Buffer(d, max)[|LOC_IPC_HEAD|..]), []);
      }
    }
  }

  lemma {:induction false} CollectShrinks(q: seq<Bytes>, len: nat, got: Bytes)
    requires |got| <= len
    ensures Collect(q, len, got).Got? ==> |Collect(q, len, got).rest| <= |q|
    decreases |q|
  {
    if |got| < len && q != [] {
      var d := Cut(q[0], len - |got|);
      if d != [] { CollectShrinks(q[1..], len, got + d); }
    }
  }
}
