// What the framing delivers: exactly the messages sent, in order, and for which messages.
module LocIpcDelivery {
  import opened Sequences
  import opened LocIpcFraming

  // ----- Decimal text round trip -----

  lemma {:induction false} ScanDigitsConcat(a: Bytes, b: Bytes, acc: nat)
    requires forall d :: d in a ==> IsDigit(d)
    ensures ScanDigits(a + b, acc) == ScanDigits(b, ScanDigits(a, acc))
  {
    if a == [] {
      assert a + b == b;
    } else {
      assert a[0] in a && (a + b)[1..] == a[1..] + b;
      ScanDigitsConcat(a[1..], b, acc * 10 + (a[0] - 48));
    }
  }

  lemma {:induction false} ScanToString(n: nat, rest: Bytes)
    requires rest == [] || !IsDigit(rest[0])
    ensures ScanDigits(ToString(n) + rest, 0) == n
  {
    if n < 10 {
      assert (ToString(n) + rest)[1..] == rest;
    } else {
      ScanToString(n / 10, []);
      assert ToString(n / 10) + [] == ToString(n / 10);
      var last := [48 + n % 10];
      ScanDigitsConcat(ToString(n / 10), last + rest, 0);
      assert ToString(n) + rest == ToString(n / 10) + (last + rest);
      assert (last + rest)[1..] == rest;
    }
  }

  /** sscanf reads back the length that to_string wrote, whatever NUL padding follows it. */
  lemma ScanSizeToString(n: nat, rest: Bytes)
    requires n <= SIZE_MAX && (rest == [] || !IsDigit(rest[0]))
    ensures ScanSize(ToString(n) + rest) == n
  {
    ScanToString(n, rest);
    assert ToString(n)[0] in ToString(n);
  }

  lemma AfterSign(sign: Byte, text: Bytes)
    requires text != [] && IsDigit(text[0]) && (sign == 43 || sign == 45)
    ensures ScanSize([sign] + text) == if sign == 45 then ScanNegative(text) else ScanSize(text)
  {
    assert ([sign] + text)[1..] == text;
  }

  lemma AfterBlank(blank: Byte, text: Bytes)
    requires IsSpace(blank)
    ensures ScanSize([blank] + text) == ScanSize(text)
  {
    assert ([blank] + text)[1..] == text;
  }

  lemma ScanLarge(n: nat, rest: Bytes)
    requires rest == [] || !IsDigit(rest[0])
    ensures ScanSize(ToString(n) + rest) == if n <= SIZE_MAX then n else SIZE_MAX
    ensures ScanNegative(ToString(n) + rest) ==
            if n == 0 then 0 else if n <= SIZE_MAX then SIZE_MAX + 1 - n else SIZE_MAX
  {
    ScanToString(n, rest);
    assert ToString(n)[0] in ToString(n);
  }

  /** sscanf beyond that: blanks in front, and a sign, wrapping around below 0 and saturating above the largest
      number. */
  lemma ScanForms(n: nat, rest: Bytes, text: Bytes, blank: Byte)
    requires (rest == [] || !IsDigit(rest[0])) && IsSpace(blank)
    ensures ScanSize([43] + (ToString(n) + rest)) == if n <= SIZE_MAX then n else SIZE_MAX
    ensures ScanSize([45] + (ToString(n) + rest)) ==
            if n == 0 then 0 else if n <= SIZE_MAX then SIZE_MAX + 1 - n else SIZE_MAX
    ensures ScanSize([blank] + text) == ScanSize(text)
  {
    assert ToString(n)[0] in ToString(n);
    AfterSign(43, ToString(n) + rest);
    AfterSign(45, ToString(n) + rest);
    ScanLarge(n, rest);
    AfterBlank(blank, text);
  }

  // ----- The receive buffer -----

  lemma StartsWithAt(s: Bytes, t: Bytes, i: nat)
    requires StartsWith(s, t) && i < |t|
    ensures s[i] == t[i]
  {
    assert s[..|t|][i] == t[i];
  }

  lemma PaddedStart(d: Bytes, max: nat, t: Bytes)
    requires |d| <= max && forall i :: 0 <= i < |t| ==> t[i] != 0
    ensures StartsWith(Buffer(d, max), t) <==> StartsWith(d, t)
  {
    var buf := Buffer(d, max);
    if StartsWith(d, t) { assert buf[..|t|] == d[..|t|]; }
    if StartsWith(buf, t) {
      if |d| < |t| { StartsWithAt(buf, t, |d|); }
      assert buf[..|t|] == d[..|t|];
    }
  }

  // A short message the receiver takes for the abort string
  predicate ReadsAsAbort(d: Bytes) {
    d == MSG_ABORT[..19] || StartsWith(d, MSG_ABORT)
  }

  lemma PaddedAbort(d: Bytes, max: nat)
    requires |d| <= max
    ensures StartsWith(Buffer(d, max), MSG_ABORT) <==> ReadsAsAbort(d)
  {
    var buf, text := Buffer(d, max), MSG_ABORT[..19];
    PaddedStart(d, max, text);
    if |d| >= 20 {
      assert buf[..20] == d[..20];
    }
    if StartsWith(buf, MSG_ABORT) {
      assert buf[..19] == buf[..20][..19] == text;
      assert StartsWith(d, text);
      if |d| == 19 { assert d == d[..19]; }
    }
    if d == text {
      assert buf[..20] == text + [0];
    }
  }

  // ----- One message -----

  /** The messages that arrive as they were sent: non-empty, and either short without beginning as
      a header or reading as the abort string, or long with a header that fits one datagram. */
  predicate Deliverable(m: Bytes, max: nat) {
    && m != [] && |m| <= SIZE_MAX
    && if |m| <= max then !StartsWith(m, LOC_IPC_HEAD) && !ReadsAsAbort(m) else |Header(|m|)| <= max
  }

  lemma CollectOne(d: Bytes, q: seq<Bytes>, len: nat, got: Bytes)
    requires d != [] && |got| + |d| <= len
    ensures Collect([d] + q, len, got) == Collect(q, len, got + d)
  {
    assert ([d] + q)[1..] == q && Cut(d, len - |got|) == d;
  }

  lemma ChunksHead(rest: Bytes, max: nat, tail: seq<Bytes>)
    requires 0 < max && rest != []
    ensures var n := Min(|rest|, max);
            Chunks(rest, max) + tail == [rest[..n]] + (Chunks(rest[n..], max) + tail)
  {
    var n := Min(|rest|, max);
    Associate([rest[..n]], Chunks(rest[n..], max), tail);
  }

  lemma Rejoin(got: Bytes, rest: Bytes, n: nat)
    requires n <= |rest|
    ensures (got + rest[..n]) + rest[n..] == got + rest && |got + rest[..n]| + |rest[n..]| == |got| + |rest|
  {
  }

  lemma {:induction false} CollectChunks(rest: Bytes, max: nat, got: Bytes, tail: seq<Bytes>)
    requires 0 < max
    ensures Collect(Chunks(rest, max) + tail, |got| + |rest|, got) == Got([got + rest], tail, |got| + |rest| > 0)
    decreases |rest|
  {
    if rest == [] {
      assert Chunks(rest, max) + tail == tail && got + rest == got;
    } else {
      var n := Min(|rest|, max);
      ChunksHead(rest, max, tail);
      var head, last := rest[..n], rest[n..];
      Rejoin(got, rest, n);
      CollectOne(head, Chunks(last, max) + tail, |got| + |rest|, got);
      CollectChunks(last, max, got + head, tail);
    }
  }

  lemma ReceiveHeader(n: nat, max: nat, q: seq<Bytes>)
    requires n <= SIZE_MAX && |Header(n)| <= max && q != [] && Cut(q[0], max) == Header(n)
    ensures Receive(q, max) == Collect(q[1..], n, [])
  {
    var d := Header(n);
    var buf := Buffer(d, max);
    assert buf[..8] == LOC_IPC_HEAD;
    assert StartsWith(buf, LOC_IPC_HEAD);
    assert buf[0] == 36;
    assert !StartsWith(buf, MSG_ABORT) by {
      if StartsWith(buf, MSG_ABORT) { StartsWithAt(buf, MSG_ABORT, 0); }
    }
    var pad := Zeros(max - |d|) + [0];
    assert buf[8..] == ToString(n) + pad;
    ScanSizeToString(n, pad);
  }

  lemma ReceiveShort(m: Bytes, max: nat, q: seq<Bytes>)
    requires |m| <= max && Deliverable(m, max) && q != [] && q[0] == m
    ensures Receive(q, max) == Got([m], q[1..], true)
  {
    assert Cut(m, max) == m;
    PaddedAbort(m, max);
    PaddedStart(m, max, LOC_IPC_HEAD);
  }

  lemma ReceiveLong(m: Bytes, max: nat, q: seq<Bytes>)
    requires max < |m| && Deliverable(m, max) && q != [] && q[0] == Header(|m|)
    ensures Receive(q, max) == Collect(q[1..], |m|, [])
  {
    assert Cut(q[0], max) == Header(|m|);
    ReceiveHeader(|m|, max, q);
  }

  lemma ReceiveLongWhole(m: Bytes, max: nat, tail: seq<Bytes>)
    requires 0 < max < |m| && Deliverable(m, max)
    ensures Receive([Header(|m|)] + (Chunks(m, max) + tail), max) == Got([m], tail, true)
  {
    var q := [Header(|m|)] + (Chunks(m, max) + tail);
    ReceiveLong(m, max, q);
    assert q[1..] == Chunks(m, max) + tail;
    CollectChunks(m, max, [], tail);
    assert [] + m == m;
  }

  lemma ReceiveFragments(m: Bytes, max: nat, tail: seq<Bytes>)
    requires 0 < max && Deliverable(m, max)
    ensures Receive(Fragments(m, max) + tail, max) == Got([m], tail, true)
  {
    if |m| <= max {
      assert ([m] + tail)[1..] == tail;
      ReceiveShort(m, max, [m] + tail);
    } else {
      Associate([Header(|m|)], Chunks(m, max), tail);
      ReceiveLongWhole(m, max, tail);
    }
  }

  // ----- Many messages -----

  function SendAll(msgs: seq<Bytes>, max: nat): seq<Bytes>
    requires 0 < max
  {
    if msgs == [] then [] else Fragments(msgs[0], max) + SendAll(msgs[1..], max)
  }

  predicate AllDeliverable(msgs: seq<Bytes>, max: nat) {
    forall m :: m in msgs ==> Deliverable(m, max)
  }

  lemma ListenOne(m: Bytes, max: nat, tail: seq<Bytes>)
    requires 0 < max && Deliverable(m, max)
    ensures Listen(Fragments(m, max) + tail, max) == [m] + Listen(tail, max)
  {
    ReceiveFragments(m, max, tail);
  }

  // The first message and the rest of a deliverable sequence
  lemma HeadDelivers(msgs: seq<Bytes>, max: nat, tail: seq<Bytes>)
    requires 0 < max && AllDeliverable(msgs, max) && msgs != []
    ensures Listen(Fragments(msgs[0], max) + tail, max) == [msgs[0]] + Listen(tail, max)
    ensures AllDeliverable(msgs[1..], max)
  {
    assert msgs[0] in msgs;
    ListenOne(msgs[0], max, tail);
  }

  lemma {:induction false} ListenAfter(msgs: seq<Bytes>, max: nat, tail: seq<Bytes>)
    requires 0 < max && AllDeliverable(msgs, max)
    ensures Listen(SendAll(msgs, max) + tail, max) == msgs + Listen(tail, max)
  {
    if msgs == [] {
      assert SendAll(msgs, max) + tail == tail && msgs + Listen(tail, max) == Listen(tail, max);
    } else {
      Associate(Fragments(msgs[0], max), SendAll(msgs[1..], max), tail);
      HeadDelivers(msgs, max, SendAll(msgs[1..], max) + tail);
      ListenAfter(msgs[1..], max, tail);
      Associate([msgs[0]], msgs[1..], Listen(tail, max));
      assert [msgs[0]] + msgs[1..] == msgs;
    }
  }

  /** Over a lossless FIFO the receiver delivers exactly the messages sent, in order, and then
      waits; long messages arrive whole. */
  lemma DeliversExactly(msgs: seq<Bytes>, max: nat)
    requires 0 < max && AllDeliverable(msgs, max)
    ensures Listen(SendAll(msgs, max), max) == msgs
  {
    ListenAfter(msgs, max, []);
    assert SendAll(msgs, max) + [] == SendAll(msgs, max) && msgs + [] == msgs;
  }

  /** An abort sent after the messages stops the receiver once they are delivered, whatever
      follows; this needs the abort string to fit one datagram. */
  lemma AbortStops(msgs: seq<Bytes>, max: nat, more: seq<Bytes>)
    requires |MSG_ABORT| <= max && AllDeliverable(msgs, max)
    ensures Fragments(MSG_ABORT, max) == [MSG_ABORT]
    ensures Listen(SendAll(msgs, max) + (Fragments(MSG_ABORT, max) + more), max) == msgs
  {
    var q := Fragments(MSG_ABORT, max) + more;
    ListenAfter(msgs, max, q);
    assert q[0] == MSG_ABORT && Cut(MSG_ABORT, max) == MSG_ABORT;
    PaddedAbort(MSG_ABORT, max);
    assert msgs + [] == msgs;
  }

  lemma {:induction false} CollectStops(rest: Bytes, max: nat, got: Bytes, k: nat, more: seq<Bytes>)
    requires 0 < max && k < |Chunks(rest, max)|
    ensures Collect(Chunks(rest, max)[..k] + ([[]] + more), |got| + |rest|, got) == Got([], more, false)
    decreases |rest|
  {
    var q := Chunks(rest, max)[..k] + ([[]] + more);
    if k > 0 {
      var n := Min(|rest|, max);
      assert q[0] == rest[..n] && q[1..] == Chunks(rest[n..], max)[..k - 1] + ([[]] + more);
      assert Cut(q[0], |rest|) == rest[..n];
      CollectStops(rest[n..], max, got + rest[..n], k - 1, more);
    }
  }

  lemma LongStops(m: Bytes, max: nat, k: nat, more: seq<Bytes>)
    requires 0 < max < |m| && Deliverable(m, max) && k < |Chunks(m, max)|
    ensures Receive([Header(|m|)] + (Chunks(m, max)[..k] + ([[]] + more)), max) == Got([], more, false)
  {
    var q := [Header(|m|)] + (Chunks(m, max)[..k] + ([[]] + more));
    ReceiveLong(m, max, q);
    assert q[1..] == Chunks(m, max)[..k] + ([[]] + more);
    CollectStops(m, max, [], k, more);
  }

  lemma ReceiveEmpty(q: seq<Bytes>, max: nat)
    requires q != [] && q[0] == []
    ensures Receive(q, max) == Got([], q[1..], false)
  {
  }

  lemma FragmentsFrom(m: Bytes, max: nat, k: nat, more: seq<Bytes>)
    requires 0 < max && 0 < k < |Fragments(m, max)|
    ensures max < |m|
    ensures Fragments(m, max)[..k] + more == [Header(|m|)] + (Chunks(m, max)[..k - 1] + more)
  {
  }

  lemma ReceiveStops(m: Bytes, max: nat, k: nat, more: seq<Bytes>)
    requires 0 < max && Deliverable(m, max) && k < |Fragments(m, max)|
    ensures Receive(Fragments(m, max)[..k] + ([[]] + more), max) == Got([], more, false)
  {
    if k > 0 {
      FragmentsFrom(m, max, k, [[]] + more);
      LongStops(m, max, k - 1, more);
    } else {
      assert Fragments(m, max)[..0] + ([[]] + more) == [[]] + more && ([[]] + more)[1..] == more;
      ReceiveEmpty([[]] + more, max);
    }
  }

  lemma StopsListening(q: seq<Bytes>, max: nat)
    requires Receive(q, max).Got? && Receive(q, max).msgs == [] && !Receive(q, max).goesOn
    ensures Listen(q, max) == []
  {
  }

  /** An empty datagram, after whole messages or in the middle of one, stops the receiver: it has delivered the
      whole messages and nothing else, whatever follows. */
  lemma EmptyStops(msgs: seq<Bytes>, m: Bytes, max: nat, k: nat, more: seq<Bytes>)
    requires 0 < max && AllDeliverable(msgs, max) && Deliverable(m, max) && k < |Fragments(m, max)|
    ensures Listen(SendAll(msgs, max) + (Fragments(m, max)[..k] + ([[]] + more)), max) == msgs
  {
    var q := Fragments(m, max)[..k] + ([[]] + more);
    ListenAfter(msgs, max, q);
    ReceiveStops(m, max, k, more);
    StopsListening(q, max);
    assert msgs + [] == msgs;
  }

  // ----- While the sender is still sending -----

  lemma {:induction false} CollectWaits(rest: Bytes, max: nat, got: Bytes, k: nat)
    requires 0 < max && k < |Chunks(rest, max)|
    ensures Collect(Chunks(rest, max)[..k], |got| + |rest|, got) == Blocked
    decreases |rest|
  {
    var q := Chunks(rest, max)[..k];
    if k > 0 {
      var n := Min(|rest|, max);
      assert q[0] == rest[..n] && q[1..] == Chunks(rest[n..], max)[..k - 1];
      assert Cut(q[0], |rest|) == rest[..n];
      CollectWaits(rest[n..], max, got + rest[..n], k - 1);
    }
  }

  lemma LongWaits(m: Bytes, max: nat, k: nat)
    requires 0 < max < |m| && Deliverable(m, max) && k < |Chunks(m, max)|
    ensures Receive([Header(|m|)] + Chunks(m, max)[..k], max) == Blocked
  {
    var q := [Header(|m|)] + Chunks(m, max)[..k];
    ReceiveLong(m, max, q);
    assert q[1..] == Chunks(m, max)[..k];
    CollectWaits(m, max, [], k);
  }

  lemma ReceiveWaits(m: Bytes, max: nat, k: nat)
    requires 0 < max && Deliverable(m, max) && k < |Fragments(m, max)|
    ensures Receive(Fragments(m, max)[..k], max) == Blocked
  {
    if k > 0 {
      assert Fragments(m, max)[..k] == [Header(|m|)] + Chunks(m, max)[..k - 1];
      LongWaits(m, max, k - 1);
    }
  }

  lemma TakeConcat<T>(a: seq<T>, b: seq<T>, k: nat)
    requires k <= |a + b|
    ensures (a + b)[..k] == if k < |a| then a[..k] else a + b[..k - |a|]
  {
  }

  lemma PrefixCons<T>(x: T, s: seq<T>, all: seq<T>)
    requires all != [] && all[0] == x && s <= all[1..]
    ensures [x] + s <= all
  {
    assert all == [all[0]] + all[1..];
  }

  // A way of listening to a queue that takes m whole off its front, and nothing while m is incomplete
  ghost predicate TakesWhole(listen: seq<Bytes> -> seq<Bytes>, m: Bytes, max: nat)
    requires 0 < max
  {
    && (forall tail :: listen(Fragments(m, max) + tail) == [m] + listen(tail))
    && (forall k :: 0 <= k < |Fragments(m, max)| ==> listen(Fragments(m, max)[..k]) == [])
  }

  lemma {:induction false} TakesPrefix(listen: seq<Bytes> -> seq<Bytes>, msgs: seq<Bytes>, max: nat, k: nat)
    requires 0 < max && listen([]) == [] && forall m :: m in msgs ==> TakesWhole(listen, m, max)
    requires k <= |SendAll(msgs, max)|
    ensures listen(SendAll(msgs, max)[..k]) <= msgs
  {
    if msgs != [] {
      var first, later := Fragments(msgs[0], max), SendAll(msgs[1..], max);
      assert TakesWhole(listen, msgs[0], max);
      TakeConcat(first, later, k);
      if k >= |first| {
        TakesPrefix(listen, msgs[1..], max, k - |first|);
        PrefixCons(msgs[0], listen(later[..k - |first|]), msgs);
      }
    }
  }

  lemma ListenTakesWhole(m: Bytes, max: nat)
    requires 0 < max && Deliverable(m, max)
    ensures TakesWhole(q => Listen(q, max), m, max)
  {
    forall tail
      ensures Listen(Fragments(m, max) + tail, max) == [m] + Listen(tail, max)
    {
      ListenOne(m, max, tail);
    }
    forall k | 0 <= k < |Fragments(m, max)|
      ensures Listen(Fragments(m, max)[..k], max) == []
    {
      ReceiveWaits(m, max, k);
    }
  }

  /** At every moment, with any number of the sent datagrams on the wire, what has been delivered
      is a prefix of the messages: nothing early, torn, or out of order. */
  lemma DeliveredIsPrefix(msgs: seq<Bytes>, max: nat, k: nat)
    requires 0 < max && AllDeliverable(msgs, max) && k <= |SendAll(msgs, max)|
    ensures Listen(SendAll(msgs, max)[..k], max) <= msgs
  {
    forall m | m in msgs
      ensures TakesWhole(q => Listen(q, max), m, max)
    {
      ListenTakesWhole(m, max);
    }
    TakesPrefix(q => Listen(q, max), msgs, max, k);
  }

  // ----- Which messages are deliverable is exact -----

  lemma {:induction false} CollectLength(q: seq<Bytes>, len: nat, got: Bytes)
    requires |got| <= len
    ensures match Collect(q, len, got)
            case Got(msgs, _, goesOn) => if msgs == [] then !goesOn else |msgs| == 1 && |msgs[0]| == len
            case Blocked => true
    decreases |q|
  {
    if |got| < len && q != [] {
      var d := Cut(q[0], len - |got|);
      if d != [] { CollectLength(q[1..], len, got + d); }
    }
  }

  // The first k digits of a number are the digits of a smaller number
  lemma {:induction false} DigitsPrefix(n: nat, k: nat) returns (v: nat)
    requires 1 <= k < |ToString(n)|
    ensures v < n && ToString(v) == ToString(n)[..k]
    decreases n
  {
    v := n / 10;
    if k < |ToString(n / 10)| {
      v := DigitsPrefix(n / 10, k);
      assert ToString(n)[..k] == ToString(n / 10)[..k];
    } else {
      assert ToString(n)[..k] == ToString(n / 10);
    }
  }

  // When Receive hands over a message of another length first, or none, Listen does not start with m
  lemma NotFirst(q: seq<Bytes>, max: nat, m: Bytes)
    requires match Receive(q, max)
             case Got(msgs, _, goesOn) => if msgs == [] then !goesOn else |msgs[0]| != |m|
             case Blocked => true
    ensures Listen(q, max) != [m]
  {
    if Receive(q, max).Got? && Receive(q, max).msgs != [] {
      var x := Receive(q, max).msgs[0];
      assert Listen(q, max)[0] == x;
    }
  }

  lemma ShortHeaderLookalike(m: Bytes, max: nat)
    requires m != [] && |m| <= max && StartsWith(m, LOC_IPC_HEAD)
    ensures Listen([m], max) != [m]
  {
    assert Cut(m, max) == m;
    PaddedAbort(m, max);
    PaddedStart(m, max, LOC_IPC_HEAD);
    StartsWithAt(m, LOC_IPC_HEAD, 0);
    assert !ReadsAsAbort(m) by {
      if StartsWith(m, MSG_ABORT) { StartsWithAt(m, MSG_ABORT, 0); }
    }
    var n := ScanSize(Buffer(m, max)[8..]);
    assert [m][1..] == [];
    assert Receive([m], max) == Collect([], n, []);
    NotFirst([m], max, m);
  }

  lemma HeaderCutOff(m: Bytes, max: nat)
    requires 0 < max < |m| && |m| <= SIZE_MAX && |Header(|m|)| > max
    ensures Listen(Fragments(m, max), max) != [m]
  {
    var q, head := Fragments(m, max), Header(|m|);
    var d := Cut(head, max);
    if max <= 8 {
      assert d == LOC_IPC_HEAD[..max];
      assert d[0] == 36;
      PaddedAbort(d, max);
      PaddedStart(d, max, LOC_IPC_HEAD);
      if max == 8 {
        assert d == LOC_IPC_HEAD;
        assert Buffer(d, max)[8..] == [0];
        assert Receive(q, max) == Collect(q[1..], 0, []);
      } else {
        assert Receive(q, max) == Got([d], q[1..], true);
      }
    } else {
      var v := DigitsPrefix(|m|, max - 8);
      assert d == Header(v);
      ReceiveHeader(v, max, q);
      CollectLength(q[1..], v, []);
    }
    NotFirst(q, max, m);
  }

  /** A message sent alone arrives as itself if and only if it is deliverable. */
  lemma DeliveredAloneIff(m: Bytes, max: nat)
    requires 0 < max && m != [] && |m| <= SIZE_MAX
    ensures Listen(Fragments(m, max), max) == [m] <==> Deliverable(m, max)
  {
    if Deliverable(m, max) {
      ListenOne(m, max, []);
      assert Fragments(m, max) + [] == Fragments(m, max);
    } else if |m| > max {
      HeaderCutOff(m, max);
    } else if StartsWith(m, LOC_IPC_HEAD) {
      ShortHeaderLookalike(m, max);
    } else {
      assert Cut(m, max) == m;
      PaddedAbort(m, max);
    }
  }

  // ----- The shape of what is sent -----

  /** Every chunk is as long as a datagram may be, except that the last may be shorter. */
  lemma {:induction false} ChunksFit(msg: Bytes, max: nat, i: nat)
    requires 0 < max && i < |Chunks(msg, max)|
    ensures 0 < |Chunks(msg, max)[i]| <= max
    ensures i < |Chunks(msg, max)| - 1 ==> |Chunks(msg, max)[i]| == max
    decreases |msg|
  {
    var rest := msg[Min(|msg|, max)..];
    if i > 0 {
      ChunksFit(rest, max, i - 1);
      assert Chunks(msg, max)[i] == Chunks(rest, max)[i - 1];
    }
  }

  // The bytes of an ASCII text
  predicate Spells(b: Bytes, text: string) {
    |b| == |text| && forall i :: 0 <= i < |b| ==> b[i] == text[i] as int
  }

  lemma MarkersAreSpelled()
    ensures Spells(LOC_IPC_HEAD, "$MSGLEN$") && Spells(MSG_ABORT, "LocIpc::Sock::ABORT\0")
  {
  }
}
