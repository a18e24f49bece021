// Which sequences of messages the framing delivers: the argument counts bytes.  Whatever arrives as its
// sender sent it has used up at least the bytes it was sent in, and more if it was taken for a header.
module LocIpcExact {
  import opened Sequences
  import opened LocIpcFraming
  import opened LocIpcDelivery

  // send takes a 32-bit length
  const UINT32_MAX := 0xffff_ffff

  // ----- How long a decimal text is -----

  function Pow10(n: nat): (p: nat)
    ensures p > 0
  {
    if n == 0 then 1 else 10 * Pow10(n - 1)
  }

  lemma {:induction false} Pow10Grows(a: nat, b: nat)
    requires a <= b
    ensures Pow10(a) <= Pow10(b)
    decreases b
  {
    if a < b { Pow10Grows(a, b - 1); }
  }

  lemma Shorter(a: nat, b: nat)
    requires Pow10(a) < Pow10(b)
    ensures a < b
  {
    if b <= a { Pow10Grows(b, a); }
  }

  lemma TimesTen(acc: nat, digit: nat, p: nat)
    requires digit < 10
    ensures (acc * 10 + digit + 1) * p <= (acc + 1) * (10 * p)
  {
    assert acc * 10 + digit + 1 <= (acc + 1) * 10;
    assert (acc * 10 + digit + 1) * p <= ((acc + 1) * 10) * p;
  }

  lemma AtLeastOne(acc: nat, p: nat)
    requires p > 0
    ensures acc < (acc + 1) * p
  {
    assert (acc + 1) * 1 <= (acc + 1) * p;
  }

  lemma {:induction false} DigitsBelow(t: Bytes, pad: Bytes, acc: nat)
    requires pad == [] || !IsDigit(pad[0])
    ensures ScanDigits(t + pad, acc) < (acc + 1) * Pow10(|t|)
    decreases |t|
  {
    if t == [] {
      assert t + pad == pad;
    } else if !IsDigit(t[0]) {
      AtLeastOne(acc, Pow10(|t|));
    } else {
      assert (t + pad)[1..] == t[1..] + pad;
      DigitsBelow(t[1..], pad, acc * 10 + (t[0] - 48));
      TimesTen(acc, t[0] - 48, Pow10(|t| - 1));
    }
  }

  lemma {:induction false} ToStringIsShort(n: nat)
    requires n > 0
    ensures Pow10(|ToString(n)| - 1) <= n
  {
    if n >= 10 {
      ToStringIsShort(n / 10);
      assert Pow10(|ToString(n)| - 1) == 10 * Pow10(|ToString(n / 10)| - 1);
    }
  }

  lemma TenDigits()
    ensures Pow10(10) == 10_000_000_000
  {
    assert Pow10(5) == 100_000;
  }

  lemma NineteenDigits()
    ensures Pow10(19) == 10_000_000_000_000_000_000
  {
    TenDigits();
    assert Pow10(14) == 10_000 * Pow10(10);
    assert Pow10(19) == 100_000 * Pow10(14);
  }

  // A text of fewer digits does not scan as n
  lemma LongEnough(n: nat, len: nat)
    requires 0 < n < Pow10(len)
    ensures |ToString(n)| <= len
  {
    ToStringIsShort(n);
    Shorter(|ToString(n)| - 1, len);
  }

  lemma NegativeIsLong(t: Bytes, pad: Bytes, n: nat)
    requires pad != [] && pad[0] == 0 && 0 < n <= UINT32_MAX && ScanNegative(t + pad) == n
    ensures |ToString(n)| <= |t|
  {
    DigitsBelow(t, pad, 0);
    NineteenDigits();
    TenDigits();
    assert Pow10(19) < Pow10(|t|);
    Shorter(19, |t|);
    LongEnough(n, 10);
  }

  /** A text in front of NULs that scans as a 32-bit number n is at least as long as the text of n. */
  lemma {:induction false} ScanNeeds(t: Bytes, pad: Bytes, n: nat)
    requires pad != [] && pad[0] == 0 && 0 < n <= UINT32_MAX && ScanSize(t + pad) == n
    ensures |ToString(n)| <= |t|
    decreases |t|
  {
    if t == [] {
      assert false;
    } else {
      assert (t + pad)[0] == t[0] && (t + pad)[1..] == t[1..] + pad;
      if IsSpace(t[0]) {
        ScanNeeds(t[1..], pad, n);
      } else if t[0] == 45 {
        NegativeIsLong(t[1..], pad, n);
      } else if t[0] == 43 {
        DigitsBelow(t[1..], pad, 0);
        LongEnough(n, |t| - 1);
      } else {
        DigitsBelow(t, pad, 0);
        LongEnough(n, |t|);
      }
    }
  }

  // ----- What a delivered message costs -----

  function WireBytes(q: seq<Bytes>): nat {
    if q == [] then 0 else |q[0]| + WireBytes(q[1..])
  }

  // A datagram the receiver hands on as it is
  predicate PassesAsIs(d: Bytes, max: nat) {
    |d| <= max && !StartsWith(d, LOC_IPC_HEAD) && !ReadsAsAbort(d)
  }

  function Cost(m: Bytes, max: nat): nat {
    if PassesAsIs(m, max) then |m| else |Header(|m|)| + |m|
  }

  function Costs(msgs: seq<Bytes>, max: nat): nat {
    if msgs == [] then 0 else Cost(msgs[0], max) + Costs(msgs[1..], max)
  }

  predicate Sendable(m: Bytes) {
    0 < |m| <= UINT32_MAX
  }

  predicate Arrives(m: Bytes, max: nat) {
    PassesAsIs(m, max) || |Header(|m|)| <= max
  }

  lemma {:induction false} CollectCosts(q: seq<Bytes>, len: nat, got: Bytes)
    requires |got| <= len
    ensures var r := Collect(q, len, got);
            r.Got? && r.msgs != [] ==>
              |r.msgs| == 1 && |r.msgs[0]| == len && WireBytes(q) >= WireBytes(r.rest) + len - |got|
    decreases |q|
  {
    if |got| < len && q != [] {
      var d := Cut(q[0], len - |got|);
      if d != [] { CollectCosts(q[1..], len, got + d); }
    }
  }

  lemma HeaderCosts(d: Bytes, max: nat, n: nat)
    requires |d| <= max && StartsWith(Buffer(d, max), LOC_IPC_HEAD)
    requires 0 < n <= UINT32_MAX && ScanSize(Buffer(d, max)[8..]) == n
    ensures |Header(n)| <= |d|
  {
    PaddedStart(d, max, LOC_IPC_HEAD);
    var pad := Zeros(max - |d|) + [0];
    assert Buffer(d, max)[8..] == d[8..] + pad;
    ScanNeeds(d[8..], pad, n);
  }

  // What one receive call hands over, in terms of what it takes off the wire
  ghost predicate Paid(q: seq<Bytes>, max: nat, r: Received) {
    r.Got? && r.msgs != [] && (forall m :: m in r.msgs ==> Sendable(m)) ==>
      |r.msgs| == 1 && Arrives(r.msgs[0], max) && WireBytes(q) >= WireBytes(r.rest) + Cost(r.msgs[0], max)
  }

  lemma ShortIsPaid(q: seq<Bytes>, max: nat)
    requires q != [] && Cut(q[0], max) != []
    requires !StartsWith(Buffer(Cut(q[0], max), max), MSG_ABORT)
    requires !StartsWith(Buffer(Cut(q[0], max), max), LOC_IPC_HEAD)
    ensures Paid(q, max, Got([Cut(q[0], max)], q[1..], true))
  {
    var d := Cut(q[0], max);
    PaddedAbort(d, max);
    PaddedStart(d, max, LOC_IPC_HEAD);
    assert PassesAsIs(d, max);
  }

  lemma LongIsPaid(q: seq<Bytes>, max: nat)
    requires q != [] && StartsWith(Buffer(Cut(q[0], max), max), LOC_IPC_HEAD)
    ensures Paid(q, max, Collect(q[1..], ScanSize(Buffer(Cut(q[0], max), max)[8..]), []))
  {
    var d := Cut(q[0], max);
    var n := ScanSize(Buffer(d, max)[8..]);
    var r := Collect(q[1..], n, []);
    CollectCosts(q[1..], n, []);
    if r.Got? && r.msgs != [] && (forall m :: m in r.msgs ==> Sendable(m)) {
      assert r.msgs[0] in r.msgs;
      HeaderCosts(d, max, n);
    }
  }

  lemma ReceiveIsPaid(q: seq<Bytes>, max: nat)
    ensures Paid(q, max, Receive(q, max))
  {
    if q != [] {
      var d := Cut(q[0], max);
      if d != [] && !StartsWith(Buffer(d, max), MSG_ABORT) {
        if StartsWith(Buffer(d, max), LOC_IPC_HEAD) { LongIsPaid(q, max); } else { ShortIsPaid(q, max); }
      }
    }
  }

  // ----- Listening -----

  // The outcome of listening is paid for by the datagrams
  ghost predicate AllPaid(q: seq<Bytes>, max: nat, out: seq<Bytes>) {
    (forall m :: m in out ==> Sendable(m)) ==>
      WireBytes(q) >= Costs(out, max) && forall m :: m in out ==> Arrives(m, max)
  }

  lemma PaidAfter(q: seq<Bytes>, max: nat, r: Received, later: seq<Bytes>)
    requires r.Got? && Paid(q, max, r) && WireBytes(r.rest) <= WireBytes(q) && AllPaid(r.rest, max, later)
    ensures AllPaid(q, max, r.msgs + later)
  {
    var out := r.msgs + later;
    if forall m :: m in out ==> Sendable(m) {
      if r.msgs == [] {
        assert out == later;
      } else {
        assert r.msgs == [r.msgs[0]] && out[0] == r.msgs[0] && out[1..] == later;
      }
    }
  }

  lemma {:induction false} SuffixIsLighter(q: seq<Bytes>, k: nat)
    requires k <= |q|
    ensures WireBytes(q[k..]) <= WireBytes(q)
  {
    if k > 0 {
      assert q[k..] == q[1..][k - 1..];
      SuffixIsLighter(q[1..], k - 1);
    } else {
      assert q[k..] == q;
    }
  }

  lemma {:induction false} CollectLeaves(q: seq<Bytes>, len: nat, got: Bytes) returns (k: nat)
    requires |got| <= len && Collect(q, len, got).Got?
    ensures k <= |q| && Collect(q, len, got).rest == q[k..]
    decreases |q|
  {
    k := 0;
    if |got| < len {
      var d := Cut(q[0], len - |got|);
      k := 1;
      if d != [] {
        k := CollectLeaves(q[1..], len, got + d);
        assert q[1..][k..] == q[1 + k..];
        k := 1 + k;
      }
    }
  }

  lemma ReceiveLeaves(q: seq<Bytes>, max: nat) returns (k: nat)
    requires Receive(q, max).Got?
    ensures k <= |q| && Receive(q, max).rest == q[k..]
  {
    k := 1;
    var d := Cut(q[0], max);
    if d != [] && !StartsWith(Buffer(d, max), MSG_ABORT) && StartsWith(Buffer(d, max), LOC_IPC_HEAD) {
      k := CollectLeaves(q[1..], ScanSize(Buffer(d, max)[8..]), []);
      assert q[1..][k..] == q[1 + k..];
      k := 1 + k;
    }
  }

  lemma NothingIsPaid(q: seq<Bytes>, max: nat)
    ensures AllPaid(q, max, [])
  {
  }

  lemma ListenStep(q: seq<Bytes>, max: nat)
    ensures var r := Receive(q, max);
            Listen(q, max) ==
            if r.Blocked? then []
            else if r.goesOn && |r.rest| < |q| then r.msgs + Listen(r.rest, max)
            else r.msgs + []
  {
    if Receive(q, max).Got? {
      assert Receive(q, max).msgs + [] == Receive(q, max).msgs;
    }
  }

  lemma {:induction false} ListenIsPaid(q: seq<Bytes>, max: nat)
    ensures AllPaid(q, max, Listen(q, max))
    decreases |q|
  {
    ListenStep(q, max);
    var r := Receive(q, max);
    if r.Got? {
      var k := ReceiveLeaves(q, max);
      SuffixIsLighter(q, k);
      ReceiveIsPaid(q, max);
      if r.goesOn && |r.rest| < |q| {
        ListenIsPaid(r.rest, max);
        PaidAfter(q, max, r, Listen(r.rest, max));
      } else {
        NothingIsPaid(r.rest, max);
        PaidAfter(q, max, r, []);
      }
    }
  }

  // ----- What sending costs -----

  lemma {:induction false} WireBytesConcat(a: seq<Bytes>, b: seq<Bytes>)
    ensures WireBytes(a + b) == WireBytes(a) + WireBytes(b)
  {
    if a == [] {
      assert a + b == b;
    } else {
      assert (a + b)[0] == a[0] && (a + b)[1..] == a[1..] + b;
      WireBytesConcat(a[1..], b);
    }
  }

  lemma {:induction false} ChunksBytes(msg: Bytes, max: nat)
    requires 0 < max
    ensures WireBytes(Chunks(msg, max)) == |msg|
    decreases |msg|
  {
    if msg != [] {
      var n := Min(|msg|, max);
      ChunksBytes(msg[n..], max);
      assert Chunks(msg, max)[1..] == Chunks(msg[n..], max);
    }
  }

  function Sent(m: Bytes, max: nat): nat {
    if |m| <= max then |m| else |Header(|m|)| + |m|
  }

  lemma FragmentsBytes(m: Bytes, max: nat)
    requires 0 < max
    ensures WireBytes(Fragments(m, max)) == Sent(m, max) <= Cost(m, max)
  {
    if |m| > max {
      ChunksBytes(m, max);
      assert Fragments(m, max)[1..] == Chunks(m, max);
    } else {
      assert [m][1..] == [];
    }
  }

  // Messages cost at least what they are sent in, and more if one of them is short and does not pass
  lemma {:induction false} SendCosts(msgs: seq<Bytes>, max: nat, m: Bytes)
    requires 0 < max
    ensures WireBytes(SendAll(msgs, max)) <= Costs(msgs, max)
    ensures m in msgs && |m| <= max && !PassesAsIs(m, max) ==> WireBytes(SendAll(msgs, max)) < Costs(msgs, max)
  {
    if msgs != [] {
      WireBytesConcat(Fragments(msgs[0], max), SendAll(msgs[1..], max));
      FragmentsBytes(msgs[0], max);
      SendCosts(msgs[1..], max, m);
    }
  }

  /** A sequence of messages arrives as it was sent if and only if each of its messages is deliverable: none
      can make up for another that is not. */
  lemma DeliversExactlyIff(msgs: seq<Bytes>, max: nat)
    requires 0 < max && forall m :: m in msgs ==> Sendable(m)
    ensures Listen(SendAll(msgs, max), max) == msgs <==> AllDeliverable(msgs, max)
  {
    if AllDeliverable(msgs, max) {
      DeliversExactly(msgs, max);
    }
    if Listen(SendAll(msgs, max), max) == msgs {
      forall m | m in msgs
        ensures Deliverable(m, max)
      {
        ArrivedIsDeliverable(msgs, max, m);
      }
    }
  }

  lemma ArrivedIsDeliverable(msgs: seq<Bytes>, max: nat, m: Bytes)
    requires 0 < max && (forall x :: x in msgs ==> Sendable(x)) && m in msgs
    requires Listen(SendAll(msgs, max), max) == msgs
    ensures Deliverable(m, max)
  {
    ListenIsPaid(SendAll(msgs, max), max);
    assert AllPaid(SendAll(msgs, max), max, msgs);
    SendCosts(msgs, max, m);
    assert Arrives(m, max);
  }
}
