/** The polled transfer engine of saa7231_i2c.c against an arbitrary device:
    read number k of a run, of register r, returns `device(k, r)`. */
module I2cEngine {
  import opened Basics
  import opened I2cCodec

  const TX_FIFO_EMPTY: bv32 := 0x40
  const TXBUSY: bv32 := 0x880
  const RXBUSY: bv32 := 0x410
  const EIO: int := -5

  const HWINIT_READS: nat := 102
  const SEND_READS: nat := 1516
  const RECV_READS: nat := 101

  /** An i2c_msg; its buffer is a stretch of the caller's memory. */
  datatype Msg = Msg(head: Header, at: nat, len: nat) {
    predicate Reads() { head.rd }

    predicate Covers(b: nat) { at <= b < at + len }

    /** Some byte lies in both buffers. */
    predicate Overlaps(m: Msg) { at < m.at + m.len && m.at < at + len && len > 0 && m.len > 0 }

    function Slice(memory: seq<bv8>): (data: seq<bv8>)
      requires at + len <= |memory|
      ensures |data| == len
    {
      memory[at..at + len]
    }
  }

  predicate InMemory(msgs: seq<Msg>, size: nat) { forall m :: m in msgs ==> m.at + m.len <= size }

  function Values(msgs: seq<Msg>, memory: seq<bv8>): (ms: seq<Message>)
    requires InMemory(msgs, |memory|)
    ensures |ms| == |msgs|
    ensures forall k :: 0 <= k < |msgs| ==> ms[k] == Message(msgs[k].head, msgs[k].Slice(memory))
  {
    seq(|msgs|, k requires 0 <= k < |msgs| => Message(msgs[k].head, msgs[k].Slice(memory)))
  }

  /** The values stand for the messages, whose buffers lie in memory. */
  ghost predicate Shaped(msgs: seq<Msg>, ms: seq<Message>, size: nat) {
    |msgs| == |ms| && forall k :: 0 <= k < |msgs| ==> ShapedAt(msgs[k], ms[k], size)
  }

  predicate ShapedAt(m: Msg, v: Message, size: nat) {
    m.head == v.head && m.len == |v.data| && m.at + m.len <= size
  }

  /** The registers the engine reads. */
  datatype Register = Status | Control | RxFifo

  type Device = (nat, Register) -> bv32

  /** The bits of a status word the engine looks at. */
  predicate ShowsRoom(status: bv32) { status & TX_FIFO_EMPTY != 0 }

  predicate ShowsBusy(status: bv32) { status & TXBUSY != 0 }

  predicate ShowsData(status: bv32) { status & RXBUSY == 0 }

  predicate ShowsIdle(status: bv32) { status & 0xd != 0 }

  /** Which bits those are: 6 is room; 7 and 11 a full or blocked transmit FIFO;
      4 and 10 an empty or blocked receive FIFO; 0, 2 and 3 a line that is up. */
  lemma RoomBit(s: bv32)
    ensures ShowsRoom(s) <==> (s >> 6) & 1 == 1
  {
  }

  lemma BusyBits(s: bv32)
    ensures ShowsBusy(s) <==> ((s >> 7) & 1 == 1 || (s >> 11) & 1 == 1)
  {
  }

  lemma DataBits(s: bv32)
    ensures ShowsData(s) <==> ((s >> 4) & 1 == 0 && (s >> 10) & 1 == 0)
  {
  }

  lemma IdleBits(s: bv32)
    ensures ShowsIdle(s) <==> (s & 1 == 1 || (s >> 2) & 1 == 1 || (s >> 3) & 1 == 1)
  {
  }

  function Low(w: bv32): bv8 { (w & 0xff) as bv8 }

  /** A u8 keeps the low eight bits of what is stored in it. */
  lemma LowByte(w: bv32)
    ensures Low(w) as bv32 == w & 0xff
  {
  }

  lemma {:induction false} ReadLengthGrows(ms: seq<Message>, i: nat, n: nat)
    requires i <= n <= |ms|
    ensures ReadLength(ms, i) <= ReadLength(ms, n) && TotalLength(ms, i) <= TotalLength(ms, n)
    decreases n - i
  {
    if i < n {
      ReadLengthGrows(ms, i + 1, n);
    }
  }

  /** The read message, among the first n, that byte t of all bytes read is
      for. */
  function Reader(ms: seq<Message>, n: nat, t: nat): (i: nat)
    requires n <= |ms| && t < ReadLength(ms, n)
    ensures i < n && ms[i].Reads() && ReadLength(ms, i) <= t < ReadLength(ms, i) + |ms[i].data|
  {
    if t >= ReadLength(ms, n - 1) then n - 1 else Reader(ms, n - 1, t)
  }

  lemma ReaderOf(ms: seq<Message>, i: nat, j: nat)
    requires i < |ms| && ms[i].Reads() && j < |ms[i].data|
    ensures ReadLength(ms, i) + j < ReadLength(ms, |ms|) && Reader(ms, |ms|, ReadLength(ms, i) + j) == i
  {
    ReadLengthGrows(ms, i + 1, |ms|);
    var k := Reader(ms, |ms|, ReadLength(ms, i) + j);
    if k < i {
      ReadLengthGrows(ms, k + 1, i);
    } else if i < k {
      ReadLengthGrows(ms, i + 1, k);
    }
  }

  function Taken(device: Device, r: nat): bv8 { Low(device(r, RxFifo)) }

  /** Memory after the register reads `taken` emptied the receive FIFO, however
      the messages' buffers overlap. */
  ghost function Stored(device: Device, msgs: seq<Msg>, ms: seq<Message>, memory: seq<bv8>, taken: seq<nat>)
    : (stored: seq<bv8>)
    requires Shaped(msgs, ms, |memory|) && |taken| <= ReadLength(ms, |ms|)
    ensures |stored| == |memory|
    decreases |taken|
  {
    if taken == [] then memory
    else
      var n := |taken| - 1;
      var i := Reader(ms, |ms|, n);
      assert ShapedAt(msgs[i], ms[i], |memory|);
      Stored(device, msgs, ms, memory, taken[..n])[msgs[i].at + (n - ReadLength(ms, i)) := Taken(device, taken[n])]
  }

  lemma {:induction false} StoredStep(device: Device, msgs: seq<Msg>, ms: seq<Message>, memory: seq<bv8>,
                                      i: nat, j: nat, taken: seq<nat>, r: nat)
    requires Shaped(msgs, ms, |memory|) && i < |ms| && ms[i].Reads() && j < |ms[i].data|
    requires |taken| == ReadLength(ms, i) + j && |taken| < ReadLength(ms, |ms|)
    ensures msgs[i].at + j < |memory|
    ensures Stored(device, msgs, ms, memory, taken + [r])
         == Stored(device, msgs, ms, memory, taken)[msgs[i].at + j := Taken(device, r)]
  {
    ReaderOf(ms, i, j);
    assert ShapedAt(msgs[i], ms[i], |memory|);
    assert (taken + [r])[..|taken|] == taken;
  }

  function Least(a: nat, b: nat): nat { if a < b then a else b }

  /** Message k as it goes out: a write sends what its buffer holds when its
      turn comes, which earlier reads may have put there. */
  ghost function Sent(device: Device, msgs: seq<Msg>, ms: seq<Message>, memory: seq<bv8>, k: nat, taken: seq<nat>)
    : (m: Message)
    requires Shaped(msgs, ms, |memory|) && k < |ms| && |taken| <= ReadLength(ms, |ms|)
    ensures m.head == ms[k].head && |m.data| == |ms[k].data|
  {
    assert ShapedAt(msgs[k], ms[k], |memory|);
    if ms[k].Reads() then ms[k]
    else
      var stored := Stored(device, msgs, ms, memory, taken[..Least(|taken|, ReadLength(ms, k))]);
      Message(ms[k].head, msgs[k].Slice(stored))
  }

  /** `said` are the messages as they go out. */
  ghost predicate Tells(device: Device, msgs: seq<Msg>, ms: seq<Message>, memory: seq<bv8>, said: seq<Message>,
                        taken: seq<nat>) {
    Shaped(msgs, ms, |memory|) && |said| == |ms| && |taken| <= ReadLength(ms, |ms|) &&
    forall k {:trigger Sent(device, msgs, ms, memory, k, taken)} :: 0 <= k < |ms| ==>
      said[k] == Sent(device, msgs, ms, memory, k, taken)
  }

  lemma {:induction false} Tell(device: Device, msgs: seq<Msg>, ms: seq<Message>, memory: seq<bv8>, taken: seq<nat>)
    returns (said: seq<Message>)
    requires Shaped(msgs, ms, |memory|) && |taken| <= ReadLength(ms, |ms|)
    ensures Tells(device, msgs, ms, memory, said, taken)
  {
    said := seq(|ms|, k requires 0 <= k < |ms| => Sent(device, msgs, ms, memory, k, taken));
  }

  /** What was said up to message i stays when a word is taken for it. */
  lemma {:induction false} TellOn(device: Device, msgs: seq<Msg>, ms: seq<Message>, memory: seq<bv8>,
                                  said: seq<Message>, taken: seq<nat>, r: nat, i: nat)
    returns (said': seq<Message>)
    requires Tells(device, msgs, ms, memory, said, taken)
    requires i < |ms| && ReadLength(ms, i) <= |taken| < ReadLength(ms, |ms|)
    ensures Tells(device, msgs, ms, memory, said', taken + [r]) && forall k :: 0 <= k <= i ==> said'[k] == said[k]
  {
    said' := Tell(device, msgs, ms, memory, taken + [r]);
    forall k | 0 <= k <= i
      ensures said'[k] == said[k]
    {
      SentStays(device, msgs, ms, memory, taken, r, i, k);
    }
  }

  /** A word taken for message i changes no message up to i. */
  lemma {:induction false} SentStays(device: Device, msgs: seq<Msg>, ms: seq<Message>, memory: seq<bv8>,
                                     taken: seq<nat>, r: nat, i: nat, k: nat)
    requires Shaped(msgs, ms, |memory|) && k <= i < |ms| && ReadLength(ms, i) <= |taken| < ReadLength(ms, |ms|)
    ensures Sent(device, msgs, ms, memory, k, taken + [r]) == Sent(device, msgs, ms, memory, k, taken)
  {
    ReadLengthGrows(ms, k, i);
    var n := ReadLength(ms, k);
    assert (taken + [r])[..n] == taken[..n];
  }

  lemma {:induction false} SameLengths(a: seq<Message>, b: seq<Message>, n: nat)
    requires |a| == |b| && n <= |a|
    requires forall k :: 0 <= k < |a| ==> a[k].head == b[k].head && |a[k].data| == |b[k].data|
    ensures TotalLength(a, n) == TotalLength(b, n) && ReadLength(a, n) == ReadLength(b, n)
  {
    if n > 0 {
      SameLengths(a, b, n - 1);
    }
  }

  // ---------------------------------------------------------------------
  // What that means where buffers do not overlap

  /** Message i with its part of the bytes read, in message order. */
  ghost function Filled(device: Device, ms: seq<Message>, i: nat, taken: seq<nat>): (data: seq<bv8>)
    requires i < |ms|
    ensures |data| == |ms[i].data|
  {
    var first := ReadLength(ms, i);
    seq(|ms[i].data|, j requires 0 <= j < |ms[i].data| =>
      if first + j < |taken| then Taken(device, taken[first + j]) else ms[i].data[j])
  }

  lemma {:induction false} FilledStep(device: Device, ms: seq<Message>, i: nat, j: nat, taken: seq<nat>, r: nat, k: nat)
    requires i < |ms| && ms[i].Reads() && j < |ms[i].data| && k < |ms| && ms[k].Reads()
    requires |taken| == ReadLength(ms, i) + j
    ensures Filled(device, ms, k, taken + [r])
         == if k == i then Filled(device, ms, k, taken)[j := Taken(device, r)] else Filled(device, ms, k, taken)
  {
    if k < i {
      ReadLengthGrows(ms, k + 1, i);
    } else if i < k {
      ReadLengthGrows(ms, i + 1, k);
    }
  }

  /** Writing one byte of memory, seen through one buffer. */
  lemma SliceAfter(m: Msg, memory: seq<bv8>, b: nat, v: bv8)
    requires m.at + m.len <= |memory| && b < |memory|
    ensures m.Slice(memory[b := v]) == if m.Covers(b) then m.Slice(memory)[b - m.at := v] else m.Slice(memory)
  {
  }

  /** A read into a buffer no other read overlaps ends with its own bytes, in
      order, and what was there before past them. */
  lemma {:induction false} StoredIsFilled(device: Device, msgs: seq<Msg>, ms: seq<Message>, memory: seq<bv8>, k: nat,
                                          taken: seq<nat>)
    requires Shaped(msgs, ms, |memory|) && k < |ms| && |taken| <= ReadLength(ms, |ms|) && ms[k].Reads()
    requires msgs[k].at + msgs[k].len <= |memory| && ms[k].data == msgs[k].Slice(memory)
    requires forall i :: 0 <= i < |ms| && i != k && msgs[i].Overlaps(msgs[k]) ==> !ms[i].Reads()
    ensures msgs[k].Slice(Stored(device, msgs, ms, memory, taken)) == Filled(device, ms, k, taken)
    decreases |taken|
  {
    if taken != [] {
      var n := |taken| - 1;
      StoredIsFilled(device, msgs, ms, memory, k, taken[..n]);
      var i := Reader(ms, |ms|, n);
      var j := n - ReadLength(ms, i);
      assert taken[..n] + [taken[n]] == taken;
      assert ShapedAt(msgs[i], ms[i], |memory|);
      StoredStep(device, msgs, ms, memory, i, j, taken[..n], taken[n]);
      SliceFilled(device, msgs, ms, Stored(device, msgs, ms, memory, taken[..n]), k, i, j, taken[..n], taken[n]);
    }
  }

  /** One more byte received, of this read or of another. */
  lemma {:induction false} SliceFilled(device: Device, msgs: seq<Msg>, ms: seq<Message>, stored: seq<bv8>, k: nat,
                                       i: nat, j: nat, taken: seq<nat>, r: nat)
    requires Shaped(msgs, ms, |stored|) && k < |ms| && ms[k].Reads() && msgs[k].at + msgs[k].len <= |stored|
    requires i < |ms| && ms[i].Reads() && j < |ms[i].data| && |taken| == ReadLength(ms, i) + j
    requires msgs[i].at + j < |stored|
    requires forall l :: 0 <= l < |ms| && l != k && msgs[l].Overlaps(msgs[k]) ==> !ms[l].Reads()
    requires msgs[k].Slice(stored) == Filled(device, ms, k, taken)
    ensures msgs[k].Slice(stored[msgs[i].at + j := Taken(device, r)]) == Filled(device, ms, k, taken + [r])
  {
    assert ShapedAt(msgs[i], ms[i], |stored|);
    FilledStep(device, ms, i, j, taken, r, k);
    SliceAfter(msgs[k], stored, msgs[i].at + j, Taken(device, r));
  }

  /** So each of its bytes is the low eight bits of the word received for it. */
  lemma {:induction false} StoredByte(device: Device, msgs: seq<Msg>, ms: seq<Message>, memory: seq<bv8>, k: nat,
                                      taken: seq<nat>, j: nat)
    requires Shaped(msgs, ms, |memory|) && k < |ms| && |taken| <= ReadLength(ms, |ms|) && ms[k].Reads()
    requires msgs[k].at + msgs[k].len <= |memory| && ms[k].data == msgs[k].Slice(memory)
    requires forall i :: 0 <= i < |ms| && i != k && msgs[i].Overlaps(msgs[k]) ==> !ms[i].Reads()
    requires j < msgs[k].len && ReadLength(ms, k) + j < |taken|
    ensures Stored(device, msgs, ms, memory, taken)[msgs[k].at + j] as bv32
         == device(taken[ReadLength(ms, k) + j], RxFifo) & 0xff
  {
    assert ShapedAt(msgs[k], ms[k], |memory|);
    StoredIsFilled(device, msgs, ms, memory, k, taken);
    assert Filled(device, ms, k, taken)[j] == Taken(device, taken[ReadLength(ms, k) + j]);
    LowByte(device(taken[ReadLength(ms, k) + j], RxFifo));
    var stored := Stored(device, msgs, ms, memory, taken);
    assert stored[msgs[k].at + j] == msgs[k].Slice(stored)[j];
  }

  /** A byte keeps what it held as long as only messages from some later one on
      read into it. */
  lemma {:induction false} StoredUntil(device: Device, msgs: seq<Msg>, ms: seq<Message>, memory: seq<bv8>, b: nat,
                                       taken: seq<nat>, n: nat)
    requires Shaped(msgs, ms, |memory|) && b < |memory| && n <= |ms| && |taken| <= ReadLength(ms, n)
    requires forall i :: 0 <= i < n && msgs[i].Covers(b) ==> !ms[i].Reads()
    ensures |taken| <= ReadLength(ms, |ms|) && Stored(device, msgs, ms, memory, taken)[b] == memory[b]
    decreases |taken|
  {
    ReadLengthGrows(ms, n, |ms|);
    if taken != [] {
      StoredUntil(device, msgs, ms, memory, b, taken[..|taken| - 1], n);
      var i := Reader(ms, |ms|, |taken| - 1);
      assert ShapedAt(msgs[i], ms[i], |memory|);
      if n <= i {
        ReadLengthGrows(ms, n, i);
      }
    }
  }

  /** A write whose buffer no earlier read overlaps goes out as it was given. */
  lemma {:induction false} SentAsGiven(device: Device, msgs: seq<Msg>, ms: seq<Message>, memory: seq<bv8>, k: nat,
                                       taken: seq<nat>)
    requires Shaped(msgs, ms, |memory|) && k < |ms| && |taken| <= ReadLength(ms, |ms|)
    requires msgs[k].at + msgs[k].len <= |memory| && ms[k].data == msgs[k].Slice(memory)
    requires forall i :: 0 <= i < k && msgs[i].Overlaps(msgs[k]) ==> !ms[i].Reads()
    ensures Sent(device, msgs, ms, memory, k, taken) == ms[k]
  {
    if !ms[k].Reads() {
      var part := taken[..Least(|taken|, ReadLength(ms, k))];
      forall b | msgs[k].at <= b < msgs[k].at + msgs[k].len
        ensures Stored(device, msgs, ms, memory, part)[b] == memory[b]
      {
        StoredUntil(device, msgs, ms, memory, b, part, k);
      }
    }
  }

  /** Where no read's buffer overlaps another message's: once a transfer is
      through, decoding what was pushed gives every message back as it was
      given, and every read has its own bytes. */
  lemma {:induction false} WholeTransfer(device: Device, msgs: seq<Msg>, memory: seq<bv8>, said: seq<Message>,
                                         taken: seq<nat>)
    requires InMemory(msgs, |memory|)
    requires Tells(device, msgs, Values(msgs, memory), memory, said, taken)
    requires |taken| == ReadLength(Values(msgs, memory), |msgs|)
    requires forall k :: 0 <= k < |msgs| ==> Alone(msgs, k)
    requires forall m :: m in msgs ==> m.head.SevenBit()
    ensures Decode(Encode(said)) == Some(Meanings(Values(msgs, memory), |msgs|))
    ensures forall k, j :: 0 <= k < |msgs| && msgs[k].Reads() && 0 <= j < msgs[k].len ==>
      ByteAt(device, Values(msgs, memory), Stored(device, msgs, Values(msgs, memory), memory, taken), msgs, k, j, taken)
  {
    var ms := Values(msgs, memory);
    forall k | 0 <= k < |msgs|
      ensures said[k] == ms[k] && ms[k].SevenBit()
    {
      assert msgs[k] in msgs;
      assert said[k] == Sent(device, msgs, ms, memory, k, taken);
      assert Alone(msgs, k);
      SentAsGiven(device, msgs, ms, memory, k, taken);
    }
    assert said == ms;
    RoundTripIff(ms);
    BytesReceived(device, msgs, memory, taken);
  }

  /** What memory holds of the reads that no other read overlaps, once all words
      have been received. */
  lemma {:induction false} BytesReceived(device: Device, msgs: seq<Msg>, memory: seq<bv8>, taken: seq<nat>)
    requires InMemory(msgs, |memory|) && Shaped(msgs, Values(msgs, memory), |memory|)
    requires |taken| == ReadLength(Values(msgs, memory), |msgs|)
    ensures forall k, j :: 0 <= k < |msgs| && msgs[k].Reads() && 0 <= j < msgs[k].len && Alone(msgs, k) ==>
      ByteAt(device, Values(msgs, memory), Stored(device, msgs, Values(msgs, memory), memory, taken), msgs, k, j, taken)
  {
    var ms := Values(msgs, memory);
    forall k, j | 0 <= k < |msgs| && msgs[k].Reads() && 0 <= j < msgs[k].len && Alone(msgs, k)
      ensures ByteAt(device, ms, Stored(device, msgs, ms, memory, taken), msgs, k, j, taken)
    {
      assert msgs[k] in msgs;
      ReadLengthGrows(ms, k + 1, |ms|);
      StoredByte(device, msgs, ms, memory, k, taken, j);
    }
  }

  /** Byte j of read k is the low eight bits of the word received for it. */
  ghost predicate ByteAt(device: Device, ms: seq<Message>, memory: seq<bv8>, msgs: seq<Msg>, k: nat, j: nat,
                         taken: seq<nat>)
    requires k < |msgs| == |ms|
  {
    msgs[k].at + j < |memory| && ReadLength(ms, k) + j < |taken| &&
    memory[msgs[k].at + j] as bv32 == device(taken[ReadLength(ms, k) + j], RxFifo) & 0xff
  }

  /** The address word as the transfer assembles it. */
  method AddressData(addr: bv32, rd: bool) returns (data: bv32)
    ensures data == Address(addr, rd)
  {
    data := (addr << 1) | START;
    if rd {
      data := data | 1;
    }
  }

  /** The data word as the transfer assembles it. */
  method ByteData(memory: array<bv8>, msg: Msg, j: nat, last: bool, ghost m: Message) returns (data: bv32)
    requires msg.head == m.head && j < msg.len == |m.data| && msg.at + msg.len <= memory.Length
    requires !m.Reads() ==> memory[msg.at + j] == m.data[j]
    ensures data == DataWord(m, j, last)
  {
    if msg.Reads() {
      data := 0;
    } else {
      data := memory[msg.at + j] as bv32;
    }
    if last {
      data := data | STOP;
    }
  }

  /** The register reads added to a list since a transfer began lie within the
      transfer, ascend, and showed what they should. */
  ghost predicate Witnessed(list: seq<nat>, before: seq<nat>, first: nat, end: nat, shows: nat -> bool) {
    before <= list &&
    (forall k :: |before| <= k < |list| ==> first < list[k] < end && shows(list[k])) &&
    forall k, l :: |before| <= k < l < |list| ==> list[k] < list[l]
  }

  lemma WitnessedStep(list: seq<nat>, before: seq<nat>, first: nat, end: nat, shows: nat -> bool, r: nat)
    requires Witnessed(list, before, first, end, shows) && end <= r && first < r && shows(r)
    ensures Witnessed(list + [r], before, first, r + 1, shows)
  {
  }

  lemma WitnessedLater(list: seq<nat>, before: seq<nat>, first: nat, end: nat, shows: nat -> bool, end': nat)
    requires Witnessed(list, before, first, end, shows) && end <= end'
    ensures Witnessed(list, before, first, end', shows)
  {
  }

  /** How many reads came before a word was pushed, and the read that showed it
      gone. */
  datatype Ack = Ack(pushed: nat, gone: nat)

  /** Each word pushed since a transfer began was seen to leave before the next
      one was pushed. */
  ghost predicate Confirmed(list: seq<Ack>, before: seq<Ack>, first: nat, end: nat, room: nat -> bool) {
    before <= list &&
    (forall k :: |before| <= k < |list| ==> first < list[k].pushed <= list[k].gone < end && room(list[k].gone)) &&
    forall k, l :: |before| <= k < l < |list| ==> list[k].gone < list[l].pushed
  }

  lemma ConfirmedStep(list: seq<Ack>, before: seq<Ack>, first: nat, end: nat, room: nat -> bool, a: Ack)
    requires Confirmed(list, before, first, end, room)
    requires end <= a.pushed <= a.gone && first < a.pushed && room(a.gone)
    ensures Confirmed(list + [a], before, first, a.gone + 1, room)
  {
  }

  lemma ConfirmedLater(list: seq<Ack>, before: seq<Ack>, first: nat, end: nat, room: nat -> bool, end': nat)
    requires Confirmed(list, before, first, end, room) && end <= end'
    ensures Confirmed(list, before, first, end', room)
  {
  }

  /** The read itself showed room; the read before it showed data. */
  function RoomAt(device: Device): nat -> bool { (r: nat) => ShowsRoom(device(r, Status)) }

  function DataBefore(device: Device): nat -> bool { (r: nat) => r > 0 && ShowsData(device(r - 1, Status)) }

  lemma PrefixAfter(a: seq<bv32>, b: seq<bv32>, c: seq<bv32>)
    requires b <= c
    ensures a <= a + b <= a + c
  {
  }

  /** Where a transfer began. */
  datatype Start = Start(memory: seq<bv8>, sent: seq<bv32>, acked: seq<Ack>, taken: seq<nat>, readCount: nat)

  /** Bytes received once byte j of message i is done. */
  function Received(ms: seq<Message>, i: nat, j: nat): nat
    requires i < |ms|
  {
    ReadLength(ms, i) + (if ms[i].Reads() then j else 0)
  }

  class I2cBus {
    const device: Device
    /** The caller's memory. */
    const memory: array<bv8>
    var readCount: nat
    /** Words pushed into TX_FIFO. */
    var sent: seq<bv32>
    /** When the pushed words were seen to leave, and the register reads that
        took a word from RX_FIFO. */
    ghost var acked: seq<Ack>
    ghost var taken: seq<nat>

    constructor (device: Device, memory: array<bv8>)
      ensures this.device == device && this.memory == memory
      ensures readCount == 0 && sent == [] && acked == [] && taken == []
    {
      this.device, this.memory := device, memory;
      readCount, sent, acked, taken := 0, [], [], [];
    }

    method ReadReg(r: Register) returns (v: bv32)
      modifies this`readCount
      ensures v == device(old(readCount), r) && readCount == old(readCount) + 1
    {
      v := device(readCount, r);
      readCount := readCount + 1;
    }

    /** None of the n reads from `first` shows room in the transmit FIFO. */
    ghost predicate NeverRoom(first: nat, n: nat) {
      forall k :: first <= k < first + n ==> !ShowsRoom(device(k, Status))
    }

    ghost predicate NeverData(first: nat, n: nat) {
      forall k :: first <= k < first + n ==> !ShowsData(device(k, Status))
    }

    ghost predicate NeverReset(first: nat, n: nat) {
      forall k :: first <= k < first + n ==> device(k, Control) != 0xc0
    }

    /** The last reads of a reset that failed: busy lines, or no end to it. */
    ghost predicate ResetFailed()
      reads this`readCount
    {
      (readCount >= 1 && !ShowsIdle(device(readCount - 1, Status))) ||
      (readCount >= 100 && NeverReset(readCount - 100, 100))
    }

    /** What the last reads before an error showed: a word that never left, an
        answer that never came, or a failed reset. */
    ghost predicate Stuck()
      reads this`readCount
    {
      (readCount >= 1000 && NeverRoom(readCount - 1000, 1000)) ||
      (readCount >= 100 && NeverData(readCount - 100, 100)) ||
      ResetFailed()
    }

    /** The n reads of a reset that succeeded. */
    ghost predicate ResetOk(first: nat, n: nat) {
      3 <= n <= HWINIT_READS && ShowsIdle(device(first, Status)) &&
      NeverReset(first + 1, n - 3) && device(first + n - 2, Control) == 0xc0 &&
      ShowsIdle(device(first + n - 1, Status))
    }

    /** saa7231_i2c_hwinit: idle lines, a reset seen to end within 100 polls,
        idle lines again; the result follows from those reads alone. */
    method HwInit() returns (err: int)
      modifies this`readCount
      ensures err == 0 || err == EIO
      ensures var first, n := old(readCount), readCount - old(readCount);
        if !ShowsIdle(device(first, Status)) then err == EIO && n == 1
        else if NeverReset(first + 1, 100) then err == EIO && n == 101
        else
          3 <= n <= HWINIT_READS && NeverReset(first + 1, n - 3) && device(first + n - 2, Control) == 0xc0 &&
          (err == 0 <==> ShowsIdle(device(first + n - 1, Status)))
    {
      err := 0;
      var reg := ReadReg(Status);
      if !ShowsIdle(reg) {
        return EIO;
      }
      var i := 0;
      while i < 100
        invariant 0 <= i <= 100 && err == 0 && readCount == old(readCount) + 1 + i
        invariant NeverReset(old(readCount) + 1, i)
      {
        reg := ReadReg(Control);
        if reg == 0xc0 {
          break;
        }
        if i == 99 {
          err := EIO;
          break;
        }
        i := i + 1;
      }
      if err != 0 {
        return EIO;
      }
      reg := ReadReg(Status);
      if !ShowsIdle(reg) {
        return EIO;
      }
    }

    /** The rounds of a wait that began with read `first`: at each mark but the
        last a read showed the FIFO busy, and a reset that succeeded fills the
        reads up to the next mark. */
    ghost predicate Rounds(marks: seq<nat>, first: nat) {
      marks != [] && marks[0] == first + 1 &&
      forall k :: 0 <= k < |marks| - 1 ==> RoundAt(marks[k], marks[k + 1])
    }

    ghost predicate RoundAt(mark: nat, next: nat) {
      mark < next && ShowsBusy(device(mark, Status)) && ResetOk(mark + 1, next - mark - 1)
    }

    lemma OneMoreRound(marks: seq<nat>, first: nat, next: nat)
      requires Rounds(marks, first) && RoundAt(marks[|marks| - 1], next)
      ensures Rounds(marks + [next], first)
    {
      var more := marks + [next];
      forall k | 0 <= k < |more| - 1
        ensures RoundAt(more[k], more[k + 1])
      {
        assert k < |marks| - 1 ==> RoundAt(marks[k], marks[k + 1]);
      }
    }

    /** One round: a status read, and a reset if it shows the FIFO busy. */
    method OneRound() returns (free: bool, err: int)
      modifies this`readCount
      ensures old(readCount) < readCount <= old(readCount) + 1 + HWINIT_READS
      ensures err == 0 || (err == EIO && !free && ResetFailed())
      ensures free <==> !ShowsBusy(device(old(readCount), Status))
      ensures free ==> readCount == old(readCount) + 1
      ensures !free && err == 0 ==> RoundAt(old(readCount), readCount)
    {
      err := 0;
      var reg := ReadReg(Status);
      free := !ShowsBusy(reg);
      if !free {
        err := HwInit();
      }
    }

    /** The wait of saa7231_i2c_send for a busy FIFO: until a read shows it
        free, a reset fails, or five resets have succeeded. */
    method AwaitFree() returns (err: int, ghost marks: seq<nat>)
      modifies this`readCount
      ensures err == 0 || (err == EIO && ResetFailed())
      ensures old(readCount) < readCount <= old(readCount) + SEND_READS - 1000
      ensures Rounds(marks, old(readCount)) && |marks| <= 6
      ensures var last := marks[|marks| - 1];
        if !ShowsBusy(device(old(readCount), Status)) then err == 0 && |marks| == 1 && readCount == last
        else if err != 0 then |marks| <= 5 && ShowsBusy(device(last, Status))
        else if |marks| <= 5 then readCount == last + 1 && !ShowsBusy(device(last, Status))
        else readCount == last
    {
      err, marks := 0, [readCount + 1];
      var reg := ReadReg(Status);
      if ShowsBusy(reg) {
        var i := 0;
        while i < 5
          invariant 0 <= i <= 5 && err == 0 && |marks| == i + 1
          invariant Rounds(marks, old(readCount)) && readCount == marks[i]
          invariant old(readCount) < readCount <= old(readCount) + 1 + i * (1 + HWINIT_READS)
        {
          var free;
          free, err := OneRound();
          if err < 0 {
            return EIO, marks;
          }
          if free {
            break;
          }
          OneMoreRound(marks, old(readCount), readCount);
          marks := marks + [readCount];
          i := i + 1;
        }
      }
    }

    /** saa7231_i2c_send: a word is withheld only if a reset failed; once it is
        pushed, the result says whether it was seen to leave the FIFO within
        1000 polls. */
    method Send(data: bv32) returns (err: int)
      modifies this`readCount, this`sent, this`acked
      ensures err == 0 || err == EIO
      ensures old(readCount) < readCount <= old(readCount) + SEND_READS
      ensures err == 0 ==>
        sent == old(sent) + [data] && |acked| == |old(acked)| + 1 && acked[..|old(acked)|] == old(acked) &&
        var a := acked[|old(acked)|];
        old(readCount) < a.pushed <= a.gone == readCount - 1 && NeverRoom(a.pushed, a.gone - a.pushed) &&
        ShowsRoom(device(a.gone, Status))
      ensures err != 0 ==>
        acked == old(acked) &&
        ((sent == old(sent) && ResetFailed()) ||
         (sent == old(sent) + [data] && readCount > 1000 && NeverRoom(readCount - 1000, 1000)))
    {
      ghost var marks;
      err, marks := AwaitFree();
      if err != 0 {
        return;
      }
      sent := sent + [data];
      var reg: bv32 := 0;
      var i := 0;
      ghost var first := readCount;
      while i < 1000
        invariant 0 <= i <= 1000 && readCount == first + i && sent == old(sent) + [data]
        invariant acked == old(acked) && NeverRoom(first, i)
        invariant i > 0 ==> reg == device(readCount - 1, Status)
      {
        reg := ReadReg(Status);
        if ShowsRoom(reg) {
          break;
        }
        i := i + 1;
      }
      if !ShowsRoom(reg) {
        return EIO;
      }
      acked := acked + [Ack(first, readCount - 1)];
    }

    /** saa7231_i2c_recv: the word read right after the first status that shows
        data, within 100 polls. */
    method Recv() returns (err: int, data: bv32)
      modifies this`readCount, this`taken
      ensures err == 0 || err == EIO
      ensures err == 0 ==>
        2 <= readCount - old(readCount) <= RECV_READS && NeverData(old(readCount), readCount - old(readCount) - 2) &&
        ShowsData(device(readCount - 2, Status)) && data == device(readCount - 1, RxFifo) &&
        taken == old(taken) + [readCount - 1]
      ensures err != 0 ==>
        readCount == old(readCount) + 100 && NeverData(old(readCount), 100) && taken == old(taken)
    {
      err, data := 0, 0;
      var reg := 0;
      var i := 0;
      while i < 100
        invariant 0 <= i <= 100 && readCount == old(readCount) + i && taken == old(taken)
        invariant NeverData(old(readCount), i)
        invariant i > 0 ==> reg == device(readCount - 1, Status)
      {
        reg := ReadReg(Status);
        if ShowsData(reg) {
          break;
        }
        i := i + 1;
      }
      if !ShowsData(reg) {
        return EIO, 0;
      }
      data := ReadReg(RxFifo);
      taken := taken + [readCount - 1];
    }

    /** The words taken since the start, as register reads. */
    ghost function Got(start: Start): seq<nat>
      reads this`taken
    {
      if |start.taken| <= |taken| then taken[|start.taken|..] else []
    }

    /** Memory holds what was taken so far, everything else in it as before. */
    ghost predicate Holds(msgs: seq<Msg>, ms: seq<Message>, start: Start)
      reads this`taken, memory
    {
      Shaped(msgs, ms, |start.memory|) && start.taken <= taken && |Got(start)| <= ReadLength(ms, |ms|) &&
      memory[..] == Stored(device, msgs, ms, start.memory, Got(start))
    }

    ghost predicate Within(start: Start, sends: nat, recvs: nat)
      reads this`readCount
    {
      start.readCount < readCount <= start.readCount + 1 + SEND_READS * sends + RECV_READS * recvs
    }

    /** Every word was seen to leave by a read that showed room, before the next
        was pushed; every word taken was read right after a status that showed
        data. */
    ghost predicate Genuine(start: Start)
      reads this`readCount, this`acked, this`taken
    {
      Confirmed(acked, start.acked, start.readCount, readCount, RoomAt(device)) &&
      Witnessed(taken, start.taken, start.readCount, readCount, DataBefore(device))
    }

    /** `words` went out, each acknowledged, and `count` words came in. */
    ghost predicate Standing(msgs: seq<Msg>, ms: seq<Message>, words: seq<bv32>, count: nat, start: Start)
      reads this, memory
    {
      sent == start.sent + words && |acked| == |start.acked| + |words| && |taken| == |start.taken| + count &&
      Within(start, |words|, count) && Holds(msgs, ms, start) && Genuine(start)
    }

    /** The first i messages are done, `said` being the messages as they go. */
    ghost predicate Before(msgs: seq<Msg>, ms: seq<Message>, said: seq<Message>, i: nat, start: Start)
      reads this, memory
    {
      i <= |ms| && Tells(device, msgs, ms, start.memory, said, Got(start)) &&
      Standing(msgs, ms, Words(said, i), ReadLength(ms, i), start)
    }

    /** Everything before byte j of message i is done. */
    ghost predicate At(msgs: seq<Msg>, ms: seq<Message>, said: seq<Message>, i: nat, j: nat, start: Start)
      reads this, memory
    {
      i < |ms| && Tells(device, msgs, ms, start.memory, said, Got(start)) && j <= |said[i].data| == |ms[i].data| &&
      Standing(msgs, ms, WordsUpTo(said, i, j), Received(ms, i, j), start)
    }

    /** The transfer of `all` words was given up over a stuck device: a prefix
        of them went out and a prefix of the read bytes came in. */
    ghost predicate Stopped(msgs: seq<Msg>, ms: seq<Message>, all: seq<bv32>, start: Start)
      reads this, memory
    {
      Holds(msgs, ms, start) && start.sent <= sent <= start.sent + all &&
      Within(start, |all|, ReadLength(ms, |ms|)) && Genuine(start) && Stuck()
    }

    ghost predicate GivenUp(msgs: seq<Msg>, ms: seq<Message>, said: seq<Message>, start: Start)
      reads this, memory
    {
      Tells(device, msgs, ms, start.memory, said, Got(start)) && Stopped(msgs, ms, Encode(said), start)
    }

    /** Push the next of `all` words. */
    method Push(msgs: seq<Msg>, w: bv32, ghost ms: seq<Message>, ghost words: seq<bv32>, ghost all: seq<bv32>,
                ghost count: nat, ghost start: Start)
      returns (err: int)
      requires Standing(msgs, ms, words, count, start)
      requires words + [w] <= all && count <= ReadLength(ms, |ms|)
      modifies this`readCount, this`sent, this`acked
      ensures err == 0 || err == EIO
      ensures err == 0 ==> Standing(msgs, ms, words + [w], count, start)
      ensures err != 0 ==> Stopped(msgs, ms, all, start)
    {
      ghost var acked0, end0 := acked, readCount;
      PrefixAfter(start.sent, words, all);
      PrefixAfter(start.sent, words + [w], all);
      err := Send(w);
      assert start.sent + words + [w] == start.sent + (words + [w]);
      StillGenuine(acked0, end0, start);
    }

    /** What the reads of a push leave of the evidence. */
    lemma StillGenuine(acked0: seq<Ack>, end0: nat, start: Start)
      requires Confirmed(acked0, start.acked, start.readCount, end0, RoomAt(device))
      requires Witnessed(taken, start.taken, start.readCount, end0, DataBefore(device))
      requires start.readCount < end0 <= readCount && acked0 <= acked && |acked| <= |acked0| + 1
      requires |acked| == |acked0| + 1 ==>
        end0 <= acked[|acked0|].pushed <= acked[|acked0|].gone == readCount - 1 &&
        ShowsRoom(device(acked[|acked0|].gone, Status))
      ensures Genuine(start)
    {
      WitnessedLater(taken, start.taken, start.readCount, end0, DataBefore(device), readCount);
      if |acked| == |acked0| + 1 {
        assert acked == acked0 + [acked[|acked0|]];
        ConfirmedStep(acked0, start.acked, start.readCount, end0, RoomAt(device), acked[|acked0|]);
      } else {
        ConfirmedLater(acked0, start.acked, start.readCount, end0, RoomAt(device), readCount);
      }
    }

    /** Take one byte of read message i. */
    method Take(msgs: seq<Msg>, i: nat, j: nat, ghost ms: seq<Message>, ghost words: seq<bv32>, ghost all: seq<bv32>,
                ghost start: Start)
      returns (err: int)
      requires |ms| == |msgs| && i < |ms| && j < |ms[i].data|
      requires ms[i].Reads() && Standing(msgs, ms, words, Received(ms, i, j), start) && words <= all
      modifies this`readCount, this`taken, memory
      ensures err == 0 || err == EIO
      ensures err == 0 ==> Standing(msgs, ms, words, Received(ms, i, j + 1), start)
      ensures err == 0 ==> taken != [] && Got(start) == old(Got(start)) + [taken[|taken| - 1]]
      ensures err != 0 ==> Stopped(msgs, ms, all, start) && taken == old(taken)
    {
      ReadLengthGrows(ms, i + 1, |ms|);
      PrefixAfter(start.sent, words, all);
      err := TakeByte(msgs, i, j, ms, start);
    }

    /** One word more, with the reads that prove it. */
    method TakeWord(ghost start: Start) returns (err: int, data: bv32)
      requires Genuine(start) && start.readCount < readCount
      modifies this`readCount, this`taken
      ensures Genuine(start) && old(readCount) < readCount <= old(readCount) + RECV_READS
      ensures err == 0 || (err == EIO && Stuck() && taken == old(taken))
      ensures err == 0 ==>
        old(taken) <= taken && |taken| == |old(taken)| + 1 && data == device(taken[|old(taken)|], RxFifo)
    {
      ghost var taken0, end0 := taken, readCount;
      err, data := Recv();
      ConfirmedLater(acked, start.acked, start.readCount, end0, RoomAt(device), readCount);
      if err == 0 {
        WitnessedStep(taken0, start.taken, start.readCount, end0, DataBefore(device), readCount - 1);
      } else {
        WitnessedLater(taken, start.taken, start.readCount, end0, DataBefore(device), readCount);
      }
    }

    /** One word taken and its byte stored. */
    method TakeByte(msgs: seq<Msg>, i: nat, j: nat, ghost ms: seq<Message>, ghost start: Start)
      returns (err: int)
      requires |ms| == |msgs| && i < |ms| && j < |ms[i].data| && ms[i].Reads()
      requires Holds(msgs, ms, start) && Genuine(start) && start.readCount < readCount
      requires |taken| == |start.taken| + Received(ms, i, j) && Received(ms, i, j) < ReadLength(ms, |ms|)
      modifies this`readCount, this`taken, memory
      ensures Genuine(start) && old(readCount) < readCount <= old(readCount) + RECV_READS && Holds(msgs, ms, start)
      ensures err == 0 || (err == EIO && Stuck() && taken == old(taken))
      ensures err == 0 ==> |taken| == |old(taken)| + 1 && Got(start) == old(Got(start)) + [taken[|taken| - 1]]
    {
      ghost var taken0 := taken;
      var word;
      err, word := TakeWord(start);
      if err == 0 {
        Store(msgs, i, j, word, ms, taken0, start);
      }
    }

    /** The byte goes where the word just taken belongs. */
    method Store(msgs: seq<Msg>, i: nat, j: nat, data: bv32, ghost ms: seq<Message>, ghost taken0: seq<nat>,
                 ghost start: Start)
      requires Shaped(msgs, ms, |start.memory|) && i < |ms| && j < |ms[i].data| && ms[i].Reads()
      requires start.taken <= taken0 && |taken0| == |start.taken| + Received(ms, i, j)
      requires taken0 <= taken && |taken| == |taken0| + 1 && data == device(taken[|taken0|], RxFifo)
      requires Received(ms, i, j) < ReadLength(ms, |ms|)
      requires memory[..] == Stored(device, msgs, ms, start.memory, taken0[|start.taken|..])
      modifies memory
      ensures Holds(msgs, ms, start) && Got(start) == taken0[|start.taken|..] + [taken[|taken0|]]
    {
      ghost var got, r := taken0[|start.taken|..], taken[|taken0|];
      assert taken[|start.taken|..] == got + [r];
      StoredStep(device, msgs, ms, start.memory, i, j, got, r);
      memory[msgs[i].at + j] := Low(data);
    }

    /** The inner loop's body of saa7231_i2c_xfer: one byte either way. */
    method OneByte(msgs: seq<Msg>, i: nat, j: nat, ghost ms: seq<Message>, ghost said: seq<Message>, ghost start: Start)
      returns (err: int, ghost said': seq<Message>)
      requires |ms| == |msgs| && i < |ms| && j < |ms[i].data|
      requires At(msgs, ms, said, i, j, start)
      modifies this`readCount, this`sent, this`acked, this`taken, memory
      ensures err == 0 || err == EIO
      ensures err == 0 ==> At(msgs, ms, said', i, j + 1, start)
      ensures err != 0 ==> GivenUp(msgs, ms, said', start)
    {
      said' := said;
      ghost var words, all := WordsUpTo(said, i, j), Encode(said);
      UpToPrefix(said, i, j + 1);
      ReceivedWithin(ms, i, j);
      SaidNow(msgs, ms, said, i, j, start);
      assert !ms[i].Reads() ==> memory[msgs[i].at + j] == msgs[i].Slice(memory[..])[j];
      var data := ByteData(memory, msgs[i], j, i == |msgs| - 1 && j == msgs[i].len - 1, said[i]);
      assert WordsUpTo(said, i, j + 1) == words + [data];
      err := Push(msgs, data, ms, words, all, Received(ms, i, j), start);
      if err == 0 && msgs[i].Reads() {
        err, said' := TakeOne(msgs, i, j, ms, said, start);
      }
    }

    /** The answer to the word sent for byte j. */
    method TakeOne(msgs: seq<Msg>, i: nat, j: nat, ghost ms: seq<Message>, ghost said: seq<Message>, ghost start: Start)
      returns (err: int, ghost said': seq<Message>)
      requires |ms| == |msgs| == |said| && i < |ms| && j < |ms[i].data| == |said[i].data|
      requires ms[i].Reads() && Tells(device, msgs, ms, start.memory, said, Got(start))
      requires Standing(msgs, ms, WordsUpTo(said, i, j + 1), Received(ms, i, j), start)
      modifies this`readCount, this`taken, memory
      ensures err == 0 || err == EIO
      ensures err == 0 ==> At(msgs, ms, said', i, j + 1, start)
      ensures err != 0 ==> GivenUp(msgs, ms, said', start)
    {
      said' := said;
      ghost var got := Got(start);
      UpToPrefix(said, i, j + 1);
      ReceivedWithin(ms, i, j + 1);
      err := Take(msgs, i, j, ms, WordsUpTo(said, i, j + 1), Encode(said), start);
      if err == 0 {
        said' := TellOn(device, msgs, ms, start.memory, said, got, taken[|taken| - 1], i);
        WordsAgree(said, said', i, j + 1);
      }
    }

    /** A write about to go out holds what it will be said to have held. */
    lemma {:induction false} SaidNow(msgs: seq<Msg>, ms: seq<Message>, said: seq<Message>, i: nat, j: nat, start: Start)
      requires At(msgs, ms, said, i, j, start)
      ensures said[i].head == ms[i].head == msgs[i].head && msgs[i].len == |said[i].data|
      ensures msgs[i].at + msgs[i].len <= memory.Length
      ensures !ms[i].Reads() ==> msgs[i].Slice(memory[..]) == said[i].data
    {
      assert ShapedAt(msgs[i], ms[i], |start.memory|);
      assert said[i] == Sent(device, msgs, ms, start.memory, i, Got(start));
      if !ms[i].Reads() {
        assert Got(start)[..ReadLength(ms, i)] == Got(start);
      }
    }

    lemma {:induction false} SaidHead(msgs: seq<Msg>, ms: seq<Message>, said: seq<Message>, i: nat, start: Start)
      requires i < |ms| && Tells(device, msgs, ms, start.memory, said, Got(start))
      ensures said[i].head == ms[i].head == msgs[i].head && |said[i].data| == |ms[i].data| == msgs[i].len
    {
      assert ShapedAt(msgs[i], ms[i], |start.memory|);
      assert said[i] == Sent(device, msgs, ms, start.memory, i, Got(start));
    }

    /** START, address and direction of message i. */
    method OneAddress(msgs: seq<Msg>, i: nat, ghost ms: seq<Message>, ghost said: seq<Message>, ghost start: Start)
      returns (err: int)
      requires |ms| == |msgs| && i < |ms| && Before(msgs, ms, said, i, start)
      modifies this`readCount, this`sent, this`acked
      ensures err == 0 || err == EIO
      ensures err == 0 ==> At(msgs, ms, said, i, 0, start)
      ensures err != 0 ==> GivenUp(msgs, ms, said, start)
    {
      UpToPrefix(said, i, 0);
      ReceivedWithin(ms, i, 0);
      SaidHead(msgs, ms, said, i, start);
      var data := AddressData(msgs[i].head.addr, msgs[i].head.rd);
      err := Push(msgs, data, ms, Words(said, i), Encode(said), ReadLength(ms, i), start);
    }

    /** The outer loop's body: the address, then byte by byte. */
    method OneMessage(msgs: seq<Msg>, i: nat, ghost ms: seq<Message>, ghost said: seq<Message>, ghost start: Start)
      returns (err: int, ghost said': seq<Message>)
      requires |ms| == |msgs| && i < |ms|
      requires Before(msgs, ms, said, i, start)
      modifies this`readCount, this`sent, this`acked, this`taken, memory
      ensures err == 0 || err == EIO
      ensures err == 0 ==> Before(msgs, ms, said', i + 1, start)
      ensures err != 0 ==> GivenUp(msgs, ms, said', start)
    {
      said' := said;
      err := OneAddress(msgs, i, ms, said, start);
      if err == 0 {
        err, said' := AllBytes(msgs, i, ms, said, start);
      }
    }

    /** The inner loop. */
    method AllBytes(msgs: seq<Msg>, i: nat, ghost ms: seq<Message>, ghost said: seq<Message>, ghost start: Start)
      returns (err: int, ghost said': seq<Message>)
      requires |ms| == |msgs| && i < |ms|
      requires At(msgs, ms, said, i, 0, start)
      modifies this`readCount, this`sent, this`acked, this`taken, memory
      ensures err == 0 || err == EIO
      ensures err == 0 ==> At(msgs, ms, said', i, |ms[i].data|, start)
      ensures err != 0 ==> GivenUp(msgs, ms, said', start)
    {
      err, said' := 0, said;
      var j := 0;
      while j < msgs[i].len
        invariant 0 <= j <= |ms[i].data| && err == 0 && At(msgs, ms, said', i, j, start)
      {
        err, said' := OneByte(msgs, i, j, ms, said', start);
        if err != 0 {
          return;
        }
        j := j + 1;
      }
    }

    /** The outer loop, to its end or to the first error. */
    method AllMessages(msgs: seq<Msg>, ghost ms: seq<Message>, ghost said: seq<Message>, ghost start: Start)
      returns (err: int, ghost said': seq<Message>)
      requires |ms| == |msgs|
      requires Before(msgs, ms, said, 0, start)
      modifies this`readCount, this`sent, this`acked, this`taken, memory
      ensures err == 0 || err == EIO
      ensures err == 0 ==> Before(msgs, ms, said', |ms|, start)
      ensures err != 0 ==> GivenUp(msgs, ms, said', start)
    {
      err, said' := 0, said;
      var i := 0;
      while i < |msgs|
        invariant 0 <= i <= |msgs| && err == 0 && Before(msgs, ms, said', i, start)
      {
        err, said' := OneMessage(msgs, i, ms, said', start);
        if err != 0 {
          return;
        }
        i := i + 1;
      }
    }

    /** saa7231_i2c_xfer, for any messages, whether their buffers overlap or not;
        `said` are the messages as they stand when their turn comes.  On success
        exactly their encoding was pushed, each word seen to leave before the
        next, and memory holds the low bytes received, each in its place; an
        error means that the device's last answers were those of a stuck one,
        with a prefix of the encoding pushed and a prefix of the bytes received.
        Whatever the device answers, the number of register reads is bounded. */
    method Xfer(msgs: seq<Msg>) returns (ret: int, ghost said: seq<Message>)
      requires InMemory(msgs, memory.Length)
      modifies this`readCount, this`sent, this`acked, this`taken, memory
      ensures ret == |msgs| || ret == EIO
      ensures var ms := Values(msgs, old(memory[..]));
        var start := Start(old(memory[..]), old(sent), old(acked), old(taken), old(readCount));
        Holds(msgs, ms, start) && Genuine(start) && Tells(device, msgs, ms, start.memory, said, Got(start)) &&
        old(sent) <= sent <= old(sent) + Encode(said) &&
        (ret == |msgs| ==>
          sent == old(sent) + Encode(said) && |acked| == |old(acked)| + |Encode(said)| &&
          |Got(start)| == ReadLength(ms, |msgs|)) &&
        (ret == EIO ==> Stuck()) &&
        readCount - old(readCount) <=
          1 + 1516 * (|msgs| + TotalLength(ms, |msgs|)) + 101 * ReadLength(ms, |msgs|) &&
        forall k, j :: 0 <= k < |msgs| && msgs[k].Reads() && 0 <= j < msgs[k].len && ret == |msgs| && Alone(msgs, k) ==>
          ByteAt(device, ms, memory[..], msgs, k, j, Got(start))
    {
      ghost var ms := Values(msgs, memory[..]);
      ghost var start := Start(memory[..], sent, acked, taken, readCount);
      forall k | 0 <= k < |msgs|
        ensures ShapedAt(msgs[k], ms[k], |start.memory|)
      {
        assert msgs[k] in msgs;
      }
      var control := ReadReg(Control);
      assert Got(start) == [];
      said := Tell(device, msgs, ms, start.memory, []);
      var err;
      err, said := AllMessages(msgs, ms, said, start);
      SaidLengths(device, msgs, ms, start.memory, said, Got(start));
      ret := if err == 0 then |msgs| else err;
      if err == 0 {
        BytesReceived(device, msgs, start.memory, Got(start));
      }
    }
  }

  /** No other read overlaps message k. */
  ghost predicate Alone(msgs: seq<Msg>, k: nat)
    requires k < |msgs|
  {
    forall i :: 0 <= i < |msgs| && i != k && msgs[i].Overlaps(msgs[k]) ==> !msgs[i].Reads()
  }

  lemma {:induction false} SaidLengths(device: Device, msgs: seq<Msg>, ms: seq<Message>, memory: seq<bv8>,
                                       said: seq<Message>, taken: seq<nat>)
    requires Tells(device, msgs, ms, memory, said, taken)
    ensures |Encode(said)| == |ms| + TotalLength(ms, |ms|)
  {
    WordCount(said, |said|);
    forall k | 0 <= k < |ms|
      ensures said[k].head == ms[k].head && |said[k].data| == |ms[k].data|
    {
      assert said[k] == Sent(device, msgs, ms, memory, k, taken);
    }
    SameLengths(said, ms, |ms|);
  }

  /** No position of a transfer has more bytes received than the whole. */
  lemma ReceivedWithin(ms: seq<Message>, i: nat, j: nat)
    requires i < |ms| && j <= |ms[i].data|
    ensures Received(ms, i, j) <= ReadLength(ms, |ms|)
  {
    ReadLengthGrows(ms, i + 1, |ms|);
  }
}
