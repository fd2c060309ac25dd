/** The words saa7231_i2c_xfer pushes into the transmit FIFO, as a code for the
    message list, and the bus side that decodes them. */
module I2cCodec {
  import opened Basics

  const START: bv32 := 0x100
  const STOP: bv32 := 0x200

  /** Address and direction; the address is wide enough for any value of the
      C field. */
  datatype Header = Header(addr: bv32, rd: bool) {
    /** A 7-bit address (section 3.1.10 of NXP UM10204). */
    predicate SevenBit() { addr < 128 }
  }

  /** An i2c_msg by value: for a read, `data` is the room for the answer. */
  datatype Message = Message(head: Header, data: seq<bv8>) {
    predicate SevenBit() { head.SevenBit() }

    predicate Reads() { head.rd }
  }

  predicate Stops(w: bv32) { w & STOP != 0 }

  function AddressWord(h: Header): bv32 { Address(h.addr, h.rd) }

  function Address(addr: bv32, rd: bool): bv32 {
    if rd then (addr << 1) | START | 1 else (addr << 1) | START
  }

  function DataWord(m: Message, j: nat, stop: bool): bv32
    requires j < |m.data|
  {
    var byte: bv32 := if m.Reads() then 0 else m.data[j] as bv32;
    if stop then byte | STOP else byte
  }

  /** The words as numbers: 256 for the START, twice the address and the
      direction; the byte, and 512 for the STOP. */
  lemma WordLayout(m: Message, j: nat, stop: bool)
    requires m.SevenBit() && j < |m.data|
    ensures AddressWord(m.head) as nat == 256 + 2 * (m.head.addr as nat) + (if m.head.rd then 1 else 0)
    ensures DataWord(m, j, stop) as nat
         == (if m.Reads() then 0 else m.data[j] as nat) + (if stop then 512 else 0)
  {
    AddressNumber(m.head.addr);
    DataNumber(if m.Reads() then 0 else m.data[j]);
  }

  lemma AddressNumber(a: bv32)
    requires a < 128
    ensures ((a << 1) | START) as nat == 256 + 2 * (a as nat) && ((a << 1) | START | 1) as nat == 257 + 2 * (a as nat)
  {
    assert (a << 1) | START == a + a + 256 && (a << 1) | START | 1 == a + a + 257;
  }

  lemma DataNumber(b: bv8)
    ensures (b as bv32) as nat == b as nat && ((b as bv32) | STOP) as nat == b as nat + 512
  {
    assert (b as bv32) | STOP == (b as bv32) + 512;
  }

  /** The words up to byte j of message i; the last byte of the last message
      carries the STOP. */
  function WordsUpTo(ms: seq<Message>, i: nat, j: nat): seq<bv32>
    requires i < |ms| && j <= |ms[i].data|
    decreases i, j + 1
  {
    if j == 0 then Words(ms, i) + [AddressWord(ms[i].head)]
    else WordsUpTo(ms, i, j - 1) + [DataWord(ms[i], j - 1, i == |ms| - 1 && j == |ms[i].data|)]
  }

  /** The words of the first n messages of a transfer. */
  function Words(ms: seq<Message>, n: nat): seq<bv32>
    requires n <= |ms|
    decreases n, 0
  {
    if n == 0 then [] else WordsUpTo(ms, n - 1, |ms[n - 1].data|)
  }

  function Encode(ms: seq<Message>): seq<bv32> { Words(ms, |ms|) }

  function TotalLength(ms: seq<Message>, n: nat): nat
    requires n <= |ms|
  {
    if n == 0 then 0 else TotalLength(ms, n - 1) + |ms[n - 1].data|
  }

  /** Bytes the reads among the first n messages ask for. */
  function ReadLength(ms: seq<Message>, n: nat): nat
    requires n <= |ms|
  {
    if n == 0 then 0 else ReadLength(ms, n - 1) + (if ms[n - 1].Reads() then |ms[n - 1].data| else 0)
  }

  lemma {:induction false} WordCount(ms: seq<Message>, n: nat)
    requires n <= |ms|
    ensures |Words(ms, n)| == n + TotalLength(ms, n)
    decreases n, 0
  {
    if n > 0 {
      WordCountUpTo(ms, n - 1, |ms[n - 1].data|);
    }
  }

  lemma {:induction false} WordCountUpTo(ms: seq<Message>, i: nat, j: nat)
    requires i < |ms| && j <= |ms[i].data|
    ensures |WordsUpTo(ms, i, j)| == i + 1 + TotalLength(ms, i) + j
    decreases i, j + 1
  {
    if j == 0 {
      WordCount(ms, i);
    } else {
      WordCountUpTo(ms, i, j - 1);
    }
  }

  /** What is sent up to message i depends on the messages up to it. */
  lemma {:induction false} WordsAgree(ms: seq<Message>, ms': seq<Message>, i: nat, j: nat)
    requires |ms| == |ms'| && i < |ms| && (forall k :: 0 <= k <= i ==> ms[k] == ms'[k]) && j <= |ms[i].data|
    ensures Words(ms, i) == Words(ms', i) && WordsUpTo(ms, i, j) == WordsUpTo(ms', i, j)
    decreases i, j
  {
    if j > 0 {
      WordsAgree(ms, ms', i, j - 1);
    } else if i > 0 {
      WordsAgree(ms, ms', i - 1, |ms[i - 1].data|);
    }
  }

  /** Whatever has been sent at some point of a transfer is a prefix. */
  lemma {:induction false} UpToPrefix(ms: seq<Message>, i: nat, j: nat)
    requires i < |ms| && j <= |ms[i].data|
    ensures Words(ms, i) <= WordsUpTo(ms, i, 0) <= Encode(ms) && WordsUpTo(ms, i, j) <= Encode(ms)
    decreases |ms| - i, |ms[i].data| - j
  {
    if j < |ms[i].data| {
      UpToPrefix(ms, i, j + 1);
    } else if i + 1 < |ms| {
      UpToPrefix(ms, i + 1, 0);
    }
    FromStart(ms, i, j);
  }

  lemma {:induction false} FromStart(ms: seq<Message>, i: nat, j: nat)
    requires i < |ms| && j <= |ms[i].data|
    ensures WordsUpTo(ms, i, 0) <= WordsUpTo(ms, i, j)
  {
    if j > 0 {
      FromStart(ms, i, j - 1);
    }
  }

  // ---------------------------------------------------------------------
  // The other end of the bus

  datatype Frame = Frame(head: Header, bytes: seq<bv8>)

  /** One more word: a START opens a frame, any other word is a byte of the
      open frame. */
  function Hear(frames: seq<Frame>, w: bv32): Option<seq<Frame>> {
    if w & START != 0 then Some(frames + [Frame(Header((w >> 1) & 0x7f, w & 1 == 1), [])])
    else if frames == [] then None
    else
      var f := frames[|frames| - 1];
      Some(frames[..|frames| - 1] + [f.(bytes := f.bytes + [(w & 0xff) as bv8])])
  }

  function Decode(ws: seq<bv32>): Option<seq<Frame>> {
    if ws == [] then Some([])
    else
      var before := Decode(ws[..|ws| - 1]);
      if before.None? then None else Hear(before.value, ws[|ws| - 1])
  }

  /** What a message says on the bus: a read sends zero bytes. */
  function Meaning(m: Message, n: nat): Frame
    requires n <= |m.data|
  {
    Frame(m.head, if m.Reads() then seq(n, _ => 0) else m.data[..n])
  }

  function Meanings(ms: seq<Message>, n: nat): (fs: seq<Frame>)
    requires n <= |ms|
    ensures |fs| == n && forall i :: 0 <= i < n ==> fs[i] == Meaning(ms[i], |ms[i].data|)
  {
    if n == 0 then [] else Meanings(ms, n - 1) + [Meaning(ms[n - 1], |ms[n - 1].data|)]
  }

  lemma AddressHeard(m: Message, frames: seq<Frame>)
    requires m.SevenBit()
    ensures !Stops(AddressWord(m.head))
    ensures Hear(frames, AddressWord(m.head)) == Some(frames + [Meaning(m, 0)])
  {
    var a := m.head.addr;
    assert a < 128;
    AddressBits(a);
    assert Meaning(m, 0).bytes == [];
  }

  lemma AddressBits(a: bv32)
    requires a < 128
    ensures var w := (a << 1) | START; !Stops(w) && w & START != 0 && (w >> 1) & 0x7f == a && w & 1 == 0
    ensures var w := (a << 1) | START | 1; !Stops(w) && w & START != 0 && (w >> 1) & 0x7f == a && w & 1 == 1
  {
  }

  lemma DataBits(b: bv8, stop: bool)
    ensures var w := if stop then (b as bv32) | STOP else b as bv32;
      w & START == 0 && (w & 0xff) as bv8 == b && (Stops(w) <==> stop)
  {
  }

  lemma DataStops(m: Message, j: nat, stop: bool)
    requires j < |m.data|
    ensures Stops(DataWord(m, j, stop)) <==> stop
  {
    DataBits(if m.Reads() then 0 else m.data[j], stop);
  }

  lemma DataHeard(m: Message, j: nat, stop: bool, frames: seq<Frame>)
    requires j < |m.data|
    ensures Hear(frames + [Meaning(m, j)], DataWord(m, j, stop)) == Some(frames + [Meaning(m, j + 1)])
  {
    var b := if m.Reads() then 0 else m.data[j];
    DataBits(b, stop);
    assert Meaning(m, j + 1).bytes == Meaning(m, j).bytes + [b];
    var fs := frames + [Meaning(m, j)];
    assert fs[..|fs| - 1] == frames && fs[|fs| - 1] == Meaning(m, j);
  }

  lemma DecodeOneMore(ws: seq<bv32>, w: bv32, frames: seq<Frame>, frames': seq<Frame>)
    requires Decode(ws) == Some(frames) && Hear(frames, w) == Some(frames')
    ensures Decode(ws + [w]) == Some(frames')
  {
    assert (ws + [w])[..|ws + [w]| - 1] == ws;
  }

  lemma DecodeAddress(ms: seq<Message>, i: nat)
    requires i < |ms| && ms[i].SevenBit()
    requires Decode(Words(ms, i)) == Some(Meanings(ms, i))
    ensures Decode(WordsUpTo(ms, i, 0)) == Some(Meanings(ms, i) + [Meaning(ms[i], 0)])
  {
    var m, frames := ms[i], Meanings(ms, i);
    AddressHeard(m, frames);
    DecodeOneMore(Words(ms, i), AddressWord(m.head), frames, frames + [Meaning(m, 0)]);
  }

  lemma DecodeByte(ms: seq<Message>, i: nat, j: nat)
    requires i < |ms| && j < |ms[i].data|
    requires Decode(WordsUpTo(ms, i, j)) == Some(Meanings(ms, i) + [Meaning(ms[i], j)])
    ensures Decode(WordsUpTo(ms, i, j + 1)) == Some(Meanings(ms, i) + [Meaning(ms[i], j + 1)])
  {
    var m, frames := ms[i], Meanings(ms, i);
    var stop := i == |ms| - 1 && j + 1 == |m.data|;
    DataHeard(m, j, stop, frames);
    DecodeOneMore(WordsUpTo(ms, i, j), DataWord(m, j, stop),
                  frames + [Meaning(m, j)], frames + [Meaning(m, j + 1)]);
  }

  lemma DecodeMessage(ms: seq<Message>, i: nat)
    requires i < |ms| && ms[i].SevenBit()
    requires Decode(Words(ms, i)) == Some(Meanings(ms, i))
    ensures Decode(Words(ms, i + 1)) == Some(Meanings(ms, i + 1))
  {
    DecodeAddress(ms, i);
    var j := 0;
    while j < |ms[i].data|
      invariant 0 <= j <= |ms[i].data|
      invariant Decode(WordsUpTo(ms, i, j)) == Some(Meanings(ms, i) + [Meaning(ms[i], j)])
    {
      DecodeByte(ms, i, j);
      j := j + 1;
    }
  }

  lemma {:induction false} DecodeWords(ms: seq<Message>, n: nat)
    requires n <= |ms| && forall m :: m in ms ==> m.SevenBit()
    ensures Decode(Words(ms, n)) == Some(Meanings(ms, n))
  {
    if n > 0 {
      DecodeWords(ms, n - 1);
      DecodeMessage(ms, n - 1);
    }
  }

  lemma {:induction false} DecodedSevenBit(ws: seq<bv32>)
    ensures Decode(ws).Some? ==> forall f :: f in Decode(ws).value ==> f.head.SevenBit()
  {
    if ws != [] {
      DecodedSevenBit(ws[..|ws| - 1]);
      var w := ws[|ws| - 1];
      assert (w >> 1) & 0x7f < 128;
    }
  }

  /** The words recover every address, direction, length and written byte
      exactly when every address has seven bits. */
  lemma RoundTripIff(ms: seq<Message>)
    ensures Decode(Encode(ms)) == Some(Meanings(ms, |ms|)) <==> forall m :: m in ms ==> m.SevenBit()
  {
    if forall m :: m in ms ==> m.SevenBit() {
      DecodeWords(ms, |ms|);
    } else {
      var i :| 0 <= i < |ms| && !ms[i].SevenBit();
      DecodedSevenBit(Encode(ms));
      assert Meanings(ms, |ms|)[i].head == ms[i].head;
    }
  }

  // ---------------------------------------------------------------------
  // Where the transfer stops

  ghost predicate StopsNowhere(ws: seq<bv32>) { forall k :: 0 <= k < |ws| ==> !Stops(ws[k]) }

  lemma {:induction false} StopUpTo(ms: seq<Message>, i: nat, j: nat)
    requires i < |ms| && j <= |ms[i].data|
    requires (forall m :: m in ms ==> m.SevenBit())
    ensures !(i == |ms| - 1 && j > 0 && j == |ms[i].data|) ==> StopsNowhere(WordsUpTo(ms, i, j))
    decreases i, j
  {
    if j > 0 {
      StopUpTo(ms, i, j - 1);
      DataStops(ms[i], j - 1, i == |ms| - 1 && j == |ms[i].data|);
    } else {
      AddressHeard(ms[i], []);
      if i > 0 {
        StopUpTo(ms, i - 1, |ms[i - 1].data|);
      }
    }
  }

  /** With seven-bit addresses a transfer has one STOP, on its last word, if
      its last message has data, and no STOP at all if it has none. */
  lemma StopOnlyAtEnd(ms: seq<Message>, k: nat)
    requires (forall m :: m in ms ==> m.SevenBit())
    requires k < |Encode(ms)|
    ensures Stops(Encode(ms)[k]) <==> k == |Encode(ms)| - 1 && ms[|ms| - 1].data != []
  {
    var i := |ms| - 1;
    var n := |ms[i].data|;
    StopUpTo(ms, i, if n == 0 then 0 else n - 1);
    if n > 0 {
      LastWord(ms);
      DataStops(ms[i], n - 1, true);
    }
  }

  lemma LastWord(ms: seq<Message>)
    requires ms != [] && ms[|ms| - 1].data != []
    ensures var i, n := |ms| - 1, |ms[|ms| - 1].data|;
      Encode(ms) == WordsUpTo(ms, i, n - 1) + [DataWord(ms[i], n - 1, true)]
  {
    var i := |ms| - 1;
    assert Encode(ms) == WordsUpTo(ms, i, |ms[i].data|);
  }
}
