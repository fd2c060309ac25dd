/** The byte-addressed firmware download of lgs8gxx.c (lgs8g75_init_data). */
module Firmware {
  import opened Basics

  const XRAM: nat := 0x1_0000

  lemma AddressBytes(i: nat)
    ensures i / 256 % 256 * 256 + i % 256 == i % XRAM
  {
  }

  /** A device that latches 0x3A and 0x3B as an address and stores what is
      written to 0x3C there. */
  class DownloadPort {
    var low: Byte
    var high: Byte
    const xram: array<Byte>

    constructor ()
      ensures xram.Length == XRAM && fresh(xram)
    {
      low, high := 0, 0;
      xram := new Byte[XRAM];
    }

    method WriteReg(reg: Byte, value: Byte)
      requires xram.Length == XRAM
      modifies this, xram
      ensures low == (if reg == 0x3A then value else old(low))
      ensures high == (if reg == 0x3B then value else old(high))
      ensures xram[..] ==
        if reg == 0x3C then old(xram[..])[high * 256 + low := value] else old(xram[..])
    {
      if reg == 0x3A {
        low := value;
      } else if reg == 0x3B {
        high := value;
      } else if reg == 0x3C {
        xram[high * 256 + low] := value;
      }
    }

    /** One byte of the image: page register, address and data. */
    method SendByte(i: nat, value: Byte)
      requires xram.Length == XRAM
      modifies this, xram
      ensures xram[..] == old(xram[..])[i % XRAM := value]
    {
      AddressBytes(i);
      WriteReg(0x38, 0x00);
      WriteReg(0x3A, i % 256);
      WriteReg(0x3B, i / 256 % 256);
      WriteReg(0x3C, value);
    }

    /** The download loop with the writes around it: every address ends with
        the last image byte sent to it, and one no byte was sent to keeps what
        it had. */
    method Download(image: seq<Byte>)
      requires xram.Length == XRAM
      modifies this, xram
      ensures forall a :: 0 <= a < XRAM ==> xram[a] == Loaded(old(xram[..]), image, a)
    {
      WriteReg(0x3A, 0x00);
      WriteReg(0x38, 0x00);
      WriteReg(0x3B, 0x00);
      WriteReg(0x38, 0x00);
      var i := 0;
      while i < |image|
        invariant 0 <= i <= |image|
        invariant forall a :: 0 <= a < XRAM ==> xram[a] == Loaded(old(xram[..]), image[..i], a)
      {
        SendByte(i, image[i]);
        forall a | 0 <= a < XRAM
          ensures xram[a] == Loaded(old(xram[..]), image[..i + 1], a)
        {
          LoadedStep(old(xram[..]), image, i, a);
        }
        i := i + 1;
      }
      assert image[..i] == image;
      WriteReg(0x38, 0x00);
    }
  }

  /** The last position of an image of n bytes that goes to address a. */
  function LastSentTo(n: nat, a: nat): (i: nat)
    requires a < XRAM && a < n
    ensures i < n && i % XRAM == a
    ensures forall j :: i < j < n ==> j % XRAM != a
  {
    var i := a + (n - 1 - a) / XRAM * XRAM;
    assert forall j :: i < j < n ==> j % XRAM != a;
    i
  }

  function Loaded(before: seq<Byte>, image: seq<Byte>, a: nat): Byte
    requires |before| == XRAM && a < XRAM
  {
    if a < |image| then image[LastSentTo(|image|, a)] else before[a]
  }

  lemma LoadedStep(before: seq<Byte>, image: seq<Byte>, i: nat, a: nat)
    requires |before| == XRAM && a < XRAM && i < |image|
    ensures Loaded(before, image[..i + 1], a)
         == if i % XRAM == a then image[i] else Loaded(before, image[..i], a)
  {
    if a <= i {
      var last := LastSentTo(i + 1, a);
      if i % XRAM != a && a < i {
        var earlier := LastSentTo(i, a);
        assert last == earlier;
      }
    }
  }

  /** For every image the address space can hold, the device ends with exactly
      the image at addresses 0..size-1 and the rest as before. */
  lemma HoldsImage(before: seq<Byte>, image: seq<Byte>, after: seq<Byte>)
    requires |before| == XRAM == |after| && |image| <= XRAM
    requires forall a :: 0 <= a < XRAM ==> after[a] == Loaded(before, image, a)
    ensures after == image + before[|image|..]
  {
    forall a | 0 <= a < |image|
      ensures LastSentTo(|image|, a) == a
    {
      assert a % XRAM == a;
    }
  }
}
