/** Finding the source physical address in an EDID (include/media/cec.h); the
    data blocks are those of CEA-861 section 7.5. */
module Edid {
  import opened Basics

  const BLOCK: nat := 128

  /** Extension blocks 1 .. Blocks - 1 are looked at. */
  function Blocks(edid: seq<Byte>): nat {
    if |edid| / BLOCK < 2 || |edid| % BLOCK != 0 then 0
    else if edid[0x7e] + 1 < |edid| / BLOCK then edid[0x7e] + 1
    else |edid| / BLOCK
  }

  lemma BlockInside(edid: seq<Byte>, b: nat)
    requires b < Blocks(edid)
    ensures b * BLOCK + BLOCK <= |edid|
  {
  }

  /** Block b is a CEA-861 version 3 extension with data blocks, which end
      before `End`. */
  predicate HasDataBlocks(edid: seq<Byte>, b: nat)
    requires b < Blocks(edid)
  {
    BlockInside(edid, b);
    edid[b * BLOCK] == 0x02 && edid[b * BLOCK + 1] == 0x03 && edid[b * BLOCK + 2] % 0x80 > 4
  }

  function End(edid: seq<Byte>, b: nat): (e: nat)
    requires b < Blocks(edid)
    ensures e < b * BLOCK + BLOCK
  {
    BlockInside(edid, b);
    b * BLOCK + edid[b * BLOCK + 2] % 0x80
  }

  /** The k-th link of the chain of data blocks: each header byte gives the
      length of its data in its low five bits. */
  function Link(edid: seq<Byte>, b: nat, k: nat): (i: nat)
    ensures i >= b * BLOCK + 4 + k
  {
    if k == 0 then b * BLOCK + 4
    else
      var i := Link(edid, b, k - 1);
      i + (if i < |edid| then edid[i] % 0x20 else 0) + 1
  }

  lemma {:induction false} LinksAscend(edid: seq<Byte>, b: nat, j: nat, k: nat)
    requires j <= k
    ensures Link(edid, b, j) + (k - j) <= Link(edid, b, k)
    decreases k - j
  {
    if j < k {
      LinksAscend(edid, b, j, k - 1);
    }
  }

  /** The vendor block of HDMI licensing, long enough for the address. */
  predicate VendorBlock(edid: seq<Byte>, i: nat, end: nat)
    requires i < end <= |edid|
  {
    edid[i] / 0x20 == 3 && edid[i] % 0x20 >= 5 && i + edid[i] % 0x20 <= end &&
    edid[i + 1] == 0x03 && edid[i + 2] == 0x0c && edid[i + 3] == 0x00
  }

  /** Link k of block b is in the chain and is a vendor block. */
  predicate Match(edid: seq<Byte>, b: nat, k: nat)
  {
    1 <= b < Blocks(edid) && HasDataBlocks(edid, b) && Link(edid, b, k) < End(edid, b) &&
    (BlockInside(edid, b); VendorBlock(edid, Link(edid, b, k), End(edid, b)))
  }

  /** No link up to block b, link k matches. */
  ghost predicate NoneBefore(edid: seq<Byte>, b: nat, k: nat) {
    forall b', k' :: 0 <= b' <= b && 0 <= k' && (b' < b || k' < k) ==> !Match(edid, b', k')
  }

  /** A link inside the chain matches by its bytes alone. */
  lemma LinkInside(edid: seq<Byte>, b: nat, k: nat)
    requires 1 <= b < Blocks(edid) && HasDataBlocks(edid, b) && Link(edid, b, k) < End(edid, b)
    ensures End(edid, b) < |edid|
    ensures Match(edid, b, k) <==> VendorBlock(edid, Link(edid, b, k), End(edid, b))
    ensures Match(edid, b, k) ==> Link(edid, b, k) + 4 <= |edid| - 2
  {
    BlockInside(edid, b);
  }

  /** The vendor test of the loop. */
  method CarriesVendor(edid: seq<Byte>, i: nat, end: nat) returns (found: bool)
    requires i < end <= |edid|
    ensures found == VendorBlock(edid, i, end)
  {
    var tag := edid[i] / 0x20;
    var length := edid[i] % 0x20;
    found := tag == 3 && length >= 5 && i + length <= end &&
      edid[i + 1] == 0x03 && edid[i + 2] == 0x0c && edid[i + 3] == 0x00;
  }

  /** The do-while loop over the data blocks of one extension block. */
  method WalkChain(edid: seq<Byte>, block: nat) returns (location: nat, ghost k: nat)
    requires 1 <= block < Blocks(edid) && HasDataBlocks(edid, block)
    ensures location == 0 ==> forall k' :: 0 <= k' ==> !Match(edid, block, k')
    ensures location != 0 ==> IsFirst(edid, block, k, location)
  {
    BlockInside(edid, block);
    var offset := block * BLOCK;
    var i := offset + 4;
    var end := offset + edid[offset + 2] % 0x80;
    k := 0;
    while true
      invariant i == Link(edid, block, k) < end == End(edid, block)
      invariant forall k' :: 0 <= k' < k ==> !Match(edid, block, k')
      decreases end - i
    {
      var length := edid[i] % 0x20;
      LinkInside(edid, block, k);
      var found := CarriesVendor(edid, i, end);
      if found {
        return i + 4, k;
      }
      i := i + length + 1;
      k := k + 1;
      if i >= end {
        break;
      }
    }
    forall k' | k <= k'
      ensures !Match(edid, block, k')
    {
      LinksAscend(edid, block, k, k');
    }
    return 0, k;
  }

  /** The location follows the first match of block b. */
  ghost predicate IsFirst(edid: seq<Byte>, b: nat, k: nat, location: nat) {
    Match(edid, b, k) && location == Link(edid, b, k) + 4 && location <= |edid| - 2 &&
    forall k' :: 0 <= k' < k ==> !Match(edid, b, k')
  }

  /** cec_get_edid_spa_location: 4 past the first matching data block in block
      order, then chain order; 0 exactly when none matches; and whatever is
      found leaves room for the two address bytes. */
  method GetSpaLocation(edid: seq<Byte>) returns (location: nat)
    ensures location == 0 <==> forall b, k :: 0 <= b && 0 <= k ==> !Match(edid, b, k)
    ensures location != 0 ==>
      exists b, k :: 0 <= b && 0 <= k && Match(edid, b, k) && NoneBefore(edid, b, k) && location == Link(edid, b, k) + 4
    ensures location != 0 ==> location <= |edid| - 2
  {
    var blocks: nat := |edid| / BLOCK;
    if blocks < 2 || |edid| % BLOCK != 0 {
      return 0;
    }
    var extensions: nat := edid[0x7e];
    if extensions + 1 < blocks {
      blocks := extensions + 1;
    }
    var block := 1;
    while block < blocks
      invariant blocks == Blocks(edid) && 1 <= block
      invariant NoneBefore(edid, block, 0)
    {
      BlockInside(edid, block);
      var offset := block * BLOCK;
      if edid[offset] != 0x02 || edid[offset + 1] != 0x03 {
        block := block + 1;
        continue;
      }
      var d := edid[offset + 2] % 0x80;
      if d <= 4 {
        block := block + 1;
        continue;
      }
      ghost var k;
      location, k := WalkChain(edid, block);
      if location != 0 {
        return;
      }
      block := block + 1;
    }
    return 0;
  }

  // ---------------------------------------------------------------------
  // Extension blocks built from a list of data blocks

  datatype DataBlock = DataBlock(tag: nat, payload: seq<Byte>) {
    predicate Fits() { tag < 8 && |payload| < 32 }

    /** The vendor block that carries a source physical address. */
    predicate CarriesAddress() {
      tag == 3 && |payload| >= 5 && payload[0] == 0x03 && payload[1] == 0x0c && payload[2] == 0x00
    }

    function Bytes(): seq<Byte>
      requires Fits()
    {
      [tag * 0x20 + |payload|] + payload
    }
  }

  predicate AllFit(ds: seq<DataBlock>) { forall d :: d in ds ==> d.Fits() }

  function Print(ds: seq<DataBlock>): seq<Byte>
    requires AllFit(ds)
  {
    if ds == [] then [] else Print(ds[..|ds| - 1]) + ds[|ds| - 1].Bytes()
  }

  lemma {:induction false} PrintPrefix(ds: seq<DataBlock>, n: nat)
    requires AllFit(ds) && n <= |ds|
    ensures Print(ds[..n]) <= Print(ds)
    decreases |ds|
  {
    if n == |ds| {
      assert ds[..n] == ds;
    } else {
      var front := ds[..|ds| - 1];
      PrintPrefix(front, n);
      assert front[..n] == ds[..n];
    }
  }

  ghost predicate BytesAt(edid: seq<Byte>, i: nat, bytes: seq<Byte>)
  {
    i + |bytes| <= |edid| && forall j :: 0 <= j < |bytes| ==> edid[i + j] == bytes[j]
  }

  /** Block b is a counted CEA-861 version 3 extension of whole blocks, and
      holds exactly the data blocks ds. */
  ghost predicate Holds(edid: seq<Byte>, b: nat, ds: seq<DataBlock>) {
    AllFit(ds) && |edid| % 128 == 0 && 1 <= b < |edid| / 128 && b <= edid[126] &&
    edid[128 * b] == 2 && edid[128 * b + 1] == 3 && edid[128 * b + 2] % 128 == 4 + |Print(ds)| &&
    BytesAt(edid, 128 * b + 4, Print(ds))
  }

  lemma HoldsMeans(edid: seq<Byte>, b: nat, ds: seq<DataBlock>)
    requires Holds(edid, b, ds)
    ensures b < Blocks(edid) && End(edid, b) == b * BLOCK + 4 + |Print(ds)|
    ensures HasDataBlocks(edid, b) <==> ds != []
  {
    BlockInside(edid, b);
  }

  /** A match by the bytes alone, on any block: the extension it is in, and a
      vendor block that ends where the data blocks end or before. */
  lemma MatchIff(edid: seq<Byte>, b: nat, k: nat)
    ensures Match(edid, b, k) <==>
      |edid| % 128 == 0 && 1 <= b < |edid| / 128 && b <= edid[126] &&
      edid[128 * b] == 2 && edid[128 * b + 1] == 3 && edid[128 * b + 2] % 128 > 4 &&
      var i, end := Link(edid, b, k), 128 * b + edid[128 * b + 2] % 128;
      i < end && edid[i] / 32 == 3 && edid[i] % 32 >= 5 && i + edid[i] % 32 <= end && edid[i + 1..i + 4] == [3, 12, 0]
  {
    if |edid| % 128 == 0 && 1 <= b < |edid| / 128 && b <= edid[126] {
      BlockInside(edid, b);
    }
  }

  /** The k-th printed block stands in its place among the bytes. */
  lemma PrintedAt(edid: seq<Byte>, b: nat, ds: seq<DataBlock>, k: nat)
    requires Holds(edid, b, ds) && k < |ds|
    ensures b < Blocks(edid)
    ensures var i := b * BLOCK + 4 + |Print(ds[..k])|;
      i + 1 + |ds[k].payload| <= End(edid, b) < |edid| && BytesAt(edid, i, ds[k].Bytes())
  {
    HoldsMeans(edid, b, ds);
    PrintPrefix(ds, k + 1);
    assert ds[..k + 1][..k] == ds[..k];
    var start, n, bytes := b * BLOCK + 4, |Print(ds[..k])|, ds[k].Bytes();
    forall j | 0 <= j < |bytes|
      ensures edid[start + n + j] == bytes[j]
    {
      assert Print(ds[..k + 1])[n + j] == bytes[j];
      assert edid[start + (n + j)] == Print(ds)[n + j];
    }
  }

  lemma {:induction false} LinkOfPrinted(edid: seq<Byte>, b: nat, ds: seq<DataBlock>, k: nat)
    requires Holds(edid, b, ds) && k <= |ds|
    ensures Link(edid, b, k) == b * BLOCK + 4 + |Print(ds[..k])|
  {
    if k > 0 {
      LinkOfPrinted(edid, b, ds, k - 1);
      PrintedAt(edid, b, ds, k - 1);
      HeaderOf(edid, Link(edid, b, k - 1), ds[k - 1]);
      assert ds[..k][..k - 1] == ds[..k - 1];
    }
  }

  /** A printed data block read back. */
  lemma HeaderOf(edid: seq<Byte>, i: nat, d: DataBlock)
    requires d.Fits() && BytesAt(edid, i, d.Bytes())
    ensures edid[i] % 0x20 == |d.payload| && edid[i] / 0x20 == d.tag
    ensures forall j :: 0 <= j < |d.payload| ==> edid[i + 1 + j] == d.payload[j]
  {
    assert d.Bytes()[0] == d.tag * 0x20 + |d.payload| && edid[i + 0] == d.Bytes()[0];
    forall j | 0 <= j < |d.payload|
      ensures edid[i + 1 + j] == d.payload[j]
    {
      assert edid[i + (1 + j)] == d.Bytes()[1 + j];
    }
  }

  /** On a printed block the search matches exactly the data blocks that carry
      an address, and 4 past the match are that block's two address bytes. */
  lemma PrintedMatchIff(edid: seq<Byte>, b: nat, ds: seq<DataBlock>, k: nat)
    requires Holds(edid, b, ds)
    ensures Match(edid, b, k) <==> k < |ds| && ds[k].CarriesAddress()
    ensures Match(edid, b, k) ==>
      Link(edid, b, k) + 6 <= |edid| &&
      edid[Link(edid, b, k) + 4] == ds[k].payload[3] && edid[Link(edid, b, k) + 5] == ds[k].payload[4]
  {
    HoldsMeans(edid, b, ds);
    if k < |ds| {
      LinkOfPrinted(edid, b, ds, k);
      PrintedAt(edid, b, ds, k);
      var i, d := Link(edid, b, k), ds[k];
      HeaderOf(edid, i, d);
      if d.tag == 3 && |d.payload| >= 5 {
        assert edid[i + 1 + 0] == d.payload[0] && edid[i + 1 + 1] == d.payload[1] && edid[i + 1 + 2] == d.payload[2];
        assert edid[i + 1 + 3] == d.payload[3] && edid[i + 1 + 4] == d.payload[4];
      }
    } else {
      PastPrinted(edid, b, ds, k);
    }
  }

  lemma PastPrinted(edid: seq<Byte>, b: nat, ds: seq<DataBlock>, k: nat)
    requires Holds(edid, b, ds) && |ds| <= k
    ensures !Match(edid, b, k)
  {
    HoldsMeans(edid, b, ds);
    LinkOfPrinted(edid, b, ds, |ds|);
    assert ds[..|ds|] == ds;
    LinksAscend(edid, b, |ds|, k);
  }
}
