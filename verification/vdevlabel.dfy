/** A vdev label (vdevlabel.go): blank space, boot header, the XDR name/value
    area and the uberblock ring, and the scan that picks the live uberblock
    out of the ring. */
module VdevLabel {
  import opened Binary
  import opened Wrappers
  import Uberblock

  const BlankSize: nat := 8 * 1024
  const BootHeaderSize: nat := 8 * 1024
  const NvPairsSize: nat := 112 * 1024
  const RingSize: nat := 128 * 1024

  /** Where the uberblock ring starts, and the whole label. */
  const RingOffset: nat := BlankSize + BootHeaderSize + NvPairsSize
  const LabelSize: nat := RingOffset + RingSize

  /** The ring is read as fixed 4 KiB slots. */
  const SlotSize: nat := 4096
  const SlotCount: nat := RingSize / SlotSize

  datatype Label = Label(blank: Bytes, bootHeader: Bytes, nvPairs: Bytes, ring: Bytes)
  {
    predicate Valid() {
      |blank| == BlankSize && |bootHeader| == BootHeaderSize
      && |nvPairs| == NvPairsSize && |ring| == RingSize
    }
  }

  /** The label struct laid over 256 KiB of bytes. */
  function ParseLabel(b: Bytes): (l: Label)
    requires |b| == LabelSize
    ensures l.Valid()
    ensures LabelSize == 262144 && RingOffset == 131072
    ensures l.ring == b[131072..]
  {
    Label(b[..BlankSize], b[BlankSize..BlankSize + BootHeaderSize],
      b[BlankSize + BootHeaderSize..RingOffset], b[RingOffset..])
  }

  function LabelBytes(l: Label): (b: Bytes)
    requires l.Valid()
    ensures |b| == LabelSize
  {
    l.blank + l.bootHeader + l.nvPairs + l.ring
  }

  lemma ParseLabelBytes(l: Label)
    requires l.Valid()
    ensures ParseLabel(LabelBytes(l)) == l
  {
  }

  lemma LabelBytesParse(b: Bytes)
    requires |b| == LabelSize
    ensures LabelBytes(ParseLabel(b)) == b
  {
    assert b == b[..BlankSize] + b[BlankSize..BlankSize + BootHeaderSize]
      + b[BlankSize + BootHeaderSize..RingOffset] + b[RingOffset..];
  }

  /** Slot `i` of the ring: `SlotSize` bytes at `i * SlotSize`. */
  function Slot(ring: Bytes, i: nat): (s: Bytes)
    requires |ring| == RingSize && i < SlotCount
    ensures |s| == SlotSize
  {
    ring[i * SlotSize..i * SlotSize + SlotSize]
  }

  /** What each of the 32 slots decodes to, valid or not. */
  function SlotRecords(l: Label): (us: seq<Uberblock.UberBlock>)
    requires l.Valid()
    ensures |us| == SlotCount == 32
  {
    seq(SlotCount, i requires 0 <= i < SlotCount => Uberblock.Decode(Slot(l.ring, i)))
  }

  /** The records carrying the uberblock magic, in their original order. */
  function WithMagic(us: seq<Uberblock.UberBlock>): (r: seq<Uberblock.UberBlock>)
    ensures |r| <= |us|
    ensures forall j :: 0 <= j < |r| ==> Uberblock.HasMagic(r[j])
    decreases |us|
  {
    if us == [] then []
    else
      var last := us[|us| - 1];
      WithMagic(us[..|us| - 1]) + (if Uberblock.HasMagic(last) then [last] else [])
  }

  lemma WithMagicSnoc(us: seq<Uberblock.UberBlock>, u: Uberblock.UberBlock)
    ensures WithMagic(us + [u]) == WithMagic(us) + (if Uberblock.HasMagic(u) then [u] else [])
  {
    assert (us + [u])[..|us|] == us;
  }

  /** A record survives the filter exactly when it is present and has the magic. */
  lemma {:induction false} WithMagicMembers(us: seq<Uberblock.UberBlock>, u: Uberblock.UberBlock)
    ensures u in WithMagic(us) <==> u in us && Uberblock.HasMagic(u)
    decreases |us|
  {
    if us != [] {
      var init := us[..|us| - 1];
      WithMagicMembers(init, u);
      assert us == init + [us[|us| - 1]];
    }
  }

  /** `VdevLabel.UberBlocks`: the slots whose magic is 0xbab10c, in slot order. */
  method UberBlocks(l: Label) returns (rc: seq<Uberblock.UberBlock>)
    requires l.Valid()
    ensures rc == WithMagic(SlotRecords(l))
    ensures |rc| <= 32
    ensures forall u :: u in rc ==> Uberblock.HasMagic(u)
  {
    rc := KeepMagic(SlotRecords(l));
  }

  /** The scan loop of `UberBlocks`: skip a record without the magic,
      append one with it. */
  method KeepMagic(records: seq<Uberblock.UberBlock>) returns (rc: seq<Uberblock.UberBlock>)
    ensures rc == WithMagic(records)
  {
    rc := [];
    var i := 0;
    while i < |records|
      invariant 0 <= i <= |records|
      invariant rc == WithMagic(records[..i])
    {
      var ub := records[i];
      assert records[..i + 1] == records[..i] + [ub];
      WithMagicSnoc(records[..i], ub);
      if ub.magic == Uberblock.Magic {
        rc := rc + [ub];
      }
      i := i + 1;
    }
    assert records[..|records|] == records;
  }

  /** `u` sits at index `k` of `us`, has the greatest timestamp of them all,
      and every earlier record's timestamp is strictly smaller. */
  predicate EarliestLatest(us: seq<Uberblock.UberBlock>, k: int)
  {
    && 0 <= k < |us|
    && (forall j :: 0 <= j < |us| ==> us[j].timestamp <= us[k].timestamp)
    && (forall j :: 0 <= j < k ==> us[j].timestamp < us[k].timestamp)
  }

  /** The search loop of `ActiveUberBlock`: starting from a zero timestamp,
      take a record only when its timestamp is strictly greater. */
  method Latest(us: seq<Uberblock.UberBlock>) returns (r: Result<Uberblock.UberBlock, string>)
    ensures r.Failure? <==> forall j :: 0 <= j < |us| ==> us[j].timestamp == 0
    ensures r.Success? ==> exists k :: EarliestLatest(us, k) && us[k] == r.value && r.value.timestamp > 0
  {
    var best: nat := 0;
    var at := -1;
    var i := 0;
    while i < |us|
      invariant 0 <= i <= |us|
      invariant -1 <= at < i
      invariant at == -1 <==> forall j :: 0 <= j < i ==> us[j].timestamp == 0
      invariant at == -1 ==> best == 0
      invariant at >= 0 ==> best == us[at].timestamp && best > 0
      invariant forall j :: 0 <= j < i ==> us[j].timestamp <= best
      invariant forall j :: 0 <= j < at ==> us[j].timestamp < best
    {
      if us[i].timestamp > best {
        best := us[i].timestamp;
        at := i;
      }
      i := i + 1;
    }
    if at == -1 {
      return Failure("could not find a valid uberblock");
    }
    assert EarliestLatest(us, at);
    return Success(us[at]);
  }

  /** `VdevLabel.ActiveUberBlock`: the valid uberblock with the latest
      timestamp, the earliest slot among equals, or an error when no valid
      uberblock has a non-zero timestamp. */
  method ActiveUberBlock(l: Label) returns (r: Result<Uberblock.UberBlock, string>)
    requires l.Valid()
    ensures var valid := WithMagic(SlotRecords(l));
      r.Failure? <==> forall j :: 0 <= j < |valid| ==> valid[j].timestamp == 0
    ensures var valid := WithMagic(SlotRecords(l));
      r.Success? ==> exists k :: EarliestLatest(valid, k) && valid[k] == r.value && r.value.timestamp > 0
  {
    var ubs := UberBlocks(l);
    r := Latest(ubs);
  }
}
