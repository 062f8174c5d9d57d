/**
 * The scanner that looks for one AD structure in a received BLE
 * advertisement. Advertising data is a run of AD structures, each a length
 * byte (counting the type byte and the data), a type byte and the data
 * (Bluetooth Core Specification, Vol 3, Part C, section 11).
 */
module AdStruct {
  import opened Wire

  /** Longest legacy advertising data. */
  const MaxAdvDataLen := 31

  /** AD type "Manufacturer Specific Data" (Core Specification Supplement, Part A, section 1.4). */
  const ManufacturerSpecificData: byte := 0xFF

  /**
   * Byte `k` of the advertisement as the scanner reads it through the
   * string's buffer: index `|adv|` is the terminating NUL.
   */
  function At(adv: seq<byte>, k: nat): byte
    requires k <= |adv|
  {
    if k < |adv| then adv[k] else 0
  }

  /** Where a found structure's data starts, and how long it is. */
  datatype Found = Found(start: nat, len: nat)

  /**
   * The scan as the source performs it from cursor `idx`: an invalid length
   * byte ends the scan; a matching type byte returns the data after it; on
   * a type mismatch the cursor moves one byte only, so the next length is
   * read from the type byte just inspected.
   */
  function ScanFrom(adv: seq<byte>, adType: byte, idx: nat): (r: Option<Found>)
    requires idx <= |adv|
    ensures r.Some? ==> idx + 2 <= r.value.start && r.value.start + r.value.len <= MaxAdvDataLen + 1
    ensures r.Some? ==> r.value.start - 1 <= |adv| && At(adv, r.value.start - 1) == adType
    decreases MaxAdvDataLen - idx
  {
    if idx >= MaxAdvDataLen then None
    else
      var ln := At(adv, idx);
      if ln < 1 || idx + ln > MaxAdvDataLen then None
      else if At(adv, idx + 1) == adType then Some(Found(idx + 2, ln - 1))
      else ScanFrom(adv, adType, idx + 1)
  }

  /**
   * A found structure's type byte is the one asked for, and its header and
   * data lie within the 31 bytes of legacy advertising data.
   */
  function Scan(adv: seq<byte>, adType: byte): (r: Option<Found>)
    ensures r.Some? ==> 2 <= r.value.start && r.value.start + r.value.len <= MaxAdvDataLen + 1
    ensures r.Some? ==> r.value.start - 1 <= |adv| && At(adv, r.value.start - 1) == adType
  {
    ScanFrom(adv, adType, 0)
  }

  /** `BtAdvertisements::findADStruct`: the loop over the cursor. */
  method FindADStruct(adv: seq<byte>, adType: byte) returns (found: bool, structData: nat, structLen: nat)
    ensures found <==> Scan(adv, adType).Some?
    ensures found ==> Scan(adv, adType) == Some(Found(structData, structLen))
  {
    var idx: nat := 0;
    while idx < MaxAdvDataLen
      invariant idx <= |adv|
      invariant ScanFrom(adv, adType, idx) == Scan(adv, adType)
      decreases MaxAdvDataLen - idx
    {
      var ln := At(adv, idx);
      if ln < 1 || idx + ln > MaxAdvDataLen {
        break;
      }
      idx := idx + 1;
      if At(adv, idx) == adType {
        idx := idx + 1;
        return true, idx, ln - 1;
      }
    }
    return false, 0, 0;
  }

  /**
   * A found structure has the requested type in the byte before its data,
   * its length byte two bytes before the data says `len + 1`, and its data
   * ends at index 32 at the latest: reading it needs at most 32 bytes.
   */
  lemma {:induction false} ScanFoundShape(adv: seq<byte>, adType: byte, idx: nat)
    requires idx <= |adv|
    requires ScanFrom(adv, adType, idx).Some?
    ensures var f := ScanFrom(adv, adType, idx).value;
      idx + 2 <= f.start <= |adv| + 1 &&
      At(adv, f.start - 1) == adType &&
      At(adv, f.start - 2) == f.len + 1 &&
      f.start - 2 < MaxAdvDataLen &&
      f.start + f.len <= MaxAdvDataLen + 1
    decreases MaxAdvDataLen - idx
  {
    var ln := At(adv, idx);
    if At(adv, idx + 1) != adType {
      ScanFoundShape(adv, adType, idx + 1);
    }
  }

  /** An invalid length byte under the cursor ends the scan with nothing found. */
  lemma ScanStopsAtInvalidLength(adv: seq<byte>, adType: byte, idx: nat)
    requires idx <= |adv|
    requires At(adv, idx) == 0 || idx + At(adv, idx) > MaxAdvDataLen
    ensures ScanFrom(adv, adType, idx) == None
  {
  }

  /** When the first structure has the requested type and a valid length, it is returned. */
  lemma ScanFindsFirstStructure(adv: seq<byte>, adType: byte)
    requires 2 <= |adv| && 1 <= adv[0] <= MaxAdvDataLen && adv[1] == adType
    ensures Scan(adv, adType) == Some(Found(2, adv[0] - 1))
  {
  }

  /** On a mismatch the next length is read from the type byte just inspected. */
  lemma ScanMismatchAdvancesOneByte(adv: seq<byte>, adType: byte, idx: nat)
    requires idx < MaxAdvDataLen && idx <= |adv|
    requires 1 <= At(adv, idx) && idx + At(adv, idx) <= MaxAdvDataLen
    requires At(adv, idx + 1) != adType
    ensures ScanFrom(adv, adType, idx) == ScanFrom(adv, adType, idx + 1)
  {
  }

  // ---------------------------------------------------------------------
  // The walk the AD-structure format calls for, structure by structure.

  datatype AdStructure = AdStructure(adType: byte, data: seq<byte>)

  /** The bytes of a run of AD structures. */
  function Layout(ss: seq<AdStructure>): (r: seq<byte>)
    requires forall i :: 0 <= i < |ss| ==> |ss[i].data| < 255
  {
    if ss == [] then []
    else [|ss[0].data| + 1, ss[0].adType] + ss[0].data + Layout(ss[1..])
  }

  /** The scan stepping from one length byte to the next: `idx + ln + 1`. */
  function WalkFrom(adv: seq<byte>, adType: byte, idx: nat): Option<Found>
    requires idx <= |adv|
    decreases MaxAdvDataLen - idx
  {
    if idx >= MaxAdvDataLen then None
    else
      var ln := At(adv, idx);
      if ln < 1 || idx + ln > MaxAdvDataLen then None
      else if At(adv, idx + 1) == adType then Some(Found(idx + 2, ln - 1))
      else if idx + ln + 1 > |adv| then None
      else WalkFrom(adv, adType, idx + ln + 1)
  }

  function Walk(adv: seq<byte>, adType: byte): Option<Found>
  {
    WalkFrom(adv, adType, 0)
  }

  /**
   * Walking a run of structures that fits the advertisement finds the data
   * of the first structure of the requested type, wherever it is in the run.
   */
  lemma {:induction false} WalkFindsFirst(pre: seq<byte>, ss: seq<AdStructure>, rest: seq<byte>, adType: byte, k: nat)
    requires forall i :: 0 <= i < |ss| ==> |ss[i].data| < 255
    requires |pre| + |Layout(ss)| <= MaxAdvDataLen
    requires k < |ss| && ss[k].adType == adType
    requires forall i :: 0 <= i < k ==> ss[i].adType != adType
    ensures WalkFrom(pre + Layout(ss) + rest, adType, |pre|)
      == Some(Found(|pre| + |Layout(ss[..k])| + 2, |ss[k].data|))
    decreases k
  {
    var adv := pre + Layout(ss) + rest;
    var head := [|ss[0].data| + 1, ss[0].adType] + ss[0].data;
    assert Layout(ss) == head + Layout(ss[1..]);
    assert adv == pre + head + Layout(ss[1..]) + rest;
    assert At(adv, |pre|) == |ss[0].data| + 1;
    assert At(adv, |pre| + 1) == ss[0].adType;
    if k == 0 {
      assert ss[..0] == [];
    } else {
      var ss' := ss[1..];
      assert forall i :: 0 <= i < |ss'| ==> |ss'[i].data| < 255;
      assert forall i :: 0 <= i < k - 1 ==> ss'[i].adType != adType;
      assert (pre + head) + Layout(ss') + rest == adv;
      WalkFindsFirst(pre + head, ss', rest, adType, k - 1);
      assert ss[..k] == [ss[0]] + ss'[..k - 1];
      assert Layout(ss[..k]) == head + Layout(ss'[..k - 1]) by {
        assert ss[..k][1..] == ss'[..k - 1];
      }
    }
  }

  /** Walking from the start: the first structure of the requested type is found. */
  lemma WalkFindsFirstStructureOfType(ss: seq<AdStructure>, rest: seq<byte>, adType: byte, k: nat)
    requires forall i :: 0 <= i < |ss| ==> |ss[i].data| < 255
    requires |Layout(ss)| <= MaxAdvDataLen
    requires k < |ss| && ss[k].adType == adType
    requires forall i :: 0 <= i < k ==> ss[i].adType != adType
    ensures Walk(Layout(ss) + rest, adType) == Some(Found(|Layout(ss[..k])| + 2, |ss[k].data|))
  {
    assert [] + Layout(ss) + rest == Layout(ss) + rest;
    WalkFindsFirst([], ss, rest, adType, k);
  }

  /**
   * An advertisement that leads with a 16-bit service UUID list holding the
   * Generic Access service (0x1800, little-endian `00 18`) and then carries
   * manufacturer data: the scan reads the UUID's zero byte as a length and
   * gives up, the structure walk finds the manufacturer data.
   */
  const ServiceThenMfgData: seq<AdStructure> :=
    [AdStructure(0x03, [0x00, 0x18]), AdStructure(ManufacturerSpecificData, [0x8F, 0x04, 0x44, 0x00])]

  lemma ScanMissesSecondStructure()
    ensures Layout(ServiceThenMfgData) == [3, 0x03, 0x00, 0x18, 5, 0xFF, 0x8F, 0x04, 0x44, 0x00]
    ensures Scan(Layout(ServiceThenMfgData), ManufacturerSpecificData) == None
    ensures Walk(Layout(ServiceThenMfgData), ManufacturerSpecificData) == Some(Found(6, 4))
  {
    var adv := Layout(ServiceThenMfgData);
    assert adv == [3, 0x03, 0x00, 0x18, 5, 0xFF, 0x8F, 0x04, 0x44, 0x00] by {
      var second := ServiceThenMfgData[1..];
      assert second[1..] == [];
      assert Layout(second) == [5, 0xFF, 0x8F, 0x04, 0x44, 0x00] + Layout([]);
      assert Layout(ServiceThenMfgData) == [3, 0x03, 0x00, 0x18] + Layout(second);
    }
    assert ScanFrom(adv, 0xFF, 2) == None;
    assert ScanFrom(adv, 0xFF, 1) == None;
    assert WalkFrom(adv, 0xFF, 4) == Some(Found(6, 4));
  }
}
