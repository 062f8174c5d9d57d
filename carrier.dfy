/**
 * Carriers of a p44BTDMX payload inside the data of a BLE "manufacturer
 * specific data" AD structure: the native plan44 (or Bluekitchen) record
 * with subtype 0x44, and an Apple iBeacon whose 21 payload bytes are used
 * by the iOS app.
 */
module Carrier {
  import opened Wire

  const CompanyApple := 0x004C
  const CompanyPlan44 := 0x4444
  const CompanyBluekitchen := 0x048F

  const SubtypeP44BTDMX: byte := 0x44
  const SubtypeIBeacon: byte := 0x02

  /** AD type of the structure the sender builds. */
  const ManufacturerSpecificData: byte := 0xFF

  /** A payload found in manufacturer data, and whether it came from a native sender. */
  datatype Carried = Carried(payload: seq<byte>, native: bool)

  /** The little-endian company identifier in the first two bytes (bytes are unsigned). */
  function CompanyId(d: seq<byte>): (id: nat)
    requires |d| >= 2
    ensures id < 0x10000 && id % 256 == d[0] && id / 256 == d[1]
  {
    var lo: nat, hi: nat := d[0], d[1];
    lo + 256 * hi
  }

  predicate IsNative(d: seq<byte>)
    requires |d| >= 4
  {
    (CompanyId(d) == CompanyPlan44 || CompanyId(d) == CompanyBluekitchen) && d[2] == SubtypeP44BTDMX
  }

  /** An iBeacon record is never also a native one: the carriers are told apart by company and subtype. */
  predicate IsIBeacon(d: seq<byte>): (r: bool)
    requires |d| >= 4
    ensures r ==> !IsNative(d)
  {
    CompanyId(d) == CompanyApple && d[2] == SubtypeIBeacon
  }

  /**
   * The carrier recognition of `processBTAdvMfgData`: at least four bytes,
   * then either a native record (payload from byte 3) or an iBeacon
   * (payload of the announced length from byte 4, cut at the end of input).
   */
  function Unwrap(mfgData: seq<byte>): (r: Option<Carried>)
    ensures r.Some? <==> |mfgData| >= 4 && (IsNative(mfgData) || IsIBeacon(mfgData))
    ensures r.Some? && r.value.native ==> IsNative(mfgData) && mfgData == mfgData[..3] + r.value.payload
    ensures r.Some? && !r.value.native ==>
      IsIBeacon(mfgData) && mfgData[..4] + r.value.payload <= mfgData &&
      |r.value.payload| == (if 4 + mfgData[3] <= |mfgData| then mfgData[3] else |mfgData| - 4)
  {
    if |mfgData| < 4 then None
    else if IsNative(mfgData) then Some(Carried(mfgData[3..], true))
    else if IsIBeacon(mfgData) then
      var end := if 4 + mfgData[3] < |mfgData| then 4 + mfgData[3] else |mfgData|;
      Some(Carried(mfgData[4..end], false))
    else None
  }

  /**
   * The advertising data `generateBTAdvMfgData` builds around a payload:
   * one AD structure of type 0xFF with the Bluekitchen company id and the
   * p44BTDMX subtype. The length byte is the payload size plus 4, stored
   * in one byte.
   */
  function AdvMfgData(payload: seq<byte>): (adv: seq<byte>)
    ensures |adv| == |payload| + 5 && adv[5..] == payload
  {
    [(|payload| + 4) % 256, ManufacturerSpecificData,
     CompanyBluekitchen % 256, CompanyBluekitchen / 256, SubtypeP44BTDMX] + payload
  }

  /**
   * What the sender builds around a non-empty payload is recognised, from
   * index 2, as a native carrier of the same payload.
   */
  lemma UnwrapAdvMfgData(payload: seq<byte>)
    requires |payload| >= 1
    ensures AdvMfgData(payload)[1] == ManufacturerSpecificData
    ensures Unwrap(AdvMfgData(payload)[2..]) == Some(Carried(payload, true))
  {
    var d := AdvMfgData(payload)[2..];
    assert d == [0x8F, 0x04, 0x44] + payload;
    assert d[..3] == [0x8F, 0x04, 0x44];
    assert d[0] == 0x8F && d[1] == 0x04 && d[2] == SubtypeP44BTDMX;
    assert CompanyId(d) == CompanyBluekitchen;
    assert IsNative(d);
    assert d[3..] == payload;
  }

  /** An iBeacon carrier hands on exactly the announced length when the input holds it. */
  lemma UnwrapIBeacon(mfgData: seq<byte>)
    requires |mfgData| >= 4 && IsIBeacon(mfgData) && 4 + mfgData[3] <= |mfgData|
    ensures Unwrap(mfgData) == Some(Carried(mfgData[4..4 + mfgData[3]], false))
  {
    assert !IsNative(mfgData);
  }

  /** An iBeacon announcing more than the input holds hands on the rest of the input. */
  lemma UnwrapIBeaconCut(mfgData: seq<byte>)
    requires |mfgData| >= 4 && IsIBeacon(mfgData) && 4 + mfgData[3] > |mfgData|
    ensures Unwrap(mfgData) == Some(Carried(mfgData[4..], false))
  {
    assert !IsNative(mfgData);
    assert mfgData[4..|mfgData|] == mfgData[4..];
  }
}
