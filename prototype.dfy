/**
 * The older prototype of p44BTDMX (`main/p44btdmx.cpp`): the same payload
 * codec and carriers as the ESP32 version, 5-channel lights (hue,
 * saturation, brightness, position, mode) and a command decoder that only
 * logs what it would apply.
 *
 * Its command stream differs from the ESP32 one: a single 0xFF byte is a
 * NOP, and kind 2 carries position and mode. The address byte is
 * `3 * light + kind`, cut to a byte when the sender appends it.
 */
module Prototype {
  import opened Wire
  import Codec
  import Carrier

  /** Channels per prototype light. */
  const LightBytes := 5

  /** The one-byte NOP, also used to fill a payload. */
  const Nop: byte := 0xFF

  /** Lights whose address bytes stay below the NOP: 3 * 84 + 2 = 254. */
  const AddressableLights := 85

  /** `mNumLights` as the receiver's constructor sets it. */
  const DefaultNumLights := 2

  datatype Command =
    | Brightness(light: nat, b: byte)
    | Hsb(light: nat, h: byte, s: byte, b: byte)
    | PosMode(light: nat, pos: byte, mode: byte)

  function Kind(c: Command): nat
  {
    match c
    case Brightness(_, _) => 0
    case Hsb(_, _, _, _) => 1
    case PosMode(_, _, _) => 2
  }

  /** Bytes a command takes: the address byte and 1, 3 or 2 data bytes. */
  function CommandSize(c: Command): nat
  {
    match c
    case Brightness(_, _) => 2
    case Hsb(_, _, _, _) => 4
    case PosMode(_, _, _) => 3
  }

  /**
   * The address byte as the sender appends it: `3 * light + kind` cut to a
   * byte. Only for the first 85 lights is it the full value, and below the
   * NOP; light 85's brightness command is the NOP byte itself.
   */
  function AddressByte(c: Command): (a: byte)
    ensures c.light < AddressableLights ==> a == 3 * c.light + Kind(c) && a < Nop
    ensures c.Brightness? && c.light == 85 ==> a == Nop
  {
    (3 * c.light + Kind(c)) % 256
  }

  function EncodeCommand(c: Command): (r: seq<byte>)
    ensures |r| == CommandSize(c) && r[0] == AddressByte(c)
  {
    match c
    case Brightness(_, b) => [AddressByte(c), b]
    case Hsb(_, h, s, b) => [AddressByte(c), h, s, b]
    case PosMode(_, pos, mode) => [AddressByte(c), pos, mode]
  }

  /** The bytes of a command stream, one command after the other. */
  function Serialize(cs: seq<Command>): seq<byte>
  {
    if cs == [] then [] else Serialize(cs[..|cs| - 1]) + EncodeCommand(cs[|cs| - 1])
  }

  /** The number of bytes a command stream takes. */
  function Size(cs: seq<Command>): nat
  {
    if cs == [] then 0 else Size(cs[..|cs| - 1]) + CommandSize(cs[|cs| - 1])
  }

  lemma {:induction false} SizeIsLength(cs: seq<Command>)
    ensures |Serialize(cs)| == Size(cs)
    decreases |cs|
  {
    if cs != [] {
      SizeIsLength(cs[..|cs| - 1]);
    }
  }

  lemma {:induction false} SerializeAppend(a: seq<Command>, b: seq<Command>)
    ensures Serialize(a + b) == Serialize(a) + Serialize(b)
    decreases |b|
  {
    if b == [] {
      assert a + b == a;
    } else {
      var b' := b[..|b| - 1];
      assert (a + b)[..|a + b| - 1] == a + b';
      SerializeAppend(a, b');
    }
  }

  predicate AllAddressable(cs: seq<Command>)
  {
    forall i :: 0 <= i < |cs| ==> cs[i].light < AddressableLights
  }

  /** `n` NOP bytes. */
  function Nops(n: nat): (r: seq<byte>)
    ensures |r| == n && forall i :: 0 <= i < n ==> r[i] == Nop
  {
    seq(n, _ => Nop)
  }

  /**
   * The commands `processP44DMX` decodes from `s`, starting at index `i`:
   * - a 0xFF byte is skipped on its own;
   * - any other byte selects light `addr / 3` and kind `addr % 3`;
   * - an HSB or position/mode command without all its data bytes ends the
   *   stream;
   * - a brightness command whose address byte is the last byte reads the
   *   terminating NUL of the string and logs brightness 0.
   */
  function ParseFrom(s: seq<byte>, i: nat): seq<Command>
    decreases |s| - i
  {
    if i >= |s| then []
    else if s[i] == Nop then ParseFrom(s, i + 1)
    else
      var light, kind := s[i] / 3, s[i] % 3;
      if kind == 0 then
        [Brightness(light, if i + 1 < |s| then s[i + 1] else 0)] + ParseFrom(s, i + 2)
      else if kind == 1 then
        if i + 4 > |s| then [] else [Hsb(light, s[i + 1], s[i + 2], s[i + 3])] + ParseFrom(s, i + 4)
      else
        if i + 3 > |s| then [] else [PosMode(light, s[i + 1], s[i + 2])] + ParseFrom(s, i + 3)
  }

  function Parse(s: seq<byte>): seq<Command>
  {
    ParseFrom(s, 0)
  }

  /** Every decoded command took at least two bytes, the last one possibly the terminating NUL. */
  lemma {:induction false} ParseFromBound(s: seq<byte>, i: nat)
    ensures ParseFrom(s, i) != [] ==> i + 2 * |ParseFrom(s, i)| <= |s| + 1
    ensures i == 0 ==> 2 * |Parse(s)| <= |s| + 1
    decreases |s| - i
  {
    if i < |s| {
      if s[i] == Nop {
        ParseFromBound(s, i + 1);
      } else if s[i] % 3 == 0 {
        ParseFromBound(s, i + 2);
      } else if s[i] % 3 == 1 {
        ParseFromBound(s, i + 4);
      } else {
        ParseFromBound(s, i + 3);
      }
    }
  }

  /** Decoding does not depend on what precedes the position it starts from. */
  lemma {:induction false} ParseShift(x: seq<byte>, y: seq<byte>, i: nat)
    ensures ParseFrom(x + y, |x| + i) == ParseFrom(y, i)
    decreases |y| - i
  {
    var s := x + y;
    if i < |y| {
      var j := |x| + i;
      assert s[j] == y[i];
      if y[i] == Nop {
        ParseShift(x, y, i + 1);
      } else if y[i] % 3 == 0 {
        if i + 1 < |y| { assert s[j + 1] == y[i + 1]; }
        ParseShift(x, y, i + 2);
      } else if y[i] % 3 == 1 {
        if i + 4 <= |y| {
          assert s[j + 1] == y[i + 1] && s[j + 2] == y[i + 2] && s[j + 3] == y[i + 3];
          ParseShift(x, y, i + 4);
        }
      } else {
        if i + 3 <= |y| {
          assert s[j + 1] == y[i + 1] && s[j + 2] == y[i + 2];
          ParseShift(x, y, i + 3);
        }
      }
    }
  }

  /** A 0xFF byte is a one-byte NOP: whatever follows it is decoded as if it were not there. */
  lemma NopSkipped(s: seq<byte>)
    ensures Parse([Nop] + s) == Parse(s)
  {
    ParseShift([Nop], s, 0);
  }

  lemma {:induction false} ParseNops(n: nat, i: nat)
    ensures ParseFrom(Nops(n), i) == []
    decreases n - i
  {
    if i < n {
      ParseNops(n, i + 1);
    }
  }

  lemma ParseCommandFirst(c: Command, rest: seq<byte>)
    requires c.light < AddressableLights
    ensures Parse(EncodeCommand(c) + rest) == [c] + Parse(rest)
  {
    var e := EncodeCommand(c);
    var s := e + rest;
    assert s[0] == AddressByte(c);
    assert forall k :: 0 <= k < |e| ==> s[k] == e[k];
    ParseShift(e, rest, 0);
  }

  /**
   * Commands for the first 85 lights, followed by any number of NOPs, are
   * decoded to exactly those commands.
   */
  lemma {:induction false} ParseSerialize(cs: seq<Command>, fill: nat)
    requires AllAddressable(cs)
    ensures Parse(Serialize(cs) + Nops(fill)) == cs
    decreases |cs|
  {
    if cs == [] {
      assert Serialize(cs) + Nops(fill) == Nops(fill);
      ParseNops(fill, 0);
    } else {
      var rest := cs[1..];
      assert AllAddressable(rest) by {
        forall i | 0 <= i < |rest| ensures rest[i].light < AddressableLights {
          assert rest[i] == cs[i + 1];
        }
      }
      var tail := Serialize(rest) + Nops(fill);
      assert Serialize(cs) + Nops(fill) == EncodeCommand(cs[0]) + tail by {
        assert [cs[0]] + rest == cs;
        SerializeAppend([cs[0]], rest);
        assert [cs[0]][..0] == [];
        assert Serialize([cs[0]]) == EncodeCommand(cs[0]);
      }
      ParseCommandFirst(cs[0], tail);
      ParseSerialize(rest, fill);
    }
  }

  /**
   * As written, light 85's brightness command goes out as the NOP byte
   * followed by its value; the receiver skips the NOP and reads the value
   * as an address byte: brightness 3 for light 85 becomes brightness 0
   * (the string's terminating NUL) for light 1.
   */
  lemma Light85Misread()
    ensures Serialize([Brightness(85, 3)]) == [Nop, 3]
    ensures Parse(Serialize([Brightness(85, 3)])) == [Brightness(1, 0)]
  {
    assert [Brightness(85, 3)][..0] == [];
    assert Serialize([Brightness(85, 3)]) == [Nop, 3];
    NopSkipped([3]);
    assert [Nop, 3] == [Nop] + [3];
  }

  /** What `processP44DMX` logs for one command addressed to one of its lights. */
  datatype Logged = Logged(local: nat, cmd: Command)

  /**
   * The local index of a global light number: the light minus the first
   * light number, -1 when that is at or past `numLights` (a negative
   * difference stays negative).
   */
  function LocalIndex(light: nat, first: nat, numLights: nat): (k: int)
    ensures 0 <= k ==> k == light - first && k < numLights
    ensures first <= light < first + numLights ==> k == light - first
  {
    var k := light - first;
    if k >= numLights then -1 else k
  }

  /** The log lines of a decoded command stream: those for lights of this receiver, in order. */
  function Logs(cs: seq<Command>, first: nat, numLights: nat): (r: seq<Logged>)
    ensures |r| <= |cs|
    ensures forall k :: 0 <= k < |r| ==> r[k].local < numLights && r[k].cmd.light == first + r[k].local
    decreases |cs|
  {
    if cs == [] then []
    else
      var k := LocalIndex(cs[0].light, first, numLights);
      (if k >= 0 then [Logged(k, cs[0])] else []) + Logs(cs[1..], first, numLights)
  }

  /** A command for a light of this receiver is logged; one for another light is not. */
  lemma {:induction false} LogsExactly(cs: seq<Command>, first: nat, numLights: nat, c: Command)
    requires c in cs
    ensures first <= c.light < first + numLights ==> Logged(c.light - first, c) in Logs(cs, first, numLights)
    ensures (exists x :: x in Logs(cs, first, numLights) && x.cmd == c) <==> first <= c.light < first + numLights
    decreases |cs|
  {
    if cs[0] != c {
      assert c in cs[1..];
      LogsExactly(cs[1..], first, numLights, c);
    } else if c in cs[1..] {
      LogsExactly(cs[1..], first, numLights, c);
    }
  }

  /**
   * `processP44BTDMXpayload`: descramble with the key, check the CRC and,
   * when it matches, log the decoded commands; a frame with a CRC
   * mismatch logs nothing. There is no lockout and no native flag.
   */
  function Received(key: seq<byte>, first: nat, numLights: nat, data: seq<byte>): seq<Logged>
    requires |data| >= 2
  {
    match Codec.Decode(key, data)
    case None => []
    case Some(p) => Logs(Parse(p), first, numLights)
  }

  /** A frame encoded with the receiver's key logs exactly the commands of its plaintext. */
  lemma ReceivedEncoded(key: seq<byte>, first: nat, numLights: nat, p: seq<byte>)
    ensures Received(key, first, numLights, Codec.Encode(key, p)) == Logs(Parse(p), first, numLights)
  {
    Codec.DecodeEncode(key, p);
  }

  /**
   * `processBTAdvMfgData`: the carriers are those of the ESP32 version
   * (native record from byte 3, iBeacon payload from byte 4), but the
   * payload is decoded whichever carrier it came in.
   */
  function AdvReceived(key: seq<byte>, first: nat, numLights: nat, mfgData: seq<byte>): seq<Logged>
    requires match Carrier.Unwrap(mfgData) case None => true case Some(c) => |c.payload| >= 2
  {
    match Carrier.Unwrap(mfgData)
    case None => []
    case Some(c) => Received(key, first, numLights, c.payload)
  }

  /** A payload in the native carrier the ESP32 sender builds is logged as its plaintext's commands. */
  lemma AdvReceivedNative(key: seq<byte>, first: nat, numLights: nat, p: seq<byte>)
    ensures var d := Carrier.AdvMfgData(Codec.Encode(key, p))[2..];
      Carrier.Unwrap(d) == Some(Carrier.Carried(Codec.Encode(key, p), true)) &&
      AdvReceived(key, first, numLights, d) == Logs(Parse(p), first, numLights)
  {
    Carrier.UnwrapAdvMfgData(Codec.Encode(key, p));
    ReceivedEncoded(key, first, numLights, p);
  }

  /**
   * A payload disguised as an iBeacon, whose announced length is the
   * payload's, is decoded just the same: no carrier is held back.
   */
  lemma AdvReceivedIBeacon(key: seq<byte>, first: nat, numLights: nat, p: seq<byte>, rest: seq<byte>)
    requires |p| + 2 < 256
    ensures var f := Codec.Encode(key, p);
      var d := [0x4C, 0x00, Carrier.SubtypeIBeacon, |f|] + f + rest;
      Carrier.Unwrap(d) == Some(Carrier.Carried(f, false)) &&
      AdvReceived(key, first, numLights, d) == Logs(Parse(p), first, numLights)
  {
    var f := Codec.Encode(key, p);
    var d := [0x4C, 0x00, Carrier.SubtypeIBeacon, |f|] + f + rest;
    assert Carrier.CompanyId(d) == Carrier.CompanyApple;
    Carrier.UnwrapIBeacon(d);
    assert d[4..4 + d[3]] == f;
    ReceivedEncoded(key, first, numLights, p);
  }

  /**
   * `generateP44BTDMXpayload`: the commands are filled with NOPs up to
   * `maxBytes - 2` bytes and encoded; there is no minimum size and the
   * payload is produced even when there are no commands.
   */
  function Payload(key: seq<byte>, cmds: seq<byte>, maxBytes: int): (f: seq<byte>)
    ensures |cmds| <= maxBytes - 2 ==> |f| == maxBytes
    ensures |cmds| >= maxBytes - 2 ==> |f| == |cmds| + 2
  {
    var fill := maxBytes - 2 - |cmds|;
    Codec.Encode(key, if fill > 0 then cmds + Nops(fill) else cmds)
  }

  /**
   * Commands for the first 85 lights that fit the payload reach a
   * receiver with the same key as exactly the log lines for its lights.
   */
  lemma PayloadRoundTrip(key: seq<byte>, cs: seq<Command>, maxBytes: int, first: nat, numLights: nat)
    requires AllAddressable(cs)
    ensures Received(key, first, numLights, Payload(key, Serialize(cs), maxBytes)) == Logs(cs, first, numLights)
  {
    var cmds := Serialize(cs);
    var fill := maxBytes - 2 - |cmds|;
    var plain := if fill > 0 then cmds + Nops(fill) else cmds;
    if fill > 0 {
      ParseSerialize(cs, fill);
    } else {
      assert cmds + Nops(0) == cmds;
      ParseSerialize(cs, 0);
    }
    ReceivedEncoded(key, first, numLights, plain);
  }
}
