/**
 * The p44BTDMX sender: the channel universe fed from DMX, the delta
 * scheduler run over it in place, and the payload and advertising data
 * built around the scheduled commands.
 *
 * Every method that runs a loop of the source over the universe is proved
 * against the function of the Scheduler module that specifies it, so the
 * properties proved there hold of what the class computes.
 */
module Sender {
  import opened Wire
  import opened Commands
  import opened Scheduler
  import Codec
  import Crc16
  import Carrier

  /**
   * The padding `generateP44BTDMXpayload` appends: up to the minimum size,
   * which defaults to the maximum less the two CRC bytes.
   */
  function Fill(cmdsLen: nat, maxBytes: int, minBytes: int): (n: nat)
    ensures cmdsLen + n >= (if minBytes == 0 then maxBytes - 2 else minBytes)
    ensures n > 0 ==> cmdsLen + n == (if minBytes == 0 then maxBytes - 2 else minBytes)
  {
    var minB := if minBytes == 0 then maxBytes - 2 else minBytes;
    if minB - cmdsLen > 0 then minB - cmdsLen else 0
  }

  /** The payload for a command stream: nothing for no commands, else the padded stream encoded. */
  function PayloadFor(key: seq<byte>, cmds: seq<byte>, maxBytes: int, minBytes: int): (r: seq<byte>)
    ensures r == [] <==> cmds == []
    ensures cmds != [] ==> |r| >= |cmds| + 2 && |r| >= (if minBytes == 0 then maxBytes else minBytes + 2)
  {
    if cmds == [] then [] else Codec.Encode(key, cmds + Padding(Fill(|cmds|, maxBytes, minBytes)))
  }

  /** The advertising data for a payload: nothing for no payload, else one manufacturer data structure. */
  function AdvFor(payload: seq<byte>): (r: seq<byte>)
    ensures r == [] <==> payload == []
    ensures payload != [] ==> |r| == |payload| + 5 && r[5..] == payload
  {
    if payload == [] then [] else Carrier.AdvMfgData(payload)
  }

  /** A non-empty stream padded to the minimum is what the payload encodes. */
  lemma PayloadOfPadded(key: seq<byte>, cmds: seq<byte>, maxBytes: int, minBytes: int, plain: seq<byte>)
    requires cmds != [] && plain == cmds + Padding(Fill(|cmds|, maxBytes, minBytes))
    ensures PayloadFor(key, cmds, maxBytes, minBytes) == Codec.Encode(key, plain)
  {
  }

  /**
   * A payload built from a command stream decodes, with the same key, to
   * the stream and its padding, and the receiver's command decoder reads
   * back exactly the commands.
   */
  lemma PayloadRoundTrip(key: seq<byte>, cs: seq<Command>, maxBytes: int, minBytes: int)
    requires AllAddressable(cs) && cs != []
    ensures var p := PayloadFor(key, Serialize(cs), maxBytes, minBytes);
      |p| >= 2 &&
      exists plain :: Codec.Decode(key, p) == Some(plain) && Parse(plain) == cs
  {
    var cmds := Serialize(cs);
    SizeIsSerializedLength(cs);
    SizeAppend(cs[..|cs| - 1], cs[|cs| - 1]);
    assert cs[..|cs| - 1] + [cs[|cs| - 1]] == cs;
    var plain := cmds + Padding(Fill(|cmds|, maxBytes, minBytes));
    PayloadOfPadded(key, cmds, maxBytes, minBytes, plain);
    Codec.DecodeEncode(key, plain);
    ParseSerialize(cs, Fill(|cmds|, maxBytes, minBytes));
    assert Codec.Decode(key, PayloadFor(key, cmds, maxBytes, minBytes)) == Some(plain);
  }

  /**
   * With the default minimum, a non-empty payload for commands that fit
   * the budget is exactly `maxBytes` long: padding fills it up.
   */
  lemma PayloadExactLength(key: seq<byte>, cmds: seq<byte>, maxBytes: int)
    requires cmds != [] && |cmds| <= maxBytes - 2
    ensures |PayloadFor(key, cmds, maxBytes, 0)| == maxBytes
  {
  }

  class Sender {
    /** `mUniverse`: the channels of 84 light blocks. */
    const universe: array<DMXChannel>
    var initialRepeatCount: int
    var refreshUniverse: bool
    var systemKey: seq<byte>

    predicate Valid()
    {
      universe.Length == UniverseSize
    }

    /** All channels 0, counted as sent; three repeats of each change; no refresh; the default key. */
    constructor ()
      ensures Valid() && fresh(universe)
      ensures forall i :: 0 <= i < universe.Length ==> universe[i] == DMXChannel(0, 0, 0)
      ensures initialRepeatCount == 3 && !refreshUniverse && systemKey == Codec.DefaultKey
    {
      universe := new DMXChannel[UniverseSize](_ => DMXChannel(0, 0, 0));
      initialRepeatCount := 3;
      refreshUniverse := false;
      systemKey := Codec.DefaultKey;
    }

    method SetSystemKey(input: seq<byte>, hexDecoded: seq<byte>)
      modifies this`systemKey
      ensures systemKey == Codec.KeyFromInput(input, hexDecoded)
    {
      systemKey := Codec.KeyFromInput(input, hexDecoded);
    }

    method SetInitialRepeatCount(count: int)
      modifies this`initialRepeatCount
      ensures initialRepeatCount == count
    {
      initialRepeatCount := count;
    }

    method SetRefreshUniverse(refresh: bool)
      modifies this`refreshUniverse
      ensures refreshUniverse == refresh
    {
      refreshUniverse := refresh;
    }

    /** `reset`: every channel counts as sent with its pending value, to be re-sent at age 128. */
    method Reset()
      requires Valid()
      modifies universe
      ensures universe[..] == ResetAll(old(universe[..]))
    {
      var i := 0;
      while i < universe.Length
        invariant 0 <= i <= universe.Length
        invariant forall j :: 0 <= j < i ==>
          universe[j] == DMXChannel(old(universe[j]).pending, old(universe[j]).pending, 128)
        invariant forall j :: i <= j < universe.Length ==> universe[j] == old(universe[j])
      {
        universe[i] := DMXChannel(universe[i].pending, universe[i].pending, 128);
        i := i + 1;
      }
    }

    /** `getChannel`: the pending value, 0 past the end of the universe. */
    method GetChannel(ch: nat) returns (value: byte)
      requires Valid() && ch < 0x1_0000
      ensures value == PendingAt(universe[..], ch)
      ensures ch < UniverseSize ==> value == universe[ch].pending
    {
      if ch >= universe.Length {
        return 0;
      }
      value := universe[ch].pending;
    }

    /** `setChannel`: a channel past the end of the universe is ignored. */
    method SetChannel(ch: nat, value: byte)
      requires Valid() && ch < 0x1_0000
      modifies universe
      ensures universe[..] == SetPending(old(universe[..]), ch, value)
    {
      if ch >= universe.Length {
        return;
      }
      universe[ch] := universe[ch].(pending := value);
    }

    /** `setChannels`: the values go to consecutive 16-bit channel numbers from `from`. */
    method SetChannels(from: nat, data: seq<byte>)
      requires Valid() && from < 0x1_0000 && |data| < 0x1_0000
      modifies universe
      ensures universe[..] == SetPendings(old(universe[..]), from, data)
    {
      var i := 0;
      while i < |data|
        invariant 0 <= i <= |data|
        invariant universe[..] == SetPendings(old(universe[..]), from, data[..i])
      {
        SetChannel((from + i) % 0x1_0000, data[i]);
        assert data[..i + 1][..i] == data[..i];
        i := i + 1;
      }
      assert data[..i] == data;
    }

    /**
     * `encodeP44BTDMXpayload`: one pass folds each byte into the CRC and
     * appends it scrambled; the CRC bytes follow, scrambled too.
     */
    method EncodeP44BTDMXpayload(plain: seq<byte>) returns (encoded: seq<byte>)
      ensures encoded == Codec.Encode(systemKey, plain)
    {
      var crc: bv16 := 0;
      encoded := [];
      var i := 0;
      while i < |plain|
        invariant 0 <= i <= |plain|
        invariant crc == Codec.Crc(plain[..i])
        invariant |encoded| == i
        invariant forall j :: 0 <= j < i ==> encoded[j] == Xor(plain[j], Codec.KeyByte(systemKey, j))
      {
        var b := plain[i];
        Codec.CrcAppend(plain[..i], b);
        assert plain[..i + 1] == plain[..i] + [b];
        crc := Crc16.Step(crc, Codec.Bits(b));
        encoded := encoded + [Xor(b, Codec.KeyByte(systemKey, i))];
        i := i + 1;
      }
      assert plain[..i] == plain;
      var hi, lo := Codec.FromBits(crc >> 8, 8), Codec.FromBits(crc, 8);
      Codec.EncodeLayout(systemKey, plain, encoded, crc);
      encoded := encoded + [Xor(hi, Codec.KeyByte(systemKey, i)), Xor(lo, Codec.KeyByte(systemKey, i + 1))];
    }

    /** Change detection: changed channels are adopted at age 255. */
    method DetectChanges()
      requires Valid()
      modifies universe
      ensures universe[..] == Detect(old(universe[..]))
    {
      var i := 0;
      while i < universe.Length
        invariant 0 <= i <= universe.Length
        invariant forall j :: 0 <= j < i ==> universe[j] == Detect(old(universe[..]))[j]
        invariant forall j :: i <= j < universe.Length ==> universe[j] == old(universe[j])
      {
        if universe[i].pending != universe[i].current {
          universe[i] := universe[i].(age := 255, current := universe[i].pending);
        }
        i := i + 1;
      }
    }

    /** The scan for the highest age below `lastMaxAge`. */
    method FindMaxAge(lastMaxAge: int) returns (maxAge: int)
      requires Valid()
      ensures maxAge == MaxAgeBelow(universe[..], lastMaxAge)
    {
      maxAge := 0;
      var i := 0;
      while i < universe.Length
        invariant 0 <= i <= universe.Length
        invariant maxAge == MaxAgeBelow(universe[..i], lastMaxAge)
      {
        assert universe[..i + 1][..i] == universe[..i];
        if universe[i].age > maxAge && universe[i].age < lastMaxAge {
          maxAge := universe[i].age;
        }
        i := i + 1;
      }
      assert universe[..i] == universe[..];
    }

    /** One pass of the loop over the other channels of light `l`: channel `cidx`. */
    method EmitOtherChannel(l: nat, cidx: nat, maxAge: int, doneAge: byte,
                            room0: int, cmds0: seq<byte>, ghost acc0: seq<Command>)
      returns (room: int, cmds: seq<byte>, ghost acc: seq<Command>)
      requires Valid() && l < NumLights && 3 <= cidx < LightChannels
      requires AllAddressable(acc0) && cmds0 == Serialize(acc0)
      modifies universe
      ensures AllAddressable(acc) && cmds == Serialize(acc)
      ensures Emission(universe[..], acc, room) ==
        OtherStep(Emission(old(universe[..]), acc0, room0), l, cidx, maxAge, doneAge)
    {
      room, cmds, acc := room0, cmds0, acc0;
      var k := l * LightChannels + cidx;
      if universe[k].age == maxAge && room >= 3 {
        var addr: byte, index: byte, value := 3 * l + 2, cidx, universe[k].current;
        var c := Other(l, index, value);
        SerializeSnocBytes(acc, cmds, c, [addr, index, value]);
        cmds := cmds + [addr, index, value];
        acc := acc + [c];
        room := room - 3;
        universe[k] := universe[k].(age := doneAge);
      }
    }

    /** The loop over the other channels of light `l`: one index/value command each. */
    method EmitOtherChannels(l: nat, maxAge: int, doneAge: byte,
                             room0: int, cmds0: seq<byte>, ghost acc0: seq<Command>)
      returns (room: int, cmds: seq<byte>, ghost acc: seq<Command>)
      requires Valid() && l < NumLights && AllAddressable(acc0) && cmds0 == Serialize(acc0)
      modifies universe
      ensures AllAddressable(acc) && cmds == Serialize(acc)
      ensures Emission(universe[..], acc, room) ==
        EmitOthers(Emission(old(universe[..]), acc0, room0), l, 3, maxAge, doneAge)
    {
      room, cmds, acc := room0, cmds0, acc0;
      var cidx := 3;
      while cidx < LightChannels
        invariant 3 <= cidx <= LightChannels
        invariant AllAddressable(acc) && cmds == Serialize(acc)
        invariant EmitOthers(Emission(universe[..], acc, room), l, cidx, maxAge, doneAge) ==
          EmitOthers(Emission(old(universe[..]), acc0, room0), l, 3, maxAge, doneAge)
      {
        room, cmds, acc := EmitOtherChannel(l, cidx, maxAge, doneAge, room, cmds, acc);
        cidx := cidx + 1;
      }
    }

    /** The colour command of light `l`: HSB, or else brightness alone. */
    method EmitColorCommand(l: nat, maxAge: int, doneAge: byte,
                            room0: int, cmds0: seq<byte>, ghost acc0: seq<Command>)
      returns (room: int, cmds: seq<byte>, ghost acc: seq<Command>)
      requires Valid() && l < NumLights && room0 >= 2 && AllAddressable(acc0) && cmds0 == Serialize(acc0)
      modifies universe
      ensures AllAddressable(acc) && cmds == Serialize(acc)
      ensures Emission(universe[..], acc, room) ==
        EmitColor(Emission(old(universe[..]), acc0, room0), l, maxAge, doneAge)
    {
      room, cmds, acc := room0, cmds0, acc0;
      var loffs := l * LightChannels;
      assert loffs == Channel(l, 0) && loffs + 1 == Channel(l, 1) && loffs + 2 == Channel(l, 2);
      if (universe[loffs].age == maxAge || universe[loffs + 1].age == maxAge) && room >= 4 {
        room, cmds, acc := EmitHsb(l, doneAge, room, cmds, acc);
      } else if universe[loffs + 2].age == maxAge {
        room, cmds, acc := EmitBrightness(l, doneAge, room, cmds, acc);
      }
    }

    /** The HSB command of light `l`, marking hue, saturation and brightness sent. */
    method EmitHsb(l: nat, doneAge: byte, room0: int, cmds0: seq<byte>, ghost acc0: seq<Command>)
      returns (room: int, cmds: seq<byte>, ghost acc: seq<Command>)
      requires Valid() && l < NumLights && AllAddressable(acc0) && cmds0 == Serialize(acc0)
      modifies universe
      ensures AllAddressable(acc) && cmds == Serialize(acc)
      ensures Emission(universe[..], acc, room) == HsbSend(Emission(old(universe[..]), acc0, room0), l, doneAge)
    {
      var loffs := l * LightChannels;
      var addr: byte, h, s, b := 3 * l + 1, universe[loffs].current, universe[loffs + 1].current, universe[loffs + 2].current;
      var c := Hsb(l, h, s, b);
      SerializeSnocBytes(acc0, cmds0, c, [addr, h, s, b]);
      cmds := cmds0 + [addr, h, s, b];
      acc := acc0 + [c];
      room := room0 - 4;
      universe[loffs] := universe[loffs].(age := doneAge);
      universe[loffs + 1] := universe[loffs + 1].(age := doneAge);
      universe[loffs + 2] := universe[loffs + 2].(age := doneAge);
    }

    /** The brightness command of light `l`, marking brightness sent. */
    method EmitBrightness(l: nat, doneAge: byte, room0: int, cmds0: seq<byte>, ghost acc0: seq<Command>)
      returns (room: int, cmds: seq<byte>, ghost acc: seq<Command>)
      requires Valid() && l < NumLights && AllAddressable(acc0) && cmds0 == Serialize(acc0)
      modifies universe
      ensures AllAddressable(acc) && cmds == Serialize(acc)
      ensures Emission(universe[..], acc, room) == BrightnessSend(Emission(old(universe[..]), acc0, room0), l, doneAge)
    {
      var k := l * LightChannels + 2;
      var addr: byte, b := 3 * l, universe[k].current;
      var c := Brightness(l, b);
      SerializeSnocBytes(acc0, cmds0, c, [addr, b]);
      cmds := cmds0 + [addr, b];
      acc := acc0 + [c];
      room := room0 - 2;
      universe[k] := universe[k].(age := doneAge);
    }

    /** The commands of light `l`: its colour command, then its other channels. */
    method EmitLightCommands(l: nat, maxAge: int, doneAge: byte,
                             room0: int, cmds0: seq<byte>, ghost acc0: seq<Command>)
      returns (room: int, cmds: seq<byte>, ghost acc: seq<Command>)
      requires Valid() && l < NumLights && room0 >= 2 && AllAddressable(acc0) && cmds0 == Serialize(acc0)
      modifies universe
      ensures AllAddressable(acc) && cmds == Serialize(acc)
      ensures Emission(universe[..], acc, room) ==
        EmitLight(Emission(old(universe[..]), acc0, room0), l, maxAge, doneAge)
    {
      room, cmds, acc := EmitColorCommand(l, maxAge, doneAge, room0, cmds0, acc0);
      room, cmds, acc := EmitOtherChannels(l, maxAge, doneAge, room, cmds, acc);
    }

    /** One tier: light by light, until the lights or the room run out. */
    method EmitTier(maxAge: int, doneAge: byte, room0: int, cmds0: seq<byte>, ghost acc0: seq<Command>)
      returns (room: int, cmds: seq<byte>, ghost acc: seq<Command>)
      requires Valid() && room0 >= 2 && AllAddressable(acc0) && cmds0 == Serialize(acc0)
      modifies universe
      ensures AllAddressable(acc) && cmds == Serialize(acc)
      ensures Emission(universe[..], acc, room) ==
        EmitLights(Emission(old(universe[..]), acc0, room0), 0, maxAge, doneAge)
    {
      room, cmds, acc := room0, cmds0, acc0;
      ghost var target := EmitLights(Emission(universe[..], acc, room), 0, maxAge, doneAge);
      var lidx := 0;
      while lidx < NumLights
        invariant 0 <= lidx <= NumLights && room >= 2
        invariant AllAddressable(acc) && cmds == Serialize(acc)
        invariant EmitLights(Emission(universe[..], acc, room), lidx, maxAge, doneAge) == target
      {
        ghost var before := Emission(universe[..], acc, room);
        room, cmds, acc := EmitLightCommands(lidx, maxAge, doneAge, room, cmds, acc);
        EmitLightsNext(before, lidx, maxAge, doneAge);
        if room < 2 {
          break;
        }
        lidx := lidx + 1;
      }
    }

    /** With refresh, every age below the recent-change window grows by one. */
    method AgeChannels(recentMinAge: int)
      requires Valid()
      modifies universe
      ensures universe[..] == AgeAll(old(universe[..]), recentMinAge)
    {
      var i := 0;
      while i < universe.Length
        invariant 0 <= i <= universe.Length
        invariant forall j :: 0 <= j < i ==> universe[j] == AgeAll(old(universe[..]), recentMinAge)[j]
        invariant forall j :: i <= j < universe.Length ==> universe[j] == old(universe[j])
      {
        if universe[i].age < recentMinAge {
          universe[i] := universe[i].(age := (universe[i].age + 1) % 256);
        }
        i := i + 1;
      }
    }

    /**
     * `generateP44DMXcmds`: detect changes, emit tiers of decreasing age
     * while two bytes of room are left, then age the universe when
     * refreshing.
     */
    method GenerateP44DMXcmds(maxBytes: int) returns (cmds: seq<byte>)
      requires Valid()
      modifies universe
      ensures universe[..] == Generate(old(universe[..]), initialRepeatCount, refreshUniverse, maxBytes).0
      ensures cmds == GenerateBytes(old(universe[..]), initialRepeatCount, refreshUniverse, maxBytes)
    {
      ghost var start := universe[..];
      DetectChanges();
      var recentMinAge := 255 - initialRepeatCount;
      var room;
      ghost var acc;
      room, cmds, acc := EmitTiers(maxBytes, recentMinAge, start);
      assert recentMinAge == 255 - initialRepeatCount;
      assert Emission(universe[..], acc, room) == Tiers(Emission(Detect(start), [], maxBytes), NoTierYet, recentMinAge).e;
      GenerateOfRound(start, initialRepeatCount, refreshUniverse, maxBytes, Emission(universe[..], acc, room));
      assert cmds == GenerateBytes(start, initialRepeatCount, refreshUniverse, maxBytes);
      if refreshUniverse {
        AgeChannels(recentMinAge);
      }
    }

    /** The loop over the tiers: the ceiling `lastMaxAge` strictly decreases from tier to tier. */
    method EmitTiers(maxBytes: int, recentMinAge: int, ghost start: seq<DMXChannel>)
      returns (room: int, cmds: seq<byte>, ghost acc: seq<Command>)
      requires Valid() && IsUniverse(start) && universe[..] == Detect(start)
      modifies universe
      ensures AllAddressable(acc) && cmds == Serialize(acc)
      ensures Emission(universe[..], acc, room) == Tiers(Emission(Detect(start), [], maxBytes), NoTierYet, recentMinAge).e
    {
      room := maxBytes;
      var lastMaxAge := NoTierYet;
      acc := [];
      ghost var target := Tiers(Emission(universe[..], acc, room), lastMaxAge, recentMinAge).e;
      cmds := [];
      while room >= 2
        invariant AllAddressable(acc) && cmds == Serialize(acc)
        invariant Tiers(Emission(universe[..], acc, room), lastMaxAge, recentMinAge).e == target
        decreases if lastMaxAge > 0 then lastMaxAge else 0
      {
        var found, nextLast;
        found, nextLast, room, cmds, acc := EmitNextTier(lastMaxAge, recentMinAge, room, cmds, acc);
        if !found {
          return;
        }
        lastMaxAge := nextLast;
      }
      TiersStop(Emission(universe[..], acc, room), lastMaxAge, recentMinAge);
    }

    /**
     * One pass of the tier loop: the highest age below the ceiling, none
     * found ending the loop; a recent-change tier is sent with done age one
     * lower and lowers the ceiling to the recent-change window, an older
     * tier is sent with done age 0 and becomes the ceiling.
     */
    method EmitNextTier(lastMaxAge: int, recentMinAge: int, room0: int, cmds0: seq<byte>, ghost acc0: seq<Command>)
      returns (found: bool, nextLast: int, room: int, cmds: seq<byte>, ghost acc: seq<Command>)
      requires Valid() && room0 >= 2 && AllAddressable(acc0) && cmds0 == Serialize(acc0)
      modifies universe
      ensures AllAddressable(acc) && cmds == Serialize(acc)
      ensures !found ==>
        Emission(universe[..], acc, room) == Tiers(Emission(old(universe[..]), acc0, room0), lastMaxAge, recentMinAge).e
      ensures found ==> nextLast < lastMaxAge && 0 < lastMaxAge
      ensures found ==>
        Tiers(Emission(universe[..], acc, room), nextLast, recentMinAge).e ==
        Tiers(Emission(old(universe[..]), acc0, room0), lastMaxAge, recentMinAge).e
    {
      room, cmds, acc := room0, cmds0, acc0;
      var maxAge := FindMaxAge(lastMaxAge);
      if maxAge == 0 {
        TiersStop(Emission(universe[..], acc, room), lastMaxAge, recentMinAge);
        return false, lastMaxAge, room, cmds, acc;
      }
      var doneAge: byte;
      if maxAge > recentMinAge {
        nextLast, doneAge := recentMinAge, maxAge - 1;
      } else {
        nextLast, doneAge := maxAge, 0;
      }
      TiersNext(Emission(universe[..], acc, room), lastMaxAge, recentMinAge, maxAge, doneAge, nextLast);
      room, cmds, acc := EmitTier(maxAge, doneAge, room, cmds, acc);
      found := true;
    }

    /**
     * `generateP44BTDMXpayload`: the commands for two bytes less than the
     * maximum, padded with 0xFF up to the minimum, then encoded; nothing
     * when there are no commands.
     */
    method GenerateP44BTDMXpayload(maxBytes: int, minBytes: int) returns (payload: seq<byte>)
      requires Valid()
      modifies universe
      ensures universe[..] == Generate(old(universe[..]), initialRepeatCount, refreshUniverse, maxBytes - 2).0
      ensures payload == PayloadFor(systemKey,
        GenerateBytes(old(universe[..]), initialRepeatCount, refreshUniverse, maxBytes - 2), maxBytes, minBytes)
    {
      ghost var start := universe[..];
      var minB := if minBytes == 0 then maxBytes - 2 else minBytes;
      var cmds := GenerateP44DMXcmds(maxBytes - 2);
      ghost var bytes := GenerateBytes(start, initialRepeatCount, refreshUniverse, maxBytes - 2);
      assert cmds == bytes;
      if cmds == [] {
        return [];
      }
      var fill := minB - |cmds|;
      var plain := cmds;
      if fill > 0 {
        assert fill == Fill(|cmds|, maxBytes, minBytes);
        plain := cmds + Padding(fill);
      } else {
        assert Fill(|cmds|, maxBytes, minBytes) == 0;
        assert cmds + Padding(0) == cmds;
      }
      PayloadOfPadded(systemKey, cmds, maxBytes, minBytes, plain);
      payload := EncodeP44BTDMXpayload(plain);
    }

    /**
     * `generateBTAdvMfgData`: a payload for five bytes less than the
     * maximum, wrapped in one manufacturer specific data structure.
     */
    method GenerateBTAdvMfgData(maxBytes: int) returns (adv: seq<byte>)
      requires Valid()
      modifies universe
      ensures universe[..] == Generate(old(universe[..]), initialRepeatCount, refreshUniverse, maxBytes - 7).0
      ensures adv == AdvFor(PayloadFor(systemKey,
        GenerateBytes(old(universe[..]), initialRepeatCount, refreshUniverse, maxBytes - 7), maxBytes - 5, 0))
    {
      var payload := GenerateP44BTDMXpayload(maxBytes - 5, 0);
      if payload == [] {
        return [];
      }
      adv := Carrier.AdvMfgData(payload);
    }
  }
}
