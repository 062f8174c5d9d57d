/**
 * From the sender's universe to the receiver's lights: the advertisement
 * `generateBTAdvMfgData` builds is found by the AD-structure scan,
 * recognised as a native carrier, passes the frame check and is dispatched
 * to a receiver whose first light is 0; every channel a command of the call
 * sets then holds the sender's value, applied.
 */
module EndToEnd {
  import opened Wire
  import opened Commands
  import opened Scheduler
  import Codec
  import Carrier
  import AdStruct
  import Sender
  import Receiver

  /** The channel indices of its light a command sets. */
  predicate Sets(c: Command, j: nat)
  {
    match c
    case Brightness(_, _) => j == 2
    case Hsb(_, _, _, _) => j <= 2
    case Other(_, index, _) => j == index
  }

  /** The receiver has a standard-width light for each of the 84 light numbers (and perhaps more). */
  predicate Lights(states: seq<seq<Receiver.LightChannel>>)
  {
    NumLights <= |states| && forall k :: 0 <= k < |states| ==> |states[k]| == LightChannels
  }

  /**
   * Every channel a command of `cs` sets holds, in the receiver's lights
   * `r`, the value last set on the sender's channel, applied.
   */
  predicate DeliversPending(r: seq<seq<Receiver.LightChannel>>, u: seq<DMXChannel>, cs: seq<Command>)
    requires IsUniverse(u)
  {
    forall i: nat, j: nat :: i < |cs| && j < LightChannels && Sets(cs[i], j) ==>
      cs[i].light < NumLights && cs[i].light < |r| && j < |r[cs[i].light]| &&
      r[cs[i].light][j] == Receiver.LightChannel(u[Channel(cs[i].light, j)].pending, u[Channel(cs[i].light, j)].pending)
  }

  /** Channel `j` of light `l` holds, applied, the current value of the sender's matching channel. */
  predicate Holds(states: seq<seq<Receiver.LightChannel>>, u: seq<DMXChannel>, l: nat, j: nat)
    requires IsUniverse(u) && l < NumLights && j < LightChannels
  {
    l < |states| && j < |states[l]| &&
    states[l][j] == Receiver.LightChannel(u[Channel(l, j)].current, u[Channel(l, j)].current)
  }

  /** A command that carries current values leaves a channel that holds its value holding it. */
  lemma StepKeeps(states: seq<seq<Receiver.LightChannel>>, u: seq<DMXChannel>, c: Command, l: nat, j: nat)
    requires IsUniverse(u) && Lights(states) && Carries(c, u)
    requires l < NumLights && j < LightChannels && Holds(states, u, l, j)
    ensures Holds(Receiver.Step(states, 0, false, c).0, u, l, j)
  {
    if c.light == l {
      var e := Receiver.Effect(states[l], c);
      assert e[j].pending == u[Channel(l, j)].current;
    }
  }

  /** A command that carries current values makes every channel it sets hold its value. */
  lemma StepDelivers(states: seq<seq<Receiver.LightChannel>>, u: seq<DMXChannel>, c: Command, j: nat)
    requires IsUniverse(u) && Lights(states) && Carries(c, u) && j < LightChannels && Sets(c, j)
    ensures Holds(Receiver.Step(states, 0, false, c).0, u, c.light, j)
  {
    var e := Receiver.Effect(states[c.light], c);
    assert e[j].pending == u[Channel(c.light, j)].current;
  }

  /** A command stream that carries current values keeps every channel that holds its value holding it. */
  lemma {:induction false} DispatchKeeps(states: seq<seq<Receiver.LightChannel>>, u: seq<DMXChannel>, cs: seq<Command>,
                                         l: nat, j: nat)
    requires IsUniverse(u) && Lights(states) && AllCarry(cs, u)
    requires l < NumLights && j < LightChannels && Holds(states, u, l, j)
    ensures Holds(Receiver.Dispatch(states, 0, false, cs).0, u, l, j)
    decreases |cs|
  {
    if cs != [] {
      var s1 := Receiver.Step(states, 0, false, cs[0]).0;
      StepKeeps(states, u, cs[0], l, j);
      assert AllCarry(cs[1..], u) by {
        forall i | 0 <= i < |cs[1..]|
          ensures Carries(cs[1..][i], u)
        {
          assert cs[1..][i] == cs[i + 1];
        }
      }
      DispatchKeeps(s1, u, cs[1..], l, j);
    }
  }

  /**
   * Dispatching a command stream that carries current values, outside
   * logger mode and from first light 0, leaves every channel some command
   * sets holding its value, whatever came before and after it.
   */
  lemma {:induction false} DispatchDelivers(states: seq<seq<Receiver.LightChannel>>, u: seq<DMXChannel>, cs: seq<Command>)
    requires IsUniverse(u) && Lights(states) && AllCarry(cs, u)
    ensures forall i: nat, j: nat :: i < |cs| && j < LightChannels && Sets(cs[i], j) ==>
      Holds(Receiver.Dispatch(states, 0, false, cs).0, u, cs[i].light, j)
    decreases |cs|
  {
    if cs != [] {
      var s1 := Receiver.Step(states, 0, false, cs[0]).0;
      var rest := cs[1..];
      assert AllCarry(rest, u) by {
        forall i | 0 <= i < |rest|
          ensures Carries(rest[i], u)
        {
          assert rest[i] == cs[i + 1];
        }
      }
      DispatchDelivers(s1, u, rest);
      forall i: nat, j: nat | i < |cs| && j < LightChannels && Sets(cs[i], j)
        ensures Holds(Receiver.Dispatch(states, 0, false, cs).0, u, cs[i].light, j)
      {
        if i == 0 {
          StepDelivers(states, u, cs[0], j);
          DispatchKeeps(s1, u, rest, cs[0].light, j);
        } else {
          assert cs[i] == rest[i - 1];
        }
      }
    }
  }

  /**
   * The advertisement built around a payload that fits legacy advertising
   * data is found by the scan for type 0xFF as its first structure, and the
   * structure's data is recognised as a native carrier of the payload.
   */
  lemma AdvertisementFound(payload: seq<byte>)
    requires 1 <= |payload| && |payload| + 5 <= AdStruct.MaxAdvDataLen
    ensures var adv := Carrier.AdvMfgData(payload);
      AdStruct.Scan(adv, Carrier.ManufacturerSpecificData) == Some(AdStruct.Found(2, |payload| + 3)) &&
      Carrier.Unwrap(adv[2..2 + |payload| + 3]) == Some(Carrier.Carried(payload, true))
  {
    var adv := Carrier.AdvMfgData(payload);
    AdStruct.ScanFindsFirstStructure(adv, Carrier.ManufacturerSpecificData);
    Carrier.UnwrapAdvMfgData(payload);
    assert adv[2..2 + |payload| + 3] == adv[2..];
  }

  /**
   * A non-empty command stream that fits `maxBytes - 7` bytes, padded and
   * encoded for advertising data of `maxBytes` bytes: the payload leaves
   * exactly the room of the five header bytes, and the receiver dispatches
   * exactly that command stream.
   */
  lemma AdvertisementDispatches(key: seq<byte>, cs: seq<Command>, maxBytes: int, states: seq<seq<Receiver.LightChannel>>)
    requires AllAddressable(cs) && cs != [] && |Serialize(cs)| <= maxBytes - 7
    ensures var payload := Sender.PayloadFor(key, Serialize(cs), maxBytes - 5, 0);
      |payload| == maxBytes - 5 &&
      Receiver.Received(states, key, 0, false, true, payload) == Receiver.Dispatch(states, 0, false, cs)
  {
    Sender.PayloadExactLength(key, Serialize(cs), maxBytes - 5);
    PayloadDispatches(key, cs, maxBytes - 5, states);
  }

  /**
   * The sender's advertising data of `n` bytes around a payload: the scan
   * for type 0xFF finds its manufacturer data as the first structure, and
   * that data is a native carrier of the payload.
   */
  lemma AdvForFound(payload: seq<byte>, n: int)
    requires |payload| == n - 5 && 6 <= n <= AdStruct.MaxAdvDataLen
    ensures var adv := Sender.AdvFor(payload);
      |adv| == n &&
      AdStruct.Scan(adv, Carrier.ManufacturerSpecificData) == Some(AdStruct.Found(2, |adv| - 2)) &&
      Carrier.Unwrap(adv[2..|adv|]) == Some(Carrier.Carried(payload, true))
  {
    var adv := Carrier.AdvMfgData(payload);
    assert Sender.AdvFor(payload) == adv;
    AdvertisementFound(payload);
    assert adv[2..n] == adv[2..2 + |payload| + 3];
  }

  /** A padded payload, received as native data, dispatches exactly its command stream. */
  lemma PayloadDispatches(key: seq<byte>, cs: seq<Command>, maxBytes: int, states: seq<seq<Receiver.LightChannel>>)
    requires AllAddressable(cs) && cs != []
    ensures var payload := Sender.PayloadFor(key, Serialize(cs), maxBytes, 0);
      Receiver.Received(states, key, 0, false, true, payload) == Receiver.Dispatch(states, 0, false, cs)
  {
    var payload := Sender.PayloadFor(key, Serialize(cs), maxBytes, 0);
    Sender.PayloadRoundTrip(key, cs, maxBytes, 0);
    var plain :| Codec.Decode(key, payload) == Some(plain) && Parse(plain) == cs;
  }

  /**
   * The channels a command stream that carries the current values of `u'`
   * sets, dispatched, hold the values last set on the sender's channels
   * when those are the current values of `u'`.
   */
  lemma DispatchDeliversPending(states: seq<seq<Receiver.LightChannel>>, u: seq<DMXChannel>, u': seq<DMXChannel>,
                                cs: seq<Command>)
    requires IsUniverse(u) && IsUniverse(u') && Lights(states) && AllCarry(cs, u')
    requires forall k :: 0 <= k < |u| ==> u'[k].current == u[k].pending
    ensures DeliversPending(Receiver.Dispatch(states, 0, false, cs).0, u, cs)
  {
    DispatchDelivers(states, u', cs);
    var r := Receiver.Dispatch(states, 0, false, cs).0;
    forall i: nat, j: nat | i < |cs| && j < LightChannels && Sets(cs[i], j)
      ensures cs[i].light < NumLights && cs[i].light < |r| && j < |r[cs[i].light]| &&
        r[cs[i].light][j] == Receiver.LightChannel(u[Channel(cs[i].light, j)].pending, u[Channel(cs[i].light, j)].pending)
    {
      assert Carries(cs[i], u');
      assert Holds(r, u', cs[i].light, j);
    }
  }

  /**
   * One call of `generateBTAdvMfgData` with at most 31 bytes, received by a
   * receiver with first light 0, not in logger mode and with a light for
   * each of the 84 light numbers: with no commands nothing is advertised;
   * otherwise the advertisement is exactly `maxBytes` long, the scan finds
   * its manufacturer data, which is a native carrier whose payload passes
   * the frame check, and every channel a command of the call sets ends with
   * pending and current both equal to the value last set on the sender's
   * channel.
   */
  lemma AdvertisementDelivers(u: seq<DMXChannel>, initialRepeatCount: int, refresh: bool, maxBytes: int,
                              key: seq<byte>, states: seq<seq<Receiver.LightChannel>>)
    requires IsUniverse(u) && Lights(states) && maxBytes <= AdStruct.MaxAdvDataLen
    ensures var cs := Generate(u, initialRepeatCount, refresh, maxBytes - 7).1;
      var payload := Sender.PayloadFor(key, Serialize(cs), maxBytes - 5, 0);
      var adv := Sender.AdvFor(payload);
      (cs == [] ==> adv == []) &&
      (cs != [] ==>
        |adv| == maxBytes && |payload| >= 2 &&
        AdStruct.Scan(adv, Carrier.ManufacturerSpecificData) == Some(AdStruct.Found(2, |adv| - 2)) &&
        Carrier.Unwrap(adv[2..|adv|]) == Some(Carrier.Carried(payload, true)) &&
        DeliversPending(Receiver.Received(states, key, 0, false, true, payload).0, u, cs))
  {
    var gen := Generate(u, initialRepeatCount, refresh, maxBytes - 7);
    GenerateWithinBudget(u, initialRepeatCount, refresh, maxBytes - 7);
    GenerateCarriesCurrent(u, initialRepeatCount, refresh, maxBytes - 7);
    if gen.1 != [] {
      AdvertisementDispatches(key, gen.1, maxBytes, states);
      AdvForFound(Sender.PayloadFor(key, Serialize(gen.1), maxBytes - 5, 0), maxBytes);
      DispatchDeliversPending(states, u, gen.0, gen.1);
    }
  }
}
