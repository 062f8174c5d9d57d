/**
 * The p44BTDMX receiver and the lights it drives.
 *
 * A light keeps, per channel, the value last received (`pending`) and the
 * value last applied (`current`). The receiver unwraps carriers, enforces
 * the lockout of non-native data after native data, checks the frame and
 * dispatches the decoded commands to its lights.
 */
module Receiver {
  import opened Wire
  import opened Commands
  import Codec
  import Carrier

  /** Time is in microseconds, as the main loop's clock. */
  const Second := 1_000_000

  /** Non-native data is ignored for this long after native data. */
  const NotNativeLockoutPeriod := 10 * Second

  /** The main loop's "never" timestamp. */
  const Never := 0

  /** Largest first-light number: the field is 16 bits wide. */
  const FirstLightNumberLimit := 0x1_0000

  datatype LightChannel = LightChannel(pending: byte, current: byte)

  /** A light channel as the light constructor leaves it: current differs, so the first apply reports a change. */
  const Unapplied := LightChannel(0, 1)

  predicate Settled(cs: seq<LightChannel>)
  {
    forall i :: 0 <= i < |cs| ==> cs[i].current == cs[i].pending
  }

  predicate NeedsApply(cs: seq<LightChannel>)
  {
    exists i :: 0 <= i < |cs| && cs[i].current != cs[i].pending
  }

  function Pendings(cs: seq<LightChannel>): seq<byte>
  {
    seq(|cs|, i requires 0 <= i < |cs| => cs[i].pending)
  }

  /** The channels after `applyChannels`: every channel takes its pending value. */
  function Applied(cs: seq<LightChannel>): (r: seq<LightChannel>)
    ensures Settled(r) && !NeedsApply(r)
    ensures Pendings(r) == Pendings(cs)
  {
    seq(|cs|, i requires 0 <= i < |cs| => LightChannel(cs[i].pending, cs[i].pending))
  }

  /** The channels after `setChannel(index, value)`: indices past the light's width are ignored. */
  function WithPending(cs: seq<LightChannel>, index: nat, value: byte): (r: seq<LightChannel>)
    ensures |r| == |cs|
    ensures forall i :: 0 <= i < |cs| ==>
      r[i] == if i == index then LightChannel(value, cs[i].current) else cs[i]
  {
    if index < |cs| then cs[index := LightChannel(value, cs[index].current)] else cs
  }

  /** Applying twice in a row changes nothing the second time. */
  lemma ApplyIdempotent(cs: seq<LightChannel>)
    ensures Applied(Applied(cs)) == Applied(cs)
  {
  }

  /** A settled light needs no apply: `applyChannels` then reports false. */
  lemma SettledNeedsNoApply(cs: seq<LightChannel>)
    ensures Settled(cs) <==> !NeedsApply(cs)
    ensures Settled(cs) ==> Applied(cs) == cs
  {
  }

  class Light {
    const channels: array<LightChannel>
    var localNumber: int
    var globalOffset: int

    /** A light of the standard width; every channel is unapplied, so adding it applies it once. */
    constructor ()
      ensures fresh(channels) && channels.Length == LightChannels
      ensures forall i :: 0 <= i < channels.Length ==> channels[i] == Unapplied
      ensures localNumber == 0 && globalOffset == 0
    {
      localNumber, globalOffset := 0, 0;
      channels := new LightChannel[LightChannels](_ => Unapplied);
    }

    method SetChannel(index: byte, value: byte)
      modifies channels
      ensures channels[..] == WithPending(old(channels[..]), index, value)
    {
      if index >= channels.Length {
        return;
      }
      channels[index] := channels[index].(pending := value);
    }

    method ApplyChannels() returns (anyChanges: bool)
      modifies channels
      ensures channels[..] == Applied(old(channels[..]))
      ensures anyChanges == NeedsApply(old(channels[..]))
    {
      ghost var before := channels[..];
      anyChanges := false;
      var i := 0;
      while i < channels.Length
        invariant 0 <= i <= channels.Length
        invariant channels[..i] == Applied(before)[..i]
        invariant channels[i..] == before[i..]
        invariant anyChanges <==> exists j :: 0 <= j < i && before[j].current != before[j].pending
      {
        assert channels[i] == before[i];
        if channels[i].current != channels[i].pending {
          channels[i] := channels[i].(current := channels[i].pending);
          anyChanges := true;
        }
        assert channels[..i + 1] == Applied(before)[..i + 1];
        i := i + 1;
      }
      assert channels[..] == channels[..i];
    }
  }

  /** The channels after the pending updates of one command, before the light applies them. */
  function Effect(cs: seq<LightChannel>, c: Command): seq<LightChannel>
  {
    match c
    case Brightness(_, b) => WithPending(cs, 2, b)
    case Hsb(_, h, s, b) => WithPending(WithPending(WithPending(cs, 0, h), 1, s), 2, b)
    case Other(_, index, value) => WithPending(cs, index, value)
  }

  /** The local light a command addresses, if the receiver has it. */
  function LocalIndex(count: nat, first: nat, c: Command): (k: int)
    ensures k >= 0 ==> k < count && k + first == c.light
  {
    var k := c.light - first;
    if 0 <= k < count then k else -1
  }

  /** What one command does to the lights' channels, and whether the light reported a change. */
  function Step(states: seq<seq<LightChannel>>, first: nat, logger: bool, c: Command): (r: (seq<seq<LightChannel>>, bool))
    ensures |r.0| == |states| && forall k :: 0 <= k < |states| ==> |r.0[k]| == |states[k]|
    ensures forall k :: 0 <= k < |states| && k != LocalIndex(|states|, first, c) ==> r.0[k] == states[k]
    ensures logger || LocalIndex(|states|, first, c) < 0 ==> r == (states, false)
    ensures !logger && LocalIndex(|states|, first, c) >= 0 ==> Settled(r.0[LocalIndex(|states|, first, c)])
  {
    var k := LocalIndex(|states|, first, c);
    if logger || k < 0 then (states, false)
    else
      var e := Effect(states[k], c);
      (states[k := Applied(e)], NeedsApply(e))
  }

  /** A command stream applied in order; the flag says whether any light reported a change. */
  function Dispatch(states: seq<seq<LightChannel>>, first: nat, logger: bool, cs: seq<Command>): (r: (seq<seq<LightChannel>>, bool))
    ensures |r.0| == |states|
    ensures forall k :: 0 <= k < |states| ==> |r.0[k]| == |states[k]|
    decreases |cs|
  {
    if cs == [] then (states, false)
    else
      var (s1, a1) := Step(states, first, logger, cs[0]);
      var (s2, a2) := Dispatch(s1, first, logger, cs[1..]);
      (s2, a1 || a2)
  }

  /** The result of a command stream continued from a state where `any` was already reported. */
  function Continue(r: (seq<seq<LightChannel>>, bool), any: bool): (seq<seq<LightChannel>>, bool)
  {
    (r.0, any || r.1)
  }

  /** In logger mode nothing is applied and the result is false. */
  lemma {:induction false} DispatchLogger(states: seq<seq<LightChannel>>, first: nat, cs: seq<Command>)
    ensures Dispatch(states, first, true, cs) == (states, false)
    decreases |cs|
  {
    if cs != [] {
      DispatchLogger(states, first, cs[1..]);
    }
  }

  /** A light no command addresses keeps its channels. */
  lemma {:induction false} DispatchUnaddressed(states: seq<seq<LightChannel>>, first: nat, logger: bool, cs: seq<Command>, k: nat)
    requires k < |states|
    requires forall i :: 0 <= i < |cs| ==> cs[i].light != first + k
    ensures Dispatch(states, first, logger, cs).0[k] == states[k]
    decreases |cs|
  {
    if cs != [] {
      var s1 := Step(states, first, logger, cs[0]).0;
      assert s1[k] == states[k];
      DispatchUnaddressed(s1, first, logger, cs[1..], k);
    }
  }

  /** A reported change needs a command for a light of this receiver, outside logger mode. */
  lemma {:induction false} DispatchChangeAddressed(states: seq<seq<LightChannel>>, first: nat, logger: bool, cs: seq<Command>)
    requires Dispatch(states, first, logger, cs).1
    ensures !logger && exists i :: 0 <= i < |cs| && first <= cs[i].light < first + |states|
    decreases |cs|
  {
    var (s1, a1) := Step(states, first, logger, cs[0]);
    if a1 {
      assert first <= cs[0].light < first + |states|;
    } else {
      DispatchChangeAddressed(s1, first, logger, cs[1..]);
      var i :| 0 <= i < |cs[1..]| && first <= cs[1..][i].light < first + |s1|;
      assert cs[i + 1] == cs[1..][i];
    }
  }

  /**
   * What a p44BTDMX payload does to the lights: nothing when the lockout
   * holds it back or its CRC does not match, otherwise the decoded command
   * stream is dispatched.
   */
  function Received(states: seq<seq<LightChannel>>, key: seq<byte>, first: nat, logger: bool,
                    admitted: bool, data: seq<byte>): (r: (seq<seq<LightChannel>>, bool))
    requires admitted ==> |data| >= 2
    ensures |r.0| == |states| && forall k :: 0 <= k < |states| ==> |r.0[k]| == |states[k]|
    ensures !admitted ==> r == (states, false)
  {
    if !admitted then (states, false)
    else match Codec.Decode(key, data)
      case None => (states, false)
      case Some(p) => Dispatch(states, first, logger, Parse(p))
  }

  /** A frame the sender encoded with the same key hands its plaintext to the dispatcher. */
  lemma ReceivedEncoded(states: seq<seq<LightChannel>>, key: seq<byte>, first: nat, logger: bool, p: seq<byte>)
    ensures Received(states, key, first, logger, true, Codec.Encode(key, p)) == Dispatch(states, first, logger, Parse(p))
  {
    Codec.DecodeEncode(key, p);
  }

  /** A frame that is no encoding under the receiver's key changes no light and reports false. */
  lemma ReceivedForeignFrame(states: seq<seq<LightChannel>>, key: seq<byte>, first: nat, logger: bool, data: seq<byte>)
    requires |data| >= 2
    requires forall p :: Codec.Encode(key, p) != data
    ensures Received(states, key, first, logger, true, data) == (states, false)
  {
  }

  class Receiver {
    var systemKey: seq<byte>
    var firstLightNumber: nat
    var lights: seq<Light>
    var lastNativeData: int
    var isLogger: bool

    function Arrays(): set<array<LightChannel>>
      reads this
    {
      set i | 0 <= i < |lights| :: lights[i].channels
    }

    /** Lights have the standard width, own their channel arrays, and are numbered in insertion order. */
    predicate Valid()
      reads this, lights
    {
      firstLightNumber < FirstLightNumberLimit &&
      (forall i :: 0 <= i < |lights| ==> lights[i].channels.Length == LightChannels && lights[i].localNumber == i) &&
      (forall i, j :: 0 <= i < j < |lights| ==> lights[i].channels != lights[j].channels)
    }

    /** The channels of every light, by local light number. */
    function States(): (s: seq<seq<LightChannel>>)
      reads this, Arrays()
      ensures |s| == |lights|
    {
      seq(|lights|, i requires 0 <= i < |lights| reads this, Arrays() => lights[i].channels[..])
    }

    constructor ()
      ensures Valid() && lights == [] && firstLightNumber == 0 && !isLogger
      ensures systemKey == Codec.DefaultKey && lastNativeData == Never
    {
      systemKey := Codec.DefaultKey;
      firstLightNumber := 0;
      lights := [];
      lastNativeData := Never;
      isLogger := false;
    }

    method SetSystemKey(input: seq<byte>, hexDecoded: seq<byte>)
      modifies this`systemKey
      ensures systemKey == Codec.KeyFromInput(input, hexDecoded)
    {
      systemKey := Codec.KeyFromInput(input, hexDecoded);
    }

    /** The first light number is stored in 16 bits. */
    method SetAddressingInfo(firstLight: int)
      requires Valid()
      modifies this`firstLightNumber
      ensures Valid()
      ensures firstLightNumber == firstLight % FirstLightNumberLimit
    {
      firstLightNumber := firstLight % FirstLightNumberLimit;
    }

    /** Appends a light under the next local number and applies its channels once. */
    method AddLight(light: Light) returns (initialChanges: bool)
      requires Valid()
      requires light !in lights && light.channels !in Arrays()
      requires light.channels.Length == LightChannels
      modifies this`lights, light, light.channels
      ensures Valid()
      ensures lights == old(lights) + [light]
      ensures light.localNumber == |old(lights)| && light.globalOffset == firstLightNumber
      ensures States() == old(States()) + [Applied(old(light.channels[..]))]
      ensures initialChanges == NeedsApply(old(light.channels[..]))
    {
      light.globalOffset := firstLightNumber;
      light.localNumber := |lights|;
      lights := lights + [light];
      initialChanges := light.ApplyChannels();
      assert forall i :: 0 <= i < |old(lights)| ==> States()[i] == old(States())[i];
    }

    /**
     * One command's update of light `k`, as the cases of the source's command
     * switch do it: set the channels the command carries, then apply.
     */
    method ApplyCommand(k: nat, c: Command) returns (changed: bool)
      requires Valid() && k < |lights|
      modifies lights[k].channels
      ensures Valid()
      ensures States() == old(States())[k := Applied(Effect(old(States())[k], c))]
      ensures changed == NeedsApply(Effect(old(States())[k], c))
    {
      var light := lights[k];
      match c {
        case Brightness(_, b) =>
          light.SetChannel(2, b);
        case Hsb(_, h, s, b) =>
          light.SetChannel(0, h);
          light.SetChannel(1, s);
          light.SetChannel(2, b);
        case Other(_, index, value) =>
          light.SetChannel(index, value);
      }
      changed := light.ApplyChannels();
      forall j | 0 <= j < |lights| && j != k
        ensures States()[j] == old(States())[j]
      {
        assert lights[j].channels != light.channels;
      }
    }

    /** `processP44DMX`: walks the command bytes and applies each command to the light it addresses. */
    method ProcessP44DMX(cmds: seq<byte>) returns (anyChanges: bool)
      requires Valid()
      modifies Arrays()
      ensures Valid()
      ensures (States(), anyChanges) == Dispatch(old(States()), firstLightNumber, isLogger, Parse(cmds))
    {
      ghost var target := Dispatch(States(), firstLightNumber, isLogger, Parse(cmds));
      var i := 0;
      var ln := |cmds|;
      anyChanges := false;
      while i < ln
        invariant Valid()
        invariant Continue(Dispatch(States(), firstLightNumber, isLogger, ParseFrom(cmds, i)), anyChanges) == target
        decreases ln - i
      {
        ghost var at, before, anyBefore := i, States(), anyChanges;
        var addrCmd := cmds[i];
        if addrCmd == ExtendedLeadIn {
          // extended command: the sub-command byte (0xFF = NOP) has no effect
          i := i + 1;
          if i < ln {
            i := i + 1;
          }
          continue;
        }
        var lightIndex := addrCmd / 3;
        var cmd := addrCmd - 3 * lightIndex;
        if !isLogger {
          lightIndex := lightIndex - firstLightNumber;
          if !(0 <= lightIndex < |lights|) {
            lightIndex := -1;
          }
        }
        // the source's "not enough data" check here cannot fire, as i < ln
        i := i + 1;
        var c: Command;
        if cmd == 0 {
          // at the end of the stream this reads the string's terminating NUL
          var b: byte := if i < ln then cmds[i] else 0;
          i := i + 1;
          c := Brightness(addrCmd / 3, b);
        } else if cmd == 1 {
          if i + 3 > ln {
            return;
          }
          c := Hsb(addrCmd / 3, cmds[i], cmds[i + 1], cmds[i + 2]);
          i := i + 3;
        } else {
          if i + 2 > ln {
            return;
          }
          c := Other(addrCmd / 3, cmds[i], cmds[i + 1]);
          i := i + 2;
        }
        assert ParseFrom(cmds, at) == [c] + ParseFrom(cmds, i);
        if !isLogger && lightIndex >= 0 {
          var changed := ApplyCommand(lightIndex, c);
          if changed {
            anyChanges := true;
          }
        }
      }
    }

    /** Whether the lockout lets a payload through at time `now`: native data always, other data 10 s after native data. */
    predicate Admits(native: bool, now: int)
      reads this
    {
      native || now - lastNativeData > NotNativeLockoutPeriod
    }

    /**
     * `processP44BTDMXpayload`: native data renews the lockout before the
     * frame is checked, so even a corrupt native frame holds non-native data
     * back.
     */
    method ProcessP44BTDMXpayload(data: seq<byte>, native: bool, now: int) returns (r: bool)
      requires Valid()
      requires Admits(native, now) ==> |data| >= 2
      modifies this`lastNativeData, Arrays()
      ensures Valid()
      ensures lastNativeData == if native then now else old(lastNativeData)
      ensures (States(), r) == Received(old(States()), systemKey, firstLightNumber, isLogger, old(Admits(native, now)), data)
    {
      if native || now - lastNativeData > NotNativeLockoutPeriod {
        if native {
          lastNativeData := now;
          assert States() == old(States());
        }
        match Codec.Decode(systemKey, data) {
          case None =>
            r := false;
          case Some(decoded) =>
            r := ProcessP44DMX(decoded);
        }
      } else {
        r := false;
      }
    }

    /** `processBTAdvMfgData`: recognises the carrier and hands its payload on. */
    method ProcessBTAdvMfgData(mfgData: seq<byte>, now: int) returns (r: bool)
      requires Valid()
      requires match Carrier.Unwrap(mfgData)
        case None => true
        case Some(c) => Admits(c.native, now) ==> |c.payload| >= 2
      modifies this`lastNativeData, Arrays()
      ensures Valid()
      ensures match Carrier.Unwrap(mfgData)
        case None =>
          !r && lastNativeData == old(lastNativeData) && States() == old(States())
        case Some(c) =>
          lastNativeData == (if c.native then now else old(lastNativeData)) &&
          (States(), r) == Received(old(States()), systemKey, firstLightNumber, isLogger, old(Admits(c.native, now)), c.payload)
    {
      if |mfgData| < 4 {
        return false;
      }
      if Carrier.IsNative(mfgData) {
        r := ProcessP44BTDMXpayload(mfgData[3..], true, now);
        return;
      }
      if Carrier.IsIBeacon(mfgData) {
        var end := if 4 + mfgData[3] < |mfgData| then 4 + mfgData[3] else |mfgData|;
        r := ProcessP44BTDMXpayload(mfgData[4..end], false, now);
        return;
      }
      return false;
    }
  }
}
