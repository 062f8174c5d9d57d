/**
 * The prototype sender's scheduler (`main/p44btdmx.cpp`): a 512-channel
 * universe walked as 102 lights of 5 channels; channels 510 and 511 belong
 * to no light.
 *
 * One call detects changes, then, while at least two bytes of room are
 * left, finds the highest age of the whole universe and walks the lights
 * once, sending the channels at that age; sent channels get the done age,
 * `maxAge - 2` for a recent change and 0 otherwise. There is no floor on
 * the age of the next pass, and nothing guarantees that a pass sends
 * anything, so a call need not end; `Run` counts the passes with fuel.
 */
module PrototypeSender {
  import opened Wire
  import opened Prototype
  import Scheduler
  import Codec

  type DMXChannel = Scheduler.DMXChannel

  const UniverseSize := 512

  /** Lights the sender walks: 512 / 5. */
  const NumBlocks := 102

  /** The first channel of no light: 102 * 5. */
  const TailStart := 510

  predicate IsUniverse(u: seq<DMXChannel>)
  {
    |u| == UniverseSize
  }

  /** The two channels past the last light hold age 255. */
  predicate TailFresh(u: seq<DMXChannel>)
    requires IsUniverse(u)
  {
    u[TailStart].age == 255 && u[TailStart + 1].age == 255
  }

  /** The state of one call: the universe, the commands so far and the room left. */
  datatype Emission = Emission(u: seq<DMXChannel>, cmds: seq<Command>, room: int)

  /**
   * Emitting keeps every channel's values and the two tail channels, and
   * every byte a command takes comes out of the room.
   */
  predicate Extends(e: Emission, r: Emission)
  {
    IsUniverse(e.u) && IsUniverse(r.u) && Scheduler.SameValues(e.u, r.u) &&
    r.u[TailStart..] == e.u[TailStart..] &&
    r.room + Size(r.cmds) == e.room + Size(e.cmds)
  }

  /** Every channel keeps its age or gets the done age. */
  predicate AgedOrDone(a: seq<DMXChannel>, b: seq<DMXChannel>, doneAge: byte)
  {
    |a| == |b| && forall k :: 0 <= k < |a| ==> b[k].age == a[k].age || b[k].age == doneAge
  }

  lemma ExtendsChain(e: Emission, e1: Emission, r: Emission)
    requires Extends(e, e1) && Extends(e1, r)
    ensures Extends(e, r)
  {
  }

  lemma ExtendsTrans(e: Emission, e1: Emission, r: Emission, doneAge: byte)
    requires Extends(e, e1) && Extends(e1, r)
    requires AgedOrDone(e.u, e1.u, doneAge) && AgedOrDone(e1.u, r.u, doneAge)
    ensures Extends(e, r) && AgedOrDone(e.u, r.u, doneAge)
  {
  }

  /** Channels `from .. from + n - 1` get age `doneAge`; nothing else changes. */
  function SetAges(u: seq<DMXChannel>, from: nat, n: nat, doneAge: byte): (r: seq<DMXChannel>)
    requires from + n <= |u|
    ensures |r| == |u| && Scheduler.SameValues(u, r) && AgedOrDone(u, r, doneAge)
    ensures forall k :: 0 <= k < |u| ==> r[k].age == if from <= k < from + n then doneAge else u[k].age
    ensures r[..from] == u[..from] && r[from + n..] == u[from + n..]
  {
    var r := seq(|u|, k requires 0 <= k < |u| => if from <= k < from + n then u[k].(age := doneAge) else u[k]);
    assert forall k :: 0 <= k < |u| ==> Scheduler.Values(r)[k] == Scheduler.Values(u)[k];
    r
  }

  /** Sending command `c` for the channels `from .. from + n - 1` of a light. */
  function Send(e: Emission, c: Command, from: nat, n: nat, doneAge: byte): (r: Emission)
    requires IsUniverse(e.u) && from + n <= TailStart
    ensures Extends(e, r) && AgedOrDone(e.u, r.u, doneAge)
    ensures r.cmds == e.cmds + [c] && r.room == e.room - CommandSize(c)
    ensures r.u == SetAges(e.u, from, n, doneAge)
  {
    assert (e.cmds + [c])[..|e.cmds|] == e.cmds;
    Emission(SetAges(e.u, from, n, doneAge), e.cmds + [c], e.room - CommandSize(c))
  }

  /**
   * The colour part of one light: HSB when hue or saturation is at the
   * age and four bytes are left, else brightness alone when it is at the
   * age (two bytes are always left here).
   */
  function ColorStep(e: Emission, lidx: nat, maxAge: int, doneAge: byte): (r: Emission)
    requires IsUniverse(e.u) && lidx < NumBlocks && e.room >= 2
    ensures Extends(e, r) && AgedOrDone(e.u, r.u, doneAge) && r.room >= 0
  {
    var o := lidx * LightBytes;
    var u := e.u;
    if (u[o].age == maxAge || u[o + 1].age == maxAge) && e.room >= 4 then
      Send(e, Hsb(lidx, u[o].current, u[o + 1].current, u[o + 2].current), o, 3, doneAge)
    else if u[o + 2].age == maxAge then
      Send(e, Brightness(lidx, u[o + 2].current), o + 2, 1, doneAge)
    else e
  }

  /** Position and mode of one light, when either is at the age and three bytes are left. */
  function PosModeStep(e: Emission, lidx: nat, maxAge: int, doneAge: byte): (r: Emission)
    requires IsUniverse(e.u) && lidx < NumBlocks && e.room >= 0
    ensures Extends(e, r) && AgedOrDone(e.u, r.u, doneAge) && r.room >= 0
  {
    var o := lidx * LightBytes;
    var u := e.u;
    if (u[o + 3].age == maxAge || u[o + 4].age == maxAge) && e.room >= 3 then
      Send(e, PosMode(lidx, u[o + 3].current, u[o + 4].current), o + 3, 2, doneAge)
    else e
  }

  function EmitLight(e: Emission, lidx: nat, maxAge: int, doneAge: byte): (r: Emission)
    requires IsUniverse(e.u) && lidx < NumBlocks && e.room >= 2
    ensures Extends(e, r) && AgedOrDone(e.u, r.u, doneAge) && r.room >= 0
  {
    var e1 := ColorStep(e, lidx, maxAge, doneAge);
    var r := PosModeStep(e1, lidx, maxAge, doneAge);
    ExtendsTrans(e, e1, r, doneAge);
    r
  }

  /** One pass: the lights from `lidx` on, stopping once less than two bytes are left. */
  function EmitLights(e: Emission, lidx: nat, maxAge: int, doneAge: byte): (r: Emission)
    requires IsUniverse(e.u) && e.room >= 2
    ensures Extends(e, r) && AgedOrDone(e.u, r.u, doneAge) && r.room >= 0
    decreases NumBlocks - lidx
  {
    if lidx >= NumBlocks then e
    else
      var e1 := EmitLight(e, lidx, maxAge, doneAge);
      if e1.room < 2 then e1
      else
        var r := EmitLights(e1, lidx + 1, maxAge, doneAge);
        ExtendsTrans(e, e1, r, doneAge);
        r
  }

  /** The pass from light `lidx`: light `lidx`, then the rest from `next` (that is, `lidx + 1`) while room is left. */
  lemma EmitLightsNext(e: Emission, lidx: nat, next: nat, maxAge: int, doneAge: byte)
    requires IsUniverse(e.u) && e.room >= 2 && lidx < NumBlocks && next == lidx + 1
    ensures var e1 := EmitLight(e, lidx, maxAge, doneAge);
      EmitLights(e, lidx, maxAge, doneAge) == if e1.room < 2 then e1 else EmitLights(e1, next, maxAge, doneAge)
  {
  }

  /** The highest age of the whole universe. */
  function MaxAge(u: seq<DMXChannel>): (m: nat)
    ensures m <= 255
  {
    Scheduler.MaxAgeBelow(u, 256)
  }

  /** The age sent channels get: two below the pass's age for a recent change (cut to a byte), else 0. */
  function DoneAge(maxAge: byte, initialRepeatCount: int): (d: byte)
    ensures maxAge > 255 - initialRepeatCount && maxAge >= 2 ==> d == maxAge - 2
    ensures maxAge <= 255 - initialRepeatCount ==> d == 0
  {
    if maxAge > 255 - initialRepeatCount then (maxAge - 2) % 256 else 0
  }

  /** One pass fewer. */
  function Prev(fuel: nat): (p: nat)
    requires fuel >= 1
    ensures p < fuel
  {
    fuel - 1
  }

  /**
   * The `while (room >= 2)` loop of `generateP44DMXcmds`, allowed at most
   * `fuel` passes: it ends when room is short or every age is 0, and is
   * `None` when the fuel runs out first.
   */
  function Run(e: Emission, initialRepeatCount: int, fuel: nat): (r: Option<Emission>)
    requires IsUniverse(e.u)
    ensures e.room < 2 ==> r.Some? && r.value == e
    decreases fuel
  {
    if e.room < 2 then Some(e)
    else
      var m := MaxAge(e.u);
      if m < 1 then Some(e)
      else if fuel == 0 then None
      else Run(EmitLights(e, 0, m, DoneAge(m, initialRepeatCount)), initialRepeatCount, Prev(fuel))
  }

  /**
   * Where the loop ends, it has kept every value and the tail, its commands
   * fit the room it had, and room is short or every age is 0.
   */
  lemma {:induction false} RunEnds(e: Emission, initialRepeatCount: int, fuel: nat)
    requires IsUniverse(e.u) && Run(e, initialRepeatCount, fuel).Some?
    ensures var r := Run(e, initialRepeatCount, fuel).value;
      Extends(e, r) && (e.room >= 0 ==> r.room >= 0) && (r.room < 2 || MaxAge(r.u) == 0)
    decreases fuel
  {
    var m := MaxAge(e.u);
    if e.room >= 2 && m >= 1 {
      var e1 := EmitLights(e, 0, m, DoneAge(m, initialRepeatCount));
      RunEnds(e1, initialRepeatCount, Prev(fuel));
      ExtendsChain(e, e1, Run(e, initialRepeatCount, fuel).value);
    }
  }

  /** One pass of the loop at age `m` with done age `d`, when room and a non-zero age are left. */
  lemma RunNext(e: Emission, initialRepeatCount: int, fuel: nat, m: nat, d: byte)
    requires IsUniverse(e.u) && e.room >= 2 && m == MaxAge(e.u) && m >= 1 && d == DoneAge(m, initialRepeatCount)
    requires fuel >= 1
    ensures Run(e, initialRepeatCount, fuel) == Run(EmitLights(e, 0, m, d), initialRepeatCount, Prev(fuel))
  {
  }

  /** A pass needs fuel. */
  lemma RunNeedsFuel(e: Emission, initialRepeatCount: int, fuel: nat, m: nat)
    requires IsUniverse(e.u) && e.room >= 2 && m == MaxAge(e.u) && m >= 1
    requires Run(e, initialRepeatCount, fuel).Some?
    ensures fuel >= 1
  {
  }

  /** A pass keeps the loop heading for the same end. */
  lemma RunStep(e: Emission, initialRepeatCount: int, fuel: nat, m: nat, d: byte, final: Emission)
    requires IsUniverse(e.u) && e.room >= 2 && m == MaxAge(e.u) && m >= 1 && d == DoneAge(m, initialRepeatCount)
    requires Run(e, initialRepeatCount, fuel).Some? && Run(e, initialRepeatCount, fuel).value == final
    ensures fuel >= 1
    ensures Run(EmitLights(e, 0, m, d), initialRepeatCount, Prev(fuel)).Some?
    ensures Run(EmitLights(e, 0, m, d), initialRepeatCount, Prev(fuel)).value == final
  {
    RunNeedsFuel(e, initialRepeatCount, fuel, m);
    RunNext(e, initialRepeatCount, fuel, m, d);
  }

  /** The loop ends where room is short or every age is 0. */
  lemma RunStop(e: Emission, initialRepeatCount: int, fuel: nat)
    requires IsUniverse(e.u) && (e.room < 2 || MaxAge(e.u) < 1)
    ensures Run(e, initialRepeatCount, fuel).Some? && Run(e, initialRepeatCount, fuel).value == e
  {
  }

  /** The loop of a call on `u` ends after some number of passes. */
  ghost predicate Terminates(u: seq<DMXChannel>, initialRepeatCount: int, maxBytes: int)
    requires IsUniverse(u)
  {
    exists fuel: nat :: Run(Emission(Scheduler.Detect(u), [], maxBytes), initialRepeatCount, fuel).Some?
  }

  /** A number of passes after which the loop of a call on `u` has ended. */
  ghost function EndingFuel(u: seq<DMXChannel>, initialRepeatCount: int, maxBytes: int): (fuel: nat)
    requires IsUniverse(u) && Terminates(u, initialRepeatCount, maxBytes)
    ensures Run(Emission(Scheduler.Detect(u), [], maxBytes), initialRepeatCount, fuel).Some?
  {
    var fuel: nat :| Run(Emission(Scheduler.Detect(u), [], maxBytes), initialRepeatCount, fuel).Some?;
    fuel
  }

  /** The state the loop of a call on `u` ends in, when it ends. */
  ghost function Outcome(u: seq<DMXChannel>, initialRepeatCount: int, maxBytes: int): (e: Emission)
    requires IsUniverse(u) && Terminates(u, initialRepeatCount, maxBytes)
    ensures Extends(Emission(Scheduler.Detect(u), [], maxBytes), e) && (maxBytes >= 0 ==> e.room >= 0)
    ensures e.room < 2 || MaxAge(e.u) == 0
    ensures maxBytes < 2 ==> e == Emission(Scheduler.Detect(u), [], maxBytes)
  {
    var fuel := EndingFuel(u, initialRepeatCount, maxBytes);
    RunEnds(Emission(Scheduler.Detect(u), [], maxBytes), initialRepeatCount, fuel);
    Run(Emission(Scheduler.Detect(u), [], maxBytes), initialRepeatCount, fuel).value
  }

  /**
   * A `generateP44DMXcmds` call that ends: the new universe (every age
   * below 255 one higher) and the commands. Values are those detected,
   * and the commands fit `maxBytes`; there are none below two bytes.
   */
  ghost function Generate(u: seq<DMXChannel>, initialRepeatCount: int, maxBytes: int): (r: (seq<DMXChannel>, seq<Command>))
    requires IsUniverse(u) && Terminates(u, initialRepeatCount, maxBytes)
    ensures IsUniverse(r.0) && Scheduler.SameValues(Scheduler.Detect(u), r.0)
    ensures maxBytes < 2 ==> r.1 == []
    ensures maxBytes >= 2 ==> Size(r.1) <= maxBytes
  {
    var e := Outcome(u, initialRepeatCount, maxBytes);
    (Scheduler.AgeAll(e.u, 255), e.cmds)
  }

  /** A call keeps the two tail channels at age 255. */
  lemma GenerateKeepsTail(u: seq<DMXChannel>, initialRepeatCount: int, maxBytes: int)
    requires IsUniverse(u) && Terminates(u, initialRepeatCount, maxBytes) && TailFresh(u)
    ensures TailFresh(Generate(u, initialRepeatCount, maxBytes).0)
  {
    var e := Outcome(u, initialRepeatCount, maxBytes);
    var d := Scheduler.Detect(u);
    assert e.u[TailStart] == e.u[TailStart..][0] && e.u[TailStart + 1] == e.u[TailStart..][1];
    assert d[TailStart] == d[TailStart..][0] && d[TailStart + 1] == d[TailStart..][1];
  }

  /**
   * A pass that sends nothing leaves the state as it was, so every further
   * pass sends nothing too: no fuel lets the loop end.
   */
  lemma {:induction false} NoProgressSpins(e: Emission, initialRepeatCount: int, fuel: nat, m: nat, d: byte)
    requires IsUniverse(e.u) && e.room >= 2 && m == MaxAge(e.u) && m >= 1 && d == DoneAge(m, initialRepeatCount)
    requires EmitLights(e, 0, m, d) == e
    ensures Run(e, initialRepeatCount, fuel).None?
    decreases fuel
  {
    if fuel > 0 {
      NoProgressSpins(e, initialRepeatCount, Prev(fuel), m, d);
      RunNext(e, initialRepeatCount, fuel, m, d);
    }
  }

  /** Lights none of whose channels is at the pass's age send nothing. */
  lemma {:induction false} IdleLights(e: Emission, lidx: nat, maxAge: int, doneAge: byte)
    requires IsUniverse(e.u) && e.room >= 2 && lidx <= NumBlocks
    requires forall k :: lidx * LightBytes <= k < TailStart ==> e.u[k].age != maxAge
    ensures EmitLights(e, lidx, maxAge, doneAge) == e
    decreases NumBlocks - lidx
  {
    if lidx < NumBlocks {
      var o := lidx * LightBytes;
      assert e.u[o].age != maxAge && e.u[o + 1].age != maxAge && e.u[o + 2].age != maxAge;
      assert e.u[o + 3].age != maxAge && e.u[o + 4].age != maxAge;
      assert EmitLight(e, lidx, maxAge, doneAge) == e;
      IdleLights(e, lidx + 1, maxAge, doneAge);
    }
  }

  /**
   * With a tail channel at age 255 and no light channel at 255, every
   * pass is at age 255 and sends nothing: the loop does not end.
   */
  lemma TailSpins(e: Emission, initialRepeatCount: int, fuel: nat)
    requires IsUniverse(e.u) && e.room >= 2 && TailFresh(e.u)
    requires forall k :: 0 <= k < TailStart ==> e.u[k].age != 255
    ensures Run(e, initialRepeatCount, fuel).None?
  {
    Scheduler.MaxAgeBelowIsMax(e.u, 256);
    assert MaxAge(e.u) == 255;
    IdleLights(e, 0, 255, DoneAge(255, initialRepeatCount));
    NoProgressSpins(e, initialRepeatCount, fuel, 255, DoneAge(255, initialRepeatCount));
  }

  /**
   * A sender whose tail channels hold age 255 (as the constructor sets
   * them, and as every call keeps them), whose light channels are all
   * sent and unchanged, does not return from a call with two bytes or more.
   */
  lemma SettledSenderSpins(u: seq<DMXChannel>, initialRepeatCount: int, maxBytes: int)
    requires IsUniverse(u) && TailFresh(u) && maxBytes >= 2
    requires forall k :: 0 <= k < TailStart ==> u[k].age != 255 && u[k].pending == u[k].current
    ensures !Terminates(u, initialRepeatCount, maxBytes)
  {
    var e := Emission(Scheduler.Detect(u), [], maxBytes);
    forall fuel: nat
      ensures Run(e, initialRepeatCount, fuel).None?
    {
      TailSpins(e, initialRepeatCount, fuel);
    }
  }

  /**
   * There is no floor on the next pass's age: every channel a pass sends
   * gets the done age, and the next pass's search still reaches it.
   */
  lemma NoFloor(e: Emission, initialRepeatCount: int)
    requires IsUniverse(e.u) && e.room >= 2 && 1 <= MaxAge(e.u)
    ensures var m := MaxAge(e.u);
      var d := DoneAge(m, initialRepeatCount);
      var r := EmitLights(e, 0, m, d);
      forall k :: 0 <= k < UniverseSize && r.u[k].age != e.u[k].age ==> r.u[k].age == d && d <= MaxAge(r.u)
  {
    var m := MaxAge(e.u);
    var r := EmitLights(e, 0, m, DoneAge(m, initialRepeatCount));
    Scheduler.MaxAgeBelowIsMax(r.u, 256);
  }

  class ProtoSender {
    /** `mUniverse`: 512 channels. */
    const universe: array<DMXChannel>
    var initialRepeatCount: int
    var systemKey: seq<byte>

    /** The universe has 512 channels, and the two past the last light hold age 255. */
    predicate Valid()
      reads this, universe
    {
      universe.Length == UniverseSize &&
      universe[TailStart].age == 255 && universe[TailStart + 1].age == 255
    }

    /** All channels 0 and at age 255, so that everything is sent once; three repeats; the default key. */
    constructor ()
      ensures Valid() && fresh(universe)
      ensures forall i :: 0 <= i < universe.Length ==> universe[i] == Scheduler.DMXChannel(0, 0, 255)
      ensures initialRepeatCount == 3 && systemKey == Codec.DefaultKey
    {
      universe := new DMXChannel[UniverseSize](_ => Scheduler.DMXChannel(0, 0, 255));
      initialRepeatCount := 3;
      systemKey := Codec.DefaultKey;
    }

    method SetInitialRepeatCount(count: int)
      modifies this`initialRepeatCount
      ensures initialRepeatCount == count
    {
      initialRepeatCount := count;
    }

    /** `setChannel`: a channel past the universe is ignored. */
    method SetChannel(ch: nat, value: byte)
      requires Valid() && ch < 0x1_0000
      modifies universe
      ensures Valid() && universe[..] == Scheduler.SetPending(old(universe[..]), ch, value)
    {
      if ch >= universe.Length {
        return;
      }
      universe[ch] := universe[ch].(pending := value);
    }

    /** `setChannels`: the values go to consecutive 16-bit channel numbers from `from`. */
    method SetChannels(from: nat, data: seq<byte>)
      requires Valid() && from < 0x1_0000 && |data| < 0x1_0000
      modifies universe
      ensures Valid() && universe[..] == Scheduler.SetPendings(old(universe[..]), from, data)
    {
      var i := 0;
      while i < |data|
        invariant 0 <= i <= |data| && Valid()
        invariant universe[..] == Scheduler.SetPendings(old(universe[..]), from, data[..i])
      {
        SetChannel((from + i) % 0x1_0000, data[i]);
        assert data[..i + 1][..i] == data[..i];
        i := i + 1;
      }
      assert data[..i] == data;
    }

    method DetectChanges()
      requires Valid()
      modifies universe
      ensures Valid() && universe[..] == Scheduler.Detect(old(universe[..]))
    {
      var i := 0;
      while i < universe.Length
        invariant 0 <= i <= universe.Length
        invariant forall j :: 0 <= j < i ==> universe[j] == Scheduler.Detect(old(universe[..]))[j]
        invariant forall j :: i <= j < universe.Length ==> universe[j] == old(universe[j])
      {
        if universe[i].pending != universe[i].current {
          universe[i] := universe[i].(age := 255, current := universe[i].pending);
        }
        i := i + 1;
      }
    }

    method FindMaxAge() returns (maxAge: int)
      requires universe.Length == UniverseSize
      ensures maxAge == MaxAge(universe[..])
    {
      maxAge := 0;
      var i := 0;
      while i < universe.Length
        invariant 0 <= i <= universe.Length
        invariant maxAge == Scheduler.MaxAgeBelow(universe[..i], 256)
      {
        assert universe[..i + 1][..i] == universe[..i];
        if universe[i].age > maxAge {
          maxAge := universe[i].age;
        }
        i := i + 1;
      }
      assert universe[..i] == universe[..];
    }

    /** Sending the HSB command of light `lidx`. */
    method EmitHsb(lidx: nat, doneAge: byte, room0: int, cmds0: seq<byte>, ghost acc0: seq<Command>)
      returns (room: int, cmds: seq<byte>, ghost acc: seq<Command>)
      requires universe.Length == UniverseSize && lidx < NumBlocks && cmds0 == Serialize(acc0)
      modifies universe
      ensures cmds == Serialize(acc)
      ensures var o := lidx * LightBytes;
        var u := old(universe[..]);
        var r := Send(Emission(u, acc0, room0), Hsb(lidx, u[o].current, u[o + 1].current, u[o + 2].current), o, 3, doneAge);
        universe[..] == r.u && acc == r.cmds && room == r.room
    {
      var loffs := lidx * LightBytes;
      var c := Hsb(lidx, universe[loffs].current, universe[loffs + 1].current, universe[loffs + 2].current);
      assert (acc0 + [c])[..|acc0|] == acc0;
      cmds := cmds0 + [(3 * lidx + 1) % 256, c.h, c.s, c.b];
      acc := acc0 + [c];
      room := room0 - 4;
      ghost var target := SetAges(universe[..], loffs, 3, doneAge);
      universe[loffs] := universe[loffs].(age := doneAge);
      universe[loffs + 1] := universe[loffs + 1].(age := doneAge);
      universe[loffs + 2] := universe[loffs + 2].(age := doneAge);
      assert universe[..] == target;
    }

    /** Sending the brightness command of light `lidx`. */
    method EmitBrightness(lidx: nat, doneAge: byte, room0: int, cmds0: seq<byte>, ghost acc0: seq<Command>)
      returns (room: int, cmds: seq<byte>, ghost acc: seq<Command>)
      requires universe.Length == UniverseSize && lidx < NumBlocks && cmds0 == Serialize(acc0)
      modifies universe
      ensures cmds == Serialize(acc)
      ensures var o := lidx * LightBytes;
        var u := old(universe[..]);
        var r := Send(Emission(u, acc0, room0), Brightness(lidx, u[o + 2].current), o + 2, 1, doneAge);
        universe[..] == r.u && acc == r.cmds && room == r.room
    {
      var loffs := lidx * LightBytes;
      var c := Brightness(lidx, universe[loffs + 2].current);
      assert (acc0 + [c])[..|acc0|] == acc0;
      cmds := cmds0 + [(3 * lidx) % 256, c.b];
      acc := acc0 + [c];
      room := room0 - 2;
      ghost var target := SetAges(universe[..], loffs + 2, 1, doneAge);
      universe[loffs + 2] := universe[loffs + 2].(age := doneAge);
      assert universe[..] == target;
    }

    /** The HSB or brightness command of light `lidx`, when due. */
    method EmitColor(lidx: nat, maxAge: int, doneAge: byte, room0: int, cmds0: seq<byte>, ghost acc0: seq<Command>)
      returns (room: int, cmds: seq<byte>, ghost acc: seq<Command>)
      requires universe.Length == UniverseSize && lidx < NumBlocks && room0 >= 2 && cmds0 == Serialize(acc0)
      modifies universe
      ensures cmds == Serialize(acc)
      ensures var r := ColorStep(Emission(old(universe[..]), acc0, room0), lidx, maxAge, doneAge);
        universe[..] == r.u && acc == r.cmds && room == r.room
    {
      room, cmds, acc := room0, cmds0, acc0;
      var loffs := lidx * LightBytes;
      if (universe[loffs].age == maxAge || universe[loffs + 1].age == maxAge) && room >= 4 {
        room, cmds, acc := EmitHsb(lidx, doneAge, room, cmds, acc);
      } else if universe[loffs + 2].age == maxAge {
        room, cmds, acc := EmitBrightness(lidx, doneAge, room, cmds, acc);
      }
    }

    /** The position/mode command of light `lidx`, when due and three bytes are left. */
    method EmitPosMode(lidx: nat, maxAge: int, doneAge: byte, room0: int, cmds0: seq<byte>, ghost acc0: seq<Command>)
      returns (room: int, cmds: seq<byte>, ghost acc: seq<Command>)
      requires universe.Length == UniverseSize && lidx < NumBlocks && room0 >= 0 && cmds0 == Serialize(acc0)
      modifies universe
      ensures cmds == Serialize(acc)
      ensures var r := PosModeStep(Emission(old(universe[..]), acc0, room0), lidx, maxAge, doneAge);
        universe[..] == r.u && acc == r.cmds && room == r.room
    {
      room, cmds, acc := room0, cmds0, acc0;
      var loffs := lidx * LightBytes;
      if (universe[loffs + 3].age == maxAge || universe[loffs + 4].age == maxAge) && room >= 3 {
        var c := PosMode(lidx, universe[loffs + 3].current, universe[loffs + 4].current);
        assert (acc0 + [c])[..|acc0|] == acc0;
        cmds := cmds + [(3 * lidx + 2) % 256, c.pos, c.mode];
        acc := acc + [c];
        room := room - 3;
        ghost var target := SetAges(universe[..], loffs + 3, 2, doneAge);
        universe[loffs + 3] := universe[loffs + 3].(age := doneAge);
        universe[loffs + 4] := universe[loffs + 4].(age := doneAge);
        assert universe[..] == target;
      }
    }

    /** The commands of light `lidx` in one pass: colour, then position/mode. */
    method EmitLightCmds(lidx: nat, maxAge: int, doneAge: byte, room0: int, cmds0: seq<byte>, ghost acc0: seq<Command>)
      returns (room: int, cmds: seq<byte>, ghost acc: seq<Command>)
      requires universe.Length == UniverseSize && lidx < NumBlocks && room0 >= 2 && cmds0 == Serialize(acc0)
      modifies universe
      ensures cmds == Serialize(acc)
      ensures var r := EmitLight(Emission(old(universe[..]), acc0, room0), lidx, maxAge, doneAge);
        universe[..] == r.u && acc == r.cmds && room == r.room
    {
      room, cmds, acc := EmitColor(lidx, maxAge, doneAge, room0, cmds0, acc0);
      room, cmds, acc := EmitPosMode(lidx, maxAge, doneAge, room, cmds, acc);
    }

    /** One pass of the light loop at age `maxAge`. */
    method EmitPass(maxAge: int, doneAge: byte, room0: int, cmds0: seq<byte>, ghost acc0: seq<Command>)
      returns (room: int, cmds: seq<byte>, ghost acc: seq<Command>)
      requires universe.Length == UniverseSize && room0 >= 2 && cmds0 == Serialize(acc0)
      modifies universe
      ensures cmds == Serialize(acc)
      ensures var r := EmitLights(Emission(old(universe[..]), acc0, room0), 0, maxAge, doneAge);
        universe[..] == r.u && acc == r.cmds && room == r.room
    {
      room, cmds, acc := room0, cmds0, acc0;
      ghost var cur := Emission(universe[..], acc, room);
      ghost var target := EmitLights(cur, 0, maxAge, doneAge);
      var lidx := 0;
      while lidx < NumBlocks
        invariant 0 <= lidx <= NumBlocks && universe.Length == UniverseSize && cmds == Serialize(acc)
        invariant cur.u == universe[..] && cur.cmds == acc && cur.room == room && room >= 2
        invariant EmitLights(cur, lidx, maxAge, doneAge) == target
      {
        var nextLight := lidx + 1;
        EmitLightsNext(cur, lidx, nextLight, maxAge, doneAge);
        ghost var next := EmitLight(cur, lidx, maxAge, doneAge);
        assert cur == Emission(universe[..], acc, room);
        room, cmds, acc := EmitLightCmds(lidx, maxAge, doneAge, room, cmds, acc);
        cur := next;
        if room < 2 {
          break;
        }
        lidx := nextLight;
      }
    }

    method AgeChannels()
      requires universe.Length == UniverseSize
      modifies universe
      ensures universe[..] == Scheduler.AgeAll(old(universe[..]), 255)
    {
      var i := 0;
      while i < universe.Length
        invariant 0 <= i <= universe.Length
        invariant forall j :: 0 <= j < i ==> universe[j] == Scheduler.AgeAll(old(universe[..]), 255)[j]
        invariant forall j :: i <= j < universe.Length ==> universe[j] == old(universe[j])
      {
        if universe[i].age < 255 {
          universe[i] := universe[i].(age := (universe[i].age + 1) % 256);
        }
        i := i + 1;
      }
    }

    /**
     * `generateP44DMXcmds`, for a call that ends: the commands and the new
     * universe are those of `Generate`.
     */
    method GenerateP44DMXcmds(maxBytes: int) returns (cmds: seq<byte>)
      requires Valid() && Terminates(universe[..], initialRepeatCount, maxBytes)
      modifies universe
      ensures Valid()
      ensures universe[..] == Generate(old(universe[..]), initialRepeatCount, maxBytes).0
      ensures cmds == Serialize(Generate(old(universe[..]), initialRepeatCount, maxBytes).1)
    {
      ghost var start := universe[..];
      var repeats := initialRepeatCount;
      DetectChanges();
      ghost var fuel := EndingFuel(start, repeats, maxBytes);
      var room := maxBytes;
      cmds := [];
      ghost var acc: seq<Command> := [];
      ghost var cur := Emission(universe[..], acc, room);
      ghost var final := Outcome(start, repeats, maxBytes);
      ghost var f := fuel;
      while room >= 2
        invariant universe.Length == UniverseSize && cmds == Serialize(acc)
        invariant cur.u == universe[..] && cur.cmds == acc && cur.room == room
        invariant Run(cur, repeats, f).Some? && Run(cur, repeats, f).value == final
        decreases f
      {
        var maxAge := FindMaxAge();
        if maxAge < 1 {
          break;
        }
        var doneAge: byte := if maxAge > 255 - repeats then (maxAge - 2) % 256 else 0;
        assert cur == Emission(universe[..], acc, room);
        ghost var next := EmitLights(cur, 0, maxAge, doneAge);
        room, cmds, acc := EmitPass(maxAge, doneAge, room, cmds, acc);
        RunStep(cur, repeats, f, maxAge, doneAge, final);
        cur := next;
        f := Prev(f);
      }
      RunStop(cur, repeats, f);
      GenerateKeepsTail(start, repeats, maxBytes);
      AgeChannels();
    }

    /**
     * `generateP44BTDMXpayload`: the commands of a call for `maxBytes - 2`
     * bytes, filled with NOPs up to `maxBytes - 2` bytes and encoded with
     * the system key, even when there are no commands.
     */
    method GenerateP44BTDMXpayload(maxBytes: int) returns (payload: seq<byte>)
      requires Valid() && Terminates(universe[..], initialRepeatCount, maxBytes - 2)
      modifies universe
      ensures Valid()
      ensures universe[..] == Generate(old(universe[..]), initialRepeatCount, maxBytes - 2).0
      ensures payload == Payload(systemKey, Serialize(Generate(old(universe[..]), initialRepeatCount, maxBytes - 2).1), maxBytes)
    {
      ghost var gen := Generate(universe[..], initialRepeatCount, maxBytes - 2);
      var cmds := GenerateP44DMXcmds(maxBytes - 2);
      assert cmds == Serialize(gen.1);
      var plain := cmds;
      var fill := maxBytes - 2 - |cmds|;
      if fill > 0 {
        plain := cmds + Nops(fill);
      }
      payload := Codec.Encode(systemKey, plain);
      assert payload == Payload(systemKey, cmds, maxBytes);
    }
  }
}
