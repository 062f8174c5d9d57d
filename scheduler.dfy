/**
 * The p44BTDMX sender's delta scheduler as functions on the channel
 * universe.
 *
 * Every channel keeps the value last received (`pending`), the value last
 * broadcast (`current`) and an age (cycles since it was last sent, 255 for
 * a change that was just detected). One call first detects changes, then
 * emits commands tier by tier, highest age first, light by light, while
 * at least two bytes of room are left; channels sent in a tier get the
 * tier's done age. Ages above `255 - initialRepeatCount` are recent
 * changes: they form at most one tier per call and are sent again, one
 * age lower, in the following calls.
 */
module Scheduler {
  import opened Wire
  import opened Commands

  /** The universe is made of light blocks only (8 * 84 = 672 channels, not the 512 of a DMX universe). */
  const UniverseSize := LightChannels * NumLights

  /** `lastMaxAge` before the first tier: above every age. */
  const NoTierYet := 9999

  datatype DMXChannel = DMXChannel(pending: byte, current: byte, age: byte)

  predicate IsUniverse(u: seq<DMXChannel>)
  {
    |u| == UniverseSize
  }

  /** Index of channel `cidx` of light `l`. */
  function Channel(l: nat, cidx: nat): (k: nat)
    requires l < NumLights && cidx < LightChannels
    ensures k < UniverseSize
  {
    l * LightChannels + cidx
  }

  /** Change detection: a channel whose pending value differs is adopted and gets age 255. */
  function Detect(u: seq<DMXChannel>): (r: seq<DMXChannel>)
    ensures |r| == |u|
    ensures forall i :: 0 <= i < |u| ==>
      r[i].pending == u[i].pending && r[i].current == u[i].pending &&
      r[i].age == if u[i].pending != u[i].current then 255 else u[i].age
  {
    seq(|u|, i requires 0 <= i < |u| =>
      if u[i].pending != u[i].current then DMXChannel(u[i].pending, u[i].pending, 255) else u[i])
  }

  /** The highest age strictly between 0 and `limit`, or 0 when there is none. */
  function MaxAgeBelow(u: seq<DMXChannel>, limit: int): (m: nat)
    ensures m <= 255 && (m == 0 || m < limit)
    decreases |u|
  {
    if u == [] then 0
    else
      var m := MaxAgeBelow(u[..|u| - 1], limit);
      var a := u[|u| - 1].age;
      if a > m && a < limit then a else m
  }

  /** The result is an age of the universe, and no age below `limit` is higher. */
  lemma {:induction false} MaxAgeBelowIsMax(u: seq<DMXChannel>, limit: int)
    ensures var m := MaxAgeBelow(u, limit);
      (m == 0 || exists i :: 0 <= i < |u| && u[i].age == m) &&
      forall i :: 0 <= i < |u| && u[i].age < limit ==> u[i].age <= m
    decreases |u|
  {
    if u != [] {
      var init := u[..|u| - 1];
      MaxAgeBelowIsMax(init, limit);
      var m := MaxAgeBelow(init, limit);
      if m != 0 {
        var j :| 0 <= j < |init| && init[j].age == m;
        assert u[j].age == m;
      }
      assert forall i :: 0 <= i < |init| ==> u[i] == init[i];
    }
  }

  /** Emission state: the universe, the commands so far and the room left. */
  datatype Emission = Emission(u: seq<DMXChannel>, cmds: seq<Command>, room: int)

  /** Encoded size of a command stream. */
  function Size(cs: seq<Command>): nat
  {
    if cs == [] then 0 else Size(cs[..|cs| - 1]) + CommandSize(cs[|cs| - 1])
  }

  /** The pending and current values of a universe, without the ages. */
  function Values(u: seq<DMXChannel>): (v: seq<(byte, byte)>)
    ensures |v| == |u|
  {
    seq(|u|, i requires 0 <= i < |u| => (u[i].pending, u[i].current))
  }

  /** Only ages change while commands are emitted. */
  predicate SameValues(a: seq<DMXChannel>, b: seq<DMXChannel>)
  {
    Values(a) == Values(b)
  }

  /** Giving channel `k` a new age keeps every value. */
  lemma AgeKeepsValues(u: seq<DMXChannel>, k: nat, age: byte)
    requires k < |u|
    ensures SameValues(u, u[k := u[k].(age := age)])
  {
    assert Values(u) == Values(u[k := u[k].(age := age)]);
  }

  /** Channels either keep their age or take `doneAge`. */
  predicate AgedOrDone(a: seq<DMXChannel>, b: seq<DMXChannel>, doneAge: int)
  {
    |a| == |b| && forall i :: 0 <= i < |a| ==> b[i].age == a[i].age || b[i].age == doneAge
  }

  /**
   * Command `c` is one the scheduler may emit for universe `u`: for a light
   * block, carrying the current values of the channels it sets.
   */
  predicate Carries(c: Command, u: seq<DMXChannel>)
    requires IsUniverse(u)
  {
    c.light < NumLights &&
    match c
    case Brightness(l, b) => b == u[Channel(l, 2)].current
    case Hsb(l, h, s, b) =>
      h == u[Channel(l, 0)].current && s == u[Channel(l, 1)].current && b == u[Channel(l, 2)].current
    case Other(l, cidx, v) => 3 <= cidx < LightChannels && v == u[Channel(l, cidx)].current
  }

  predicate AllCarry(cs: seq<Command>, u: seq<DMXChannel>)
    requires IsUniverse(u)
  {
    forall i :: 0 <= i < |cs| ==> Carries(cs[i], u)
  }

  /**
   * `r` continues `e`: only ages changed, the commands still all carry
   * current values if they did before, and the room used is accounted for.
   */
  predicate Extends(e: Emission, r: Emission)
  {
    IsUniverse(e.u) && IsUniverse(r.u) && SameValues(e.u, r.u) &&
    (AllCarry(e.cmds, e.u) ==> AllCarry(r.cmds, r.u)) &&
    r.room + Size(r.cmds) == e.room + Size(e.cmds)
  }

  /** `r` continues `e`, and every channel kept its age or took `doneAge`. */
  predicate Emits(e: Emission, r: Emission, doneAge: int)
  {
    Extends(e, r) && AgedOrDone(e.u, r.u, doneAge)
  }

  lemma EmitsTrans(a: Emission, b: Emission, c: Emission, doneAge: int)
    requires Emits(a, b, doneAge) && Emits(b, c, doneAge)
    ensures Emits(a, c, doneAge)
  {
  }

  /** Sending a command that carries current values, and marking what it sent, continues an emission. */
  lemma SendEmits(e: Emission, c: Command, u: seq<DMXChannel>, doneAge: int)
    requires IsUniverse(e.u) && SameValues(e.u, u) && AgedOrDone(e.u, u, doneAge) && Carries(c, e.u)
    ensures Emits(e, Emission(u, e.cmds + [c], e.room - CommandSize(c)), doneAge)
  {
    SizeAppend(e.cmds, c);
    if AllCarry(e.cmds, e.u) {
      assert (e.cmds + [c])[..|e.cmds|] == e.cmds;
      AllCarrySameValues(e.cmds + [c], e.u, u);
    }
  }

  /** Channel `cidx` of light `l`: an index/value command when it is at the tier's age and three bytes fit. */
  function OtherStep(e: Emission, l: nat, cidx: nat, maxAge: int, doneAge: byte): (r: Emission)
    requires IsUniverse(e.u) && l < NumLights && 3 <= cidx < LightChannels
    ensures Emits(e, r, doneAge) && (e.room >= 0 ==> r.room >= 0)
  {
    var k := Channel(l, cidx);
    if e.u[k].age == maxAge && e.room >= 3 then
      AgeKeepsValues(e.u, k, doneAge);
      SendEmits(e, Other(l, cidx, e.u[k].current), e.u[k := e.u[k].(age := doneAge)], doneAge);
      Emission(e.u[k := e.u[k].(age := doneAge)], e.cmds + [Other(l, cidx, e.u[k].current)], e.room - 3)
    else e
  }

  /** The channel index/value commands of light `l` for channels `cidx..`. */
  function EmitOthers(e: Emission, l: nat, cidx: nat, maxAge: int, doneAge: byte): (r: Emission)
    requires IsUniverse(e.u) && l < NumLights && cidx >= 3
    ensures Emits(e, r, doneAge) && (e.room >= 0 ==> r.room >= 0)
    decreases LightChannels - cidx
  {
    if cidx >= LightChannels then e
    else
      var e1 := OtherStep(e, l, cidx, maxAge, doneAge);
      var r := EmitOthers(e1, l, cidx + 1, maxAge, doneAge);
      EmitsTrans(e, e1, r, doneAge);
      r
  }

  /** Sending the HSB command of light `l`: hue, saturation and brightness take `doneAge`. */
  function HsbSend(e: Emission, l: nat, doneAge: byte): (r: Emission)
    requires IsUniverse(e.u) && l < NumLights
    ensures Emits(e, r, doneAge) && r.room == e.room - 4
  {
    var u := e.u;
    var h, s, b := Channel(l, 0), Channel(l, 1), Channel(l, 2);
    var u1 := u[h := u[h].(age := doneAge)];
    var u2 := u1[s := u1[s].(age := doneAge)];
    var c := Hsb(l, u[h].current, u[s].current, u[b].current);
    AgeKeepsValues(u, h, doneAge);
    AgeKeepsValues(u1, s, doneAge);
    AgeKeepsValues(u2, b, doneAge);
    SendEmits(e, c, u2[b := u2[b].(age := doneAge)], doneAge);
    Emission(u2[b := u2[b].(age := doneAge)], e.cmds + [c], e.room - 4)
  }

  /** Sending the brightness command of light `l`: brightness takes `doneAge`. */
  function BrightnessSend(e: Emission, l: nat, doneAge: byte): (r: Emission)
    requires IsUniverse(e.u) && l < NumLights
    ensures Emits(e, r, doneAge) && r.room == e.room - 2
  {
    var b := Channel(l, 2);
    var c := Brightness(l, e.u[b].current);
    AgeKeepsValues(e.u, b, doneAge);
    SendEmits(e, c, e.u[b := e.u[b].(age := doneAge)], doneAge);
    Emission(e.u[b := e.u[b].(age := doneAge)], e.cmds + [c], e.room - 2)
  }

  /**
   * The colour command for light `l`: HSB when hue or saturation is at the
   * tier's age and four bytes fit, otherwise brightness when brightness is
   * at the tier's age (the tier guarantees two bytes of room).
   */
  function EmitColor(e: Emission, l: nat, maxAge: int, doneAge: byte): (r: Emission)
    requires IsUniverse(e.u) && l < NumLights && e.room >= 2
    ensures Emits(e, r, doneAge) && r.room >= 0
  {
    var u := e.u;
    if (u[Channel(l, 0)].age == maxAge || u[Channel(l, 1)].age == maxAge) && e.room >= 4 then HsbSend(e, l, doneAge)
    else if u[Channel(l, 2)].age == maxAge then BrightnessSend(e, l, doneAge)
    else e
  }

  /** The commands for light `l`: its colour command, then its other channels. */
  function EmitLight(e: Emission, l: nat, maxAge: int, doneAge: byte): (r: Emission)
    requires IsUniverse(e.u) && l < NumLights && e.room >= 2
    ensures Emits(e, r, doneAge) && r.room >= 0
  {
    var e1 := EmitColor(e, l, maxAge, doneAge);
    var r := EmitOthers(e1, l, 3, maxAge, doneAge);
    EmitsTrans(e, e1, r, doneAge);
    r
  }

  /** One tier: lights `l..` in order, stopping when less than two bytes of room are left. */
  function EmitLights(e: Emission, l: nat, maxAge: int, doneAge: byte): (r: Emission)
    requires IsUniverse(e.u) && e.room >= 2
    ensures Emits(e, r, doneAge) && r.room >= 0
    decreases NumLights - l
  {
    if l >= NumLights then e
    else
      var e1 := EmitLight(e, l, maxAge, doneAge);
      if e1.room < 2 then e1
      else
        var r := EmitLights(e1, l + 1, maxAge, doneAge);
        EmitsTrans(e, e1, r, doneAge);
        r
  }

  /** A tier at light `l` is that light's commands, then the rest of the tier while room is left. */
  lemma EmitLightsNext(e: Emission, l: nat, maxAge: int, doneAge: byte)
    requires IsUniverse(e.u) && e.room >= 2 && l < NumLights
    ensures var e1 := EmitLight(e, l, maxAge, doneAge);
      EmitLights(e, l, maxAge, doneAge) == if e1.room < 2 then e1 else EmitLights(e1, l + 1, maxAge, doneAge)
  {
  }

  /**
   * The ages of the tiers of one call: below `lastMaxAge`, strictly
   * decreasing, and only the first one can lie in the recent-change window.
   */
  predicate TierOrder(ts: seq<nat>, lastMaxAge: int, recentMinAge: int)
  {
    (forall k :: 0 <= k < |ts| ==> 0 < ts[k] < lastMaxAge) &&
    (forall k, j :: 0 <= k < j < |ts| ==> ts[j] < ts[k]) &&
    (forall k :: 1 <= k < |ts| ==> ts[k] < recentMinAge)
  }

  lemma TierOrderCons(m: nat, ts: seq<nat>, lastMaxAge: int, nextLast: int, recentMinAge: int)
    requires 0 < m < lastMaxAge && nextLast <= m && nextLast <= recentMinAge
    requires TierOrder(ts, nextLast, recentMinAge)
    ensures TierOrder([m] + ts, lastMaxAge, recentMinAge)
  {
    var t := [m] + ts;
    assert forall k :: 1 <= k < |t| ==> t[k] == ts[k - 1];
  }

  /**
   * Every channel keeps its age, or was sent: age 0, or one below the age
   * of a first tier of recent changes.
   */
  predicate SentAges(a: seq<DMXChannel>, b: seq<DMXChannel>, ts: seq<nat>, recentMinAge: int)
  {
    |a| == |b| &&
    forall i :: 0 <= i < |a| ==>
      b[i].age == a[i].age || b[i].age == 0 ||
      (|ts| > 0 && ts[0] > recentMinAge && b[i].age + 1 == ts[0])
  }

  lemma SentAgesCons(a: seq<DMXChannel>, b: seq<DMXChannel>, c: seq<DMXChannel>, m: nat, doneAge: int,
                     ts: seq<nat>, nextLast: int, recentMinAge: int)
    requires AgedOrDone(a, b, doneAge) && SentAges(b, c, ts, recentMinAge)
    requires doneAge == if m > recentMinAge then m - 1 else 0
    requires nextLast <= recentMinAge && forall k :: 0 <= k < |ts| ==> ts[k] < nextLast
    ensures SentAges(a, c, [m] + ts, recentMinAge)
  {
  }

  /** The tiers of one call and the universe and commands they leave. */
  datatype Round = Round(e: Emission, tiers: seq<nat>)

  /**
   * Tiers while at least two bytes of room are left: the highest age below
   * `lastMaxAge`; a recent-change tier (above `recentMinAge`) is sent with
   * done age one lower and closes the window of recent changes for this
   * call, an older tier is sent with done age 0. The ceiling `lastMaxAge`
   * strictly decreases from tier to tier.
   */
  function Tiers(e: Emission, lastMaxAge: int, recentMinAge: int): (r: Round)
    requires IsUniverse(e.u)
    ensures Extends(e, r.e) && (e.room >= 0 ==> r.e.room >= 0)
    ensures TierOrder(r.tiers, lastMaxAge, recentMinAge) && SentAges(e.u, r.e.u, r.tiers, recentMinAge)
    decreases if lastMaxAge > 0 then lastMaxAge else 0
  {
    if e.room < 2 then Round(e, [])
    else
      var maxAge := MaxAgeBelow(e.u, lastMaxAge);
      if maxAge == 0 then Round(e, [])
      else
        var recent := maxAge > recentMinAge;
        var nextLast := if recent then recentMinAge else maxAge;
        var doneAge: byte := if recent then maxAge - 1 else 0;
        var e1 := EmitLights(e, 0, maxAge, doneAge);
        var rest := Tiers(e1, nextLast, recentMinAge);
        TierStep(e, e1, rest, maxAge, lastMaxAge, nextLast, doneAge, recentMinAge);
        Round(rest.e, [maxAge] + rest.tiers)
  }

  /** No tier is sent when less than two bytes of room are left or no age lies below the ceiling. */
  lemma TiersStop(e: Emission, lastMaxAge: int, recentMinAge: int)
    requires IsUniverse(e.u) && (e.room < 2 || MaxAgeBelow(e.u, lastMaxAge) == 0)
    ensures Tiers(e, lastMaxAge, recentMinAge).e == e
  {
  }

  /** Otherwise the tier of the highest age below the ceiling is sent, then the tiers below it. */
  lemma TiersNext(e: Emission, lastMaxAge: int, recentMinAge: int, maxAge: nat, doneAge: byte, nextLast: int)
    requires IsUniverse(e.u) && e.room >= 2 && maxAge == MaxAgeBelow(e.u, lastMaxAge) && maxAge != 0
    requires doneAge == (if maxAge > recentMinAge then maxAge - 1 else 0)
    requires nextLast == (if maxAge > recentMinAge then recentMinAge else maxAge)
    ensures Tiers(e, lastMaxAge, recentMinAge).e == Tiers(EmitLights(e, 0, maxAge, doneAge), nextLast, recentMinAge).e
  {
  }

  /** One tier followed by the remaining tiers keeps the properties of the tiers. */
  lemma TierStep(e: Emission, e1: Emission, rest: Round, maxAge: nat, lastMaxAge: int, nextLast: int,
                 doneAge: int, recentMinAge: int)
    requires Emits(e, e1, doneAge) && Extends(e1, rest.e)
    requires TierOrder(rest.tiers, nextLast, recentMinAge) && SentAges(e1.u, rest.e.u, rest.tiers, recentMinAge)
    requires 0 < maxAge < lastMaxAge && nextLast <= maxAge && nextLast <= recentMinAge
    requires doneAge == if maxAge > recentMinAge then maxAge - 1 else 0
    ensures Extends(e, rest.e)
    ensures TierOrder([maxAge] + rest.tiers, lastMaxAge, recentMinAge)
    ensures SentAges(e.u, rest.e.u, [maxAge] + rest.tiers, recentMinAge)
  {
    TierOrderCons(maxAge, rest.tiers, lastMaxAge, nextLast, recentMinAge);
    SentAgesCons(e.u, e1.u, rest.e.u, maxAge, doneAge, rest.tiers, nextLast, recentMinAge);
  }

  /** Every channel command `c` sets has an age in `ages`. */
  predicate Marked(c: Command, u: seq<DMXChannel>, ages: set<int>)
    requires IsUniverse(u)
  {
    c.light < NumLights &&
    match c
    case Brightness(l, _) => u[Channel(l, 2)].age in ages
    case Hsb(l, _, _, _) =>
      u[Channel(l, 0)].age in ages && u[Channel(l, 1)].age in ages && u[Channel(l, 2)].age in ages
    case Other(l, cidx, _) => 3 <= cidx < LightChannels && u[Channel(l, cidx)].age in ages
  }

  predicate AllMarked(cs: seq<Command>, u: seq<DMXChannel>, ages: set<int>)
    requires IsUniverse(u)
  {
    forall i :: 0 <= i < |cs| ==> Marked(cs[i], u, ages)
  }

  /** `r` only appended commands to `e`, and every channel the new commands set has an age in `ages`. */
  predicate Marks(e: Emission, r: Emission, ages: set<int>)
  {
    IsUniverse(r.u) && |e.cmds| <= |r.cmds| && r.cmds[..|e.cmds|] == e.cmds &&
    AllMarked(r.cmds[|e.cmds|..], r.u, ages)
  }

  /** Every channel of `v` keeps its age from `u` or has an age in `ages`. */
  predicate KeptOrIn(u: seq<DMXChannel>, v: seq<DMXChannel>, ages: set<int>)
  {
    |u| == |v| && forall i :: 0 <= i < |u| ==> v[i].age == u[i].age || v[i].age in ages
  }

  /** Marked channels stay marked when ages only change into the same set. */
  lemma AllMarkedKeep(cs: seq<Command>, u: seq<DMXChannel>, v: seq<DMXChannel>, ages: set<int>)
    requires IsUniverse(u) && AllMarked(cs, u, ages) && KeptOrIn(u, v, ages)
    ensures AllMarked(cs, v, ages)
  {
    forall i | 0 <= i < |cs| ensures Marked(cs[i], v, ages) {
      assert Marked(cs[i], u, ages);
    }
  }

  /** A command stream marked with `a` is marked with any superset of `a`. */
  lemma MarksWiden(e: Emission, r: Emission, a: set<int>, b: set<int>)
    requires Marks(e, r, a) && a <= b
    ensures Marks(e, r, b)
  {
    var cs := r.cmds[|e.cmds|..];
    forall i | 0 <= i < |cs| ensures Marked(cs[i], r.u, b) {
      assert Marked(cs[i], r.u, a);
    }
  }

  /** Marking composes when the second step only changes ages into the same set. */
  lemma MarksTrans(a: Emission, b: Emission, c: Emission, ages: set<int>)
    requires Marks(a, b, ages) && Marks(b, c, ages) && KeptOrIn(b.u, c.u, ages)
    ensures Marks(a, c, ages)
  {
    var n1, n2 := b.cmds[|a.cmds|..], c.cmds[|b.cmds|..];
    AllMarkedKeep(n1, b.u, c.u, ages);
    assert c.cmds[..|b.cmds|] == b.cmds;
    assert c.cmds[..|a.cmds|] == a.cmds;
    assert c.cmds[|a.cmds|..] == n1 + n2;
    forall i | 0 <= i < |n1| + |n2| ensures Marked((n1 + n2)[i], c.u, ages) {
      if i < |n1| {
        assert Marked(n1[i], c.u, ages);
      } else {
        assert Marked(n2[i - |n1|], c.u, ages);
      }
    }
  }

  lemma MarksNone(e: Emission)
    requires IsUniverse(e.u)
    ensures forall ages: set<int> :: Marks(e, e, ages)
  {
    assert e.cmds[..|e.cmds|] == e.cmds;
  }

  lemma MarksOne(e: Emission, c: Command, u: seq<DMXChannel>, ages: set<int>)
    requires IsUniverse(u) && Marked(c, u, ages)
    ensures Marks(e, Emission(u, e.cmds + [c], e.room), ages)
  {
    assert (e.cmds + [c])[..|e.cmds|] == e.cmds;
    assert (e.cmds + [c])[|e.cmds|..] == [c];
  }

  /**
   * Channel `cidx` of light `l` is sent if and only if it is at the tier's
   * age and three bytes fit; then its index/value command is appended and
   * it takes `doneAge`, and no other channel changes.
   */
  lemma OtherStepMarks(e: Emission, l: nat, cidx: nat, maxAge: int, doneAge: byte)
    requires IsUniverse(e.u) && l < NumLights && 3 <= cidx < LightChannels
    ensures var r := OtherStep(e, l, cidx, maxAge, doneAge); var k := Channel(l, cidx);
      Marks(e, r, {doneAge}) &&
      (if e.u[k].age == maxAge && e.room >= 3
       then r.cmds == e.cmds + [Other(l, cidx, e.u[k].current)] && r.u[k].age == doneAge
       else r == e) &&
      forall i :: 0 <= i < |e.u| && i != k ==> r.u[i] == e.u[i]
  {
    var r := OtherStep(e, l, cidx, maxAge, doneAge);
    var k := Channel(l, cidx);
    if e.u[k].age == maxAge && e.room >= 3 {
      MarksOne(e, Other(l, cidx, e.u[k].current), r.u, {doneAge});
    } else {
      MarksNone(e);
    }
  }

  /**
   * The HSB command of light `l` is appended with the current hue,
   * saturation and brightness; those three channels take `doneAge`, and no
   * other channel changes.
   */
  lemma HsbSendMarks(e: Emission, l: nat, doneAge: byte)
    requires IsUniverse(e.u) && l < NumLights
    ensures var r := HsbSend(e, l, doneAge); var h, s, b := Channel(l, 0), Channel(l, 1), Channel(l, 2);
      Marks(e, r, {doneAge}) &&
      r.cmds == e.cmds + [Hsb(l, e.u[h].current, e.u[s].current, e.u[b].current)] &&
      r.u[h].age == doneAge && r.u[s].age == doneAge && r.u[b].age == doneAge &&
      forall i :: 0 <= i < |e.u| && i != h && i != s && i != b ==> r.u[i] == e.u[i]
  {
    var r := HsbSend(e, l, doneAge);
    MarksOne(e, r.cmds[|e.cmds|], r.u, {doneAge});
  }

  /**
   * The brightness command of light `l` is appended with the current
   * brightness, which takes `doneAge`; no other channel changes.
   */
  lemma BrightnessSendMarks(e: Emission, l: nat, doneAge: byte)
    requires IsUniverse(e.u) && l < NumLights
    ensures var r := BrightnessSend(e, l, doneAge); var b := Channel(l, 2);
      Marks(e, r, {doneAge}) &&
      r.cmds == e.cmds + [Brightness(l, e.u[b].current)] && r.u[b].age == doneAge &&
      forall i :: 0 <= i < |e.u| && i != b ==> r.u[i] == e.u[i]
  {
    var r := BrightnessSend(e, l, doneAge);
    MarksOne(e, r.cmds[|e.cmds|], r.u, {doneAge});
  }

  lemma AgedOrDoneKept(a: seq<DMXChannel>, b: seq<DMXChannel>, doneAge: int)
    requires AgedOrDone(a, b, doneAge)
    ensures KeptOrIn(a, b, {doneAge})
  {
  }

  lemma {:induction false} EmitOthersMarks(e: Emission, l: nat, cidx: nat, maxAge: int, doneAge: byte)
    requires IsUniverse(e.u) && l < NumLights && cidx >= 3
    ensures Marks(e, EmitOthers(e, l, cidx, maxAge, doneAge), {doneAge})
    decreases LightChannels - cidx
  {
    if cidx >= LightChannels {
      MarksNone(e);
    } else {
      var e1 := OtherStep(e, l, cidx, maxAge, doneAge);
      var r := EmitOthers(e1, l, cidx + 1, maxAge, doneAge);
      OtherStepMarks(e, l, cidx, maxAge, doneAge);
      EmitOthersMarks(e1, l, cidx + 1, maxAge, doneAge);
      AgedOrDoneKept(e1.u, r.u, doneAge);
      MarksTrans(e, e1, r, {doneAge});
    }
  }

  lemma EmitColorMarks(e: Emission, l: nat, maxAge: int, doneAge: byte)
    requires IsUniverse(e.u) && l < NumLights && e.room >= 2
    ensures Marks(e, EmitColor(e, l, maxAge, doneAge), {doneAge})
  {
    var u := e.u;
    if (u[Channel(l, 0)].age == maxAge || u[Channel(l, 1)].age == maxAge) && e.room >= 4 {
      HsbSendMarks(e, l, doneAge);
    } else if u[Channel(l, 2)].age == maxAge {
      BrightnessSendMarks(e, l, doneAge);
    } else {
      MarksNone(e);
    }
  }

  lemma EmitLightMarks(e: Emission, l: nat, maxAge: int, doneAge: byte)
    requires IsUniverse(e.u) && l < NumLights && e.room >= 2
    ensures Marks(e, EmitLight(e, l, maxAge, doneAge), {doneAge})
  {
    var e1 := EmitColor(e, l, maxAge, doneAge);
    var r := EmitOthers(e1, l, 3, maxAge, doneAge);
    EmitColorMarks(e, l, maxAge, doneAge);
    EmitOthersMarks(e1, l, 3, maxAge, doneAge);
    AgedOrDoneKept(e1.u, r.u, doneAge);
    MarksTrans(e, e1, r, {doneAge});
  }

  /** Every channel the commands of one tier set ends the tier at its done age. */
  lemma {:induction false} EmitLightsMarks(e: Emission, l: nat, maxAge: int, doneAge: byte)
    requires IsUniverse(e.u) && e.room >= 2
    ensures Marks(e, EmitLights(e, l, maxAge, doneAge), {doneAge})
    decreases NumLights - l
  {
    if l >= NumLights {
      MarksNone(e);
    } else {
      var e1 := EmitLight(e, l, maxAge, doneAge);
      EmitLightsNext(e, l, maxAge, doneAge);
      EmitLightMarks(e, l, maxAge, doneAge);
      if e1.room >= 2 {
        var r := EmitLights(e1, l + 1, maxAge, doneAge);
        assert EmitLights(e, l, maxAge, doneAge) == r;
        EmitLightsMarks(e1, l + 1, maxAge, doneAge);
        AgedOrDoneKept(e1.u, r.u, doneAge);
        MarksTrans(e, e1, r, {doneAge});
      } else {
        assert EmitLights(e, l, maxAge, doneAge) == e1;
      }
    }
  }

  /** The ages channels sent in tiers `ts` end with: 0, or one below a first tier of recent changes. */
  function DoneAges(ts: seq<nat>, recentMinAge: int): (a: set<int>)
    ensures 0 in a
  {
    if |ts| > 0 && ts[0] > recentMinAge then {0, ts[0] as int - 1} else {0}
  }

  /**
   * Every channel a command of the tiers sets ends with age 0, or with one
   * below the first tier's age when that tier was one of recent changes;
   * the tiers only append commands.
   */
  lemma {:induction false} TiersMarks(e: Emission, lastMaxAge: int, recentMinAge: int)
    requires IsUniverse(e.u)
    ensures var r := Tiers(e, lastMaxAge, recentMinAge);
      Marks(e, r.e, DoneAges(r.tiers, recentMinAge))
    decreases if lastMaxAge > 0 then lastMaxAge else 0
  {
    var r := Tiers(e, lastMaxAge, recentMinAge);
    if e.room < 2 || MaxAgeBelow(e.u, lastMaxAge) == 0 {
      TiersStop(e, lastMaxAge, recentMinAge);
      MarksNone(e);
    } else {
      var maxAge := MaxAgeBelow(e.u, lastMaxAge);
      var recent := maxAge > recentMinAge;
      var nextLast := if recent then recentMinAge else maxAge;
      var doneAge: byte := if recent then maxAge - 1 else 0;
      var e1 := EmitLights(e, 0, maxAge, doneAge);
      var rest := Tiers(e1, nextLast, recentMinAge);
      TiersNextRound(e, lastMaxAge, recentMinAge, maxAge, doneAge, nextLast);
      EmitLightsMarks(e, 0, maxAge, doneAge);
      TiersMarks(e1, nextLast, recentMinAge);
      TierMarksStep(e, e1, rest, maxAge, doneAge, nextLast, recentMinAge);
    }
  }

  /** One tier marked with its done age, followed by tiers below the recent-change window. */
  lemma TierMarksStep(e: Emission, e1: Emission, rest: Round, maxAge: nat, doneAge: int, nextLast: int,
                      recentMinAge: int)
    requires doneAge == (if maxAge > recentMinAge then maxAge - 1 else 0)
    requires nextLast <= recentMinAge && TierOrder(rest.tiers, nextLast, recentMinAge)
    requires Marks(e, e1, {doneAge}) && Marks(e1, rest.e, DoneAges(rest.tiers, recentMinAge))
    requires SentAges(e1.u, rest.e.u, rest.tiers, recentMinAge)
    ensures Marks(e, rest.e, DoneAges([maxAge] + rest.tiers, recentMinAge))
  {
    var all := DoneAges([maxAge] + rest.tiers, recentMinAge);
    DoneAgesCons(maxAge, rest.tiers, recentMinAge, doneAge, nextLast);
    MarksWiden(e, e1, {doneAge}, all);
    MarksWiden(e1, rest.e, DoneAges(rest.tiers, recentMinAge), all);
    SentAgesKept(e1.u, rest.e.u, rest.tiers, recentMinAge, all);
    MarksTrans(e, e1, rest.e, all);
  }

  /** The done age of a first tier, and those of the tiers below the recent-change window, are among the call's. */
  lemma DoneAgesCons(m: nat, ts: seq<nat>, recentMinAge: int, doneAge: int, nextLast: int)
    requires doneAge == (if m > recentMinAge then m - 1 else 0)
    requires nextLast <= recentMinAge && TierOrder(ts, nextLast, recentMinAge)
    ensures doneAge in DoneAges([m] + ts, recentMinAge)
    ensures DoneAges(ts, recentMinAge) <= DoneAges([m] + ts, recentMinAge)
  {
    if |ts| > 0 {
      assert ts[0] < nextLast;
    }
  }

  /** Channels of a tier run keep their age or take one of its done ages. */
  lemma SentAgesKept(a: seq<DMXChannel>, b: seq<DMXChannel>, ts: seq<nat>, recentMinAge: int, ages: set<int>)
    requires SentAges(a, b, ts, recentMinAge) && DoneAges(ts, recentMinAge) <= ages
    ensures KeptOrIn(a, b, ages)
  {
    forall i | 0 <= i < |a| ensures b[i].age == a[i].age || b[i].age in ages {
      if b[i].age != a[i].age && b[i].age != 0 {
        assert b[i].age == ts[0] - 1;
      }
    }
  }

  /** `TiersNext`, for the tiers as well as the emission. */
  lemma TiersNextRound(e: Emission, lastMaxAge: int, recentMinAge: int, maxAge: nat, doneAge: byte, nextLast: int)
    requires IsUniverse(e.u) && e.room >= 2 && maxAge == MaxAgeBelow(e.u, lastMaxAge) && maxAge != 0
    requires doneAge == (if maxAge > recentMinAge then maxAge - 1 else 0)
    requires nextLast == (if maxAge > recentMinAge then recentMinAge else maxAge)
    ensures var rest := Tiers(EmitLights(e, 0, maxAge, doneAge), nextLast, recentMinAge);
      Tiers(e, lastMaxAge, recentMinAge) == Round(rest.e, [maxAge] + rest.tiers)
  {
  }

  /** With refresh, every age below the recent-change window grows by one (as a byte). */
  function AgeAll(u: seq<DMXChannel>, recentMinAge: int): (r: seq<DMXChannel>)
    ensures SameValues(u, r)
  {
    seq(|u|, i requires 0 <= i < |u| =>
      if u[i].age < recentMinAge then u[i].(age := (u[i].age + 1) % 256) else u[i])
  }

  /** One `generateP44DMXcmds` call: the new universe and the commands. */
  function Generate(u: seq<DMXChannel>, initialRepeatCount: int, refresh: bool, maxBytes: int): (r: (seq<DMXChannel>, seq<Command>))
    requires IsUniverse(u)
    ensures IsUniverse(r.0) && (maxBytes < 2 ==> r.1 == [])
  {
    var round := GenerateRound(u, initialRepeatCount, maxBytes);
    (if refresh then AgeAll(round.u, 255 - initialRepeatCount) else round.u, round.cmds)
  }

  lemma SizeAppend(cs: seq<Command>, c: Command)
    ensures Size(cs + [c]) == Size(cs) + CommandSize(c)
  {
    assert (cs + [c])[..|cs|] == cs;
  }

  /** Whether a command carries current values depends on values only, not on ages. */
  lemma CarriesSameValues(c: Command, u: seq<DMXChannel>, v: seq<DMXChannel>)
    requires IsUniverse(u) && SameValues(u, v)
    ensures Carries(c, u) <==> Carries(c, v)
  {
    if c.light < NumLights {
      var l := c.light;
      assert Values(u)[Channel(l, 0)] == Values(v)[Channel(l, 0)];
      assert Values(u)[Channel(l, 1)] == Values(v)[Channel(l, 1)];
      assert Values(u)[Channel(l, 2)] == Values(v)[Channel(l, 2)];
      if c.Other? && 3 <= c.channel < LightChannels {
        assert Values(u)[Channel(l, c.channel)] == Values(v)[Channel(l, c.channel)];
      }
    }
  }

  /**
   * A command stream that carries current values keeps doing so when the
   * ages change, and a command appended to it that carries them too.
   */
  lemma AllCarrySameValues(cs: seq<Command>, u: seq<DMXChannel>, v: seq<DMXChannel>)
    requires IsUniverse(u) && SameValues(u, v)
    requires |cs| > 0 && AllCarry(cs[..|cs| - 1], u) && Carries(cs[|cs| - 1], u)
    ensures AllCarry(cs, v)
  {
    forall i | 0 <= i < |cs|
      ensures Carries(cs[i], v)
    {
      if i < |cs| - 1 {
        assert Carries(cs[..|cs| - 1][i], u);
      }
      CarriesSameValues(cs[i], u, v);
    }
  }

  /** The encoded size of a command stream is its length on the wire. */
  lemma {:induction false} SizeIsSerializedLength(cs: seq<Command>)
    requires AllAddressable(cs)
    ensures |Serialize(cs)| == Size(cs)
    decreases |cs|
  {
    if cs != [] {
      assert AllAddressable(cs[..|cs| - 1]);
      SizeIsSerializedLength(cs[..|cs| - 1]);
    }
  }

  /** The commands and universe a call leaves before the final aging step. */
  function GenerateRound(u: seq<DMXChannel>, initialRepeatCount: int, maxBytes: int): (r: Emission)
    requires IsUniverse(u)
    ensures IsUniverse(r.u) && (maxBytes >= 0 ==> r.room >= 0) && (maxBytes < 2 ==> r.cmds == [])
  {
    Tiers(Emission(Detect(u), [], maxBytes), NoTierYet, 255 - initialRepeatCount).e
  }

  /** A call's result is its round, aged when refreshing; its bytes are the round's commands serialized. */
  lemma GenerateOfRound(u: seq<DMXChannel>, initialRepeatCount: int, refresh: bool, maxBytes: int, r: Emission)
    requires IsUniverse(u) && r == Tiers(Emission(Detect(u), [], maxBytes), NoTierYet, 255 - initialRepeatCount).e
    ensures Generate(u, initialRepeatCount, refresh, maxBytes).1 == r.cmds
    ensures refresh ==> Generate(u, initialRepeatCount, refresh, maxBytes).0 == AgeAll(r.u, 255 - initialRepeatCount)
    ensures !refresh ==> Generate(u, initialRepeatCount, refresh, maxBytes).0 == r.u
    ensures GenerateBytes(u, initialRepeatCount, refresh, maxBytes) == Serialize(r.cmds)
  {
  }

  /**
   * One call never produces more than `maxBytes` bytes of commands, and
   * nothing at all when less than two bytes are allowed; every command
   * addresses one of the 84 lights, so no address byte is above 251.
   */
  lemma GenerateWithinBudget(u: seq<DMXChannel>, initialRepeatCount: int, refresh: bool, maxBytes: int)
    requires IsUniverse(u)
    ensures var cmds := Generate(u, initialRepeatCount, refresh, maxBytes).1;
      AllAddressable(cmds) && (maxBytes < 2 ==> cmds == []) && (maxBytes >= 2 ==> |Serialize(cmds)| <= maxBytes)
  {
    var e := Emission(Detect(u), [], maxBytes);
    var r := GenerateRound(u, initialRepeatCount, maxBytes);
    assert Generate(u, initialRepeatCount, refresh, maxBytes).1 == r.cmds;
    assert AllAddressable(r.cmds);
    SizeIsSerializedLength(r.cmds);
  }

  /**
   * After a call every channel's current value is its pending value, and
   * every command carries the current values of the channels it sets.
   */
  lemma GenerateCarriesCurrent(u: seq<DMXChannel>, initialRepeatCount: int, refresh: bool, maxBytes: int)
    requires IsUniverse(u)
    ensures var (u', cmds) := Generate(u, initialRepeatCount, refresh, maxBytes);
      IsUniverse(u') && AllCarry(cmds, u') &&
      forall i :: 0 <= i < |u| ==> u'[i].pending == u[i].pending && u'[i].current == u[i].pending
  {
    var e := Emission(Detect(u), [], maxBytes);
    var r := GenerateRound(u, initialRepeatCount, maxBytes);
    var u' := Generate(u, initialRepeatCount, refresh, maxBytes).0;
    assert AllCarry(r.cmds, r.u);
    assert SameValues(r.u, u');
    forall i | 0 <= i < |r.cmds|
      ensures Carries(r.cmds[i], u')
    {
      CarriesSameValues(r.cmds[i], r.u, u');
    }
    forall i | 0 <= i < |u|
      ensures u'[i].pending == u[i].pending && u'[i].current == u[i].pending
    {
      assert Values(e.u)[i] == Values(u')[i];
    }
  }

  /** `reset`: every channel counts as sent with its pending value, at age 128. */
  function ResetAll(u: seq<DMXChannel>): (r: seq<DMXChannel>)
    ensures |r| == |u|
  {
    seq(|u|, i requires 0 <= i < |u| => DMXChannel(u[i].pending, u[i].pending, 128))
  }

  /**
   * After a reset no change is pending, and with the default repeat count
   * every channel is re-sent once as an older tier, below any new change.
   */
  lemma ResetNothingPending(u: seq<DMXChannel>, initialRepeatCount: int)
    requires 0 <= initialRepeatCount <= 126
    ensures Detect(ResetAll(u)) == ResetAll(u)
    ensures forall i :: 0 <= i < |u| ==> ResetAll(u)[i].age < 255 - initialRepeatCount
  {
  }

  /** `setChannel`: only the pending value of an existing channel changes. */
  function SetPending(u: seq<DMXChannel>, ch: nat, value: byte): (r: seq<DMXChannel>)
    ensures |r| == |u|
  {
    if ch < |u| then u[ch := u[ch].(pending := value)] else u
  }

  /** `setChannels`: channel `from + i` (a 16-bit channel number) gets `data[i]`, in order. */
  function SetPendings(u: seq<DMXChannel>, from: nat, data: seq<byte>): (r: seq<DMXChannel>)
    ensures |r| == |u|
    decreases |data|
  {
    if data == [] then u
    else SetPending(SetPendings(u, from, data[..|data| - 1]), (from + |data| - 1) % 0x1_0000, data[|data| - 1])
  }

  /**
   * A block of values that lies inside the universe lands on consecutive
   * channels; only pending values change, and no other channel changes.
   */
  lemma {:induction false} SetPendingsBlock(u: seq<DMXChannel>, from: nat, data: seq<byte>)
    requires from + |data| <= |u| <= 0x1_0000
    ensures var r := SetPendings(u, from, data);
      (forall i :: 0 <= i < |data| ==> r[from + i] == u[from + i].(pending := data[i])) &&
      (forall k :: 0 <= k < |u| && !(from <= k < from + |data|) ==> r[k] == u[k])
    decreases |data|
  {
    if data != [] {
      var d := data[..|data| - 1];
      SetPendingsBlock(u, from, d);
      assert (from + |data| - 1) % 0x1_0000 == from + |data| - 1;
    }
  }

  /** `getChannel`: the pending value of a channel, 0 past the end of the universe. */
  function PendingAt(u: seq<DMXChannel>, ch: nat): byte
  {
    if ch < |u| then u[ch].pending else 0
  }

  /** Reading a channel gives the value last set on it; setting one channel leaves the others alone. */
  lemma GetAfterSet(u: seq<DMXChannel>, ch: nat, value: byte, other: nat)
    ensures PendingAt(SetPending(u, ch, value), ch) == if ch < |u| then value else 0
    ensures other != ch ==> PendingAt(SetPending(u, ch, value), other) == PendingAt(u, other)
  {
  }

  /** The bytes of one `generateP44DMXcmds` call. */
  function GenerateBytes(u: seq<DMXChannel>, initialRepeatCount: int, refresh: bool, maxBytes: int): (r: seq<byte>)
    requires IsUniverse(u)
    ensures maxBytes < 2 ==> r == []
    ensures maxBytes >= 2 ==> |r| <= maxBytes
  {
    GenerateWithinBudget(u, initialRepeatCount, refresh, maxBytes);
    Serialize(Generate(u, initialRepeatCount, refresh, maxBytes).1)
  }
}
