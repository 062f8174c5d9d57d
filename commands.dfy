/**
 * The p44DMX delta command stream carried inside a p44BTDMX payload.
 *
 * Each command starts with an address byte `3 * light + kind`:
 * kind 0 sets the brightness (1 data byte), kind 1 sets hue, saturation and
 * brightness (3 data bytes), kind 2 sets one channel by index (2 data bytes).
 * 0xFF leads in an extended command whose second byte is the sub-command;
 * 0xFF 0xFF is the NOP used for padding.
 */
module Commands {
  import opened Wire

  /** Channels per light: hue, saturation, brightness and five more. */
  const LightChannels := 8

  /** Lights the sender addresses: limited by the address byte, three kinds per light. */
  const NumLights := (255 - 2) / 3

  /** Lead-in byte of an extended command. */
  const ExtendedLeadIn: byte := 0xFF

  datatype Command =
    | Brightness(light: nat, b: byte)
    | Hsb(light: nat, h: byte, s: byte, b: byte)
    | Other(light: nat, channel: byte, value: byte)

  /** Commands whose address byte fits below the extended lead-in. */
  predicate Addressable(c: Command)
  {
    c.light < NumLights
  }

  predicate AllAddressable(cs: seq<Command>)
  {
    forall i :: 0 <= i < |cs| ==> Addressable(cs[i])
  }

  function Kind(c: Command): nat
  {
    match c
    case Brightness(_, _) => 0
    case Hsb(_, _, _, _) => 1
    case Other(_, _, _) => 2
  }

  /** The address byte of an addressable command; it is never the extended lead-in. */
  function AddressByte(c: Command): (a: byte)
    requires Addressable(c)
    ensures a <= 3 * (NumLights - 1) + 2 < ExtendedLeadIn
    ensures a / 3 == c.light && a % 3 == Kind(c)
  {
    3 * c.light + Kind(c)
  }

  /** Bytes a command takes: the address byte and 1, 3 or 2 data bytes. */
  function CommandSize(c: Command): nat
  {
    match c
    case Brightness(_, _) => 2
    case Hsb(_, _, _, _) => 4
    case Other(_, _, _) => 3
  }

  /** The bytes of one command: its address byte and its data bytes. */
  function EncodeCommand(c: Command): (r: seq<byte>)
    requires Addressable(c)
    ensures |r| == CommandSize(c) && r[0] == AddressByte(c)
  {
    match c
    case Brightness(_, b) => [AddressByte(c), b]
    case Hsb(_, h, s, b) => [AddressByte(c), h, s, b]
    case Other(_, channel, value) => [AddressByte(c), channel, value]
  }

  /** A command stream: the commands' bytes one after the other. */
  function Serialize(cs: seq<Command>): seq<byte>
    requires AllAddressable(cs)
  {
    if cs == [] then [] else Serialize(cs[..|cs| - 1]) + EncodeCommand(cs[|cs| - 1])
  }

  lemma {:induction false} SerializeAppend(a: seq<Command>, b: seq<Command>)
    requires AllAddressable(a) && AllAddressable(b)
    ensures AllAddressable(a + b)
    ensures Serialize(a + b) == Serialize(a) + Serialize(b)
    decreases |b|
  {
    assert AllAddressable(a + b) by {
      forall i | 0 <= i < |a + b| ensures Addressable((a + b)[i]) {
        if i >= |a| { assert (a + b)[i] == b[i - |a|]; }
      }
    }
    if b == [] {
      assert a + b == a;
    } else {
      var b' := b[..|b| - 1];
      assert (a + b)[..|a + b| - 1] == a + b';
      assert AllAddressable(b');
      SerializeAppend(a, b');
    }
  }

  /** Appending one command appends its bytes: address byte `3 * light + kind`, then the data. */
  lemma SerializeSnoc(cs: seq<Command>, c: Command)
    requires AllAddressable(cs) && Addressable(c)
    ensures AllAddressable(cs + [c])
    ensures Serialize(cs + [c]) == Serialize(cs) + match c
      case Brightness(l, b) => [3 * l, b]
      case Hsb(l, h, s, b) => [3 * l + 1, h, s, b]
      case Other(l, channel, value) => [3 * l + 2, channel, value]
  {
    assert (cs + [c])[..|cs|] == cs;
  }

  /**
   * The sender's byte-by-byte append of one command keeps its output the
   * serialization of the commands appended so far.
   */
  lemma SerializeSnocBytes(cs: seq<Command>, out: seq<byte>, c: Command, bytes: seq<byte>)
    requires AllAddressable(cs) && out == Serialize(cs) && Addressable(c)
    requires bytes == match c
      case Brightness(l, b) => [3 * l, b]
      case Hsb(l, h, s, b) => [3 * l + 1, h, s, b]
      case Other(l, channel, value) => [3 * l + 2, channel, value]
    ensures AllAddressable(cs + [c]) && out + bytes == Serialize(cs + [c])
  {
    SerializeSnoc(cs, c);
  }

  /** `n` padding bytes: extended lead-ins, read as NOP commands. */
  function Padding(n: nat): (r: seq<byte>)
    ensures |r| == n && forall i :: 0 <= i < n ==> r[i] == ExtendedLeadIn
  {
    seq(n, _ => ExtendedLeadIn)
  }

  /**
   * The commands the receiver decodes from `s`, starting at index `i`:
   * - 0xFF consumes itself and the following sub-command byte, with no effect;
   * - any other byte selects light `addr / 3` and kind `addr % 3`;
   * - an HSB or channel command without all its data bytes ends the stream;
   * - a brightness command whose address byte is the last byte reads the
   *   terminating NUL of the string and sets brightness 0.
   */
  function ParseFrom(s: seq<byte>, i: nat): seq<Command>
    decreases |s| - i
  {
    if i >= |s| then []
    else if s[i] == ExtendedLeadIn then ParseFrom(s, i + 2)
    else
      var light, kind := s[i] / 3, s[i] % 3;
      if kind == 0 then
        [Brightness(light, if i + 1 < |s| then s[i + 1] else 0)] + ParseFrom(s, i + 2)
      else if kind == 1 then
        if i + 4 > |s| then [] else [Hsb(light, s[i + 1], s[i + 2], s[i + 3])] + ParseFrom(s, i + 4)
      else
        if i + 3 > |s| then [] else [Other(light, s[i + 1], s[i + 2])] + ParseFrom(s, i + 3)
  }

  function Parse(s: seq<byte>): seq<Command>
  {
    ParseFrom(s, 0)
  }

  /** Every decoded command took at least two bytes, the last one possibly the terminating NUL. */
  lemma {:induction false} ParseFromBound(s: seq<byte>, i: nat)
    ensures ParseFrom(s, i) != [] ==> i + 2 * |ParseFrom(s, i)| <= |s| + 1
    ensures i == 0 ==> 2 * |Parse(s)| <= |s| + 1
    decreases |s| - i
  {
    if i < |s| {
      if s[i] == ExtendedLeadIn || s[i] % 3 == 0 {
        ParseFromBound(s, i + 2);
      } else if s[i] % 3 == 1 {
        ParseFromBound(s, i + 4);
      } else {
        ParseFromBound(s, i + 3);
      }
    }
  }

  /** Decoding does not depend on what precedes the position it starts from. */
  lemma {:induction false} ParseShift(x: seq<byte>, y: seq<byte>, i: nat)
    ensures ParseFrom(x + y, |x| + i) == ParseFrom(y, i)
    decreases |y| - i
  {
    if i < |y| {
      if y[i] == ExtendedLeadIn || y[i] % 3 == 0 {
        ParseShift(x, y, i + 2);
        ShiftTwo(x, y, i);
      } else if y[i] % 3 == 1 {
        if i + 4 <= |y| { ParseShift(x, y, i + 4); }
        ShiftHsb(x, y, i);
      } else {
        if i + 3 <= |y| { ParseShift(x, y, i + 3); }
        ShiftOther(x, y, i);
      }
    }
  }

  /** One step of `ParseShift` for a lead-in or a brightness command. */
  lemma ShiftTwo(x: seq<byte>, y: seq<byte>, i: nat)
    requires i < |y| && (y[i] == ExtendedLeadIn || y[i] % 3 == 0)
    requires ParseFrom(x + y, |x| + i + 2) == ParseFrom(y, i + 2)
    ensures ParseFrom(x + y, |x| + i) == ParseFrom(y, i)
  {
    var s, j := x + y, |x| + i;
    assert s[j] == y[i];
    if i + 1 < |y| { assert s[j + 1] == y[i + 1]; }
    UnfoldTwo(s, j);
    UnfoldTwo(y, i);
  }

  /** One step of `ParseShift` for an HSB command. */
  lemma ShiftHsb(x: seq<byte>, y: seq<byte>, i: nat)
    requires i < |y| && y[i] != ExtendedLeadIn && y[i] % 3 == 1
    requires i + 4 <= |y| ==> ParseFrom(x + y, |x| + i + 4) == ParseFrom(y, i + 4)
    ensures ParseFrom(x + y, |x| + i) == ParseFrom(y, i)
  {
    var s, j := x + y, |x| + i;
    assert s[j] == y[i];
    if i + 4 <= |y| {
      assert s[j + 1] == y[i + 1] && s[j + 2] == y[i + 2] && s[j + 3] == y[i + 3];
    }
    UnfoldData(s, j, 4);
    UnfoldData(y, i, 4);
  }

  /** One step of `ParseShift` for a channel index/value command. */
  lemma ShiftOther(x: seq<byte>, y: seq<byte>, i: nat)
    requires i < |y| && y[i] != ExtendedLeadIn && y[i] % 3 == 2
    requires i + 3 <= |y| ==> ParseFrom(x + y, |x| + i + 3) == ParseFrom(y, i + 3)
    ensures ParseFrom(x + y, |x| + i) == ParseFrom(y, i)
  {
    var s, j := x + y, |x| + i;
    assert s[j] == y[i];
    if i + 3 <= |y| {
      assert s[j + 1] == y[i + 1] && s[j + 2] == y[i + 2];
    }
    UnfoldData(s, j, 3);
    UnfoldData(y, i, 3);
  }

  /** `ParseFrom` at a lead-in or a brightness command. */
  lemma UnfoldTwo(s: seq<byte>, i: nat)
    requires i < |s| && (s[i] == ExtendedLeadIn || s[i] % 3 == 0)
    ensures ParseFrom(s, i) ==
      if s[i] == ExtendedLeadIn then ParseFrom(s, i + 2)
      else [Brightness(s[i] / 3, if i + 1 < |s| then s[i + 1] else 0)] + ParseFrom(s, i + 2)
  {
  }

  /** `ParseFrom` at an HSB (`n == 4`) or index/value (`n == 3`) command. */
  lemma UnfoldData(s: seq<byte>, i: nat, n: nat)
    requires i < |s| && s[i] != ExtendedLeadIn && 3 <= n <= 4 && s[i] % 3 == 5 - n
    ensures i + n > |s| ==> ParseFrom(s, i) == []
    ensures i + n <= |s| && n == 4 ==> ParseFrom(s, i) == [Hsb(s[i] / 3, s[i + 1], s[i + 2], s[i + 3])] + ParseFrom(s, i + 4)
    ensures i + n <= |s| && n == 3 ==> ParseFrom(s, i) == [Other(s[i] / 3, s[i + 1], s[i + 2])] + ParseFrom(s, i + 3)
  {
  }

  lemma {:induction false} ParsePadding(n: nat, i: nat)
    ensures ParseFrom(Padding(n), i) == []
    decreases n - i
  {
    if i < n {
      ParsePadding(n, i + 2);
    }
  }

  /** One addressable command in front of a stream is decoded as itself. */
  lemma ParseCommandFirst(c: Command, rest: seq<byte>)
    requires Addressable(c)
    ensures Parse(EncodeCommand(c) + rest) == [c] + Parse(rest)
  {
    var e := EncodeCommand(c);
    var s := e + rest;
    assert s[0] == AddressByte(c);
    assert forall k :: 0 <= k < |e| ==> s[k] == e[k];
    ParseShift(e, rest, 0);
  }

  /**
   * The receiver decodes a serialized stream of addressable commands,
   * followed by any amount of padding, to exactly those commands.
   */
  lemma {:induction false} ParseSerialize(cs: seq<Command>, pad: nat)
    requires AllAddressable(cs)
    ensures Parse(Serialize(cs) + Padding(pad)) == cs
    decreases |cs|
  {
    if cs == [] {
      assert Serialize(cs) + Padding(pad) == Padding(pad);
      ParsePadding(pad, 0);
    } else {
      var rest := cs[1..];
      assert AllAddressable([cs[0]]);
      assert AllAddressable(rest);
      assert [cs[0]] + rest == cs;
      SerializeAppend([cs[0]], rest);
      assert Serialize([cs[0]]) == EncodeCommand(cs[0]) by {
        assert [cs[0]][..0] == [];
      }
      assert Serialize(cs) + Padding(pad) == EncodeCommand(cs[0]) + (Serialize(rest) + Padding(pad));
      ParseCommandFirst(cs[0], Serialize(rest) + Padding(pad));
      ParseSerialize(rest, pad);
    }
  }
}
