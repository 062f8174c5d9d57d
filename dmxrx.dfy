/**
 * The DMX512 receive state machine of the ESP32 build: a UART break starts
 * a frame, a data chunk whose first byte is the NULL start code 0x00 opens
 * it, and the following bytes fill a 513-byte buffer (start code plus 512
 * slots). One UART event is one step of `DmxReceiver.HandleEvent`; the
 * functions `Next` and `Feed` state the same steps on values, and the lemmas
 * below say what a sequence of them assembles.
 */
module DmxRx {
  import opened Wire

  /** `DMXData`: the start code and 512 slots. */
  const FrameSize := 513

  /** Highest channel `read` accepts. */
  const MaxChannel := 512

  /** `HEALTHY_TIME`: 500 ms, in microseconds. */
  const HealthyTime := 500 * 1000

  /** The timestamp p44utils calls `Never`. */
  const Never := 0

  type uint16 = x: int | 0 <= x < 0x1_0000

  /** `DMXRxState`. */
  datatype RxMode = Idle | Break | Data

  /** The UART events the loop distinguishes; every other kind is an error. */
  datatype UartEvent = DataEvent(bytes: seq<byte>) | BreakEvent | ErrorEvent

  /** The receiver's state as a value. */
  datatype Rx = Rx(mode: RxMode, addr: int, data: seq<byte>, lastPacket: int)

  predicate Good(s: Rx)
  {
    0 <= s.addr <= FrameSize && |s.data| == FrameSize
  }

  /**
   * The first byte of the zeroed read buffer after a chunk was read into
   * it: the chunk's first byte, or 0 for an empty chunk.
   */
  function FirstByte(bytes: seq<byte>): (b: byte)
    ensures |bytes| > 0 ==> b == bytes[0]
    ensures |bytes| == 0 ==> b == 0
  {
    if |bytes| > 0 then bytes[0] else 0
  }

  /** Writing the next byte of a chunk extends the stored prefix of the chunk by that byte. */
  lemma StoreStep(d: seq<byte>, addr: nat, bytes: seq<byte>, k: nat)
    requires addr + k < |d| && k < |bytes|
    ensures (d[..addr] + bytes[..k] + d[addr + k..])[addr + k := bytes[k]] ==
      d[..addr] + bytes[..k + 1] + d[addr + k + 1..]
  {
    var u := (d[..addr] + bytes[..k] + d[addr + k..])[addr + k := bytes[k]];
    var v := d[..addr] + bytes[..k + 1] + d[addr + k + 1..];
    assert |u| == |v|;
    forall p | 0 <= p < |u| ensures u[p] == v[p] {
      if p < addr {
      } else if p < addr + k {
        assert u[p] == bytes[p - addr];
      }
    }
  }

  /** How many of `n` bytes fit from offset `addr` on. */
  function Taken(addr: int, n: int): (k: int)
    requires 0 <= addr <= FrameSize && 0 <= n
    ensures 0 <= k <= n && addr + k <= FrameSize
    ensures k == n || addr + k == FrameSize
  {
    if addr + n <= FrameSize then n else FrameSize - addr
  }

  /**
   * A chunk stored from the current offset on: the bytes that fit go to
   * successive offsets, the rest is dropped; the flag says whether the
   * offset reached the end of the buffer with this chunk.
   */
  function Store(s: Rx, bytes: seq<byte>): (r: (Rx, bool))
    requires Good(s)
    ensures Good(r.0) && r.0.mode == s.mode && r.0.lastPacket == s.lastPacket
  {
    var k := Taken(s.addr, |bytes|);
    (s.(addr := s.addr + k, data := s.data[..s.addr] + bytes[..k] + s.data[s.addr + k..]),
     s.addr < FrameSize && s.addr + k == FrameSize)
  }

  /** Whether a data chunk in state `s` opens a frame. */
  predicate Opens(s: Rx, bytes: seq<byte>)
  {
    s.mode == Break && FirstByte(bytes) == 0
  }

  /** One event of the UART event loop: the new state and whether a packet completed. */
  function Next(s: Rx, ev: UartEvent, now: int): (r: (Rx, bool))
    requires Good(s)
    ensures Good(r.0)
  {
    match ev
    case BreakEvent => (s.(mode := Break), false)
    case ErrorEvent => (s.(mode := Idle), false)
    case DataEvent(bytes) =>
      var s1 := if Opens(s, bytes) then s.(mode := Data, addr := 0, lastPacket := now) else s;
      if s1.mode == Data then Store(s1, bytes) else (s1, false)
  }

  /** A break moves any state to break; an error to idle; neither touches the buffer. */
  lemma BreakAndErrorModes(s: Rx, now: int)
    requires Good(s)
    ensures var r := Next(s, BreakEvent, now);
      r.0.mode == Break && !r.1 && r.0.data == s.data && r.0.addr == s.addr
    ensures var r := Next(s, ErrorEvent, now);
      r.0.mode == Idle && !r.1 && r.0.data == s.data && r.0.addr == s.addr
  {
  }

  /**
   * A data chunk in idle, or in break with a non-zero first byte, changes
   * nothing: the receiver still waits for a chunk led by the start code.
   */
  lemma IgnoredChunks(s: Rx, bytes: seq<byte>, now: int)
    requires Good(s) && (s.mode == Idle || (s.mode == Break && FirstByte(bytes) != 0))
    ensures Next(s, DataEvent(bytes), now) == (s, false)
  {
  }

  /**
   * The timestamp changes only when a chunk opens a frame, and then it is
   * the time of that chunk.
   */
  lemma TimestampOnFrameStart(s: Rx, ev: UartEvent, now: int)
    requires Good(s)
    ensures var r := Next(s, ev, now).0;
      r.lastPacket == (if ev.DataEvent? && Opens(s, ev.bytes) then now else s.lastPacket)
  {
  }

  /** The bytes of a sequence of chunks, one after the other. */
  function Flatten(chunks: seq<seq<byte>>): (b: seq<byte>)
  {
    if chunks == [] then [] else chunks[0] + Flatten(chunks[1..])
  }

  /** Data chunks fed to the receiver one after the other. */
  function Feed(s: Rx, chunks: seq<seq<byte>>, now: int): (r: Rx)
    requires Good(s)
    ensures Good(r)
    decreases |chunks|
  {
    if chunks == [] then s else Feed(Next(s, DataEvent(chunks[0]), now).0, chunks[1..], now)
  }

  /** How many of those chunks signalled a completed packet. */
  function Completions(s: Rx, chunks: seq<seq<byte>>, now: int): (n: nat)
    requires Good(s)
    decreases |chunks|
  {
    if chunks == [] then 0
    else
      var r := Next(s, DataEvent(chunks[0]), now);
      (if r.1 then 1 else 0) + Completions(r.0, chunks[1..], now)
  }

  /**
   * In data state, successive chunks fill the buffer from the current
   * offset on: the offset advances by the bytes that fit, the buffer
   * before it holds what it held followed by the chunks' bytes, and the
   * buffer after it is untouched.
   */
  lemma {:induction false} FeedAssembles(s: Rx, chunks: seq<seq<byte>>, now: int)
    requires Good(s) && s.mode == Data
    ensures var r := Feed(s, chunks, now);
      var k := Taken(s.addr, |Flatten(chunks)|);
      r.mode == Data && r.lastPacket == s.lastPacket &&
      r.addr == s.addr + k &&
      r.data[..r.addr] == s.data[..s.addr] + Flatten(chunks)[..k] &&
      r.data[r.addr..] == s.data[r.addr..]
    decreases |chunks|
  {
    if chunks != [] {
      var c := chunks[0];
      var rest := chunks[1..];
      var s1 := Next(s, DataEvent(c), now).0;
      var k1 := Taken(s.addr, |c|);
      assert s1 == Store(s, c).0;
      assert s1.addr == s.addr + k1;
      assert s1.data[..s1.addr] == s.data[..s.addr] + c[..k1];
      assert s1.data[s1.addr..] == s.data[s1.addr..];
      FeedAssembles(s1, rest, now);
      var r := Feed(s, chunks, now);
      assert r == Feed(s1, rest, now);
      var all := Flatten(chunks);
      assert all == c + Flatten(rest);
      var k := Taken(s.addr, |all|);
      var k2 := Taken(s1.addr, |Flatten(rest)|);
      assert k == k1 + k2;
      assert r.addr == s.addr + k;
      calc {
        r.data[..r.addr];
        s1.data[..s1.addr] + Flatten(rest)[..k2];
        s.data[..s.addr] + c[..k1] + Flatten(rest)[..k2];
        { assert k1 < |c| ==> k2 == 0;
          assert all[..k] == c[..k1] + Flatten(rest)[..k2]; }
        s.data[..s.addr] + all[..k];
      }
      assert r.data[r.addr..] == s1.data[r.addr..];
      assert s1.data[r.addr..] == s.data[r.addr..];
    }
  }

  /**
   * In data state, a completed packet is signalled exactly once if the
   * chunks' bytes carry the offset to the end of the buffer, and never
   * otherwise: never twice in one frame.
   */
  lemma {:induction false} CompletesOnce(s: Rx, chunks: seq<seq<byte>>, now: int)
    requires Good(s) && s.mode == Data
    ensures Completions(s, chunks, now) ==
      (if s.addr < FrameSize && s.addr + |Flatten(chunks)| >= FrameSize then 1 else 0)
    decreases |chunks|
  {
    if chunks != [] {
      var c := chunks[0];
      var r := Next(s, DataEvent(c), now);
      assert r == Store(s, c);
      assert Flatten(chunks) == c + Flatten(chunks[1..]);
      CompletesOnce(r.0, chunks[1..], now);
    }
  }

  /**
   * A frame as it arrives: a break, a chunk led by the start code at time
   * `now`, then more chunks. The buffer holds the start code and the
   * following bytes up to 513, the timestamp is the time of the frame's
   * start, and a completed packet was signalled exactly when 513 bytes
   * arrived.
   */
  lemma FrameAssembles(s: Rx, first: seq<byte>, rest: seq<seq<byte>>, now: int, later: int)
    requires Good(s) && FirstByte(first) == 0
    ensures var b := Next(s, BreakEvent, now).0;
      var o := Next(b, DataEvent(first), now);
      var r := Feed(o.0, rest, later);
      var all := Flatten([first] + rest);
      var n := Taken(0, |all|);
      r.mode == Data && r.lastPacket == now && r.addr == n && r.data[..n] == all[..n] &&
      ((if o.1 then 1 else 0) + Completions(o.0, rest, later) == 1 <==> |all| >= FrameSize)
  {
    var b := Next(s, BreakEvent, now).0;
    var started := b.(mode := Data, addr := 0, lastPacket := now);
    assert Next(b, DataEvent(first), now) == Store(started, first);
    assert Feed(started, [first] + rest, later) == Feed(Store(started, first).0, rest, later);
    FeedAssembles(started, [first] + rest, later);
    CompletesOnce(started, [first] + rest, later);
    assert Completions(started, [first] + rest, later) ==
      (if Store(started, first).1 then 1 else 0) + Completions(Store(started, first).0, rest, later);
  }

  /** `read`'s clamping of the channel to 1..512. */
  function Clamp(channel: uint16): (c: int)
    ensures 1 <= c <= MaxChannel
    ensures 1 <= channel <= MaxChannel ==> c == channel
    ensures channel < 1 ==> c == 1
    ensures channel > MaxChannel ==> c == MaxChannel
  {
    if channel < 1 then 1 else if channel > MaxChannel then MaxChannel else channel
  }

  /** The last packet started less than 500 ms before `now`. */
  predicate Healthy(lastPacket: int, now: int)
  {
    now - lastPacket < HealthyTime
  }

  /**
   * Right after a frame opened at `now`, the receiver is healthy for
   * exactly the following 500 ms, whatever it was before.
   */
  lemma HealthyAfterFrameStart(s: Rx, bytes: seq<byte>, now: int, t: int)
    requires Good(s) && Opens(s, bytes)
    ensures Healthy(Next(s, DataEvent(bytes), now).0.lastPacket, t) <==> t < now + HealthyTime
  {
    TimestampOnFrameStart(s, DataEvent(bytes), now);
  }

  /** `DMXReceiver` without its UART, queue, task and mutex. */
  class DmxReceiver {
    var uartNum: int
    var mode: RxMode
    var rxAddr: int
    var lastPacket: int
    const data: array<byte>

    predicate Valid()
      reads this
    {
      data.Length == FrameSize && 0 <= rxAddr <= FrameSize
    }

    /** The state as a value. */
    function State(): (s: Rx)
      reads this, data
      requires Valid()
      ensures Good(s)
    {
      Rx(mode, rxAddr, data[..], lastPacket)
    }

    /** No UART, idle, offset 0, no packet yet. */
    constructor ()
      ensures Valid() && fresh(data)
      ensures uartNum == -1 && mode == Idle && rxAddr == 0 && lastPacket == Never
    {
      uartNum := -1;
      mode := Idle;
      rxAddr := 0;
      lastPacket := Never;
      data := new byte[FrameSize];
    }

    /** `stop`: a started receiver lets go of its UART and goes idle; a stopped one is left as it is. */
    method Stop()
      modifies this
      ensures old(uartNum) >= 0 ==> uartNum == -1 && mode == Idle
      ensures old(uartNum) < 0 ==> uartNum == old(uartNum) && mode == old(mode)
      ensures rxAddr == old(rxAddr) && lastPacket == old(lastPacket)
    {
      if uartNum >= 0 {
        uartNum := -1;
        mode := Idle;
      }
    }

    /** `start`, its state part: stop, then take the UART. */
    method Start(uartNumber: int)
      modifies this
      ensures uartNum == uartNumber
      ensures mode == (if old(uartNum) >= 0 then Idle else old(mode))
      ensures rxAddr == old(rxAddr) && lastPacket == old(lastPacket)
    {
      Stop();
      uartNum := uartNumber;
    }

    /** `read`: the value at the channel clamped to 1..512, never the start code. */
    function Read(channel: uint16): (v: byte)
      reads this, data
      requires Valid()
      ensures 1 <= channel <= MaxChannel ==> v == data[channel]
      ensures channel < 1 ==> v == data[1]
      ensures channel > MaxChannel ==> v == data[MaxChannel]
    {
      data[Clamp(channel)]
    }

    /** `isHealthy`: a packet started less than 500 ms before `now`. */
    function IsHealthy(now: int): (r: bool)
      reads this
      ensures r <==> Healthy(lastPacket, now)
    {
      now - lastPacket < HealthyTime
    }

    /** The copy loop of a data chunk, from the current offset on. */
    method StoreChunk(bytes: seq<byte>) returns (completed: bool)
      requires Valid()
      modifies this, data
      ensures Valid()
      ensures var r := Store(old(State()), bytes);
        mode == r.0.mode && rxAddr == r.0.addr && data[..] == r.0.data && lastPacket == r.0.lastPacket &&
        completed == r.1
      ensures uartNum == old(uartNum)
    {
      ghost var addr0 := rxAddr;
      ghost var data0 := data[..];
      completed := false;
      var i := 0;
      while i < |bytes|
        invariant 0 <= i <= |bytes| && Valid()
        invariant rxAddr == addr0 + Taken(addr0, i)
        invariant data[..] == data0[..addr0] + bytes[..Taken(addr0, i)] + data0[rxAddr..]
        invariant completed == (addr0 < FrameSize && rxAddr == FrameSize)
        invariant mode == old(mode) && lastPacket == old(lastPacket) && uartNum == old(uartNum)
      {
        if rxAddr < FrameSize {
          assert Taken(addr0, i) == i && Taken(addr0, i + 1) == i + 1;
          StoreStep(data0, addr0, bytes, i);
          data[rxAddr] := bytes[i];
          rxAddr := rxAddr + 1;
          if rxAddr == FrameSize {
            completed := true;
          }
        }
        i := i + 1;
      }
    }

    /**
     * One event of `uart_event_loop`: the new state is `Next` of the old
     * one, and `completed` says whether the packet is delivered.
     */
    method HandleEvent(ev: UartEvent, now: int) returns (completed: bool)
      requires Valid()
      modifies this, data
      ensures Valid()
      ensures var r := Next(old(State()), ev, now);
        mode == r.0.mode && rxAddr == r.0.addr && data[..] == r.0.data && lastPacket == r.0.lastPacket &&
        completed == r.1
      ensures uartNum == old(uartNum)
    {
      completed := false;
      match ev
      case BreakEvent =>
        mode := Break;
      case ErrorEvent =>
        mode := Idle;
      case DataEvent(bytes) =>
        if mode == Break && FirstByte(bytes) == 0 {
          mode := Data;
          rxAddr := 0;
          lastPacket := now;
        }
        if mode == Data {
          completed := StoreChunk(bytes);
        }
    }
  }
}
