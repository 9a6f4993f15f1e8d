/**
 * The line-sampling half of dht_read_float_data. After the start pulse the
 * data line is only ever read: each gpio_get_level call takes the next
 * sample of an abstract stream of levels, and each wait loop gives up
 * after 101 consecutive samples of the level it is waiting out. The timer
 * differences that measure the 40 high pulses are abstract naturals.
 */
module DhtRead {
  import opened Esp
  import opened DhtDecode

  type Level = l: int | 0 <= l <= 1

  /** The levels successive gpio_get_level calls return, from the first read
      after the line is switched to input. */
  type Line = nat -> Level

  /** A wait loop gives up once its counter exceeds this. */
  const WAIT_LIMIT: nat := 100

  /** The three handshake waits and the two waits of each of the 40 bits. */
  const WAIT_COUNT: nat := 3 + 2 * FRAME_BITS

  /** The most samples one read can take. */
  const MAX_SAMPLES: nat := WAIT_COUNT * (WAIT_LIMIT + 1)

  /** How a wait loop ended, and the position of the first sample it left
      unread. */
  datatype Poll = Poll(timedOut: bool, next: nat)

  /** A wait that has already seen `count` samples equal to `level`, starting
      at `pos`. */
  function WaitFrom(line: Line, level: Level, pos: nat, count: nat): Poll
    requires count <= WAIT_LIMIT
    decreases WAIT_LIMIT - count
  {
    if line(pos + count) != level then Poll(false, pos + count + 1)
    else if count + 1 > WAIT_LIMIT then Poll(true, pos + count + 1)
    else WaitFrom(line, level, pos, count + 1)
  }

  /** `while (gpio_get_level(pin) == level)` with its timeout counter. */
  function Wait(line: Line, level: Level, pos: nat): Poll
  {
    WaitFrom(line, level, pos, 0)
  }

  /** The 101 samples from `pos` on all show `level`. */
  predicate Stuck(line: Line, level: Level, pos: nat)
  {
    forall k :: pos <= k <= pos + WAIT_LIMIT ==> line(k) == level
  }

  lemma {:induction false} WaitFromMeaning(line: Line, level: Level, pos: nat, count: nat)
    requires count <= WAIT_LIMIT
    requires forall k :: pos <= k < pos + count ==> line(k) == level
    ensures var w := WaitFrom(line, level, pos, count);
            && (w.timedOut <==> Stuck(line, level, pos))
            && (w.timedOut ==> w.next == pos + WAIT_LIMIT + 1)
            && (!w.timedOut ==> && pos < w.next <= pos + WAIT_LIMIT + 1
                                && line(w.next - 1) != level
                                && forall k :: pos <= k < w.next - 1 ==> line(k) == level)
    decreases WAIT_LIMIT - count
  {
    if line(pos + count) != level {
    } else if count + 1 > WAIT_LIMIT {
    } else {
      WaitFromMeaning(line, level, pos, count + 1);
    }
  }

  /** A wait times out exactly when the next 101 samples all show the level it
      waits out, and then it has taken those 101; otherwise it stops at the
      first other sample, taking everything up to and including it. */
  lemma WaitMeaning(line: Line, level: Level, pos: nat)
    ensures var w := Wait(line, level, pos);
            && (w.timedOut <==> Stuck(line, level, pos))
            && (w.timedOut ==> w.next == pos + WAIT_LIMIT + 1)
            && (!w.timedOut ==> && pos < w.next <= pos + WAIT_LIMIT + 1
                                && line(w.next - 1) != level
                                && forall k :: pos <= k < w.next - 1 ==> line(k) == level)
  {
    WaitFromMeaning(line, level, pos, 0);
  }

  /** One wait loop of dht_read_float_data: reads samples while they show
      `level`, and reports a timeout when the counter passes WAIT_LIMIT. */
  method WaitWhile(line: Line, level: Level, pos: nat) returns (timedOut: bool, next: nat)
    ensures Poll(timedOut, next) == Wait(line, level, pos)
    ensures timedOut <==> Stuck(line, level, pos)
  {
    WaitMeaning(line, level, pos);
    var timeout: nat := 0;
    var sample := line(pos);
    next := pos + 1;
    while sample == level
      invariant timeout <= WAIT_LIMIT
      invariant next == pos + timeout + 1 && sample == line(pos + timeout)
      invariant WaitFrom(line, level, pos, timeout) == Wait(line, level, pos)
      decreases WAIT_LIMIT - timeout
    {
      timeout := timeout + 1;
      if timeout > WAIT_LIMIT {
        return true, next;
      }
      sample := line(next);
      next := next + 1;
    }
    timedOut := false;
  }

  /** The sensor's response: the line leaves high, leaves low, leaves high. */
  function Handshake(line: Line, pos: nat): Poll
  {
    var response := Wait(line, 1, pos);
    if response.timedOut then response
    else
      var low := Wait(line, 0, response.next);
      if low.timedOut then low
      else Wait(line, 1, low.next)
  }

  /** Bits k .. 39: each waits out a low phase and then a high phase. */
  function BitsFrom(line: Line, pos: nat, k: nat): Poll
    requires k <= FRAME_BITS
    decreases FRAME_BITS - k
  {
    if k == FRAME_BITS then Poll(false, pos)
    else
      var low := Wait(line, 0, pos);
      if low.timedOut then low
      else
        var high := Wait(line, 1, low.next);
        if high.timedOut then high
        else BitsFrom(line, high.next, k + 1)
  }

  /** The 40 timer differences, `measured(k)` being the k-th high pulse's. */
  function Measured(measured: nat -> nat): (ds: seq<nat>)
    ensures |ds| == FRAME_BITS
  {
    seq(FRAME_BITS, k requires 0 <= k < FRAME_BITS => measured(k))
  }

  /** What a read produced and the position of the first sample it left. */
  datatype Received<T> = Received(result: Result<T>, next: nat)

  /** The handshake and then the 40 bits: a timeout if any of their waits
      times out. */
  function Arrival(line: Line, pos: nat): Poll
  {
    var handshake := Handshake(line, pos);
    if handshake.timedOut then handshake
    else BitsFrom(line, handshake.next, 0)
  }

  /** The frame a read receives: a timeout if the handshake or any bit times
      out, otherwise the packed durations. */
  function Receive(line: Line, pos: nat, measured: nat -> nat): Received<Frame>
  {
    var arrival := Arrival(line, pos);
    if arrival.timedOut then Received(Failure(ErrTimeout), arrival.next)
    else Received(Success(Pack(Measured(measured))), arrival.next)
  }

  /** The whole of dht_read_float_data after the start pulse. */
  function Read(t: DhtType, line: Line, pos: nat, measured: nat -> nat): (r: Received<Reading>)
    ensures r.result.Failure? ==> r.result.error == ErrTimeout || r.result.error == ErrInvalidCrc
    ensures r.next == Arrival(line, pos).next
  {
    var received := Receive(line, pos, measured);
    match received.result
    case Failure(e) => Received(Failure(e), received.next)
    case Success(f) => Received(Decode(t, f), received.next)
  }

  function StatusOf<T>(r: Result<T>): EspErr
  {
    if r.Success? then Ok else r.error
  }

  /** The three handshake waits. */
  method AwaitResponse(line: Line, pos: nat) returns (timedOut: bool, next: nat)
    ensures Poll(timedOut, next) == Handshake(line, pos)
  {
    timedOut, next := WaitWhile(line, 1, pos);
    if timedOut {
      return;
    }
    timedOut, next := WaitWhile(line, 0, next);
    if timedOut {
      return;
    }
    timedOut, next := WaitWhile(line, 1, next);
  }

  /** Bit k: waits out the low phase, then the high phase whose length the
      timer measures. */
  method ReadBit(line: Line, pos: nat, k: nat) returns (timedOut: bool, next: nat)
    requires k < FRAME_BITS
    ensures timedOut ==> BitsFrom(line, pos, k) == Poll(true, next)
    ensures !timedOut ==> BitsFrom(line, pos, k) == BitsFrom(line, next, k + 1)
  {
    timedOut, next := WaitWhile(line, 0, pos);
    if timedOut {
      return;
    }
    timedOut, next := WaitWhile(line, 1, next);
  }

  /** `if (duration > 50) data[i] |= (1 << (7 - j))` on the byte being
      built. */
  method SetBitIfOne(ds: seq<nat>, i: nat, j: nat, byte: bv8, duration: nat) returns (updated: bv8)
    requires |ds| == FRAME_BITS && i < FRAME_BYTES && j < 8
    requires byte == PackPrefix(ds, i, j) && duration == ds[8 * i + j]
    ensures updated == PackPrefix(ds, i, j + 1)
  {
    PackPrefixStep(ds, i, j);
    updated := byte;
    if IsOneBit(duration) {
      updated := byte | BitMask(j);
    }
  }

  /** Bit j of byte i: reads it off the line and, when its high pulse
      lasted over the threshold, sets it in the byte. */
  method ReadDataBit(line: Line, pos: nat, measured: nat -> nat, i: nat, j: nat, byte: bv8)
    returns (timedOut: bool, updated: bv8, next: nat)
    requires i < FRAME_BYTES && j < 8
    requires byte == PackPrefix(Measured(measured), i, j)
    ensures timedOut ==> BitsFrom(line, pos, 8 * i + j) == Poll(true, next)
    ensures !timedOut ==> && BitsFrom(line, pos, 8 * i + j) == BitsFrom(line, next, 8 * i + j + 1)
                          && updated == PackPrefix(Measured(measured), i, j + 1)
  {
    var k := 8 * i + j;
    timedOut, next := ReadBit(line, pos, k);
    updated := byte;
    if timedOut {
      return;
    }
    updated := SetBitIfOne(Measured(measured), i, j, byte, measured(k));
  }

  /** The inner loop of the bit reader: reads bits 8i .. 8i+7 and OR-s each
      1 bit into a zeroed byte, most significant bit first. */
  method ReadByte(line: Line, pos: nat, measured: nat -> nat, i: nat)
    returns (timedOut: bool, byte: bv8, next: nat)
    requires i < FRAME_BYTES
    ensures timedOut ==> BitsFrom(line, pos, 8 * i) == Poll(true, next)
    ensures !timedOut ==> && BitsFrom(line, pos, 8 * i) == BitsFrom(line, next, 8 * i + 8)
                          && byte == PackPrefix(Measured(measured), i, 8)
  {
    byte, next := 0, pos;
    for j := 0 to 8
      invariant BitsFrom(line, next, 8 * i + j) == BitsFrom(line, pos, 8 * i)
      invariant byte == PackPrefix(Measured(measured), i, j)
    {
      timedOut, byte, next := ReadDataBit(line, next, measured, i, j, byte);
      if timedOut {
        return;
      }
    }
    timedOut := false;
  }

  /** The buffer once its first n bytes are complete: bytes n .. 4 still zero. */
  ghost function PackedBytes(ds: seq<nat>, n: nat): (bv8, bv8, bv8, bv8, bv8)
    requires |ds| == FRAME_BITS && n <= FRAME_BYTES
  {
    (if n > 0 then PackPrefix(ds, 0, 8) else 0,
          if n > 1 then PackPrefix(ds, 1, 8) else 0,
          if n > 2 then PackPrefix(ds, 2, 8) else 0,
          if n > 3 then PackPrefix(ds, 3, 8) else 0,
          if n > 4 then PackPrefix(ds, 4, 8) else 0)
  }

  /** Reads the 40 data bits into a zeroed 5-byte buffer. */
  method ReadBits(line: Line, pos: nat, measured: nat -> nat) returns (timedOut: bool, frame: Frame, next: nat)
    ensures Poll(timedOut, next) == BitsFrom(line, pos, 0)
    ensures !timedOut ==> frame == Pack(Measured(measured))
  {
    ghost var ds := Measured(measured);
    var data := new bv8[FRAME_BYTES](_ => 0);
    next := pos;
    for i := 0 to FRAME_BYTES
      invariant BitsFrom(line, next, 8 * i) == BitsFrom(line, pos, 0)
      invariant (data[0], data[1], data[2], data[3], data[4]) == PackedBytes(ds, i)
    {
      var byte;
      timedOut, byte, next := ReadByte(line, next, measured, i);
      if timedOut {
        return true, Frame(0, 0, 0, 0, 0), next;
      }
      data[i] := byte;
    }
    assert BitsFrom(line, next, FRAME_BITS) == Poll(false, next);
    timedOut := false;
    frame := Frame(Value(data[0]), Value(data[1]), Value(data[2]), Value(data[3]), Value(data[4]));
  }

  /** The handshake followed by the 40 data bits. */
  method ReadFrame(line: Line, pos: nat, measured: nat -> nat) returns (result: Result<Frame>, next: nat)
    ensures Received(result, next) == Receive(line, pos, measured)
  {
    var timedOut, frame;
    timedOut, next := AwaitResponse(line, pos);
    if timedOut {
      return Failure(ErrTimeout), next;
    }
    timedOut, frame, next := ReadBits(line, next, measured);
    if timedOut {
      return Failure(ErrTimeout), next;
    }
    result := Success(frame);
  }

  /** The float an output pointer refers to; the model keeps tenths. */
  class Cell {
    var value: int

    constructor (v: int)
      ensures value == v
    {
      value := v;
    }
  }

  /** dht_read_float_data from the first response sample on: receives a
      frame, checks its checksum, and only then writes both outputs. */
  method ReadFloatData(t: DhtType, line: Line, pos: nat, measured: nat -> nat,
                       humidity: Cell, temperature: Cell) returns (err: EspErr, next: nat)
    modifies humidity, temperature
    ensures var spec := Read(t, line, pos, measured);
            && err == StatusOf(spec.result)
            && next == spec.next
            && (spec.result.Success? ==>
                  && temperature.value == spec.result.value.temperature
                  && (humidity != temperature ==> humidity.value == spec.result.value.humidity))
            && (spec.result.Failure? ==> unchanged(humidity, temperature))
  {
    var received;
    received, next := ReadFrame(line, pos, measured);
    if received.Failure? {
      return received.error, next;
    }
    var data := received.value;
    if Checksum(data) != data.b4 {
      return ErrInvalidCrc, next;
    }
    var reading := Convert(t, data);
    humidity.value := reading.humidity;
    temperature.value := reading.temperature;
    err := Ok;
  }

  /** A wait takes at least one sample and at most WAIT_LIMIT + 1. */
  lemma WaitSamples(line: Line, level: Level, pos: nat)
    ensures pos < Wait(line, level, pos).next <= pos + WAIT_LIMIT + 1
  {
    WaitMeaning(line, level, pos);
  }

  /** Bits k .. 39 take at least two samples per bit when they all arrive,
      and never more than two full waits per bit. */
  lemma {:induction false} BitsFromSamples(line: Line, pos: nat, k: nat)
    requires k <= FRAME_BITS
    ensures var b := BitsFrom(line, pos, k);
            && pos <= b.next <= pos + 2 * (FRAME_BITS - k) * (WAIT_LIMIT + 1)
            && (!b.timedOut ==> pos + 2 * (FRAME_BITS - k) <= b.next)
    decreases FRAME_BITS - k
  {
    if k < FRAME_BITS {
      var low := Wait(line, 0, pos);
      WaitSamples(line, 0, pos);
      if !low.timedOut {
        WaitSamples(line, 1, low.next);
        var high := Wait(line, 1, low.next);
        if !high.timedOut {
          BitsFromSamples(line, high.next, k + 1);
        }
      }
    }
  }

  /** The handshake takes between one and three full waits of samples, and at
      least three samples when it succeeds. */
  lemma HandshakeSamples(line: Line, pos: nat)
    ensures var h := Handshake(line, pos);
            && pos < h.next <= pos + 3 * (WAIT_LIMIT + 1)
            && (!h.timedOut ==> pos + 3 <= h.next)
  {
    var response := Wait(line, 1, pos);
    WaitSamples(line, 1, pos);
    if !response.timedOut {
      var low := Wait(line, 0, response.next);
      WaitSamples(line, 0, response.next);
      if !low.timedOut {
        WaitSamples(line, 1, low.next);
      }
    }
  }

  lemma ArrivalSamples(line: Line, pos: nat)
    ensures var a := Arrival(line, pos);
            && pos < a.next <= pos + MAX_SAMPLES
            && (!a.timedOut ==> pos + WAIT_COUNT <= a.next)
  {
    assert MAX_SAMPLES == 3 * (WAIT_LIMIT + 1) + 2 * FRAME_BITS * (WAIT_LIMIT + 1) == 8383;
    var h := Handshake(line, pos);
    HandshakeSamples(line, pos);
    if !h.timedOut {
      BitsFromSamples(line, h.next, 0);
    }
  }

  /** However the line behaves, a read takes at least one sample and at most
      MAX_SAMPLES of them; a successful read takes at least one per wait. */
  lemma ReadSamples(t: DhtType, line: Line, pos: nat, measured: nat -> nat)
    ensures var r := Read(t, line, pos, measured);
            && pos < r.next <= pos + MAX_SAMPLES
            && (r.result.Success? ==> pos + WAIT_COUNT <= r.next)
  {
    ArrivalSamples(line, pos);
  }

  /** The three results dht_read_float_data can give, and when it gives each:
      a timeout when some wait times out, a checksum error when all 40 bits
      arrive but byte 4 is not their checksum, and otherwise the conversion
      of the received frame. */
  lemma ReadOutcome(t: DhtType, line: Line, pos: nat, measured: nat -> nat)
    ensures var r := Read(t, line, pos, measured);
            var arrived := !Arrival(line, pos).timedOut;
            var f := Pack(Measured(measured));
            && (r.result == Failure(ErrTimeout) <==> !arrived)
            && (r.result == Failure(ErrInvalidCrc) <==> arrived && Checksum(f) != f.b4)
            && (r.result.Success? <==> arrived && Checksum(f) == f.b4)
            && (r.result.Success? ==> r.result.value == Convert(t, f))
  {
  }

  /** With no sensor attached the pull-up holds the line high: the first wait
      times out after 101 samples. */
  lemma NoSensorTimesOut(t: DhtType, line: Line, pos: nat, measured: nat -> nat)
    requires forall k :: line(k) == 1
    ensures Read(t, line, pos, measured) == Received(Failure(ErrTimeout), pos + WAIT_LIMIT + 1)
  {
    WaitMeaning(line, 1, pos);
  }
}
