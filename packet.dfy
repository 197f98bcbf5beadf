/** The 5-byte "Tower to PC Protocol" packets of Sources/Packet.c: a command byte, three
    parameter bytes and a checksum byte, read from the UART receive FIFO and written to the
    UART transmit FIFO. */
module Packet {
  import opened Types
  import opened Fifo

  // ---------------------------------------------------------------------------------------
  // The receive state machine as a function of the input bytes

  /** The static `state` of Packet_Get and the five global packet fields. */
  datatype Fields = Fields(state: nat, command: byte, parameter1: byte, parameter2: byte,
                           parameter3: byte, checksum: byte)

  /** The checksum test of Packet_Get as C parses it: `==` binds tighter than `^`, so the
      last operand of the XOR chain is the truth value of parameter3 == checksum, and the
      whole chain is taken as true when it is not zero. It therefore rejects a packet only
      when command ^ parameter1 ^ parameter2 is exactly 1 with parameter3 == checksum, or
      exactly 0 with parameter3 != checksum. */
  predicate ChecksumTest(f: Fields)
    ensures !ChecksumTest(f) <==>
              f.command ^ f.parameter1 ^ f.parameter2 == if f.parameter3 == f.checksum then 1 else 0
  {
    var x, t := f.command ^ f.parameter1 ^ f.parameter2, if f.parameter3 == f.checksum then 1 else 0;
    XorZero(x, t);
    x ^ t != 0
  }

  /** Two bytes are equal exactly when their XOR is zero. */
  lemma XorZero(x: byte, y: byte)
    ensures x ^ y == 0 <==> x == y
  {
  }

  /** XOR with the same byte twice cancels. */
  lemma XorCancel(x: byte, y: byte)
    ensures (x ^ y) ^ y == x
  {
  }

  /** The relation the protocol defines: the checksum is the XOR of the other four bytes. */
  predicate ChecksumMatches(f: Fields)
  {
    f.command ^ f.parameter1 ^ f.parameter2 ^ f.parameter3 == f.checksum
  }

  /** The byte x, read in state 4 as the checksum, passes the test of case 5 and so
      completes a packet. */
  predicate Completes(f: Fields, x: byte)
  {
    f.state == 4 && ChecksumTest(f.(checksum := x))
  }

  /** One byte through the switch of Packet_Get: states 0 to 3 store it into the next field;
      state 4 stores it as the checksum and falls through into the test of case 5, which
      either ends the packet (back to state 0) or slides the three parameters down by one
      byte and stays in state 4. */
  function Step(f: Fields, x: byte): (g: Fields)
    requires f.state <= 4
    ensures g.state <= 4
  {
    if f.state == 0 then f.(command := x, state := 1)
    else if f.state == 1 then f.(parameter1 := x, state := 2)
    else if f.state == 2 then f.(parameter2 := x, state := 3)
    else if f.state == 3 then f.(parameter3 := x, state := 4)
    else if Completes(f, x) then f.(checksum := x, state := 0)
    else f.(parameter1 := f.parameter2, parameter2 := f.parameter3, parameter3 := x,
            checksum := x, state := 4)
  }

  /** What one call of Packet_Get does with the bytes waiting in the receive FIFO. */
  datatype Outcome = Outcome(fields: Fields, accepted: bool, used: nat)

  /** One call of Packet_Get on the queued bytes `input`: it consumes bytes until one
      completes a packet or the queue runs dry. */
  function Receive(f: Fields, input: seq<byte>): (o: Outcome)
    requires f.state <= 4
    ensures o.used <= |input| && o.fields.state <= 4
    ensures o.accepted ==> 0 < o.used && o.fields.state == 0
    ensures !o.accepted ==> o.used == |input|
    decreases |input|
  {
    if input == [] then Outcome(f, false, 0)
    else if Completes(f, input[0]) then Outcome(Step(f, input[0]), true, 1)
    else var o := Receive(Step(f, input[0]), input[1..]); o.(used := o.used + 1)
  }

  /** The bytes Packet_Put queues for one packet: the command and the three parameters in
      order, then a checksum byte that makes the frame carry the checksum the protocol
      defines. */
  function FrameBytes(command: byte, parameter1: byte, parameter2: byte, parameter3: byte)
    : (frame: seq<byte>)
    ensures |frame| == 5 && frame[..4] == [command, parameter1, parameter2, parameter3]
    ensures ChecksumMatches(Fields(0, frame[0], frame[1], frame[2], frame[3], frame[4]))
  {
    [command, parameter1, parameter2, parameter3, command ^ parameter1 ^ parameter2 ^ parameter3]
  }

  /** Packet_Put stops at the first byte the transmit FIFO refuses: this is how many of the
      five it queues when `count` bytes are already waiting. */
  function Queued(count: nat): (n: nat)
    requires count <= FifoSize
    ensures n <= 5 && (n == 5 <==> count + 5 <= FifoSize)
    ensures n < 5 ==> count + n == FifoSize
  {
    if count + 5 <= FifoSize then 5 else FifoSize - count
  }

  // ---------------------------------------------------------------------------------------
  // Properties of the receive state machine

  /** The test as written accepts every packet whose checksum is right. */
  lemma MatchingPassesTest(f: Fields)
    requires ChecksumMatches(f)
    ensures ChecksumTest(f)
  {
    var x := f.command ^ f.parameter1 ^ f.parameter2;
    XorCancel(x, f.parameter3);
    XorZero(f.checksum, f.parameter3);
  }

  /** ... but it also accepts packets whose checksum is wrong: 1, 0, 0, 0 with checksum 5. */
  lemma CorruptPacketPassesTest()
    ensures var f := Fields(4, 1, 0, 0, 0, 5);
            !ChecksumMatches(f) && ChecksumTest(f)
    ensures Receive(Fields(0, 0, 0, 0, 0, 0), [1, 0, 0, 0, 5]) == Outcome(Fields(0, 1, 0, 0, 0, 5), true, 5)
  {
  }

  /** The test does not bring a receiver that has lost a byte back into step: with the first
      byte of the two frames Packet_Put builds for 5, 6, 7, 8 and 9, 0, 0, 0 missing, the
      next call accepts the misaligned bytes 6, 7, 8, 12 with checksum 9, which does not
      match, and leaves the rest of the second frame to be read as the start of a packet. */
  lemma ShiftedStreamAccepted()
    ensures var stream := (FrameBytes(5, 6, 7, 8) + FrameBytes(9, 0, 0, 0))[1..];
            && stream == [6, 7, 8, 12, 9, 0, 0, 0, 9]
            && Receive(Fields(0, 0, 0, 0, 0, 0), stream) == Outcome(Fields(0, 6, 7, 8, 12, 9), true, 5)
            && !ChecksumMatches(Fields(0, 6, 7, 8, 12, 9))
  {
    var tail: seq<byte> := [9, 0, 0, 0, 9];
    assert (FrameBytes(5, 6, 7, 8) + FrameBytes(9, 0, 0, 0))[1..] == [6, 7, 8, 12] + tail;
    Header(Fields(0, 0, 0, 0, 0, 0), 6, 7, 8, 12, tail);
    var g4 := Fields(4, 6, 7, 8, 12, 0);
    assert ChecksumTest(g4.(checksum := 9));
    ReceiveDone(g4, tail);
  }

  /** A packet is accepted only when its last byte, read in state 4, passes the test; the
      fields then hold that byte as the checksum. */
  lemma {:induction false} AcceptedPassesTest(f: Fields, input: seq<byte>)
    requires f.state <= 4
    ensures var o := Receive(f, input);
            o.accepted ==> ChecksumTest(o.fields) && o.fields.checksum == input[o.used - 1]
    decreases |input|
  {
    if input != [] {
      var x := input[0];
      if Completes(f, x) {
        ReceiveDone(f, input);
        assert Step(f, x) == f.(checksum := x).(state := 0);
        TestIgnoresState(f.(checksum := x), 0);
      } else {
        var g := Step(f, x);
        AcceptedPassesTest(g, input[1..]);
        ReceiveNext(f, input);
        var o := Receive(g, input[1..]);
        if o.accepted {
          assert input[1..][o.used - 1] == input[o.used];
        }
      }
    }
  }

  /** The test reads the packet fields only, not the state. */
  lemma TestIgnoresState(f: Fields, state: nat)
    ensures ChecksumTest(f.(state := state)) == ChecksumTest(f)
  {
  }

  /** Packet_Get is resumable: bytes that arrive in two batches, the first of which does not
      complete a packet, are read as if they had arrived together. */
  lemma {:induction false} Resumable(f: Fields, a: seq<byte>, b: seq<byte>)
    requires f.state <= 4 && !Receive(f, a).accepted
    ensures var o := Receive(Receive(f, a).fields, b);
            Receive(f, a + b) == o.(used := |a| + o.used)
    decreases |a|
  {
    if a == [] {
      assert a + b == b;
    } else {
      var g := Step(f, a[0]);
      assert (a + b)[0] == a[0] && (a + b)[1..] == a[1..] + b;
      Resumable(g, a[1..], b);
    }
  }

  /** A failed test in state 4 slides the window: the command stays, the parameters move down
      one byte and the byte just read becomes the third parameter. */
  lemma Resync(f: Fields, x: byte, rest: seq<byte>)
    requires f.state == 4 && !ChecksumTest(f.(checksum := x))
    ensures var g := Fields(4, f.command, f.parameter2, f.parameter3, x, x);
            var o := Receive(g, rest);
            Receive(f, [x] + rest) == o.(used := o.used + 1)
  {
    assert ([x] + rest)[0] == x && ([x] + rest)[1..] == rest;
  }

  /** Round trip: from any state 0, the five bytes Packet_Put queues are read back as exactly
      that packet, whatever follows them. */
  lemma RoundTrip(f: Fields, command: byte, parameter1: byte, parameter2: byte,
                  parameter3: byte, rest: seq<byte>)
    requires f.state == 0
    ensures var ck := command ^ parameter1 ^ parameter2 ^ parameter3;
            Receive(f, FrameBytes(command, parameter1, parameter2, parameter3) + rest)
              == Outcome(Fields(0, command, parameter1, parameter2, parameter3, ck), true, 5)
  {
    var ck := command ^ parameter1 ^ parameter2 ^ parameter3;
    var g4 := Fields(4, command, parameter1, parameter2, parameter3, f.checksum);
    var tail := [ck] + rest;
    assert FrameBytes(command, parameter1, parameter2, parameter3) + rest
           == [command, parameter1, parameter2, parameter3] + tail;
    Header(f, command, parameter1, parameter2, parameter3, tail);
    MatchingPassesTest(g4.(checksum := ck));
    ReceiveDone(g4, tail);
  }

  /** The four bytes read in states 0 to 3 fill the command and parameters and leave the
      machine in state 4. */
  lemma Header(f: Fields, command: byte, parameter1: byte, parameter2: byte,
               parameter3: byte, tail: seq<byte>)
    requires f.state == 0
    ensures Receive(f, [command, parameter1, parameter2, parameter3] + tail)
            == Resumed(Receive(Fields(4, command, parameter1, parameter2, parameter3, f.checksum), tail), 4)
  {
    var s := [command, parameter1, parameter2, parameter3] + tail;
    var g1 := f.(command := command, state := 1);
    var g2 := g1.(parameter1 := parameter1, state := 2);
    var g3 := g2.(parameter2 := parameter2, state := 3);
    var g4 := g3.(parameter3 := parameter3, state := 4);
    assert s[0] == command && s[1..][0] == parameter1 && s[2..][0] == parameter2;
    assert s[3..][0] == parameter3 && s[4..] == tail;
    assert s[1..][1..] == s[2..] && s[2..][1..] == s[3..] && s[3..][1..] == s[4..];
    ReceiveNext(g3, s[3..]);
    ReceiveNext(g2, s[2..]);
    ReceiveNext(g1, s[1..]);
    ReceiveNext(f, s);
  }

  /** The outcome of a call that had already consumed `used` bytes before reaching `o`. */
  function Resumed(o: Outcome, used: nat): Outcome
  {
    o.(used := used + o.used)
  }

  /** With no byte queued, Packet_Get returns false and changes nothing. */
  lemma ReceiveEmpty(f: Fields, input: seq<byte>)
    requires f.state <= 4 && input == []
    ensures Receive(f, input) == Outcome(f, false, 0)
  {
  }

  /** A byte that completes a packet ends the call. */
  lemma ReceiveDone(f: Fields, input: seq<byte>)
    requires f.state <= 4 && input != [] && Completes(f, input[0])
    ensures Receive(f, input) == Outcome(Step(f, input[0]), true, 1)
  {
  }

  /** Any other byte moves the machine on by one step. */
  lemma ReceiveNext(f: Fields, input: seq<byte>)
    requires f.state <= 4 && input != [] && !Completes(f, input[0])
    ensures Receive(f, input) == Resumed(Receive(Step(f, input[0]), input[1..]), 1)
  {
  }

  /** One more byte that does not complete a packet: the outcome of the whole call is that of
      the rest of the input from the next state. */
  lemma Advance(start: Fields, input: seq<byte>, used: nat, f: Fields)
    requires start.state <= 4 && f.state <= 4 && used < |input|
    requires !Completes(f, input[used])
    requires Receive(start, input) == Resumed(Receive(f, input[used..]), used)
    ensures Receive(start, input)
            == Resumed(Receive(Step(f, input[used]), input[used + 1..]), used + 1)
  {
    assert input[used..][1..] == input[used + 1..];
    ReceiveNext(f, input[used..]);
  }

  // ---------------------------------------------------------------------------------------
  // The packet module's state

  /** The packet layer over the UART's two FIFOs. */
  class PacketChannel {
    var state: nat
    var command: byte
    var parameter1: byte
    var parameter2: byte
    var parameter3: byte
    var checksum: byte
    const rx: TFifo   // RxFIFO, which UART_InChar reads
    const tx: TFifo   // TxFIFO, which UART_OutChar writes

    ghost predicate Valid()
      reads this, rx, tx
    {
      && rx.Valid() && tx.Valid() && rx != tx && rx.buffer != tx.buffer
      && state <= 4
    }

    /** The static state and the packet fields together. */
    ghost function Snapshot(): Fields
      reads this
    {
      Fields(state, command, parameter1, parameter2, parameter3, checksum)
    }

    /** The packet globals start zeroed, as C static storage does, over the UART's FIFOs. */
    constructor (rx: TFifo, tx: TFifo)
      requires rx.Valid() && tx.Valid() && rx != tx && rx.buffer != tx.buffer
      ensures Valid() && this.rx == rx && this.tx == tx
      ensures Snapshot() == Fields(0, 0, 0, 0, 0, 0)
    {
      this.rx, this.tx := rx, tx;
      state, command, parameter1, parameter2, parameter3, checksum := 0, 0, 0, 0, 0, 0;
    }

    /** Packet_Init through UART_Init: empties both FIFOs; the UART registers are not
        modelled. */
    method Init() returns (ok: bool)
      requires Valid()
      modifies tx, rx
      ensures Valid() && ok
      ensures tx.Contents() == [] && rx.Contents() == []
    {
      ok := tx.Init();
      if ok {
        ok := rx.Init();
      }
    }

    /** Packet_Get: reads bytes from the receive FIFO until a packet is complete (true) or the
        FIFO is empty (false, to be resumed by the next call). */
    method Get() returns (accepted: bool)
      requires Valid()
      modifies this, rx
      ensures Valid()
      ensures var o := Receive(old(Snapshot()), old(rx.Contents()));
              && Snapshot() == o.fields && accepted == o.accepted
              && rx.Contents() == old(rx.Contents())[o.used..]
    {
      ghost var input := rx.Contents();
      ghost var used := 0;
      while true
        invariant Valid()
        invariant used <= |input| && rx.Contents() == input[used..]
        invariant Receive(old(Snapshot()), input) == Resumed(Receive(Snapshot(), rx.Contents()), used)
        decreases rx.nbBytes
      {
        ghost var before := Snapshot();
        ghost var rest := rx.Contents();
        var more, done := Next();
        if !more {
          ReceiveEmpty(before, rest);
          return false;
        }
        if done {
          ReceiveDone(before, rest);
          used := used + 1;
          return true;
        }
        Advance(old(Snapshot()), input, used, before);
        used := used + 1;
      }
    }

    /** One pass of the body of Packet_Get's `for (;;)`, the switch on `state`: `more` is
        false when UART_InChar finds no byte (Packet_Get then returns false) and `done` is true
        when the byte read completes a packet (Packet_Get then returns true). */
    method Next() returns (more: bool, done: bool)
      requires Valid()
      modifies this, rx
      ensures Valid() && rx.nbBytes <= old(rx.nbBytes)
      ensures more <==> old(rx.Contents()) != []
      ensures !more ==> !done && Snapshot() == old(Snapshot()) && rx.Contents() == old(rx.Contents())
      ensures more ==> && Snapshot() == Step(old(Snapshot()), old(rx.Contents())[0])
                       && (done <==> Completes(old(Snapshot()), old(rx.Contents())[0]))
                       && rx.Contents() == old(rx.Contents())[1..]
                       && rx.nbBytes < old(rx.nbBytes)
    {
      if state == 0 {
        more, command := InChar(rx, command);
        if !more {
          return false, false;
        }
        state := 1;
      } else if state == 1 {
        more, parameter1 := InChar(rx, parameter1);
        if !more {
          return false, false;
        }
        state := 2;
      } else if state == 2 {
        more, parameter2 := InChar(rx, parameter2);
        if !more {
          return false, false;
        }
        state := 3;
      } else if state == 3 {
        more, parameter3 := InChar(rx, parameter3);
        if !more {
          return false, false;
        }
        state := 4;
      } else {
        more, checksum := InChar(rx, checksum);
        if !more {
          return false, false;
        }
        if ChecksumTest(Fields(state, command, parameter1, parameter2, parameter3, checksum)) {
          state := 0;
          return true, true;
        }
        parameter1 := parameter2;
        parameter2 := parameter3;
        parameter3 := checksum;
        state := 4;
      }
      done := false;
    }
  }

  /** UART_InChar: FIFO_Get on the receive FIFO. `current` is the byte the destination held,
      kept when the FIFO is empty. */
  method InChar(rx: TFifo, current: byte) returns (ok: bool, data: byte)
    requires rx.Valid()
    modifies rx
    ensures rx.Valid()
    ensures ok <==> old(rx.Contents()) != []
    ensures ok ==> data == old(rx.Contents())[0] && rx.Contents() == old(rx.Contents())[1..]
                   && rx.nbBytes < old(rx.nbBytes)
    ensures !ok ==> data == current && rx.Contents() == old(rx.Contents())
  {
    ok, data := rx.Get(current);
  }

  /** UART_OutChar: FIFO_Put on the transmit FIFO. Setting the transmit interrupt enable bit
      on success is not modelled. */
  method OutChar(tx: TFifo, data: byte) returns (ok: bool)
    requires tx.Valid()
    modifies tx, tx.buffer
    ensures tx.Valid()
    ensures ok <==> old(tx.nbBytes) < FifoSize
    ensures tx.nbBytes == if ok then old(tx.nbBytes) + 1 else old(tx.nbBytes)
    ensures tx.Contents() == if ok then old(tx.Contents()) + [data] else old(tx.Contents())
  {
    ok := tx.Put(data);
  }

  /** Packet_Put: queues command, the three parameters and their XOR checksum on the
      transmit FIFO; the `&&` chain stops at the first byte the FIFO refuses. */
  method Put(tx: TFifo, command: byte, parameter1: byte, parameter2: byte, parameter3: byte)
    returns (ok: bool)
    requires tx.Valid()
    modifies tx, tx.buffer
    ensures tx.Valid()
    ensures ok <==> old(tx.nbBytes) + 5 <= FifoSize
    ensures tx.Contents() == old(tx.Contents())
              + FrameBytes(command, parameter1, parameter2, parameter3)[..Queued(old(tx.nbBytes))]
    ensures ok ==> tx.nbBytes == old(tx.nbBytes) + 5
    ensures !ok ==> tx.nbBytes == FifoSize
  {
    ok := SendFrame(tx, command, parameter1, parameter2, parameter3,
                    command ^ parameter1 ^ parameter2 ^ parameter3);
  }

  /** The `&&` chain of UART_OutChar calls in Packet_Put, with the checksum byte `checksum`
      already computed. */
  method SendFrame(tx: TFifo, command: byte, parameter1: byte, parameter2: byte,
                   parameter3: byte, checksum: byte) returns (ok: bool)
    requires tx.Valid()
    modifies tx, tx.buffer
    ensures tx.Valid()
    ensures ok <==> old(tx.nbBytes) + 5 <= FifoSize
    ensures tx.Contents() == old(tx.Contents())
              + [command, parameter1, parameter2, parameter3, checksum][..Queued(old(tx.nbBytes))]
  {
    ghost var frame := [command, parameter1, parameter2, parameter3, checksum];
    ghost var before := tx.Contents();
    ghost var count := tx.nbBytes;
    assert before + frame[..0] == before;
    ok := Send(tx, command, before, frame, count, 0);
    if !ok {
      return;
    }
    ok := Send(tx, parameter1, before, frame, count, 1);
    if !ok {
      return;
    }
    ok := Send(tx, parameter2, before, frame, count, 2);
    if !ok {
      return;
    }
    ok := Send(tx, parameter3, before, frame, count, 3);
    if !ok {
      return;
    }
    ok := Send(tx, checksum, before, frame, count, 4);
  }

  /** UART_OutChar of `frame[k]` once the first k bytes of the five-byte `frame` are queued
      after `before` and the FIFO had held `count` bytes: the queued prefix grows by one
      byte, or the FIFO is full and Packet_Put stops having queued k bytes. */
  method Send(tx: TFifo, data: byte, ghost before: seq<byte>, ghost frame: seq<byte>,
              ghost count: nat, ghost k: nat) returns (ok: bool)
    requires tx.Valid() && |frame| == 5 && k < 5 && data == frame[k]
    requires tx.Contents() == before + frame[..k] && tx.nbBytes == count + k
    modifies tx, tx.buffer
    ensures tx.Valid()
    ensures ok <==> count + k < FifoSize
    ensures ok ==> tx.Contents() == before + frame[..k + 1] && tx.nbBytes == count + k + 1
    ensures ok && k == 4 ==> Queued(count) == 5
    ensures !ok ==> tx.Contents() == before + frame[..k] && Queued(count) == k
  {
    ok := OutChar(tx, data);
    if ok {
      assert frame[..k + 1] == frame[..k] + [frame[k]];
    }
  }

}
