/** Sender, line and receiver, one event a step. */
module XmodemLine {
  import opened Bits
  import opened Xmodem

  /** A file as the sender sees it: blocks of 128 bytes. */
  type block = b: seq<byte> | |b| == PAYLOAD witness seq(PAYLOAD, _ => 0)

  function PacketFor(k: nat, b: block): packet
  {
    [SOH, k % 256, 255 - k % 256] + b + [Sum(b) % 256]
  }

  function Joined(file: seq<block>): (s: seq<byte>)
    ensures |s| == PAYLOAD * |file|
  {
    if file == [] then [] else Joined(file[..|file| - 1]) + file[|file| - 1]
  }

  /** What is on the line: it carries one message at a time. */
  datatype Line = Idle | Packet(bytes: packet) | EndOfFile | Answer(code: byte)

  /**
   `current` is the block the sender is on, from 1; `heard` is every byte that has reached the receiver;
   `done` says that the receiver has stopped at an end-of-transmission byte.
   */
  datatype System = System(current: nat, line: Line, receiver: Receiver, heard: seq<byte>, done: bool)

  ghost predicate Init(s: System)
  {
    s == System(1, Idle, START, [], false)
  }

  datatype Move =
    | Send | SendEnd
    | LosePacket | GarblePacket(garbled: packet) | LoseEnd
    | Deliver | DeliverEnd
    | LoseAnswer | GarbleAnswer(code: byte)
    | Hear

  /** Damage the receiver can detect, or that only touches the magic byte, which it does not look at. */
  predicate Detectable(sent: packet, arrived: packet)
  {
    arrived[0] != EOT && (!Genuine(arrived) || arrived[1..] == sent[1..])
  }

  /** The sender acts only on an idle line: no reply is delayed past a resend. */
  ghost predicate Next(file: seq<block>, s: System, t: System, m: Move)
  {
    !s.done && match m
    case Send => s.line.Idle? && 1 <= s.current <= |file|
                 && t == s.(line := Packet(PacketFor(s.current, file[s.current - 1])))
    case SendEnd => s.line.Idle? && s.current == |file| + 1 && t == s.(line := EndOfFile)
    case LosePacket => s.line.Packet? && t == s.(line := Idle)
    case GarblePacket(g) => s.line.Packet? && Detectable(s.line.bytes, g) && t == s.(line := Packet(g))
    case LoseEnd => s.line.EndOfFile? && t == s.(line := Idle)
    case Deliver => s.line.Packet? && s.receiver.blockNr > 0
                    && t == s.(line := Answer(Reply(s.receiver, s.line.bytes)),
                               receiver := Accept(s.receiver, s.line.bytes), heard := s.heard + s.line.bytes)
    case DeliverEnd => s.line.EndOfFile? && t == s.(line := Idle, heard := s.heard + [EOT], done := true)
    case LoseAnswer => s.line.Answer? && t == s.(line := Idle)
    case GarbleAnswer(c) => s.line.Answer? && c != ACK && t == s.(line := Answer(c))
    case Hear => s.line.Answer?
                 && t == s.(line := Idle, current := if s.line.code == ACK then s.current + 1 else s.current)
  }

  /** A run from the start, one move between successive states. */
  ghost predicate Run(file: seq<block>, states: seq<System>, moves: seq<Move>)
  {
    && |states| == |moves| + 1
    && Init(states[0])
    && forall i :: 0 <= i < |moves| ==> Next(file, states[i], states[i + 1], moves[i])
  }

  /** The sender is on the block the receiver expects, or on the one it stored last. */
  ghost predicate InStep(file: seq<block>, s: System)
  {
    && 1 <= s.receiver.blockNr <= |file| + 1
    && 1 <= s.current <= |file| + 1
    && (s.current == s.receiver.blockNr || s.current == s.receiver.blockNr - 1)
    && s.receiver.image == Joined(file[..s.receiver.blockNr - 1])
  }

  ghost predicate LineOk(file: seq<block>, s: System)
  {
    match s.line
    case Idle => true
    case Packet(p) => 1 <= s.current <= |file| && p[0] != EOT
                      && (!Genuine(p) || p[1..] == PacketFor(s.current, file[s.current - 1])[1..])
    case EndOfFile => s.current == |file| + 1
    case Answer(c) => s.current <= |file| && (c == ACK ==> s.current == s.receiver.blockNr - 1)
  }

  /** The receiver's state is what the byte stream heard so far makes of it, whatever follows. */
  ghost predicate Heard(s: System)
  {
    if s.done then Receive(START, s.heard) == Outcome(s.receiver, true)
    else forall more: seq<byte> :: s.receiver.blockNr > 0 && Receive(START, s.heard + more) == Receive(s.receiver, more)
  }

  ghost predicate Inv(file: seq<block>, s: System)
  {
    && InStep(file, s) && LineOk(file, s) && Heard(s)
    && (s.done ==> s.current == |file| + 1)
  }

  lemma PacketForFields(k: nat, b: block, p: packet)
    requires p[1..] == PacketFor(k, b)[1..]
    ensures Genuine(p) && Num(p) == k % 256 && Data(p) == b
  {
    var q := PacketFor(k, b);
    assert forall i :: 1 <= i < PACKET ==> p[i] == p[1..][i - 1] == q[i];
    assert Data(p) == b;
  }

  lemma GenuineTail(p: packet, q: packet)
    requires p[1..] == q[1..]
    ensures Genuine(p) == Genuine(q)
  {
    assert forall i :: 1 <= i < PACKET ==> p[i] == p[1..][i - 1] == q[i];
    assert Data(p) == Data(q);
  }

  /** Numbers modulo 256 cannot confuse two neighbouring blocks. */
  lemma NeighboursDiffer(k: int)
    ensures k % 256 != (k - 1) % 256
  {
  }

  lemma DeliverInStep(file: seq<block>, s: System, t: System)
    requires InStep(file, s) && LineOk(file, s) && Next(file, s, t, Deliver)
    ensures InStep(file, t) && LineOk(file, t)
  {
    hide Sum, Genuine, PacketFor;
    var p, n := s.line.bytes, s.receiver.blockNr;
    NeighboursDiffer(n);
    if Genuine(p) {
      PacketForFields(s.current, file[s.current - 1], p);
      if s.current == n {
        assert file[..n][..n - 1] == file[..n - 1];
        assert t.receiver.image == Joined(file[..n]);
      }
    }
  }

  lemma DeliverHeard(s: System, p: packet)
    requires Heard(s) && !s.done && p[0] != EOT && s.receiver.blockNr > 0
    ensures forall more: seq<byte> :: Receive(START, s.heard + p + more) == Receive(Accept(s.receiver, p), more)
  {
    hide Accept;
    forall more: seq<byte>
      ensures Receive(START, s.heard + p + more) == Receive(Accept(s.receiver, p), more)
    {
      assert s.heard + p + more == s.heard + (p + more);
      assert (p + more)[..PACKET] == p && (p + more)[PACKET..] == more;
    }
  }

  lemma InvInit(file: seq<block>, s: System)
    requires Init(s)
    ensures Inv(file, s)
  {
    forall more: seq<byte>
      ensures Receive(START, s.heard + more) == Receive(s.receiver, more)
    {
      assert s.heard + more == more;
    }
    assert file[..0] == [];
  }

  lemma InvNext(file: seq<block>, s: System, t: System, m: Move)
    requires Inv(file, s) && Next(file, s, t, m)
    ensures Inv(file, t)
  {
    hide Receive, Accept, Genuine, Reply, Joined;
    match m {
      case Deliver =>
        DeliverInStep(file, s, t);
        DeliverHeard(s, s.line.bytes);
      case DeliverEnd =>
        assert Receive(START, s.heard + [EOT]) == Receive(s.receiver, [EOT]);
        ReceiveEnd(s.receiver);
      case Send =>
        assert PacketFor(s.current, file[s.current - 1])[0] == SOH;
      case GarblePacket(g) =>
        if g[1..] == s.line.bytes[1..] {
          GenuineTail(s.line.bytes, g);
        }
      case _ =>
    }
  }

  lemma ReceiveEnd(r: Receiver)
    requires r.blockNr > 0
    ensures Receive(r, [EOT]) == Outcome(r, true)
  {
  }

  /**
   In every reachable state the sender is on the receiver's block or the one before, and the bytes stored are
   exactly the sender's first blocks: numbering modulo 256 neither skips nor repeats a block, for any file length.
   */
  lemma {:induction false} EveryStateInStep(file: seq<block>, states: seq<System>, moves: seq<Move>, i: nat)
    requires Run(file, states, moves) && i < |states|
    ensures Inv(file, states[i])
    decreases i
  {
    hide Inv, Next, Init;
    if i == 0 {
      InvInit(file, states[0]);
    } else {
      EveryStateInStep(file, states, moves, i - 1);
      assert Next(file, states[i - 1], states[i - 1 + 1], moves[i - 1]);
      InvNext(file, states[i - 1], states[i], moves[i - 1]);
    }
  }

  /**
   When a run has ended, the receiver, fed with the bytes that reached it, reports success and holds exactly the
   file; and at no time did it store more than the file.
   */
  lemma TransferDeliversFile(file: seq<block>, states: seq<System>, moves: seq<Move>, i: nat)
    requires Run(file, states, moves) && i < |states|
    ensures |states[i].receiver.image| <= PAYLOAD * |file|
    ensures states[i].done ==>
              && Receive(START, states[i].heard).success
              && Receive(START, states[i].heard).receiver.image == Joined(file)
  {
    hide Receive, Joined;
    EveryStateInStep(file, states, moves, i);
    assert file[..|file|] == file;
  }

  /** A round without faults always completes the sender's block, whatever happened before. */
  lemma CleanRoundAdvances(file: seq<block>, s: System) returns (states: seq<System>)
    requires Inv(file, s) && s.line.Idle? && !s.done && s.current <= |file|
    ensures |states| == 4 && states[0] == s && states[3].line.Idle? && states[3].current == s.current + 1
    ensures forall j :: 0 <= j < 3 ==> Next(file, states[j], states[j + 1], [Send, Deliver, Hear][j])
    ensures states[3].receiver.blockNr == s.current + 1
  {
    hide Sum, Receive, Joined, Genuine, PacketFor;
    var p := PacketFor(s.current, file[s.current - 1]);
    PacketForFields(s.current, file[s.current - 1], p);
    NeighboursDiffer(s.receiver.blockNr);
    var t := s.(line := Packet(p));
    var u := t.(line := Answer(Reply(t.receiver, p)), receiver := Accept(t.receiver, p), heard := t.heard + p);
    var v := u.(line := Idle, current := s.current + 1);
    states := [s, t, u, v];
    assert Next(file, s, t, Send) && Next(file, t, u, Deliver) && Next(file, u, v, Hear);
  }

  /**
   The image is handed on as `blockNr * 128` bytes. That is one block more than was received, always, and so more
   than the buffer holds exactly when the file fills the buffer.
   */
  lemma HandedOneBlockTooMany(file: seq<block>, states: seq<System>, moves: seq<Move>, i: nat)
    requires Run(file, states, moves) && i < |states| && states[i].done && PAYLOAD * |file| <= CAPACITY
    ensures var handed := states[i].receiver.blockNr * PAYLOAD;
            && handed == |states[i].receiver.image| + PAYLOAD
            && (handed <= CAPACITY <==> PAYLOAD * |file| < CAPACITY)
  {
    EveryStateInStep(file, states, moves, i);
  }
}
