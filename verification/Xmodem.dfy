/**
 The XMODEM receiver of stage 1 as a function of the bytes it is sent, and the protocol it forms with a standard
 sender (section 7 of Forsberg's XMODEM/YMODEM Protocol Reference) over a faulty half-duplex line.
 */
module Xmodem {
  import opened Bits

  const SOH: byte := 1
  const EOT: byte := 4
  const ACK: byte := 6
  const NAK: byte := 0x15
  const PAYLOAD := 128
  const PACKET := 132
  /** The size of the image buffer. */
  const CAPACITY := 2 * 1024 * 1024

  type packet = p: seq<byte> | |p| == PACKET witness seq(PACKET, _ => 0)

  function Num(p: packet): byte { p[1] }

  function NumInvert(p: packet): byte { p[2] }

  function Data(p: packet): seq<byte> { p[3..131] }

  function Checksum(p: packet): byte { p[131] }

  function Sum(s: seq<byte>): nat
  {
    if s == [] then 0 else Sum(s[..|s| - 1]) + s[|s| - 1]
  }

  /** Both tests the receiver makes before it looks at the number. */
  predicate Genuine(p: packet)
  {
    Checksum(p) == Sum(Data(p)) % 256 && NumInvert(p) == 255 - Num(p)
  }

  /** The receiver between packets: the next block it expects, the bytes it stored, the replies it sent. */
  datatype Receiver = Receiver(blockNr: nat, image: seq<byte>, replies: seq<byte>)

  const START := Receiver(1, [], [NAK])

  function Reply(r: Receiver, p: packet): byte
    requires r.blockNr > 0
  {
    if Genuine(p) && (Num(p) == r.blockNr % 256 || Num(p) == (r.blockNr - 1) % 256) then ACK else NAK
  }

  predicate Stores(r: Receiver, p: packet)
  {
    Genuine(p) && Num(p) == r.blockNr % 256
  }

  /** One packet. */
  function Accept(r: Receiver, p: packet): (t: Receiver)
    requires r.blockNr > 0
    ensures t.blockNr > 0
  {
    if Stores(r, p) then Receiver(r.blockNr + 1, r.image + Data(p), r.replies + [ACK])
    else r.(replies := r.replies + [Reply(r, p)])
  }

  /** Success is the end-of-transmission byte; otherwise the input ended, perhaps inside a packet. */
  datatype Outcome = Outcome(receiver: Receiver, success: bool)

  /** The whole reception of a byte stream. */
  function Receive(r: Receiver, input: seq<byte>): (o: Outcome)
    requires r.blockNr > 0
    ensures o.receiver.blockNr > 0
    decreases |input|
  {
    if input == [] then Outcome(r, false)
    else if input[0] == EOT then Outcome(r, true)
    else if |input| < PACKET then Outcome(r, false)
    else Receive(Accept(r, input[..PACKET]), input[PACKET..])
  }

  /** One turn of the receive loop. */
  lemma ReceiveStep(r: Receiver, input: seq<byte>)
    requires r.blockNr > 0
    ensures input == [] ==> Receive(r, input) == Outcome(r, false)
    ensures input != [] && input[0] == EOT ==> Receive(r, input) == Outcome(r, true)
    ensures input != [] && input[0] != EOT && |input| < PACKET ==> Receive(r, input) == Outcome(r, false)
    ensures input != [] && input[0] != EOT && |input| >= PACKET ==>
              Receive(r, input) == Receive(Accept(r, input[..PACKET]), input[PACKET..])
  {
    hide Accept;
  }

  // What a standard sender sends.

  /** The checksum is the plain sum of the bytes: of one byte that byte, of two pieces the sum of their sums. */
  lemma {:induction false} SumConcat(a: seq<byte>, b: seq<byte>)
    ensures Sum(a + b) == Sum(a) + Sum(b)
  {
    if b == [] {
      assert a + b == a;
    } else {
      SumConcat(a, b[..|b| - 1]);
      assert (a + b)[..|a + b| - 1] == a + b[..|b| - 1];
    }
  }

  lemma SumOne(b: byte)
    ensures Sum([]) == 0 && Sum([b]) == b
  {
    assert [b][..0] == [];
  }

  /** So a payload of equal bytes sums up to their product. */
  lemma {:induction false} SumEqual(b: byte, n: nat)
    ensures Sum(seq(n, _ => b)) == n * b
  {
    if n > 0 {
      SumEqual(b, n - 1);
      assert seq(n, _ => b) == seq(n - 1, _ => b) + [b];
      SumConcat(seq(n - 1, _ => b), [b]);
      SumOne(b);
      assert n * b == (n - 1) * b + b;
    }
  }

  /**
   What the receiver does with any packet, byte by byte. It stores the payload exactly if the last byte is the sum of
   the payload modulo 256, the third byte complements the second, and the second is the block it waits for, modulo
   256; it answers 6 to those and to the block before, and 0x15 to all others.
   */
  lemma AcceptTells(r: Receiver, p: packet)
    requires r.blockNr > 0
    ensures var sound := Sum(p[3..131]) % 256 == p[131] && p[2] == 255 - p[1];
            && (sound && p[1] == r.blockNr % 256 ==>
                  Accept(r, p) == Receiver(r.blockNr + 1, r.image + p[3..131], r.replies + [6]))
            && (sound && p[1] == (r.blockNr - 1) % 256 ==> Accept(r, p) == r.(replies := r.replies + [6]))
            && (!sound || (p[1] != r.blockNr % 256 && p[1] != (r.blockNr - 1) % 256) ==>
                  Accept(r, p) == r.(replies := r.replies + [0x15]))
  {
    hide Sum;
  }

  /** The packet a standard sender makes of a block is stored by a receiver that waits for it, whatever its magic. */
  lemma StandardPacketStored(r: Receiver, magic: byte, payload: seq<byte>)
    requires r.blockNr > 0 && |payload| == 128
    ensures var p := [magic, r.blockNr % 256, 255 - r.blockNr % 256] + payload + [Sum(payload) % 256];
            Accept(r, p) == Receiver(r.blockNr + 1, r.image + payload, r.replies + [6])
  {
    hide Sum;
    var p: packet := [magic, r.blockNr % 256, 255 - r.blockNr % 256] + payload + [Sum(payload) % 256];
    assert p[3..131] == payload;
    AcceptTells(r, p);
  }

  /** A transfer of one block of zeros: NAK to start, ACK to the block, and success at the byte 4 that ends it. */
  lemma ZeroBlockTransfer()
    ensures var zeros: seq<byte> := seq(128, _ => 0);
            Receive(START, [1, 1, 254] + zeros + [0] + [4]) == Outcome(Receiver(2, zeros, [0x15, 6]), true)
  {
    hide Sum, Accept;
    var zeros: seq<byte> := seq(128, _ => 0);
    var p: packet := [1, 1, 254] + zeros + [0];
    var input := p + [4];
    assert [1, 1, 254] + zeros + [0] + [4] == input;
    SumEqual(0, 128);
    StandardPacketStored(START, 1, zeros);
    assert input[..PACKET] == p && input[PACKET..] == [4];
    ReceiveStep(START, input);
    ReceiveStep(Accept(START, p), [4]);
    assert [] + zeros == zeros && [0x15] + [6] == [0x15, 6];
  }

  // Error detection.

  lemma {:induction false} SumChange(s: seq<byte>, i: nat, b: byte)
    requires i < |s|
    ensures Sum(s[i := b]) == Sum(s) - s[i] + b
  {
    var n := |s| - 1;
    if i < n {
      SumChange(s[..n], i, b);
      assert s[i := b][..n] == s[..n][i := b];
    } else {
      assert s[i := b][..n] == s[..n];
    }
  }

  /** A packet that differs from a genuine one in one byte after the magic is never stored and always refused. */
  lemma SingleByteErrorRefused(r: Receiver, p: packet, i: nat, b: byte)
    requires r.blockNr > 0 && Genuine(p) && 1 <= i < PACKET && b != p[i]
    ensures Accept(r, p[i := b]) == r.(replies := r.replies + [NAK])
  {
    var q: packet := p[i := b];
    hide Sum;
    if 3 <= i < 131 {
      assert Data(q) == Data(p)[i - 3 := b];
      SumChange(Data(p), i - 3, b);
      assert Sum(Data(q)) - Sum(Data(p)) == b - p[i];
      ModShift(Sum(Data(p)), Sum(Data(q)));
    } else {
      assert Data(q) == Data(p);
    }
    assert !Genuine(q);
  }

  lemma ModShift(a: nat, b: nat)
    requires a != b && -256 < a - b < 256
    ensures a % 256 != b % 256
  {
  }

  // What damage to the magic byte does.

  lemma {:induction false} ReceiveGrows(r: Receiver, input: seq<byte>)
    requires r.blockNr > 0
    ensures Receive(r, input).receiver.blockNr >= r.blockNr
    ensures |Receive(r, input).receiver.replies| >= |r.replies|
    decreases |input|
  {
    hide Stores, Reply;
    if input != [] && input[0] != EOT && |input| >= PACKET {
      ReceiveGrows(Accept(r, input[..PACKET]), input[PACKET..]);
    }
  }

  /**
   The magic byte is outside the checksum. Damage to it goes unnoticed, and does no harm, exactly when it does not
   make the packet look like the end of the transmission.
   */
  lemma MagicDamageHarmlessIff(r: Receiver, p: packet, b: byte, rest: seq<byte>)
    requires r.blockNr > 0 && p[0] != EOT
    ensures Receive(r, p[0 := b] + rest) == Receive(r, p + rest) <==> b != EOT
  {
    hide Sum;
    var q: packet := p[0 := b];
    assert (p + rest)[..PACKET] == p && (p + rest)[PACKET..] == rest;
    assert (q + rest)[..PACKET] == q && (q + rest)[PACKET..] == rest;
    assert Data(p) == Data(q);
    ReceiveGrows(Accept(r, p), rest);
  }
}
