/** The stage 1 loader: reading from the console, and the receive loop that fills the image buffer. */
module Stage1 {
  import opened Bits
  import opened Xmodem

  function Flattened(chunks: seq<seq<byte>>): seq<byte>
  {
    if chunks == [] then [] else chunks[0] + Flattened(chunks[1..])
  }

  /** `s` with `data` written over it from `at` on. */
  function Filled(s: seq<byte>, at: nat, data: seq<byte>): (r: seq<byte>)
    requires at + |data| <= |s|
    ensures |r| == |s|
  {
    s[..at] + data + s[at + |data|..]
  }

  lemma FilledNext(s: seq<byte>, at: nat, a: seq<byte>, b: seq<byte>)
    requires at + |a| + |b| <= |s|
    ensures Filled(Filled(s, at, a), at + |a|, b) == Filled(s, at, a + b)
  {
  }

  lemma NextPiece(s: seq<byte>, at: nat, all: seq<byte>, m: nat, n: nat)
    requires m + n <= |all| && at + m + n <= |s|
    ensures Filled(Filled(s, at, all[..m]), at + m, all[m..][..n]) == Filled(s, at, all[..m + n])
    ensures all[m..][n..] == all[m + n..]
  {
    assert all[..m] + all[m..][..n] == all[..m + n];
    FilledNext(s, at, all[..m], all[m..][..n]);
  }

  /** The serial console. A read returns at least one byte and at most what has arrived in one go. */
  class Console {
    var chunks: seq<seq<byte>>
    var output: seq<byte>

    ghost predicate Valid()
      reads this`chunks
    {
      forall i :: 0 <= i < |chunks| ==> chunks[i] != []
    }

    /** The bytes still to come, however they are split. */
    ghost function Pending(): seq<byte>
      reads this`chunks
    {
      Flattened(chunks)
    }

    constructor (chunks: seq<seq<byte>>)
      requires forall i :: 0 <= i < |chunks| ==> chunks[i] != []
      ensures Valid() && Pending() == Flattened(chunks) && output == []
    {
      this.chunks := chunks;
      output := [];
    }

    /** `io_read`: 0 when the source has stopped. */
    method Read(buf: array<byte>, at: nat, len: nat) returns (ret: nat)
      requires Valid() && at + len <= buf.Length
      modifies this`chunks, buf
      ensures Valid()
      ensures ret <= len && ret <= |old(Pending())|
      ensures ret == 0 <==> len == 0 || old(Pending()) == []
      ensures buf[..] == Filled(old(buf[..]), at, old(Pending())[..ret])
      ensures Pending() == old(Pending())[ret..]
    {
      if len == 0 || chunks == [] {
        return 0;
      }
      var chunk, rest := chunks[0], chunks[1..];
      ret := if len < |chunk| then len else |chunk|;
      forall i | 0 <= i < ret {
        buf[at + i] := chunk[i];
      }
      assert Flattened(chunks) == chunk + Flattened(rest);
      if ret < |chunk| {
        chunks := [chunk[ret..]] + rest;
        assert Flattened(chunks) == chunk[ret..] + Flattened(rest);
      } else {
        chunks := rest;
      }
    }

    method Write(b: byte)
      modifies this`output
      ensures output == old(output) + [b]
    {
      output := output + [b];
    }
  }

  /**
   Reads exactly `len` bytes in order of arrival, whatever the size of the pieces, or returns -1 when the source
   stops first.
   */
  method ReadRepeat(input: Console, buf: array<byte>, at: nat, len: nat) returns (ret: int)
    requires input.Valid() && at + len <= buf.Length
    modifies input`chunks, buf
    ensures input.Valid()
    ensures ret == if 0 < len <= |old(input.Pending())| then len else -1
    ensures ret == len ==>
              && buf[..] == Filled(old(buf[..]), at, old(input.Pending())[..len])
              && input.Pending() == old(input.Pending())[len..]
    ensures ret == -1 && len > 0 ==> input.Pending() == []
  {
    hide Filled, Flattened;
    var left: nat, total: nat, pos: nat := len, 0, at;
    ghost var all, before := input.Pending(), buf[..];
    var got: nat := input.Read(buf, pos, left);
    while got > 0
      invariant input.Valid() && got <= left && total + left == len && pos == at + total && total + got <= |all|
      invariant input.Pending() == all[total + got..]
      invariant buf[..] == Filled(before, at, all[..total + got])
      invariant got == 0 ==> len == 0 || input.Pending() == []
      invariant left > 0 || len == 0
      decreases left
    {
      left := left - got;
      total := total + got;
      pos := pos + got;
      if left <= 0 {
        return total;
      }
      got := input.Read(buf, pos, left);
      NextPiece(before, at, all, total, got);
    }
    return -1;
  }

  /** The checksum loop. */
  method PayloadSum(buf: array<byte>) returns (checksum: byte)
    requires buf.Length == PACKET
    ensures checksum == Sum(buf[3..131]) % 256
  {
    checksum := 0;
    var i := 0;
    while i < PAYLOAD
      invariant 0 <= i <= PAYLOAD
      invariant checksum == Sum(buf[3..3 + i]) % 256
    {
      assert buf[3..3 + (i + 1)][..i] == buf[3..3 + i];
      checksum := (checksum + buf[3 + i]) % 256;
      i := i + 1;
    }
  }

  /** `memcpy` of the payload of a packet to its place in the image. */
  method CopyPayload(buf: array<byte>, image: array<byte>, at: nat)
    requires buf.Length == PACKET && at + PAYLOAD <= image.Length && buf != image
    modifies image
    ensures image[..] == Filled(old(image[..]), at, buf[3..131])
  {
    forall i | 0 <= i < PAYLOAD {
      image[at + i] := buf[3 + i];
    }
  }

  /** Earlier replies play no part in what a packet does. */
  lemma AcceptSeparately(r: Receiver, p: packet)
    requires r.blockNr > 0
    ensures var t := Accept(r.(replies := []), p);
            Accept(r, p) == t.(replies := r.replies + t.replies)
    ensures Stores(r, p) <==> Stores(r.(replies := []), p)
    ensures Stores(r, p) ==> Accept(r, p).blockNr == r.blockNr + 1
  {
    hide Sum;
  }

  /** What the loop does with one complete packet. */
  method HandlePacket(console: Console, buf: array<byte>, image: array<byte>, blockNr: nat) returns (next: nat)
    requires buf.Length == PACKET && buf != image && blockNr > 0 && PAYLOAD * (blockNr - 1) <= image.Length
    requires Stores(Receiver(blockNr, image[..PAYLOAD * (blockNr - 1)], []), buf[..]) ==>
               PAYLOAD * blockNr <= image.Length
    modifies image, console`output
    ensures var t := Accept(Receiver(blockNr, old(image[..PAYLOAD * (blockNr - 1)]), []), buf[..]);
            && next > 0 && PAYLOAD * (next - 1) <= image.Length
            && t.blockNr == next && t.image == image[..PAYLOAD * (next - 1)]
            && console.output == old(console.output) + t.replies
  {
    hide Sum;
    ghost var p: packet := buf[..];
    var checksum := PayloadSum(buf);
    next := blockNr;
    assert Data(p) == buf[3..131];
    if buf[131] == checksum {
      if buf[2] == 255 - buf[1] {
        if buf[1] == blockNr % 256 {
          CopyPayload(buf, image, PAYLOAD * (blockNr - 1));
          next := blockNr + 1;
          assert image[..PAYLOAD * blockNr] == old(image[..PAYLOAD * (blockNr - 1)]) + Data(p);
          console.Write(ACK);
        } else if buf[1] == (blockNr - 1) % 256 {
          console.Write(ACK);
        } else {
          console.Write(NAK);
        }
      } else {
        console.Write(NAK);
      }
    } else {
      console.Write(NAK);
    }
  }

  /** After the first byte and then the rest have been read, the buffer is the packet. */
  lemma PacketRead(buf: array<byte>, first: seq<byte>, left: seq<byte>)
    requires buf.Length == PACKET && |first| == PACKET && |left| >= PACKET && first[0] == left[0]
    ensures buf[..] == Filled(first, 1, left[1..][..PACKET - 1]) ==> buf[..] == left[..PACKET]
    ensures left[1..][PACKET - 1..] == left[PACKET..]
  {
  }

  lemma FirstRead(buf: array<byte>, before: seq<byte>, left: seq<byte>)
    requires buf.Length == PACKET && |before| == PACKET
    ensures left != [] && buf[..] == Filled(before, 0, left[..1]) ==> buf[0] == left[0]
  {
    if left != [] && buf[..] == Filled(before, 0, left[..1]) {
      assert buf[0] == buf[..][0] == left[..1][0];
    }
  }

  /**
   The receive loop, up to the hand-over of the image. Its outcome is the reception of the bytes themselves,
   independent of the pieces they arrive in.
   */
  method XmodemReceive(console: Console) returns (success: bool, blockNr: nat, image: array<byte>)
    requires console.Valid()
    requires PAYLOAD * (Receive(START, console.Pending()).receiver.blockNr - 1) <= CAPACITY
    modifies console
    ensures image.Length == CAPACITY && blockNr > 0 && PAYLOAD * (blockNr - 1) <= CAPACITY
    ensures exists replies ::
              && console.output == old(console.output) + replies
              && Receive(START, old(console.Pending())) ==
                   Outcome(Receiver(blockNr, image[..PAYLOAD * (blockNr - 1)], replies), success)
  {
    hide Accept, Stores, Receive, Flattened, Filled;
    image := new byte[CAPACITY];
    var buf := new byte[PACKET];
    ghost var all, out := console.Pending(), console.output;
    blockNr := 1;
    success := false;
    console.Write(NAK);
    ghost var r := START;
    ghost var left := all;
    ghost var blank := buf[..];
    var ret: int := console.Read(buf, 0, 1);
    FirstRead(buf, blank, left);
    while ret == 1
      invariant console.Valid() && fresh(image) && fresh(buf) && buf != image
      invariant blockNr > 0 && PAYLOAD * (blockNr - 1) <= CAPACITY
      invariant r == Receiver(blockNr, image[..PAYLOAD * (blockNr - 1)], r.replies) && console.output == out + r.replies
      invariant Receive(START, all) == Receive(r, left)
      invariant if left == [] then ret == 0 else ret == 1 && buf[0] == left[0] && console.Pending() == left[1..]
      decreases |left|
    {
      ReceiveStep(r, left);
      if buf[0] == EOT {
        success := true;
        break;
      }
      ghost var first := buf[..];
      var got := ReadRepeat(console, buf, 1, PACKET - 1);
      if got != PACKET - 1 {
        break;
      }
      PacketRead(buf, first, left);
      ReceiveGrows(Accept(r, left[..PACKET]), left[PACKET..]);
      AcceptSeparately(r, left[..PACKET]);
      blockNr := HandlePacket(console, buf, image, blockNr);
      r := Accept(r, left[..PACKET]);
      left := left[PACKET..];
      ghost var held := buf[..];
      ret := console.Read(buf, 0, 1);
      FirstRead(buf, held, left);
    }
    ReceiveStep(r, left);
  }
}
