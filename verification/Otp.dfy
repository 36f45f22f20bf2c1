/** The writer of the one-time-programmable memory, on the chips before BCM2711, against an unreliable device. */
module Otp {
  import opened Bits
  import opened PackedFields

  const MAX_CMD_WAIT := 1000
  const MAX_PROG_WAIT := 32000
  const MAX_WRITE_RETRIES := 16

  const CMD_READ: word := 0
  const CMD_PROG_ENABLE: word := 1
  const CMD_PROG_DISABLE: word := 2
  const CMD_START: word := 1
  const CMD_PULSE: word := 0x8_8003

  const STAT_CMD_DONE: word := 1
  const STAT_PROG_OK: word := 4
  const STAT_PROG_ENABLE: word := 0x1000

  const ERR_PROGRAM := -1
  const ERR_ENABLE := -2
  const ERR_DISABLE := -3

  const READ_FAILED: word := 0xffff_ffff

  /** A command the device was told to start, with the address and bit it was given. */
  datatype Command = Command(hi: word, cmd: word, addr: byte, bitsel: word)

  predicate Has(a: nat, i: nat)
  {
    Field(a, i, 1) == 1
  }

  /** `cell` has all bits of `before` and none beyond those of `before` and `value`. */
  ghost predicate Between(before: word, cell: word, value: word)
  {
    forall i: nat :: i < 32 ==> (Has(before, i) ==> Has(cell, i)) && (Has(cell, i) ==> Has(before, i) || Has(value, i))
  }

  /** The only change a command can make: the addressed bit may have become one. */
  ghost predicate MayPulse(before: seq<word>, after: seq<word>, addr: byte, bit: word)
  {
    || after == before
    || (addr < |before| && bit < 32 && after == before[addr := Or32Bit(before[addr], bit)])
  }

  function Or32Bit(a: word, bit: word): word
    requires bit < 32
  {
    PowBelow(bit);
    Or32(a, Pow2(bit))
  }

  /**
   How much of its freedom a device uses. `Arbitrary`: all of it. `Responsive`: it answers every look at once and every
   pulse takes. `SlowReads`: so too, except that a read is not shown done at the first MAX_CMD_WAIT looks.
   */
  datatype Behaviour = Arbitrary | Responsive | SlowReads

  function WithBit(s: word, i: nat, on: bool): word
    requires i < 32
  {
    BitFits(on);
    Replace(s, i, 1, if on then 1 else 0)
  }

  lemma BitFits(on: bool)
    ensures (if on then 1 else 0) < Pow2(1)
  {
  }

  /**
   The device. A command with a non-zero high word may set the addressed bit, and nothing else changes a cell; the
   status shows PROG_OK only if the addressed bit is set, and CMD_DONE after a read only if the data are the cell's.
   Apart from that every status it shows, at every look, is arbitrary, but for its behaviour. Opening the device
   abandons a command in progress.
   */
  class Device {
    const cells: array<word>
    const behaviour: Behaviour
    var addr: byte
    var bitsel: word
    var data: word
    var ctrlHi: word
    var ctrlLo: word
    var config: word
    var reading: bool
    var readAddr: byte
    /** Looks at the status since the last command was started. */
    var looks: nat
    /** Every value stored to OTP_CONFIG. */
    ghost var configs: seq<word>
    ghost var commands: seq<Command>
    /** How many statuses had been shown when each of them was started. */
    ghost var starts: seq<nat>
    /** Every status the device has shown. */
    ghost var seen: seq<word>

    ghost predicate Valid()
      reads this`reading, this`readAddr, this`data, this`commands, this`starts, cells
    {
      cells.Length == 256 && |starts| == |commands| && (behaviour != Arbitrary && reading ==> data == cells[readAddr])
    }

    /** The device answers, and no read is pending: the next look shows the command done. */
    predicate Idle()
      reads this`reading, this`looks
    {
      behaviour == Responsive || (behaviour == SlowReads && (reading ==> looks >= MAX_CMD_WAIT))
    }

    constructor (cells: array<word>, behaviour: Behaviour)
      requires cells.Length == 256
      ensures Valid() && this.cells == cells && this.behaviour == behaviour && commands == [] && seen == []
      ensures starts == [] && configs == []
      ensures Idle() <==> behaviour != Arbitrary
    {
      this.cells := cells;
      this.behaviour := behaviour;
      addr, bitsel, data, ctrlHi, ctrlLo, config, reading, readAddr, looks := 0, 0, 0, 0, 0, 0, false, 0, 0;
      commands, starts, seen, configs := [], [], [], [];
    }

    method SetConfig(v: word)
      modifies this`config, this`configs
      ensures config == v && configs == old(configs) + [v]
    {
      config := v;
      configs := configs + [v];
    }

    method ReadStatus() returns (s: word)
      requires Valid()
      modifies this`looks, this`seen
      ensures seen == old(seen) + [s] && looks == old(looks) + 1
      ensures And(s, STAT_PROG_OK) != 0 ==> bitsel < 32 && Has(cells[addr], bitsel)
      ensures And(s, STAT_CMD_DONE) != 0 && reading ==> data == cells[readAddr]
      ensures behaviour != Arbitrary ==> And(s, STAT_PROG_ENABLE) != 0
      ensures behaviour != Arbitrary && bitsel < 32 && Has(cells[addr], bitsel) ==> And(s, STAT_PROG_OK) != 0
      ensures behaviour != Arbitrary ==> (And(s, STAT_CMD_DONE) != 0 <==> old(Idle()))
    {
      hide And, Has, WithBit;
      s := *;
      var ok := bitsel < 32 && Has(cells[addr], bitsel);
      if !ok || behaviour != Arbitrary {
        WithBitShows(s, 2, ok);
        s := WithBit(s, 2, ok);
      }
      if behaviour != Arbitrary {
        WithBitShows(s, 12, true);
        s := WithBit(s, 12, true);
        WithBitShows(s, 0, Idle());
        s := WithBit(s, 0, Idle());
      } else if reading && data != cells[readAddr] {
        WithBitShows(s, 0, false);
        s := WithBit(s, 0, false);
      }
      StatusBits(s);
      looks := looks + 1;
      seen := seen + [s];
    }

    /** The store to OTP_CTRL_LO with the start bit set. */
    method StartCommand(cmd: word)
      requires Valid() && cmd < 0x8000_0000
      modifies this`ctrlLo, this`reading, this`readAddr, this`data, this`looks, this`commands, this`starts, cells
      ensures ctrlLo == 2 * cmd + 1
      ensures Valid() && looks == 0
      ensures commands == old(commands) + [Command(ctrlHi, cmd, addr, bitsel)] && starts == old(starts) + [|seen|]
      ensures MayPulse(old(cells[..]), cells[..], addr, bitsel)
      ensures behaviour == Responsive && ctrlHi != 0 && bitsel < 32 ==> Has(cells[addr], bitsel)
      ensures ctrlHi == 0 ==> cells[..] == old(cells[..])
      ensures reading == (ctrlHi == 0 && cmd == CMD_READ) && (reading ==> readAddr == addr)
    {
      hide Has;
      ctrlLo := 2 * cmd + CMD_START;
      commands, starts := commands + [Command(ctrlHi, cmd, addr, bitsel)], starts + [|seen|];
      reading := ctrlHi == 0 && cmd == CMD_READ;
      looks := 0;
      if reading {
        readAddr := addr;
        data := *;
        if behaviour != Arbitrary {
          data := cells[addr];
        }
      }
      if ctrlHi != 0 && bitsel < 32 {
        var takes: bool := *;
        if takes || behaviour != Arbitrary {
          OrBit(cells[addr], bitsel, bitsel);
          cells[addr] := Or32Bit(cells[addr], bitsel);
        }
      }
    }

    /** The bit was in none of the statuses shown after the first `from`, except perhaps the last. */
    ghost predicate OnlyLast(from: nat, mask: word)
      reads this`seen
    {
      forall k :: from <= k < |seen| - 1 ==> And(seen[k], mask) == 0
    }

    /** At most `retry` looks, up to the first that shows the bit; 0 if that one came, -1 if all were in vain. */
    method WaitStatus(mask: word, retry: nat) returns (r: int)
      requires Valid() && retry > 0
      modifies this`looks, this`seen
      ensures r == 0 || r == -1
      ensures old(|seen|) < |seen| <= old(|seen|) + retry && seen[..old(|seen|)] == old(seen)
      ensures looks - old(looks) == |seen| - old(|seen|)
      ensures OnlyLast(old(|seen|), mask)
      ensures r == 0 <==> And(seen[|seen| - 1], mask) != 0
      ensures r == -1 ==> |seen| == old(|seen|) + retry
      ensures r == 0 && mask == STAT_CMD_DONE && reading ==> data == cells[readAddr]
      ensures r == 0 && mask == STAT_PROG_OK ==> bitsel < 32 && Has(cells[addr], bitsel)
      ensures behaviour != Arbitrary && mask == STAT_PROG_ENABLE ==> r == 0
      ensures old(Idle()) ==> Idle() && (mask == STAT_CMD_DONE ==> r == 0)
      ensures behaviour == SlowReads && reading && mask == STAT_CMD_DONE && old(looks) + retry <= MAX_CMD_WAIT
          ==> r == -1
    {
      hide And, Has;
      var i := retry;
      while true
        invariant 0 < i <= retry
        invariant |seen| == old(|seen|) + retry - i && seen[..old(|seen|)] == old(seen)
        invariant looks == old(looks) + retry - i
        invariant forall k :: old(|seen|) <= k < |seen| ==> And(seen[k], mask) == 0
        decreases i
      {
        var s := ReadStatus();
        if And(s, mask) != 0 {
          return 0;
        }
        i := i - 1;
        if i == 0 {
          break;
        }
      }
      return -1;
    }

    /** Success means that CMD_DONE was shown once before the command was started and once after. */
    method SetCommand(ctrlhi: word, cmd: word) returns (r: int, ghost started: bool)
      requires Valid() && cmd < 0x8000_0000
      modifies this`ctrlHi, this`ctrlLo, this`reading, this`readAddr, this`data, this`looks, this`commands, this`starts
      modifies this`seen, cells
      ensures Valid()
      ensures r == 0 || r == -1
      ensures Later(old(starts), starts, old(seen), seen)
      ensures old(|seen|) < |seen| <= old(|seen|) + 2000
      ensures r == -1 ==> |seen| >= old(|seen|) + 1000
      ensures r == 0 ==> started
      ensures started ==> 0 < looks < |seen| && And(seen[|seen| - 1 - looks], STAT_CMD_DONE) != 0
      ensures r == 0 <==> And(seen[|seen| - 1], STAT_CMD_DONE) != 0
      ensures ctrlHi == ctrlhi && ctrlLo == 2 * cmd + (if started then 1 else 0)
      ensures commands == old(commands) + if started then [Command(ctrlhi, cmd, addr, bitsel)] else []
      ensures MayPulse(old(cells[..]), cells[..], addr, bitsel)
      ensures behaviour == Responsive && ctrlhi != 0 && bitsel < 32 ==> Has(cells[addr], bitsel)
      ensures ctrlhi == 0 ==> cells[..] == old(cells[..])
      ensures r == 0 && ctrlhi == 0 && cmd == CMD_READ ==> data == cells[addr]
      ensures old(Idle()) ==> Idle() && started
      ensures old(Idle()) ==> (r == 0 <==> behaviour == Responsive || ctrlhi != 0 || cmd != CMD_READ)
    {
      hide Has, MayPulse, And;
      ctrlHi := ctrlhi;
      ctrlLo := 2 * cmd;
      started := false;
      r := WaitStatus(STAT_CMD_DONE, MAX_CMD_WAIT);
      if r != 0 {
        NoPulse(cells[..], addr, bitsel);
        return -1, false;
      }
      StartCommand(cmd);
      started := true;
      ghost var before := seen;
      r := WaitStatus(STAT_CMD_DONE, MAX_CMD_WAIT);
      assert seen[|before| - 1] == seen[..|before|][|before| - 1];
      assert seen[..old(|seen|)] == before[..old(|seen|)];
    }
  }

  /** Time has passed: more statuses may have been shown, and every command started since saw all earlier ones. */
  ghost predicate Later(starts0: seq<nat>, starts: seq<nat>, seen0: seq<word>, seen: seq<word>)
  {
    && starts0 <= starts && seen0 <= seen
    && forall k :: |starts0| <= k < |starts| ==> |seen0| <= starts[k] <= |seen|
  }

  lemma LaterStill(starts0: seq<nat>, starts1: seq<nat>, starts: seq<nat>, seen0: seq<word>, seen1: seq<word>,
                   seen: seq<word>)
    requires Later(starts0, starts1, seen0, seen1) && Later(starts1, starts, seen1, seen)
    ensures Later(starts0, starts, seen0, seen)
  {
  }

  /** One of the statuses from `from` on shows the bit. */
  ghost predicate Shown(seen: seq<word>, from: nat, mask: word)
  {
    exists k :: from <= k < |seen| && And(seen[k], mask) != 0
  }

  lemma StatusBits(s: word)
    ensures And(s, STAT_CMD_DONE) != 0 <==> Has(s, 0)
    ensures And(s, STAT_PROG_OK) != 0 <==> Has(s, 2)
    ensures And(s, STAT_PROG_ENABLE) != 0 <==> Has(s, 12)
  {
    hide And, Pow2;
    PowTable();
    TestBit(s, 0);
    TestBit(s, 2);
    TestBit(s, 12);
  }

  lemma WithBitShows(s: word, i: nat, on: bool)
    requires i < 32
    ensures Has(WithBit(s, i, on), i) <==> on
    ensures forall j: nat :: j < 32 && j != i ==> (Has(WithBit(s, i, on), j) <==> Has(s, j))
  {
    hide Replace, Field, Pow2;
    BitFits(on);
    ReplaceHere(s, i, 1, if on then 1 else 0);
    forall j: nat | j < 32 && j != i
      ensures Has(WithBit(s, i, on), j) <==> Has(s, j)
    {
      ReplaceElsewhere(s, i, 1, if on then 1 else 0, j, 1);
    }
  }

  lemma NoPulse(cells: seq<word>, addr: byte, bit: word)
    ensures MayPulse(cells, cells, addr, bit)
  {
  }

  // Cells.

  /** A started command that can change a cell. */
  predicate IsPulse(c: Command)
  {
    c.hi != 0
  }

  /** The command that sets up a pulse: the cells are of three kinds. */
  function PulseSetup(addr: byte): word
  {
    if addr < 8 then 0x38_000a else if addr < 77 then 0x58_000a else 0x78_000a
  }

  /** Setting a bit: two rounds of setup and pulse. */
  function BitCommands(addr: byte, bit: word): seq<Command>
  {
    [Command(0x142_0000, PulseSetup(addr), addr, bit), Command(0x1484, 0x8_8003, addr, bit),
     Command(0x942_0000, PulseSetup(addr), addr, bit), Command(0x800_1484, 0x8_8003, addr, bit)]
  }

  /** The commands for all missing bits below `n`, lowest first. */
  function MissingCommands(addr: byte, before: word, value: word, n: nat): seq<Command>
    requires n <= 32
  {
    if n == 0 then []
    else MissingCommands(addr, before, value, n - 1)
         + if Has(value, n - 1) && !Has(before, n - 1) then BitCommands(addr, n - 1) else []
  }

  /** Every pulse among the commands goes to a bit that `value` asks for and the cell did not have. */
  ghost predicate PulsesMissing(cs: seq<Command>, addr: byte, before: word, value: word)
  {
    forall k :: 0 <= k < |cs| && IsPulse(cs[k]) ==>
      && cs[k].bitsel < 32 && !Has(before, cs[k].bitsel) && Has(value, cs[k].bitsel)
      && cs[k] in BitCommands(addr, cs[k].bitsel)
  }

  ghost predicate NoPulses(cs: seq<Command>)
  {
    forall k :: 0 <= k < |cs| ==> !IsPulse(cs[k])
  }

  function Enables(addr: byte): seq<Command>
  {
    [Command(0, CMD_PROG_ENABLE, addr, 0xf), Command(0, CMD_PROG_ENABLE, addr, 0x4),
     Command(0, CMD_PROG_ENABLE, addr, 0x8), Command(0, CMD_PROG_ENABLE, addr, 0xd)]
  }

  // The driver.

  method ReadOpen(dev: Device, addr: byte) returns (val: word, ghost ok: bool, ghost issued: seq<Command>)
    requires dev.Valid()
    modifies dev, dev.cells
    ensures dev.configs == old(dev.configs)
    ensures dev.cells[..] == old(dev.cells[..]) && dev.bitsel == old(dev.bitsel) && dev.addr == addr
    ensures dev.Valid() && Later(old(dev.starts), dev.starts, old(dev.seen), dev.seen)
    ensures val == if ok then dev.cells[addr] else READ_FAILED
    ensures old(dev.Idle()) ==> dev.Idle() && (ok <==> dev.behaviour == Responsive)
    ensures dev.commands == old(dev.commands) + issued && NoPulses(issued)
    ensures ok ==> issued == [Command(0, CMD_READ, addr, dev.bitsel)]
  {
    dev.addr := addr;
    var r, started := dev.SetCommand(0, CMD_READ);
    ok := r == 0;
    issued := if started then [Command(0, CMD_READ, addr, dev.bitsel)] else [];
    val := if r != 0 then READ_FAILED else dev.data;
  }

  /** Success means that the four commands went out and that the device has then shown PROG_ENABLE. */
  method EnableProgram(dev: Device) returns (r: int, ghost issued: seq<Command>)
    requires dev.Valid()
    modifies dev, dev.cells
    ensures dev.configs == old(dev.configs)
    ensures r == 0 || r == -1
    ensures dev.cells[..] == old(dev.cells[..]) && dev.addr == old(dev.addr)
    ensures dev.commands == old(dev.commands) + issued && NoPulses(issued)
    ensures r == 0 ==> issued == Enables(old(dev.addr)) && dev.bitsel == 0xd
    ensures Later(old(dev.starts), dev.starts, old(dev.seen), dev.seen) && |dev.seen| > old(|dev.seen|)
    ensures r == 0 ==> And(dev.seen[|dev.seen| - 1], STAT_PROG_ENABLE) != 0
    ensures r == -1 ==>
              || |issued| < 4 || And(dev.seen[|dev.seen| - 1], STAT_CMD_DONE) == 0
              || (|dev.seen| >= old(|dev.seen|) + 32000 && And(dev.seen[|dev.seen| - 1], STAT_PROG_ENABLE) == 0)
    ensures dev.Valid() && (old(dev.Idle()) ==> r == 0 && dev.Idle())
  {
    hide And, Has;
    var steps: seq<word> := [0xf, 0x4, 0x8, 0xd];
    var i := 0;
    issued := [];
    while i < 4
      invariant 0 <= i <= 4
      invariant dev.cells[..] == old(dev.cells[..]) && dev.addr == old(dev.addr)
      invariant dev.commands == old(dev.commands) + issued && issued == Enables(old(dev.addr))[..i]
      invariant dev.Valid() && (old(dev.Idle()) ==> dev.Idle())
      invariant Later(old(dev.starts), dev.starts, old(dev.seen), dev.seen)
      invariant i > 0 ==> dev.bitsel == steps[i - 1]
      invariant NoPulses(issued) && dev.configs == old(dev.configs)
    {
      ghost var starts, seen := dev.starts, dev.seen;
      dev.bitsel := steps[i];
      var err, started := dev.SetCommand(0, CMD_PROG_ENABLE);
      LaterStill(old(dev.starts), starts, dev.starts, old(dev.seen), seen, dev.seen);
      issued := issued + if started then [Command(0, CMD_PROG_ENABLE, old(dev.addr), steps[i])] else [];
      assert dev.commands == old(dev.commands) + issued;
      if err != 0 {
        return -1, issued;
      }
      i := i + 1;
    }
    ghost var seen := dev.seen;
    r := dev.WaitStatus(STAT_PROG_ENABLE, MAX_PROG_WAIT);
    assert dev.seen[..|seen|] == seen;
  }

  method DisableProgram(dev: Device) returns (r: int, ghost issued: seq<Command>)
    requires dev.Valid()
    modifies dev, dev.cells
    ensures dev.configs == old(dev.configs)
    ensures r == 0 || r == -1
    ensures dev.cells[..] == old(dev.cells[..]) && dev.addr == old(dev.addr) && dev.bitsel == old(dev.bitsel)
    ensures dev.commands == old(dev.commands) + issued && NoPulses(issued)
    ensures r == 0 ==> issued == [Command(0, CMD_PROG_DISABLE, old(dev.addr), old(dev.bitsel))]
    ensures Later(old(dev.starts), dev.starts, old(dev.seen), dev.seen) && |dev.seen| > old(|dev.seen|)
    ensures r == 0 <==> And(dev.seen[|dev.seen| - 1], STAT_CMD_DONE) != 0
    ensures dev.Valid() && (old(dev.Idle()) ==> r == 0 && dev.Idle())
  {
    var err, started := dev.SetCommand(0, CMD_PROG_DISABLE);
    issued := if started then [Command(0, CMD_PROG_DISABLE, old(dev.addr), old(dev.bitsel))] else [];
    r := err;
  }

  /** One attempt: setup, pulse, and a look at PROG_OK if the pulse completed. */
  method PulseOnce(dev: Device, hi1: word, cmd: word, hi2: word) returns (ok: bool, ghost issued: seq<Command>)
    requires dev.Valid() && hi1 != 0 && hi2 != 0 && cmd < 0x8000_0000 && dev.bitsel < 32
    modifies dev, dev.cells
    ensures dev.configs == old(dev.configs)
    ensures dev.addr == old(dev.addr) && dev.bitsel == old(dev.bitsel)
    ensures MayPulse(old(dev.cells[..]), dev.cells[..], dev.addr, dev.bitsel)
    ensures dev.Valid() && Later(old(dev.starts), dev.starts, old(dev.seen), dev.seen)
    ensures |dev.seen| >= old(|dev.seen|) + 2
    ensures ok ==> Has(dev.cells[dev.addr], dev.bitsel) && And(dev.seen[|dev.seen| - 1], STAT_PROG_OK) != 0
    ensures dev.behaviour == Responsive ==> ok && issued == Attempt(hi1, cmd, hi2, dev.addr, dev.bitsel)
    ensures dev.commands == old(dev.commands) + issued
    ensures |issued| <= 2 && forall k :: 0 <= k < |issued| ==> issued[k] in Attempt(hi1, cmd, hi2, dev.addr, dev.bitsel)
  {
    hide And, Has, MayPulse;
    ghost var cells0 := dev.cells[..];
    var r1, started1 := dev.SetCommand(hi1, cmd);
    ghost var cells1, starts1, seen1 := dev.cells[..], dev.starts, dev.seen;
    var r2, started2 := dev.SetCommand(hi2, CMD_PULSE);
    ghost var starts2, seen2 := dev.starts, dev.seen;
    PulseTwice(cells0, cells1, dev.cells[..], dev.addr, dev.bitsel);
    LaterStill(old(dev.starts), starts1, starts2, old(dev.seen), seen1, seen2);
    issued := (if started1 then [Command(hi1, cmd, dev.addr, dev.bitsel)] else [])
              + (if started2 then [Command(hi2, CMD_PULSE, dev.addr, dev.bitsel)] else []);
    ok := false;
    if r2 == 0 {
      var s := dev.ReadStatus();
      ok := And(s, STAT_PROG_OK) != 0;
    }
  }

  function Attempt(hi1: word, cmd: word, hi2: word, addr: byte, bit: word): seq<Command>
  {
    [Command(hi1, cmd, addr, bit), Command(hi2, CMD_PULSE, addr, bit)]
  }

  /** One round of up to sixteen attempts; 0 when the device reported success. */
  method PulseRound(dev: Device, hi1: word, cmd: word, hi2: word) returns (err: int, ghost issued: seq<Command>)
    requires dev.Valid() && hi1 != 0 && hi2 != 0 && cmd < 0x8000_0000 && dev.bitsel < 32
    modifies dev, dev.cells
    ensures dev.configs == old(dev.configs)
    ensures err == 0 || err == -1
    ensures dev.addr == old(dev.addr) && dev.bitsel == old(dev.bitsel)
    ensures MayPulse(old(dev.cells[..]), dev.cells[..], dev.addr, dev.bitsel)
    ensures dev.Valid() && Later(old(dev.starts), dev.starts, old(dev.seen), dev.seen)
    ensures err == 0 ==> Has(dev.cells[dev.addr], dev.bitsel) && Shown(dev.seen, old(|dev.seen|), STAT_PROG_OK)
    ensures err == -1 ==> |dev.seen| >= old(|dev.seen|) + 32
    ensures dev.behaviour == Responsive ==> err == 0 && issued == Attempt(hi1, cmd, hi2, dev.addr, dev.bitsel)
    ensures dev.commands == old(dev.commands) + issued
    ensures |issued| <= 32
    ensures forall k :: 0 <= k < |issued| ==> issued[k] in Attempt(hi1, cmd, hi2, dev.addr, dev.bitsel)
  {
    hide And, Has, MayPulse, Attempt, Shown;
    ghost var before := dev.cells[..];
    NoPulse(before, dev.addr, dev.bitsel);
    err := -1;
    issued := [];
    var i := 0;
    while i < MAX_WRITE_RETRIES
      invariant 0 <= i <= MAX_WRITE_RETRIES
      invariant dev.addr == old(dev.addr) && dev.bitsel == old(dev.bitsel) && dev.configs == old(dev.configs)
      invariant MayPulse(before, dev.cells[..], dev.addr, dev.bitsel)
      invariant err == -1 && dev.Valid() && (dev.behaviour == Responsive ==> i == 0)
      invariant Later(old(dev.starts), dev.starts, old(dev.seen), dev.seen) && |dev.seen| >= old(|dev.seen|) + 2 * i
      invariant dev.commands == old(dev.commands) + issued && |issued| <= 2 * i
      invariant forall k :: 0 <= k < |issued| ==> issued[k] in Attempt(hi1, cmd, hi2, dev.addr, dev.bitsel)
    {
      ghost var cells, starts, seen := dev.cells[..], dev.starts, dev.seen;
      var ok: bool;
      ghost var more;
      ok, more := PulseOnce(dev, hi1, cmd, hi2);
      PulseTwice(before, cells, dev.cells[..], dev.addr, dev.bitsel);
      LaterStill(old(dev.starts), starts, dev.starts, old(dev.seen), seen, dev.seen);
      assert dev.behaviour == Responsive ==> issued + more == more;
      issued := issued + more;
      if ok {
        LastShown(dev.seen, old(|dev.seen|), STAT_PROG_OK);
        err := 0;
        break;
      }
      i := i + 1;
    }
  }

  lemma LastShown(seen: seq<word>, from: nat, mask: word)
    requires from < |seen| && And(seen[|seen| - 1], mask) != 0
    ensures Shown(seen, from, mask)
  {
  }

  method ProgramBit(dev: Device, addr: byte, bit: word) returns (err: int, ghost issued: seq<Command>)
    requires dev.Valid() && bit < 32
    modifies dev, dev.cells
    ensures dev.configs == old(dev.configs)
    ensures err == 0 || err == -1
    ensures dev.addr == addr && dev.bitsel == bit
    ensures MayPulse(old(dev.cells[..]), dev.cells[..], addr, bit)
    ensures dev.Valid() && Later(old(dev.starts), dev.starts, old(dev.seen), dev.seen)
    ensures err == 0 ==> Has(dev.cells[addr], bit) && Shown(dev.seen, old(|dev.seen|), STAT_PROG_OK)
    ensures err == -1 ==> |dev.seen| >= old(|dev.seen|) + 64
    ensures dev.behaviour == Responsive ==> err == 0 && issued == BitCommands(addr, bit)
    ensures dev.commands == old(dev.commands) + issued
    ensures |issued| <= 64
    ensures forall k :: 0 <= k < |issued| ==> issued[k] in BitCommands(addr, bit)
  {
    hide And, Has, MayPulse, Shown;
    dev.addr := addr;
    dev.bitsel := bit;
    var cmd: word := if addr < 8 then 0x38_000a else if addr < 77 then 0x58_000a else 0x78_000a;
    ghost var before, starts0, seen0 := dev.cells[..], dev.starts, dev.seen;
    ghost var issued1, issued2;
    err, issued1 := PulseRound(dev, 0x142_0000, cmd, 0x1484);
    ghost var middle, starts, seen := dev.cells[..], dev.starts, dev.seen;
    var err2: int;
    err2, issued2 := PulseRound(dev, 0x942_0000, cmd, 0x800_1484);
    PulseTwice(before, middle, dev.cells[..], addr, bit);
    PulseKeeps(middle, dev.cells[..], addr, bit);
    LaterStill(starts0, starts, dev.starts, seen0, seen, dev.seen);
    ShownLater(seen0, seen, dev.seen, STAT_PROG_OK);
    if err2 == 0 {
      err := 0;
    }
    issued := issued1 + issued2;
    TwoRounds(addr, bit, issued1, issued2);
  }

  lemma ShownLater(seen0: seq<word>, seen1: seq<word>, seen: seq<word>, mask: word)
    requires seen0 <= seen1 <= seen
    ensures Shown(seen1, |seen0|, mask) || Shown(seen, |seen1|, mask) ==> Shown(seen, |seen0|, mask)
  {
    hide And;
    if Shown(seen1, |seen0|, mask) {
      var k :| |seen0| <= k < |seen1| && And(seen1[k], mask) != 0;
      assert seen[k] == seen1[k];
    }
  }

  lemma TwoRounds(addr: byte, bit: word, a: seq<Command>, b: seq<Command>)
    requires forall k :: 0 <= k < |a| ==> a[k] in Attempt(0x142_0000, PulseSetup(addr), 0x1484, addr, bit)
    requires forall k :: 0 <= k < |b| ==> b[k] in Attempt(0x942_0000, PulseSetup(addr), 0x800_1484, addr, bit)
    ensures forall k :: 0 <= k < |a + b| ==> (a + b)[k] in BitCommands(addr, bit)
    ensures Attempt(0x142_0000, PulseSetup(addr), 0x1484, addr, bit)
            + Attempt(0x942_0000, PulseSetup(addr), 0x800_1484, addr, bit) == BitCommands(addr, bit)
  {
  }

  /** The cell so far: nothing lost, nothing beyond the missing bits below `n`. */
  ghost predicate Progress(before: word, cell: word, value: word, n: nat)
  {
    forall i: nat :: i < 32 ==>
      (Has(before, i) ==> Has(cell, i)) && (Has(cell, i) ==> Has(before, i) || (Has(value, i) && i < n))
  }

  /** All missing bits below `n` are in. */
  ghost predicate Complete(cell: word, value: word, n: nat)
  {
    forall i: nat :: i < 32 && i < n && Has(value, i) ==> Has(cell, i)
  }

  /** Nothing changed in any cell but one. */
  ghost predicate OthersKept(before: seq<word>, after: seq<word>, addr: byte)
  {
    |after| == |before| && forall k :: 0 <= k < |before| && k != addr ==> after[k] == before[k]
  }

  method WriteEnabled(dev: Device, addr: byte, newval: word)
    returns (err: nat, ghost readOk: bool, ghost issued: seq<Command>)
    requires dev.Valid()
    modifies dev, dev.cells
    ensures dev.configs == old(dev.configs)
    ensures OthersKept(old(dev.cells[..]), dev.cells[..], addr)
    ensures Progress(old(dev.cells[addr]), dev.cells[addr], newval, 32)
    ensures !readOk ==> dev.cells[..] == old(dev.cells[..]) && err == 0
    ensures readOk && err == 0 ==> Complete(dev.cells[addr], newval, 32)
    ensures dev.Valid() && Later(old(dev.starts), dev.starts, old(dev.seen), dev.seen) && dev.addr == addr
    ensures err > 0 ==> |dev.seen| >= old(|dev.seen|) + 64
    ensures old(dev.Idle()) ==> err == 0 && dev.Idle() && (readOk <==> dev.behaviour == Responsive)
    ensures dev.commands == old(dev.commands) + issued && PulsesMissing(issued, addr, old(dev.cells[addr]), newval)
    ensures dev.behaviour == Responsive ==>
              issued == [Command(0, CMD_READ, addr, old(dev.bitsel))]
                        + MissingCommands(addr, old(dev.cells[addr]), newval, 32)
  {
    hide Has, And, BitCommands, Progress, Complete, OthersKept, MayPulse;
    ghost var before := dev.cells[..];
    var oldval;
    oldval, readOk, issued := ReadOpen(dev, addr);
    NothingProgrammed(before, addr, newval);
    err := 0;
    if oldval == READ_FAILED {
      AllOnes(addr, newval);
      return 0, readOk, issued;
    }
    ghost var read := issued;
    var bitnum: nat := 0;
    while bitnum < 32
      invariant 0 <= bitnum <= 32 && dev.addr == addr && |before| == 256
      invariant OthersKept(before, dev.cells[..], addr)
      invariant Progress(before[addr], dev.cells[addr], newval, bitnum)
      invariant err == 0 ==> Complete(dev.cells[addr], newval, bitnum)
      invariant dev.Valid() && (dev.behaviour == Responsive ==> err == 0)
      invariant Later(old(dev.starts), dev.starts, old(dev.seen), dev.seen)
      invariant err > 0 ==> |dev.seen| >= old(|dev.seen|) + 64
      invariant dev.commands == old(dev.commands) + issued
      invariant PulsesMissing(issued, addr, before[addr], newval)
      invariant readOk && oldval == before[addr] && dev.configs == old(dev.configs)
      invariant dev.behaviour == Responsive ==> issued == read + MissingCommands(addr, before[addr], newval, bitnum)
    {
      TestBits(oldval, newval, bitnum);
      if And(oldval, Pow2(bitnum)) != 0 || And(newval, Pow2(bitnum)) == 0 {
        BitSkipped(before[addr], dev.cells[addr], newval, bitnum);
        bitnum := bitnum + 1;
        continue;
      }
      ghost var cells, starts, seen := dev.cells[..], dev.starts, dev.seen;
      var e;
      ghost var more;
      e, more := ProgramBit(dev, addr, bitnum);
      LaterStill(old(dev.starts), starts, dev.starts, old(dev.seen), seen, dev.seen);
      BitTried(before, cells, dev.cells[..], addr, newval, bitnum);
      PulsesMore(issued, more, addr, before[addr], newval, bitnum);
      issued := issued + more;
      if e < 0 {
        err := err + 1;
      }
      bitnum := bitnum + 1;
    }
  }

  lemma PulsesMore(cs: seq<Command>, more: seq<Command>, addr: byte, before: word, value: word, bit: word)
    requires PulsesMissing(cs, addr, before, value)
    requires bit < 32 && !Has(before, bit) && Has(value, bit)
    requires forall k :: 0 <= k < |more| ==> more[k] in BitCommands(addr, bit)
    ensures PulsesMissing(cs + more, addr, before, value)
  {
    hide Has;
  }

  lemma NothingProgrammed(before: seq<word>, addr: byte, value: word)
    requires |before| == 256
    ensures OthersKept(before, before, addr) && Progress(before[addr], before[addr], value, 0)
    ensures Progress(before[addr], before[addr], value, 32)
    ensures Complete(before[addr], value, 0)
  {
  }

  lemma BitSkipped(before: word, cell: word, value: word, n: nat)
    requires n < 32 && Progress(before, cell, value, n) && (Has(before, n) || !Has(value, n))
    ensures Progress(before, cell, value, n + 1)
    ensures Complete(cell, value, n) ==> Complete(cell, value, n + 1)
  {
    hide Has;
  }

  lemma BitTried(before: seq<word>, cells: seq<word>, after: seq<word>, addr: byte, value: word, n: nat)
    requires n < 32 && |before| == 256 && OthersKept(before, cells, addr) && MayPulse(cells, after, addr, n)
    requires Progress(before[addr], cells[addr], value, n) && Has(value, n)
    ensures OthersKept(before, after, addr) && Progress(before[addr], after[addr], value, n + 1)
    ensures Has(after[addr], n) && Complete(cells[addr], value, n) ==> Complete(after[addr], value, n + 1)
  {
    hide Has, Or32Bit;
    PulseKeeps(cells, after, addr, n);
  }

  /** In all the new commands, no pulse is started before a status with PROG_ENABLE was shown. */
  ghost predicate EnabledFirst(cs: seq<Command>, starts: seq<nat>, seen: seq<word>, from: nat)
    requires |cs| <= |starts|
  {
    exists e :: from <= e < |seen| && And(seen[e], STAT_PROG_ENABLE) != 0 &&
      forall k :: 0 <= k < |cs| && IsPulse(cs[k]) ==> e < starts[|starts| - |cs| + k]
  }

  /** `errors` counts the bits whose programming the device did not confirm. */
  method WriteOpen(dev: Device, addr: byte, val: word)
    returns (r: int, ghost readOk: bool, ghost errors: nat, ghost issued: seq<Command>)
    requires dev.Valid()
    modifies dev, dev.cells
    ensures dev.configs == old(dev.configs)
    ensures dev.Valid() && Later(old(dev.starts), dev.starts, old(dev.seen), dev.seen) && |dev.seen| > old(|dev.seen|)
    ensures WriteOutcome(old(dev.cells[..]), dev.cells[..], addr, val, r, readOk)
    ensures r == ERR_PROGRAM <==> errors > 0
    ensures errors > 0 ==> |dev.seen| >= old(|dev.seen|) + 64
    ensures r == 0 ==> And(dev.seen[|dev.seen| - 1], STAT_CMD_DONE) != 0
    ensures r == ERR_DISABLE ==> And(dev.seen[|dev.seen| - 1], STAT_CMD_DONE) == 0
    ensures dev.commands == old(dev.commands) + issued
    ensures CommandsBracketed(issued, old(dev.addr), addr, old(dev.cells[addr]), val, r)
    ensures r != ERR_ENABLE ==> EnabledFirst(issued, dev.starts, dev.seen, old(|dev.seen|))
    ensures old(dev.Idle()) ==> r == 0 && (readOk <==> dev.behaviour == Responsive)
    ensures dev.behaviour == Responsive ==>
              issued == Transcript(old(dev.addr), addr, old(dev.cells[addr]), val, dev.bitsel)
  {
    hide Has, And, Progress, Complete, BitCommands, EnabledFirst;
    ghost var before, starts0, seen0 := dev.cells[..], dev.starts, dev.seen;
    readOk, errors := false, 0;
    var enabled;
    enabled, issued := EnableProgram(dev);
    if enabled != 0 {
      NoProgress(before[addr], val);
      return ERR_ENABLE, false, 0, issued;
    }
    ghost var starts1, seen1 := dev.starts, dev.seen;
    var failed: nat;
    ghost var writes, disables;
    failed, readOk, writes := WriteEnabled(dev, addr, val);
    errors := failed;
    r := if failed != 0 then ERR_PROGRAM else 0;
    ghost var starts2, seen2 := dev.starts, dev.seen;
    var disabled;
    disabled, disables := DisableProgram(dev);
    if disabled != 0 {
      r := if r != 0 then r else ERR_DISABLE;
    }
    WriteDone(before[addr], dev.cells[addr], val);
    LaterStill(starts1, starts2, dev.starts, seen1, seen2, dev.seen);
    AfterEnable(issued, writes + disables, starts0, starts1, dev.starts, seen0, seen1, dev.seen);
    LaterStill(starts0, starts1, dev.starts, seen0, seen1, dev.seen);
    issued := issued + (writes + disables);
  }

  lemma AfterEnable(a: seq<Command>, b: seq<Command>, starts0: seq<nat>, starts1: seq<nat>, starts: seq<nat>,
                    seen0: seq<word>, seen1: seq<word>, seen: seq<word>)
    requires Later(starts0, starts1, seen0, seen1) && Later(starts1, starts, seen1, seen)
    requires NoPulses(a) && |starts1| == |starts0| + |a| && |starts| == |starts1| + |b|
    requires |seen1| > |seen0| && And(seen1[|seen1| - 1], STAT_PROG_ENABLE) != 0
    ensures EnabledFirst(a + b, starts, seen, |seen0|)
  {
    hide And;
    var e := |seen1| - 1;
    assert seen[e] == seen1[e];
  }

  /** What a write sends to a device that answers: unlock, read, two rounds for each missing bit, lock. */
  function Transcript(addr0: byte, addr: byte, before: word, val: word, lastBit: word): seq<Command>
  {
    Enables(addr0) + ([Command(0, CMD_READ, addr, 0xd)] + MissingCommands(addr, before, val, 32)
                      + [Command(0, CMD_PROG_DISABLE, addr, lastBit)])
  }

  /**
   Every run of `otp_write`, with whatever time-outs and failures the device produces. The cell ends between its old
   value and the old value with the new bits; no other cell changes; success after a good read means exactly the
   new bits are in; pulses only ever go to bits that were missing, and none is started before the device has shown
   PROG_ENABLE, without which the result is ERR_ENABLE. A device that is only too slow to be read shows that the
   failure is real: whatever `val` asks for, the result is 0 and nothing was written.
   */
  method Write(dev: Device, addr: byte, val: word)
    returns (r: int, ghost readOk: bool, ghost errors: nat, ghost issued: seq<Command>)
    requires dev.Valid()
    modifies dev, dev.cells
    ensures WriteOutcome(old(dev.cells[..]), dev.cells[..], addr, val, r, readOk)
    ensures r == ERR_PROGRAM <==> errors > 0
    ensures Later(old(dev.starts), dev.starts, old(dev.seen), dev.seen) && |dev.seen| > old(|dev.seen|)
    ensures r == 0 ==> And(dev.seen[|dev.seen| - 1], STAT_CMD_DONE) != 0
    ensures r == ERR_DISABLE ==> And(dev.seen[|dev.seen| - 1], STAT_CMD_DONE) == 0
    ensures dev.commands == old(dev.commands) + issued && |dev.starts| == |dev.commands|
    ensures CommandsBracketed(issued, 0, addr, old(dev.cells[addr]), val, r)
    ensures r != ERR_ENABLE ==> EnabledFirst(issued, dev.starts, dev.seen, old(|dev.seen|))
    ensures dev.Valid()
    ensures dev.behaviour == Responsive ==> r == 0 && dev.cells[addr] == Or(old(dev.cells[addr]), val)
    ensures dev.behaviour == Responsive ==> issued == Transcript(0, addr, old(dev.cells[addr]), val, dev.bitsel)
    ensures dev.behaviour == SlowReads ==> r == 0 && !readOk && dev.cells[..] == old(dev.cells[..])
    ensures dev.config == 0 && dev.ctrlHi == 0 && dev.ctrlLo == 0 && dev.configs == old(dev.configs) + [3, 2, 0]
  {
    hide EnabledFirst, Later, CommandsBracketed, Transcript, And;
    dev.SetConfig(3);
    dev.reading := false;
    dev.ctrlHi, dev.ctrlLo, dev.addr, dev.data := 0, 0, 0, 0;
    dev.SetConfig(2);
    r, readOk, errors, issued := WriteOpen(dev, addr, val);
    dev.ctrlHi, dev.ctrlLo := 0, 0;
    dev.SetConfig(0);
  }

  /**
   What a write may leave behind. `readOk` says that the initial read of the cell succeeded. A result of 0 means
   that the cell holds the old and the new bits if and only if that read succeeded or there was nothing to add:
   a failed read is reported as success.
   */
  ghost predicate WriteOutcome(before: seq<word>, after: seq<word>, addr: byte, val: word, r: int, readOk: bool)
  {
    && |before| == 256
    && OthersKept(before, after, addr)
    && Between(before[addr], after[addr], val)
    && (r == 0 || r == ERR_PROGRAM || r == ERR_ENABLE || r == ERR_DISABLE)
    && (r == ERR_ENABLE || !readOk ==> after == before)
    && (r == 0 ==> (after[addr] == Or(before[addr], val) <==> readOk || Or(before[addr], val) == before[addr]))
    && (r == ERR_DISABLE && readOk ==> after[addr] == Or(before[addr], val))
  }

  /** The commands of a write: four enables, then reads and pulses of missing bits, then, on success, the disable. */
  ghost predicate CommandsBracketed(cs: seq<Command>, addr0: byte, addr: byte, before: word, val: word, r: int)
  {
    && PulsesMissing(cs, addr, before, val)
    && (r == ERR_ENABLE ==> NoPulses(cs))
    && (r != ERR_ENABLE ==> |cs| >= 4 && cs[..4] == Enables(addr0))
    && (r == 0 ==> cs[|cs| - 1].hi == 0 && cs[|cs| - 1].cmd == CMD_PROG_DISABLE)
  }

  /** Rewriting what is already there issues no pulse at all. */
  lemma RewritingIsHarmless(cs: seq<Command>, addr0: byte, addr: byte, before: word, val: word, r: int)
    requires CommandsBracketed(cs, addr0, addr, before, val, r) && Or(before, val) == before
    ensures NoPulses(cs)
  {
    hide Or, Low, Shr, Field;
    forall k | 0 <= k < |cs|
      ensures !IsPulse(cs[k])
    {
      if IsPulse(cs[k]) {
        var i := cs[k].bitsel;
        FieldOr(before, val, i, 1);
        BitBound(before, i);
        BitBound(val, i);
        BitOr(Field(before, i, 1), Field(val, i, 1));
      }
    }
  }

  lemma TestBits(a: nat, b: nat, i: nat)
    ensures And(a, Pow2(i)) != 0 <==> Has(a, i)
    ensures And(b, Pow2(i)) == 0 <==> !Has(b, i)
  {
    TestBit(a, i);
    TestBit(b, i);
  }

  /** A cell of all ones, which looks like a failed read, has every bit: nothing is missing. */
  lemma AllOnes(addr: byte, value: word)
    ensures Complete(READ_FAILED, value, 32)
    ensures MissingCommands(addr, READ_FAILED, value, 32) == []
  {
    hide Low, Shr, Pow2;
    forall i: nat | i < 32
      ensures Has(READ_FAILED, i)
    {
      PowTable();
      ShrTop(i);
    }
    hide Has;
    NoneMissing(addr, READ_FAILED, value, 32);
  }

  lemma {:induction false} NoneMissing(addr: byte, before: word, value: word, n: nat)
    requires n <= 32 && forall i: nat :: i < n ==> Has(before, i)
    ensures MissingCommands(addr, before, value, n) == []
  {
    hide Has;
    if n > 0 {
      assert Has(before, n - 1);
      NoneMissing(addr, before, value, n - 1);
    }
  }

  lemma ShrTop(i: nat)
    requires i < 32
    ensures Has(READ_FAILED, i)
  {
    PowTable();
    Ones(i, 32);
  }

  lemma {:induction false} Ones(i: nat, n: nat)
    requires i < n
    ensures Has(Pow2(n) - 1, i)
  {
    assert (Pow2(n) - 1) / 2 == Pow2(n - 1) - 1;
    if i > 0 {
      Ones(i - 1, n - 1);
    } else {
      LowestBit(Pow2(n) - 1);
    }
  }

  lemma NoProgress(before: word, val: word)
    ensures Between(before, before, val)
  {
  }

  lemma WriteDone(before: word, cell: word, val: word)
    requires Progress(before, cell, val, 32)
    ensures Between(before, cell, val)
    ensures Complete(cell, val, 32) ==> cell == Or(before, val)
  {
    hide Or, Has;
    if Complete(cell, val, 32) {
      forall i: nat | i < 32
        ensures Has(cell, i) <==> Has(Or(before, val), i)
      {
        OrHas(before, val, i);
      }
      PowTable();
      OrBound(before, val, 32);
      BitsDecide(cell, Or(before, val), 32);
    }
  }

  lemma OrHas(a: nat, b: nat, i: nat)
    ensures Has(Or(a, b), i) <==> Has(a, i) || Has(b, i)
  {
    hide Or, Low, Shr, Field;
    FieldOr(a, b, i, 1);
    BitBound(a, i);
    BitBound(b, i);
    BitOr(Field(a, i, 1), Field(b, i, 1));
  }

  // Laws of bits and pulses.

  lemma PulseTwice(a: seq<word>, b: seq<word>, c: seq<word>, addr: byte, bit: word)
    requires MayPulse(a, b, addr, bit) && MayPulse(b, c, addr, bit)
    ensures MayPulse(a, c, addr, bit)
  {
    hide Or, Pow2;
    if b != a {
      PowBelow(bit);
      OrTwice(a[addr], Pow2(bit));
      assert b[addr := Or32Bit(b[addr], bit)] == b;
    }
  }

  lemma {:induction false} OrTwice(a: nat, b: nat)
    ensures Or(Or(a, b), b) == Or(a, b)
  {
    if a == 0 {
      OrSelf(b);
    } else if b != 0 {
      OrTwice(a / 2, b / 2);
      assert Or(a, b) / 2 == Or(a / 2, b / 2);
    }
  }

  lemma {:induction false} OrSelf(b: nat)
    ensures Or(b, b) == b
  {
    if b != 0 {
      OrSelf(b / 2);
    }
  }

  lemma PulseKeeps(a: seq<word>, b: seq<word>, addr: byte, bit: word)
    requires MayPulse(a, b, addr, bit) && |a| == 256 && bit < 32
    ensures |b| == 256 && forall i: nat :: i < 32 ==> (Has(a[addr], i) ==> Has(b[addr], i))
    ensures forall i: nat :: i < 32 && Has(b[addr], i) ==> Has(a[addr], i) || i == bit
  {
    hide Has, Or, Pow2;
    forall i: nat | i < 32
      ensures Has(a[addr], i) ==> Has(b[addr], i)
      ensures Has(b[addr], i) ==> Has(a[addr], i) || i == bit
    {
      OrBit(a[addr], bit, i);
    }
  }

  lemma OrBit(a: word, bit: word, i: nat)
    requires bit < 32
    ensures Has(Or32Bit(a, bit), i) <==> Has(a, i) || i == bit
  {
    hide Or, Pow2, Field;
    PowBelow(bit);
    FieldOr(a, Pow2(bit), i, 1);
    PowBit(bit, i);
    PowTable();
    BitBound(a, i);
    BitOr(Field(a, i, 1), Field(Pow2(bit), i, 1));
  }

  lemma BitOr(x: nat, y: nat)
    requires x < 2 && y < 2
    ensures Or(x, y) == 1 <==> x == 1 || y == 1
  {
  }

  lemma {:induction false} PowBit(m: nat, i: nat)
    ensures Field(Pow2(m), i, 1) == if m == i then 1 else 0
  {
    if m > 0 && i > 0 {
      PowBit(m - 1, i - 1);
    } else if m == 0 && i > 0 {
      ShrZero(i - 1);
      LowZero(1);
      assert Shr(1, i) == Shr(0, i - 1);
    } else {
      LowestBit(Pow2(m));
      BitBound(Pow2(m), 0);
    }
  }

  lemma LowestBit(a: nat)
    ensures Has(a, 0) <==> a % 2 == 1
  {
    assert Low(a / 2, 0) == 0;
  }

  /** Two words with the same bits are the same. */
  lemma {:induction false} BitsDecide(a: nat, b: nat, n: nat)
    requires a < Pow2(n) && b < Pow2(n)
    requires forall i: nat :: i < n ==> (Has(a, i) <==> Has(b, i))
    ensures a == b
  {
    if n > 0 {
      LowestBit(a);
      LowestBit(b);
      assert Has(a, 0) <==> Has(b, 0);
      forall i: nat | i < n - 1
        ensures Has(a / 2, i) <==> Has(b / 2, i)
      {
        assert Has(a, i + 1) <==> Has(b, i + 1);
      }
      BitsDecide(a / 2, b / 2, n - 1);
    }
  }

  lemma PowBelow(bit: nat)
    requires bit < 32
    ensures Pow2(bit) < TWO32
  {
    PowTable();
    PowMono(bit, 32);
  }

}
