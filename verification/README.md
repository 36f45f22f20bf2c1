# Verified model of metalpi's boot code

This project models, in Dafny, the parts of the bcm28xx boot code that hold real state, framing or arithmetic, and
proves what they promise. `dafny verify dfyconfig.toml` checks all of it.

- **Display lists** (`Bits`, `DisplayList`, `ListWalk`, `ListStores`, `Hvs`). The HVS driver appends planes of 7, 9,
  11, 12 or 14 words to a 4096-word memory, closes the list with an END word and publishes its start. The writers are
  methods of a class over an array; every store and every publication is recorded in a ghost log, so that properties
  can speak of the screen after each single store. The list walk of `hvs_dump` is proved to show exactly the planes
  written, although payload words carry the same top bits that mark headers.
- **Sprite demo** (`Frames`, `Dance`). The frame update is an allocator with two wrap rules that writes a new list
  while the old one is on display. Up to a sprite limit of 97 no store of any run damages the list on display; the
  command that sets the limit allows 580, and already limits 98, 98, 97, 98, 98 after the start of the demo make the
  display find an END word where its list should begin. A run stays inside the list memory if and only if each of its
  lists fits by itself; above 292 sprites the overflow branch is reached and calls itself for ever.
- **XMODEM** (`Xmodem`, `XmodemLine`, `Stage1`). The receiver is a function of the byte stream; the receive loop,
  over a console that splits the stream at will, computes it. Sender, faulty half-duplex line and receiver form a
  transition system in which every finished transfer delivers the file. Two findings: damage that turns the magic
  byte into an end-of-transmission byte ends the transfer as a success, and the image handed on is one block longer
  than what was received.
- **SD card** (`Bitfield`, `SdCard`). The byte-at-a-time bit-field loop equals one division and one remainder of the
  whole number; card capacity and sector addresses follow the SD Physical Layer Simplified Specification, with the
  exact limits at which 32-bit arithmetic breaks them (1 TiB for version 2 cards, 4 GiB for byte addressing).
- **PLLs** (`Pll`). Programming and reading back, through field splitting, rounding and the prescaler. On every PLL
  but PLLH the prescale bit is lost, and KI keeps its old bits, because ANA1 is masked with the KI mask instead of its
  complement; `docs/pll-inspection.txt` says that KI becomes 2 and the other bits stay. On PLLH the largest request,
  0xffffffff, is rounded up past 32 bits and reads back as 25 Hz. The model follows the code and states exactly when
  the read-back is right, when it grows with the request, and when KI becomes 2. Every store is logged: each carries the
  password, and the prescaler never leaves the divider alone with a frequency it does not cope with.
- **One-time-programmable memory** (`Otp`). The writer against a device that may time out or refuse at every command.
  A failed initial read is reported as success; the exact condition is part of the contract, and a device that merely
  takes longer for a read than the driver waits makes it happen in every write. No pulse is ever started before the
  device has confirmed that programming is enabled.
- **Packed registers** (`PackedFields`, `Gpio`, `Intc`). 3-bit and 4-bit fields that act as plain maps, and the
  pull-resistor sequence.

Machine words are bounded integers (`Bits.word`); `&`, `|`, `~`, `<<` and `>>` are defined bit by bit, and wrap-around
is written out wherever the C code has it. Device answers that the code cannot control are nondeterministic.

## Model

| member | source | states |
|---|---|---|
| ListWalk.DecodePlane | bootcode/platform/bcm28xx/hvs/hvs.c:296-339 | the words of any plane read back as its format, scaler modes, flip, position, size, pointer and pitch, and its word count is its length |
| ListWalk.HeaderTells | bootcode/platform/bcm28xx/hvs/hvs.c:46-56 | every field of every header, down to the pixel format numbers; the bits of the scaler mode say in which directions the plane is shrunk, and the mode announces the scaling words that follow |
| ListWalk.WordsTell | bootcode/platform/bcm28xx/hvs/hvs.c:57-118 | every word between header and scaling words as a number, at its place: position, sizes, pointer with its alias bits, pitch, line buffer |
| ListWalk.WalkShowsList | bootcode/platform/bcm28xx/hvs/hvs.c:290-344 | for every list of unity and scaled planes and every window, the walk shows exactly the planes whose header the window reaches, in order, and never takes a payload word for a header |
| ListWalk.ExpectedStop | bootcode/platform/bcm28xx/hvs/hvs.c:290-295 | the walk ends at the list's own END word if and only if the window covers it |
| ListWalk.ExpectedEntries | bootcode/platform/bcm28xx/hvs/hvs.c:290-342 | a covering window shows one entry a plane, each at the plane's own header |
| ListWalk.WalkFinds | bootcode/platform/bcm28xx/hvs/hvs.c:290-344 | over any memory, well-formed or not: every entry is the next header in the window, none is left out, each is read from its own words, and the stop is the next END word, the end of the window or the end of the memory |
| ListWalk.EntryFits | bootcode/platform/bcm28xx/hvs/hvs.c:233-264 | position, size, pitch and pointer are printed as written if and only if they fit the fields the dump reads |
| ListWalk.ScaledSizeFits | bootcode/platform/bcm28xx/hvs/hvs.c:112 | the scaled size can be read from position word 1 if and only if both dimensions are below 4096 |
| ListWalk.TpzRecoversSize | bootcode/platform/bcm28xx/hvs/hvs.c:65-70 | the 16.16 step recovers the target size if and only if the source is below 65536; the reciprocal is the largest without overflow; the shifted step fits if and only if the source is below 256 times the target |
| ListWalk.StepsGiveScreenSize | bootcode/platform/bcm28xx/hvs/hvs.c:141-148 | in each direction in which a plane is shrunk its own step gives back the screen size, and the words of the vertical step come behind those of the horizontal one, if there are any |
| ListStores.PlaneEventsWrite | bootcode/platform/bcm28xx/hvs/hvs.c:102-151 | the stores of a plane, with the header patched last, leave exactly its words and touch nothing else |
| ListStores.ValidLast | bootcode/platform/bcm28xx/hvs/hvs.c:102-151 | until the last store of a scaled plane its header is not valid |
| ListStores.FrameShows | bootcode/platform/bcm28xx/hvs-dance/dance.c:69-121 | after a frame's events the published list is the new one |
| ListStores.FrameKeeps | bootcode/platform/bcm28xx/hvs-dance/dance.c:69-121 | before the last event of a frame, a list outside the words written is still published and intact |
| Hvs.Scaler.AddPlane | bootcode/platform/bcm28xx/hvs/hvs.c:47-63 | the stores of a unity plane, in order, and the slot after them |
| Hvs.Scaler.WriteTpz | bootcode/platform/bcm28xx/hvs/hvs.c:65-70 | the two scaling words of one dimension |
| Hvs.Scaler.AddPlaneScaled | bootcode/platform/bcm28xx/hvs/hvs.c:72-152 | the stores of a scaled plane of 9, 11, 12 or 14 words, header closed by the final patch, and the layer count; what the words say is in `ListWalk.HeaderTells` and `ListWalk.WordsTell` |
| Hvs.Scaler.TerminateList | bootcode/platform/bcm28xx/hvs/hvs.c:154-157 | the END word and the reset of the layer count |
| Hvs.Scaler.WipeDisplayList | bootcode/platform/bcm28xx/hvs/hvs.c:222-227 | END words in the first 1024 slots only, slot back to 0 |
| Hvs.Scaler.HvsDump | bootcode/platform/bcm28xx/hvs/hvs.c:290-344 | the dump loop computes the walk of 64 words from the published start, for any memory, and so finds what `ListWalk.WalkFinds` says |
| Hvs.DumpCompleteIff | bootcode/platform/bcm28xx/hvs/hvs.c:290 | the dump of an intact list is complete if and only if the list is shorter than 64 words |
| Frames.OverflowIffTooLong | bootcode/platform/bcm28xx/hvs-dance/dance.c:51-127 | the overflow branch is reached if and only if the list alone exceeds the memory, whatever the slot; with 14-word sprites, above 292 |
| Frames.FramePlaced | bootcode/platform/bcm28xx/hvs-dance/dance.c:55-126 | a frame is put behind the one before exactly if its sprites, counted with 14 words, fit there, so lists of 14-word sprites start over only when they must; the next slot is behind the END word, up to 4000 |
| Frames.LineBuffersApart | bootcode/platform/bcm28xx/hvs/hvs.c:118-119 | every sprite of a frame gets its own 720 words of line buffer, and the layer count a frame starts from never exceeds 10 |
| Frames.FrameReady | bootcode/platform/bcm28xx/hvs-dance/dance.c:51-127 | with at most 97 sprites a frame writes apart from the list on display, keeps the invariant between frames, and leaves the slot in 0..4000 |
| Frames.RunNeverTears | bootcode/platform/bcm28xx/hvs-dance/dance.c:51-127 | in every run with limits at most 97, changing or not, after every single store the published list holds exactly the words of the planes it was written for and walks to them and its END word |
| Frames.SafeExactlyUpTo97 | bootcode/platform/bcm28xx/hvs-dance/dance.c:51-127 | all runs of the program, from any screen it may find at its start, with limits up to L are safe if and only if L is at most 97 |
| Frames.TornRun | bootcode/platform/bcm28xx/hvs-dance/dance.c:55-58 | from the start of the demo, limits 98, 98, 97, 98, 98 overwrite the header the display starts at: it finds an END word there and shows nothing |
| Frames.BootReady | bootcode/platform/bcm28xx/vec/vec.c:116-130 | the two lists of the video output leave the invariant every run needs, the list at slot 8 on display and the allocator behind it |
| Frames.RunInTwo | bootcode/platform/bcm28xx/hvs-dance/dance.c:51-127 | events, screen and list on display of a run in two parts are those of the second part from where the first ends |
| Frames.RunStaysInMemory | bootcode/platform/bcm28xx/hvs-dance/dance.c:51-127 | every store of a run falls into the 4096 words and every list starts in slot 0 to 4000 if and only if each list of the run fits the memory by itself |
| Frames.MotionBounces | bootcode/platform/bcm28xx/hvs-dance/dance.c:73-94 | a sprite inside the screen stays inside; it overhangs the far edge by at most its speed, for one frame, and turns back |
| Frames.MotionLaw | bootcode/platform/bcm28xx/hvs-dance/dance.c:73-94 | a bouncing sprite moves by its new speed except where it is reflected at the near edge, and its speed turns back exactly at an edge |
| Frames.MotionEdges | bootcode/platform/bcm28xx/hvs-dance/dance.c:73-94 | the motion of a sprite from any position at any speed, edge by edge, with the wrap to the other side |
| Frames.MotionLaunches | bootcode/platform/bcm28xx/hvs-dance/dance.c:73-94 | a sprite mirrored off the left or upper edge by at most a screen less 105 pixels is inside after one frame |
| Frames.FrameBounces | bootcode/platform/bcm28xx/hvs-dance/dance.c:71-94 | the sprites a frame moves are inside afterwards, in both directions, and those inside stay so |
| Frames.RunBounces | bootcode/platform/bcm28xx/hvs-dance/dance.c:51-127 | in every run, a sprite that some frame has shown bounces inside the screen from then on |
| Frames.RunGlides | bootcode/platform/bcm28xx/hvs-dance/dance.c:71-94 | in any run, a sprite that meets no edge has moved by its speed once for each frame that showed it, and its speed is what it was |
| Frames.RunKeepsSpeeds | bootcode/platform/bcm28xx/hvs-dance/dance.c:73-94 | no run changes how fast any sprite moves along either axis |
| Frames.FrameShowsPositions | bootcode/platform/bcm28xx/hvs-dance/dance.c:71-121 | after a frame all its sprites are on the screen and the published list decodes to exactly their positions, in order, each 100 by 100, unflipped, with the pointer of the bitmap |
| Frames.RunShowsPositions | bootcode/platform/bcm28xx/hvs-dance/dance.c:51-127 | so after every run, however the limit changes |
| Dance.Dancer.MoveItem | bootcode/platform/bcm28xx/hvs-dance/dance.c:72-94 | the in-place motion of one sprite is `Frames.Moved`, whose laws are the `Frames.Motion` rows; other sprites are untouched |
| Dance.Dancer.WriteSprites | bootcode/platform/bcm28xx/hvs-dance/dance.c:71-111 | the sprite loop moves the first sprites and appends their planes, in order |
| Dance.Dancer.FinishFrame | bootcode/platform/bcm28xx/hvs-dance/dance.c:112-126 | END word before publication, then the tail wrap; the overflow branch is dead |
| Dance.Dancer.DoFrameUpdate | bootcode/platform/bcm28xx/hvs-dance/dance.c:51-127 | one frame update is one step of the transition system, with exactly its events; a delayed frame changes nothing; up to limit 97 the invariant between frames is kept |
| Dance.Dancer.DrawnFrames | bootcode/platform/bcm28xx/hvs-dance/dance.c:52-54 | with a delay of d, frame 0 and every d-th after it is drawn, and none between |
| Dance.Dancer.SetLimit | bootcode/platform/bcm28xx/hvs-dance/dance.c:245-249 | the limit never exceeds the number of sprites |
| Dance.Dancer.Scramble | bootcode/platform/bcm28xx/hvs-dance/dance.c:208-231 | every sprite starts where its own four signed random numbers put it, sprite 0 at rest at (40, 100); given room for the bitmap all start where the motion theorems need them, and the 493x620 bitmap on the 720x480 screen has it |
| Dance.ShowBackground | bootcode/platform/bcm28xx/vec/vec.c:116-119 | the first list over the wiped memory |
| Dance.ShowLogo | bootcode/platform/bcm28xx/vec/vec.c:124-128 | the second list, background and scaled logo, and the slot behind it |
| Dance.StartDemo | bootcode/platform/bcm28xx/vec/vec.c:116-130 | both lists and the start of the demo lead from any screen to a start state of the transition system, with its invariant and every sprite ready to bounce |
| Xmodem.AcceptTells | bootcode/app/vc4-stage1/stage1.c:132-159 | what any packet does, byte by byte: stored exactly if its last byte is the sum of the payload modulo 256, its third the complement of its second, and its second the awaited block modulo 256; answered with 6 then and for the block before, with 0x15 otherwise |
| Xmodem.SumConcat | bootcode/app/vc4-stage1/stage1.c:132-135 | the checksum of two pieces is the sum of their checksums; with `Xmodem.SumOne`, of one byte that byte, it is the plain byte sum |
| Xmodem.StandardPacketStored | bootcode/app/vc4-stage1/stage1.c:137-148 | the packet a standard sender makes of any 128 bytes is stored by a receiver that waits for its block |
| Xmodem.ZeroBlockTransfer | bootcode/app/vc4-stage1/stage1.c:125-148 | one block of zeros and the byte 4 are a successful transfer, answered with 0x15 and 6 |
| Xmodem.SingleByteErrorRefused | bootcode/app/vc4-stage1/stage1.c:137-159 | a packet that differs from a genuine one in one byte after the magic is never stored and always refused, for every payload |
| Xmodem.MagicDamageHarmlessIff | bootcode/app/vc4-stage1/stage1.c:126-131 | damage to the magic byte changes nothing if and only if it does not spell end-of-transmission |
| XmodemLine.EveryStateInStep | bootcode/app/vc4-stage1/stage1.c:126-161 | in every reachable state the sender is on the receiver's block or the one before, and the stored bytes are exactly the sender's first blocks, for any file length |
| XmodemLine.TransferDeliversFile | bootcode/app/vc4-stage1/stage1.c:126-161 | when a run ends, the bytes that reached the receiver make it report success with exactly the file |
| XmodemLine.CleanRoundAdvances | bootcode/app/vc4-stage1/stage1.c:144-151 | after any faults, one clean round completes the sender's block |
| XmodemLine.HandedOneBlockTooMany | bootcode/app/vc4-stage1/stage1.c:166 | the length handed on is one block more than received, and exceeds the buffer if and only if the file fills it |
| Stage1.ReadRepeat | bootcode/app/vc4-stage1/stage1.c:103-114 | exactly the wanted bytes in order of arrival for any split of the input, or -1 when the source stops first |
| Stage1.HandlePacket | bootcode/app/vc4-stage1/stage1.c:137-160 | one packet: stored, acknowledged again, or refused |
| Stage1.XmodemReceive | bootcode/app/vc4-stage1/stage1.c:116-163 | buffer, replies and success of the receive loop are the reception of the byte stream, independent of its pieces |
| Bitfield.Extract | bootcode/platform/bcm28xx/sdhost/sd_proto.hpp:343-370 | the loop returns floor(V / 2^start) mod 2^len of the whole number as an `int`, for any length up to 32 at any offset; 0 for bad arguments |
| Bitfield.ByteOfValue | bootcode/platform/bcm28xx/sdhost/sd_proto.hpp:357 | byte k of the little-endian words is bits 8k to 8k+7 of the number |
| Bitfield.LoopStep | bootcode/platform/bcm28xx/sdhost/sd_proto.hpp:356-366 | one turn of the loop extends the field read so far, also when its last byte overshoots |
| SdCard.SdHost.ComputeCapacity | bootcode/platform/bcm28xx/sdhost/sdhost_impl.cpp:457-482 | capacity is the formula of section 5.3.2 for version 1 cards always, and of section 5.3.3 for version 2 cards if and only if C_SIZE+1 is below 2^21; other versions are refused |
| SdCard.CsdFields | bootcode/platform/bcm28xx/sdhost/sd_proto.hpp:247-288 | the fields in the four words of the response, two of them across a word boundary |
| SdCard.CapacityFormulas | bootcode/platform/bcm28xx/sdhost/sd_proto.hpp:277-286 | the capacities are C_SIZE + 1 times 2^(C_SIZE_MULT + READ_BL_LEN + 2) and times 2^19 |
| SdCard.SdHost.SectorsInsideCard | bootcode/platform/bcm28xx/sdhost/sdhost_impl.cpp:355-370 | on either kind of card, every sector below the block count is read from its own 512 bytes of the card if and only if the card is block-addressed or has at most 2^23 blocks |
| SdCard.SdHost.SectorPlace | bootcode/platform/bcm28xx/sdhost/sdhost_impl.cpp:355-370 | a single sector is read from its own place if and only if the card is block-addressed or the sector is below 2^23 |
| SdCard.BlocksCoverCard | bootcode/platform/bcm28xx/sdhost/sdhost_impl.cpp:615 | with READ_BL_LEN at least 9 the block count loses no byte |
| Pll.ReadBackCloseIff | bootcode/platform/bcm28xx/pll/pll_control.c:299-341 | for every 32-bit request the frequency read back is at most 10 Hz below and 27 Hz above it if and only if the PLL is PLLH and the request is not 0xffffffff, or the request is at most 1750 MHz |
| Pll.ReadBackMonotoneIff | bootcode/platform/bcm28xx/pll/pll_control.c:299-309 | on PLLH, of two requests the higher one reads back lower if and only if it is 0xffffffff and the other is above 27 Hz, also across the prescaler threshold |
| Pll.LargestRequest | bootcode/platform/bcm28xx/pll/pll_control.c:299-309 | the request 0xffffffff reads back as 25 Hz |
| Pll.PllRegs.GetPllFreq | bootcode/platform/bcm28xx/pll/pll_read.c:29-44 | the masked reads compute the PLL formula on the register fields, for any contents |
| Pll.PllRegs.FreqOfRegisters | bootcode/platform/bcm28xx/pll/pll_read.c:29-44 | for any register contents that formula is the crystal times the multiplier, doubled by the prescaler, over the pre-divider, rounded down, in 32 bits |
| Pll.PllRegs.GetPllChanFreq | bootcode/platform/bcm28xx/pll/pll_read.c:46-54 | the frequency of a channel, 0 when it is off |
| Pll.PllRegs.Program | bootcode/platform/bcm28xx/pll/pll_control.c:285-408 | from any contents, the registers hold the rounded multiplier, pre-divider 1, the gains, power and no analog reset; which other bits of the ANA words stay, and that ANA1 loses the rest on every PLL but PLLH; the stores, in order |
| Pll.PrescalerGuardsDivider | bootcode/platform/bcm28xx/pll/pll_control.c:347-398 | after no store of a change that turns the prescaler off is it off while any of the old multiplier stands, and after no store of any other change is any of the new multiplier in before the new prescaler bit |
| Pll.PllRegs.SetPllFreq | bootcode/platform/bcm28xx/pll/pll_control.c:273-435 | the 32-bit frequency read back afterwards is `ReadBack`, 0 for request 0; on every PLL but PLLH, KI is 2 afterwards if and only if it was 0 or 2; the DIG registers; the result tells whether the lock was seen in 1000 looks; which registers are stored to in which order, each time with the password |
| Pll.PllRegs.PllStart | bootcode/platform/bcm28xx/pll/pll_control.c:232-262 | the start sequence, store by store: channels held, DIG words without the bits to be pulsed, digital reset released, DIG words final; the multiplier and the power bits stay |
| Pll.PllRegs.SetupPllc | bootcode/platform/bcm28xx/pll/pll_control.c:491-556 | PLLC holds the multiplier of half the target, doubled by the prescaler; the channel dividers, the DIG words and the channels left on hold; all 26 stores in order, each with the password |
| Pll.ChannelsHeld | bootcode/platform/bcm28xx/pll/pll_control.c:518-550 | the DIG words and channel dividers are changed only while all four channels are held |
| Pll.SetupNeverOvershoots | bootcode/platform/bcm28xx/pll/pll_control.c:491-534 | the PLLC read-back never exceeds the target and falls short by less than 39 Hz for 32-bit targets |
| Otp.Device.WaitStatus | bootcode/platform/bcm28xx/otp/otp.c:77-85 | at most `retry` looks, up to the first that shows the bit; 0 if and only if the last look shows it, -1 only after `retry` looks in vain |
| Otp.Device.SetCommand | bootcode/platform/bcm28xx/otp/otp.c:87-94 | at most one command is started, and only after CMD_DONE was shown; the result is 0 if and only if the last look shows CMD_DONE, and -1 only after 1000 looks in vain |
| Otp.ReadOpen | bootcode/platform/bcm28xx/otp/otp.c:96-99 | the cell, or all ones when the read failed |
| Otp.EnableProgram | bootcode/platform/bcm28xx/otp/otp.c:109-124 | success means that the four unlock commands went out in order and that the device then showed PROG_ENABLE; failure, that a command failed or that 32000 looks showed none; no cell changes |
| Otp.ProgramBit | bootcode/platform/bcm28xx/otp/otp.c:133-166 | only the addressed bit can change; success means that PROG_OK was shown and the bit is set, failure that all 32 attempts were made; at most 64 commands, all setups and pulses of this bit; a responsive device gets two rounds |
| Otp.WriteEnabled | bootcode/platform/bcm28xx/otp/otp.c:168-184 | pulses go only to missing bits; no errors after a good read means that all new bits are in; a responsive device gets the read and the commands of the missing bits, lowest first |
| Otp.WriteOpen | bootcode/platform/bcm28xx/otp/otp.c:202-213 | the three error codes, each with its cause, and the enable and disable bracket |
| Otp.Write | bootcode/platform/bcm28xx/otp/otp.c:215-222 | in every run the cell ends between its old value and old plus new bits, no other cell changes, the configuration goes 3, 2, 0, and a result of 0 means that the new bits are in if and only if the first read succeeded or none was missing; no pulse is started before this write has been shown PROG_ENABLE, and without it the result is ERR_ENABLE and nothing changes; a responsive device succeeds and gets exactly the expected commands; on a device too slow to be read the result is 0 and nothing is written |
| Otp.RewritingIsHarmless | bootcode/platform/bcm28xx/otp/otp.c:176-179 | writing a value already present issues no pulse |
| PackedFields.ReplaceHere | bootcode/platform/bcm28xx/gpio.c:40-44 | a read-modify-write sets its field |
| PackedFields.ReplaceElsewhere | bootcode/platform/bcm28xx/gpio.c:40-44 | and changes no field apart from it |
| Gpio.FunctionSelect.Config | bootcode/platform/bcm28xx/gpio.c:36-46 | the six registers act as a map from 54 pins to modes; reserved bits stay, bad arguments change nothing |
| Gpio.FunctionSelect.GetConfig | bootcode/platform/bcm28xx/gpio.c:48-57 | reads that map |
| Gpio.FunctionSelect.RegisterIsOctal | bootcode/platform/bcm28xx/gpio.c:40-44 | a register is the octal number its ten modes spell, lowest pin first |
| Gpio.Pulls.ApplyBatch | bootcode/platform/bcm28xx/gpio.c:73-87 | each pin ends with the highest mode whose bank names it, or keeps its pull; the control register is back at 0 if any bank named a pin |
| Gpio.HighestModeTells | bootcode/platform/bcm28xx/gpio.c:73-74 | that mode is in the batch for the pin and none above it is |
| Gpio.ClockBit | bootcode/platform/bcm28xx/gpio.c:78-79 | pin k is bit k of the two bank words |
| Intc.MaskRegisters.SetInterrupt | bootcode/arch/vpu/intc.c:43-51 | the mask registers act as one set of enabled interrupts a core; nothing else changes |
| Intc.MaskRegisters.RegisterIsHex | bootcode/arch/vpu/intc.c:46-49 | a mask register is the hexadecimal number its eight nibbles spell, lowest interrupt first |
| Intc.MaskRegisters.UnmaskInterrupt | bootcode/arch/vpu/intc.c:176-180 | enables one interrupt of core 0 |

## Left out

- Hvs.Scaler.AddPlaneScaled: requires that both dimensions change, because the scaler mode of the source is
  uninitialised otherwise, and that neither division of `write_tpz` is by zero. The unfinished enlarging modes write
  the words the source writes, which is less than the hardware needs.
- Hvs.Scaler.HvsDump: the walk stops with a value of its own where the source would read past the 4096 words.
- Dance.Dancer.FinishFrame: requires that the list ends inside the memory, so that the overflow branch is dead.
- Dance.Dancer.DoFrameUpdate: requires that the list fits the memory; beyond that the source writes past the memory
  and calls itself without end (`Frames.OverflowIffTooLong`). The background callback writes nothing, as in `vec.c`.
- Frames.RunNeverTears: speaks of stores as single events; how the hardware fetches a list while it is being published
  is not in the source.
- Stage1.HandlePacket: requires that a payload to be stored lands inside the buffer, which the source does not check.
- Stage1.XmodemReceive: requires that what is stored fits the buffer, which the source does not check; the transfer
  theorem shows that it holds for files of up to 2 MiB. Loading the image as an ELF file is not part of this model.
- XmodemLine.EveryStateInStep: the line may lose messages and damage them detectably, but does not delay a reply past
  a resend and does not lose single bytes of a packet.
- Pll.PllRegs.SetPllFreq: the crystal is 19.2 MHz, as on every target before BCM2711. At this commit the PLL table is
  compiled with PLLB only; the model takes the other rows from the disabled part of the table.
- Pll.PllRegs.SetupPllc: the wait for the lock is assumed to end; targets are those whose multiplier fits the ten bits
  of PLLC, up to 39 GHz.
- Otp.Write: opening the device is taken to abandon a command in progress; the RPI4 variant is not modelled.
- SdCard.SdHost.ComputeCapacity: signed overflow of the 32-bit shift is taken as two's complement wrap-around.
- Gpio.Pulls.ApplyBatch: assumes the latch rule that a pin follows GPPUD while its clock bit is set; delays, pin levels
  and `gpio_set`, a single store, are left out.
- Data transfer from the SD card FIFO, whose error reporting is shadowed in the source.
- Interrupt dispatch, the handler table, clock measurement and derived clocks, SDRAM, video timing, power, UART, I2C
  and mailbox code: straight-line register access without state of its own, or single formulas with nothing to relate
  them to.
