# Random-track player firmware, modelled in Dafny

This project models the firmware in `main.cpp`, which runs on an ATtiny13A. The firmware plays a random track on a DFPlayer Mini audio module when a button is pressed, and it powers the module down and puts the chip to sleep after a minute without presses. The model covers:

- **Command frames** (`send_pkt`), module `Frame`: the ten-byte DFPlayer command frame with its 16-bit two's-complement checksum, stored big-endian and covering bytes 1..6. A receiver-side parser is proved to invert the builder.
- **Serial output** (`tx_byte`), module `Uart`: the bit-banged 9600-8N1 transmitter, seen as the list of levels it drives on the TX pin. It has a start bit, eight data bits sent least significant first, and a stop bit. A receiver-side decoder inverts it for single characters and for whole byte streams.
- **Random numbers** (`rand16`, `seed_rng_once`), module `Lfsr`: the 16-bit Galois LFSR (taps mask 0xB400, initial value 0xACE1) and the one-shot XOR of the 8-bit Timer0 count.
- **Track choice** (`play_random`), module `Selector`: the weighted choice. The first draw modulo 100 is compared with 90 to pick folder 1 or folder 2. The second draw picks the file, in 1..27 or 1..43.
- **Step functions**, module `Machine`: the whole firmware as functions on an abstract state, covering `play_random`, `df_init`, the sleep/wake sequence, one poll of the active loop, and the two nested `while (1)` loops of `main`. The state holds:
  - the globals `lfsr`, `seeded` and `wake_flag`;
  - the power rail;
  - the local `idle_ms`;
  - the ordered record of what leaves the chip (rail switches, sleeps, frames sent).
- **The firmware as it runs**, module `Firmware`: class `Mcu` holds the same state as fields. Each routine is a method that updates them in place: `rand16`, `seed_rng_once`, `tx_byte`, `send_pkt`, `df_init`, `play_random`, the ISR, the parts of the poll, and the main loop. `tx_byte` and the transmit loop of `send_pkt` are loops. The TX line is a field that `tx_byte` extends one level at a time. Each method is proved equal to its function in `Lfsr`, `Uart`, `Frame`, `Selector` or `Machine`. The main loop keeps the invariant `Valid`:
  - the register is never zero;
  - `idle_ms` stays a multiple of ten and at most 60000;
  - every frame sent is one of the two init frames or a play command for an allowed file;
  - the TX line carries exactly the bytes of the frames sent, in order.

The environment is an input to the model. For each 10 ms poll, the input says whether the debounce confirmed a press, and whether a pin-change interrupt set `wake_flag` after that poll's own updates. The Timer0 count is a parameter.

Notes on the code as written, which the model follows:

- **The checksum example.** `send_pkt(0x0F, 0x01, 0x05)` computes checksum 0xFEE6, because bytes 1..6 sum to 0x11A.
- **The covered bytes.** The checksum covers frame bytes 1..6, from the 0xFF field through the low data byte.
- **`df_init` runs twice after a wake.** The wake sequence calls `df_init` (line 184), and the outer loop calls it again (line 145).
- **A wake can play twice.** A pin edge can arrive after `wake_flag = 0` (line 185) and before the re-check at line 148, for example from releasing the button. The outer loop then plays a second track. `Machine.WakeOrder` states both cases, so a wake is not always followed by exactly one play.
- **The timeout is counted from zero.** After a press, `idle_ms` is reset to 0 and then incremented in the same poll, so sleep comes after 5999 more quiet polls. From a fresh idle timer it takes 6000 quiet polls.

## Model

| member | source | states |
|---|---|---|
| Frame.Checksum | main.cpp:89 | the 16-bit checksum plus the sum of bytes 1..6 (0xFF, 0x06, cmd, 0x00, dh, dl) is 0 modulo 65536 |
| Frame.BuildFrame | main.cpp:88-90 | the frame is exactly 10 bytes: 0x7E, 0xFF, 0x06, cmd, 0x00, dh, dl, checksum high byte, checksum low byte, 0xEF; the checksum holds |
| Frame.ParseFrame | main.cpp:90 | the receiver accepts a byte sequence only if it is ten bytes long and its checksum holds |
| Frame.ParseBuildFrame | main.cpp:88-90 | every frame `send_pkt` builds is accepted and yields back cmd, dh and dl |
| Frame.ChecksumWordUnique | main.cpp:89 | the checksum word is the only 16-bit value that completes the covered sum to 0 modulo 65536 |
| Frame.WordBytes | main.cpp:90 | `sum >> 8` and `(uint8_t)sum` are the two bytes of the big-endian checksum word |
| Frame.BuildParseFrame | main.cpp:88-90 | every frame the receiver accepts is exactly the frame built from the command it yields (builder and parser are mutual inverses) |
| Frame.PlayFolder1File5 | main.cpp:89-90 | `send_pkt(0x0F, 0x01, 0x05)` sends 7E FF 06 0F 00 01 05 FE E6 EF |
| Uart.DataBits | main.cpp:77-82 | the data loop emits exactly one level per bit |
| Uart.DataBitsAt | main.cpp:77-82 | data level `i` is `(b >> i) & 1`: bits go out least significant first |
| Uart.Levels | main.cpp:72-86 | `tx_byte` drives exactly ten levels |
| Uart.LevelsAt | main.cpp:72-86 | level 0 is low (start bit), level `1 + i` is bit `i` of `b`, level 9 is high (stop bit, line left idle) |
| Uart.FromDataBits | main.cpp:77-82 | reassembling the first `n` data bits gives `b` modulo 2^n |
| Uart.DataFromBits | main.cpp:77-82 | sending the bits of a reassembled value reproduces the bits |
| Uart.DecodeChar | main.cpp:72-86 | receiver-side definition: a ten-level character decodes only with a low start bit and a high stop bit, its data bits read least significant first; proved the inverse of `tx_byte` in `Uart.DecodeLevels` and `Uart.LevelsOfDecoded` |
| Uart.DecodeLevels | main.cpp:72-86 | a receiver decoding the ten levels of `tx_byte(b)` gets `b` back |
| Uart.LevelsOfDecoded | main.cpp:72-86 | a character that decodes to `b` is exactly the levels of `tx_byte(b)` |
| Uart.Serialize | main.cpp:91 | sending a byte sequence drives ten levels per byte |
| Uart.SerializeAppend | main.cpp:91 | sending `a` then `b` drives the levels of `a` followed by those of `b` |
| Uart.Deserialize | main.cpp:91 | receiver-side definition: a level stream decodes ten levels at a time, and fails if any character fails or levels are left over; proved the inverse of sending in `Uart.DeserializeSerialize` and `Uart.SerializeDeserialize` |
| Uart.DeserializeSerialize | main.cpp:91 | a receiver decoding what `send_pkt` transmits gets the bytes back, in order |
| Uart.SerializeDeserialize | main.cpp:91 | any levels that decode to some bytes are exactly what sending those bytes drives |
| Lfsr.Step | main.cpp:61-65 | one `rand16` step gives zero exactly when the register was zero |
| Lfsr.Unstep | main.cpp:61-65 | every 16-bit value has a predecessor under the step (bit 15 shows whether the taps were applied) |
| Lfsr.StepInjective | main.cpp:61-65 | the step is injective: the predecessor of a step's result is the state it came from |
| Lfsr.Steps | main.cpp:61-66 | definition: `n` calls of `rand16` in a row; its properties are `Lfsr.StepsNonZero` and `Lfsr.StepsZero` |
| Lfsr.StepsNonZero | main.cpp:61-66 | a non-zero register stays non-zero however many times `rand16` runs |
| Lfsr.StepsZero | main.cpp:61-66 | the zero register is a fixed point of `rand16` |
| Lfsr.Reseed | main.cpp:68 | XORing in the 8-bit `TCNT0` leaves the high byte of the register unchanged |
| Lfsr.ReseedInitial | main.cpp:58-68 | seeding the power-on value 0xACE1 keeps high byte 0xAC, so the seeded register is non-zero whatever the counter reads |
| Selector.Pick | main.cpp:110 | `pick = rand16() % 100` is below 100 (it fits the `uint8_t`) |
| Selector.Choose | main.cpp:110-119 | folder 1 exactly when the pick is below 90, folder 2 exactly when it is 90 or more; the file is in 1..27 for folder 1 and 1..43 for folder 2 |
| Selector.ChooseCoversRange | main.cpp:110-119 | every allowed folder/file pair is chosen by some pair of independent 16-bit values; that the firmware's own two consecutive draws reach every pair is `Machine.DrawsReachEveryFile` |
| Machine.Boot | main.cpp:58-59 | definition: the power-up state, register 0xACE1, unseeded, flag clear, `idle_ms` 0, and the rail switched on (line 131) as the only event recorded; its property is `Machine.BootInv` |
| Machine.SeedStep | main.cpp:67-69 | definition: `seed_rng_once` on the state; its property is `Machine.SeedStepOnce` |
| Machine.PlayStep | main.cpp:108-120 | definition: `play_random` on the state, seed, two draws, one play frame; its properties are `Machine.PlayStepRegister`, `Machine.PlayStepSpec` and `Machine.PlayStepInv` |
| Machine.InitStep | main.cpp:99-105 | definition: `df_init` on the state, the select-TF and volume frames; its property is `Machine.InitStepSpec` |
| Machine.WakePlayStep | main.cpp:148-151 | definition: if `wake_flag` is set, clear it and play; used by `Machine.ResumeStep` |
| Machine.ResumeStep | main.cpp:145-154 | definition: `df_init`, the wake check, then `idle_ms = 0`; its property is `Machine.ResumeInv` |
| Machine.DozeStep | main.cpp:173-183 | definition: rail off, sleep, the waking interrupt, rail on; its property is `Machine.DozeStepSpec` |
| Machine.SleepStep | main.cpp:173-186 | definition: the doze, `df_init`, clearing `wake_flag`, `play_random`; its properties are `Machine.SleepStepSpec` and `Machine.SleepStepInv` |
| Machine.ButtonStep | main.cpp:157-165 | definition: a confirmed press plays and zeroes `idle_ms`; its property is `Machine.ButtonStepInv` |
| Machine.TickStep | main.cpp:167-187 | definition: the 16-bit `idle_ms += 10` and, at 60000 or more, the sleep sequence and the break; its property is `Machine.TickStepSpec` |
| Machine.PollStep | main.cpp:155-188 | definition: one pass of the inner loop, then a pin edge if one arrives; its property is `Machine.PollStepSpec` |
| Machine.OuterLoop | main.cpp:143-190 | definition: the outer `while (1)` re-entering the active loop on the inputs left; its property is `Machine.OuterLoopInv` |
| Machine.ActiveLoop | main.cpp:155-189 | definition: one poll per input until the break back to the outer loop; its properties are `Machine.ActiveLoopInv`, `Machine.QuietPolls` and `Machine.QuietTimeout` |
| Machine.BootEdgePlays | main.cpp:131-150 | the first pass of `main` after power-up records the rail switch, select TF and volume, then exactly one valid play command if a pin edge came before the first wake check and nothing more otherwise; the flag ends clear and `idle_ms` 0 |
| Machine.BootInv | main.cpp:58-59 | the power-up state (register 0xACE1, unseeded, idle timer 0, rail on) satisfies the invariant |
| Machine.SeedStepOnce | main.cpp:67-69 | the first seeding XORs the counter in and sets `seeded`; a seeded state is left as it is, so a second seeding changes nothing |
| Machine.PlayFrameKnown | main.cpp:120 | the play frame of an allowed selection is a valid play command (0x0F) for that selection |
| Machine.PlayStepRegister | main.cpp:108-119 | `play_random` leaves the register seeded and advanced exactly twice from the seeded value; wake flag, rail and idle timer are unchanged |
| Machine.PlayStepSpec | main.cpp:108-120 | `play_random` appends exactly one event, a valid play command for an allowed selection, whose folder is 1 exactly when the first draw modulo 100 is below 90 |
| Machine.PlayStepInv | main.cpp:108-120 | `play_random` keeps the invariant: the seeded register is non-zero and the frame sent is a known one |
| Machine.InitStepSpec | main.cpp:99-105 | `df_init` appends exactly its two frames, select TF (09 00 02) then volume (06 00 1C), and keeps the invariant |
| Machine.ResumeInv | main.cpp:145-154 | re-entering the active loop keeps the invariant, clears the wake flag and zeroes `idle_ms` |
| Machine.DozeStepSpec | main.cpp:173-183 | going to sleep records rail off, then sleep, then rail on, in that order, and leaves the wake flag set |
| Machine.SleepStepSpec | main.cpp:173-186 | the sleep sequence records rail off, sleep, rail on, select TF, volume, then one valid play command; afterwards the rail is on and the wake flag clear |
| Machine.SleepStepInv | main.cpp:173-186 | the sleep sequence keeps the invariant and leaves `idle_ms` as it was |
| Machine.PollStepSpec | main.cpp:155-188 | one poll keeps the invariant; it goes to sleep exactly when there is no press and `idle_ms + 10` reaches 60000; otherwise `idle_ms` becomes its old value (0 after a press) plus 10, never wrapping |
| Machine.ButtonStepInv | main.cpp:157-165 | the button check keeps the invariant; a press leaves `idle_ms` at 0, no press leaves it unchanged |
| Machine.TickStepSpec | main.cpp:167-187 | below the timeout the 16-bit `idle_ms` gains exactly 10 without wrapping, sleep follows exactly when that reaches 60000, and the invariant is kept |
| Machine.OuterLoopInv | main.cpp:143-190 | every run of `main`'s loops from a state satisfying the invariant ends in one |
| Machine.ActiveLoopInv | main.cpp:155-189 | every run of the active loop from a state satisfying the invariant ends in one |
| Machine.QuietPoll | main.cpp:167-170 | a press-free poll below the timeout only adds 10 to `idle_ms` (and sets the flag on a pin edge) and does not sleep |
| Machine.QuietPolls | main.cpp:155-170 | press-free polls that stay below the timeout send nothing and only advance `idle_ms` by 10 each (and set the flag on any pin edge) |
| Machine.TimeoutPoll | main.cpp:167-187 | in a run of quiet polls ending at 60000, the last poll is the one that goes to sleep, from `idle_ms` 59990 |
| Machine.QuietUntilLast | main.cpp:155-170 | in a run of quiet polls ending at the timeout, all but the last send nothing, only set the flag on a pin edge, and leave `idle_ms` at 59990 |
| Machine.QuietTimeout | main.cpp:155-187 | quiet polls ending at the timeout: all but the last send nothing and end at 59990; the next two events recorded are rail off, then sleep |
| Machine.SixThousandQuietPolls | main.cpp:154-187 | from `idle_ms = 0`, 5999 quiet polls send nothing and stop at 59990 without sleeping; after the 6000th the next two events recorded are rail off, then sleep |
| Machine.PollAtTimeout | main.cpp:167-172 | a press-free poll at 59990 reaches 60000 and runs the sleep sequence |
| Machine.LastQuietPollSleeps | main.cpp:167-176 | a press-free poll at 59990 sleeps, and the rail is switched off before the sleep |
| Machine.DrawsReachFolder1 | main.cpp:108-119 | every file 1..27 of folder 1 is chosen by the two consecutive draws from some non-zero register value |
| Machine.DrawsReachFolder2 | main.cpp:108-119 | every file 1..43 of folder 2 is chosen by the two consecutive draws from some non-zero register value |
| Machine.DrawsReachEveryFile | main.cpp:108-119 | every allowed folder/file pair is what `play_random`'s draws choose from some non-zero register value |
| Machine.WakeOrder | main.cpp:143-186 | the wake sequence as written is rail off, sleep, rail on, select TF, volume, play, then the outer loop's select TF and volume again, and a second play exactly when a pin edge came after the flag was cleared; after it the flag is clear, the rail on and `idle_ms` 0 |
| Firmware.Mcu.constructor | main.cpp:130-131 | power-up: globals at their initial values, the rail switched on, nothing sent; `Valid` holds |
| Firmware.Mcu.Rand16 | main.cpp:61-66 | the register advances one LFSR step and the new value is returned |
| Firmware.Mcu.SeedRngOnce | main.cpp:67-69 | the state becomes the seeded one; if already seeded, register and flag are unchanged |
| Firmware.Mcu.TxByte | main.cpp:72-86 | the shift loop leaves the line extended by exactly the ten levels of `b` |
| Firmware.Mcu.TxBytes | main.cpp:91 | transmitting the ten-byte array extends the line by the levels of each byte in order |
| Firmware.Mcu.SendPkt | main.cpp:88-92 | one frame, `BuildFrame(cmd, dh, dl)`, is recorded, and the line still carries exactly the frames sent |
| Firmware.Mcu.DfPowerOn | main.cpp:54 | the rail is on and the switch is recorded |
| Firmware.Mcu.DfPowerOff | main.cpp:55 | the rail is off and the switch is recorded |
| Firmware.Mcu.DfInit | main.cpp:99-105 | the state becomes the one `Machine.InitStep` describes (the two init frames), and the invariant `Machine.Inv` is kept; with the line still carrying the frames sent, `Valid` is kept |
| Firmware.Mcu.DrawTrack | main.cpp:110-119 | two `rand16` draws, and the folder and file are the selection `Selector.Choose` makes from them |
| Firmware.Mcu.PlayRandom | main.cpp:108-120 | the state becomes the one `Machine.PlayStep` describes, and the invariant `Machine.Inv` is kept; with the line still carrying the frames sent, `Valid` is kept |
| Firmware.Mcu.Isr | main.cpp:95-96 | the interrupt sets `wake_flag`, changes nothing else (so the TX line and the record are untouched), and keeps the invariant `Machine.Inv` |
| Firmware.Mcu.Doze | main.cpp:174-183 | the state becomes the one `Machine.DozeStep` describes |
| Firmware.Mcu.SleepUntilWake | main.cpp:173-186 | the state becomes the one `Machine.SleepStep` describes, and the invariant `Machine.Inv` is kept; with the line still carrying the frames sent, `Valid` is kept |
| Firmware.Mcu.ButtonPoll | main.cpp:157-165 | the state becomes the one `Machine.ButtonStep` describes |
| Firmware.Mcu.IdleTick | main.cpp:167-187 | the state and the break flag are those `Machine.TickStep` describes |
| Firmware.Mcu.PollOnce | main.cpp:155-188 | the state and the break flag are those `Machine.PollStep` describes; from a state satisfying the invariant with `idle_ms` below 60000, the invariant `Machine.Inv` is kept |
| Firmware.Mcu.PollUntilSleep | main.cpp:155-189 | the inner loop's result is the one `Machine.ActiveLoop` describes: either it broke out to sleep after at least one poll, and the rest of the run is `Machine.OuterLoop` on the inputs left, or the inputs ran out |
| Firmware.Mcu.PlayIfWoken | main.cpp:148-151 | the state becomes the one `Machine.WakePlayStep` describes |
| Firmware.Mcu.ResumeActive | main.cpp:145-154 | the state becomes the one `Machine.ResumeStep` describes, and the invariant `Machine.Inv` is kept; with the line still carrying the frames sent, `Valid` is kept |
| Firmware.Mcu.Run | main.cpp:143-190 | the nested loops end in the state `Machine.OuterLoop` describes for the inputs given, and `Valid` (the invariant, plus a TX line carrying exactly the frames sent) is kept |

## Left out

- GPIO direction, pull-up, interrupt-mask and Timer0 set-up (main.cpp:123-141): these are register writes with no behaviour beyond what the model takes as given.
- All `_delay_us`/`_delay_ms` calls. Only the order of events and levels is modelled, not their timing.
- Sleep-mode entry (`set_sleep_mode`, `sleep_enable`, `sleep_cpu`, `sleep_disable`): the sleep is a recorded event. The wake is the pin-change interrupt setting `wake_flag`.
- Interrupt concurrency: inside the active loop, a pin edge is applied once, at the end of a poll. An edge earlier in a poll either has the same effect, or, in a poll that sleeps, is cleared at main.cpp:185; only an edge after that line matters there, and the end-of-poll edge is that case. The interrupt is also enabled at main.cpp:134-136, before the first wake check at main.cpp:148: an edge in that window is modelled by starting from `Boot()` with the flag set (calling `Isr` before `Run`), and `Machine.BootEdgePlays` states that such an edge makes the first pass play one track right after the init frames.
- The debounce re-read (main.cpp:158-159) and the busy-wait for release (main.cpp:161): each poll has one "confirmed press" input.
- `TCNT0`: an 8-bit parameter. One value serves a whole run, because only the first seeding reads it.
- Statistical claims: the 90 % weighting, the uniformity of the file choice, and the LFSR's period. The model proves only which draws give which folder, and that every allowed file is chosen from some non-zero register value (`Machine.DrawsReachEveryFile`).
- Firmware.Mcu.Run: the firmware's `while (1)` never ends, but `Run` processes a finite sequence of polls. Every finite prefix of a run is covered.
- Bytes are an integer subtype (0..255) rather than bit-vectors. The LFSR register is a `bv16`, converted to an integer where `% 100` and `% 27`/`% 43` are taken.
