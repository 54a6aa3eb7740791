/**
 * The firmware of main.cpp as the ATtiny13A runs it: the globals `lfsr`,
 * `seeded` and `wake_flag`, the local `idle_ms` of `main`, the power rail and
 * the TX pin are fields of one object, and each routine is a method that
 * updates them in place. Two further fields record what leaves the chip: the
 * events (`trace`: rail switched, sleep entered, frame sent) and every level
 * driven on the TX pin (`line`), one per bit period.
 *
 * Each method is proved equal to its function in module Lfsr, Uart, Frame,
 * Selector or Machine, and `Valid` (the invariant `Inv` plus "the TX line carries exactly the frames
 * sent") is kept by the main loop.
 */
module Firmware {
  import opened Base
  import opened Frame
  import opened Uart
  import opened Lfsr
  import opened Selector
  import opened Machine

  class Mcu {
    var lfsr: bv16
    var seeded: bool
    var wakeFlag: bool
    var powered: bool
    var idleMs: uint16
    var trace: seq<Event>
    var line: seq<bool>

    ghost function Model(): State
      reads this
    {
      State(lfsr, seeded, wakeFlag, powered, idleMs, trace)
    }

    /** The levels driven on the TX pin are exactly the bytes of the frames sent, in order. */
    ghost predicate LineCarries()
      reads this`line, this`trace
    {
      line == Serialize(BytesOf(trace))
    }

    ghost predicate Valid()
      reads this
    {
      Inv(Model()) && LineCarries()
    }

    /** Power-up up to main.cpp:143: globals initialised, DFPlayer rail on. */
    constructor ()
      ensures Model() == Boot() && line == []
      ensures Valid()
    {
      lfsr := Initial;
      seeded := false;
      wakeFlag := false;
      powered := true;
      idleMs := 0;
      trace := [PowerOn];
      line := [];
      BootInv();
      BytesOfAppend([], PowerOn);
    }

    /** `rand16` (main.cpp:61-66): advance the register one step and return it. */
    method Rand16() returns (r: bv16)
      modifies this`lfsr
      ensures lfsr == Step(old(lfsr)) && r == lfsr
    {
      var lsb := lfsr & 1;
      lfsr := lfsr >> 1;
      if lsb == 1 {
        lfsr := lfsr ^ Taps;
      }
      r := lfsr;
    }

    /** `seed_rng_once` (main.cpp:67-69); `tcnt` is the free-running counter's reading. */
    method SeedRngOnce(tcnt: bv8)
      modifies this`lfsr, this`seeded
      ensures Model() == SeedStep(old(Model()), tcnt)
      ensures old(seeded) ==> lfsr == old(lfsr) && seeded
    {
      if !seeded {
        lfsr := lfsr ^ (tcnt as bv16);
        seeded := true;
      }
    }

    /** `tx_byte` (main.cpp:72-86): start bit, eight data bits shifted out LSB first, stop bit. */
    method TxByte(b: byte)
      modifies this`line
      ensures line == old(line) + Levels(b)
    {
      line := line + [Low];
      ghost var sent := line + DataBits(b, 8);
      var x: nat := b;
      for i := 0 to 8
        invariant line + DataBits(x, 8 - i) == sent
      {
        ghost var before := line;
        assert DataBits(x, 8 - i) == [x % 2 == 1] + DataBits(x / 2, 7 - i);
        line := line + [x % 2 == 1];
        assert line + DataBits(x / 2, 7 - i) == before + DataBits(x, 8 - i);
        x := x / 2;
      }
      assert line == sent;
      line := line + [High];
    }

    /** The transmit loop of `send_pkt` (main.cpp:91): `tx_byte` on each byte in order. */
    method TxBytes(p: seq<byte>)
      modifies this`line
      ensures line == old(line) + Serialize(p)
    {
      for i := 0 to |p|
        invariant line == old(line) + Serialize(p[..i])
      {
        TxByte(p[i]);
        assert p[..i + 1] == p[..i] + [p[i]];
        SerializeAppend(p[..i], [p[i]]);
        assert Serialize([p[i]]) == Levels(p[i]);
      }
      assert p[..|p|] == p;
    }

    /** `send_pkt` (main.cpp:88-92): build the frame and transmit its ten bytes. */
    method SendPkt(cmd: byte, dh: byte, dl: byte)
      requires LineCarries()
      modifies this`line, this`trace
      ensures trace == old(trace) + [Send(BuildFrame(cmd, dh, dl))]
      ensures LineCarries()
    {
      var p := BuildFrame(cmd, dh, dl);
      TxBytes(p);
      BytesOfAppend(trace, Send(p));
      SerializeAppend(BytesOf(trace), p);
      trace := trace + [Send(p)];
    }

    /** `df_power_on` (main.cpp:54). */
    method DfPowerOn()
      requires LineCarries()
      modifies this`powered, this`trace
      ensures powered && trace == old(trace) + [PowerOn]
      ensures LineCarries()
    {
      BytesOfAppend(trace, PowerOn);
      powered := true;
      trace := trace + [PowerOn];
    }

    /** `df_power_off` (main.cpp:55). */
    method DfPowerOff()
      requires LineCarries()
      modifies this`powered, this`trace
      ensures !powered && trace == old(trace) + [PowerOff]
      ensures LineCarries()
    {
      BytesOfAppend(trace, PowerOff);
      powered := false;
      trace := trace + [PowerOff];
    }

    /** `df_init` (main.cpp:99-105), delays left out. */
    method DfInit()
      requires LineCarries()
      modifies this`line, this`trace
      ensures Model() == InitStep(old(Model()))
      ensures LineCarries()
      ensures Inv(old(Model())) ==> Inv(Model())
    {
      ghost var s := Model();
      SendPkt(SelectTfCmd, 0x00, SourceTf);
      SendPkt(VolumeCmd, 0x00, Volume);
      InitStepSpec(s);
    }

    /**
     * The draw of `play_random` (main.cpp:110-119): the first number picks
     * the folder by `% 100` against the 90 % weight, the second the file.
     */
    method DrawTrack() returns (folder: byte, file: byte)
      modifies this`lfsr
      ensures lfsr == Step(Step(old(lfsr)))
      ensures Selection(folder, file) == Choose(Step(old(lfsr)) as int, lfsr as int)
    {
      var r1 := Rand16();
      var first: uint16 := r1 as int;
      var pick: byte := first % 100;
      if pick < WeightFolder1 {
        folder := Folder1;
        var r2 := Rand16();
        var second: uint16 := r2 as int;
        file := File1Min + second % (File1Max - File1Min + 1);
      } else {
        folder := Folder2;
        var r2 := Rand16();
        var second: uint16 := r2 as int;
        file := File2Min + second % (File2Max - File2Min + 1);
      }
    }

    /** `play_random` (main.cpp:108-121): seed once, draw a track, send the play command. */
    method PlayRandom(tcnt: bv8)
      requires LineCarries()
      modifies this`lfsr, this`seeded, this`line, this`trace
      ensures Model() == PlayStep(old(Model()), tcnt)
      ensures LineCarries()
      ensures Inv(old(Model())) ==> Inv(Model())
    {
      ghost var s := Model();
      SeedRngOnce(tcnt);
      ghost var seededState := Model();
      var folder, file := DrawTrack();
      ghost var sel := Selection(folder, file);
      ghost var drawn := Model();
      assert drawn == seededState.(lfsr := lfsr);
      SendPkt(PlayCmd, folder, file);
      assert PlayFrame(sel) == BuildFrame(PlayCmd, folder, file);
      assert Model() == drawn.(trace := drawn.trace + [Send(PlayFrame(sel))]);
      if Inv(s) {
        PlayStepInv(s, tcnt);
      }
    }

    /** The pin-change interrupt (main.cpp:95-96). */
    method Isr()
      modifies this`wakeFlag
      ensures wakeFlag
      ensures Inv(old(Model())) ==> Inv(Model())
    {
      wakeFlag := true;
    }

    /** main.cpp:174-183: rail off, sleep until the pin-change interrupt, rail on. */
    method Doze()
      requires LineCarries()
      modifies this`powered, this`trace, this`wakeFlag
      ensures Model() == DozeStep(old(Model()))
      ensures LineCarries()
    {
      DfPowerOff();
      BytesOfAppend(trace, Sleep);
      trace := trace + [Sleep];
      Isr();
      DfPowerOn();
    }

    /** main.cpp:173-186: doze, re-initialise, consume the wake, play. */
    method SleepUntilWake(tcnt: bv8)
      requires LineCarries()
      modifies this
      ensures Model() == SleepStep(old(Model()), tcnt)
      ensures LineCarries()
      ensures Inv(old(Model())) ==> Inv(Model())
    {
      ghost var s := Model();
      Doze();
      DfInit();
      wakeFlag := false;
      PlayRandom(tcnt);
      if Inv(s) {
        SleepStepInv(s, tcnt);
      }
    }

    /** The button check of one poll (main.cpp:157-165), the debounce and release wait left out. */
    method ButtonPoll(press: bool, tcnt: bv8)
      requires LineCarries()
      modifies this`lfsr, this`seeded, this`line, this`trace, this`idleMs
      ensures Model() == ButtonStep(old(Model()), press, tcnt)
      ensures LineCarries()
    {
      if press {
        PlayRandom(tcnt);
        idleMs := 0;
      }
    }

    /** The idle timer of one poll (main.cpp:167-187); `asleep` is the `break`. */
    method IdleTick(tcnt: bv8) returns (asleep: bool)
      requires LineCarries()
      modifies this
      ensures (Model(), asleep) == TickStep(old(Model()), tcnt)
      ensures LineCarries()
    {
      idleMs := (idleMs + PollMs) % 0x1_0000;
      asleep := idleMs >= SleepTimeout;
      if asleep {
        SleepUntilWake(tcnt);
      }
    }

    /** One pass of the active loop (main.cpp:157-188), with the pin-change interrupt last. */
    method PollOnce(i: Input, tcnt: bv8) returns (asleep: bool)
      requires LineCarries()
      modifies this
      ensures (Model(), asleep) == PollStep(old(Model()), i, tcnt)
      ensures LineCarries()
      ensures Inv(old(Model())) && old(idleMs) < SleepTimeout ==> Inv(Model())
    {
      ghost var s := Model();
      ButtonPoll(i.press, tcnt);
      asleep := IdleTick(tcnt);
      if i.edge {
        Isr();
      }
      if Inv(s) && s.idleMs < SleepTimeout {
        PollStepSpec(s, i, tcnt);
      }
    }

    /** main.cpp:148-151: consume a pending wake and play. */
    method PlayIfWoken(tcnt: bv8)
      requires LineCarries()
      modifies this`lfsr, this`seeded, this`line, this`trace, this`wakeFlag
      ensures Model() == WakePlayStep(old(Model()), tcnt)
      ensures LineCarries()
    {
      if wakeFlag {
        wakeFlag := false;
        PlayRandom(tcnt);
      }
    }

    /** main.cpp:145-154: initialise, play if woken by the button, reset the idle timer. */
    method ResumeActive(tcnt: bv8)
      requires LineCarries()
      modifies this
      ensures Model() == ResumeStep(old(Model()), tcnt)
      ensures LineCarries()
      ensures Inv(old(Model())) ==> Inv(Model())
    {
      ghost var s := Model();
      DfInit();
      PlayIfWoken(tcnt);
      idleMs := 0;
      if Inv(s) {
        ResumeInv(s, tcnt);
      }
    }

    /**
     * The inner `while (1)` (main.cpp:155-189) from input `start` on: one
     * poll per input until the sleep sequence's `break` (`asleep`, with `k`
     * the first input left) or the end of the inputs.
     */
    method PollUntilSleep(tcnt: bv8, inputs: seq<Input>, start: nat) returns (k: nat, asleep: bool)
      requires start <= |inputs| && LineCarries()
      modifies this
      ensures start <= k <= |inputs| && LineCarries()
      ensures asleep ==> start < k
      ensures asleep ==> ActiveLoop(old(Model()), tcnt, inputs[start..]) == OuterLoop(Model(), tcnt, inputs[k..])
      ensures !asleep ==> k == |inputs| && ActiveLoop(old(Model()), tcnt, inputs[start..]) == Model()
    {
      ghost var goal := ActiveLoop(Model(), tcnt, inputs[start..]);
      k := start;
      asleep := false;
      while k < |inputs|
        invariant start <= k <= |inputs|
        invariant LineCarries()
        invariant goal == ActiveLoop(Model(), tcnt, inputs[k..])
      {
        asleep := PollOnce(inputs[k], tcnt);
        assert inputs[k..][1..] == inputs[k + 1..];
        k := k + 1;
        if asleep {
          return;
        }
      }
    }

    /**
     * `main` from main.cpp:143 on, driven by one input per poll until the
     * inputs run out: the outer loop re-initialises, the inner loop polls
     * and leaves through the sleep sequence's `break`.
     */
    method Run(tcnt: bv8, inputs: seq<Input>)
      requires Valid()
      modifies this
      ensures Model() == OuterLoop(old(Model()), tcnt, inputs)
      ensures Valid()
    {
      ghost var goal := OuterLoop(Model(), tcnt, inputs);
      OuterLoopInv(Model(), tcnt, inputs);
      var k := 0;
      var more := true;
      while more
        invariant 0 <= k <= |inputs|
        invariant LineCarries()
        invariant more ==> goal == OuterLoop(Model(), tcnt, inputs[k..])
        invariant !more ==> goal == Model()
        decreases |inputs| - k, more
      {
        ResumeActive(tcnt);
        k, more := PollUntilSleep(tcnt, inputs, k);
      }
    }
  }
}
