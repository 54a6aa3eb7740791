/**
 * The firmware's behaviour as functions on an abstract state: what
 * `seed_rng_once`, `play_random`, `df_init`, one pass of the active loop and
 * the sleep/wake sequence of `main` (main.cpp:143-190) do to the globals,
 * the power rail and the record of what was sent. The class in module
 * Firmware implements each of these step by step and is proved equal to it.
 *
 * The environment enters through `Input`: per 10 ms poll, whether a press was
 * confirmed by the debounce re-read, and whether a pin-change interrupt set
 * `wake_flag` at the end of that poll (after the sleep sequence when the poll
 * timed out, i.e. between main.cpp:185 and the re-check at main.cpp:148).
 */
module Machine {
  import opened Base
  import opened Frame
  import opened Uart
  import opened Lfsr
  import opened Selector

  /** `SLEEP_TIMEOUT` in milliseconds. */
  const SleepTimeout := 60000
  /** Milliseconds added to `idle_ms` per poll. */
  const PollMs := 10

  const SelectTfCmd: byte := 0x09
  const SourceTf: byte := 0x02
  const VolumeCmd: byte := 0x06
  const Volume: byte := 0x1C
  const PlayCmd: byte := 0x0F

  /** What the firmware does that is visible outside the chip. */
  datatype Event = PowerOn | PowerOff | Sleep | Send(frame: seq<byte>)

  /** The environment during one poll of the active loop. */
  datatype Input = Input(press: bool, edge: bool)

  /** The globals and outputs of the firmware. */
  datatype State = State(
    lfsr: bv16,
    seeded: bool,
    wakeFlag: bool,
    powered: bool,
    idleMs: uint16,
    trace: seq<Event>)

  /** `send_pkt(0x09, 0x00, 0x02)`: play from the TF card. */
  const SelectTf: seq<byte> := BuildFrame(SelectTfCmd, 0x00, SourceTf)
  /** `send_pkt(0x06, 0x00, 0x1C)`: volume 28 of 30. */
  const SetVolume: seq<byte> := BuildFrame(VolumeCmd, 0x00, Volume)

  function PlayFrame(sel: Selection): seq<byte>
  {
    BuildFrame(PlayCmd, sel.folder, sel.file)
  }

  /** A play command for a selection the settings allow. */
  predicate IsPlayFrame(f: seq<byte>)
  {
    match ParseFrame(f)
    case None => false
    case Some(c) => c.cmd == PlayCmd && InRange(Selection(c.dh, c.dl))
  }

  /** A frame this firmware can send: one of the two init commands or an allowed play command. */
  predicate KnownFrame(f: seq<byte>)
  {
    f == SelectTf || f == SetVolume || IsPlayFrame(f)
  }

  predicate KnownEvent(e: Event)
  {
    e.Send? ==> KnownFrame(e.frame)
  }

  /**
   * What holds between the steps of `main`: the register is never zero and
   * still holds its power-on value until seeded, `idle_ms` is a multiple of
   * ten no larger than the timeout, and every frame sent is a known one.
   */
  predicate Inv(s: State)
  {
    && s.lfsr != 0
    && (!s.seeded ==> s.lfsr == Initial)
    && s.idleMs % PollMs == 0
    && s.idleMs <= SleepTimeout
    && forall j :: 0 <= j < |s.trace| ==> KnownEvent(s.trace[j])
  }

  /** The bytes sent so far, frame after frame. */
  function BytesOf(trace: seq<Event>): (p: seq<byte>)
  {
    if trace == [] then []
    else
      var last := trace[|trace| - 1];
      BytesOf(trace[..|trace| - 1]) + (if last.Send? then last.frame else [])
  }

  /** State at main.cpp:143: globals at their initial values, rail switched on. */
  function Boot(): State
  {
    State(Initial, false, false, true, 0, [PowerOn])
  }

  /** `seed_rng_once` with the counter reading `tcnt`. */
  function SeedStep(s: State, tcnt: bv8): State
  {
    if !s.seeded then s.(lfsr := Reseed(s.lfsr, tcnt), seeded := true) else s
  }

  /** `play_random`: seed once, draw twice, send one play command. */
  function PlayStep(s: State, tcnt: bv8): State
  {
    var seeded := SeedStep(s, tcnt);
    var first := Step(seeded.lfsr);
    var second := Step(first);
    seeded.(lfsr := second, trace := seeded.trace + [Send(PlayFrame(Choose(first as int, second as int)))])
  }

  /** `df_init`, delays left out: the two configuration frames. */
  function InitStep(s: State): State
  {
    s.(trace := s.trace + [Send(SelectTf), Send(SetVolume)])
  }

  /** main.cpp:148-151: a pending wake is consumed and plays a track. */
  function WakePlayStep(s: State, tcnt: bv8): State
  {
    if s.wakeFlag then PlayStep(s.(wakeFlag := false), tcnt) else s
  }

  /** main.cpp:145-154: initialise, play if a wake is pending, clear the idle timer. */
  function ResumeStep(s: State, tcnt: bv8): State
  {
    WakePlayStep(InitStep(s), tcnt).(idleMs := 0)
  }

  /**
   * main.cpp:174-183: rail off, sleep until the pin-change interrupt sets
   * `wake_flag`, rail on.
   */
  function DozeStep(s: State): State
  {
    var off := s.(powered := false, trace := s.trace + [PowerOff]);
    var woken := off.(trace := off.trace + [Sleep], wakeFlag := true);
    woken.(powered := true, trace := woken.trace + [PowerOn])
  }

  /** main.cpp:173-186: doze, then `df_init`, clear the flag, play. */
  function SleepStep(s: State, tcnt: bv8): State
  {
    PlayStep(InitStep(DozeStep(s)).(wakeFlag := false), tcnt)
  }

  /** main.cpp:157-165: a confirmed press plays a track and clears the idle timer. */
  function ButtonStep(s: State, press: bool, tcnt: bv8): State
  {
    if press then PlayStep(s, tcnt).(idleMs := 0) else s
  }

  /**
   * main.cpp:167-187: ten more milliseconds on the 16-bit idle timer, and the
   * sleep sequence when it reaches the timeout; the flag says it slept.
   */
  function TickStep(s: State, tcnt: bv8): (State, bool)
  {
    var ticked := s.(idleMs := (s.idleMs + PollMs) % 0x1_0000);
    var asleep := ticked.idleMs >= SleepTimeout;
    (if asleep then SleepStep(ticked, tcnt) else ticked, asleep)
  }

  /**
   * One pass of the active loop (main.cpp:157-188); the flag says it went to
   * sleep. A pin edge during the poll sets the wake flag last.
   */
  function PollStep(s: State, i: Input, tcnt: bv8): (State, bool)
  {
    var (after, asleep) := TickStep(ButtonStep(s, i.press, tcnt), tcnt);
    (if i.edge then after.(wakeFlag := true) else after, asleep)
  }

  /** The outer `while (1)` of `main` entered at main.cpp:145, run on `inputs`. */
  function OuterLoop(s: State, tcnt: bv8, inputs: seq<Input>): State
    decreases |inputs|, 1
  {
    ActiveLoop(ResumeStep(s, tcnt), tcnt, inputs)
  }

  /** The inner `while (1)` (main.cpp:155-189); its `break` re-enters the outer loop. */
  function ActiveLoop(s: State, tcnt: bv8, inputs: seq<Input>): State
    decreases |inputs|, 0
  {
    if inputs == [] then s
    else
      var next := PollStep(s, inputs[0], tcnt);
      if next.1 then OuterLoop(next.0, tcnt, inputs[1..])
      else ActiveLoop(next.0, tcnt, inputs[1..])
  }

  // ---------------------------------------------------------------------
  // Properties of the steps

  /** The state at power-up satisfies `Inv`. */
  lemma BootInv()
    ensures Inv(Boot())
  {
  }

  /**
   * The first pass of `main` after power-up, with `wake` telling whether a
   * pin edge came after the interrupt was enabled and before the first wake
   * check: the rail switch and the two init frames are recorded, and one
   * play command follows exactly when there was such an edge.
   */
  lemma BootEdgePlays(tcnt: bv8, wake: bool)
    ensures var r := OuterLoop(Boot().(wakeFlag := wake), tcnt, []);
      && r.trace[..3] == [PowerOn, Send(SelectTf), Send(SetVolume)]
      && (wake ==> |r.trace| == 4 && r.trace[3].Send? && IsPlayFrame(r.trace[3].frame))
      && (!wake ==> |r.trace| == 3)
      && !r.wakeFlag && r.idleMs == 0
  {
    var init := InitStep(Boot().(wakeFlag := wake));
    if wake {
      PlayStepSpec(init.(wakeFlag := false), tcnt);
      PlayStepRegister(init.(wakeFlag := false), tcnt);
    }
  }

  /** Appending one event to the record. */
  lemma BytesOfAppend(trace: seq<Event>, e: Event)
    ensures e.Send? ==> BytesOf(trace + [e]) == BytesOf(trace) + e.frame
    ensures !e.Send? ==> BytesOf(trace + [e]) == BytesOf(trace)
  {
    assert (trace + [e])[..|trace|] == trace;
    assert BytesOf(trace) + [] == BytesOf(trace);
  }

  /**
   * Seeding happens once: the first call XORs the counter into the register
   * and sets `seeded`; any later call, whatever the counter reads, changes nothing.
   */
  lemma SeedStepOnce(s: State, tcnt: bv8, later: bv8)
    ensures SeedStep(s, tcnt).seeded
    ensures !s.seeded ==> SeedStep(s, tcnt).lfsr == Reseed(s.lfsr, tcnt)
    ensures s.seeded ==> SeedStep(s, tcnt) == s
    ensures SeedStep(SeedStep(s, tcnt), later) == SeedStep(s, tcnt)
  {
  }

  /** Play frames built by the firmware are recognised as such. */
  lemma PlayFrameKnown(sel: Selection)
    requires InRange(sel)
    ensures IsPlayFrame(PlayFrame(sel))
  {
    ParseBuildFrame(PlayCmd, sel.folder, sel.file);
  }

  /** The draw of `play_random` from its seeded register, as the two numbers it uses. */
  lemma PlayStepDraw(s: State, tcnt: bv8)
    ensures var r := PlayStep(s, tcnt);
      var first := Step(SeedStep(s, tcnt).lfsr);
      && r.lfsr == Step(first)
      && r.trace == s.trace + [Send(PlayFrame(Choose(first as int, r.lfsr as int)))]
  {
  }

  /**
   * `play_random` seeds the register at most once and advances it exactly
   * twice; it changes neither the wake flag, the rail nor the idle timer.
   */
  lemma PlayStepRegister(s: State, tcnt: bv8)
    ensures var r := PlayStep(s, tcnt);
      && r.seeded
      && r.lfsr == Steps(if s.seeded then s.lfsr else Reseed(s.lfsr, tcnt), 2)
      && r.wakeFlag == s.wakeFlag && r.powered == s.powered && r.idleMs == s.idleMs
  {
    var seeded := SeedStep(s, tcnt).lfsr;
    assert Steps(seeded, 1) == Step(seeded);
  }

  /**
   * `play_random` sends exactly one play command for an allowed selection,
   * folder 1 exactly when the first draw after seeding, modulo 100, is below 90.
   */
  lemma PlayStepSpec(s: State, tcnt: bv8)
    ensures var r := PlayStep(s, tcnt);
      var seeded := if s.seeded then s.lfsr else Reseed(s.lfsr, tcnt);
      && |r.trace| == |s.trace| + 1 && r.trace[..|s.trace|] == s.trace
      && var f := r.trace[|s.trace|].frame;
      && r.trace[|s.trace|].Send? && IsPlayFrame(f)
      && ParseFrame(f).value.dh == (if Pick(Step(seeded) as int) < WeightFolder1 then Folder1 else Folder2)
  {
    var r := PlayStep(s, tcnt);
    var first := Step(SeedStep(s, tcnt).lfsr);
    PlayStepDraw(s, tcnt);
    var sel := Choose(first as int, r.lfsr as int);
    PlayFrameKnown(sel);
    ParseBuildFrame(PlayCmd, sel.folder, sel.file);
    assert r.trace[|s.trace|] == Send(PlayFrame(sel));
    assert r.trace[..|s.trace|] == s.trace;
  }

  /** `play_random` keeps `Inv`: the seeded register is non-zero and the frame sent is a known one. */
  lemma PlayStepInv(s: State, tcnt: bv8)
    requires Inv(s)
    ensures Inv(PlayStep(s, tcnt)) && PlayStep(s, tcnt).idleMs == s.idleMs
  {
    var r := PlayStep(s, tcnt);
    var seeded := SeedStep(s, tcnt).lfsr;
    var first := Step(seeded);
    PlayStepDraw(s, tcnt);
    var sel := Choose(first as int, r.lfsr as int);
    PlayFrameKnown(sel);
    if !s.seeded {
      ReseedInitial(tcnt);
    }
    assert seeded != 0;
    assert r.lfsr != 0;
    forall j | 0 <= j < |r.trace|
      ensures KnownEvent(r.trace[j])
    {
      if j < |s.trace| {
        assert r.trace[j] == s.trace[j];
      }
    }
  }

  /** `df_init` sends exactly its two frames, in order, and keeps `Inv`. */
  lemma InitStepSpec(s: State)
    ensures InitStep(s).trace == s.trace + [Send(SelectTf), Send(SetVolume)]
    ensures Inv(s) ==> Inv(InitStep(s))
  {
    var r := InitStep(s);
    if Inv(s) {
      forall j | 0 <= j < |r.trace|
        ensures KnownEvent(r.trace[j])
      {
        if j < |s.trace| {
          assert r.trace[j] == s.trace[j];
        }
      }
    }
  }

  /** Re-entering the active loop keeps `Inv`, consumes the wake flag and zeroes the idle timer. */
  lemma ResumeInv(s: State, tcnt: bv8)
    requires Inv(s)
    ensures Inv(ResumeStep(s, tcnt)) && ResumeStep(s, tcnt).idleMs == 0
    ensures !ResumeStep(s, tcnt).wakeFlag
  {
    InitStepSpec(s);
    var ready := InitStep(s);
    if ready.wakeFlag {
      PlayStepInv(ready.(wakeFlag := false), tcnt);
    }
  }

  /** Recording rail switches and sleeps keeps `Inv`. */
  lemma PowerEventsInv(s: State, es: seq<Event>)
    requires Inv(s)
    requires forall j :: 0 <= j < |es| ==> !es[j].Send?
    ensures Inv(s.(trace := s.trace + es))
  {
    var t := s.trace + es;
    forall j | 0 <= j < |t|
      ensures KnownEvent(t[j])
    {
      if j < |s.trace| {
        assert t[j] == s.trace[j];
      } else {
        assert t[j] == es[j - |s.trace|];
      }
    }
  }

  /**
   * Dozing switches the rail off before sleeping and on again after the
   * wake, records nothing else, and leaves the wake flag set.
   */
  lemma DozeStepSpec(s: State)
    ensures DozeStep(s) == s.(wakeFlag := true, powered := true, trace := s.trace + [PowerOff, Sleep, PowerOn])
  {
    assert s.trace + [PowerOff] + [Sleep] + [PowerOn] == s.trace + [PowerOff, Sleep, PowerOn];
  }

  /**
   * Going to sleep: rail off before sleeping; after the wake the rail comes
   * back, `df_init` runs, the flag is cleared and one track is played.
   */
  lemma SleepStepSpec(s: State, tcnt: bv8)
    ensures var r := SleepStep(s, tcnt);
      && |r.trace| == |s.trace| + 6
      && r.trace[..|s.trace| + 5]
         == s.trace + [PowerOff, Sleep, PowerOn, Send(SelectTf), Send(SetVolume)]
      && r.trace[|s.trace| + 5].Send? && IsPlayFrame(r.trace[|s.trace| + 5].frame)
      && r.powered && !r.wakeFlag && r.idleMs == s.idleMs
  {
    DozeStepSpec(s);
    var on := DozeStep(s);
    var ready := InitStep(on).(wakeFlag := false);
    assert ready.trace == s.trace + [PowerOff, Sleep, PowerOn, Send(SelectTf), Send(SetVolume)];
    PlayStepSpec(ready, tcnt);
    PlayStepRegister(ready, tcnt);
  }

  lemma SleepStepInv(s: State, tcnt: bv8)
    requires Inv(s)
    ensures Inv(SleepStep(s, tcnt)) && SleepStep(s, tcnt).idleMs == s.idleMs
  {
    DozeStepSpec(s);
    var on := DozeStep(s);
    var ready := InitStep(on).(wakeFlag := false);
    PowerEventsInv(s, [PowerOff, Sleep, PowerOn]);
    InitStepSpec(on);
    PlayStepInv(ready, tcnt);
  }

  /**
   * One poll from inside the active loop: `idle_ms` never wraps; the poll
   * sleeps exactly when it brings `idle_ms` to the timeout, which only a
   * press-free poll at 59990 does; otherwise `idle_ms` grows by ten, or is
   * ten after a press. `Inv` is kept.
   */
  lemma PollStepSpec(s: State, i: Input, tcnt: bv8)
    requires Inv(s) && s.idleMs < SleepTimeout
    ensures var (r, asleep) := PollStep(s, i, tcnt);
      && Inv(r)
      && (asleep <==> !i.press && s.idleMs + PollMs == SleepTimeout)
      && (asleep ==> r.idleMs == SleepTimeout)
      && (!asleep ==> r.idleMs == (if i.press then 0 else s.idleMs) + PollMs)
  {
    var pressed := ButtonStep(s, i.press, tcnt);
    ButtonStepInv(s, i.press, tcnt);
    TickStepSpec(pressed, tcnt);
    var (after, asleep) := TickStep(pressed, tcnt);
    assert Inv(after.(wakeFlag := true));
  }

  /** The button check keeps `Inv`; a press clears the idle timer, otherwise it is unchanged. */
  lemma ButtonStepInv(s: State, press: bool, tcnt: bv8)
    requires Inv(s)
    ensures Inv(ButtonStep(s, press, tcnt))
    ensures ButtonStep(s, press, tcnt).idleMs == if press then 0 else s.idleMs
  {
    if press {
      PlayStepInv(s, tcnt);
    }
  }

  /**
   * Below the timeout the 16-bit idle timer does not wrap: it gains ten
   * milliseconds, and the sleep sequence runs exactly when that reaches the
   * timeout. `Inv` is kept.
   */
  lemma TickStepSpec(s: State, tcnt: bv8)
    requires Inv(s) && s.idleMs < SleepTimeout
    ensures var (r, asleep) := TickStep(s, tcnt);
      && Inv(r)
      && (asleep <==> s.idleMs + PollMs == SleepTimeout)
      && r.idleMs == s.idleMs + PollMs
  {
    var idle := s.idleMs + PollMs;
    NoWrap16(idle);
    var ticked := s.(idleMs := idle);
    assert Inv(ticked);
    if idle >= SleepTimeout {
      SleepStepInv(ticked, tcnt);
    }
  }

  /** Every run of the loops from a state satisfying `Inv` ends in one. */
  lemma {:induction false} OuterLoopInv(s: State, tcnt: bv8, inputs: seq<Input>)
    requires Inv(s)
    ensures Inv(OuterLoop(s, tcnt, inputs))
    decreases |inputs|, 1
  {
    ResumeInv(s, tcnt);
    ActiveLoopInv(ResumeStep(s, tcnt), tcnt, inputs);
  }

  lemma {:induction false} ActiveLoopInv(s: State, tcnt: bv8, inputs: seq<Input>)
    requires Inv(s) && s.idleMs < SleepTimeout
    ensures Inv(ActiveLoop(s, tcnt, inputs))
    decreases |inputs|, 0
  {
    if inputs != [] {
      PollStepSpec(s, inputs[0], tcnt);
      var next := PollStep(s, inputs[0], tcnt);
      if next.1 {
        OuterLoopInv(next.0, tcnt, inputs[1..]);
      } else {
        ActiveLoopInv(next.0, tcnt, inputs[1..]);
      }
    }
  }

  // ---------------------------------------------------------------------
  // Idle timeout

  predicate NoPress(inputs: seq<Input>)
  {
    forall j :: 0 <= j < |inputs| ==> !inputs[j].press
  }

  predicate AnyEdge(inputs: seq<Input>)
  {
    exists j :: 0 <= j < |inputs| && inputs[j].edge
  }

  /** A press-free poll below the timeout only advances `idle_ms`, and a pin edge sets the flag. */
  lemma QuietPoll(s: State, i: Input, tcnt: bv8)
    requires !i.press && s.idleMs + PollMs < SleepTimeout
    ensures PollStep(s, i, tcnt) == (s.(idleMs := s.idleMs + PollMs, wakeFlag := s.wakeFlag || i.edge), false)
  {
    NoWrap16(s.idleMs + PollMs);
  }

  /**
   * Press-free polls that stay below the timeout send nothing and change
   * nothing but `idle_ms`, ten per poll, and the wake flag, which any pin
   * edge sets.
   */
  lemma {:induction false} QuietPolls(s: State, tcnt: bv8, quiet: seq<Input>, rest: seq<Input>)
    requires NoPress(quiet)
    requires s.idleMs + PollMs * |quiet| < SleepTimeout
    ensures ActiveLoop(s, tcnt, quiet + rest)
         == ActiveLoop(s.(idleMs := s.idleMs + PollMs * |quiet|,
                          wakeFlag := s.wakeFlag || AnyEdge(quiet)), tcnt, rest)
    decreases |quiet|
  {
    if quiet == [] {
      assert quiet + rest == rest;
      assert s.(idleMs := s.idleMs, wakeFlag := s.wakeFlag) == s;
    } else {
      var i := quiet[0];
      var next := s.(idleMs := s.idleMs + PollMs, wakeFlag := s.wakeFlag || i.edge);
      assert ActiveLoop(s, tcnt, quiet + rest) == ActiveLoop(next, tcnt, quiet[1..] + rest) by {
        QuietPoll(s, i, tcnt);
        assert (quiet + rest)[1..] == quiet[1..] + rest;
      }
      QuietTail(quiet);
      QuietPolls(next, tcnt, quiet[1..], rest);
    }
  }

  /** The first poll of a press-free run and the rest of it. */
  lemma QuietTail(quiet: seq<Input>)
    requires NoPress(quiet) && quiet != []
    ensures NoPress(quiet[1..])
    ensures AnyEdge(quiet) <==> quiet[0].edge || AnyEdge(quiet[1..])
  {
    forall j | 0 <= j < |quiet[1..]| ensures !quiet[1..][j].press {
      assert quiet[1..][j] == quiet[j + 1];
    }
    if AnyEdge(quiet[1..]) {
      var j :| 0 <= j < |quiet[1..]| && quiet[1..][j].edge;
      assert quiet[j + 1].edge;
    }
    if AnyEdge(quiet) && !quiet[0].edge {
      var j :| 0 <= j < |quiet| && quiet[j].edge;
      assert quiet[1..][j - 1].edge;
    }
  }

  /**
   * The poll that brings `idle_ms` to the timeout goes to sleep: after it the
   * outer loop re-initialises from the woken state.
   */
  lemma TimeoutPoll(s: State, tcnt: bv8, quiet: seq<Input>, rest: seq<Input>)
    requires NoPress(quiet) && |quiet| > 0
    requires s.idleMs + PollMs * |quiet| == SleepTimeout
    ensures var before := quiet[..|quiet| - 1];
      var waiting := s.(idleMs := SleepTimeout - PollMs, wakeFlag := s.wakeFlag || AnyEdge(before));
      var next := PollStep(waiting, quiet[|quiet| - 1], tcnt);
      && next.1
      && ActiveLoop(s, tcnt, quiet + rest) == OuterLoop(next.0, tcnt, rest)
  {
    var n := |quiet| - 1;
    var before := quiet[..n];
    var last := quiet[n];
    assert NoPress(before) by {
      forall j | 0 <= j < n ensures !before[j].press {
        assert before[j] == quiet[j];
      }
    }
    assert quiet + rest == before + ([last] + rest);
    QuietPolls(s, tcnt, before, [last] + rest);
    assert ([last] + rest)[1..] == rest;
  }

  /** Press-free polls before the one that reaches the timeout leave `idle_ms` one poll short of it. */
  lemma QuietUntilLast(s: State, tcnt: bv8, quiet: seq<Input>)
    requires NoPress(quiet) && |quiet| > 0
    requires s.idleMs + PollMs * |quiet| == SleepTimeout
    ensures var before := quiet[..|quiet| - 1];
      ActiveLoop(s, tcnt, before)
        == s.(idleMs := SleepTimeout - PollMs, wakeFlag := s.wakeFlag || AnyEdge(before))
  {
    var n := |quiet| - 1;
    var before := quiet[..n];
    assert NoPress(before) by {
      forall j | 0 <= j < n ensures !before[j].press {
        assert before[j] == quiet[j];
      }
    }
    QuietPolls(s, tcnt, before, []);
    assert before + [] == before;
  }

  /**
   * Press-free polls that end exactly at the timeout: all but the last send
   * nothing and leave `idle_ms` one poll short of it; the last turns the
   * player off and goes to sleep, before anything else is recorded.
   */
  lemma QuietTimeout(s: State, tcnt: bv8, quiet: seq<Input>)
    requires NoPress(quiet) && |quiet| > 0
    requires s.idleMs + PollMs * |quiet| == SleepTimeout
    ensures ActiveLoop(s, tcnt, quiet[..|quiet| - 1]).trace == s.trace
    ensures ActiveLoop(s, tcnt, quiet[..|quiet| - 1]).idleMs == SleepTimeout - PollMs
    ensures var r := ActiveLoop(s, tcnt, quiet);
      && |r.trace| > |s.trace| + 1
      && r.trace[|s.trace|] == PowerOff
      && r.trace[|s.trace| + 1] == Sleep
  {
    var n := |quiet| - 1;
    var waiting := s.(idleMs := SleepTimeout - PollMs, wakeFlag := s.wakeFlag || AnyEdge(quiet[..n]));
    QuietUntilLast(s, tcnt, quiet);
    assert ActiveLoop(s, tcnt, quiet) == OuterLoop(PollStep(waiting, quiet[n], tcnt).0, tcnt, []) by {
      TimeoutPoll(s, tcnt, quiet, []);
      assert quiet + [] == quiet;
    }
    LastQuietPollSleeps(waiting, quiet[n], tcnt);
  }

  /**
   * From a fresh idle timer, 5999 press-free polls send nothing and the
   * 6000th turns the player off and goes to sleep: the timeout is 6000
   * polls, not 5999.
   */
  lemma SixThousandQuietPolls(s: State, tcnt: bv8, quiet: seq<Input>)
    requires s.idleMs == 0 && NoPress(quiet) && |quiet| == 6000
    ensures ActiveLoop(s, tcnt, quiet[..5999]).trace == s.trace
    ensures ActiveLoop(s, tcnt, quiet[..5999]).idleMs == SleepTimeout - PollMs
    ensures var r := ActiveLoop(s, tcnt, quiet);
      && |r.trace| > |s.trace| + 1
      && r.trace[|s.trace|] == PowerOff
      && r.trace[|s.trace| + 1] == Sleep
  {
    QuietTimeout(s, tcnt, quiet);
  }

  /** A press-free poll at 59990 ms reaches the timeout and runs the sleep sequence. */
  lemma PollAtTimeout(s: State, i: Input, tcnt: bv8)
    requires !i.press && s.idleMs == SleepTimeout - PollMs
    ensures var woken := SleepStep(s.(idleMs := SleepTimeout), tcnt);
      PollStep(s, i, tcnt) == (if i.edge then woken.(wakeFlag := true) else woken, true)
  {
    var ticked := s.(idleMs := (s.idleMs + PollMs) % 0x1_0000);
    assert ticked.idleMs == SleepTimeout;
  }

  /** A press-free poll at 59990 ms sleeps, and the sequence after it starts with rail off, sleep. */
  lemma LastQuietPollSleeps(s: State, i: Input, tcnt: bv8)
    requires !i.press && s.idleMs == SleepTimeout - PollMs
    ensures PollStep(s, i, tcnt).1
    ensures var r := OuterLoop(PollStep(s, i, tcnt).0, tcnt, []);
      |r.trace| > |s.trace| + 1 && r.trace[|s.trace|] == PowerOff && r.trace[|s.trace| + 1] == Sleep
  {
    var ticked := s.(idleMs := SleepTimeout);
    PollAtTimeout(s, i, tcnt);
    WakeOrder(ticked, tcnt, i.edge);
    var w := SleepStep(ticked, tcnt);
    var r := ResumeStep(if i.edge then w.(wakeFlag := true) else w, tcnt);
    var n := |s.trace|;
    assert r.trace[..n + 5][n] == PowerOff;
    assert r.trace[..n + 5][n + 1] == Sleep;
  }

  /**
   * The whole wake sequence as the code runs it: rail off, sleep, rail on,
   * `df_init`, one play; then the outer loop runs `df_init` a second time and
   * plays once more if a pin edge arrived after the flag was cleared
   * (`late`). Afterwards the flag is clear and the idle timer is zero.
   */
  lemma WakeOrder(s: State, tcnt: bv8, late: bool)
    ensures var w := SleepStep(s, tcnt);
      var r := ResumeStep(if late then w.(wakeFlag := true) else w, tcnt);
      var n := |s.trace|;
      && r.trace[..n + 5] == s.trace + [PowerOff, Sleep, PowerOn, Send(SelectTf), Send(SetVolume)]
      && r.trace[n + 5].Send? && IsPlayFrame(r.trace[n + 5].frame)
      && r.trace[n + 6..n + 8] == [Send(SelectTf), Send(SetVolume)]
      && |r.trace| == n + 8 + (if late then 1 else 0)
      && (late ==> r.trace[n + 8].Send? && IsPlayFrame(r.trace[n + 8].frame))
      && r.powered && !r.wakeFlag && r.idleMs == 0
  {
    var w := SleepStep(s, tcnt);
    SleepStepSpec(s, tcnt);
    var v := if late then w.(wakeFlag := true) else w;
    InitStepSpec(v);
    var ready := InitStep(v);
    if late {
      PlayStepSpec(ready.(wakeFlag := false), tcnt);
      PlayStepRegister(ready.(wakeFlag := false), tcnt);
    }
  }

  // ---------------------------------------------------------------------
  // Reachability of every allowed file

  /**
   * From register value `s`, the two draws of `play_random` (the first is
   * `Step(s)`, the second `Step(Step(s))`) choose `sel`; `s` is a value the
   * register can hold, i.e. non-zero.
   */
  predicate Reaches(s: bv16, sel: Selection)
  {
    s != 0 && Choose(Step(s) as int, Step(Step(s)) as int) == sel
  }

  /** A register value whose two draws are `first` and `second` and choose `sel` is a witness for `sel`. */
  lemma ReachedFrom(s: bv16, first: uint16, second: uint16, sel: Selection)
    requires s != 0 && Step(s) as int == first && Step(Step(s)) as int == second
    requires Choose(first, second) == sel
    ensures exists t: bv16 :: Reaches(t, sel)
  {
    assert Reaches(s, sel);
  }

  /** Every file of folder 1 is chosen from some non-zero register value. */
  lemma DrawsReachFolder1(sel: Selection)
    requires sel.folder == Folder1 && File1Min <= sel.file <= File1Max
    ensures exists s: bv16 :: Reaches(s, sel)
  {
    if sel.file == 1 {
      ReachedFrom(0x0026, 19, 46089, sel);
    } else if sel.file == 2 {
      ReachedFrom(0x0004, 2, 1, sel);
    } else if sel.file == 3 {
      ReachedFrom(0x0008, 4, 2, sel);
    } else if sel.file == 4 {
      ReachedFrom(0x000C, 6, 3, sel);
    } else if sel.file == 5 {
      ReachedFrom(0x0010, 8, 4, sel);
    } else if sel.file == 6 {
      ReachedFrom(0x0014, 10, 5, sel);
    } else if sel.file == 7 {
      ReachedFrom(0x0018, 12, 6, sel);
    } else if sel.file == 8 {
      ReachedFrom(0x001C, 14, 7, sel);
    } else if sel.file == 9 {
      ReachedFrom(0x0020, 16, 8, sel);
    } else if sel.file == 10 {
      ReachedFrom(0x0001, 46080, 23040, sel);
    } else if sel.file == 11 {
      ReachedFrom(0x0005, 46082, 23041, sel);
    } else if sel.file == 12 {
      ReachedFrom(0x0009, 46084, 23042, sel);
    } else if sel.file == 13 {
      ReachedFrom(0x000D, 46086, 23043, sel);
    } else if sel.file == 14 {
      ReachedFrom(0x0011, 46088, 23044, sel);
    } else if sel.file == 15 {
      ReachedFrom(0x0038, 28, 14, sel);
    } else if sel.file == 16 {
      ReachedFrom(0x003C, 30, 15, sel);
    } else if sel.file == 17 {
      ReachedFrom(0x0003, 46081, 60928, sel);
    } else if sel.file == 18 {
      ReachedFrom(0x0007, 46083, 60929, sel);
    } else if sel.file == 19 {
      ReachedFrom(0x0002, 1, 46080, sel);
    } else if sel.file == 20 {
      ReachedFrom(0x0006, 3, 46081, sel);
    } else if sel.file == 21 {
      ReachedFrom(0x000A, 5, 46082, sel);
    } else if sel.file == 22 {
      ReachedFrom(0x000E, 7, 46083, sel);
    } else if sel.file == 23 {
      ReachedFrom(0x0012, 9, 46084, sel);
    } else if sel.file == 24 {
      ReachedFrom(0x0016, 11, 46085, sel);
    } else if sel.file == 25 {
      ReachedFrom(0x001A, 13, 46086, sel);
    } else if sel.file == 26 {
      ReachedFrom(0x001E, 15, 46087, sel);
    } else if sel.file == 27 {
      ReachedFrom(0x0022, 17, 46088, sel);
    }
  }

  /** Every file of folder 2 is chosen from some non-zero register value. */
  lemma DrawsReachFolder2(sel: Selection)
    requires sel.folder == Folder2 && File2Min <= sel.file <= File2Max
    ensures exists s: bv16 :: Reaches(s, sel)
  {
    if sel.file == 1 {
      ReachedFrom(0x0021, 46096, 23048, sel);
    } else if sel.file == 2 {
      ReachedFrom(0x0025, 46098, 23049, sel);
    } else if sel.file == 3 {
      ReachedFrom(0x0017, 46091, 60933, sel);
    } else if sel.file == 4 {
      ReachedFrom(0x001B, 46093, 60934, sel);
    } else if sel.file == 5 {
      ReachedFrom(0x001F, 46095, 60935, sel);
    } else if sel.file == 6 {
      ReachedFrom(0x0023, 46097, 60936, sel);
    } else if sel.file == 7 {
      ReachedFrom(0x0027, 46099, 60937, sel);
    } else if sel.file == 8 {
      ReachedFrom(0x00E9, 46196, 23098, sel);
    } else if sel.file == 9 {
      ReachedFrom(0x00ED, 46198, 23099, sel);
    } else if sel.file == 10 {
      ReachedFrom(0x00DF, 46191, 60983, sel);
    } else if sel.file == 11 {
      ReachedFrom(0x00E3, 46193, 60984, sel);
    } else if sel.file == 12 {
      ReachedFrom(0x00E7, 46195, 60985, sel);
    } else if sel.file == 13 {
      ReachedFrom(0x00EB, 46197, 60986, sel);
    } else if sel.file == 14 {
      ReachedFrom(0x00EF, 46199, 60987, sel);
    } else if sel.file == 15 {
      ReachedFrom(0x01B1, 46296, 23148, sel);
    } else if sel.file == 16 {
      ReachedFrom(0x01B5, 46298, 23149, sel);
    } else if sel.file == 17 {
      ReachedFrom(0x01A7, 46291, 61033, sel);
    } else if sel.file == 18 {
      ReachedFrom(0x01AB, 46293, 61034, sel);
    } else if sel.file == 19 {
      ReachedFrom(0x01AF, 46295, 61035, sel);
    } else if sel.file == 20 {
      ReachedFrom(0x01B3, 46297, 61036, sel);
    } else if sel.file == 21 {
      ReachedFrom(0x01B7, 46299, 61037, sel);
    } else if sel.file == 22 {
      ReachedFrom(0x0279, 46396, 23198, sel);
    } else if sel.file == 23 {
      ReachedFrom(0x027D, 46398, 23199, sel);
    } else if sel.file == 24 {
      ReachedFrom(0x026F, 46391, 61083, sel);
    } else if sel.file == 25 {
      ReachedFrom(0x0273, 46393, 61084, sel);
    } else if sel.file == 26 {
      ReachedFrom(0x0277, 46395, 61085, sel);
    } else if sel.file == 27 {
      ReachedFrom(0x027B, 46397, 61086, sel);
    } else if sel.file == 28 {
      ReachedFrom(0x027F, 46399, 61087, sel);
    } else if sel.file == 29 {
      ReachedFrom(0x0341, 46496, 23248, sel);
    } else if sel.file == 30 {
      ReachedFrom(0x00B6, 91, 46125, sel);
    } else if sel.file == 31 {
      ReachedFrom(0x00BA, 93, 46126, sel);
    } else if sel.file == 32 {
      ReachedFrom(0x00BE, 95, 46127, sel);
    } else if sel.file == 33 {
      ReachedFrom(0x00C2, 97, 46128, sel);
    } else if sel.file == 34 {
      ReachedFrom(0x00C6, 99, 46129, sel);
    } else if sel.file == 35 {
      ReachedFrom(0x0347, 46499, 61137, sel);
    } else if sel.file == 36 {
      ReachedFrom(0x0409, 46596, 23298, sel);
    } else if sel.file == 37 {
      ReachedFrom(0x017E, 191, 46175, sel);
    } else if sel.file == 38 {
      ReachedFrom(0x0182, 193, 46176, sel);
    } else if sel.file == 39 {
      ReachedFrom(0x0186, 195, 46177, sel);
    } else if sel.file == 40 {
      ReachedFrom(0x018A, 197, 46178, sel);
    } else if sel.file == 41 {
      ReachedFrom(0x0015, 46090, 23045, sel);
    } else if sel.file == 42 {
      ReachedFrom(0x0019, 46092, 23046, sel);
    } else if sel.file == 43 {
      ReachedFrom(0x001D, 46094, 23047, sel);
    }
  }

  /**
   * The firmware's own draws reach every allowed selection: for each folder
   * and file in range there is a non-zero register from which the first draw
   * picks the folder and the second the file.
   */
  lemma DrawsReachEveryFile(sel: Selection)
    requires InRange(sel)
    ensures exists s: bv16 :: Reaches(s, sel)
  {
    if sel.folder == Folder1 {
      DrawsReachFolder1(sel);
    } else {
      DrawsReachFolder2(sel);
    }
  }
}
