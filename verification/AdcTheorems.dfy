/** Whole runs of the ADC peripheral, for every choice of the generics and all bus traffic. */
module AdcTheorems {
  import opened Basics
  import opened AdcModel
  import opened AdcProof

  // ---------- The run from reset ----------

  function StateAt(p: Params, traffic: Traffic, n: nat): Regs {
    if n == 0 then RESET else Step(p, StateAt(p, traffic, n - 1), traffic(n - 1))
  }

  /** All traffic has a run from reset, and only one. */
  lemma RunFromReset(p: Params, traffic: Traffic)
    ensures IsRun(p, (n: nat) => StateAt(p, traffic, n), traffic)
    ensures forall run: History, n: nat :: IsRun(p, run, traffic) && run(0) == RESET ==> run(n) == StateAt(p, traffic, n)
  {
    forall run: History, n: nat | IsRun(p, run, traffic) && run(0) == RESET
      ensures run(n) == StateAt(p, traffic, n)
    {
      OneRun(p, run, traffic, n);
    }
  }

  lemma {:induction false} OneRun(p: Params, run: History, traffic: Traffic, n: nat)
    requires IsRun(p, run, traffic) && run(0) == RESET
    ensures run(n) == StateAt(p, traffic, n)
  {
    if n > 0 {
      OneRun(p, run, traffic, n - 1);
      assert run(n - 1 + 1) == Step(p, run(n - 1), traffic(n - 1));
    }
  }

  // ---------- One conversion in a run ----------

  /** The job of the conversion that was accepted at `m`: the channel is the one at that edge. */
  function JobOf(p: Params, run: History, traffic: Traffic, m: nat): Job {
    Job(Command(run(m).bus.channel), Sampled(p, traffic, m))
  }

  /** Every conversion takes its course, clock by clock, whatever is written meanwhile. */
  lemma {:induction false} Course(p: Params, run: History, traffic: Traffic, m: nat, k: nat)
    requires IsRun(p, run, traffic) && Accepts(run, traffic, m)
    requires k <= Duration(p) && Undisturbed(traffic, m, m + 1 + k)
    ensures At(p, run(m + 1 + k), k, JobOf(p, run, traffic, m))
  {
    var s, e, job := run(m + k), traffic(m + k), JobOf(p, run, traffic, m);
    assert run(m + 1 + k) == run(m + k + 1) == Step(p, s, e);
    assert e.Clock?;
    if k == 0 {
      AcceptStep(p, s, e.inputs, Sampled(p, traffic, m));
    } else {
      Course(p, run, traffic, m, k - 1);
      assert At(p, s, k - 1, job);
      SampleIsMatched(p, run, traffic, m, k);
      ConversionStep(p, s, e.inputs, k - 1, job);
    }
  }

  lemma SampleIsMatched(p: Params, run: History, traffic: Traffic, m: nat, k: nat)
    requires traffic(m + k).Clock?
    ensures SampleMatches(p, k, JobOf(p, run, traffic, m), traffic(m + k).inputs)
  {
  }

  /** What the phase and the outputs are, `k` clocks after acceptance. */
  lemma Outputs(p: Params, s: Regs, k: nat, job: Job)
    requires k <= Duration(p) && At(p, s, k, job)
    ensures s.fsm.phase == (
      if k < p.convHigh then ConvHigh
      else if k < p.convHigh + p.convWait then ConvWait
      else if k < p.convHigh + p.convWait + 23 * p.clkDiv then Shift
      else if k < Duration(p) then AcqHold
      else Done)
    ensures s.fsm.busy && (s.fsm.convst <==> k < p.convHigh)
    ensures s.sck.sclk == SclkAt(p, k)
  {
  }

  /** The serial clock `k` clocks after acceptance. */
  predicate SclkAt(p: Params, k: nat) {
    var shifting := p.convHigh + p.convWait;
    var holding := shifting + 23 * p.clkDiv;
    (shifting <= k < holding && (k - shifting) / p.clkDiv % 2 == 1) || k == holding
  }

  /** READY is set exactly `Duration(p)` clocks after the edge that accepts the conversion, with
      the conversion's twelve bits in the data register, and the peripheral is busy in between. */
  lemma Timing(p: Params, run: History, traffic: Traffic, m: nat)
    requires IsRun(p, run, traffic) && Accepts(run, traffic, m)
    requires Undisturbed(traffic, m, m + 1 + Duration(p))
    ensures run(m + 1 + Duration(p)).fsm.ready && run(m + 1 + Duration(p)).fsm.phase == Done
    ensures run(m + 1 + Duration(p)).spi.data == Sampled(p, traffic, m)
    ensures forall x: nat | m < x <= m + Duration(p) :: Converting(p, run(x), x - m - 1)
  {
    Course(p, run, traffic, m, Duration(p));
    forall x: nat | m < x <= m + Duration(p)
      ensures Converting(p, run(x), x - m - 1)
    {
      Course(p, run, traffic, m, x - m - 1);
      Outputs(p, run(x), x - m - 1, JobOf(p, run, traffic, m));
    }
  }

  predicate Converting(p: Params, s: Regs, k: nat) {
    s.fsm.busy && s.fsm.phase != Idle && s.fsm.phase != Done && (s.fsm.convst <==> k < p.convHigh)
  }

  // ---------- The serial clock ----------

  /** The number of rises of the serial clock at the edges from `m` up to `n`. */
  function Rises(run: History, m: nat, n: nat): nat
    requires m <= n
    decreases n
  {
    if m == n then 0
    else Rises(run, m, n - 1) + if !run(n - 1).sck.sclk && run(n).sck.sclk then 1 else 0
  }

  /** The number of bits that are in, `k` clocks after acceptance. */
  function BitsAt(p: Params, k: nat): nat {
    var shifting := p.convHigh + p.convWait;
    var holding := shifting + 23 * p.clkDiv;
    if k < shifting then 0 else if k < holding then ((k - shifting) / p.clkDiv + 1) / 2 else 12
  }

  lemma BitsStep(p: Params, k: nat)
    requires k < Duration(p)
    ensures BitsAt(p, k + 1) == BitsAt(p, k) + if !SclkAt(p, k) && SclkAt(p, k + 1) then 1 else 0
  {
    var shifting := p.convHigh + p.convWait;
    var q := k - shifting;
    if 0 <= q < 23 * p.clkDiv {
      NextToggle(q, p.clkDiv);
    } else if q < 0 {
      DivisionUnique(0, p.clkDiv, 0, 0);
    }
  }

  lemma {:induction false} RisesAreBits(p: Params, run: History, traffic: Traffic, m: nat, k: nat)
    requires IsRun(p, run, traffic) && Accepts(run, traffic, m)
    requires k <= Duration(p) && Undisturbed(traffic, m, m + 1 + k)
    ensures Rises(run, m, m + 1 + k) == BitsAt(p, k)
  {
    Course(p, run, traffic, m, k);
    Outputs(p, run(m + 1 + k), k, JobOf(p, run, traffic, m));
    if k > 0 {
      RisesAreBits(p, run, traffic, m, k - 1);
      Course(p, run, traffic, m, k - 1);
      Outputs(p, run(m + k), k - 1, JobOf(p, run, traffic, m));
      BitsStep(p, k - 1);
    }
  }

  /** A conversion has exactly twelve rises of the serial clock. */
  lemma TwelveRises(p: Params, run: History, traffic: Traffic, m: nat)
    requires IsRun(p, run, traffic) && Accepts(run, traffic, m)
    requires Undisturbed(traffic, m, m + 1 + Duration(p))
    ensures Rises(run, m, m + 1 + Duration(p)) == 12
  {
    RisesAreBits(p, run, traffic, m, Duration(p));
  }

  lemma ToggleWhere(p: Params, j: nat)
    requires j < 12
    ensures var q := ToggleTime(p, 2 * j) - 1 - p.convHigh - p.convWait;
      0 <= q < 23 * p.clkDiv && q / p.clkDiv == 2 * j && q % p.clkDiv == p.clkDiv - 1
  {
    var q := ToggleTime(p, 2 * j) - 1 - p.convHigh - p.convWait;
    assert q == 2 * j * p.clkDiv + (p.clkDiv - 1) by {
      assert (2 * j + 1) * p.clkDiv == 2 * j * p.clkDiv + p.clkDiv;
    }
    TogglesEnd(2 * j, p.clkDiv);
    TimesMonotone(0, 2 * j, p.clkDiv);
    DivisionUnique(q, p.clkDiv, 2 * j, p.clkDiv - 1);
  }

  /** The register values at the edge of the `j`-th rise. */
  lemma BeforeRise(p: Params, s: Regs, j: nat, job: Job)
    requires j < 12 && 0 < ToggleTime(p, 2 * j) <= Duration(p) && At(p, s, ToggleTime(p, 2 * j) - 1, job)
    ensures ShiftAt(p, s, 2 * j, p.clkDiv - 1, job)
  {
    ToggleWhere(p, j);
  }

  lemma AcrossRise(p: Params, s: Regs, i: Inputs, j: nat, job: Job)
    requires j < 12 && ShiftAt(p, s, 2 * j, p.clkDiv - 1, job)
    ensures var s' := Step(p, s, Clock(i));
      !s.sck.sclk && s'.sck.sclk && s.spi.sdi == s'.spi.sdi == job.command[j]
  {
  }

  /** At the `j`-th rise the command line shows the `j`-th bit of the command for the channel that
      was set when the conversion was accepted, most significant bit first. */
  lemma CommandOut(p: Params, run: History, traffic: Traffic, m: nat, j: nat)
    requires IsRun(p, run, traffic) && Accepts(run, traffic, m) && j < 12
    requires Undisturbed(traffic, m, m + 1 + ToggleTime(p, 2 * j))
    ensures var e := m + ToggleTime(p, 2 * j);
      && !run(e).sck.sclk && run(e + 1).sck.sclk
      && run(e).spi.sdi == run(e + 1).spi.sdi == Command(run(m).bus.channel)[j]
  {
    var e := m + ToggleTime(p, 2 * j);
    var job := JobOf(p, run, traffic, m);
    ToggleWhere(p, j);
    Course(p, run, traffic, m, e - m - 1);
    BeforeRise(p, run(e), j, job);
    assert run(e + 1) == Step(p, run(e), traffic(e)) && traffic(e).Clock?;
    AcrossRise(p, run(e), traffic(e).inputs, j, job);
  }

  // ---------- Every state belongs to a conversion ----------

  /** At `n` the conversion that was accepted at `m` is under way or just done. */
  ghost predicate Under(p: Params, run: History, traffic: Traffic, m: nat, n: nat) {
    m < n <= m + 1 + Duration(p) && Accepts(run, traffic, m) && Undisturbed(traffic, m, n)
  }

  lemma PhaseUnder(p: Params, run: History, traffic: Traffic, m: nat, n: nat)
    requires IsRun(p, run, traffic) && Under(p, run, traffic, m, n)
    ensures At(p, run(n), n - m - 1, JobOf(p, run, traffic, m))
    ensures run(n).fsm.phase == Done <==> n == m + 1 + Duration(p)
    ensures run(n).fsm.phase != Idle
    ensures run(n).fsm.phase == AcqHold ==> n - m - 1 >= p.convHigh + p.convWait + 23 * p.clkDiv
  {
    Course(p, run, traffic, m, n - m - 1);
    Outputs(p, run(n), n - m - 1, JobOf(p, run, traffic, m));
  }

  /** Whenever the peripheral is not idle, a conversion is under way that was accepted in time. */
  lemma {:induction false} Origin(p: Params, run: History, traffic: Traffic, n: nat)
    requires IsRun(p, run, traffic) && run(0) == RESET && run(n).fsm.phase != Idle
    ensures exists m: nat :: Under(p, run, traffic, m, n)
  {
    if n > 0 {
      assert run(n - 1 + 1) == Step(p, run(n - 1), traffic(n - 1));
      if run(n - 1).fsm.phase == Idle {
        assert Under(p, run, traffic, n - 1, n);
      } else {
        Origin(p, run, traffic, n - 1);
        var m: nat :| Under(p, run, traffic, m, n - 1);
        PhaseUnder(p, run, traffic, m, n - 1);
        assert Under(p, run, traffic, m, n);
      }
    }
  }

  /** Two conversions are at least `Duration(p) + 2` clocks apart. */
  lemma ConversionsApart(p: Params, run: History, traffic: Traffic, m: nat, n: nat)
    requires IsRun(p, run, traffic) && Accepts(run, traffic, m) && Accepts(run, traffic, n)
    requires m < n && Undisturbed(traffic, m, n)
    ensures n >= m + 2 + Duration(p)
  {
    if n <= m + 1 + Duration(p) {
      assert Under(p, run, traffic, m, n);
      PhaseUnder(p, run, traffic, m, n);
    }
  }

  // ---------- Sample integrity ----------

  /** The data register holds all twelve bits of one conversion, which had been sampled before. */
  ghost predicate HoldsSampleOf(p: Params, run: History, traffic: Traffic, m: nat, n: nat) {
    && Accepts(run, traffic, m) && Undisturbed(traffic, m, n)
    && m + ToggleTime(p, 22) < n
    && run(n).spi.data == Sampled(p, traffic, m)
  }

  ghost predicate HoldsASample(p: Params, run: History, traffic: Traffic, n: nat) {
    exists m: nat :: HoldsSampleOf(p, run, traffic, m, n)
  }

  ghost predicate Intact(p: Params, run: History, traffic: Traffic, n: nat) {
    (run(n).spi.data == ZEROS && !run(n).fsm.ready) || HoldsASample(p, run, traffic, n)
  }

  /** The data register is never a partial shift: it is at its reset value, with READY low, or
      holds the complete sample of a conversion. */
  lemma {:induction false} SampleIntegrity(p: Params, run: History, traffic: Traffic, n: nat)
    requires IsRun(p, run, traffic) && run(0) == RESET
    ensures Intact(p, run, traffic, n)
  {
    if n > 0 {
      SampleIntegrity(p, run, traffic, n - 1);
      IntactStep(p, run, traffic, n - 1);
    }
  }

  lemma IntactStep(p: Params, run: History, traffic: Traffic, n: nat)
    requires IsRun(p, run, traffic) && run(0) == RESET && Intact(p, run, traffic, n)
    ensures Intact(p, run, traffic, n + 1)
  {
    assert run(n + 1) == Step(p, run(n), traffic(n));
    if traffic(n).Clock? {
      if run(n).fsm.phase == AcqHold {
        SampleArrives(p, run, traffic, n);
      } else {
        DataKept(p, run(n), traffic(n).inputs);
        if HoldsASample(p, run, traffic, n) {
          var m: nat :| HoldsSampleOf(p, run, traffic, m, n);
          assert HoldsSampleOf(p, run, traffic, m, n + 1);
        }
      }
    }
  }

  lemma DataKept(p: Params, s: Regs, i: Inputs)
    requires s.fsm.phase != AcqHold
    ensures Step(p, s, Clock(i)).spi.data == s.spi.data
    ensures !s.fsm.ready ==> !Step(p, s, Clock(i)).fsm.ready
  {
  }

  lemma SampleArrives(p: Params, run: History, traffic: Traffic, n: nat)
    requires IsRun(p, run, traffic) && run(0) == RESET
    requires traffic(n).Clock? && run(n).fsm.phase == AcqHold
    ensures HoldsASample(p, run, traffic, n + 1)
  {
    Origin(p, run, traffic, n);
    var m: nat :| Under(p, run, traffic, m, n);
    PhaseUnder(p, run, traffic, m, n);
    assert run(n + 1) == Step(p, run(n), traffic(n));
    assert run(n).spi.rx == Sampled(p, traffic, m);
    assert HoldsSampleOf(p, run, traffic, m, n + 1);
  }

  /** READY rises only when a conversion ends, and the sample is then in the data register. */
  lemma ReadyRises(p: Params, run: History, traffic: Traffic, n: nat)
    requires IsRun(p, run, traffic) && run(0) == RESET
    requires !run(n).fsm.ready && run(n + 1).fsm.ready
    ensures n >= Duration(p) && Accepts(run, traffic, n - Duration(p))
    ensures run(n + 1).spi.data == Sampled(p, traffic, n - Duration(p))
  {
    assert run(n + 1) == Step(p, run(n), traffic(n));
    assert run(n + 1).fsm.phase == Done;
    Origin(p, run, traffic, n + 1);
    var m: nat :| Under(p, run, traffic, m, n + 1);
    PhaseUnder(p, run, traffic, m, n + 1);
  }

  // ---------- Counters ----------

  predicate InRange(p: Params, s: Regs) {
    && 0 <= s.sck.clkCnt < p.clkDiv
    && 0 <= s.fsm.highCnt < p.convHigh && 0 <= s.fsm.waitCnt < p.convWait && 0 <= s.fsm.holdCnt < p.acqHold
    && 0 <= s.fsm.bitCnt <= 11
  }

  /** Every counter stays within the range it is declared with. */
  lemma {:induction false} CountersInRange(p: Params, run: History, traffic: Traffic, n: nat)
    requires IsRun(p, run, traffic) && run(0) == RESET
    ensures InRange(p, run(n))
  {
    if n > 0 {
      CountersInRange(p, run, traffic, n - 1);
      assert run(n - 1 + 1) == Step(p, run(n - 1), traffic(n - 1));
    }
  }

  // ---------- Requests ----------

  /** A word is written to the address at this edge. */
  predicate WritesTo(e: Event, address: nat) {
    e.Clock? && e.inputs.write && e.inputs.address == address
  }

  /** A word with bit 0 set is written to 0xC0. */
  predicate Starts(e: Event) {
    WritesTo(e, 0xC0) && e.inputs.data[15]
  }

  /** A word with bit 1 set is written to 0xC0. */
  predicate Clears(e: Event) {
    WritesTo(e, 0xC0) && e.inputs.data[14]
  }

  ghost predicate NoStart(traffic: Traffic, m: nat, n: nat) {
    forall k: nat | m <= k < n :: traffic(k).Clock? && !Starts(traffic(k))
  }

  ghost predicate NoClear(traffic: Traffic, m: nat, n: nat) {
    forall k: nat | m <= k < n :: traffic(k).Clock? && !Clears(traffic(k))
  }

  /** A pending request is kept outside of CONV_HIGH. */
  lemma {:induction false} RequestKept(p: Params, run: History, traffic: Traffic, m: nat, n: nat)
    requires IsRun(p, run, traffic) && m <= n && NoStart(traffic, m, n)
    requires forall k: nat | m <= k < n :: run(k).fsm.phase != ConvHigh
    ensures run(n).bus.startReq == run(m).bus.startReq
    decreases n
  {
    if m < n {
      RequestKept(p, run, traffic, m, n - 1);
      assert run(n - 1 + 1) == Step(p, run(n - 1), traffic(n - 1));
    }
  }

  /** A request that is written while the peripheral converts leads to another conversion if and
      only if CONVST goes low, or is low, at the edge of the write; before, it is lost. */
  lemma StartWhileConverting(p: Params, run: History, traffic: Traffic, m: nat, w: nat)
    requires IsRun(p, run, traffic) && Accepts(run, traffic, m) && m <= w <= m + 1 + Duration(p)
    requires Undisturbed(traffic, m, m + 3 + Duration(p)) && Starts(traffic(w))
    requires NoStart(traffic, w + 1, m + 2 + Duration(p))
    ensures Accepts(run, traffic, m + 2 + Duration(p)) <==> !run(w + 1).fsm.convst
  {
    var end := m + 2 + Duration(p);
    Course(p, run, traffic, m, Duration(p));
    assert run(m + 1 + Duration(p) + 1) == Step(p, run(m + 1 + Duration(p)), traffic(m + 1 + Duration(p)));
    assert run(end).fsm.phase == Idle;
    assert run(w + 1) == Step(p, run(w), traffic(w)) && run(w + 1).bus.startReq;
    forall k: nat | m < k < end
      ensures run(k).fsm.phase == ConvHigh <==> k <= m + p.convHigh
      ensures run(k).fsm.convst <==> k <= m + p.convHigh
    {
      PhaseUnder(p, run, traffic, m, k);
      Outputs(p, run(k), k - m - 1, JobOf(p, run, traffic, m));
    }
    if w >= m + p.convHigh {
      RequestKept(p, run, traffic, w + 1, end);
    } else {
      var high := m + p.convHigh;
      assert run(high + 1) == Step(p, run(high), traffic(high));
      RequestKept(p, run, traffic, high + 1, end);
    }
  }

  // ---------- The driver's handshake ----------

  /** Nothing is pending: the peripheral rests with READY low and the requests taken. */
  predicate Resting(s: Regs) {
    s.fsm.phase == Idle && !s.bus.startReq
  }

  lemma {:induction false} StaysResting(p: Params, run: History, traffic: Traffic, m: nat, n: nat)
    requires IsRun(p, run, traffic) && m <= n && Resting(run(m)) && NoStart(traffic, m, n)
    ensures Resting(run(n))
    decreases n
  {
    if m < n {
      StaysResting(p, run, traffic, m, n - 1);
      assert run(n - 1 + 1) == Step(p, run(n - 1), traffic(n - 1));
    }
  }

  /** READY stays low until the end of the next conversion. */
  lemma {:induction false} StaysLow(p: Params, run: History, traffic: Traffic, m: nat, n: nat)
    requires IsRun(p, run, traffic) && m <= n && !run(m).fsm.ready && Undisturbed(traffic, m, n)
    requires forall k: nat | m < k <= n :: run(k).fsm.phase != Done
    ensures !run(n).fsm.ready
    decreases n
  {
    if m < n {
      StaysLow(p, run, traffic, m, n - 1);
      assert run(n - 1 + 1) == Step(p, run(n - 1), traffic(n - 1));
      assert run(n).fsm.phase != Done;
    }
  }

  /** READY and the sample stay until they are cleared or another conversion is requested. */
  lemma {:induction false} StaysReady(p: Params, run: History, traffic: Traffic, m: nat, n: nat)
    requires IsRun(p, run, traffic) && m <= n && NoStart(traffic, m, n) && NoClear(traffic, m, n)
    requires run(m).fsm.ready && (run(m).fsm.phase == Done || run(m).fsm.phase == Idle)
    requires !run(m).bus.startReq && !run(m).bus.clearReq
    ensures run(n).fsm.ready && run(n).spi.data == run(m).spi.data
    ensures (run(n).fsm.phase == Done || run(n).fsm.phase == Idle) && !run(n).bus.startReq && !run(n).bus.clearReq
    ensures m < n ==> !run(n).fsm.busy
    decreases n
  {
    if m < n {
      StaysReady(p, run, traffic, m, n - 1);
      assert run(n - 1 + 1) == Step(p, run(n - 1), traffic(n - 1));
    }
  }

  /** What the driver does: it clears READY at edge `c` while the peripheral rests, starts a
      conversion at a later edge `s`, and up to `n` requests nothing else. */
  ghost predicate Drives(run: History, traffic: Traffic, c: nat, s: nat, n: nat) {
    && c < s && c + 2 <= n && Resting(run(c))
    && Clears(traffic(c)) && NoStart(traffic, c, if s < n then s else n)
    && (s < n ==> Starts(traffic(s)))
    && NoClear(traffic, c + 1, n) && NoStart(traffic, s + 1, n)
  }

  /** Two edges after the clear READY is low, and stays so until the conversion is accepted. */
  lemma LowBeforeStart(p: Params, run: History, traffic: Traffic, c: nat, s: nat, n: nat)
    requires IsRun(p, run, traffic) && Drives(run, traffic, c, s, n) && n <= s + 1
    ensures !run(n).fsm.ready && run(n).fsm.phase == Idle && (run(n).bus.startReq <==> n == s + 1)
    ensures !run(n).fsm.busy
  {
    assert run(c + 1) == Step(p, run(c), traffic(c));
    assert run(c + 1 + 1) == Step(p, run(c + 1), traffic(c + 1));
    forall k: nat | c <= k <= n
      ensures run(k).fsm.phase == Idle
    {
      StaysResting(p, run, traffic, c, if k <= s then k else s);
      if k == s + 1 {
        assert run(s + 1) == Step(p, run(s), traffic(s));
      }
    }
    StaysLow(p, run, traffic, c + 2, n);
    StaysResting(p, run, traffic, c, if n <= s then n else s);
    if n == s + 1 {
      assert run(s + 1) == Step(p, run(s), traffic(s));
    }
    StaysResting(p, run, traffic, c, n - 1);
    assert run(n - 1 + 1) == Step(p, run(n - 1), traffic(n - 1));
  }

  /** A driver that polls from two edges after the clear on, on any schedule, reads READY exactly
      from the end of the conversion that it started, and then reads that conversion's sample; BUSY
      it reads from acceptance up to that first clock, and the other status bits are 0. */
  lemma Handshake(p: Params, run: History, traffic: Traffic, c: nat, s: nat, n: nat)
    requires IsRun(p, run, traffic) && Drives(run, traffic, c, s, n)
    ensures ReadBus(run(n), true, 0xC1) ==
      Some([false, false] + ZEROS + [s + 2 <= n <= s + 2 + Duration(p), n >= s + 2 + Duration(p)])
    ensures n >= s + 2 + Duration(p) ==>
      ReadBus(run(n), true, 0xC2) == Some([false, false, false, false] + Sampled(p, traffic, s + 1))
  {
    if n <= s + 1 {
      LowBeforeStart(p, run, traffic, c, s, n);
    } else {
      LowBeforeStart(p, run, traffic, c, s, s + 1);
      Converted(p, run, traffic, s + 1, n);
    }
  }

  /** READY is low until the conversion ends, and from then on the sample is there. */
  lemma Converted(p: Params, run: History, traffic: Traffic, m: nat, n: nat)
    requires IsRun(p, run, traffic) && m < n && Accepts(run, traffic, m)
    requires !run(m).fsm.ready && NoStart(traffic, m, n) && NoClear(traffic, m, n)
    ensures run(n).fsm.ready <==> n >= m + 1 + Duration(p)
    ensures n >= m + 1 + Duration(p) ==> run(n).spi.data == Sampled(p, traffic, m)
    ensures run(n).fsm.busy <==> n <= m + 1 + Duration(p)
  {
    var end := m + 1 + Duration(p);
    assert Undisturbed(traffic, m, n);
    if n <= end {
      PhaseUnder(p, run, traffic, m, n);
      Outputs(p, run(n), n - m - 1, JobOf(p, run, traffic, m));
    }
    if n < end {
      forall k: nat | m < k <= n
        ensures run(k).fsm.phase != Done
      {
        PhaseUnder(p, run, traffic, m, k);
      }
      StaysLow(p, run, traffic, m, n);
    } else {
      Timing(p, run, traffic, m);
      RequestTaken(p, run, traffic, m);
      assert run(end - 1 + 1) == Step(p, run(end - 1), traffic(end - 1));
      StaysReady(p, run, traffic, end, n);
    }
  }

  /** Unless another one is written, the request is gone when the conversion ends. */
  lemma RequestTaken(p: Params, run: History, traffic: Traffic, m: nat)
    requires IsRun(p, run, traffic) && Accepts(run, traffic, m)
    requires NoStart(traffic, m, m + 1 + Duration(p))
    ensures !run(m + 1 + Duration(p)).bus.startReq
  {
    var end, high := m + 1 + Duration(p), m + p.convHigh;
    assert Undisturbed(traffic, m, end);
    forall k: nat | high < k < end
      ensures run(k).fsm.phase != ConvHigh
    {
      PhaseUnder(p, run, traffic, m, k);
      Outputs(p, run(k), k - m - 1, JobOf(p, run, traffic, m));
    }
    Course(p, run, traffic, m, p.convHigh - 1);
    assert run(high + 1) == Step(p, run(high), traffic(high));
    RequestKept(p, run, traffic, high + 1, end);
  }

  /** One edge after the clear is too early: READY still shows what it showed before. */
  lemma EarlyPollIsStale(p: Params, run: History, traffic: Traffic, c: nat)
    requires IsRun(p, run, traffic) && Resting(run(c)) && !run(c).bus.clearReq
    requires Clears(traffic(c))
    ensures ReadBus(run(c + 1), true, 0xC1).value[15] == run(c).fsm.ready
  {
  }
}
