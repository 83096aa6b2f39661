/** One conversion of the ADC peripheral, clock by clock, for every choice of the generics. */
module AdcProof {
  import opened Basics
  import opened AdcModel

  /** A conversion is under way: its command, and the bits the converter shows. */
  datatype Job = Job(command: Bits12, samples: Bits12)

  predicate Quiet(s: Regs) {
    s.sck == SckRegs(0, false)
  }

  // ---------- The register values in each phase ----------

  predicate HighAt(p: Params, s: Regs, k: int, job: Job) {
    && s.fsm.phase == ConvHigh && s.fsm.highCnt == p.convHigh - 1 - k
    && s.fsm.busy && s.fsm.convst && Quiet(s)
    && s.spi.tx == job.command && s.spi.rx == ZEROS && s.spi.sdi == job.command[0]
  }

  predicate WaitAt(p: Params, s: Regs, k: int, job: Job) {
    && s.fsm.phase == ConvWait && s.fsm.waitCnt == p.convWait - 1 - k
    && s.fsm.busy && !s.fsm.convst && Quiet(s)
    && s.spi.tx == job.command && s.spi.rx == ZEROS && s.spi.sdi == job.command[0]
  }

  function Zeros(n: nat): (r: seq<bool>)
    ensures |r| == n
  {
    seq(n, _ => false)
  }

  /** What the receive register holds once `b` bits are in. */
  function Received(samples: Bits12, b: nat): Bits12
    requires b <= 12
  {
    Zeros(12 - b) + samples[..b]
  }

  /** What is left to send after `f` bits have been sent. */
  function Remaining(command: Bits12, f: nat): Bits12
    requires f <= 12
  {
    command[f..] + Zeros(f)
  }

  /** The serial clock has toggled `t` times, the last time `c` clocks ago. */
  predicate ShiftAt(p: Params, s: Regs, t: nat, c: int, job: Job)
    requires t <= 22
  {
    && s.fsm.phase == Shift && s.fsm.bitCnt == (t + 1) / 2
    && s.fsm.busy && !s.fsm.convst
    && 0 <= c < p.clkDiv && s.sck == SckRegs(c, t % 2 == 1)
    && s.spi.rx == Received(job.samples, (t + 1) / 2)
    && s.spi.tx == Remaining(job.command, t / 2)
    && s.spi.sdi == job.command[t / 2]
  }

  predicate HoldAt(p: Params, s: Regs, k: int, job: Job) {
    && s.fsm.phase == AcqHold && s.fsm.holdCnt == p.acqHold - 1 - k
    && s.fsm.busy && !s.fsm.convst
    && s.sck == SckRegs(0, k == 0)
    && s.spi.rx == job.samples && (k > 0 ==> s.spi.data == job.samples)
  }

  predicate DoneAt(s: Regs, job: Job) {
    && s.fsm.phase == Done && s.fsm.ready && s.fsm.busy && !s.fsm.convst && !s.sck.sclk
    && s.spi.rx == job.samples && s.spi.data == job.samples
  }

  /** The register values `k` clocks after the edge that accepted the conversion. */
  predicate At(p: Params, s: Regs, k: nat, job: Job)
    requires k <= Duration(p)
  {
    var shifting := p.convHigh + p.convWait;
    var holding := shifting + 23 * p.clkDiv;
    if k < p.convHigh then HighAt(p, s, k, job)
    else if k < shifting then WaitAt(p, s, k - p.convHigh, job)
    else if k < holding then
      TogglesInRange(k - shifting, p.clkDiv);
      ShiftAt(p, s, (k - shifting) / p.clkDiv, (k - shifting) % p.clkDiv, job)
    else if k < Duration(p) then HoldAt(p, s, k - holding, job)
    else DoneAt(s, job)
  }

  lemma TogglesInRange(q: nat, d: Positive)
    requires q < 23 * d
    ensures 0 <= q / d <= 22
  {
  }

  // ---------- One clock of each phase ----------

  /** The bit that is sampled at the edge, `k` clocks after acceptance, is the one the job says. */
  predicate SampleMatches(p: Params, k: nat, job: Job, i: Inputs) {
    forall j: nat | j < 12 && ToggleTime(p, 2 * j) == k :: job.samples[j] == i.sdo
  }

  lemma AcceptStep(p: Params, s: Regs, i: Inputs, samples: Bits12)
    requires s.fsm.phase == Idle && s.bus.startReq
    ensures At(p, Step(p, s, Clock(i)), 0, Job(Command(s.bus.channel), samples))
  {
  }

  lemma HighStep(p: Params, s: Regs, i: Inputs, k: nat, job: Job)
    requires k < p.convHigh && HighAt(p, s, k, job)
    ensures var s' := Step(p, s, Clock(i));
      if k + 1 < p.convHigh then HighAt(p, s', k + 1, job) else WaitAt(p, s', 0, job)
  {
  }

  lemma WaitStep(p: Params, s: Regs, i: Inputs, k: nat, job: Job)
    requires k < p.convWait && WaitAt(p, s, k, job)
    ensures var s' := Step(p, s, Clock(i));
      if k + 1 < p.convWait then WaitAt(p, s', k + 1, job) else ShiftAt(p, s', 0, 0, job)
  {
  }

  lemma ShiftWithin(p: Params, s: Regs, i: Inputs, t: nat, c: nat, job: Job)
    requires t <= 22 && ShiftAt(p, s, t, c, job) && c + 1 < p.clkDiv
    ensures ShiftAt(p, Step(p, s, Clock(i)), t, c + 1, job)
  {
  }

  /** A rise samples one bit. */
  lemma ShiftRise(p: Params, s: Regs, i: Inputs, b: nat, job: Job)
    requires b < 11 && ShiftAt(p, s, 2 * b, p.clkDiv - 1, job) && job.samples[b] == i.sdo
    ensures ShiftAt(p, Step(p, s, Clock(i)), 2 * b + 1, 0, job)
  {
  }

  /** The twelfth rise ends the shifting. */
  lemma LastRise(p: Params, s: Regs, i: Inputs, job: Job)
    requires ShiftAt(p, s, 22, p.clkDiv - 1, job) && job.samples[11] == i.sdo
    ensures HoldAt(p, Step(p, s, Clock(i)), 0, job)
  {
  }

  lemma ShiftFall(p: Params, s: Regs, i: Inputs, t: nat, job: Job)
    requires t <= 22 && t % 2 == 1 && ShiftAt(p, s, t, p.clkDiv - 1, job)
    ensures ShiftAt(p, Step(p, s, Clock(i)), t + 1, 0, job)
  {
  }

  lemma HoldStep(p: Params, s: Regs, i: Inputs, k: nat, job: Job)
    requires k < p.acqHold && HoldAt(p, s, k, job)
    ensures var s' := Step(p, s, Clock(i));
      if k + 1 < p.acqHold then HoldAt(p, s', k + 1, job) else DoneAt(s', job)
  {
  }

  /** From each clock of the shifting to the next: the last of the `d` clocks between two toggles
      is a toggle. */
  lemma ShiftStep(p: Params, s: Regs, i: Inputs, t: nat, c: nat, job: Job)
    requires t <= 22 && ShiftAt(p, s, t, c, job)
    requires c == p.clkDiv - 1 && t % 2 == 0 ==> job.samples[t / 2] == i.sdo
    ensures var s' := Step(p, s, Clock(i));
      if c + 1 < p.clkDiv then ShiftAt(p, s', t, c + 1, job)
      else if t < 22 then ShiftAt(p, s', t + 1, 0, job)
      else HoldAt(p, s', 0, job)
  {
    if c + 1 < p.clkDiv {
      ShiftWithin(p, s, i, t, c, job);
    } else if t == 22 {
      LastRise(p, s, i, job);
    } else if t % 2 == 0 {
      ShiftRise(p, s, i, t / 2, job);
    } else {
      ShiftFall(p, s, i, t, job);
    }
  }

  lemma ToggleAfter(q: nat, d: Positive, t: nat, c: nat)
    requires q == t * d + c && c < d && t <= 22
    ensures c + 1 < d ==> (q + 1) / d == t && (q + 1) % d == c + 1 && q + 1 < 23 * d
    ensures c + 1 == d ==> (t + 1) * d == q + 1
    ensures c + 1 == d && t < 22 ==> (q + 1) / d == t + 1 && (q + 1) % d == 0 && q + 1 < 23 * d
  {
    assert (t + 1) * d == t * d + d;
    TogglesEnd(t, d);
    if c + 1 < d {
      DivisionUnique(q + 1, d, t, c + 1);
    } else if t < 22 {
      DivisionUnique(q + 1, d, t + 1, 0);
      TogglesEnd(t + 1, d);
    }
  }

  lemma NextToggle(q: nat, d: Positive)
    requires q < 23 * d
    ensures q / d <= 22
    ensures q % d + 1 < d ==> (q + 1) / d == q / d && (q + 1) % d == q % d + 1 && q + 1 < 23 * d
    ensures q % d + 1 == d ==> (q / d + 1) * d == q + 1
    ensures q % d + 1 == d && q / d < 22 ==> (q + 1) / d == q / d + 1 && (q + 1) % d == 0 && q + 1 < 23 * d
    ensures q % d + 1 == d && q / d == 22 ==> q + 1 == 23 * d
  {
    TogglesInRange(q, d);
    assert q == (q / d) * d + q % d;
    ToggleAfter(q, d, q / d, q % d);
  }

  lemma TogglesEnd(t: nat, d: Positive)
    requires t <= 22
    ensures t * d + d <= 23 * d
  {
  }

  /** From each clock of a conversion to the next. */
  lemma ConversionStep(p: Params, s: Regs, i: Inputs, k: nat, job: Job)
    requires k < Duration(p) && At(p, s, k, job) && SampleMatches(p, k + 1, job, i)
    ensures At(p, Step(p, s, Clock(i)), k + 1, job)
  {
    var shifting := p.convHigh + p.convWait;
    var holding := shifting + 23 * p.clkDiv;
    if k < p.convHigh {
      HighStep(p, s, i, k, job);
    } else if k < shifting {
      WaitStep(p, s, i, k - p.convHigh, job);
      DivisionUnique(0, p.clkDiv, 0, 0);
    } else if k < holding {
      var q := k - shifting;
      NextToggle(q, p.clkDiv);
      var t, c := q / p.clkDiv, q % p.clkDiv;
      if c == p.clkDiv - 1 && t % 2 == 0 {
        assert ToggleTime(p, 2 * (t / 2)) == k + 1;
      }
      ShiftStep(p, s, i, t, c, job);
    } else {
      HoldStep(p, s, i, k - holding, job);
    }
  }
}
