/** The peripheral from the outside: what its pins and registers show, told from the bus traffic. */
module AdcWire {
  import opened Basics
  import opened AdcModel
  import opened AdcProof
  import opened AdcTheorems

  // ---------- The channel register ----------

  /** The last word written to 0xC3 before edge `n`, or 0 if there was none since reset. */
  function ChannelWord(traffic: Traffic, n: nat): Bits16 {
    if n == 0 then [false, false, false, false] + ZEROS
    else
      match traffic(n - 1)
      case Reset => [false, false, false, false] + ZEROS
      case Clock(i) => if i.write && i.address == 0xC3 then i.data else ChannelWord(traffic, n - 1)
  }

  lemma {:induction false} ChannelLatched(p: Params, run: History, traffic: Traffic, n: nat)
    requires IsRun(p, run, traffic) && run(0) == RESET
    ensures run(n).bus.channel == ChannelWord(traffic, n)[13..]
  {
    if n > 0 {
      ChannelLatched(p, run, traffic, n - 1);
      assert run(n - 1 + 1) == Step(p, run(n - 1), traffic(n - 1));
    }
  }

  /** The registers at 0xC1, 0xC2 and 0xC3, and nothing else, can be read; the channel reads as
      the three low bits last written. */
  lemma Readable(p: Params, run: History, traffic: Traffic, n: nat, read: bool, address: nat)
    requires IsRun(p, run, traffic) && run(0) == RESET
    ensures ReadBus(run(n), read, address).Some? <==> read && 0xC1 <= address <= 0xC3
    ensures ReadBus(run(n), true, 0xC3) == Some([false] + ZEROS + ChannelWord(traffic, n)[13..])
  {
    ChannelLatched(p, run, traffic, n);
  }

  // ---------- The command on the wire ----------

  /** Bit `j` of the command for the channel in the low bits of `word`: single-ended, the channel
      from bit 2 down, unipolar, and zeros. */
  predicate CommandBit(word: Bits16, j: nat) {
    j == 0 || (j == 1 && word[13]) || (j == 2 && word[14]) || (j == 3 && word[15]) || j == 4
  }

  /** The `j`-th rise of the serial clock is `convHigh + convWait + (2 j + 1) clkDiv` clocks after
      acceptance, and the command line then shows 1, bits 2, 1 and 0 of the word last written to
      0xC3 before acceptance, 1, and zeros. */
  lemma CommandOnTheWire(p: Params, run: History, traffic: Traffic, m: nat, j: nat, e: int)
    requires IsRun(p, run, traffic) && run(0) == RESET && Accepts(run, traffic, m) && j < 12
    requires e == m + p.convHigh + p.convWait + (2 * j + 1) * p.clkDiv && Undisturbed(traffic, m, e + 1)
    ensures e > m && !run(e).sck.sclk && run(e + 1).sck.sclk
    ensures run(e).spi.sdi == run(e + 1).spi.sdi == CommandBit(ChannelWord(traffic, m), j)
  {
    assert e == m + ToggleTime(p, 2 * j);
    ChannelLatched(p, run, traffic, m);
    CommandOut(p, run, traffic, m, j);
  }

  // ---------- From reset to the first conversion ----------

  /** At `r` the peripheral has just been reset. */
  predicate JustReset(traffic: Traffic, r: nat) {
    r == 0 || traffic(r - 1).Reset?
  }

  /** After a reset nothing happens up to the first START, at edge `s`; CONVST is then high for
      exactly `convHigh` clocks from `s + 2` on, and the conversion is accepted at `s + 1`. */
  lemma FirstConversion(p: Params, run: History, traffic: Traffic, r: nat, s: nat, n: nat)
    requires IsRun(p, run, traffic) && run(0) == RESET && JustReset(traffic, r)
    requires r <= s && NoStart(traffic, r, s) && Starts(traffic(s))
    requires r <= n <= s + 2 + Duration(p) && Undisturbed(traffic, s, s + 2 + Duration(p))
    ensures Accepts(run, traffic, s + 1)
    ensures run(n).fsm.convst <==> s + 2 <= n < s + 2 + p.convHigh
    ensures run(n).fsm.busy <==> s + 2 <= n
    ensures n <= s + 1 ==> run(n).fsm.phase == Idle && !run(n).fsm.ready && !run(n).sck.sclk
  {
    ResetState(p, run, traffic, r);
    StaysQuiet(p, run, traffic, r, s);
    assert run(s + 1) == Step(p, run(s), traffic(s));
    if n <= s {
      StaysQuiet(p, run, traffic, r, n);
    } else if n >= s + 2 {
      Course(p, run, traffic, s + 1, n - s - 2);
      Outputs(p, run(n), n - s - 2, JobOf(p, run, traffic, s + 1));
    }
  }

  lemma ResetState(p: Params, run: History, traffic: Traffic, r: nat)
    requires IsRun(p, run, traffic) && run(0) == RESET && JustReset(traffic, r)
    ensures run(r) == RESET
  {
  }

  lemma {:induction false} StaysQuiet(p: Params, run: History, traffic: Traffic, m: nat, n: nat)
    requires IsRun(p, run, traffic) && m <= n && run(m) == RESET && NoStart(traffic, m, n)
    ensures Resting(run(n)) && !run(n).fsm.convst && !run(n).fsm.busy && !run(n).fsm.ready && !run(n).sck.sclk
    decreases n
  {
    if m < n {
      StaysQuiet(p, run, traffic, m, n - 1);
      assert run(n - 1 + 1) == Step(p, run(n - 1), traffic(n - 1));
    }
  }
}
