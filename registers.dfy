/** Register map of the Kipp & Zonen SMP pyranometer: input registers, the
    clear-error coil and the operational mode codes. */
module Registers {

  /** A Modbus register: its 0-based address and its width in 16-bit words. */
  datatype Register = Register(addr: nat, size: nat)

  // Input registers
  const REG_DEVICE_TYPE := Register(0x00, 1)
  const REG_DATAMODEL_VERSION := Register(0x01, 1)
  const REG_OPERATIONAL_MODE := Register(0x02, 1)
  const REG_STATUS_FLAGS := Register(0x03, 1)
  const REG_SCALE_FACTOR := Register(0x04, 1)
  const REG_SENSOR_1_DATA := Register(0x05, 1)
  const REG_RAW_SENSOR1_DATA := Register(0x06, 1)
  const REG_STDEV_SENSOR1 := Register(0x07, 1)
  const REG_BODY_TEMPERATURE := Register(0x08, 1)
  const REG_EXT_POWER_SENSOR := Register(0x09, 1)
  const REG_DAC_OUTPUT_VOLTAGE := Register(0x10, 1)
  const REG_SELECTED_DAC_INPUT := Register(0x11, 1)
  const REG_ADC1_COUNTS := Register(0x12, 2)
  const REG_ADC2_COUNTS := Register(0x14, 2)
  const REG_ADC3_COUNTS := Register(0x16, 2)
  const REG_ADC4_COUNTS := Register(0x18, 2)

  const REG_ERROR_CODE := Register(0x1A, 1)

  // Output register (coil)
  const REG_CLEAR_ERROR := Register(0x0A, 1)

  // Operational modes
  const OPMODE_NORMAL: nat := 1
  const OPMODE_SERVICE: nat := 2
  const OPMODE_CALIBRATION: nat := 3
  const OPMODE_FACTORY: nat := 4
  const OPMODE_ERROR: nat := 5

  /** Number of words read by one poll, starting at REG_OPERATIONAL_MODE. */
  const POLL_WORDS: nat := 7

  /** The input registers whose widths make up ALL_INPUTS_SIZE, in the order
      the driver lists them. */
  const AllInputs: seq<Register> := [
    REG_DEVICE_TYPE, REG_DATAMODEL_VERSION, REG_OPERATIONAL_MODE,
    REG_STATUS_FLAGS, REG_SCALE_FACTOR, REG_SENSOR_1_DATA,
    REG_RAW_SENSOR1_DATA, REG_STDEV_SENSOR1, REG_BODY_TEMPERATURE,
    REG_EXT_POWER_SENSOR, REG_DAC_OUTPUT_VOLTAGE, REG_SELECTED_DAC_INPUT,
    REG_ADC1_COUNTS, REG_ADC2_COUNTS, REG_ADC3_COUNTS, REG_ADC4_COUNTS
  ]

  /** Sum of the widths of `regs` (the driver's `reduce` over `reg.size`):
      a map made only of one- and two-word registers is as wide as its
      one-word registers plus twice its two-word registers. */
  function TotalSize(regs: seq<Register>): (t: nat)
    ensures (forall i :: 0 <= i < |regs| ==> regs[i].size == 1 || regs[i].size == 2) ==>
      t == CountOfSize(regs, 1) + 2 * CountOfSize(regs, 2)
  {
    if regs == [] then 0 else regs[0].size + TotalSize(regs[1..])
  }

  /** Number of registers of `regs` that are `n` words wide. */
  function CountOfSize(regs: seq<Register>, n: nat): nat
  {
    if regs == [] then 0
    else (if regs[0].size == n then 1 else 0) + CountOfSize(regs[1..], n)
  }

  /** The one-word registers of AllInputs, then its two-word registers. */
  const OneWordInputs: seq<Register> := AllInputs[..12]
  const TwoWordInputs: seq<Register> := AllInputs[12..]

  /** ALL_INPUTS_SIZE: the number of words of the whole input block. */
  function AllInputsSize(): (n: nat)
    ensures n == 20
  {
    UniformWidth(OneWordInputs, 1);
    UniformWidth(TwoWordInputs, 2);
    SplitWidths(OneWordInputs, TwoWordInputs);
    assert OneWordInputs + TwoWordInputs == AllInputs;
    TotalSize(AllInputs)
  }

  /** Widths and counts add up over the concatenation of two maps. */
  lemma {:induction false} SplitWidths(a: seq<Register>, b: seq<Register>)
    ensures TotalSize(a + b) == TotalSize(a) + TotalSize(b)
    ensures forall n :: CountOfSize(a + b, n) == CountOfSize(a, n) + CountOfSize(b, n)
  {
    if a != [] {
      assert (a + b)[1..] == a[1..] + b;
      SplitWidths(a[1..], b);
    } else {
      assert a + b == b;
    }
  }

  /** A map whose registers are all `n` words wide is `n` times its length
      wide, and all of its registers are counted as `n`-word ones. */
  lemma {:induction false} UniformWidth(regs: seq<Register>, n: nat)
    requires forall i :: 0 <= i < |regs| ==> regs[i].size == n
    ensures TotalSize(regs) == n * |regs|
    ensures CountOfSize(regs, n) == |regs|
    ensures forall m :: m != n ==> CountOfSize(regs, m) == 0
  {
    if regs != [] {
      UniformWidth(regs[1..], n);
      assert TotalSize(regs) == n + TotalSize(regs[1..]);
      assert n * |regs| == n + n * |regs[1..]|;
    }
  }

  /** The 20 words of ALL_INPUTS_SIZE are twelve one-word registers and four
      two-word ADC registers. */
  lemma AllInputsComposition()
    ensures |AllInputs| == 16
    ensures CountOfSize(AllInputs, 1) == 12 && CountOfSize(AllInputs, 2) == 4
    ensures AllInputsSize() == CountOfSize(AllInputs, 1) + 2 * CountOfSize(AllInputs, 2)
  {
    UniformWidth(OneWordInputs, 1);
    UniformWidth(TwoWordInputs, 2);
    SplitWidths(OneWordInputs, TwoWordInputs);
    assert OneWordInputs + TwoWordInputs == AllInputs;
  }

  /** Each register of `regs` ends before the next one begins. */
  predicate AdjacentNonOverlapping(regs: seq<Register>)
  {
    forall i :: 0 <= i < |regs| - 1 ==> regs[i].addr + regs[i].size <= regs[i + 1].addr
  }

  /** Every register of `regs` ends before any later one begins: no two
      registers share a word, and addresses strictly increase. */
  predicate PairwiseDisjoint(regs: seq<Register>)
  {
    forall i, j :: 0 <= i < j < |regs| ==> regs[i].addr + regs[i].size <= regs[j].addr
  }

  lemma {:induction false} AdjacentToPairwise(regs: seq<Register>)
    requires AdjacentNonOverlapping(regs)
    ensures PairwiseDisjoint(regs)
  {
    if |regs| > 1 {
      var tail := regs[1..];
      assert AdjacentNonOverlapping(tail) by {
        forall i | 0 <= i < |tail| - 1
          ensures tail[i].addr + tail[i].size <= tail[i + 1].addr
        {
          assert tail[i] == regs[i + 1] && tail[i + 1] == regs[i + 2];
        }
      }
      AdjacentToPairwise(tail);
      forall i, j | 0 <= i < j < |regs|
        ensures regs[i].addr + regs[i].size <= regs[j].addr
      {
        if i > 0 {
          assert regs[i] == tail[i - 1] && regs[j] == tail[j - 1];
        } else if j > 1 {
          assert regs[1] == tail[0] && regs[j] == tail[j - 1];
        }
      }
    }
  }

  /** The input registers, followed by the error-code register, occupy
      pairwise disjoint word ranges, so their addresses are pairwise distinct;
      every register is at least one word wide. */
  lemma InputMapDisjoint()
    ensures PairwiseDisjoint(AllInputs + [REG_ERROR_CODE])
    ensures forall i, j :: 0 <= i < j < |AllInputs| ==> AllInputs[i].addr != AllInputs[j].addr
    ensures forall i :: 0 <= i < |AllInputs| ==> AllInputs[i].size >= 1
  {
    AdjacentToPairwise(AllInputs + [REG_ERROR_CODE]);
    assert forall i :: 0 <= i < |AllInputs| ==> (AllInputs + [REG_ERROR_CODE])[i] == AllInputs[i];
  }

  /** The input registers covered by the seven words a poll reads. */
  const PollBlock: seq<Register> := AllInputs[2..2 + POLL_WORDS]

  /** The seven words read by a poll, from REG_OPERATIONAL_MODE on, are
      exactly the one-word registers from the operational mode to the body
      temperature, at consecutive addresses. */
  lemma PollBlockRegisters()
    ensures PollBlock == [
      REG_OPERATIONAL_MODE, REG_STATUS_FLAGS, REG_SCALE_FACTOR,
      REG_SENSOR_1_DATA, REG_RAW_SENSOR1_DATA, REG_STDEV_SENSOR1,
      REG_BODY_TEMPERATURE]
    ensures forall k :: 0 <= k < POLL_WORDS ==>
      PollBlock[k] == Register(REG_OPERATIONAL_MODE.addr + k, 1)
  {
  }
}
