/** The three copies of the capability formula, in exact arithmetic. */
module Capability {

  function Min(a: real, b: real): real {
    if a <= b then a else b
  }

  function RamPoints(ramMb: nat): real {
    Min(ramMb as real / 8192.0, 1.0) * 40.0
  }

  /** `NodeInfo.capability_score`: a node scoring itself. */
  function NodeScore(ramMb: nat, storageMb: nat, onBattery: bool): real {
    (RamPoints(ramMb) + Min(storageMb as real / 512000.0, 1.0) * 20.0) * (if onBattery then 0.5 else 1.0)
  }

  /** `PeerDiscovery._compute_capability` before rounding: a node scoring a peer. */
  function PeerScore(ramMb: nat, storageMb: nat): real {
    RamPoints(ramMb) + Min(storageMb as real / 512000.0, 1.0) * 20.0
  }

  /** The score `HubElection.elect` gives a table row, before rounding. */
  function RowScore(ramMb: nat, storageGb: real): real {
    RamPoints(ramMb) + Min(storageGb / 500.0, 1.0) * 20.0
  }

  /** `r` hundredths is a rounding of `x` to two decimals; which way ties go is left open. */
  ghost predicate Rounds(x: real, r: int) {
    -0.5 <= 100.0 * x - r as real <= 0.5
  }

  /** Rounding to two decimals, ties to even, in hundredths. */
  function Hundredths(x: real): (r: int)
    ensures Rounds(x, r)
  {
    var f := (100.0 * x).Floor;
    var rest := 100.0 * x - f as real;
    if rest < 0.5 || (rest == 0.5 && f % 2 == 0) then f else f + 1
  }

  lemma {:induction false} ScoreRange(ramMb: nat, storageMb: nat, storageGb: real, onBattery: bool)
    requires storageGb >= 0.0
    ensures 0.0 <= NodeScore(ramMb, storageMb, onBattery) <= 60.0
    ensures 0.0 <= PeerScore(ramMb, storageMb) <= 60.0
    ensures 0.0 <= RowScore(ramMb, storageGb) <= 60.0
    ensures 0 <= Hundredths(RowScore(ramMb, storageGb)) <= 6000
  {
    assert 0.0 <= ramMb as real / 8192.0;
    assert 0.0 <= storageMb as real / 512000.0;
    assert 0.0 <= storageGb / 500.0;
  }

  /** More memory or more disk never lowers any of the three scores. */
  lemma {:induction false} ScoreMonotone(ram: nat, ram': nat, mb: nat, mb': nat, gb: real, gb': real, onBattery: bool)
    requires ram <= ram' && mb <= mb' && gb <= gb'
    ensures NodeScore(ram, mb, onBattery) <= NodeScore(ram', mb', onBattery)
    ensures PeerScore(ram, mb) <= PeerScore(ram', mb')
    ensures RowScore(ram, gb) <= RowScore(ram', gb')
    ensures Hundredths(RowScore(ram, gb)) <= Hundredths(RowScore(ram', gb'))
  {
    assert ram as real / 8192.0 <= ram' as real / 8192.0;
    assert mb as real / 512000.0 <= mb' as real / 512000.0;
    assert gb / 500.0 <= gb' / 500.0;
    HundredthsMonotone(RowScore(ram, gb), RowScore(ram', gb'));
  }

  lemma {:induction false} HundredthsMonotone(x: real, y: real)
    requires x <= y
    ensures Hundredths(x) <= Hundredths(y)
  {
  }

  /** Measuring the disk in MiB or in GiB gives one score, up to rounding; a size in GiB that is
      off by less than one moves the rounded scores by less than 0.05 points. */
  lemma {:induction false} FormulasAgree(ramMb: nat, storageMb: nat, storageGb: real, peer: int, row: int)
    requires storageGb >= 0.0
    requires -1.0 < storageMb as real / 1024.0 - storageGb < 1.0
    requires Rounds(PeerScore(ramMb, storageMb), peer)
    requires Rounds(RowScore(ramMb, storageGb), row)
    ensures NodeScore(ramMb, storageMb, false) == PeerScore(ramMb, storageMb)
    ensures storageMb as real == 1024.0 * storageGb ==> PeerScore(ramMb, storageMb) == RowScore(ramMb, storageGb)
    ensures -0.04 < PeerScore(ramMb, storageMb) - RowScore(ramMb, storageGb) < 0.04
    ensures -5 < peer - row < 5
  {
    var a, b := storageMb as real / 512000.0, storageGb / 500.0;
    assert a == storageMb as real / 1024.0 / 500.0;
    assert -0.002 < a - b < 0.002;
  }

  /** The caps and the weights: no memory and no disk score nothing; 8 GiB alone are worth 40 points and
      500 GiB alone 20, however much more there is; and all three scores are full with both, only then. */
  lemma {:induction false} CapsAndWeights(ramMb: nat, storageMb: nat, storageGb: real)
    requires storageGb >= 0.0
    ensures NodeScore(0, 0, false) == PeerScore(0, 0) == RowScore(0, 0.0) == 0.0
    ensures ramMb >= 8192 ==> NodeScore(ramMb, 0, false) == PeerScore(ramMb, 0) == RowScore(ramMb, 0.0) == 40.0
    ensures storageMb >= 512000 ==> NodeScore(0, storageMb, false) == PeerScore(0, storageMb) == 20.0
    ensures storageGb >= 500.0 ==> RowScore(0, storageGb) == 20.0
    ensures NodeScore(ramMb, storageMb, false) == 60.0 <==> ramMb >= 8192 && storageMb >= 512000
    ensures PeerScore(ramMb, storageMb) == 60.0 <==> ramMb >= 8192 && storageMb >= 512000
    ensures RowScore(ramMb, storageGb) == 60.0 <==> ramMb >= 8192 && storageGb >= 500.0
  {
    assert ramMb >= 8192 <==> ramMb as real / 8192.0 >= 1.0;
    assert storageMb >= 512000 <==> storageMb as real / 512000.0 >= 1.0;
    assert storageGb >= 500.0 <==> storageGb / 500.0 >= 1.0;
  }

  /** Below the caps the scores are linear: a GiB of memory is worth 5 points, a GiB of disk 1/25, and
      running on battery halves a node's own score. */
  lemma {:induction false} LinearBelowCaps(ramMb: nat, storageMb: nat, storageGb: real)
    requires ramMb <= 8192 && storageMb <= 512000 && 0.0 <= storageGb <= 500.0
    ensures NodeScore(ramMb, storageMb, false) == 5.0 * (ramMb as real / 1024.0) + storageMb as real / 1024.0 / 25.0
    ensures PeerScore(ramMb, storageMb) == 5.0 * (ramMb as real / 1024.0) + storageMb as real / 1024.0 / 25.0
    ensures RowScore(ramMb, storageGb) == 5.0 * (ramMb as real / 1024.0) + storageGb / 25.0
    ensures 2.0 * NodeScore(ramMb, storageMb, true) == NodeScore(ramMb, storageMb, false)
  {
    assert ramMb as real / 8192.0 <= 1.0;
    assert storageMb as real / 512000.0 <= 1.0;
    assert storageGb / 500.0 <= 1.0;
  }

  /** Battery power halves the score at any size, and ties at half a hundredth go to the even one. */
  lemma {:induction false} HalvesAndTies(ramMb: nat, storageMb: nat, k: int, x: real)
    ensures 2.0 * NodeScore(ramMb, storageMb, true) == NodeScore(ramMb, storageMb, false)
    ensures 100.0 * x == k as real + 0.5 ==> Hundredths(x) == if k % 2 == 0 then k else k + 1
    ensures k as real - 0.5 < 100.0 * x < k as real + 0.5 ==> Hundredths(x) == k
  {
  }
}
