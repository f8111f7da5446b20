/**
  The geometry of the FAT16 image: how many sectors one copy of the allocation
  table takes, and how large an image is chosen for a given amount of data.

  The table has to describe the clusters that are left over once the table
  itself is subtracted, so its size is a fixed point.  The builder searches for
  it by iteration.  The step is antitone, so the iteration may oscillate; the
  lemmas below say for which image sizes it does.
*/
module FatGeometry {
  const BYTES_PER_SECTOR := 512
  const SECTORS_PER_CLUSTER := 4
  const CLUSTER_BYTES := 2048
  const RESERVED_SECTORS := 1
  const FAT_COUNT := 2
  const ROOT_ENTRIES := 512
  const ROOT_DIR_SECTORS := 32
  const MIN_TOTAL_SECTORS := 32768
  const IMAGE_ALIGN_SECTORS := 2048

  /** Largest demand, in sectors, that the size search can satisfy. */
  const MAX_REQUIRED_SECTORS := 506879

  datatype Geometry = Geometry(fatSectors: int, rootDirSectors: int, rootSector: int, clusters: int)

  function CeilDiv(n: int, d: int): (q: int)
    requires d > 0
    ensures (q - 1) * d < n <= q * d
  {
    (n + d - 1) / d
  }

  function AlignUp(n: int, align: int): (r: int)
    requires align > 0
  {
    ((n + align - 1) / align) * align
  }

  function DataSectors(total: int, fatSectors: int): int {
    total - RESERVED_SECTORS - FAT_COUNT * fatSectors - ROOT_DIR_SECTORS
  }

  function ClustersFor(total: int, fatSectors: int): int {
    DataSectors(total, fatSectors) / SECTORS_PER_CLUSTER
  }

  /** One step of the search: the table size needed if the table had `fatSectors` sectors. */
  function Needed(total: int, fatSectors: int): int {
    CeilDiv((ClustersFor(total, fatSectors) + 2) * 2, BYTES_PER_SECTOR)
  }

  /** The size held by the loop variable after `n` rounds that did not stop. */
  function Iterate(total: int, n: nat): int {
    if n == 0 then 1 else Needed(total, Iterate(total, n - 1))
  }

  ghost predicate StopsAt(total: int, n: nat) {
    Needed(total, Iterate(total, n)) == Iterate(total, n)
  }

  ghost predicate SearchStops(total: int) {
    exists n: nat :: StopsAt(total, n)
  }

  predicate Solvable(total: int) {
    (total + 995) % 1026 < 1024
  }

  function FixedPoint(total: int): int {
    (total + 995) / 1026
  }

  lemma NeededClosedForm(total: int, f: int)
    ensures Needed(total, f) == (total + 995 - 2 * f) / 1024
  {
    var clusters := ClustersFor(total, f);
    assert 4 * clusters <= total - 33 - 2 * f < 4 * clusters + 4;
    var needed := Needed(total, f);
    assert (needed - 1) * 512 < (clusters + 2) * 2 <= needed * 512;
  }

  /** A table size reproduces itself exactly when it is the one candidate and the total is solvable. */
  lemma FixedPointUnique(total: int, f: int)
    ensures Needed(total, f) == f <==> Solvable(total) && f == FixedPoint(total)
  {
    NeededClosedForm(total, f);
    var q, r := (total + 995) / 1026, (total + 995) % 1026;
    assert total + 995 == 1026 * q + r;
    if Needed(total, f) == f {
      assert 1024 * f <= total + 995 - 2 * f < 1024 * f + 1024;
      assert 1026 * f <= 1026 * q + r < 1026 * f + 1024;
      assert f == q;
    }
  }

  /** Distance to the fixed point, refined by whether the next step overshoots to the other side. */
  function Distance(total: int, f: int): nat {
    var e := f - FixedPoint(total);
    var r := (total + 995) % 1026;
    if e == 0 then 0
    else if e == 1 then (if r < 2 then 2 else 1)
    else if e == -1 then (if r >= 1022 then 2 else 1)
    else if e > 0 then e + 1 else 1 - e
  }

  lemma StepApproaches(total: int, f: int)
    requires Solvable(total) && f != FixedPoint(total)
    ensures Distance(total, Needed(total, f)) < Distance(total, f)
  {
    NeededClosedForm(total, f);
    var q, r := FixedPoint(total), (total + 995) % 1026;
    var e := f - q;
    var e' := (r - 2 * e) / 1024;
    assert total + 995 - 2 * f == 1024 * q + (r - 2 * e);
    assert Needed(total, f) - q == e';
    assert 1024 * e' <= r - 2 * e < 1024 * e' + 1024;
  }

  lemma {:induction false} ReachesFixedPoint(total: int, n: nat)
    requires Solvable(total)
    ensures SearchStops(total)
    decreases Distance(total, Iterate(total, n))
  {
    var f := Iterate(total, n);
    if f == FixedPoint(total) {
      FixedPointUnique(total, f);
      assert StopsAt(total, n);
    } else {
      StepApproaches(total, f);
      assert Iterate(total, n + 1) == Needed(total, f);
      ReachesFixedPoint(total, n + 1);
    }
  }

  /** The search for the table size ends if and only if a residue of the image size allows it. */
  lemma SearchStopsExactly(total: int)
    ensures SearchStops(total) <==> Solvable(total)
  {
    if SearchStops(total) {
      var n: nat :| StopsAt(total, n);
      FixedPointUnique(total, Iterate(total, n));
    }
    if Solvable(total) {
      ReachesFixedPoint(total, 0);
    }
  }

  /** For the sizes the builder tries, multiples of 2048 sectors, one residue class in 513 loops forever. */
  lemma SearchStopsOnAlignedSizes(total: int)
    requires total % IMAGE_ALIGN_SECTORS == 0
    ensures SearchStops(total) <==> total % 1050624 != 509952
  {
    SearchStopsExactly(total);
    var m := total / 2048;
    var j, s := m / 513, m % 513;
    assert total == 1050624 * j + 2048 * s;
    AlignedResidues(j, s);
    OddResidue(s);
  }

  lemma AlignedResidues(j: int, s: int)
    requires 0 <= s < 513
    ensures (1050624 * j + 2048 * s) % 1050624 == 2048 * s
    ensures (1050624 * j + 2048 * s + 995) % 1026 == (995 - 4 * s) % 1026
  {
    WholePeriods(j, 2048 * s);
    WholeMultiples(1024 * j + 2 * s, 995 - 4 * s);
  }

  lemma WholePeriods(j: int, r: int)
    requires 0 <= r < 1050624
    ensures (1050624 * j + r) % 1050624 == r
  {
  }

  lemma WholeMultiples(q: int, r: int)
    ensures (1026 * q + r) % 1026 == r % 1026
  {
  }

  lemma OddResidue(s: int)
    requires 0 <= s < 513
    ensures (995 - 4 * s) % 1026 < 1024 <==> s != 249
  {
    var k := (995 - 4 * s) / 1026;
    assert -2 <= k <= 0;
  }

  /** The first size that loops: the table size flips between 497 and 498 for ever. */
  lemma {:induction false} FirstOscillation(n: nat)
    ensures Iterate(509952, 2 * n + 2) == 497 && Iterate(509952, 2 * n + 3) == 498
  {
    if n == 0 {
      assert Iterate(509952, 0) == 1;
      assert Iterate(509952, 1) == 498;
    } else {
      FirstOscillation(n - 1);
    }
  }

  ghost predicate IsGeometry(total: int, g: Geometry) {
    && g.rootDirSectors == ROOT_DIR_SECTORS
    && g.rootSector == RESERVED_SECTORS + FAT_COUNT * g.fatSectors
    && g.clusters == ClustersFor(total, g.fatSectors)
    && (forall f :: Needed(total, f) == f <==> f == g.fatSectors)
  }

  lemma UniqueGeometry(total: int, g: Geometry)
    requires g.rootDirSectors == ROOT_DIR_SECTORS && g.rootSector == RESERVED_SECTORS + FAT_COUNT * g.fatSectors
    requires g.clusters == ClustersFor(total, g.fatSectors) && Needed(total, g.fatSectors) == g.fatSectors
    ensures IsGeometry(total, g)
  {
    FixedPointUnique(total, g.fatSectors);
    forall f ensures Needed(total, f) == f <==> f == g.fatSectors {
      FixedPointUnique(total, f);
    }
  }

  /** The loop of the builder.  The precondition is exactly what lets the loop end. */
  method ComputeGeometry(total: int) returns (g: Geometry)
    requires Solvable(total)
    ensures IsGeometry(total, g)
    ensures g.fatSectors == FixedPoint(total)
  {
    var rootDirSectors := (ROOT_ENTRIES * 32 + BYTES_PER_SECTOR - 1) / BYTES_PER_SECTOR;
    var fatSectors := 1;
    ghost var n: nat := 0;
    while true
      invariant fatSectors == Iterate(total, n)
      decreases Distance(total, fatSectors)
    {
      var dataSectors := total - RESERVED_SECTORS - FAT_COUNT * fatSectors - rootDirSectors;
      var clusters := dataSectors / SECTORS_PER_CLUSTER;
      var needed := CeilDiv((clusters + 2) * 2, BYTES_PER_SECTOR);
      assert needed == Needed(total, fatSectors);
      FixedPointUnique(total, fatSectors);
      if needed == fatSectors {
        g := Geometry(fatSectors, rootDirSectors, RESERVED_SECTORS + FAT_COUNT * fatSectors, clusters);
        UniqueGeometry(total, g);
        return;
      }
      StepApproaches(total, fatSectors);
      fatSectors, n := needed, n + 1;
    }
  }

  // ---------------------------------------------------------------- size search

  /** The k-th size the search tries. */
  function Candidate(k: nat): int {
    MIN_TOTAL_SECTORS + IMAGE_ALIGN_SECTORS * k
  }

  predicate Accepts(total: int, required: int) {
    && DataSectors(total, FixedPoint(total)) >= required
    && ClustersFor(total, FixedPoint(total)) > 4085
  }

  /** Number of the candidate at which the table-size loop first fails to end. */
  const FIRST_STUCK := 233

  lemma CandidateSolvable(k: nat)
    requires k < FIRST_STUCK
    ensures Solvable(Candidate(k))
  {
    CandidateResidue(k);
    SearchStopsOnAlignedSizes(Candidate(k));
    SearchStopsExactly(Candidate(k));
  }

  lemma CandidateResidue(k: nat)
    requires k < FIRST_STUCK
    ensures Candidate(k) % IMAGE_ALIGN_SECTORS == 0 && Candidate(k) % 1050624 != 509952
  {
    assert Candidate(k) == IMAGE_ALIGN_SECTORS * (16 + k);
    assert 0 <= Candidate(k) < 509952;
  }

  lemma CandidateDataMonotone(j: nat, k: nat)
    requires j <= k
    ensures DataSectors(Candidate(j), FixedPoint(Candidate(j))) <= DataSectors(Candidate(k), FixedPoint(Candidate(k)))
  {
    var a, b := Candidate(j), Candidate(k);
    assert FixedPoint(b) - FixedPoint(a) <= (b - a) / 1026 + 1;
  }

  ghost predicate SizeFoundAt(required: int, k: nat) {
    && (forall j: nat | j <= k :: SearchStops(Candidate(j)))
    && Accepts(Candidate(k), required)
  }

  /** The size search ends exactly for demands of at most MAX_REQUIRED_SECTORS sectors. */
  lemma SizeSearchStopsExactly(required: int)
    ensures (exists k: nat :: SizeFoundAt(required, k)) <==> required <= MAX_REQUIRED_SECTORS
  {
    if k: nat :| SizeFoundAt(required, k) {
      FoundIsSmall(required, k);
    }
    if required <= MAX_REQUIRED_SECTORS {
      var last: nat := FIRST_STUCK - 1;
      forall j: nat | j <= last ensures SearchStops(Candidate(j)) {
        CandidateSolvable(j);
        SearchStopsExactly(Candidate(j));
      }
      LastCandidateAccepts(required);
      assert SizeFoundAt(required, last);
    }
  }

  lemma SearchSticks()
    ensures !SearchStops(Candidate(FIRST_STUCK))
  {
    SearchStopsOnAlignedSizes(Candidate(FIRST_STUCK));
  }

  lemma SmallDemand(required: int, k: nat)
    requires k < FIRST_STUCK && Accepts(Candidate(k), required)
    ensures required <= MAX_REQUIRED_SECTORS
  {
    CandidateDataMonotone(k, FIRST_STUCK - 1);
  }

  lemma FoundIsSmall(required: int, k: nat)
    requires SizeFoundAt(required, k)
    ensures required <= MAX_REQUIRED_SECTORS
  {
    SearchSticks();
    assert k < FIRST_STUCK;
    SmallDemand(required, k);
  }

  lemma LastCandidateAccepts(required: int)
    requires required <= MAX_REQUIRED_SECTORS
    ensures Accepts(Candidate(FIRST_STUCK - 1), required)
  {
  }

  /** The smallest candidate with room for the demand. */
  ghost predicate FirstAccepted(required: int, k: nat) {
    k < FIRST_STUCK && Accepts(Candidate(k), required) && forall j: nat | j < k :: !Accepts(Candidate(j), required)
  }

  ghost predicate Chosen(required: int, total: int) {
    exists k: nat :: FirstAccepted(required, k) && total == Candidate(k)
  }

  lemma ChosenOnce(required: int, a: int, b: int)
    requires Chosen(required, a) && Chosen(required, b)
    ensures a == b
  {
    var i: nat :| FirstAccepted(required, i) && a == Candidate(i);
    var j: nat :| FirstAccepted(required, j) && b == Candidate(j);
    assert !(i < j) && !(j < i);
  }

  /** Chooses the smallest candidate with room for the demand. */
  method ChooseTotalSectors(required: int) returns (total: int)
    requires required <= MAX_REQUIRED_SECTORS
    ensures Solvable(total) && Chosen(required, total)
  {
    total := MIN_TOTAL_SECTORS;
    ghost var k: nat := 0;
    while true
      invariant k < FIRST_STUCK && total == Candidate(k)
      invariant forall j: nat | j < k :: !Accepts(Candidate(j), required)
      decreases FIRST_STUCK - k
    {
      var roomy := HasRoom(total, k, required);
      if roomy {
        assert FirstAccepted(required, k);
        return;
      }
      NotTheLast(required, k);
      NextCandidate(k);
      total := AlignUp(total + IMAGE_ALIGN_SECTORS, IMAGE_ALIGN_SECTORS);
      k := k + 1;
    }
  }

  /** Computes the geometry of a candidate and compares its data sectors with the demand. */
  method HasRoom(total: int, ghost k: nat, required: int) returns (ok: bool)
    requires k < FIRST_STUCK && total == Candidate(k)
    ensures Solvable(total) && (ok <==> Accepts(total, required))
  {
    CandidateSolvable(k);
    var g := ComputeGeometry(total);
    var dataSectors := total - RESERVED_SECTORS - FAT_COUNT * g.fatSectors - g.rootDirSectors;
    ok := dataSectors >= required && g.clusters > 4085;
  }

  lemma NotTheLast(required: int, k: nat)
    requires required <= MAX_REQUIRED_SECTORS && k < FIRST_STUCK && !Accepts(Candidate(k), required)
    ensures k + 1 < FIRST_STUCK
  {
    LastCandidateAccepts(required);
  }

  lemma NextCandidate(k: nat)
    ensures AlignUp(Candidate(k) + IMAGE_ALIGN_SECTORS, IMAGE_ALIGN_SECTORS) == Candidate(k + 1)
  {
    assert Candidate(k) + IMAGE_ALIGN_SECTORS == IMAGE_ALIGN_SECTORS * (17 + k);
  }
}
