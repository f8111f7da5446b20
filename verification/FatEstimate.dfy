/**
  The size estimate: the image is sized before any cluster is allocated, from file
  sizes and name lengths alone.  The estimate forgets one cluster for every empty
  file and every directory; the margin has to pay for them.
*/
module FatEstimate {
  import opened Bytes
  import opened FatGeometry
  import opened FatRecords
  import opened FatReader
  import opened FatLayout
  import opened FatNaming
  import opened FatNames
  import opened FatBuilder

  const IMAGE_MARGIN_BYTES := 4 * 1024 * 1024

  /** Largest demand for which the chosen image stays within FAT16. */
  const MAX_FAT16_SECTORS := 261599

  /** What the estimate counts, and how many empty files there are. */
  datatype Totals = Totals(fileClusters: nat, entryBytes: nat, dirs: nat, empties: nat)

  function Plus(a: Totals, b: Totals): Totals {
    Totals(a.fileClusters + b.fileClusters, a.entryBytes + b.entryBytes, a.dirs + b.dirs, a.empties + b.empties)
  }

  const NOTHING := Totals(0, 0, 0, 0)

  function NameSlots(name: FileName): nat {
    if IsShortName(name) then 1 else 1 + ChunkCount(name)
  }

  function Count(h: Host): Totals {
    match h
    case HostFile(name, data) =>
      Totals(CeilDiv(|data|, CLUSTER_BYTES), 32 * NameSlots(name), 0, if data == [] then 1 else 0)
    case HostDir(name, _) => Totals(0, 32 * NameSlots(name), 1, 0)
  }

  function Counts(paths: seq<Host>): (ts: seq<Totals>)
    ensures |ts| == |paths| && forall i :: 0 <= i < |paths| ==> ts[i] == Count(paths[i])
  {
    seq<Totals>(|paths|, (i: nat) requires i < |paths| => Count(paths[i]))
  }

  function Sum(ts: seq<Totals>): Totals {
    if ts == [] then NOTHING else Plus(Sum(ts[..|ts| - 1]), ts[|ts| - 1])
  }

  function Tally(paths: seq<Host>): Totals {
    Sum(Counts(paths))
  }

  /** Everything below the first `j` of these objects, and they themselves. */
  function Paths(hosts: seq<Host>, j: nat): seq<Host>
    requires j <= |hosts|
    decreases hosts, j
  {
    if j == 0 then []
    else
      var h := hosts[j - 1];
      Paths(hosts, j - 1) + [h] + (if h.HostDir? then Paths(h.kids, |h.kids|) else [])
  }

  /** The records, and two dot entries for each directory. */
  function SlotBytes(t: Totals): nat {
    t.entryBytes + 64 * t.dirs
  }

  function EstimateFor(fileClusters: nat, slotBytes: nat): nat {
    CLUSTER_BYTES * fileClusters + CLUSTER_BYTES * CeilDiv(slotBytes, CLUSTER_BYTES) + IMAGE_MARGIN_BYTES
  }

  function Estimate(hosts: seq<Host>): nat {
    var t := Tally(Paths(hosts, |hosts|));
    EstimateFor(t.fileClusters, SlotBytes(t))
  }

  /** Adds up the estimate over all paths of the source. */
  method EstimateSourceBytes(hosts: seq<Host>) returns (bytes: nat)
    ensures bytes == Estimate(hosts)
  {
    var fileBytes, entryBytes, directoryCount := SumPaths(Paths(hosts, |hosts|));
    var tables := entryBytes + directoryCount * 64;
    bytes := fileBytes + AlignUp(tables, CLUSTER_BYTES) + IMAGE_MARGIN_BYTES;
    WholeClusters(tables);
    assert tables == SlotBytes(Tally(Paths(hosts, |hosts|)));
  }

  method SumPaths(paths: seq<Host>) returns (fileBytes: nat, entryBytes: nat, directoryCount: nat)
    ensures var t := Tally(paths);
      fileBytes == CLUSTER_BYTES * t.fileClusters && entryBytes == t.entryBytes && directoryCount == t.dirs
  {
    fileBytes, entryBytes, directoryCount := 0, 0, 0;
    ghost var t := NOTHING;
    for i := 0 to |paths|
      invariant t == Tally(paths[..i])
      invariant fileBytes == CLUSTER_BYTES * t.fileClusters && entryBytes == t.entryBytes && directoryCount == t.dirs
    {
      TallyStep(paths, i);
      t := Plus(t, Count(paths[i]));
      var f, e, d := PathBytes(paths[i]);
      fileBytes, entryBytes, directoryCount := fileBytes + f, entryBytes + e, directoryCount + d;
    }
    assert paths[..|paths|] == paths;
  }

  lemma WholeClusters(n: nat)
    ensures AlignUp(n, CLUSTER_BYTES) == CLUSTER_BYTES * CeilDiv(n, CLUSTER_BYTES)
  {
  }

  /** What one path adds: the clusters of a file, the slots of its name, and whether it is a directory. */
  method PathBytes(h: Host) returns (fileBytes: nat, entryBytes: nat, directories: nat)
    ensures fileBytes == CLUSTER_BYTES * Count(h).fileClusters && entryBytes == Count(h).entryBytes
    ensures directories == Count(h).dirs
  {
    match h {
      case HostFile(name, data) =>
        fileBytes, directories := AlignUp(|data|, CLUSTER_BYTES), 0;
        entryBytes := 32 * NameSlots(name);
      case HostDir(name, _) =>
        fileBytes, directories := 0, 1;
        entryBytes := 32 * NameSlots(name);
    }
  }

  lemma TallyStep(paths: seq<Host>, i: nat)
    requires i < |paths|
    ensures Tally(paths[..i + 1]) == Plus(Tally(paths[..i]), Count(paths[i]))
  {
    var ts := Counts(paths[..i + 1]);
    assert ts[..i] == Counts(paths[..i]) && ts[i] == Count(paths[i]);
  }

  // ---------------------------------------------------------------- what the estimate leaves out

  /** Bytes of long-name slots that the estimate does not expect, because the name is an 8.3 name already taken. */
  function Surprise(n: Node): nat
    decreases n, 1
  {
    (if n.naming.long && IsShortName(n.name) then 32 * ChunkCount(n.name) else 0)
    + (if n.Dir? then Surprises(n.kids, |n.kids|) else 0)
  }

  function Surprises(nodes: seq<Node>, j: nat): nat
    requires j <= |nodes|
    decreases nodes, 0, j
  {
    if j == 0 then 0 else Surprises(nodes, j - 1) + Surprise(nodes[j - 1])
  }

  /** Bytes the margin has to cover. */
  function Shortfall(hosts: seq<Host>, kids: seq<Node>): nat {
    var t := Tally(Paths(hosts, |hosts|));
    CLUSTER_BYTES * (t.empties + t.dirs) + Surprises(kids, |kids|)
  }

  lemma PlusAssociative(a: Totals, b: Totals, c: Totals)
    ensures Plus(Plus(a, b), c) == Plus(a, Plus(b, c)) && Plus(a, NOTHING) == a && Plus(NOTHING, a) == a
  {
  }

  lemma SumLast(ts: seq<Totals>, t: Totals)
    ensures Sum(ts + [t]) == Plus(Sum(ts), t)
  {
    assert (ts + [t])[..|ts|] == ts;
  }

  lemma {:induction false} SumAppend(a: seq<Totals>, b: seq<Totals>)
    ensures Sum(a + b) == Plus(Sum(a), Sum(b))
  {
    if b == [] {
      assert a + b == a;
      PlusAssociative(Sum(a), NOTHING, NOTHING);
    } else {
      var front, last := b[..|b| - 1], b[|b| - 1];
      assert b == front + [last] && a + b == (a + front) + [last];
      SumLast(front, last);
      SumLast(a + front, last);
      SumAppend(a, front);
      PlusAssociative(Sum(a), Sum(front), last);
    }
  }

  lemma TallyAppend(a: seq<Host>, b: seq<Host>)
    ensures Tally(a + b) == Plus(Tally(a), Tally(b))
  {
    CountsAppend(a, b);
    SumAppend(Counts(a), Counts(b));
  }

  lemma CountsAppend(a: seq<Host>, b: seq<Host>)
    ensures Counts(a + b) == Counts(a) + Counts(b)
  {
    var all, parts := Counts(a + b), Counts(a) + Counts(b);
    forall i | 0 <= i < |all| ensures all[i] == parts[i] {
      assert (a + b)[i] == if i < |a| then a[i] else b[i - |a|];
    }
  }

  function Below(h: Host): seq<Host> {
    if h.HostDir? then Paths(h.kids, |h.kids|) else []
  }

  lemma TallyOne(h: Host)
    ensures Tally([h]) == Count(h)
  {
    assert Counts([h]) == [] + [Count(h)];
    SumLast([], Count(h));
    PlusAssociative(Count(h), NOTHING, NOTHING);
  }

  lemma TallyNext(hosts: seq<Host>, j: nat)
    requires 0 < j <= |hosts|
    ensures Tally(Paths(hosts, j)) ==
      Plus(Plus(Tally(Paths(hosts, j - 1)), Count(hosts[j - 1])), Tally(Below(hosts[j - 1])))
  {
    var h, before := hosts[j - 1], Paths(hosts, j - 1);
    assert Paths(hosts, j) == before + [h] + Below(h);
    TallyAppend(before + [h], Below(h));
    TallyAppend(before, [h]);
    TallyOne(h);
  }

  /** Weighted totals: what the clusters and tables of these objects may take. */
  function Budget(t: Totals): nat {
    CLUSTER_BYTES * t.fileClusters + t.entryBytes + (CLUSTER_BYTES + 64) * t.dirs + CLUSTER_BYTES * t.empties
  }

  lemma BudgetOfPlus(a: Totals, b: Totals, c: Totals)
    ensures Budget(Plus(Plus(a, b), c)) == Budget(a) + Budget(b) + Budget(c)
  {
  }

  /** The record of an object is as long as the estimate says, or surprising. */
  lemma RecordWithin(n: Node)
    ensures RecordLength(n.name, n.naming)
         <= 32 * NameSlots(n.name) + (if n.naming.long && IsShortName(n.name) then 32 * ChunkCount(n.name) else 0)
  {
  }

  /** The clusters and the record of a child stay within the budget of its paths. */
  ghost predicate KidCovered(h: Host, n: Node) {
    CLUSTER_BYTES * Clusters(n) + RecordLength(n.name, n.naming)
      <= Budget(Count(h)) + Budget(Tally(Below(h))) + Surprise(n)
  }

  ghost predicate Covered(hosts: seq<Host>, j: nat, front: seq<Node>) {
    && j <= |hosts| && j == |front|
    && CLUSTER_BYTES * Span(front, j) + TableLength(front, j) <= Budget(Tally(Paths(hosts, j))) + Surprises(front, j)
  }

  lemma FileWithin(h: Host, n: Node)
    requires h.HostFile? && n.File? && n.name == h.name && n.data == h.data
    ensures KidCovered(h, n)
  {
    RecordWithin(n);
  }

  lemma DirWithin(h: Host, n: Node)
    requires h.HostDir? && n.Dir? && n.name == h.name && Covered(h.kids, |h.kids|, n.kids)
    ensures KidCovered(h, n)
  {
    RecordWithin(n);
  }

  lemma NamedKid(h: Host, used: set<seq<byte>>, n: Node)
    requires NameNext(h, used) == Some(n)
    ensures n.name == h.name && n.Dir? == h.HostDir?
    ensures h.HostFile? ==> n.data == h.data
    ensures h.HostDir? ==> NamedAs(h.kids, |h.kids|, DOT_NAMES, n.kids)
  {
  }

  lemma {:induction false} TableOfPrefix(front: seq<Node>, n: Node, j: nat)
    requires j <= |front|
    ensures TableLength(front + [n], j) == TableLength(front, j)
  {
    if j > 0 {
      TableOfPrefix(front, n, j - 1);
    }
  }

  lemma {:induction false} SurprisesOfPrefix(front: seq<Node>, n: Node, j: nat)
    requires j <= |front|
    ensures Surprises(front + [n], j) == Surprises(front, j)
  {
    if j > 0 {
      SurprisesOfPrefix(front, n, j - 1);
    }
  }

  /** One more child adds its clusters, its record and its surprises. */
  lemma SumsOfAppend(front: seq<Node>, n: Node, j: nat)
    requires j == |front|
    ensures Span(front + [n], j + 1) == Span(front, j) + Clusters(n)
    ensures TableLength(front + [n], j + 1) == TableLength(front, j) + RecordLength(n.name, n.naming)
    ensures Surprises(front + [n], j + 1) == Surprises(front, j) + Surprise(n)
  {
    SpanOfAppend(front, n);
    TableOfPrefix(front, n, j);
    SurprisesOfPrefix(front, n, j);
  }

  lemma {:induction false} KidWithin(h: Host, used: set<seq<byte>>, n: Node)
    requires NameNext(h, used) == Some(n)
    ensures KidCovered(h, n)
    decreases h, 0
  {
    NamedKid(h, used, n);
    if h.HostDir? {
      KidsWithin(h.kids, |h.kids|, DOT_NAMES, n.kids);
      DirWithin(h, n);
    } else {
      FileWithin(h, n);
    }
  }

  /** Clusters and tables of named children stay within the budget of their paths. */
  lemma {:induction false} KidsWithin(hosts: seq<Host>, j: nat, used: set<seq<byte>>, front: seq<Node>)
    requires NamedAs(hosts, j, used, front)
    ensures Covered(hosts, j, front)
    decreases hosts, j
  {
    if j > 0 {
      var init, n := front[..j - 1], front[j - 1];
      assert front == init + [n];
      NameKidsInit(hosts, j - 1, used, front, init);
      LastNamed(hosts, j - 1, used, init, front);
      KidsWithin(hosts, j - 1, used, init);
      KidWithin(hosts[j - 1], used + Shorts(init), n);
      AddKid(hosts, j - 1, init, n);
    }
  }

  lemma AddKid(hosts: seq<Host>, j: nat, init: seq<Node>, n: Node)
    requires j < |hosts| && j == |init|
    requires Covered(hosts, j, init) && KidCovered(hosts[j], n)
    ensures Covered(hosts, j + 1, init + [n])
  {
    SumsOfAppend(init, n, j);
    BudgetNext(hosts, j);
  }

  lemma BudgetNext(hosts: seq<Host>, j: nat)
    requires j < |hosts|
    ensures Budget(Tally(Paths(hosts, j + 1))) ==
      Budget(Tally(Paths(hosts, j))) + Budget(Count(hosts[j])) + Budget(Tally(Below(hosts[j])))
  {
    TallyNext(hosts, j + 1);
    BudgetOfPlus(Tally(Paths(hosts, j)), Count(hosts[j]), Tally(Below(hosts[j])));
  }

  // ---------------------------------------------------------------- the margin pays

  lemma EstimateCovers(hosts: seq<Host>, kids: seq<Node>)
    requires NameAll(hosts, {}) == Some(kids) && Shortfall(hosts, kids) <= IMAGE_MARGIN_BYTES
    ensures CLUSTER_BYTES * Extent(kids) <= Estimate(hosts)
  {
    KidsWithin(hosts, |hosts|, {}, kids);
  }

  lemma EstimateInClusters(hosts: seq<Host>) returns (e: nat)
    ensures Estimate(hosts) == CLUSTER_BYTES * e
  {
    var t := Tally(Paths(hosts, |hosts|));
    e := t.fileClusters + CeilDiv(SlotBytes(t), CLUSTER_BYTES) + 2048;
  }

  function RequiredSectors(hosts: seq<Host>): int {
    CeilDiv(Estimate(hosts), BYTES_PER_SECTOR)
  }

  /** If empty files, directories and repeated 8.3 names stay within the margin, the accepted size has room for all. */
  lemma EstimateSuffices(hosts: seq<Host>, kids: seq<Node>, total: int)
    requires NameAll(hosts, {}) == Some(kids) && Shortfall(hosts, kids) <= IMAGE_MARGIN_BYTES
    requires Accepts(total, RequiredSectors(hosts))
    ensures Extent(kids) <= ClustersFor(total, FixedPoint(total))
    ensures KidsFit(hosts, {}, 2, ClustersFor(total, FixedPoint(total)) + 2)
  {
    EstimateCovers(hosts, kids);
    var e := EstimateInClusters(hosts);
    assert RequiredSectors(hosts) == 4 * e;
  }

  // ---------------------------------------------------------------- the whole program

  function ChosenClusters(total: int): int {
    ClustersFor(total, FixedPoint(total))
  }

  /** The chosen image stays below the FAT16 limit exactly for demands of at most MAX_FAT16_SECTORS sectors. */
  lemma ChosenIsFat16(required: int, total: int)
    requires Chosen(required, total)
    ensures 0 <= ChosenClusters(total)
    ensures ChosenClusters(total) < MAX_CLUSTERS <==> required <= MAX_FAT16_SECTORS
  {
    var k: nat :| FirstAccepted(required, k) && total == Candidate(k);
    CandidateDataMonotone(0, k);
    if required <= MAX_FAT16_SECTORS {
      assert Accepts(Candidate(112), required);
      assert k <= 112;
      CandidateDataMonotone(k, 112);
    } else if k <= 112 {
      CandidateDataMonotone(k, 112);
    } else {
      CandidateDataMonotone(113, k);
    }
  }

  /** Sizes the image from the estimate and builds it. */
  method MakeImage(hosts: seq<Host>) returns (image: Option<seq<byte>>, ghost total: nat)
    requires RequiredSectors(hosts) <= MAX_FAT16_SECTORS
    ensures Chosen(RequiredSectors(hosts), total)
    ensures image.Some? <==> KidsFit(hosts, {}, 2, ChosenClusters(total) + 2)
    ensures NameAll(hosts, {}).Some? && Shortfall(hosts, NameAll(hosts, {}).value) <= IMAGE_MARGIN_BYTES ==> image.Some?
    ensures image.Some? ==> (ReadsBack(image.value, hosts) <==> RootFits(NameAll(hosts, {}).value))
  {
    var bytes := EstimateSourceBytes(hosts);
    var required := CeilDiv(bytes, BYTES_PER_SECTOR);
    var sectors := ChooseTotalSectors(required);
    total := sectors;
    ChosenIsFat16(required, sectors);
    var builder := new ImageBuilder(sectors);
    var ok := builder.Build(hosts);
    if NameAll(hosts, {}).Some? && Shortfall(hosts, NameAll(hosts, {}).value) <= IMAGE_MARGIN_BYTES {
      EstimateSuffices(hosts, NameAll(hosts, {}).value, sectors);
    }
    image := if ok then Some(builder.image) else None;
  }

  // ---------------------------------------------------------------- when the margin does not pay

  function Digits(i: nat): (s: FileName)
    requires i < 100000
  {
    [Digit(i / 10000), Digit(i / 1000 % 10), Digit(i / 100 % 10), Digit(i / 10 % 10), Digit(i % 10)]
  }

  /** A directory of empty files with five-digit names. */
  function EmptyFiles(n: nat): (hosts: seq<Host>)
    requires n <= 100000
    ensures |hosts| == n && forall i :: 0 <= i < n ==> hosts[i] == HostFile(Digits(i), [])
  {
    seq<Host>(n, (i: nat) requires i < n => HostFile(Digits(i), []))
  }

  lemma DigitsAllowed(d: nat)
    requires d < 10
    ensures Allowed(Digit(d)) && Digit(d) != '.'
  {
  }

  lemma DigitsShort(i: nat)
    requires i < 100000
    ensures NameSlots(Digits(i)) == 1
  {
    var s := Digits(i);
    forall k | 0 <= k < 5 ensures Allowed(s[k]) && s[k] != '.' {
      DigitsAllowed(if k == 0 then i / 10000 else if k == 1 then i / 1000 % 10 else if k == 2 then i / 100 % 10
                    else if k == 3 then i / 10 % 10 else i % 10);
    }
    assert LastDot(s) == 5;
    assert Base(s) == s && Ext(s) == "";
    UpperAllowed(s);
  }

  lemma TallyNone()
    ensures Tally([]) == NOTHING
  {
    assert Counts([]) == [];
  }

  /** Files that count alike add up. */
  lemma {:induction false} UniformTally(hosts: seq<Host>, j: nat)
    requires j <= |hosts| && forall i :: 0 <= i < |hosts| ==>
      hosts[i].HostFile? && Count(hosts[i]) == Totals(0, 32, 0, 1)
    ensures Tally(Paths(hosts, j)) == Totals(0, 32 * j, 0, j)
  {
    if j == 0 {
      TallyNone();
    } else {
      UniformTally(hosts, j - 1);
      FileNext(hosts, j);
    }
  }

  lemma FileNext(hosts: seq<Host>, j: nat)
    requires 0 < j <= |hosts| && hosts[j - 1].HostFile?
    ensures Tally(Paths(hosts, j)) == Plus(Tally(Paths(hosts, j - 1)), Count(hosts[j - 1]))
  {
    TallyNext(hosts, j);
    TallyNone();
    PlusAssociative(Plus(Tally(Paths(hosts, j - 1)), Count(hosts[j - 1])), NOTHING, NOTHING);
  }

  lemma EmptyTally(n: nat)
    requires n <= 100000
    ensures Tally(Paths(EmptyFiles(n), n)) == Totals(0, 32 * n, 0, n)
  {
    var hosts := EmptyFiles(n);
    forall i | 0 <= i < n ensures hosts[i].HostFile? && Count(hosts[i]) == Totals(0, 32, 0, 1) {
      DigitsShort(i);
    }
    UniformTally(hosts, n);
  }

  lemma OneDirectory(hosts: seq<Host>, j: nat, n: nat)
    requires j == |hosts| == 1 && Count(hosts[0]) == Totals(0, 32, 1, 0)
    requires Tally(Below(hosts[0])) == Totals(0, 32 * n, 0, n)
    ensures Tally(Paths(hosts, j)) == Totals(0, 32 * n + 32, 1, n)
  {
    var none := j - 1;
    TallyNext(hosts, j);
    assert Paths(hosts, none) == [];
    TallyNone();
  }

  lemma ShortD()
    ensures NameSlots("D") == 1
  {
    assert LastDot("D") == 1;
    assert Base("D") == "D" && Ext("D") == "";
    UpperAllowed("D");
  }

  lemma {:induction false} SpanAtLeast(nodes: seq<Node>, j: nat)
    requires j <= |nodes|
    ensures Span(nodes, j) >= j
  {
    if j > 0 {
      SpanAtLeast(nodes, j - 1);
    }
  }

  function Overfull(): seq<Host> {
    [HostDir("D", EmptyFiles(9000))]
  }

  lemma OverfullDemand()
    ensures Accepts(MIN_TOTAL_SECTORS, RequiredSectors(Overfull()))
  {
    var hosts := Overfull();
    EmptyTally(9000);
    ShortD();
    OneDirectory(hosts, |hosts|, 9000);
    EstimateOf(hosts);
    DemandOf(hosts);
    SmallestAccepts(RequiredSectors(hosts));
  }

  lemma EstimateOf(hosts: seq<Host>)
    requires Tally(Paths(hosts, |hosts|)) == Totals(0, 32 * 9000 + 32, 1, 9000)
    ensures Estimate(hosts) == CLUSTER_BYTES * CeilDiv(288096, CLUSTER_BYTES) + IMAGE_MARGIN_BYTES
  {
  }

  lemma DemandOf(hosts: seq<Host>)
    requires Estimate(hosts) == CLUSTER_BYTES * CeilDiv(288096, CLUSTER_BYTES) + IMAGE_MARGIN_BYTES
    ensures RequiredSectors(hosts) <= 32671
  {
    assert Estimate(hosts) <= 288096 + 2048 + IMAGE_MARGIN_BYTES;
  }

  lemma SmallestAccepts(required: int)
    requires required <= 32671
    ensures Accepts(MIN_TOTAL_SECTORS, required)
  {
  }

  /** Whatever the files are called, each takes a cluster. */
  lemma OverfullKids(hosts: seq<Host>, files: seq<Host>, kids: seq<Node>)
    requires hosts == [HostDir("D", files)] && NamedAs(hosts, 1, {}, kids)
    ensures Span(kids, 1) >= |files|
  {
    NameKidsInit(hosts, 0, {}, kids, kids[..0]);
    LastNamed(hosts, 0, {}, kids[..0], kids);
    NamedKid(hosts[0], {} + Shorts(kids[..0]), kids[0]);
    SpanAtLeast(kids[0].kids, |files|);
    SpanMonotone(kids, 0, 1);
  }

  /** Nine thousand empty files do not fit the image that is chosen for them. */
  lemma EmptyFilesOverflow(total: int)
    requires Chosen(RequiredSectors(Overfull()), total)
    ensures !KidsFit(Overfull(), {}, 2, ChosenClusters(total) + 2)
  {
    OverfullDemand();
    SmallestChosen(RequiredSectors(Overfull()), total);
    if NameAll(Overfull(), {}).Some? {
      OverfullKids(Overfull(), EmptyFiles(9000), NameAll(Overfull(), {}).value);
    }
  }

  lemma SmallestChosen(required: int, total: int)
    requires Accepts(MIN_TOTAL_SECTORS, required) && Chosen(required, total)
    ensures total == MIN_TOTAL_SECTORS
  {
    assert FirstAccepted(required, 0);
    ChosenOnce(required, total, Candidate(0));
  }

  // ---------------------------------------------------------------- when the image leaves FAT16

  function OneFile(data: seq<byte>): seq<Host> {
    [HostFile("D", data)]
  }

  lemma OneFileTally(h: Host, hosts: seq<Host>, j: nat)
    requires hosts == [h] && h.HostFile? && j == 1
    ensures Tally(Paths(hosts, j)) == Count(h)
  {
    var none := j - 1;
    FileNext(hosts, j);
    assert Paths(hosts, none) == [];
    TallyNone();
  }

  lemma OneFileCount(data: seq<byte>)
    ensures var t := Count(HostFile("D", data));
      t.fileClusters == CeilDiv(|data|, CLUSTER_BYTES) && t.entryBytes == 32 && t.dirs == 0
  {
    ShortD();
  }

  lemma OneFileDemand(data: seq<byte>, clusters: nat)
    requires clusters == CeilDiv(|data|, CLUSTER_BYTES)
    ensures RequiredSectors(OneFile(data)) == 4 * (clusters + 1 + 2048)
  {
    var hosts := OneFile(data);
    OneFileCount(data);
    OneFileTally(hosts[0], hosts, |hosts|);
    assert CeilDiv(32, CLUSTER_BYTES) == 1;
    assert Estimate(hosts) == 512 * (4 * (clusters + 1 + 2048));
  }

  /** One file: the size search ends, and the image it chooses leaves FAT16 exactly for more than 129740800 bytes. */
  lemma LargeFile(data: seq<byte>, total: int)
    requires |data| <= 255324160
    ensures RequiredSectors(OneFile(data)) <= MAX_REQUIRED_SECTORS
    ensures Chosen(RequiredSectors(OneFile(data)), total) ==>
      (ChosenClusters(total) >= MAX_CLUSTERS <==> |data| > 129740800)
  {
    var clusters := CeilDiv(|data|, CLUSTER_BYTES);
    OneFileDemand(data, clusters);
    ClustersOf(|data|, clusters);
    if Chosen(RequiredSectors(OneFile(data)), total) {
      ChosenIsFat16(RequiredSectors(OneFile(data)), total);
    }
  }

  lemma ClustersOf(length: nat, clusters: nat)
    requires clusters == CeilDiv(length, CLUSTER_BYTES) && length <= 255324160
    ensures clusters <= 124670 && (clusters > 63350 <==> length > 129740800)
  {
  }

  // ---------------------------------------------------------------- when the root directory is too small

  lemma DigitsSixteen(i: nat)
    requires i < 100000
    ensures SixteenBit(Digits(i))
  {
    var s := Digits(i);
    forall c | c in s ensures (c as int) < 0x10000 {
      var k :| 0 <= k < 5 && s[k] == c;
      DigitsAllowed(if k == 0 then i / 10000 else if k == 1 then i / 1000 % 10 else if k == 2 then i / 100 % 10
                    else if k == 3 then i / 10 % 10 else i % 10);
    }
  }

  lemma ShortRecord(name: FileName, used: set<seq<byte>>) returns (n: Node)
    requires IsShortName(name) && SixteenBit(name)
    ensures NameNext(HostFile(name, []), used) == Some(n) && n.File? && n.data == []
  {
    n := File(name, ChooseName(name, used).value, []);
  }

  lemma OneMoreEmpty(front: seq<Node>, n: Node)
    requires n.File? && n.data == []
    ensures Span(front + [n], |front| + 1) == Span(front, |front|) + 1
    ensures TableLength(front + [n], |front| + 1) >= TableLength(front, |front|) + 32
  {
    SumsOfAppend(front, n, |front|);
  }

  /** Empty files take a cluster and at least one directory slot each. */
  lemma {:induction false} EmptyFilesNamed(n: nat, j: nat) returns (kids: seq<Node>)
    requires j <= n <= 100000
    ensures NamedAs(EmptyFiles(n), j, {}, kids) && |kids| == j
    ensures Span(kids, j) == j && TableLength(kids, j) >= 32 * j
  {
    if j == 0 {
      kids := [];
    } else {
      var front := EmptyFilesNamed(n, j - 1);
      DigitsShort(j - 1);
      DigitsSixteen(j - 1);
      var node := ShortRecord(Digits(j - 1), {} + Shorts(front));
      NameKidsNext(EmptyFiles(n), j - 1, front, node, {});
      OneMoreEmpty(front, node);
      kids := front + [node];
    }
  }

  /** From 513 files on, the clusters of the chosen image suffice and its root directory does not. */
  lemma RootOverflows(n: nat, total: int)
    requires 513 <= n <= 4085 && Chosen(RequiredSectors(EmptyFiles(n)), total)
    ensures KidsFit(EmptyFiles(n), {}, 2, ChosenClusters(total) + 2) && !RootFits(NameAll(EmptyFiles(n), {}).value)
  {
    var kids := EmptyFilesNamed(n, n);
    assert NameAll(EmptyFiles(n), {}) == Some(kids);
  }
}
