/**
  The shell's job table: eight slots, the first of which is recycled when all are taken.
  Identifiers are unbounded here.
*/
module Jobs {
  import opened Bytes
  import opened History

  const JOB_CAPACITY := 8
  const MAX_JOB_PROCESSES := 4

  datatype Job = Job(jobId: nat, pid: nat, processGroup: nat, pids: seq<nat>, lastStatus: nat,
                     active: bool, waited: bool, command: string)

  const EMPTY := Job(0, 0, 0, [], 0, false, false, "")

  datatype Table = Table(jobs: seq<Job>, next: nat)

  /** A live job answers to its leader and to the processes it lists. */
  predicate Has(j: Job, p: nat) {
    j.active && p != 0 && (j.pid == p || p in j.pids)
  }

  predicate Absent(jobs: seq<Job>, p: nat) {
    forall i :: 0 <= i < |jobs| ==> !Has(jobs[i], p)
  }

  // ---------------------------------------------------------------- what every run keeps

  predicate Identified(t: Table) {
    && (forall i :: 0 <= i < |t.jobs| && t.jobs[i].active ==> 0 < t.jobs[i].jobId < t.next && t.jobs[i].pid != 0)
    && (forall i, k :: 0 <= i < k < |t.jobs| && t.jobs[i].active && t.jobs[k].active ==>
          t.jobs[i].jobId != t.jobs[k].jobId)
  }

  ghost predicate Apart(a: Job, b: Job) {
    forall p :: !(Has(a, p) && Has(b, p))
  }

  ghost predicate Disjoint(jobs: seq<Job>) {
    forall i, k :: 0 <= i < k < |jobs| ==> Apart(jobs[i], jobs[k])
  }

  ghost predicate Good(t: Table) {
    |t.jobs| == JOB_CAPACITY && t.next > 0 && Identified(t) && Disjoint(t.jobs)
  }

  // ---------------------------------------------------------------- the operations on values

  function FirstHaving(jobs: seq<Job>, p: nat, from: nat): (i: nat)
    requires from <= |jobs|
    ensures from <= i <= |jobs| && (i < |jobs| ==> Has(jobs[i], p))
    ensures forall k :: from <= k < i ==> !Has(jobs[k], p)
    decreases |jobs| - from
  {
    if from == |jobs| || Has(jobs[from], p) then from else FirstHaving(jobs, p, from + 1)
  }

  function FirstFree(jobs: seq<Job>, from: nat): (i: nat)
    requires from <= |jobs|
    ensures from <= i <= |jobs| && (i < |jobs| ==> !jobs[i].active)
    ensures forall k :: from <= k < i ==> jobs[k].active
    decreases |jobs| - from
  {
    if from == |jobs| || !jobs[from].active then from else FirstFree(jobs, from + 1)
  }

  /** The job that has the process, else a free slot, else the first slot. */
  function SlotFor(jobs: seq<Job>, p: nat): (i: nat)
    requires |jobs| == JOB_CAPACITY
    ensures i < JOB_CAPACITY
  {
    if FirstHaving(jobs, p, 0) < |jobs| then FirstHaving(jobs, p, 0)
    else if FirstFree(jobs, 0) < |jobs| then FirstFree(jobs, 0)
    else 0
  }

  function Remember(t: Table, leader: nat, pids: seq<nat>, command: string): Table
    requires |t.jobs| == JOB_CAPACITY
  {
    if leader == 0 then t
    else
      var slot := SlotFor(t.jobs, leader);
      var reuse := t.jobs[slot].active && t.jobs[slot].jobId != 0;
      var id := if reuse then t.jobs[slot].jobId else t.next;
      var job := Job(id, leader, leader, pids, 0, true, false, Cut(command));
      Table(t.jobs[slot := job], if reuse then t.next else t.next + 1)
  }

  function Forget(t: Table, p: nat): Table {
    var i := FirstHaving(t.jobs, p, 0);
    if i == |t.jobs| then t else t.(jobs := t.jobs[i := EMPTY])
  }

  // ---------------------------------------------------------------- what they keep

  /** No process of the new job is still listed by a job in another slot. */
  predicate FreshFor(jobs: seq<Job>, leader: nat, pids: seq<nat>)
    requires |jobs| == JOB_CAPACITY
  {
    forall i, p :: 0 <= i < |jobs| && i != SlotFor(jobs, leader) && p in pids ==> !Has(jobs[i], p)
  }

  lemma LeaderFresh(t: Table, leader: nat)
    requires Good(t)
    ensures forall i :: 0 <= i < |t.jobs| && i != SlotFor(t.jobs, leader) ==> !Has(t.jobs[i], leader)
  {
    var s := FirstHaving(t.jobs, leader, 0);
    forall i | 0 <= i < |t.jobs| && i != SlotFor(t.jobs, leader) ensures !Has(t.jobs[i], leader) {
      if s < |t.jobs| {
        assert i < s ==> Apart(t.jobs[i], t.jobs[s]);
        assert s < i ==> Apart(t.jobs[s], t.jobs[i]);
      }
    }
  }

  lemma RememberIdentifies(t: Table, leader: nat, pids: seq<nat>, command: string)
    requires Good(t)
    ensures var r := Remember(t, leader, pids, command); |r.jobs| == JOB_CAPACITY && r.next >= t.next && Identified(r)
  {
  }

  /** Remembering keeps the jobs disjoint exactly when the new processes were fresh. */
  lemma RememberDisjoint(t: Table, leader: nat, pids: seq<nat>, command: string)
    requires Good(t) && leader != 0
    ensures Good(Remember(t, leader, pids, command)) <==> FreshFor(t.jobs, leader, pids)
  {
    var r, slot := Remember(t, leader, pids, command), SlotFor(t.jobs, leader);
    RememberIdentifies(t, leader, pids, command);
    LeaderFresh(t, leader);
    if FreshFor(t.jobs, leader, pids) {
      forall i, k | 0 <= i < k < |r.jobs| ensures Apart(r.jobs[i], r.jobs[k]) {
        assert Apart(t.jobs[i], t.jobs[k]);
      }
    } else {
      var i, p :| 0 <= i < |t.jobs| && i != slot && p in pids && Has(t.jobs[i], p);
      assert Has(r.jobs[i], p) && Has(r.jobs[slot], p);
      assert !Apart(if i < slot then r.jobs[i] else r.jobs[slot], if i < slot then r.jobs[slot] else r.jobs[i]);
    }
  }

  lemma ForgetKeeps(t: Table, p: nat)
    requires Good(t)
    ensures Good(Forget(t, p)) && Absent(Forget(t, p).jobs, p)
  {
    var s, r := FirstHaving(t.jobs, p, 0), Forget(t, p);
    forall i, k | 0 <= i < k < |r.jobs| ensures Apart(r.jobs[i], r.jobs[k]) {
      assert Apart(t.jobs[i], t.jobs[k]);
    }
    forall i | 0 <= i < |r.jobs| ensures !Has(r.jobs[i], p) {
      assert s < i ==> Apart(t.jobs[s], t.jobs[i]);
    }
  }

  // ---------------------------------------------------------------- looking a process up

  /** The job that answers to a process. */
  function Lookup(t: Table, p: nat): Option<Job> {
    var i := FirstHaving(t.jobs, p, 0);
    if i < |t.jobs| then Some(t.jobs[i]) else None
  }

  lemma LookupIs(t: Table, p: nat, i: nat)
    requires Good(t) && i < |t.jobs| && Has(t.jobs[i], p)
    ensures FirstHaving(t.jobs, p, 0) == i && Lookup(t, p) == Some(t.jobs[i])
  {
    forall k | 0 <= k < i ensures !Has(t.jobs[k], p) {
      assert Apart(t.jobs[k], t.jobs[i]);
    }
  }

  /** A new job is found under all its processes; only the job it displaced is lost. */
  lemma RememberLookup(t: Table, leader: nat, pids: seq<nat>, command: string, q: nat)
    requires Good(t) && leader != 0 && FreshFor(t.jobs, leader, pids)
    ensures var r, slot := Remember(t, leader, pids, command), SlotFor(t.jobs, leader);
            Lookup(r, q) == if Has(r.jobs[slot], q) then Some(r.jobs[slot])
                            else if Has(t.jobs[slot], q) then None
                            else Lookup(t, q)
  {
    var r, slot := Remember(t, leader, pids, command), SlotFor(t.jobs, leader);
    RememberDisjoint(t, leader, pids, command);
    if Has(r.jobs[slot], q) {
      LookupIs(r, q, slot);
    } else if Has(t.jobs[slot], q) {
      forall i | 0 <= i < |r.jobs| ensures !Has(r.jobs[i], q) {
        assert i < slot ==> Apart(t.jobs[i], t.jobs[slot]);
        assert slot < i ==> Apart(t.jobs[slot], t.jobs[i]);
      }
    } else {
      SameElsewhere(t.jobs, r.jobs, slot, q, 0);
    }
  }

  /** What is found under the leader of a new job. */
  lemma Remembered(t: Table, leader: nat, pids: seq<nat>, command: string)
    requires Good(t) && leader != 0
    ensures match Lookup(Remember(t, leader, pids, command), leader)
            case None => false
            case Some(j) =>
              && j.pid == j.processGroup == leader && j.pids == pids && j.lastStatus == 0 && j.active && !j.waited
              && (if |command| < 64 then j.command == command else j.command == command[..63])
              && (match Lookup(t, leader)
                  case Some(was) => j.jobId == was.jobId
                  case None => if exists i :: 0 <= i < |t.jobs| && !t.jobs[i].active then j.jobId == t.next
                               else j.jobId == t.jobs[0].jobId)
  {
    var r, slot := Remember(t, leader, pids, command), SlotFor(t.jobs, leader);
    LeaderFresh(t, leader);
    assert Has(r.jobs[slot], leader);
    FoundFirst(r.jobs, leader, slot);
  }

  lemma FoundFirst(jobs: seq<Job>, p: nat, slot: nat)
    requires slot < |jobs| && Has(jobs[slot], p) && forall i :: 0 <= i < |jobs| && i != slot ==> !Has(jobs[i], p)
    ensures FirstHaving(jobs, p, 0) == slot
  {
  }

  lemma {:induction false} SameElsewhere(a: seq<Job>, b: seq<Job>, slot: nat, q: nat, from: nat)
    requires slot < |a| == |b| && from <= |a| && !Has(a[slot], q) && !Has(b[slot], q)
    requires forall i :: 0 <= i < |a| && i != slot ==> a[i] == b[i]
    ensures FirstHaving(a, q, from) == FirstHaving(b, q, from)
    decreases |a| - from
  {
    if from < |a| {
      SameElsewhere(a, b, slot, q, from + 1);
    }
  }

  /** Forgetting a process forgets its whole job and no other. */
  lemma ForgetLookup(t: Table, p: nat, q: nat)
    requires Good(t)
    ensures Lookup(Forget(t, p), q) ==
      if Lookup(t, q) != None && Lookup(t, q) == Lookup(t, p) then None else Lookup(t, q)
  {
    var r, i := Forget(t, p), FirstHaving(t.jobs, p, 0);
    ForgetKeeps(t, p);
    if i < |t.jobs| {
      if Has(t.jobs[i], q) {
        LookupIs(t, q, i);
        ForgetKeeps(t, q);
      } else {
        SameElsewhere(t.jobs, r.jobs, i, q, 0);
        DifferentJob(t, p, q, i);
      }
    }
  }

  lemma DifferentJob(t: Table, p: nat, q: nat, i: nat)
    requires Good(t) && i < |t.jobs| && Has(t.jobs[i], p) && !Has(t.jobs[i], q) && i == FirstHaving(t.jobs, p, 0)
    ensures Lookup(t, q) != Lookup(t, p)
  {
    var k := FirstHaving(t.jobs, q, 0);
    if k < |t.jobs| {
      assert t.jobs[k].jobId != t.jobs[i].jobId;
    }
  }

  // ---------------------------------------------------------------- whole runs

  datatype Operation = Start(leader: nat, pids: seq<nat>, command: string) | End(pid: nat)

  function Apply(t: Table, op: Operation): Table
    requires |t.jobs| == JOB_CAPACITY
  {
    match op
    case Start(leader, pids, command) => Remember(t, leader, pids, command)
    case End(p) => Forget(t, p)
  }

  function ApplyAll(t: Table, ops: seq<Operation>): Table
    requires |t.jobs| == JOB_CAPACITY
    decreases |ops|
  {
    if ops == [] then t else ApplyAll(Apply(t, ops[0]), ops[1..])
  }

  predicate Fresh(t: Table, op: Operation)
    requires |t.jobs| == JOB_CAPACITY
  {
    op.Start? && op.leader != 0 ==> FreshFor(t.jobs, op.leader, op.pids)
  }

  /** Every job of the run starts with processes no other live job lists. */
  predicate FreshRun(t: Table, ops: seq<Operation>)
    requires |t.jobs| == JOB_CAPACITY
    decreases |ops|
  {
    ops == [] || (Fresh(t, ops[0]) && FreshRun(Apply(t, ops[0]), ops[1..]))
  }

  lemma ApplyKeeps(t: Table, op: Operation)
    requires Good(t) && Fresh(t, op)
    ensures Good(Apply(t, op))
  {
    match op
    case Start(leader, pids, command) =>
      if leader != 0 {
        RememberDisjoint(t, leader, pids, command);
      }
    case End(p) => ForgetKeeps(t, p);
  }

  lemma {:induction false} RunsStayGood(t: Table, ops: seq<Operation>)
    requires Good(t) && FreshRun(t, ops)
    ensures Good(ApplyAll(t, ops))
    decreases |ops|
  {
    if ops != [] {
      ApplyKeeps(t, ops[0]);
      RunsStayGood(Apply(t, ops[0]), ops[1..]);
    }
  }

  /** The job in a slot is neither ended nor replaced by an operation. */
  predicate Spared(t: Table, op: Operation, slot: nat)
    requires |t.jobs| == JOB_CAPACITY && slot < JOB_CAPACITY
  {
    match op
    case Start(leader, _, _) => leader == 0 || SlotFor(t.jobs, leader) != slot
    case End(p) => !Has(t.jobs[slot], p)
  }

  predicate SparedRun(t: Table, ops: seq<Operation>, slot: nat)
    requires |t.jobs| == JOB_CAPACITY && slot < JOB_CAPACITY
    decreases |ops|
  {
    ops == [] || (Spared(t, ops[0], slot) && SparedRun(Apply(t, ops[0]), ops[1..], slot))
  }

  /** A live job is replaced only through one of its processes, or in the first slot of a full table. */
  lemma Replaced(t: Table, leader: nat, slot: nat)
    requires Good(t) && slot < JOB_CAPACITY && t.jobs[slot].active
    ensures SlotFor(t.jobs, leader) == slot <==>
            Has(t.jobs[slot], leader)
            || (slot == 0 && Absent(t.jobs, leader) && forall i :: 0 <= i < JOB_CAPACITY ==> t.jobs[i].active)
  {
    LeaderFresh(t, leader);
  }

  /** A job is found under its processes for as long as it is spared. */
  lemma {:induction false} FoundWhileSpared(t: Table, ops: seq<Operation>, slot: nat, p: nat)
    requires Good(t) && FreshRun(t, ops) && slot < JOB_CAPACITY && SparedRun(t, ops, slot) && Has(t.jobs[slot], p)
    ensures Lookup(ApplyAll(t, ops), p) == Some(t.jobs[slot])
    decreases |ops|
  {
    if ops == [] {
      LookupIs(t, p, slot);
    } else {
      ApplyKeeps(t, ops[0]);
      assert Apply(t, ops[0]).jobs[slot] == t.jobs[slot];
      FoundWhileSpared(Apply(t, ops[0]), ops[1..], slot, p);
    }
  }

  // ---------------------------------------------------------------- the current job

  predicate IsCurrent(jobs: seq<Job>, i: nat) {
    && i < |jobs| && jobs[i].active
    && forall k :: 0 <= k < |jobs| && jobs[k].active ==> jobs[k].jobId <= jobs[i].jobId
  }

  /** A new job becomes the current one exactly when it got a new number, or took over the greatest. */
  lemma NewestIsCurrent(t: Table, leader: nat, pids: seq<nat>, command: string)
    requires Good(t) && leader != 0
    ensures var slot := SlotFor(t.jobs, leader);
            IsCurrent(Remember(t, leader, pids, command).jobs, slot) <==>
              !t.jobs[slot].active || IsCurrent(t.jobs, slot)
  {
    var slot, r := SlotFor(t.jobs, leader), Remember(t, leader, pids, command);
    if t.jobs[slot].active && !IsCurrent(t.jobs, slot) {
      var k :| 0 <= k < |t.jobs| && t.jobs[k].active && t.jobs[k].jobId > t.jobs[slot].jobId;
      assert r.jobs[k].active && r.jobs[k].jobId > r.jobs[slot].jobId;
    }
  }

  /** The table of a new shell after jobs with the processes 1 to n were started. */
  function Started(n: nat): (t: Table)
    ensures |t.jobs| == JOB_CAPACITY
  {
    if n == 0 then Table(seq<Job>(JOB_CAPACITY, (i: nat) => EMPTY), 1) else Remember(Started(n - 1), n, [n], "")
  }

  function Simple(id: nat): Job {
    Job(id, id, id, [id], 0, true, false, "")
  }

  predicate IsStarted(t: Table, n: nat) {
    && |t.jobs| == JOB_CAPACITY && t.next == n + 1
    && forall i :: 0 <= i < JOB_CAPACITY ==> t.jobs[i] == if i < n then Simple(i + 1) else EMPTY
  }

  /** A new process gets the first free slot, and the first slot once all are taken. */
  lemma NextSlot(t: Table, n: nat)
    requires IsStarted(t, n) && n <= JOB_CAPACITY
    ensures SlotFor(t.jobs, n + 1) == if n < JOB_CAPACITY then n else 0
  {
    var having, free := FirstHaving(t.jobs, n + 1, 0), FirstFree(t.jobs, 0);
    assert having < JOB_CAPACITY ==> Has(t.jobs[having], n + 1);
    assert free < JOB_CAPACITY ==> !t.jobs[free].active;
    assert n < JOB_CAPACITY ==> t.jobs[n] == EMPTY;
  }

  lemma {:induction false} StartedIs(n: nat)
    requires n <= JOB_CAPACITY
    ensures IsStarted(Started(n), n)
  {
    if n > 0 {
      StartedIs(n - 1);
      NextSlot(Started(n - 1), n - 1);
    }
  }

  /** After eight starts a ninth job takes over the first slot with its number, and the eighth stays the current one. */
  lemma NinthIsNotCurrent()
    ensures var r := Remember(Started(JOB_CAPACITY), 9, [9], "");
      r.jobs[0].pid == 9 && !IsCurrent(r.jobs, 0) && IsCurrent(r.jobs, 7)
  {
    var t := Started(JOB_CAPACITY);
    StartedIs(JOB_CAPACITY);
    NinthOf(t);
  }

  lemma NinthOf(t: Table)
    requires IsStarted(t, JOB_CAPACITY)
    ensures var r := Remember(t, 9, [9], ""); r.jobs[0].pid == 9 && !IsCurrent(r.jobs, 0) && IsCurrent(r.jobs, 7)
  {
    NextSlot(t, JOB_CAPACITY);
    var r := Remember(t, 9, [9], "");
    assert r.jobs[0].jobId == 1 && r.jobs[7].jobId == 8;
  }

  // ---------------------------------------------------------------- the table in place

  class JobTable {
    const jobs: array<Job>
    var nextJobId: nat

    ghost function Contents(): Table
      reads this, jobs
    {
      Table(jobs[..], nextJobId)
    }

    ghost predicate Valid()
      reads this, jobs
    {
      Good(Contents())
    }

    constructor ()
      ensures Valid() && nextJobId == 1 && forall i :: 0 <= i < jobs.Length ==> !jobs[i].active
    {
      jobs := new Job[JOB_CAPACITY](_ => EMPTY);
      nextJobId := 1;
    }

    static method Lists(j: Job, p: nat) returns (found: bool)
      ensures found == (p in j.pids)
    {
      for k := 0 to |j.pids|
        invariant p !in j.pids[..k]
      {
        if j.pids[k] == p {
          return true;
        }
      }
      return false;
    }

    /** The slot of the job that has a process, or the capacity if none does. */
    method FindJob(p: nat) returns (slot: nat)
      requires jobs.Length == JOB_CAPACITY
      ensures slot == FirstHaving(jobs[..], p, 0)
    {
      slot := 0;
      if p == 0 {
        return JOB_CAPACITY;
      }
      while slot < JOB_CAPACITY
        invariant slot <= JOB_CAPACITY && FirstHaving(jobs[..], p, slot) == FirstHaving(jobs[..], p, 0)
      {
        if jobs[slot].active {
          if jobs[slot].pid == p {
            return;
          }
          var listed := Lists(jobs[slot], p);
          if listed {
            return;
          }
        }
        slot := slot + 1;
      }
    }

    method FindJobId(id: nat) returns (slot: nat)
      requires Valid()
      ensures slot <= JOB_CAPACITY
      ensures if slot < JOB_CAPACITY
              then jobs[slot].active && jobs[slot].jobId == id
              else forall i :: 0 <= i < JOB_CAPACITY && jobs[i].active ==> jobs[i].jobId != id
    {
      if id == 0 {
        return JOB_CAPACITY;
      }
      slot := 0;
      while slot < JOB_CAPACITY
        invariant slot <= JOB_CAPACITY && forall i :: 0 <= i < slot && jobs[i].active ==> jobs[i].jobId != id
      {
        if jobs[slot].active && jobs[slot].jobId == id {
          return;
        }
        slot := slot + 1;
      }
    }

    method CurrentJob() returns (newest: nat)
      requires jobs.Length == JOB_CAPACITY
      ensures if newest < JOB_CAPACITY then IsCurrent(jobs[..], newest)
              else forall i :: 0 <= i < JOB_CAPACITY ==> !jobs[i].active
    {
      newest := JOB_CAPACITY;
      for i := 0 to JOB_CAPACITY
        invariant newest < i || newest == JOB_CAPACITY
        invariant if newest < JOB_CAPACITY
                  then jobs[newest].active && forall k :: 0 <= k < i && jobs[k].active ==>
                    jobs[k].jobId <= jobs[newest].jobId
                  else forall k :: 0 <= k < i ==> !jobs[k].active
      {
        if jobs[i].active && (newest == JOB_CAPACITY || jobs[i].jobId > jobs[newest].jobId) {
          newest := i;
        }
      }
    }

    method ChooseSlot(leader: nat) returns (slot: nat)
      requires jobs.Length == JOB_CAPACITY
      ensures slot == SlotFor(jobs[..], leader)
    {
      slot := FindJob(leader);
      if slot < JOB_CAPACITY {
        return;
      }
      slot := 0;
      while slot < JOB_CAPACITY
        invariant slot <= JOB_CAPACITY && FirstFree(jobs[..], slot) == FirstFree(jobs[..], 0)
      {
        if !jobs[slot].active {
          return;
        }
        slot := slot + 1;
      }
      slot := 0;
    }

    method Fill(leader: nat, pids: seq<nat>, command: string)
      requires Valid() && leader != 0
      modifies this, jobs
      ensures Contents() == Remember(old(Contents()), leader, pids, command)
    {
      var slot := ChooseSlot(leader);
      var id := nextJobId;
      if jobs[slot].active && jobs[slot].jobId != 0 {
        id := jobs[slot].jobId;
      } else {
        nextJobId := nextJobId + 1;
      }
      jobs[slot] := Job(id, leader, leader, pids, 0, true, false, Cut(command));
    }

    method RememberJob(pid: nat, command: string)
      requires Valid()
      modifies this, jobs
      ensures Valid() && Contents() == Remember(old(Contents()), pid, [pid], command)
    {
      if pid == 0 {
        return;
      }
      LeaderFresh(Contents(), pid);
      RememberDisjoint(Contents(), pid, [pid], command);
      Fill(pid, [pid], command);
    }

    /** At most four processes of a pipeline are listed. */
    method RememberPipeline(group: nat, pids: seq<nat>, command: string)
      requires Valid()
      modifies this, jobs
      ensures |pids| == 0 || group == 0 ==> Contents() == old(Contents())
      ensures |pids| > 0 && group != 0 ==>
                var listed := if |pids| > MAX_JOB_PROCESSES then pids[..MAX_JOB_PROCESSES] else pids;
                && Contents() == Remember(old(Contents()), group, listed, command)
                && (Valid() <==> FreshFor(old(jobs[..]), group, listed))
    {
      if group == 0 || |pids| == 0 {
        return;
      }
      var listed := if |pids| > MAX_JOB_PROCESSES then pids[..MAX_JOB_PROCESSES] else pids;
      RememberDisjoint(Contents(), group, listed, command);
      Fill(group, listed, command);
    }

    method ForgetJob(pid: nat)
      requires Valid()
      modifies jobs
      ensures Valid() && Contents() == Forget(old(Contents()), pid)
    {
      ForgetKeeps(Contents(), pid);
      var slot := FindJob(pid);
      if slot < JOB_CAPACITY {
        jobs[slot] := EMPTY;
      }
    }
  }
}
