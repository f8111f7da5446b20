/**
  The process tree of `pstree`: depths found by climbing parent links under a guard, and
  rows printed in passes over the depths.
*/
module Pstree {
  import opened Bytes

  const MAX_PROCESSES := 16

  datatype Process = Process(pid: nat, parentPid: nat, live: bool)

  /** The table as loaded: at most 16 processes, all of them live. */
  predicate Loaded(t: seq<Process>) {
    |t| <= MAX_PROCESSES && forall i :: 0 <= i < |t| ==> t[i].live
  }

  // ---------------------------------------------------------------- parents and ancestors

  function FindFrom(t: seq<Process>, pid: nat, i: nat): (r: nat)
    requires i <= |t|
    ensures i <= r <= |t| && (r < |t| ==> t[r].live && t[r].pid == pid)
    ensures forall k :: i <= k < r ==> !(t[k].live && t[k].pid == pid)
    decreases |t| - i
  {
    if i == |t| || (t[i].live && t[i].pid == pid) then i else FindFrom(t, pid, i + 1)
  }

  /** The row of the parent; roots, orphans and processes that are their own parent have none. */
  function Parent(t: seq<Process>, i: nat): (p: Option<nat>)
    requires i < |t|
    ensures p.Some? ==> p.value < |t| && p.value != i
  {
    var p := FindFrom(t, t[i].parentPid, 0);
    if t[i].parentPid == 0 || p == |t| || p == i then None else Some(p)
  }

  /** With distinct pids the parent is the process the link names. */
  lemma ParentNamed(t: seq<Process>, i: nat, p: nat)
    requires Loaded(t) && i < |t| && p < |t| && forall a, b :: 0 <= a < b < |t| ==> t[a].pid != t[b].pid
    ensures Parent(t, i) == Some(p) <==> t[i].parentPid != 0 && t[p].pid == t[i].parentPid && p != i
  {
  }

  /** The n-th ancestor. */
  function Ancestor(t: seq<Process>, i: nat, n: nat): (a: Option<nat>)
    requires i < |t|
    ensures a.Some? ==> a.value < |t|
    decreases n
  {
    if n == 0 then Some(i)
    else
      var p := Parent(t, i);
      if p == None then None else Ancestor(t, p.value, n - 1)
  }

  /** No process is a proper ancestor of itself. */
  ghost predicate Acyclic(t: seq<Process>) {
    forall i: nat, n: nat :: i < |t| && n > 0 ==> Ancestor(t, i, n) != Some(i)
  }

  /** Parents climbed before a root, or before the guard runs out. */
  function Climb(t: seq<Process>, i: nat, guard: nat): (d: nat)
    requires i < |t|
    ensures d <= guard
    decreases guard
  {
    if guard == 0 || Parent(t, i) == None then 0 else 1 + Climb(t, Parent(t, i).value, guard - 1)
  }

  function Depth(t: seq<Process>, i: nat): nat
    requires i < |t|
  {
    Climb(t, i, |t|)
  }

  lemma {:induction false} ClimbReaches(t: seq<Process>, i: nat, guard: nat, n: nat)
    requires i < |t|
    ensures n <= Climb(t, i, guard) ==> Ancestor(t, i, n).Some?
    ensures Climb(t, i, guard) < n && Climb(t, i, guard) < guard ==> Ancestor(t, i, n) == None
    decreases guard, n
  {
    if n > 0 && guard > 0 && Parent(t, i).Some? {
      ClimbReaches(t, Parent(t, i).value, guard - 1, n - 1);
    }
  }

  /** Below the guard, the depth is the number of ancestors. */
  lemma DepthCounts(t: seq<Process>, i: nat)
    requires i < |t| && Depth(t, i) < |t|
    ensures forall n: nat :: Ancestor(t, i, n).Some? <==> n <= Depth(t, i)
  {
    forall n: nat ensures Ancestor(t, i, n).Some? <==> n <= Depth(t, i) {
      ClimbReaches(t, i, |t|, n);
    }
  }

  // ---------------------------------------------------------------- the guard suffices

  lemma {:induction false} AncestorAdds(t: seq<Process>, i: nat, a: nat, b: nat)
    requires i < |t| && Ancestor(t, i, a).Some?
    ensures Ancestor(t, i, a + b) == Ancestor(t, Ancestor(t, i, a).value, b)
    decreases a
  {
    if a > 0 {
      AncestorAdds(t, Parent(t, i).value, a - 1, b);
    }
  }

  /** More numbers below n than n: two are equal. */
  lemma {:induction false} Pigeonhole(s: seq<nat>, n: nat) returns (a: nat, b: nat)
    requires |s| > n && forall i :: 0 <= i < |s| ==> s[i] < n
    ensures a < b < |s| && s[a] == s[b]
    decreases n
  {
    var last := s[|s| - 1];
    if i :| 0 <= i < |s| - 1 && s[i] == last {
      return i, |s| - 1;
    }
    // the last number occurs once: close its gap and look at the others
    var rest := seq<nat>(|s| - 1, (i: nat) requires i < |s| - 1 => if s[i] > last then s[i] - 1 else s[i]);
    a, b := Pigeonhole(rest, n - 1);
  }

  ghost function Chain(t: seq<Process>, i: nat, n: nat): (s: seq<nat>)
    requires i < |t| && forall k: nat :: k < n ==> Ancestor(t, i, k).Some?
    ensures |s| == n && forall k :: 0 <= k < n ==> s[k] == Ancestor(t, i, k).value
  {
    seq<nat>(n, (k: nat) requires k < n => Ancestor(t, i, k).value)
  }

  /** Only a process below a cycle uses up the guard. */
  lemma CycleFound(t: seq<Process>, i: nat)
    requires i < |t| && Depth(t, i) == |t|
    ensures !Acyclic(t)
  {
    forall k: nat | k < |t| + 1 ensures Ancestor(t, i, k).Some? {
      ClimbReaches(t, i, |t|, k);
    }
    var s := Chain(t, i, |t| + 1);
    var a, b := Pigeonhole(s, |t|);
    AncestorAdds(t, i, a, b - a);
    assert Ancestor(t, s[a], b - a) == Some(s[a]);
  }

  lemma {:induction false} AroundAgain(t: seq<Process>, i: nat, n: nat, k: nat)
    requires i < |t| && n > 0 && Ancestor(t, i, n) == Some(i)
    ensures Ancestor(t, i, k * n) == Some(i)
  {
    if k > 0 {
      AroundAgain(t, i, n, k - 1);
      AncestorAdds(t, i, (k - 1) * n, n);
      assert (k - 1) * n + n == k * n;
    }
  }

  lemma CycleUsesGuard(t: seq<Process>, i: nat, n: nat)
    requires i < |t| && n > 0 && Ancestor(t, i, n) == Some(i)
    ensures Depth(t, i) == |t|
  {
    AtLeast(|t|, n);
    AroundAgain(t, i, n, |t|);
    ClimbReaches(t, i, |t|, |t| * n);
  }

  lemma {:induction false} AtLeast(a: nat, n: nat)
    requires n > 0
    ensures a * n >= a
  {
  }

  /** All depths are below the table size exactly when the links have no cycle. */
  lemma DepthsBounded(t: seq<Process>)
    ensures Acyclic(t) <==> forall i :: 0 <= i < |t| ==> Depth(t, i) < |t|
  {
    forall i: nat | i < |t| && Depth(t, i) == |t| ensures !Acyclic(t) {
      CycleFound(t, i);
    }
    forall i: nat, n: nat | i < |t| && n > 0 && Ancestor(t, i, n) == Some(i) ensures Depth(t, i) == |t| {
      CycleUsesGuard(t, i, n);
    }
  }

  /** A child is one deeper than its parent. */
  lemma ChildDeeper(t: seq<Process>, i: nat, p: nat)
    requires i < |t| && Acyclic(t) && Parent(t, i) == Some(p)
    ensures Depth(t, i) == Depth(t, p) + 1
  {
    DepthsBounded(t);
    DepthCounts(t, i);
    DepthCounts(t, p);
    assert forall n: nat :: Ancestor(t, i, n + 1) == Ancestor(t, p, n);
    assert Ancestor(t, p, Depth(t, p)).Some? && Ancestor(t, i, Depth(t, p) + 1).Some?;
    var d := Depth(t, p) + 1;
    assert Ancestor(t, p, d) == None && Ancestor(t, i, d + 1) == None;
  }

  // ---------------------------------------------------------------- the program

  function Children(t: seq<Process>, pid: nat): set<nat> {
    set i: nat | i < |t| && t[i].live && t[i].parentPid == pid
  }

  /** With distinct pids, the children counted are the processes that have this one as their parent, and itself if it
      names itself. */
  lemma ChildrenNamed(t: seq<Process>, p: nat, i: nat)
    requires Loaded(t) && i < |t| && p < |t| && t[p].pid != 0
    requires forall a, b :: 0 <= a < b < |t| ==> t[a].pid != t[b].pid
    ensures i in Children(t, t[p].pid) <==> Parent(t, i) == Some(p) || (i == p && t[i].parentPid == t[i].pid)
  {
    ParentNamed(t, i, p);
  }

  method FindByPid(t: seq<Process>, pid: nat) returns (r: nat)
    ensures r == FindFrom(t, pid, 0)
  {
    r := 0;
    while r < |t|
      invariant r <= |t| && FindFrom(t, pid, r) == FindFrom(t, pid, 0)
    {
      if t[r].live && t[r].pid == pid {
        return;
      }
      r := r + 1;
    }
  }

  method ProcessDepth(t: seq<Process>, index: nat) returns (depth: nat)
    requires index < |t|
    ensures depth == Depth(t, index)
  {
    depth := 0;
    var current: nat := index;
    for guard := 0 to |t|
      invariant current < |t| && depth + Climb(t, current, |t| - guard) == Depth(t, index)
    {
      var parentPid := t[current].parentPid;
      if parentPid == 0 {
        return;
      }
      var parent := FindByPid(t, parentPid);
      if parent >= |t| || parent == current {
        return;
      }
      current := parent;
      depth := depth + 1;
    }
  }

  method ChildCount(t: seq<Process>, pid: nat) returns (children: nat)
    ensures children == |Children(t, pid)|
  {
    children := 0;
    ghost var seen: set<nat> := {};
    for i := 0 to |t|
      invariant seen == set k: nat | k < i && t[k].live && t[k].parentPid == pid
      invariant children == |seen|
    {
      if t[i].live && t[i].parentPid == pid {
        children := children + 1;
        seen := seen + {i};
      }
    }
    assert seen == Children(t, pid);
  }

  datatype Row = Row(index: nat, depth: nat, children: nat)

  predicate RightRow(t: seq<Process>, r: Row) {
    r.index < |t| && r.depth == Depth(t, r.index) && r.children == |Children(t, t[r.index].pid)|
  }

  /** Printed before: a smaller depth, or the same depth and an earlier place in the table. */
  predicate Before(a: Row, b: Row) {
    a.depth < b.depth || (a.depth == b.depth && a.index < b.index)
  }

  predicate Ordered(rows: seq<Row>) {
    forall a, b :: 0 <= a < b < |rows| ==> Before(rows[a], rows[b])
  }

  predicate Printed(rows: seq<Row>, i: nat) {
    exists k :: 0 <= k < |rows| && rows[k].index == i
  }

  method PrintPass(t: seq<Process>, pass: nat, before: seq<Row>) returns (rows: seq<Row>, wrote: bool)
    requires Ordered(before) && forall k :: 0 <= k < |before| ==> RightRow(t, before[k]) && before[k].depth < pass
    ensures Ordered(rows) && before <= rows && wrote == (|rows| > |before|)
    ensures forall k :: 0 <= k < |rows| ==> RightRow(t, rows[k]) && rows[k].depth <= pass
    ensures forall i :: 0 <= i < |t| && Depth(t, i) == pass ==> Printed(rows, i)
  {
    rows, wrote := before, false;
    for i := 0 to |t|
      invariant Ordered(rows) && before <= rows && wrote == (|rows| > |before|)
      invariant forall k :: 0 <= k < |rows| ==> RightRow(t, rows[k]) && rows[k].depth <= pass
      invariant forall k :: 0 <= k < |rows| && rows[k].depth == pass ==> rows[k].index < i
      invariant forall k :: 0 <= k < i && Depth(t, k) == pass ==> Printed(rows, k)
    {
      var depth := ProcessDepth(t, i);
      if depth == pass {
        var children := ChildCount(t, t[i].pid);
        ghost var shorter := rows;
        rows, wrote := rows + [Row(i, depth, children)], true;
        assert rows[|shorter|].index == i;
        assert forall k :: 0 <= k < |shorter| ==> rows[k] == shorter[k];
      }
    }
  }

  /** The rows come in passes; every process of depth below 16 gets one, in one place. */
  method PrintTree(t: seq<Process>) returns (rows: seq<Row>)
    requires Loaded(t)
    ensures Ordered(rows) && forall k :: 0 <= k < |rows| ==> RightRow(t, rows[k])
    ensures forall i :: 0 <= i < |t| ==> (Printed(rows, i) <==> Depth(t, i) < MAX_PROCESSES)
  {
    rows := [];
    for pass := 0 to MAX_PROCESSES
      invariant Ordered(rows) && forall k :: 0 <= k < |rows| ==> RightRow(t, rows[k]) && rows[k].depth < pass
      invariant forall i :: 0 <= i < |t| && Depth(t, i) < pass ==> Printed(rows, i)
    {
      var more, wrote := PrintPass(t, pass, rows);
      forall i | 0 <= i < |t| && Printed(rows, i) ensures Printed(more, i) {
        var k :| 0 <= k < |rows| && rows[k].index == i;
        assert more[k].index == i;
      }
      rows := more;
      if !wrote && pass > |t| {
        break;
      }
    }
  }

  /** Every process is printed exactly when the table has room to spare or its links have no cycle. */
  lemma AllPrinted(t: seq<Process>)
    requires Loaded(t)
    ensures (forall i :: 0 <= i < |t| ==> Depth(t, i) < MAX_PROCESSES) <==> |t| < MAX_PROCESSES || Acyclic(t)
  {
    DepthsBounded(t);
  }

  /** Rows are unique, and a parent's row comes before its children's. */
  lemma ParentsFirst(t: seq<Process>, rows: seq<Row>, a: nat, b: nat)
    requires Acyclic(t) && Ordered(rows) && forall k :: 0 <= k < |rows| ==> RightRow(t, rows[k])
    requires a < |rows| && b < |rows| && RightRow(t, rows[b])
    ensures rows[a].index == rows[b].index ==> a == b
    ensures Parent(t, rows[b].index) == Some(rows[a].index) ==> a < b
  {
    assert a < b ==> Before(rows[a], rows[b]);
    assert b < a ==> Before(rows[b], rows[a]);
    if Parent(t, rows[b].index) == Some(rows[a].index) {
      ChildDeeper(t, rows[b].index, rows[a].index);
    }
  }

  /** Sixteen processes, each the parent of the next and the last of the first. */
  function Circle(): (t: seq<Process>)
    ensures |t| == MAX_PROCESSES && forall i :: 0 <= i < |t| ==> t[i] == Process(i + 1, if i == 0 then 16 else i, true)
  {
    seq<Process>(MAX_PROCESSES, (i: nat) => Process(i + 1, if i == 0 then 16 else i, true))
  }

  predicate IsCircle(t: seq<Process>) {
    |t| == MAX_PROCESSES && forall i :: 0 <= i < |t| ==> t[i] == Process(i + 1, if i == 0 then 16 else i, true)
  }

  lemma CircleParent(t: seq<Process>, i: nat)
    requires IsCircle(t) && i < MAX_PROCESSES
    ensures Parent(t, i) == Some(if i == 0 then 15 else i - 1)
  {
    ParentNamed(t, i, if i == 0 then 15 else i - 1);
  }

  ghost predicate GoesBack(t: seq<Process>, i: nat, n: nat, a: nat)
    requires i < |t|
  {
    Ancestor(t, i, n) == Some(a)
  }

  lemma {:induction false} OneFurther(t: seq<Process>, i: nat, n: nat, p: nat, a: nat)
    requires i < |t| && p < |t| && Parent(t, i) == Some(p) && GoesBack(t, p, n, a)
    ensures GoesBack(t, i, n + 1, a)
  {
  }

  lemma {:induction false} CircleAncestor(t: seq<Process>, i: nat, n: nat)
    requires IsCircle(t) && i < MAX_PROCESSES && n <= MAX_PROCESSES
    ensures GoesBack(t, i, n, if n <= i then i - n else i + 16 - n)
    decreases n
  {
    if n > 0 {
      var p := if i == 0 then 15 else i - 1;
      CircleParent(t, i);
      CircleAncestor(t, p, n - 1);
      OneFurther(t, i, n - 1, p, if n <= i then i - n else i + 16 - n);
    }
  }

  /** Of such a table nothing is printed. */
  lemma NoneOfCircle(i: nat)
    requires i < MAX_PROCESSES
    ensures Loaded(Circle()) && Depth(Circle(), i) == MAX_PROCESSES
  {
    CircleAncestor(Circle(), i, MAX_PROCESSES);
    CycleUsesGuard(Circle(), i, MAX_PROCESSES);
  }
}
