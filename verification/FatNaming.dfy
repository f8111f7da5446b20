/**
  From a host directory tree to a tree with recorded names.  Children are named in
  order; each choice depends on the short names already taken in the directory.
*/
module FatNaming {
  import opened Bytes
  import opened FatRecords
  import opened FatReader
  import opened FatLayout

  /** A source tree; children are listed in the order in which the builder visits them. */
  datatype Host = HostFile(name: FileName, data: seq<byte>) | HostDir(name: FileName, kids: seq<Host>)

  const DOT_NAMES: set<seq<byte>> := {DOT, DOTDOT}

  function Shorts(nodes: seq<Node>): set<seq<byte>> {
    set n | n in nodes :: n.naming.short
  }

  function HostSize(h: Host): nat {
    if h.HostDir? then 0 else |h.data|
  }

  function NameKid(h: Host, naming: Naming): (r: Option<Node>)
    requires PlainShort(naming.short)
    ensures r.Some? ==> r.value.name == h.name && r.value.naming == naming
    ensures r.Some? ==> r.value.Dir? == h.HostDir? && SizeOf(r.value) == HostSize(h)
    ensures r.Some? && h.HostFile? ==> r.value.data == h.data
    decreases h, 1
  {
    if (naming.long && !SixteenBit(h.name)) || HostSize(h) >= 0x1_0000_0000 then None
    else
      match h
      case HostFile(name, data) => Some(File(name, naming, data))
      case HostDir(name, kids) =>
        match NameKids(kids, |kids|, DOT_NAMES)
        case None => None
        case Some(nodes) => Some(Dir(name, naming, nodes))
  }

  /** The first `j` children, named; None if one of them cannot be recorded. */
  function NameKids(hosts: seq<Host>, j: nat, used: set<seq<byte>>): (r: Option<seq<Node>>)
    requires j <= |hosts|
    ensures r.Some? ==> |r.value| == j
    decreases hosts, 0, j
  {
    if j == 0 then Some([])
    else
      match NameKids(hosts, j - 1, used)
      case None => None
      case Some(front) =>
        match NameNext(hosts[j - 1], used + Shorts(front))
        case None => None
        case Some(node) => Some(front + [node])
  }

  function NameNext(h: Host, used: set<seq<byte>>): Option<Node>
    decreases h, 2
  {
    match ChooseName(h.name, used)
    case None => None
    case Some(naming) => NameKid(h, naming)
  }

  /** `nodes` are the first `j` children, named. */
  ghost predicate NamedAs(hosts: seq<Host>, j: nat, used: set<seq<byte>>, nodes: seq<Node>) {
    j <= |hosts| && NameKids(hosts, j, used) == Some(nodes)
  }

  /** Whatever can be named can be recorded. */
  lemma {:induction false} KidBuildable(h: Host, naming: Naming)
    requires PlainShort(naming.short)
    ensures NameKid(h, naming).Some? ==> Buildable(NameKid(h, naming).value)
    decreases h, 0
  {
    if h.HostDir? {
      KidsBuildable(h.kids, DOT_NAMES);
    }
  }

  lemma NextBuildable(h: Host, used: set<seq<byte>>, n: Node)
    requires NameNext(h, used) == Some(n)
    ensures Buildable(n)
    decreases h, 1
  {
    KidBuildable(h, ChooseName(h.name, used).value);
  }

  lemma {:induction false} NamedBuildable(hosts: seq<Host>, j: nat, used: set<seq<byte>>, nodes: seq<Node>)
    requires NamedAs(hosts, j, used, nodes)
    ensures AllBuildable(nodes)
    decreases hosts, j, 0
  {
    if j > 0 {
      var front, n := nodes[..j - 1], nodes[j - 1];
      NameKidsInit(hosts, j - 1, used, nodes, front);
      LastNamed(hosts, j - 1, used, front, nodes);
      NamedBuildable(hosts, j - 1, used, front);
      NextBuildable(hosts[j - 1], used + Shorts(front), n);
      BuildableAppend(front, n);
      assert nodes == front + [n];
    }
  }

  lemma KidsBuildable(hosts: seq<Host>, used: set<seq<byte>>)
    ensures NameKids(hosts, |hosts|, used).Some? ==> AllBuildable(NameKids(hosts, |hosts|, used).value)
    decreases hosts, |hosts|, 1
  {
    if NameKids(hosts, |hosts|, used).Some? {
      NamedBuildable(hosts, |hosts|, used, NameKids(hosts, |hosts|, used).value);
    }
  }

  lemma BuildableAppend(front: seq<Node>, n: Node)
    requires AllBuildable(front) && Buildable(n)
    ensures AllBuildable(front + [n])
  {
    var all := front + [n];
    forall j | 0 <= j < |all| ensures Buildable(all[j]) {
      assert j < |front| ==> all[j] == front[j];
    }
  }

  lemma NameKidsNext(hosts: seq<Host>, j: nat, front: seq<Node>, n: Node, used: set<seq<byte>>)
    requires j < |hosts| && NamedAs(hosts, j, used, front)
    requires NameNext(hosts[j], used + Shorts(front)) == Some(n)
    ensures NamedAs(hosts, j + 1, used, front + [n])
  {
  }

  lemma ShortsOfAppend(front: seq<Node>, n: Node)
    ensures Shorts(front + [n]) == Shorts(front) + {n.naming.short}
  {
    var all := front + [n];
    assert all[|front|] == n;
    forall short | short in Shorts(front) ensures short in Shorts(all) {
      var i :| 0 <= i < |front| && front[i].naming.short == short;
      assert all[i] == front[i];
    }
  }

  lemma NameKidsInit(hosts: seq<Host>, j: nat, used: set<seq<byte>>, nodes: seq<Node>, front: seq<Node>)
    requires NamedAs(hosts, j + 1, used, nodes) && j < |nodes| && front == nodes[..j]
    ensures NamedAs(hosts, j, used, front)
  {
    assert front == NameKids(hosts, j, used).value;
  }

  lemma TakeTake(nodes: seq<Node>, i: nat, j: nat)
    requires i <= j <= |nodes|
    ensures nodes[..j][..i] == nodes[..i]
  {
  }

  /** Naming is done front to back: a prefix of the children is named the same way on its own. */
  lemma {:induction false} NameKidsPrefix(hosts: seq<Host>, i: nat, j: nat, used: set<seq<byte>>, all: seq<Node>)
    requires i <= j && NamedAs(hosts, j, used, all)
    ensures NamedAs(hosts, i, used, all[..i])
    decreases j - i
  {
    if i == j {
      assert all[..i] == all;
    } else {
      NameKidsPrefix(hosts, i + 1, j, used, all);
      TakeTake(all, i, i + 1);
      NameKidsInit(hosts, i, used, all[..i + 1], all[..i]);
    }
  }

  // ---------------------------------------------------------------- stored names that collide

  predicate DistinctShorts(nodes: seq<Node>) {
    forall i, j :: 0 <= i < j < |nodes| ==> nodes[i].naming.short != nodes[j].naming.short
  }

  /** An 8.3 name whose stored form is taken is stored again all the same. */
  predicate Repeats(h: Host, used: set<seq<byte>>) {
    IsShortName(h.name) && ShortName(h.name) in used
  }

  ghost predicate NoneRepeats(hosts: seq<Host>, nodes: seq<Node>, used: set<seq<byte>>, j: nat)
    requires j <= |hosts| && j <= |nodes|
  {
    forall i :: 0 <= i < j ==> !RepeatsAt(hosts, nodes, used, i)
  }

  ghost predicate RepeatsAt(hosts: seq<Host>, nodes: seq<Node>, used: set<seq<byte>>, i: nat)
    requires i < |hosts| && i < |nodes|
  {
    Repeats(hosts[i], used + Shorts(nodes[..i]))
  }

  lemma RepeatsExactly(h: Host, used: set<seq<byte>>, shorts: set<seq<byte>>, n: Node)
    requires NameNext(h, used + shorts) == Some(n) && (forall s :: s in used ==> !PlainShort(s))
    ensures n.naming.short in shorts <==> Repeats(h, used + shorts)
  {
    assert PlainShort(n.naming.short);
  }

  predicate FreshShort(nodes: seq<Node>, i: nat)
    requires i < |nodes|
  {
    nodes[i].naming.short !in Shorts(nodes[..i])
  }

  lemma FreshDiffers(nodes: seq<Node>, i: nat, j: nat)
    requires i < j < |nodes| && FreshShort(nodes, j)
    ensures nodes[i].naming.short != nodes[j].naming.short
  {
    assert nodes[..j][i] == nodes[i];
    assert nodes[i] in nodes[..j];
  }

  lemma DistinctIsFresh(nodes: seq<Node>, j: nat)
    requires j < |nodes| && DistinctShorts(nodes)
    ensures FreshShort(nodes, j)
  {
    forall n | n in nodes[..j] ensures n.naming.short != nodes[j].naming.short {
      var i :| 0 <= i < j && nodes[..j][i] == n;
      assert nodes[i] == n;
    }
  }

  /** Every child is named after the ones before it. */
  lemma NamedAfter(hosts: seq<Host>, i: nat, j: nat, used: set<seq<byte>>, nodes: seq<Node>)
    requires i < j && NamedAs(hosts, j, used, nodes)
    ensures NameNext(hosts[i], used + Shorts(nodes[..i])) == Some(nodes[i])
  {
    NameKidsPrefix(hosts, i, j, used, nodes);
    NameKidsPrefix(hosts, i + 1, j, used, nodes);
    LastNamed(hosts, i, used, nodes[..i], nodes[..i + 1]);
  }

  lemma LastNamed(hosts: seq<Host>, i: nat, used: set<seq<byte>>, front: seq<Node>, all: seq<Node>)
    requires NamedAs(hosts, i, used, front) && NamedAs(hosts, i + 1, used, all)
    ensures NameNext(hosts[i], used + Shorts(front)) == Some(all[i])
  {
  }

  lemma FreshExactly(hosts: seq<Host>, i: nat, j: nat, used: set<seq<byte>>, nodes: seq<Node>)
    requires i < j && NamedAs(hosts, j, used, nodes) && (forall s :: s in used ==> !PlainShort(s))
    ensures FreshShort(nodes, i) <==> !RepeatsAt(hosts, nodes, used, i)
  {
    NamedAfter(hosts, i, j, used, nodes);
    RepeatsExactly(hosts[i], used, Shorts(nodes[..i]), nodes[i]);
  }

  /** The stored 8.3 names of a directory are distinct exactly when no 8.3 name among its children repeats one. */
  lemma ShortsDistinctExactly(hosts: seq<Host>, j: nat, used: set<seq<byte>>, nodes: seq<Node>)
    requires NamedAs(hosts, j, used, nodes) && (forall s :: s in used ==> !PlainShort(s))
    ensures DistinctShorts(nodes) <==> NoneRepeats(hosts, nodes, used, j)
  {
    forall i | 0 <= i < j ensures FreshShort(nodes, i) <==> !RepeatsAt(hosts, nodes, used, i) {
      FreshExactly(hosts, i, j, used, nodes);
    }
    if DistinctShorts(nodes) {
      forall i | 0 <= i < j ensures FreshShort(nodes, i) {
        DistinctIsFresh(nodes, i);
      }
    }
    if NoneRepeats(hosts, nodes, used, j) {
      forall a, b | 0 <= a < b < j ensures nodes[a].naming.short != nodes[b].naming.short {
        assert !RepeatsAt(hosts, nodes, used, b);
        FreshDiffers(nodes, a, b);
      }
    }
  }

  lemma TwinsCollide(a: FileName, b: FileName)
    requires IsShortName(a) && IsShortName(b) && ShortName(a) == ShortName(b) && SixteenBit(b)
    ensures var hosts := [HostFile(a, []), HostFile(b, [])];
      NameKids(hosts, 2, {}).Some? && !DistinctShorts(NameKids(hosts, 2, {}).value)
  {
    var hosts := [HostFile(a, []), HostFile(b, [])];
    var first := File(a, Naming(ShortName(a), false), []);
    var second := File(b, Naming(ShortName(b), true), []);
    assert NameNext(hosts[0], {} + Shorts([])) == Some(first);
    NameKidsNext(hosts, 0, [], first, {});
    assert [] + [first] == [first];
    assert first in [first] && ShortName(b) in Shorts([first]);
    assert NameNext(hosts[1], {} + Shorts([first])) == Some(second);
    NameKidsNext(hosts, 1, [first], second, {});
    var nodes := [first] + [second];
    assert nodes[0].naming.short == nodes[1].naming.short;
  }

  /** Two files that differ in case only are stored under one 8.3 name. */
  lemma CaseTwins()
    ensures var hosts := [HostFile("A", []), HostFile("a", [])];
      NameKids(hosts, 2, {}).Some? && !DistinctShorts(NameKids(hosts, 2, {}).value)
  {
    assert LastDot("A") == 1 && LastDot("a") == 1;
    assert Base("A") == "A" && Base("a") == "a" && Ext("A") == "" && Ext("a") == "";
    assert Upper("A") == "A" && Upper("a") == "A";
    TwinsCollide("A", "a");
  }
}
