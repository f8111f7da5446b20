/**
  What the names of a source tree look like when they are read back: a long name as it
  is, an 8.3 name in capitals.  `Shows` compares what a reader finds with the source tree
  itself, without the builder's choice of names.
*/
module FatNames {
  import opened Bytes
  import opened FatRecords
  import opened FatReader
  import opened FatLayout
  import opened FatNaming

  // ---------------------------------------------------------------- capitals

  function Capital(c: char): char {
    if 'a' <= c <= 'z' then (c as int - 32) as char else c
  }

  function InCapitals(s: string): (r: string)
    ensures |r| == |s| && forall i :: 0 <= i < |s| ==> r[i] == Capital(s[i])
  {
    seq<char>(|s|, (i: nat) requires i < |s| => Capital(s[i]))
  }

  predicate IsAscii(s: string) {
    forall i :: 0 <= i < |s| ==> (s[i] as int) < 0x80
  }

  lemma {:induction false} UpperOfAscii(s: string)
    requires IsAscii(s)
    ensures Upper(s) == InCapitals(s)
  {
    if s != "" {
      UpperOfAscii(s[1..]);
      assert InCapitals(s) == [Capital(s[0])] + InCapitals(s[1..]);
    }
  }

  lemma CapitalsOfParts(b: string, e: string)
    ensures InCapitals(b) + "." + InCapitals(e) == InCapitals(b + "." + e)
  {
  }

  lemma SplitAt(name: string, k: nat)
    requires k < |name| && name[k] == '.'
    ensures name == name[..k] + "." + name[k + 1..]
  {
  }

  lemma AsciiParts(name: string)
    requires IsAscii(name)
    ensures Upper(Base(name)) == InCapitals(Base(name)) && Upper(Ext(name)) == InCapitals(Ext(name))
  {
    UpperOfAscii(Base(name));
    UpperOfAscii(Ext(name));
  }

  lemma DottedCapitals(name: string, b: string, e: string)
    requires name == b + "." + e && '.' !in e
    ensures InCapitals(b) + (if e == "" then "" else "." + InCapitals(e))
         == InCapitals(if name[|name| - 1] == '.' then name[..|name| - 1] else name)
  {
    CapitalsOfParts(b, e);
    if e == "" {
      assert name[..|name| - 1] == b;
    } else {
      assert name[|name| - 1] == e[|e| - 1];
      assert InCapitals(b) + "." + InCapitals(e) == InCapitals(b) + ("." + InCapitals(e));
    }
  }

  /** The capitals of an ASCII name, character by character; a dot at its end is lost. */
  lemma CapitalsOfAscii(name: string)
    requires IsAscii(name)
    ensures Capitals(name) == InCapitals(if name != "" && name[|name| - 1] == '.' then name[..|name| - 1] else name)
  {
    var b, e := Base(name), Ext(name);
    AsciiParts(name);
    if LastDot(name) == |name| {
      NoDot(name);
      assert b == name;
    } else {
      SplitAt(name, LastDot(name));
      DottedCapitals(name, b, e);
    }
  }

  lemma DottedParts(b: string, e: string)
    requires '.' !in e
    ensures Base(b + "." + e) == b && Ext(b + "." + e) == e
  {
    var name := b + "." + e;
    assert name[|b|] == '.' && forall i :: |b| < i < |name| ==> name[i] in e;
    NoDot(name);
  }

  lemma UndottedParts(b: string)
    requires '.' !in b
    ensures Base(b) == b && Ext(b) == ""
  {
    NoDot(b);
  }

  predicate AllAllowed(s: string) {
    forall c :: c in s ==> Allowed(c)
  }

  function Dotted(b: string, e: string): string {
    b + if e == "" then "" else "." + e
  }

  lemma DottedSplits(b: string, e: string)
    requires AllAllowed(b) && AllAllowed(e)
    ensures Base(Dotted(b, e)) == b && Ext(Dotted(b, e)) == e
  {
    if e == "" {
      UndottedParts(b);
    } else {
      DottedParts(b, e);
      assert b + "." + e == b + ("." + e);
    }
  }

  /** Up to eight and up to three capitals, digits and marks, with a dot between them, are an 8.3 name. */
  lemma EightAndThree(b: string, e: string)
    requires 0 < |b| <= 8 && |e| <= 3 && AllAllowed(b) && AllAllowed(e)
    ensures IsShortName(Dotted(b, e)) && Capitals(Dotted(b, e)) == Dotted(b, e)
    ensures ShortName(Dotted(b, e)) == PadTo(Ascii(b), 8) + PadTo(Ascii(e), 3)
  {
    DottedSplits(b, e);
    UpperAllowed(b);
    UpperAllowed(e);
  }

  lemma ShortParts(name: string)
    requires IsShortName(name)
    ensures var b, e := Upper(Base(name)), Upper(Ext(name));
      && 0 < |b| <= 8 && |e| <= 3 && AllAllowed(b) && AllAllowed(e)
      && Capitals(name) == Dotted(b, e) && ShortName(name) == PadTo(Ascii(b), 8) + PadTo(Ascii(e), 3)
  {
    var b, e := Upper(Base(name)), Upper(Ext(name));
    forall c | c in b ensures Allowed(c) {
      assert c in b + e;
    }
    forall c | c in e ensures Allowed(c) {
      assert c in b + e;
    }
    UpperEmpty(Ext(name));
  }

  /** An 8.3 name and its capitals are stored alike. */
  lemma CapitalsAgain(name: string)
    requires IsShortName(name)
    ensures IsShortName(Capitals(name)) && ShortName(Capitals(name)) == ShortName(name)
  {
    ShortParts(name);
    EightAndThree(Upper(Base(name)), Upper(Ext(name)));
  }

  lemma SameCapitals(a: string, b: string)
    requires IsShortName(a) && IsShortName(b) && Capitals(a) == Capitals(b)
    ensures ShortName(a) == ShortName(b)
  {
    ShortParts(a);
    ShortParts(b);
    DottedSplits(Upper(Base(a)), Upper(Ext(a)));
    DottedSplits(Upper(Base(b)), Upper(Ext(b)));
  }

  lemma CodeUnitsDiffer(a: string, b: string)
    ensures CodeUnits(a) == CodeUnits(b) <==> a == b
  {
    if CodeUnits(a) == CodeUnits(b) {
      forall i | 0 <= i < |a| ensures a[i] == b[i] {
        assert CodeUnits(a)[i] == CodeUnits(b)[i];
      }
    }
  }

  // ---------------------------------------------------------------- the source tree, read back

  /** A name is shown as it is or, if it is an 8.3 name, in capitals. */
  ghost predicate ShownAs(units: seq<nat>, name: string) {
    units == CodeUnits(name) || (IsShortName(name) && units == CodeUnits(Capitals(name)))
  }

  /** What a reader found is an object of the source tree: its name, its bytes, its children in order. */
  ghost predicate Shows(o: Object, h: Host)
    decreases h, 1
  {
    match h
    case HostFile(name, data) => o.FileObject? && ShownAs(o.name, name) && o.data == data
    case HostDir(name, kids) => o.DirObject? && ShownAs(o.name, name) && ShowsAll(o.kids, kids)
  }

  ghost predicate ShowsAll(objects: seq<Object>, hosts: seq<Host>)
    decreases hosts, 0
  {
    |objects| == |hosts| && forall i :: 0 <= i < |hosts| ==> Shows(objects[i], hosts[i])
  }

  /** An image reads back as a source tree. */
  ghost predicate ReadsBack(image: seq<byte>, hosts: seq<Host>) {
    match ReadVolume(image)
    case Err => false
    case Ok(objects) => ShowsAll(objects, hosts)
  }

  /** How a child comes by its naming. */
  lemma ChosenNaming(h: Host, used: set<seq<byte>>, n: Node)
    requires NameNext(h, used) == Some(n)
    ensures n.name == h.name && (!n.naming.long ==> IsShortName(h.name))
    ensures IsShortName(h.name) ==> n.naming.short == ShortName(h.name) && (n.naming.long <==> n.naming.short in used)
  {
  }

  lemma NameShown(h: Host, used: set<seq<byte>>, n: Node)
    requires NameNext(h, used) == Some(n)
    ensures StoredName(n.name, n.naming) == CodeUnits(if n.naming.long then h.name else Capitals(h.name))
    ensures ShownAs(StoredName(n.name, n.naming), h.name)
  {
    ChosenNaming(h, used, n);
    if !n.naming.long {
      ShortNameShown(h.name);
    }
  }

  lemma ContentNamed(h: Host, used: set<seq<byte>>, n: Node)
    requires NameNext(h, used) == Some(n)
    ensures n.Dir? == h.HostDir? && (h.HostFile? ==> n.data == h.data)
    ensures h.HostDir? ==> NamedAs(h.kids, |h.kids|, DOT_NAMES, n.kids)
  {
  }

  lemma {:induction false} NodeShows(h: Host, used: set<seq<byte>>, n: Node)
    requires NameNext(h, used) == Some(n)
    ensures Shows(View(n), h)
    decreases h, 0
  {
    NameShown(h, used, n);
    ContentNamed(h, used, n);
    if h.HostDir? {
      KidsShow(h.kids, DOT_NAMES, n.kids);
    }
  }

  /** What the builder names is the source tree. */
  lemma {:induction false} KidsShow(hosts: seq<Host>, used: set<seq<byte>>, nodes: seq<Node>)
    requires NamedAs(hosts, |hosts|, used, nodes)
    ensures |nodes| == |hosts| && ShowsAll(Views(nodes, |nodes|), hosts)
    decreases hosts, 1
  {
    forall i | 0 <= i < |hosts| ensures Shows(Views(nodes, |nodes|)[i], hosts[i]) {
      NamedAfter(hosts, i, |hosts|, used, nodes);
      NodeShows(hosts[i], used + Shorts(nodes[..i]), nodes[i]);
      ViewsAt(nodes, |nodes|, i);
    }
  }

  // ---------------------------------------------------------------- names that look alike

  /** The earlier of two children took its 8.3 name, so the later one could not. */
  lemma TakenBefore(hosts: seq<Host>, j: nat, used: set<seq<byte>>, nodes: seq<Node>, a: nat, b: nat)
    requires NamedAs(hosts, j, used, nodes) && a < b < j
    requires IsShortName(hosts[a].name) && IsShortName(hosts[b].name)
    ensures ShortName(hosts[a].name) == ShortName(hosts[b].name) ==> nodes[b].naming.long
  {
    NamedAfter(hosts, a, j, used, nodes);
    NamedAfter(hosts, b, j, used, nodes);
    ChosenNaming(hosts[a], used + Shorts(nodes[..a]), nodes[a]);
    ChosenNaming(hosts[b], used + Shorts(nodes[..b]), nodes[b]);
    assert nodes[..b][a] == nodes[a];
    assert nodes[a] in nodes[..b];
  }

  ghost function Shown(n: Node): seq<nat> {
    StoredName(n.name, n.naming)
  }

  /** Different names look alike exactly when the later one is what the earlier one, stored short, is shown as. */
  lemma ShownAlikeExactly(hosts: seq<Host>, j: nat, used: set<seq<byte>>, nodes: seq<Node>, a: nat, b: nat)
    requires NamedAs(hosts, j, used, nodes) && a < b < j && hosts[a].name != hosts[b].name
    ensures Shown(nodes[a]) == Shown(nodes[b]) <==> !nodes[a].naming.long && hosts[b].name == Capitals(hosts[a].name)
  {
    var m, n := hosts[a].name, hosts[b].name;
    NamedAfter(hosts, a, j, used, nodes);
    NamedAfter(hosts, b, j, used, nodes);
    NameShown(hosts[a], used + Shorts(nodes[..a]), nodes[a]);
    NameShown(hosts[b], used + Shorts(nodes[..b]), nodes[b]);
    ChosenNaming(hosts[a], used + Shorts(nodes[..a]), nodes[a]);
    ChosenNaming(hosts[b], used + Shorts(nodes[..b]), nodes[b]);
    CodeUnitsDiffer(if nodes[a].naming.long then m else Capitals(m), if nodes[b].naming.long then n else Capitals(n));
    if !nodes[b].naming.long {
      LaterIsShort(hosts, j, used, nodes, a, b);
    }
  }

  lemma LaterIsShort(hosts: seq<Host>, j: nat, used: set<seq<byte>>, nodes: seq<Node>, a: nat, b: nat)
    requires NamedAs(hosts, j, used, nodes) && a < b < j && IsShortName(hosts[b].name) && !nodes[b].naming.long
    ensures hosts[a].name != Capitals(hosts[b].name)
    ensures IsShortName(hosts[a].name) ==>
      Capitals(hosts[a].name) != Capitals(hosts[b].name) && hosts[b].name != Capitals(hosts[a].name)
  {
    var m, n := hosts[a].name, hosts[b].name;
    if m == Capitals(n) {
      CapitalsAgain(n);
      TakenBefore(hosts, j, used, nodes, a, b);
      assert false;
    }
    if IsShortName(m) {
      TakenBefore(hosts, j, used, nodes, a, b);
      if Capitals(m) == Capitals(n) {
        SameCapitals(m, n);
        assert false;
      }
      if n == Capitals(m) {
        CapitalsAgain(m);
        assert false;
      }
    }
  }

  lemma SmallA()
    ensures IsShortName("a") && Capitals("a") == "A"
  {
    UndottedParts("a");
    UpperOfAscii("a");
    assert InCapitals("a") == "A";
  }

  /** Two files `a` and `A`, in this order, are both shown as `A`. */
  lemma TwinsLookAlike(nodes: seq<Node>)
    requires NamedAs([HostFile("a", []), HostFile("A", [])], 2, {}, nodes)
    ensures Shown(nodes[0]) == Shown(nodes[1]) == CodeUnits("A")
  {
    var hosts := [HostFile("a", []), HostFile("A", [])];
    SmallA();
    NamedAfter(hosts, 0, 2, {}, nodes);
    assert Shorts(nodes[..0]) == {};
    ChosenNaming(hosts[0], {} + Shorts(nodes[..0]), nodes[0]);
    NameShown(hosts[0], {} + Shorts(nodes[..0]), nodes[0]);
    ShownAlikeExactly(hosts, 2, {}, nodes, 0, 1);
  }
}
