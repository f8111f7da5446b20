/**
  Path normalisation in `realpath`: a buffer that components are pushed onto and popped
  from while the input is scanned, against the reduction of a stack of components.
*/
module Realpath {
  import opened Bytes

  const NUL := '\0'
  const COMBINED_CAPACITY := 128

  // ---------------------------------------------------------------- components

  function FirstSlash(s: string): (n: nat)
    ensures n <= |s| && (n < |s| ==> s[n] == '/') && forall i :: 0 <= i < n ==> s[i] != '/'
  {
    if s == [] || s[0] == '/' then 0 else 1 + FirstSlash(s[1..])
  }

  /** What stands between the slashes. */
  function Components(s: string): seq<string>
    decreases |s|
  {
    var n := FirstSlash(s);
    if n == |s| then [s] else [s[..n]] + Components(s[n + 1..])
  }

  predicate Plain(c: string) {
    c != "" && c != "." && c != ".." && '/' !in c
  }

  predicate AllPlain(stack: seq<string>) {
    forall i :: 0 <= i < |stack| ==> Plain(stack[i])
  }

  function Push(stack: seq<string>, c: string): seq<string> {
    if c == "" || c == "." then stack
    else if c == ".." then if stack == [] then [] else stack[..|stack| - 1]
    else stack + [c]
  }

  function Reduce(stack: seq<string>, components: seq<string>): seq<string>
    decreases |components|
  {
    if components == [] then stack else Reduce(Push(stack, components[0]), components[1..])
  }

  function Flat(stack: seq<string>): string {
    if stack == [] then "" else Flat(stack[..|stack| - 1]) + "/" + stack[|stack| - 1]
  }

  function Render(stack: seq<string>): string {
    if stack == [] then "/" else Flat(stack)
  }

  /** The normal form of an absolute path. */
  function Normalize(path: string): string
    requires path != [] && path[0] == '/'
  {
    Render(Reduce([], Components(path[1..])))
  }

  // ---------------------------------------------------------------- laws

  lemma ComponentsAt(s: string, n: nat)
    requires n < |s| && s[n] == '/' && forall i :: 0 <= i < n ==> s[i] != '/'
    ensures Components(s) == [s[..n]] + Components(s[n + 1..])
  {
    FirstSlashIs(s, n);
  }

  lemma JoinedFront(p: string, q: string, n: nat)
    requires n <= |p| && (n < |p| ==> p[n] == '/') && forall i :: 0 <= i < n ==> p[i] != '/'
    ensures var whole := p + "/" + q; whole[n] == '/' && forall i :: 0 <= i < n ==> whole[i] != '/'
    ensures (p + "/" + q)[..n] == p[..n]
  {
  }

  lemma JoinedBack(p: string, q: string, n: nat)
    requires n < |p|
    ensures (p + "/" + q)[n + 1..] == p[n + 1..] + "/" + q
  {
  }

  lemma JoinedEnd(p: string, q: string)
    ensures (p + "/" + q)[|p| + 1..] == q
  {
  }

  lemma AppendFirst(c: string, a: seq<string>, b: seq<string>)
    ensures [c] + (a + b) == [c] + a + b
  {
  }

  lemma {:induction false} ComponentsJoin(p: string, q: string)
    ensures Components(p + "/" + q) == Components(p) + Components(q)
    decreases |p|
  {
    var n, whole := FirstSlash(p), p + "/" + q;
    JoinedFront(p, q, n);
    ComponentsAt(whole, n);
    if n == |p| {
      assert p[..n] == p;
      JoinedEnd(p, q);
    } else {
      JoinedBack(p, q, n);
      ComponentsAt(p, n);
      ComponentsJoin(p[n + 1..], q);
      AppendFirst(p[..n], Components(p[n + 1..]), Components(q));
    }
  }

  lemma {:induction false} FirstSlashIs(s: string, n: nat)
    requires n < |s| && s[n] == '/' && forall i :: 0 <= i < n ==> s[i] != '/'
    ensures FirstSlash(s) == n
  {
  }

  lemma {:induction false} ReduceAppend(stack: seq<string>, a: seq<string>, b: seq<string>)
    ensures Reduce(stack, a + b) == Reduce(Reduce(stack, a), b)
    decreases |a|
  {
    if a == [] {
      assert a + b == b;
    } else {
      assert (a + b)[1..] == a[1..] + b;
      ReduceAppend(Push(stack, a[0]), a[1..], b);
    }
  }

  lemma {:induction false} ComponentsClean(s: string, i: nat)
    requires i < |Components(s)|
    ensures '/' !in Components(s)[i]
    decreases |s|
  {
    var n := FirstSlash(s);
    if n < |s| && i > 0 {
      ComponentsClean(s[n + 1..], i - 1);
    }
  }

  lemma {:induction false} ReducePlain(stack: seq<string>, components: seq<string>)
    requires AllPlain(stack) && forall i :: 0 <= i < |components| ==> '/' !in components[i]
    ensures AllPlain(Reduce(stack, components))
    decreases |components|
  {
    if components != [] {
      ReducePlain(Push(stack, components[0]), components[1..]);
    }
  }

  lemma StackPlain(path: string)
    ensures AllPlain(Reduce([], Components(path)))
  {
    forall i | 0 <= i < |Components(path)| ensures '/' !in Components(path)[i] {
      ComponentsClean(path, i);
    }
    ReducePlain([], Components(path));
  }

  /** Reading a rendered stack back gives the stack. */
  lemma {:induction false} RenderRoundTrip(stack: seq<string>)
    requires AllPlain(stack)
    ensures Render(stack)[0] == '/' && Reduce([], Components(Render(stack)[1..])) == stack
  {
    if stack == [] {
      assert Render(stack)[1..] == "";
      assert Components("") == [""];
    } else {
      var front, last := stack[..|stack| - 1], stack[|stack| - 1];
      assert Components(last) == [last] by {
        NoSlash(last);
      }
      assert Reduce(front, [last]) == front + [last] == stack;
      if front == [] {
        assert Flat(stack)[1..] == last;
      } else {
        RenderRoundTrip(front);
        assert Flat(stack)[1..] == Flat(front)[1..] + "/" + last;
        ComponentsJoin(Flat(front)[1..], last);
        ReduceAppend([], Components(Flat(front)[1..]), [last]);
      }
    }
  }

  lemma NoSlash(s: string)
    requires '/' !in s
    ensures FirstSlash(s) == |s|
  {
  }

  /** Normal forms start at the root, hold only plain components, and are their own normal form. */
  lemma NormalForm(path: string)
    requires path != [] && path[0] == '/'
    ensures var n := Normalize(path);
            && n != [] && n[0] == '/' && Normalize(n) == n
            && (n == "/" || AllPlain(Components(n[1..])))
  {
    var stack := Reduce([], Components(path[1..]));
    StackPlain(path[1..]);
    RenderRoundTrip(stack);
    if stack != [] {
      PlainComponents(stack);
    }
  }

  lemma {:induction false} PlainComponents(stack: seq<string>)
    requires AllPlain(stack) && stack != []
    ensures Flat(stack) != [] && Components(Flat(stack)[1..]) == stack
  {
    var front, last := stack[..|stack| - 1], stack[|stack| - 1];
    NoSlash(last);
    assert stack == front + [last];
    if front == [] {
      assert Flat(stack)[1..] == last;
    } else {
      PlainComponents(front);
      assert Flat(stack)[1..] == Flat(front)[1..] + "/" + last;
      ComponentsJoin(Flat(front)[1..], last);
    }
  }

  /** The components left of an absolute path. */
  function StackOf(path: string): seq<string>
    requires path != [] && path[0] == '/'
  {
    Reduce([], Components(path[1..]))
  }

  lemma {:induction false} StackJoin(p: string, q: string)
    requires p != [] && p[0] == '/'
    ensures StackOf(p + "/" + q) == Reduce(StackOf(p), Components(q))
  {
    assert (p + "/" + q)[1..] == p[1..] + "/" + q;
    ComponentsJoin(p[1..], q);
    ReduceAppend([], Components(p[1..]), Components(q));
  }

  /** A prefix may be normalised first. */
  lemma {:induction false} NormalizePrefix(p: string, q: string)
    requires p != [] && p[0] == '/'
    ensures Normalize(p)[0] == '/' && Normalize(p + "/" + q) == Normalize(Normalize(p) + "/" + q)
  {
    StackPlain(p[1..]);
    RenderRoundTrip(StackOf(p));
    StackJoin(p, q);
    StackJoin(Normalize(p), q);
  }

  lemma {:induction false} StackMore(p: string, c: string)
    requires p != [] && p[0] == '/' && '/' !in c
    ensures StackOf(p + "/" + c) == Push(StackOf(p), c)
  {
    StackJoin(p, c);
    OneComponent(StackOf(p), c);
  }

  lemma {:induction false} OneComponent(stack: seq<string>, c: string)
    requires '/' !in c
    ensures Reduce(stack, Components(c)) == Push(stack, c)
  {
    NoSlash(c);
    assert Components(c) == [c] && [c][1..] == [];
  }

  lemma {:induction false} FlatMore(stack: seq<string>, c: string)
    ensures Flat(stack + [c]) == Flat(stack) + "/" + c
  {
    assert (stack + [c])[..|stack|] == stack;
  }

  lemma {:induction false} RootAlone(stack: seq<string>)
    requires AllPlain(stack)
    ensures Render(stack) == "/" <==> stack == []
  {
    assert stack != [] ==> |Flat(stack)| >= 1 + |stack[|stack| - 1]| >= 2;
  }

  /** A name below a directory is the directory's path, a slash and the name; the root's slash is not doubled. */
  lemma {:induction false} NamedBelow(p: string, c: string)
    requires p != [] && p[0] == '/' && Plain(c)
    ensures Normalize(p + "/" + c) == (if Normalize(p) == "/" then "" else Normalize(p)) + "/" + c
  {
    StackMore(p, c);
    StackPlain(p[1..]);
    RootAlone(StackOf(p));
    FlatMore(StackOf(p), c);
  }

  /** Going down to a name and up again leads back. */
  lemma {:induction false} DownAndUp(p: string, c: string)
    requires p != [] && p[0] == '/' && Plain(c)
    ensures Normalize(p + "/" + c + "/" + "..") == Normalize(p)
  {
    var stack := StackOf(p);
    StackMore(p, c);
    StackMore(p + "/" + c, "..");
    assert (stack + [c])[..|stack|] == stack;
  }

  /** Empty components and single dots mean nothing, and neither does going up from the root. */
  lemma {:induction false} DotsVanish(p: string)
    requires p != [] && p[0] == '/'
    ensures Normalize(p + "/" + "") == Normalize(p) == Normalize(p + "/" + ".")
    ensures Normalize(p) == "/" ==> Normalize(p + "/" + "..") == "/"
  {
    StackMore(p, "");
    StackMore(p, ".");
    StackMore(p, "..");
    StackPlain(p[1..]);
    RootAlone(StackOf(p));
  }

  // ---------------------------------------------------------------- room

  /** The reduced stack, unless one on the way does not fit the buffer with its terminator. */
  function Outcome(stack: seq<string>, components: seq<string>, capacity: nat): Option<seq<string>>
    decreases |components|
  {
    if components == [] then Some(stack)
    else
      var next := Push(stack, components[0]);
      if |Render(next)| < capacity then Outcome(next, components[1..], capacity) else None
  }

  predicate Fits(stack: seq<string>, components: seq<string>, capacity: nat) {
    Outcome(stack, components, capacity).Some?
  }

  lemma {:induction false} OutcomeReduces(stack: seq<string>, components: seq<string>, capacity: nat)
    requires Fits(stack, components, capacity)
    ensures Outcome(stack, components, capacity) == Some(Reduce(stack, components))
    decreases |components|
  {
    if components != [] {
      OutcomeReduces(Push(stack, components[0]), components[1..], capacity);
    }
  }

  lemma OutcomeStep(stack: seq<string>, c: string, rest: seq<string>, capacity: nat)
    ensures var next := Push(stack, c);
            Outcome(stack, [c] + rest, capacity) ==
              if |Render(next)| < capacity then Outcome(next, rest, capacity) else None
  {
    assert ([c] + rest)[1..] == rest;
  }

  function Total(components: seq<string>): nat {
    if components == [] then 0 else 1 + |components[0]| + Total(components[1..])
  }

  lemma {:induction false} ComponentsTotal(s: string)
    ensures Total(Components(s)) == |s| + 1
    decreases |s|
  {
    var n := FirstSlash(s);
    if n < |s| {
      ComponentsTotal(s[n + 1..]);
    }
  }

  lemma {:induction false} RoomForAll(stack: seq<string>, components: seq<string>, capacity: nat)
    requires |Flat(stack)| + Total(components) < capacity && capacity >= 2
    ensures Fits(stack, components, capacity)
    decreases |components|
  {
    if components != [] {
      RoomForAll(Push(stack, components[0]), components[1..], capacity);
    }
  }

  /** Normalisation never needs more room than its input. */
  lemma EnoughRoom(path: string, capacity: nat)
    requires path != [] && path[0] == '/' && |path| < capacity
    ensures Fits([], Components(path[1..]), capacity)
  {
    ComponentsTotal(path[1..]);
    RoomForAll([], Components(path[1..]), capacity);
  }

  // ---------------------------------------------------------------- the buffer

  /** A directory as a prefix: with a slash, unless it is the root or empty. */
  function Below(cwd: string): string {
    cwd + if |cwd| > 1 then "/" else ""
  }

  class Buffer {
    const text: array<char>
    var cursor: nat
    ghost var stack: seq<string>

    ghost predicate Shaped()
      reads this, text
    {
      cursor < text.Length && text[cursor] == NUL
    }

    /** The buffer holds the rendered stack. */
    ghost predicate Valid()
      reads this, text
    {
      Shaped() && text[..cursor] == Render(stack) && AllPlain(stack)
    }

    constructor (capacity: nat)
      ensures text.Length == capacity && fresh(text) && cursor == 0 && stack == []
      ensures capacity > 0 ==> Shaped()
    {
      text := new char[capacity](_ => NUL);
      cursor, stack := 0, [];
    }

    method Append(c: char) returns (ok: bool)
      requires Shaped()
      modifies this`cursor, text
      ensures Shaped() && ok == (old(cursor) + 1 < text.Length)
      ensures text[..cursor] == if ok then old(text[..cursor]) + [c] else old(text[..cursor])
    {
      if cursor + 1 >= text.Length {
        return false;
      }
      text[cursor] := c;
      cursor := cursor + 1;
      text[cursor] := NUL;
      return true;
    }

    /** Appends as much as fits, and reports whether that was all. */
    method AppendText(s: string) returns (ok: bool)
      requires Shaped()
      modifies this`cursor, text
      ensures Shaped() && ok == (old(cursor) + |s| < text.Length)
      ensures ok ==> text[..cursor] == old(text[..cursor]) + s
    {
      ghost var before := text[..cursor];
      for i := 0 to |s|
        invariant Shaped() && text[..cursor] == before + s[..i]
      {
        ok := Append(s[i]);
        if !ok {
          return;
        }
        assert s[..i + 1] == s[..i] + [s[i]];
      }
      return true;
    }

    method AppendDirectory(cwd: string) returns (ok: bool)
      requires Shaped() && cursor == 0
      modifies this`cursor, text
      ensures Shaped() && (ok <==> |Below(cwd)| < text.Length)
      ensures ok ==> text[..cursor] == Below(cwd)
    {
      ok := AppendText(cwd);
      if ok {
        assert text[..cursor] == cwd;
      }
      if ok && cursor > 1 {
        ok := Append('/');
      }
    }

    method Pop()
      requires Valid()
      modifies this`cursor, this`stack, text
      ensures Valid() && stack == Push(old(stack), "..")
    {
      ghost var r := Render(stack);
      assert stack != [] ==> |r| > 1;
      if cursor <= 1 {
        cursor := 1;
        text[0] := '/';
        text[1] := NUL;
        return;
      }
      ghost var front, last := stack[..|stack| - 1], stack[|stack| - 1];
      ghost var start := |Flat(front)| + 1;
      assert r[start - 1] == '/' && text[start - 1] == r[start - 1];
      var slash := cursor;
      while slash > 1 && text[slash - 1] != '/'
        invariant start <= slash <= cursor
      {
        slash := slash - 1;
      }
      stack := front;
      cursor := if slash <= 1 then 1 else slash - 1;
      if cursor <= 1 {
        text[0] := '/';
      }
      text[cursor] := NUL;
    }

    method PushComponent(c: string) returns (ok: bool)
      requires Valid() && '/' !in c
      modifies this`cursor, this`stack, text
      ensures ok == (|Render(Push(old(stack), c))| < text.Length)
      ensures ok ==> Valid() && stack == Push(old(stack), c)
    {
      if |c| == 0 || c == "." {
        return true;
      }
      if c == ".." {
        Pop();
        return true;
      }
      PushedText(stack, c);
      ok := true;
      if cursor > 1 {
        ok := Append('/');
      }
      if ok {
        ok := AppendText(c);
        stack := stack + [c];
      }
    }
  }

  lemma PushedText(stack: seq<string>, c: string)
    requires AllPlain(stack)
    ensures Render(stack + [c]) == (if stack == [] then "/" else Render(stack) + "/") + c
    ensures |Render(stack)| > 1 <==> stack != []
  {
    assert (stack + [c])[..|stack|] == stack;
    if stack == [] {
      assert Flat(stack + [c]) == "" + "/" + c;
    }
  }

  predicate Normalizable(path: string, capacity: nat) {
    capacity >= 2 && path != [] && path[0] == '/' && Fits([], Components(path[1..]), capacity)
  }

  /** The normal form, in a buffer of a given capacity; only running out of room on the way is an error. */
  method NormalizeAbsolute(input: string, capacity: nat) returns (r: Option<string>)
    requires NUL !in input
    ensures r == if Normalizable(input, capacity) then Some(Normalize(input)) else None
  {
    if capacity < 2 || input == [] || input[0] != '/' {
      return None;
    }
    var out := new Buffer(capacity);
    var ok := out.Append('/');
    var i := 1;
    ghost var goal := Outcome([], Components(input[1..]), capacity);
    while i < |input|
      invariant 1 <= i <= |input| && out.Valid() && fresh(out) && fresh(out.text) && out.text.Length == capacity
      invariant EndsIn(out.stack, input, i, capacity, goal)
    {
      var start := PassSlashes(input, i, out.stack, capacity, goal);
      var end := PassComponent(input, start);
      TakeSlice(out.stack, input, start, end, capacity);
      ok := out.PushComponent(input[start..end]);
      if !ok {
        return None;
      }
      i := end;
    }
    assert input[i..] == "";
    NothingLeft(out.stack, capacity);
    OutcomeReduces([], Components(input[1..]), capacity);
    return Some(out.text[..out.cursor]);
  }

  method PassComponent(input: string, start: nat) returns (end: nat)
    requires start <= |input|
    ensures start <= end <= |input| && '/' !in input[start..end] && (end < |input| ==> input[end] == '/')
  {
    end := start;
    while end < |input| && input[end] != '/'
      invariant start <= end <= |input| && '/' !in input[start..end]
    {
      end := end + 1;
    }
  }

  /** Pushing the components of the text from `at` on ends in `result`. */
  ghost predicate EndsIn(stack: seq<string>, input: string, at: nat, capacity: nat, result: Option<seq<string>>) {
    at <= |input| && Outcome(stack, Components(input[at..]), capacity) == result
  }

  method PassSlashes(input: string, i: nat, ghost stack: seq<string>, ghost capacity: nat,
                     ghost result: Option<seq<string>>)
      returns (start: nat)
    requires i < |input| && |Render(stack)| < capacity && EndsIn(stack, input, i, capacity, result)
    ensures i <= start <= |input| && (start < |input| ==> input[start] != '/') && (start == i ==> input[i] != '/')
    ensures EndsIn(stack, input, start, capacity, result)
  {
    start := i;
    while start < |input| && input[start] == '/'
      invariant i <= start <= |input| && EndsIn(stack, input, start, capacity, result)
    {
      SkipSlashAt(stack, input, start, capacity, result);
      start := start + 1;
    }
  }

  lemma SkipSlashAt(stack: seq<string>, input: string, i: nat, capacity: nat, result: Option<seq<string>>)
    requires i < |input| && input[i] == '/' && |Render(stack)| < capacity && EndsIn(stack, input, i, capacity, result)
    ensures EndsIn(stack, input, i + 1, capacity, result)
  {
    assert input[i..][1..] == input[i + 1..];
    SkipSlash(stack, input[i..], capacity);
  }

  lemma SkipSlash(stack: seq<string>, s: string, capacity: nat)
    requires s != [] && s[0] == '/' && |Render(stack)| < capacity
    ensures Outcome(stack, Components(s), capacity) == Outcome(stack, Components(s[1..]), capacity)
  {
    assert s[..0] == "";
    OutcomeStep(stack, "", Components(s[1..]), capacity);
  }

  /** The end of the input counts as one more, empty, component. */
  lemma NothingLeft(stack: seq<string>, capacity: nat)
    requires |Render(stack)| < capacity
    ensures Outcome(stack, Components(""), capacity) == Some(stack)
  {
    assert Components("") == [""] == [""] + [];
    OutcomeStep(stack, "", [], capacity);
  }

  ghost predicate Taken(stack: seq<string>, s: string, n: nat, capacity: nat)
    requires n <= |s|
  {
    var next := Push(stack, s[..n]);
    Outcome(stack, Components(s), capacity)
    == if |Render(next)| < capacity then Outcome(next, Components(s[n..]), capacity) else None
  }

  lemma TakeLast(stack: seq<string>, s: string, capacity: nat)
    requires '/' !in s
    ensures Taken(stack, s, |s|, capacity)
  {
    NoSlash(s);
    assert s[..|s|] == s && s[|s|..] == "" && [s] + [] == [s];
    OutcomeStep(stack, s, [], capacity);
    var next := Push(stack, s);
    if |Render(next)| < capacity {
      NothingLeft(next, capacity);
    }
  }

  lemma TakeInner(stack: seq<string>, s: string, n: nat, capacity: nat)
    requires n < |s| && FirstSlash(s) == n
    ensures Taken(stack, s, n, capacity)
  {
    OutcomeStep(stack, s[..n], Components(s[n + 1..]), capacity);
    var next := Push(stack, s[..n]);
    if |Render(next)| < capacity {
      SkipSlash(next, s[n..], capacity);
      assert s[n..][1..] == s[n + 1..];
    }
  }

  /** A component up to a slash or the end; what follows may keep its slash. */
  lemma TakeComponent(stack: seq<string>, s: string, n: nat, capacity: nat)
    requires n <= |s| && '/' !in s[..n] && (n < |s| ==> s[n] == '/')
    ensures Taken(stack, s, n, capacity)
  {
    if n == |s| {
      assert s[..n] == s;
      TakeLast(stack, s, capacity);
    } else {
      assert forall i :: 0 <= i < n ==> s[i] == s[..n][i];
      FirstSlashIs(s, n);
      TakeInner(stack, s, n, capacity);
    }
  }

  lemma TakeSlice(stack: seq<string>, input: string, start: nat, end: nat, capacity: nat)
    requires start <= end <= |input| && '/' !in input[start..end] && (end < |input| ==> input[end] == '/')
    ensures var next := Push(stack, input[start..end]);
            Outcome(stack, Components(input[start..]), capacity)
            == if |Render(next)| < capacity then Outcome(next, Components(input[end..]), capacity) else None
  {
    var s, n := input[start..], end - start;
    assert s[..n] == input[start..end] && s[n..] == input[end..];
    TakeComponent(stack, s, n, capacity);
  }

  // ---------------------------------------------------------------- relative paths

  function Joined(cwd: string, input: string): string {
    if input != [] && input[0] == '/' then input else Below(cwd) + input
  }

  /** A relative path means what it means below the normalised working directory. */
  lemma JoinedMeans(cwd: string, input: string)
    requires cwd != [] && cwd[0] == '/' && input != [] && input[0] != '/'
    ensures Normalize(cwd)[0] == '/' && Joined(cwd, input)[0] == '/'
    ensures Normalize(Joined(cwd, input)) == Normalize(Normalize(cwd) + "/" + input)
  {
    NormalizePrefix(cwd, input);
    if |cwd| == 1 {
      assert cwd == "/";
      BelowRoot(input);
    }
  }

  lemma BelowRoot(input: string)
    ensures Normalize("/" + "" + input) == Normalize("/" + "/" + input)
  {
    var s := "/" + input;
    assert ("/" + "" + input)[1..] == input && ("/" + "/" + input)[1..] == s;
    assert s[..0] == "" && s[1..] == input;
    assert Components(s) == [""] + Components(input);
    assert Components(s)[1..] == Components(input);
  }

  /** The path to normalise, unless it is too long or the working directory is unknown. */
  method Combine(input: string, cwd: Option<string>) returns (r: Option<string>)
    requires input != []
    ensures r == if input[0] != '/' && cwd == None then None
                 else
                   var path := Joined(if cwd.Some? then cwd.value else "", input);
                   if |path| < COMBINED_CAPACITY then Some(path) else None
  {
    var combined := new Buffer(COMBINED_CAPACITY);
    var ok := true;
    if input[0] != '/' {
      if cwd == None {
        return None;
      }
      ok := combined.AppendDirectory(cwd.value);
    }
    assert input[0] == '/' ==> combined.text[..combined.cursor] + input == input;
    if ok {
      ok := combined.AppendText(input);
    }
    r := if ok then Some(combined.text[..combined.cursor]) else None;
  }

  /** An error for an empty or overlong path, a missing working directory, or whatever normalisation rejects. */
  method MakeAbsolute(input: string, cwd: Option<string>, capacity: nat) returns (r: Option<string>)
    requires NUL !in input && (cwd.Some? ==> NUL !in cwd.value)
    ensures r == if input == [] || (input[0] != '/' && cwd == None) then None
                 else
                   var path := Joined(if cwd.Some? then cwd.value else "", input);
                   if |path| < COMBINED_CAPACITY && Normalizable(path, capacity) then Some(Normalize(path)) else None
  {
    if input == [] {
      return None;
    }
    var path := Combine(input, cwd);
    if path == None {
      return None;
    }
    r := NormalizeAbsolute(path.value, capacity);
  }

  /** A buffer as large as the one paths are combined in has room for every combined path. */
  lemma CombinedFits(path: string, capacity: nat)
    requires |path| < COMBINED_CAPACITY <= capacity
    ensures Normalizable(path, capacity) <==> path != [] && path[0] == '/'
  {
    if path != [] && path[0] == '/' {
      EnoughRoom(path, capacity);
    }
  }
}
