/**
  Terminal input: two rings that overwrite their oldest byte, and a line discipline
  in front of one of them.  Every locked call is one atomic step, so runs are
  sequences of method calls.
*/
module Terminal {
  import opened Bytes
  import opened RingSlots

  const INPUT_BUFFER_SIZE := 256
  const LINE_BUFFER_SIZE := 128
  const MAX_TRANSFER := 4096

  const BACKSPACE: byte := 8
  const NEWLINE: byte := 10
  const RETURN: byte := 13
  const DELETE: byte := 0x7F

  // ---------------------------------------------------------------- queues as sequences

  /** The last bytes of a stream, as many as a ring can hold. */
  function Recent(s: seq<byte>): (r: seq<byte>)
    ensures |r| <= INPUT_BUFFER_SIZE
  {
    if |s| > INPUT_BUFFER_SIZE then s[|s| - INPUT_BUFFER_SIZE..] else s
  }

  // ---------------------------------------------------------------- the line discipline

  /** What has been committed so far, and the line still being edited. */
  datatype Edit = Edit(committed: seq<byte>, line: seq<byte>)

  predicate IsErase(c: byte) {
    c == BACKSPACE || c == DELETE
  }

  /** Newlines flush the line, control characters overtake it, erases shorten it, and it is full at 127 bytes. */
  function Feed(e: Edit, c: byte): Edit {
    if c == 0 then e
    else if IsErase(c) then if e.line == [] then e else e.(line := e.line[..|e.line| - 1])
    else if c == NEWLINE || c == RETURN then Edit(e.committed + e.line + [NEWLINE], [])
    else if c < 32 then e.(committed := e.committed + [c])
    else if |e.line| + 1 < LINE_BUFFER_SIZE then e.(line := e.line + [c])
    else e
  }

  function Cook(s: seq<byte>): Edit {
    if s == [] then Edit([], []) else Feed(Cook(s[..|s| - 1]), s[|s| - 1])
  }

  function FeedAll(e: Edit, s: seq<byte>): Edit
    decreases |s|
  {
    if s == [] then e else FeedAll(Feed(e, s[0]), s[1..])
  }

  lemma {:induction false} CookAppend(a: seq<byte>, b: seq<byte>)
    ensures Cook(a + b) == FeedAll(Cook(a), b)
    decreases |b|
  {
    if b == [] {
      assert a + b == a;
    } else {
      var a' := a + [b[0]];
      assert a'[..|a|] == a;
      assert a + b == a' + b[1..];
      CookAppend(a', b[1..]);
    }
  }

  lemma {:induction false} LineBounded(s: seq<byte>)
    ensures |Cook(s).line| < LINE_BUFFER_SIZE
  {
    if s != [] {
      LineBounded(s[..|s| - 1]);
    }
  }

  /** Typing a character and erasing it is invisible, whatever follows, exactly when the line was not full. */
  lemma TypeAndErase(a: seq<byte>, x: byte, erase: byte)
    requires 32 <= x != DELETE && IsErase(erase)
    ensures (forall b :: Cook(a + [x, erase] + b) == Cook(a + b)) <==> |Cook(a).line| < LINE_BUFFER_SIZE - 1
  {
    var e := Cook(a);
    var typed := a + [x, erase];
    LineBounded(a);
    TwoMore(a, x, erase);
    if |e.line| < LINE_BUFFER_SIZE - 1 {
      assert (e.line + [x])[..|e.line|] == e.line;
      forall b ensures Cook(typed + b) == Cook(a + b) {
        CookAppend(typed, b);
        CookAppend(a, b);
      }
    } else {
      assert typed + [] == typed && a + [] == a;
      assert Cook(typed + []) != Cook(a + []);
    }
  }

  lemma CookNext(a: seq<byte>, c: byte)
    ensures Cook(a + [c]) == Feed(Cook(a), c)
  {
    assert (a + [c])[..|a|] == a;
  }

  lemma TwoMore(a: seq<byte>, x: byte, y: byte)
    ensures Cook(a + [x, y]) == Feed(Feed(Cook(a), x), y)
  {
    assert a + [x, y] == (a + [x]) + [y];
    CookNext(a, x);
    CookNext(a + [x], y);
  }

  /** As much of a text as the line buffer takes. */
  function Fitting(text: seq<byte>): seq<byte> {
    if |text| < LINE_BUFFER_SIZE then text else text[..LINE_BUFFER_SIZE - 1]
  }

  lemma FeedPlain(committed: seq<byte>, text: seq<byte>, c: byte)
    requires 32 <= c != DELETE
    ensures Feed(Edit(committed, Fitting(text)), c) == Edit(committed, Fitting(text + [c]))
  {
  }

  /** Plain text typed on an empty line is pending as typed, cut to its first 127 bytes; nothing is committed. */
  lemma {:induction false} PlainPrefix(a: seq<byte>, text: seq<byte>)
    requires Cook(a).line == [] && forall i :: 0 <= i < |text| ==> 32 <= text[i] != DELETE
    ensures Cook(a + text) == Edit(Cook(a).committed, Fitting(text))
  {
    if text == [] {
      assert a + text == a;
    } else {
      var front, c := text[..|text| - 1], text[|text| - 1];
      assert text == front + [c] && a + text == (a + front) + [c];
      PlainPrefix(a, front);
      CookNext(a + front, c);
      FeedPlain(Cook(a).committed, front, c);
    }
  }

  /** Entering a line, by either key, commits its first 127 bytes and a newline, and leaves an empty line. */
  lemma EnteredLine(a: seq<byte>, text: seq<byte>, enter: byte)
    requires Cook(a).line == [] && (forall i :: 0 <= i < |text| ==> 32 <= text[i] != DELETE)
    requires enter == 10 || enter == 13
    ensures Cook(a + text + [enter]) == Edit(Cook(a).committed + Fitting(text) + [10], [])
  {
    PlainPrefix(a, text);
    CookNext(a + text, enter);
  }

  /** A control byte is committed ahead of whatever is pending; NUL does nothing. */
  lemma ControlOvertakes(a: seq<byte>, c: byte)
    requires c < 32 && c !in {8, 10, 13}
    ensures Cook(a + [c]) == if c == 0 then Cook(a) else Edit(Cook(a).committed + [c], Cook(a).line)
  {
    CookNext(a, c);
  }

  lemma OneMore(base: seq<byte>, data: seq<byte>, k: nat)
    requires k < |data|
    ensures base + data[..k] + [data[k]] == base + data[..k + 1] && data[..k + 1] == data[..k] + [data[k]]
  {
  }

  // ---------------------------------------------------------------- rings

  class Queue {
    const buffer: array<byte>
    var head: nat
    var tail: nat
    var count: nat

    /** All bytes pushed since the queue was last cleared, and those of them that were popped or dropped. */
    ghost var log: seq<byte>
    ghost var gone: seq<byte>
    /** The place in the log after the last byte that was popped. */
    ghost var read: nat

    ghost predicate Shaped()
      reads this`head, this`tail, this`count
    {
      && buffer.Length == INPUT_BUFFER_SIZE && count <= INPUT_BUFFER_SIZE
      && head < INPUT_BUFFER_SIZE && tail < INPUT_BUFFER_SIZE && head == Slot(INPUT_BUFFER_SIZE, tail, count)
    }

    ghost function Contents(): (s: seq<byte>)
      requires Shaped()
      reads this`head, this`tail, this`count, buffer
      ensures |s| == count && forall i :: 0 <= i < count ==> s[i] == buffer[Slot(INPUT_BUFFER_SIZE, tail, i)]
    {
      Unrolled(buffer[..], tail, count)
    }

    /** The queue holds what was pushed and neither popped nor dropped, in order. */
    ghost predicate Accounted()
      reads this, buffer
    {
      Shaped() && log == gone + Contents()
    }

    /** Since the last pop nothing was dropped that a queue of this size could have kept. */
    ghost predicate Valid()
      reads this, buffer
    {
      Accounted() && read <= |gone| && (read < |gone| ==> count == INPUT_BUFFER_SIZE)
    }

    /** So over every run the queue holds the last 256 of the bytes pushed after the last one popped. */
    lemma HoldsRecent()
      requires Valid()
      ensures Contents() == Recent(log[read..])
    {
      if read == |gone| {
        assert log[read..] == Contents();
      } else {
        var unread := log[read..];
        assert unread == gone[read..] + Contents();
        assert unread[|unread| - INPUT_BUFFER_SIZE..] == Contents();
      }
    }

    constructor ()
      ensures Valid() && log == [] && count == 0 && fresh(buffer)
    {
      buffer := new byte[INPUT_BUFFER_SIZE](_ => 0);
      head, tail, count := 0, 0, 0;
      log, gone, read := [], [], 0;
    }

    method Clear()
      requires Valid()
      modifies this, buffer
      ensures Valid() && log == [] && gone == [] && count == 0
    {
      for i := 0 to INPUT_BUFFER_SIZE
        modifies buffer
      {
        buffer[i] := 0;
      }
      head, tail, count := 0, 0, 0;
      log, gone, read := [], [], 0;
      assert Contents() == [];
    }

    /** Appends a byte; a full queue loses its oldest one. */
    method Push(c: byte) returns (dropped: bool)
      requires Valid()
      modifies this`head, this`tail, this`count, this`log, this`gone, buffer
      ensures Valid() && log == old(log) + [c] && count == Min(old(count) + 1, INPUT_BUFFER_SIZE)
      ensures dropped <==> old(count) == INPUT_BUFFER_SIZE
      ensures Contents() == Recent(old(Contents()) + [c])
    {
      ghost var before := Contents();
      dropped := count == INPUT_BUFFER_SIZE;
      if dropped {
        var oldest := TakeOldest();
        assert Recent(before + [c]) == Contents() + [c];
      }
      Append(c);
    }

    method Append(c: byte)
      requires Accounted() && count < INPUT_BUFFER_SIZE
      modifies this`head, this`count, this`log, buffer
      ensures Accounted() && Contents() == old(Contents()) + [c] && log == old(log) + [c]
    {
      ghost var before := Contents();
      buffer[head] := c;
      head := (head + 1) % INPUT_BUFFER_SIZE;
      count := count + 1;
      assert Contents() == before + [c];
      log := log + [c];
      assert gone + before + [c] == gone + (before + [c]);
    }

    method TakeTail() returns (c: byte)
      requires Shaped() && count > 0
      modifies this`tail, this`count
      ensures Shaped() && old(Contents()) == [c] + Contents()
    {
      ghost var before := Contents();
      c := buffer[tail];
      tail := (tail + 1) % INPUT_BUFFER_SIZE;
      count := count - 1;
      assert before == [c] + Contents();
    }

    method TakeOldest() returns (c: byte)
      requires Accounted() && count > 0
      modifies this`tail, this`count, this`gone
      ensures Accounted() && old(Contents()) == [c] + Contents() && gone == old(gone) + [c]
    {
      ghost var before := Contents();
      c := TakeTail();
      gone := gone + [c];
      assert gone + Contents() == old(gone) + before;
    }

    /** The oldest byte, or none from an empty ring. */
    method Pop() returns (r: Option<byte>)
      requires Valid()
      modifies this`tail, this`count, this`gone, this`read
      ensures Valid() && (r.None? <==> old(count) == 0)
      ensures r.None? ==> gone == old(gone) && read == old(read) && Contents() == old(Contents())
      ensures r.Some? ==> gone == old(gone) + [r.value] && read == |gone| && old(Contents()) == [r.value] + Contents()
    {
      if count == 0 {
        return None;
      }
      var c := TakeOldest();
      read := |gone|;
      return Some(c);
    }

    /** Pops until `length` bytes are taken or the queue is empty. */
    method Drain(length: nat) returns (out: seq<byte>)
      requires Valid()
      modifies this
      ensures Valid() && log == old(log) && gone == old(gone) + out
      ensures |out| == Min(length, old(count)) && count == old(count) - |out| && out <= old(Contents())
    {
      out := [];
      ghost var before, past := Contents(), gone;
      while |out| < length
        invariant Valid() && log == old(log) && gone == past + out && |out| <= length
        invariant before == out + Contents()
      {
        ghost var now := Contents();
        var c := Pop();
        if c.None? {
          break;
        }
        assert out + now == (out + [c.value]) + Contents();
        out := out + [c.value];
      }
    }
  }

  // ---------------------------------------------------------------- the terminal

  class Device {
    const raw: Queue
    const cooked: Queue
    const line: array<byte>
    var lineLength: nat
    var canonical: bool
    var rawInputBytes: nat
    var canonicalInputBytes: nat
    var canonicalLineCommits: nat
    var droppedInputBytes: nat
    var inputHighWatermark: nat

    /** Input fed to the line discipline since the last mode change. */
    ghost var typed: seq<byte>
    /** Bytes handed to readers, and bytes thrown away by mode changes, over the whole run. */
    ghost var delivered: nat
    ghost var discarded: nat

    ghost predicate Rings()
      reads this, raw, raw.buffer, cooked, cooked.buffer
    {
      && raw != cooked && raw.buffer != cooked.buffer && raw.buffer != line && cooked.buffer != line
      && raw.Valid() && cooked.Valid() && Conserved()
    }

    /** Committed bytes and the pending line are what the discipline makes of the input. */
    ghost predicate Disciplined()
      reads this, line, raw, cooked
    {
      && line.Length == LINE_BUFFER_SIZE && lineLength < LINE_BUFFER_SIZE && line[lineLength] == 0
      && Cook(typed) == Edit(cooked.log, line[..lineLength])
      && (if canonical then raw.log == [] else typed == [])
    }

    /** Every byte that ever entered a ring is delivered, dropped, discarded or still buffered. */
    ghost predicate Conserved()
      reads this, raw, cooked
    {
      && rawInputBytes + canonicalInputBytes == delivered + droppedInputBytes + discarded + raw.count + cooked.count
      && raw.count <= inputHighWatermark && cooked.count <= inputHighWatermark
    }

    ghost predicate Inv()
      reads this, raw, raw.buffer, cooked, cooked.buffer, line
    {
      Rings() && Disciplined()
    }

    constructor ()
      ensures Inv() && !canonical && delivered == discarded == 0 && raw.log == []
    {
      raw := new Queue();
      cooked := new Queue();
      line := new byte[LINE_BUFFER_SIZE](_ => 0);
      lineLength, canonical := 0, false;
      rawInputBytes, canonicalInputBytes, canonicalLineCommits, droppedInputBytes, inputHighWatermark := 0, 0, 0, 0, 0;
      typed, delivered, discarded := [], 0, 0;
    }

    /** Counts a byte that entered a ring. */
    method Account(dropped: bool)
      modifies this`inputHighWatermark, this`droppedInputBytes
      ensures droppedInputBytes == old(droppedInputBytes) + if dropped then 1 else 0
      ensures inputHighWatermark == Max(old(inputHighWatermark), Max(raw.count, cooked.count))
    {
      if dropped {
        droppedInputBytes := droppedInputBytes + 1;
      }
      var active := if raw.count > cooked.count then raw.count else cooked.count;
      if active > inputHighWatermark {
        inputHighWatermark := active;
      }
    }

    method PushRaw(c: byte)
      requires Rings()
      modifies this`rawInputBytes, this`droppedInputBytes, this`inputHighWatermark, raw, raw.buffer
      ensures Rings() && raw.log == old(raw.log) + [c] && raw.read == old(raw.read)
    {
      var dropped := raw.Push(c);
      Account(dropped);
      rawInputBytes := rawInputBytes + 1;
    }

    method PushCooked(c: byte)
      requires Rings()
      modifies this`canonicalInputBytes, this`droppedInputBytes, this`inputHighWatermark, cooked, cooked.buffer
      ensures Rings() && cooked.log == old(cooked.log) + [c] && cooked.read == old(cooked.read)
    {
      var dropped := cooked.Push(c);
      Account(dropped);
      canonicalInputBytes := canonicalInputBytes + 1;
    }

    method FlushLine()
      requires Rings() && lineLength < line.Length
      modifies this`canonicalInputBytes, this`droppedInputBytes, this`inputHighWatermark, cooked, cooked.buffer
      ensures Rings() && cooked.log == old(cooked.log) + line[..lineLength] && cooked.read == old(cooked.read)
    {
      for i := 0 to lineLength
        invariant Rings() && cooked.log == old(cooked.log) + line[..i] && cooked.read == old(cooked.read)
      {
        PushCooked(line[i]);
        assert line[..i + 1] == line[..i] + [line[i]];
      }
    }

    method ClearLine()
      requires line.Length == LINE_BUFFER_SIZE
      modifies this`lineLength, line
      ensures lineLength == 0 && line[0] == 0
    {
      for i := 0 to LINE_BUFFER_SIZE
        invariant i > 0 ==> line[0] == 0
      {
        line[i] := 0;
      }
      lineLength := 0;
    }

    /** Flushes the pending line. */
    method CommitLine()
      requires Rings() && lineLength < line.Length == LINE_BUFFER_SIZE
      modifies this`canonicalInputBytes, this`droppedInputBytes, this`inputHighWatermark,
               this`canonicalLineCommits, this`lineLength, cooked, cooked.buffer, line
      ensures Rings() && lineLength == 0 && line[0] == 0 && cooked.read == old(cooked.read)
      ensures cooked.log == old(cooked.log) + old(line[..lineLength]) + [NEWLINE]
    {
      FlushLine();
      PushCooked(10);
      canonicalLineCommits := canonicalLineCommits + 1;
      ClearLine();
    }

    ghost predicate Terminated()
      reads this, line
    {
      lineLength < line.Length == LINE_BUFFER_SIZE && line[lineLength] == 0
    }

    method EraseLast()
      requires Terminated()
      modifies this`lineLength, line
      ensures Terminated() && line[..lineLength] == old(if lineLength == 0 then [] else line[..lineLength - 1])
    {
      if lineLength != 0 {
        lineLength := lineLength - 1;
        line[lineLength] := 0;
      }
    }

    /** Keeps a character if it fits with the terminator. */
    method Extend(c: byte)
      requires Terminated()
      modifies this`lineLength, line
      ensures Terminated()
      ensures line[..lineLength] == old(line[..lineLength]) + if old(lineLength) + 1 < LINE_BUFFER_SIZE then [c] else []
    {
      if lineLength + 1 < LINE_BUFFER_SIZE {
        line[lineLength] := c;
        lineLength := lineLength + 1;
        line[lineLength] := 0;
      }
    }

    /** One character through the discipline: the new line and commits are those of Feed. */
    method LineStep(c: byte)
      requires Inv()
      modifies this`canonicalInputBytes, this`droppedInputBytes, this`inputHighWatermark,
               this`canonicalLineCommits, this`lineLength, cooked, cooked.buffer, line
      ensures Rings() && lineLength < line.Length && line[lineLength] == 0 && cooked.read == old(cooked.read)
      ensures Edit(cooked.log, line[..lineLength]) == Feed(Edit(old(cooked.log), old(line[..lineLength])), c)
    {
      if c == 0 {
        return;
      }
      var k := if c == 13 then 10 else c;
      if k == 8 || k == 0x7F {
        EraseLast();
        return;
      }
      if k == 10 {
        CommitLine();
        return;
      }
      if 1 <= k < 32 {
        PushCooked(k);
        return;
      }
      Extend(k);
    }

    method CanonicalInput(c: byte)
      requires Inv() && canonical
      modifies this`canonicalInputBytes, this`droppedInputBytes, this`inputHighWatermark,
               this`canonicalLineCommits, this`lineLength, this`typed, cooked, cooked.buffer, line
      ensures Inv() && typed == old(typed) + [c] && cooked.read == old(cooked.read)
    {
      CookNext(typed, c);
      LineStep(c);
      typed := typed + [c];
    }

    /** A key press; NUL is ignored. */
    method PushInput(c: byte)
      requires Inv()
      modifies this`rawInputBytes, this`canonicalInputBytes, this`droppedInputBytes, this`inputHighWatermark,
               this`canonicalLineCommits, this`lineLength, this`typed, raw, raw.buffer, cooked, cooked.buffer, line
      ensures Inv() && raw.read == old(raw.read) && cooked.read == old(cooked.read)
      ensures raw.log == if canonical || c == 0 then old(raw.log) else old(raw.log) + [c]
      ensures typed == if canonical && c != 0 then old(typed) + [c] else old(typed)
    {
      if c == 0 {
        return;
      }
      if !canonical {
        PushRaw(c);
      } else {
        CanonicalInput(c);
      }
    }

    /** Input from a program: up to the first NUL, all under one lock. */
    method InjectInput(data: seq<byte>) returns (injected: nat)
      requires Inv()
      modifies this`rawInputBytes, this`canonicalInputBytes, this`droppedInputBytes, this`inputHighWatermark,
               this`canonicalLineCommits, this`lineLength, this`typed, raw, raw.buffer, cooked, cooked.buffer, line
      ensures Inv() && raw.read == old(raw.read) && cooked.read == old(cooked.read)
      ensures injected <= |data| && forall k :: 0 <= k < injected ==> data[k] != 0
      ensures if 0 < |data| <= MAX_TRANSFER then injected == |data| || data[injected] == 0 else injected == 0
      ensures raw.log == if canonical then old(raw.log) else old(raw.log) + data[..injected]
      ensures typed == if canonical then old(typed) + data[..injected] else old(typed)
    {
      injected := 0;
      if |data| == 0 || |data| > MAX_TRANSFER {
        return;
      }
      ghost var pushed, fed := raw.log, typed;
      while injected < |data|
        invariant injected <= |data| && Inv() && Injected(pushed, fed, data[..injected])
        invariant raw.read == old(raw.read) && cooked.read == old(cooked.read)
        invariant forall k :: 0 <= k < injected ==> data[k] != 0
      {
        if data[injected] == 0 {
          break;
        }
        InjectOne(data, injected, pushed, fed);
        injected := injected + 1;
      }
    }

    /** What was injected went to the ring or to the discipline, depending on the mode. */
    ghost predicate Injected(pushed: seq<byte>, fed: seq<byte>, taken: seq<byte>)
      reads this, raw
    {
      if canonical then raw.log == pushed && typed == fed + taken else raw.log == pushed + taken && typed == fed
    }

    method InjectOne(data: seq<byte>, k: nat, ghost pushed: seq<byte>, ghost fed: seq<byte>)
      requires Inv() && k < |data| && data[k] != 0 && Injected(pushed, fed, data[..k])
      modifies this`rawInputBytes, this`canonicalInputBytes, this`droppedInputBytes, this`inputHighWatermark,
               this`canonicalLineCommits, this`lineLength, this`typed, raw, raw.buffer, cooked, cooked.buffer, line
      ensures Inv() && Injected(pushed, fed, data[..k + 1]) && raw.read == old(raw.read)
      ensures cooked.read == old(cooked.read)
    {
      OneMore(pushed, data, k);
      OneMore(fed, data, k);
      PushInput(data[k]);
    }

    /** A read takes the oldest bytes of the ring of the current mode; requests of more than 4096 bytes are refused. */
    method ReadInput(length: nat) returns (out: seq<byte>)
      requires Inv()
      modifies this`delivered, raw, cooked
      ensures Inv() && delivered == old(delivered) + |out| && raw.log == old(raw.log)
      ensures |out| == if length > MAX_TRANSFER then 0
        else Min(length, old(if canonical then cooked.count else raw.count))
      ensures out <= old(if canonical then cooked.Contents() else raw.Contents())
    {
      if length == 0 || length > MAX_TRANSFER {
        return [];
      }
      if canonical {
        out := cooked.Drain(length);
      } else {
        out := raw.Drain(length);
      }
      delivered := delivered + |out|;
    }

    /** A raw read, in either mode and of any length. */
    method ReadKey(length: nat) returns (out: seq<byte>)
      requires Inv()
      modifies this`delivered, raw
      ensures Inv() && delivered == old(delivered) + |out| && raw.log == old(raw.log)
      ensures |out| == Min(length, old(raw.count)) && out <= old(raw.Contents())
    {
      out := [];
      if length != 0 {
        out := raw.Drain(length);
        delivered := delivered + |out|;
      }
    }

    /** Changing the mode, or setting it again, throws away everything buffered and the pending line. */
    method SetInputMode(next: bool)
      requires Inv()
      modifies this, raw, raw.buffer, cooked, cooked.buffer, line
      ensures Inv() && canonical == next && typed == [] && raw.log == [] && delivered == old(delivered)
      ensures discarded == old(discarded) + old(raw.count) + old(cooked.count)
      ensures raw.count == cooked.count == lineLength == 0
    {
      discarded := discarded + raw.count + cooked.count;
      ClearRings();
      StartMode(next);
    }

    method StartMode(next: bool)
      requires Rings() && raw.log == cooked.log == [] && line.Length == LINE_BUFFER_SIZE
      modifies this`canonical, this`typed, this`lineLength, line
      ensures Inv() && canonical == next && typed == [] && lineLength == 0
    {
      canonical := next;
      ClearLine();
      typed := [];
      assert line[..0] == [];
    }

    method ClearRings()
      requires raw != cooked && raw.buffer != cooked.buffer && raw.Valid() && cooked.Valid()
      modifies raw, raw.buffer, cooked, cooked.buffer
      ensures raw.Valid() && cooked.Valid() && raw.log == cooked.log == [] && raw.count == cooked.count == 0
    {
      raw.Clear();
      assert cooked.Valid();
      cooked.Clear();
      assert raw.Valid();
    }
  }
}
