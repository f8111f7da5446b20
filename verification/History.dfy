/** The shell's history: a ring of eight lines that skips empty lines and immediate repeats. */
module History {
  import opened RingSlots

  const LINE_CAPACITY := 64
  const HISTORY_CAPACITY := 8

  /** What fits into a line buffer with its terminator. */
  function Cut(line: string): (s: string)
    ensures |s| < LINE_CAPACITY && s <= line
  {
    if |line| < LINE_CAPACITY then line else line[..LINE_CAPACITY - 1]
  }

  // ---------------------------------------------------------------- what is kept

  predicate Ignored(kept: seq<string>, line: string) {
    line == "" || (kept != [] && kept[|kept| - 1] == line)
  }

  /** All lines that entered the history, of those offered to it. */
  function Keep(offered: seq<string>): seq<string> {
    if offered == [] then []
    else
      var kept, line := Keep(offered[..|offered| - 1]), offered[|offered| - 1];
      if Ignored(kept, line) then kept else kept + [Cut(line)]
  }

  function LastEight(lines: seq<string>): (r: seq<string>)
    ensures |r| <= HISTORY_CAPACITY
  {
    if |lines| <= HISTORY_CAPACITY then lines else lines[|lines| - HISTORY_CAPACITY..]
  }

  /** Offering a line to a list of at most eight. */
  function Offered(kept: seq<string>, line: string): seq<string> {
    if Ignored(kept, line) then kept else LastEight(kept + [Cut(line)])
  }

  lemma KeepNext(offered: seq<string>, line: string)
    ensures var kept := Keep(offered);
      Keep(offered + [line]) == if Ignored(kept, line) then kept else kept + [Cut(line)]
  {
    assert (offered + [line])[..|offered|] == offered;
  }

  lemma LastOfEight(lines: seq<string>, line: string)
    ensures LastEight(LastEight(lines) + [line]) == LastEight(lines + [line])
  {
  }

  lemma SameLast(lines: seq<string>, line: string)
    ensures Ignored(LastEight(lines), line) == Ignored(lines, line)
  {
  }

  /** The ring's list of eight is the end of everything kept. */
  lemma OfferedKeeps(offered: seq<string>, line: string)
    ensures Offered(LastEight(Keep(offered)), line) == LastEight(Keep(offered + [line]))
  {
    var kept := Keep(offered);
    KeepNext(offered, line);
    SameLast(kept, line);
    if !Ignored(kept, line) {
      LastOfEight(kept, Cut(line));
    }
  }

  /** Lines that fit the buffer leave no empty entry and no two equal neighbours. */
  lemma {:induction false} KeptOnce(offered: seq<string>, i: nat)
    requires forall j :: 0 <= j < |offered| ==> |offered[j]| < LINE_CAPACITY
    requires i < |Keep(offered)|
    ensures Keep(offered)[i] != "" && (i > 0 ==> Keep(offered)[i - 1] != Keep(offered)[i])
  {
    var before := offered[..|offered| - 1];
    if i < |Keep(before)| {
      KeptOnce(before, i);
    }
  }

  // ---------------------------------------------------------------- the ring

  class Ring {
    const slots: array<string>
    var count: nat
    var next: nat

    /** Every line ever offered. */
    ghost var offered: seq<string>

    ghost predicate Shaped()
      reads this`count, this`next
    {
      && slots.Length == HISTORY_CAPACITY && count <= HISTORY_CAPACITY && next < HISTORY_CAPACITY
      && (count < HISTORY_CAPACITY ==> next == count)
    }

    ghost function Contents(): (s: seq<string>)
      requires Shaped()
      reads this`count, this`next, slots
      ensures |s| == count
    {
      Unrolled(slots[..], if count == HISTORY_CAPACITY then next else 0, count)
    }

    /** The ring lists the last eight lines kept. */
    ghost predicate Valid()
      reads this, slots
    {
      Shaped() && Contents() == LastEight(Keep(offered))
    }

    constructor ()
      ensures Valid() && count == 0 && offered == [] && fresh(slots)
    {
      slots := new string[HISTORY_CAPACITY](_ => "");
      count, next, offered := 0, 0, [];
    }

    method Store(line: string)
      requires Shaped()
      modifies this`count, this`next, slots
      ensures Shaped() && Contents() == LastEight(old(Contents()) + [line])
    {
      ghost var before := Contents();
      slots[next] := line;
      next := (next + 1) % HISTORY_CAPACITY;
      if count < HISTORY_CAPACITY {
        count := count + 1;
        assert Contents() == before + [line];
      } else {
        assert Contents() == before[1..] + [line];
      }
    }

    method Skips(line: string) returns (skip: bool)
      requires Shaped()
      ensures skip == Ignored(Contents(), line)
    {
      if line == "" {
        return true;
      }
      if count == 0 {
        return false;
      }
      var last := (next + HISTORY_CAPACITY - 1) % HISTORY_CAPACITY;
      assert slots[last] == Contents()[count - 1];
      skip := slots[last] == line;
    }

    method Push(line: string)
      requires Valid()
      modifies this, slots
      ensures Valid() && offered == old(offered) + [line] && Contents() == Offered(old(Contents()), line)
    {
      OfferedKeeps(offered, line);
      var skip := Skips(line);
      if !skip {
        Store(Cut(line));
      }
      offered := offered + [line];
    }

    method At(view: nat) returns (line: string)
      requires Valid()
      ensures line == if view < count then Contents()[view] else ""
    {
      if view >= count {
        return "";
      }
      var oldest := if count == HISTORY_CAPACITY then next else 0;
      line := slots[(oldest + view) % HISTORY_CAPACITY];
    }
  }
}
