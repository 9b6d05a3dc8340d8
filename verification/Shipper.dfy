/**
 The log shipper: a slice that is appended to, copied out and truncated in place, so that its
 backing array is used again. The slice is a backing array with a length; a flush hands out a
 copy. Flush goroutines that Add has started and that have not run yet are counted.
 */
module Shipper {
  import opened Common

  datatype Entry = Entry(command: Id, source: string, level: string, line: Bytes, number: int, at: Time)

  const MAX_BATCH: nat := 100

  function LevelOf(source: string): string
  {
    if source == "stderr" then "error" else "info"
  }

  // ----- the buffer as a state machine -----

  /** `flying` are the batches taken and not stored yet; `added` and `lost` are history. */
  datatype State = State(buffer: seq<Entry>, flying: seq<seq<Entry>>, stored: seq<Entry>, lost: seq<Entry>,
                         added: seq<Entry>)

  datatype Action =
    | Add(e: Entry)
    | Take             // the critical section of a flush, by the ticker or a spawned goroutine
    | StoreBatch(i: nat)
    | LoseBatch(i: nat)

  predicate Enabled(s: State, a: Action)
  {
    match a
    case Add(_) => true
    case Take => true
    case StoreBatch(i) => i < |s.flying|
    case LoseBatch(i) => i < |s.flying|
  }

  function Next(s: State, a: Action): State
    requires Enabled(s, a)
  {
    match a
    case Add(e) => s.(buffer := s.buffer + [e], added := s.added + [e])
    case Take => if s.buffer == [] then s else s.(buffer := [], flying := s.flying + [s.buffer])
    case StoreBatch(i) => s.(flying := s.flying[..i] + s.flying[i + 1..], stored := s.stored + s.flying[i])
    case LoseBatch(i) => s.(flying := s.flying[..i] + s.flying[i + 1..], lost := s.lost + s.flying[i])
  }

  // ----- the buffer as written -----

  /** A new array that begins with the first `n` elements of `a`. */
  method CopyOf(a: array<Entry>, n: nat, capacity: nat) returns (b: array<Entry>)
    requires n <= a.Length && n <= capacity
    ensures fresh(b) && b.Length == capacity && b[..n] == a[..n]
  {
    b := new Entry[capacity];
    for i := 0 to n
      invariant b[..i] == a[..i]
      modifies b
    {
      b[i] := a[i];
    }
  }

  class LogShipper {
    var backing: array<Entry>
    var length: nat
    ghost var added: seq<Entry>            // every Add, in order
    ghost var batches: seq<array<Entry>>   // every copy handed out, in order
    ghost var taken: seq<seq<Entry>>       // what those copies held when they were made
    ghost var due: nat                     // spawned flushes still to run

    /**
     The copies handed out followed by the live buffer are everything that was added; no copy
     shares memory with the backing array or has changed since; a full buffer has a flush coming.
     */
    ghost predicate Valid()
      reads this, backing, batches
    {
      && length <= backing.Length
      && |batches| == |taken|
      && (forall i :: 0 <= i < |batches| ==> batches[i] != backing && batches[i][..] == taken[i] && taken[i] != [])
      && Flatten(taken) + backing[..length] == added
      && (length >= MAX_BATCH ==> due > 0)
    }

    /** The state of the machine, as long as no batch taken has been stored or lost. */
    ghost function View(): State
      requires length <= backing.Length
      reads this, backing
    {
      State(backing[..length], taken, [], [], added)
    }

    constructor ()
      ensures Valid() && View() == State([], [], [], [], []) && due == 0 && fresh(backing)
    {
      backing := new Entry[MAX_BATCH];
      length, added, batches, taken, due := 0, [], [], [], 0;
    }

    /** append: in place while there is room, otherwise into a larger array. */
    method Add(command: Id, source: string, line: Bytes, number: int, at: Time)
      requires Valid()
      modifies this, backing
      ensures Valid()
      ensures View() == Next(old(View()), Action.Add(Entry(command, source, LevelOf(source), line, number, at)))
      ensures backing[..length]
           == old(backing[..length])
              + [Entry(command, source, if source == "stderr" then "error" else "info", line, number, at)]
      ensures batches == old(batches)
      ensures due == old(due) + if length >= 100 then 1 else 0
      ensures backing == old(backing) || (fresh(backing) && old(length) == old(backing.Length))
    {
      var level := "info";
      if source == "stderr" {
        level := "error";
      }
      var e := Entry(command, source, level, line, number, at);
      ghost var before := backing[..length];
      if length == backing.Length {
        backing := CopyOf(backing, length, 2 * length + 1);
      }
      backing[length] := e;
      length := length + 1;
      added := added + [e];
      assert backing[..length] == before + [e];
      assert Flatten(taken) + (before + [e]) == Flatten(taken) + before + [e];
      if length >= MAX_BATCH {
        due := due + 1;
      }
    }

    /** The critical section of flush: null if there is nothing to ship. */
    method TakeBatch() returns (batch: array?<Entry>)
      requires Valid()
      modifies this`length, this`batches, this`taken
      ensures Valid() && View() == Next(old(View()), Take)
      ensures batch == null <==> old(length) == 0
      ensures batch == null ==> batches == old(batches)
      ensures batch != null ==>
                fresh(batch) && batch[..] == old(backing[..length]) && batches == old(batches) + [batch]
    {
      if length == 0 {
        return null;
      }
      var copied := CopyOf(backing, length, length);
      assert copied[..] == backing[..length];
      batches := batches + [copied];
      taken := taken + [copied[..]];
      FlattenSnoc(old(taken), copied[..]);
      length := 0;
      batch := copied;
    }

    /** A goroutine started by Add gets to run. */
    method RunSpawnedFlush() returns (batch: array?<Entry>)
      requires Valid() && due > 0
      modifies this`length, this`batches, this`taken, this`due
      ensures Valid() && View() == Next(old(View()), Take) && due == old(due) - 1
      ensures batch == null <==> old(length) == 0
      ensures batch == null ==> batches == old(batches)
      ensures batch != null ==>
                fresh(batch) && batch[..] == old(backing[..length]) && batches == old(batches) + [batch]
    {
      batch := TakeBatch();
      due := due - 1;
    }
  }
}
