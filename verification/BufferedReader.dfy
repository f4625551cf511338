/**
  The reader the parser steps back in: a ring of the last 71 items before the
  one read most recently.
 */
module BufferedReader {
  import opened Basics

  const HISTORY: nat := 71

  // ---------------------------------------------------------------------------
  // A plain cursor over the items

  /** What stands at a position: an item, or end of file behind the last one. */
  function At<T>(stream: seq<T>, i: int): Option<T> {
    if 0 <= i < |stream| then Some(stream[i]) else None
  }

  datatype Op = Read | Back(count: nat)

  /** `head`: the furthest position read, -1 before the first read; `cursor`: the current one. */
  datatype Cursor = Cursor(head: int, cursor: int)

  function Moved(n: nat, c: Cursor, op: Op): Cursor {
    match op
    case Back(k) => c.(cursor := c.cursor - k)
    case Read =>
      if c.cursor < c.head then c.(cursor := c.cursor + 1)
      else if c.head < n then Cursor(c.head + 1, c.head + 1)
      else c
  }

  function Min(a: int, b: int): int {
    if a < b then a else b
  }

  /** The assertions of `step_back`: there is a history, and it reaches that far. */
  predicate Allowed(c: Cursor, op: Op) {
    op.Back? ==> 0 < c.head && c.head - c.cursor + op.count <= Min(c.head, HISTORY)
  }

  /** Items less than a whole ring apart have different slots. */
  lemma DifferentSlots(j: nat, h: nat)
    requires j < h < j + HISTORY
    ensures j % HISTORY != h % HISTORY
  {
  }

  // ---------------------------------------------------------------------------
  // The buffered reader

  class Reader<T> {
    /** The items of the underlying reader and how many of them it has delivered. */
    const stream: seq<T>
    var taken: nat
    const buffer: array<T>
    var count: nat
    var first: nat
    var head: Option<T>
    var negativeOffset: nat
    ghost var position: Cursor

    /** The history holds the items before the head; the one at `j` is in slot `j % 71`. */
    ghost predicate Valid()
      reads this, buffer
    {
      && buffer.Length == HISTORY
      && -1 <= position.head <= |stream| && position.cursor == position.head - negativeOffset && negativeOffset <= count
      && head == At(stream, position.head)
      && taken == Min(position.head + 1, |stream|)
      && (if position.head <= 0 then count == 0 && first == 0
          else count == Min(position.head, HISTORY) && first == position.head - count)
      && (forall j :: first <= j < position.head ==> buffer[j % HISTORY] == stream[j])
    }

    constructor (items: seq<T>, zero: T)
      ensures Valid() && stream == items && position == Cursor(-1, -1) && fresh(buffer)
    {
      stream := items;
      taken, count, first, head, negativeOffset, position := 0, 0, 0, None, 0, Cursor(-1, -1);
      buffer := new T[HISTORY](_ => zero);
    }

    /** The underlying reader: the next item, or nothing at the end. */
    method Fetch() returns (r: Option<T>)
      modifies this`taken
      ensures r == At(stream, old(taken)) && taken == if old(taken) < |stream| then old(taken) + 1 else old(taken)
    {
      if taken < |stream| {
        r := Some(stream[taken]);
        taken := taken + 1;
      } else {
        r := None;
      }
    }

    /** Put the head into the history, over the oldest item once the ring is full. */
    method Push(ghost h: nat)
      requires head.Some? && buffer.Length == HISTORY && h < |stream| && head.value == stream[h]
      requires count == Min(h, HISTORY) && first == h - count
      requires forall j :: first <= j < h ==> buffer[j % HISTORY] == stream[j]
      modifies this`count, this`first, buffer
      ensures count == Min(h + 1, HISTORY) && first == h + 1 - count
      ensures forall j :: first <= j < h + 1 ==> buffer[j % HISTORY] == stream[j]
    {
      forall j: nat | j < h < j + HISTORY ensures j % HISTORY != h % HISTORY {
        DifferentSlots(j, h);
      }
      if count < HISTORY {
        assert count == h % HISTORY;
        buffer[count] := head.value;
        count := count + 1;
      } else {
        assert (first + HISTORY) % HISTORY == h % HISTORY;
        buffer[(first + HISTORY) % HISTORY] := head.value;
        first := first + 1;
      }
    }

    method ReadNext() returns (r: Option<T>)
      requires Valid()
      modifies this, buffer
      ensures Valid()
      ensures position == Moved(|stream|, old(position), Read)
      ensures r == At(stream, position.cursor)
    {
      if negativeOffset > 0 {
        negativeOffset := negativeOffset - 1;
        position := position.(cursor := position.cursor + 1);
        if negativeOffset == 0 {
          return head;
        }
        assert first + count - negativeOffset == position.cursor;
        return Some(buffer[(first + count - negativeOffset) % HISTORY]);
      }
      if count == 0 && head.None? {
        head := Fetch();
        position := Cursor(0, 0);
      } else if head.Some? {
        Push(position.head);
        head := Fetch();
        position := Cursor(position.head + 1, position.head + 1);
      }
      return head;
    }

    method StepBack(k: nat) returns (r: Option<T>)
      requires Valid() && Allowed(position, Back(k))
      modifies this`negativeOffset, this`position
      ensures Valid()
      ensures position == Moved(|stream|, old(position), Back(k))
      ensures r == At(stream, position.cursor)
    {
      negativeOffset := negativeOffset + k;
      position := position.(cursor := position.cursor - k);
      if negativeOffset == 0 {
        return head;
      }
      assert first + count - negativeOffset == position.cursor;
      return Some(buffer[(first + count - negativeOffset) % HISTORY]);
    }
  }

  // ---------------------------------------------------------------------------
  // One step too far

  /** How far the value scan may go ahead of where it steps back to, one more than the history holds. */
  const SCAN: nat := HISTORY + 1

  /** What stepping back `k` from the head shows when the bound is not asserted. */
  ghost function SteppedBack<T>(reader: Reader<T>, k: nat): Option<T>
    requires reader.Valid() && k <= SCAN && k <= reader.position.head
    reads reader, reader.buffer
  {
    if k == 0 then reader.head else Some(reader.buffer[(reader.first + reader.count - k) % HISTORY])
  }

  /** The item at the cursor is shown exactly within the history, or when the item before the head happens to be the same. */
  lemma StepBackShowsTheCursorIff<T>(reader: Reader<T>, k: nat)
    requires reader.Valid() && k <= SCAN && k <= reader.position.head
    ensures SteppedBack(reader, k) == At(reader.stream, reader.position.head - k) <==>
      k <= HISTORY || reader.stream[reader.position.head - 1] == reader.stream[reader.position.head - SCAN]
  {
    var h := reader.position.head;
    if k == SCAN {
      assert (h - SCAN) % HISTORY == (h - 1) % HISTORY;
    } else if k > 0 {
      assert reader.first <= h - k < h;
    }
  }

  /** A scan over 72 different items steps back to the last of them instead of the first. */
  method OneStepTooFar() returns (shown: int, wanted: int)
    ensures shown != wanted
  {
    var stream: seq<int> := seq(SCAN, i => i);
    var reader := new Reader(stream, 0);
    for i := 0 to SCAN + 1
      invariant reader.Valid() && fresh(reader) && fresh(reader.buffer) && reader.stream == stream
      invariant reader.position == Cursor(i - 1, i - 1)
    {
      var _ := reader.ReadNext();
    }
    StepBackShowsTheCursorIff(reader, SCAN);
    shown := reader.buffer[(reader.first + reader.count - SCAN) % HISTORY];
    wanted := stream[0];
    assert reader.position.head == SCAN;
  }

  // ---------------------------------------------------------------------------
  // Any interleaving

  predicate Feasible(n: nat, c: Cursor, ops: seq<Op>)
    decreases |ops|
  {
    ops != [] ==> Allowed(c, ops[0]) && Feasible(n, Moved(n, c, ops[0]), ops[1..])
  }

  /** What a cursor shows after each of the operations. */
  function Shown<T>(stream: seq<T>, c: Cursor, ops: seq<Op>): seq<Option<T>>
    decreases |ops|
  {
    if ops == [] then []
    else
      var c' := Moved(|stream|, c, ops[0]);
      [At(stream, c'.cursor)] + Shown(stream, c', ops[1..])
  }

  /** Reading and stepping back in any feasible order shows what the plain cursor shows. */
  method Replay<T>(stream: seq<T>, zero: T, ops: seq<Op>) returns (out: seq<Option<T>>)
    requires Feasible(|stream|, Cursor(-1, -1), ops)
    ensures out == Shown(stream, Cursor(-1, -1), ops)
  {
    var reader := new Reader(stream, zero);
    out := [];
    for i := 0 to |ops|
      invariant reader.Valid() && fresh(reader) && fresh(reader.buffer) && reader.stream == stream
      invariant Feasible(|stream|, reader.position, ops[i..])
      invariant Shown(stream, Cursor(-1, -1), ops) == out + Shown(stream, reader.position, ops[i..])
    {
      assert ops[i..][0] == ops[i] && ops[i..][1..] == ops[i + 1..];
      var r;
      match ops[i] {
        case Read => r := reader.ReadNext();
        case Back(k) => r := reader.StepBack(k);
      }
      out := out + [r];
    }
  }
}
