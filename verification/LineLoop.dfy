// The loop of the line-number program: when it ends, what it leaves, and how many rows it
// pushes.

module LineLoop {
  import opened Common
  import opened Cursors
  import opened LineProgram

  // ---------- turns ----------

  // The machine after n turns of the loop, or after fewer if the loop has ended by then.
  function Turns(h: Header, bytes: Bytes, m: Machine, end: uint64, n: nat): Machine
    requires ValidHeader(h)
  {
    if n == 0 then m
    else
      var before := Turns(h, bytes, m, end, n - 1);
      if Running(before.cur, end) then Step(h, bytes, before) else before
  }

  lemma {:induction false} TurnsAdd(h: Header, bytes: Bytes, m: Machine, end: uint64, a: nat, b: nat)
    requires ValidHeader(h)
    ensures Turns(h, bytes, Turns(h, bytes, m, end, a), end, b) == Turns(h, bytes, m, end, a + b)
  {
    hide Step;
    if b > 0 {
      TurnsAdd(h, bytes, m, end, a, b - 1);
    }
  }

  // Where a turn leaves the cursor.
  function Next(h: Header, bytes: Bytes, c: Cur): Cur
    requires ValidHeader(h)
  {
    Step(h, bytes, Machine(c, Start(h, []))).cur
  }

  // Where the cursor stands after n turns; no registers are needed to say so.
  function Place(h: Header, bytes: Bytes, c: Cur, end: uint64, n: nat): Cur
    requires ValidHeader(h)
  {
    if n == 0 then c
    else
      var before := Place(h, bytes, c, end, n - 1);
      if Running(before, end) then Next(h, bytes, before) else before
  }

  lemma {:induction false} TurnsPlace(h: Header, bytes: Bytes, m: Machine, end: uint64, n: nat)
    requires ValidHeader(h)
    ensures Turns(h, bytes, m, end, n).cur == Place(h, bytes, m.cur, end, n)
  {
    hide Step;
    if n > 0 {
      TurnsPlace(h, bytes, m, end, n - 1);
      var before := Turns(h, bytes, m, end, n - 1);
      StepIgnoresRegisters(h, bytes, before.cur, before.regs, Start(h, []));
    }
  }

  lemma {:induction false} RunningBefore(h: Header, bytes: Bytes, c: Cur, end: uint64, k: nat, n: nat)
    requires ValidHeader(h) && k <= n && Running(Place(h, bytes, c, end, n), end)
    ensures Running(Place(h, bytes, c, end, k), end)
    decreases n
  {
    hide Next, Running;
    if k < n {
      RunningBefore(h, bytes, c, end, k, n - 1);
    }
  }

  lemma {:induction false} EndedAfter(h: Header, bytes: Bytes, m: Machine, end: uint64, k: nat, n: nat)
    requires ValidHeader(h) && k <= n && !Running(Turns(h, bytes, m, end, k).cur, end)
    ensures Turns(h, bytes, m, end, n) == Turns(h, bytes, m, end, k)
    decreases n
  {
    hide Step, Running;
    if k < n {
      EndedAfter(h, bytes, m, end, k, n - 1);
    }
  }

  // ---------- when the loop ends ----------

  // Some turn is the last one.
  ghost predicate Ends(h: Header, bytes: Bytes, m: Machine, end: uint64)
    requires ValidHeader(h)
  {
    exists n: nat :: !Running(Turns(h, bytes, m, end, n).cur, end)
  }

  // Two turns start at one place.
  ghost predicate Meet(h: Header, bytes: Bytes, c: Cur, end: uint64, i: nat, j: nat)
    requires ValidHeader(h)
  {
    && i < j && Running(Place(h, bytes, c, end, j), end)
    && Place(h, bytes, c, end, i).pos == Place(h, bytes, c, end, j).pos
  }

  ghost predicate Revisits(h: Header, bytes: Bytes, c: Cur, end: uint64)
    requires ValidHeader(h)
  {
    exists i: nat, j: nat :: Meet(h, bytes, c, end, i, j)
  }

  // From one place the cursor goes one way.
  lemma {:induction false} Repeats(h: Header, bytes: Bytes, c: Cur, end: uint64, i: nat, j: nat, d: nat)
    requires ValidHeader(h) && Place(h, bytes, c, end, i) == Place(h, bytes, c, end, j)
    ensures Place(h, bytes, c, end, i + d) == Place(h, bytes, c, end, j + d)
  {
    hide Next, Running;
    if d > 0 {
      Repeats(h, bytes, c, end, i, j, d - 1);
    }
  }

  // Once back at a place the loop goes round for ever.
  lemma {:induction false} RunsForEver(h: Header, bytes: Bytes, c: Cur, end: uint64, i: nat, j: nat, n: nat)
    requires ValidHeader(h) && Meet(h, bytes, c, end, i, j)
    ensures Running(Place(h, bytes, c, end, n), end)
  {
    hide Place, Running, Meet;
    MeetAtOnePlace(h, bytes, c, end, i, j);
    if n <= j {
      RunningBefore(h, bytes, c, end, n, j);
    } else {
      Repeats(h, bytes, c, end, i, j, n - j);
      RunsForEver(h, bytes, c, end, i, j, i + (n - j));
    }
  }

  lemma MeetAtOnePlace(h: Header, bytes: Bytes, c: Cur, end: uint64, i: nat, j: nat)
    requires ValidHeader(h) && Meet(h, bytes, c, end, i, j)
    ensures i < j && Place(h, bytes, c, end, i) == Place(h, bytes, c, end, j)
    ensures Running(Place(h, bytes, c, end, j), end)
  {
    hide Place;
    RunningBefore(h, bytes, c, end, i, j);
  }

  // The bytes the program can read opcodes from.
  function Limit(bytes: Bytes, end: uint64): nat {
    if end < |bytes| then end else |bytes|
  }

  // The places where the first n turns read an opcode.
  function Visited(h: Header, bytes: Bytes, c: Cur, end: uint64, n: nat): set<nat>
    requires ValidHeader(h)
  {
    if n == 0 then {}
    else
      var p := Place(h, bytes, c, end, n - 1);
      Visited(h, bytes, c, end, n - 1) + if Running(p, end) && p.pos < |bytes| then {p.pos} else {}
  }

  // A visited place is where one of the turns started.
  lemma {:induction false} VisitedAt(h: Header, bytes: Bytes, c: Cur, end: uint64, n: nat, p: nat) returns (k: nat)
    requires ValidHeader(h) && p in Visited(h, bytes, c, end, n)
    ensures k < n && Place(h, bytes, c, end, k).pos == p < Limit(bytes, end)
  {
    hide Place;
    if p in Visited(h, bytes, c, end, n - 1) {
      k := VisitedAt(h, bytes, c, end, n - 1, p);
    } else {
      k := n - 1;
    }
  }

  lemma {:induction false} SizeBelow(s: set<nat>, n: nat)
    requires forall p | p in s :: p < n
    ensures |s| <= n
  {
    if n == 0 {
      assert s == {};
    } else {
      SizeBelow(s - {n - 1}, n - 1);
    }
  }

  // The opcodes read are no more than the bytes.
  lemma VisitedSize(h: Header, bytes: Bytes, c: Cur, end: uint64, n: nat)
    requires ValidHeader(h)
    ensures |Visited(h, bytes, c, end, n)| <= Limit(bytes, end)
  {
    hide Visited, Limit;
    forall p | p in Visited(h, bytes, c, end, n) ensures p < Limit(bytes, end) {
      var _ := VisitedAt(h, bytes, c, end, n, p);
    }
    SizeBelow(Visited(h, bytes, c, end, n), Limit(bytes, end));
  }

  // A place not met before is new.
  lemma NewPlace(h: Header, bytes: Bytes, c: Cur, end: uint64, n: nat)
    requires ValidHeader(h) && !Revisits(h, bytes, c, end) && Running(Place(h, bytes, c, end, n), end)
    ensures Place(h, bytes, c, end, n).pos !in Visited(h, bytes, c, end, n)
  {
    hide Visited, Place, Running, Revisits;
    var p := Place(h, bytes, c, end, n).pos;
    if p in Visited(h, bytes, c, end, n) {
      var k := VisitedAt(h, bytes, c, end, n, p);
      MeetingRevisits(h, bytes, c, end, k, n);
    }
  }

  lemma MeetingRevisits(h: Header, bytes: Bytes, c: Cur, end: uint64, i: nat, j: nat)
    requires ValidHeader(h) && Meet(h, bytes, c, end, i, j)
    ensures Revisits(h, bytes, c, end)
  {
  }

  // A turn after which the loop goes on has read an opcode.
  lemma NextReads(h: Header, bytes: Bytes, c: Cur)
    requires ValidHeader(h) && !Next(h, bytes, c).error
    ensures c.pos < |bytes|
  {
    hide Extended, Standard, Special;
  }

  lemma {:induction false} EveryTurnReads(h: Header, bytes: Bytes, c: Cur, end: uint64, n: nat)
    requires ValidHeader(h) && !Revisits(h, bytes, c, end) && Running(Place(h, bytes, c, end, n), end)
    ensures |Visited(h, bytes, c, end, n)| == n
  {
    hide Revisits, Next;
    if n > 0 {
      RunningBefore(h, bytes, c, end, n - 1, n);
      NextReads(h, bytes, Place(h, bytes, c, end, n - 1));
      NewPlace(h, bytes, c, end, n - 1);
      EveryTurnReads(h, bytes, c, end, n - 1);
    }
  }

  // Without coming back to a place the loop ends, after no more turns than there are bytes
  // and one.
  lemma EndsInTime(h: Header, bytes: Bytes, c: Cur, end: uint64)
    requires ValidHeader(h) && !Revisits(h, bytes, c, end)
    ensures !Running(Place(h, bytes, c, end, Limit(bytes, end) + 1), end)
  {
    hide Revisits, Place, Running, Visited, Limit;
    var n := Limit(bytes, end) + 1;
    if Running(Place(h, bytes, c, end, n), end) {
      EveryTurnReads(h, bytes, c, end, n);
      VisitedSize(h, bytes, c, end, n);
    }
  }

  // The loop ends if and only if no two of its turns start at one place.  Where the turns
  // start can be told from the bytes alone, and whether they meet from the first ones.
  lemma EndsIffNoRevisit(h: Header, bytes: Bytes, m: Machine, end: uint64)
    requires ValidHeader(h)
    ensures Ends(h, bytes, m, end) <==> !Revisits(h, bytes, m.cur, end)
    ensures Revisits(h, bytes, m.cur, end) <==> Running(Place(h, bytes, m.cur, end, Limit(bytes, end) + 1), end)
  {
    hide Turns, Place, Running, Limit, Meet;
    var limit := Limit(bytes, end) + 1;
    if i: nat, j: nat :| Meet(h, bytes, m.cur, end, i, j) {
      forall n: nat ensures Running(Turns(h, bytes, m, end, n).cur, end) {
        RunsForEver(h, bytes, m.cur, end, i, j, n);
        TurnsPlace(h, bytes, m, end, n);
      }
      RunsForEver(h, bytes, m.cur, end, i, j, limit);
    } else {
      EndsInTime(h, bytes, m.cur, end);
      TurnsPlace(h, bytes, m, end, limit);
    }
  }

  // No turn that is reached is stuck.
  ghost predicate Forward(h: Header, bytes: Bytes, c: Cur, end: uint64)
    requires ValidHeader(h)
  {
    forall n: nat | Running(Place(h, bytes, c, end, n), end) :: !Stuck(bytes, Place(h, bytes, c, end, n).pos)
  }

  lemma ForwardTurn(h: Header, bytes: Bytes, c: Cur, end: uint64, n: nat)
    requires ValidHeader(h) && Forward(h, bytes, c, end) && Running(Place(h, bytes, c, end, n + 1), end)
    ensures Place(h, bytes, c, end, n).pos < Place(h, bytes, c, end, n + 1).pos
  {
    hide Stuck, Step;
    RunningBefore(h, bytes, c, end, n, n + 1);
    StepProgress(h, bytes, Machine(Place(h, bytes, c, end, n), Start(h, [])));
  }

  lemma {:induction false} ForwardTurns(h: Header, bytes: Bytes, c: Cur, end: uint64, i: nat, j: nat)
    requires ValidHeader(h) && Forward(h, bytes, c, end) && i < j && Running(Place(h, bytes, c, end, j), end)
    ensures Place(h, bytes, c, end, i).pos < Place(h, bytes, c, end, j).pos
    decreases j
  {
    hide Forward, Place, Running;
    ForwardTurn(h, bytes, c, end, j - 1);
    RunningBefore(h, bytes, c, end, j - 1, j);
    if i < j - 1 {
      ForwardTurns(h, bytes, c, end, i, j - 1);
    }
  }

  // Then the loop ends.
  lemma ForwardEnds(h: Header, bytes: Bytes, m: Machine, end: uint64)
    requires ValidHeader(h) && Forward(h, bytes, m.cur, end)
    ensures Ends(h, bytes, m, end) && !Revisits(h, bytes, m.cur, end)
  {
    hide Forward, Place, Ends, Running;
    EndsIffNoRevisit(h, bytes, m, end);
    if i: nat, j: nat :| Meet(h, bytes, m.cur, end, i, j) {
      ForwardTurns(h, bytes, m.cur, end, i, j);
    }
  }

  // ---------- the whole run ----------

  // What the loop leaves when it ends.
  ghost function Run(h: Header, bytes: Bytes, m: Machine, end: uint64): Machine
    requires ValidHeader(h) && !Revisits(h, bytes, m.cur, end)
  {
    Turns(h, bytes, m, end, Limit(bytes, end) + 1)
  }

  // Any turns that end the loop are the run.
  lemma RunIsLast(h: Header, bytes: Bytes, m: Machine, end: uint64, n: nat)
    requires ValidHeader(h) && !Running(Turns(h, bytes, m, end, n).cur, end)
    ensures !Revisits(h, bytes, m.cur, end) && Run(h, bytes, m, end) == Turns(h, bytes, m, end, n)
  {
    hide Turns, Place, Running, Limit, Revisits;
    EndsIffNoRevisit(h, bytes, m, end);
    var limit := Limit(bytes, end) + 1;
    TurnsPlace(h, bytes, m, end, limit);
    if n <= limit {
      EndedAfter(h, bytes, m, end, n, limit);
    } else {
      EndedAfter(h, bytes, m, end, limit, n);
    }
  }

  // ---------- rows ----------

  lemma {:induction false} RowsPerOpcode(h: Header, bytes: Bytes, m: Machine, end: uint64, n: nat)
    requires ValidHeader(h) && !Revisits(h, bytes, m.cur, end)
    ensures m.regs.rows <= Turns(h, bytes, m, end, n).regs.rows
    ensures |Turns(h, bytes, m, end, n).regs.rows| <= |m.regs.rows| + |Visited(h, bytes, m.cur, end, n)|
  {
    hide Revisits, Step;
    if n > 0 {
      RowsPerOpcode(h, bytes, m, end, n - 1);
      TurnsPlace(h, bytes, m, end, n - 1);
      var before := Turns(h, bytes, m, end, n - 1);
      StepRows(h, bytes, before);
      if Running(before.cur, end) {
        NewPlace(h, bytes, m.cur, end, n - 1);
      }
    }
  }

  // A loop that ends pushes no more rows than the program has bytes.
  lemma RunRows(h: Header, bytes: Bytes, m: Machine, end: uint64)
    requires ValidHeader(h) && !Revisits(h, bytes, m.cur, end)
    ensures m.regs.rows <= Run(h, bytes, m, end).regs.rows
    ensures |Run(h, bytes, m, end).regs.rows| <= |m.regs.rows| + Limit(bytes, end)
  {
    hide Revisits, Turns, Limit, Visited;
    RowsPerOpcode(h, bytes, m, end, Limit(bytes, end) + 1);
    VisitedSize(h, bytes, m.cur, end, Limit(bytes, end) + 1);
  }

  // The program bytes from the cursor on.
  function BytesLeft(bytes: Bytes, c: Cur, end: uint64): nat {
    if c.pos < Limit(bytes, end) then Limit(bytes, end) - c.pos else 0
  }

  lemma {:induction false} RowsForward(h: Header, bytes: Bytes, m: Machine, end: uint64, n: nat)
    requires ValidHeader(h) && Forward(h, bytes, m.cur, end) && Running(m.cur, end)
    ensures var m' := Turns(h, bytes, m, end, n);
      |m'.regs.rows| + (if Running(m'.cur, end) then BytesLeft(bytes, m'.cur, end) else 0)
      <= |m.regs.rows| + BytesLeft(bytes, m.cur, end)
  {
    hide Forward, Step;
    if n > 0 {
      RowsForward(h, bytes, m, end, n - 1);
      TurnsPlace(h, bytes, m, end, n - 1);
      TurnsPlace(h, bytes, m, end, n);
      var before := Turns(h, bytes, m, end, n - 1);
      StepRows(h, bytes, before);
      if Running(Turns(h, bytes, m, end, n).cur, end) {
        ForwardTurn(h, bytes, m.cur, end, n - 1);
      }
    }
  }

  // When no reached turn is stuck, a run pushes no more rows than it has bytes before it.
  lemma RunRowsForward(h: Header, bytes: Bytes, m: Machine, end: uint64)
    requires ValidHeader(h) && Forward(h, bytes, m.cur, end) && Running(m.cur, end)
    ensures !Revisits(h, bytes, m.cur, end)
    ensures |Run(h, bytes, m, end).regs.rows| <= |m.regs.rows| + BytesLeft(bytes, m.cur, end)
  {
    hide Forward, Revisits, Turns, Limit, BytesLeft;
    ForwardEnds(h, bytes, m, end);
    RowsForward(h, bytes, m, end, Limit(bytes, end) + 1);
  }

  // ---------- the loop itself ----------

  // The program loop of one unit, wherever it ends.
  method RunProgram(cursor: Cursor, h: Header, end: uint64) returns (rows: seq<Row>)
    requires ValidHeader(h) && h.bigEndian == cursor.bigEndian
    requires !Revisits(h, cursor.bytes, cursor.At(), end)
    modifies cursor
    ensures var m := Run(h, cursor.bytes, Machine(old(cursor.At()), Start(h, [])), end);
      cursor.At() == m.cur && rows == m.regs.rows
  {
    hide Step, Revisits, Turns, Place, Limit;
    ghost var m, turns := Machine(cursor.At(), Start(h, [])), 0;
    ghost var limit := Limit(cursor.bytes, end) + 1;
    var r := Start(h, []);
    NoTurn(h, cursor.bytes, m, end);
    while cursor.pos < end && !cursor.failed
      invariant turns <= limit
      invariant Machine(cursor.At(), r) == Turns(h, cursor.bytes, m, end, turns)
      decreases limit - turns
    {
      NotLast(h, cursor.bytes, m, end, turns);
      OneTurn(h, cursor.bytes, m, end, turns);
      r := ExecuteOpcode(cursor, h, r);
      turns := turns + 1;
    }
    RunIsLast(h, cursor.bytes, m, end, turns);
    rows := r.rows;
  }

  lemma NoTurn(h: Header, bytes: Bytes, m: Machine, end: uint64)
    requires ValidHeader(h)
    ensures Turns(h, bytes, m, end, 0) == m
  {
  }

  lemma OneTurn(h: Header, bytes: Bytes, m: Machine, end: uint64, n: nat)
    requires ValidHeader(h) && Running(Turns(h, bytes, m, end, n).cur, end)
    ensures Turns(h, bytes, m, end, n + 1) == Step(h, bytes, Turns(h, bytes, m, end, n))
  {
    hide Step;
  }

  lemma NotLast(h: Header, bytes: Bytes, m: Machine, end: uint64, n: nat)
    requires ValidHeader(h) && !Revisits(h, bytes, m.cur, end) && n <= Limit(bytes, end) + 1
    requires Running(Turns(h, bytes, m, end, n).cur, end)
    ensures n < Limit(bytes, end) + 1
  {
    hide Revisits, Turns, Place, Running;
    TurnsPlace(h, bytes, m, end, n);
    EndsInTime(h, bytes, m.cur, end);
  }
}
