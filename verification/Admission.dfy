/** The accept loop of the ingest server: slots, wait group, cancellation and handlers as interleaved
  steps of the loop, the handler goroutines, the goroutine that closes the listener, and whoever
  cancels the context. */
module Admission {

  /** Connections are numbered in the order they are accepted. */
  type Conn = nat

  /** Where the loop stands: waiting in Accept; holding a new connection; having taken a slot for it;
    having counted it in the wait group; having left the loop, with the error to return unless the
    context was cancelled; having run the deferred cancel; having returned. */
  datatype Loop =
    | Accepting
    | Holding(conn: Conn)
    | Slotted(conn: Conn)
    | Counted(conn: Conn)
    | Leaving(failed: bool)
    | Draining(failed: bool)
    | Returned(failed: bool)

  /** `slots` is the number of tokens in the slots channel and `group` the wait group's counter. The
    sets say how far each connection has come: turned away by the loop, in its handler, past it (the
    handler closed it), past giving its slot back, past leaving the wait group. `closes` and `starts`
    count what happened to each connection. */
  datatype World = World(
    maxConns: int,
    loop: Loop,
    accepted: nat,
    slots: nat,
    group: nat,
    cancelled: bool,
    listening: bool,
    shed: set<Conn>,
    running: set<Conn>,
    served: set<Conn>,
    freed: set<Conn>,
    done: set<Conn>,
    closes: map<Conn, nat>,
    starts: map<Conn, nat>)
  {
    function Capacity(): nat {
      if maxConns < 1 then 1 else maxConns
    }
  }

  function Init(maxConns: int): World {
    World(maxConns, Accepting, 0, 0, 0, false, true, {}, {}, {}, {}, {}, map[], map[])
  }

  function Bump(counts: map<Conn, nat>, c: Conn): map<Conn, nat> {
    counts[c := 1 + if c in counts then counts[c] else 0]
  }

  function Count(counts: map<Conn, nat>, c: Conn): nat {
    if c in counts then counts[c] else 0
  }

  /** Who moves: the loop, with a new connection or an error if it was waiting in Accept; the handler
    of a connection; the closer of the listener; the outside world, cancelling. */
  datatype Move = LoopStep(delivers: bool) | HandlerStep(conn: Conn) | CloseListener | Cancel

  function LoopNext(w: World, delivers: bool): World {
    match w.loop
    case Accepting =>
      if delivers && w.listening then w.(loop := Holding(w.accepted), accepted := w.accepted + 1)
      else if delivers then w
      else w.(loop := Leaving(!w.cancelled))
    case Holding(c) =>
      if w.slots < w.Capacity() then w.(slots := w.slots + 1, loop := Slotted(c))
      else w.(shed := w.shed + {c}, closes := Bump(w.closes, c), loop := Accepting)
    case Slotted(c) => w.(group := w.group + 1, loop := Counted(c))
    case Counted(c) => w.(running := w.running + {c}, starts := Bump(w.starts, c), loop := Accepting)
    case Leaving(failed) => w.(cancelled := true, loop := Draining(failed))
    case Draining(failed) => if w.group == 0 then w.(loop := Returned(failed)) else w
    case Returned(_) => w
  }

  /** A handler closes its connection as it returns; then its goroutine gives the slot back and only
    then leaves the wait group. */
  function HandlerNext(w: World, c: Conn): World {
    if c in w.running then
      w.(running := w.running - {c}, served := w.served + {c}, closes := Bump(w.closes, c))
    else if c in w.served && 0 < w.slots then
      w.(served := w.served - {c}, freed := w.freed + {c}, slots := w.slots - 1)
    else if c in w.freed && 0 < w.group then
      w.(freed := w.freed - {c}, done := w.done + {c}, group := w.group - 1)
    else w
  }

  /** A move that cannot be made now changes nothing, so every list of moves is a run. */
  function Next(w: World, move: Move): World {
    match move
    case LoopStep(delivers) => LoopNext(w, delivers)
    case HandlerStep(c) => HandlerNext(w, c)
    case CloseListener => if w.cancelled then w.(listening := false) else w
    case Cancel => w.(cancelled := true)
  }

  function Run(w: World, moves: seq<Move>): World {
    if moves == [] then w else Next(Run(w, moves[..|moves| - 1]), moves[|moves| - 1])
  }

  // ----- Counting -----

  function LoopSlots(loop: Loop): nat {
    if loop.Slotted? || loop.Counted? then 1 else 0
  }

  function LoopGroup(loop: Loop): nat {
    if loop.Counted? then 1 else 0
  }

  predicate Counts(w: World) {
    && w.slots == |w.running| + |w.served| + LoopSlots(w.loop)
    && w.group == |w.running| + |w.served| + |w.freed| + LoopGroup(w.loop)
    && w.slots <= w.Capacity()
  }

  predicate InLoop(loop: Loop, c: Conn) {
    (loop.Holding? || loop.Slotted? || loop.Counted?) && loop.conn == c
  }

  function In(s: set<Conn>, c: Conn): nat {
    if c in s then 1 else 0
  }

  /** Each accepted connection is in exactly one place, and was closed and handed over accordingly. */
  predicate Placed(w: World, c: Conn) {
    && In(w.shed, c) + In(w.running, c) + In(w.served, c) + In(w.freed, c) + In(w.done, c)
       + (if InLoop(w.loop, c) then 1 else 0) == (if c < w.accepted then 1 else 0)
    && Count(w.closes, c) == In(w.shed, c) + In(w.served, c) + In(w.freed, c) + In(w.done, c)
    && Count(w.starts, c) == In(w.running, c) + In(w.served, c) + In(w.freed, c) + In(w.done, c)
  }

  predicate Phased(w: World) {
    && (w.loop.Draining? || w.loop.Returned? ==> w.cancelled)
    && (w.loop.Returned? ==> w.group == 0)
    && ((w.loop.Leaving? || w.loop.Draining? || w.loop.Returned?) && !w.loop.failed ==> w.cancelled)
    && (!w.listening ==> w.cancelled)
  }

  ghost predicate Inv(w: World) {
    Counts(w) && Phased(w) && AllPlaced(w)
  }

  ghost predicate AllPlaced(w: World) {
    forall c :: Placed(w, c)
  }

  lemma RemoveOne(s: set<Conn>, c: Conn)
    requires c in s
    ensures |s - {c}| == |s| - 1
  {
  }

  lemma AddOne(s: set<Conn>, c: Conn)
    requires c !in s
    ensures |s + {c}| == |s| + 1
  {
  }

  lemma ShedPlaces(w: World, c: Conn)
    requires Placed(w, c) && w.loop.Holding? && Placed(w, w.loop.conn)
    ensures Placed(w.(shed := w.shed + {w.loop.conn}, closes := Bump(w.closes, w.loop.conn), loop := Accepting), c)
  {
  }

  lemma StartPlaces(w: World, c: Conn)
    requires Placed(w, c) && w.loop.Counted? && Placed(w, w.loop.conn)
    ensures Placed(w.(running := w.running + {w.loop.conn}, starts := Bump(w.starts, w.loop.conn),
                      loop := Accepting), c)
  {
  }

  lemma WaitingPlaces(w: World, delivers: bool, c: Conn)
    requires Placed(w, c) && !w.loop.Counted? && !(w.loop.Holding? && w.Capacity() <= w.slots)
    ensures Placed(LoopNext(w, delivers), c)
  {
  }

  lemma LoopPlaces(w: World, delivers: bool, c: Conn)
    requires Placed(w, c) && (w.loop.Holding? || w.loop.Counted? ==> Placed(w, w.loop.conn))
    ensures Placed(LoopNext(w, delivers), c)
  {
    if w.loop.Counted? {
      StartPlaces(w, c);
    } else if w.loop.Holding? && w.Capacity() <= w.slots {
      ShedPlaces(w, c);
    } else {
      WaitingPlaces(w, delivers, c);
    }
  }

  lemma StartCounts(w: World, delivers: bool, c: Conn)
    requires Counts(w) && w.loop == Counted(c) && c !in w.running
    ensures Counts(LoopNext(w, delivers))
  {
    AddOne(w.running, c);
  }

  lemma TakeCounts(w: World, delivers: bool)
    requires Counts(w) && w.loop.Holding? && w.slots < w.Capacity()
    ensures Counts(LoopNext(w, delivers))
  {
  }

  lemma ShedCounts(w: World, delivers: bool)
    requires Counts(w) && w.loop.Holding? && w.Capacity() <= w.slots
    ensures Counts(LoopNext(w, delivers))
  {
  }

  lemma SlottedCounts(w: World, delivers: bool)
    requires Counts(w) && w.loop.Slotted?
    ensures Counts(LoopNext(w, delivers))
  {
  }

  lemma IdleCounts(w: World, delivers: bool)
    requires Counts(w) && !w.loop.Holding? && !w.loop.Slotted? && !w.loop.Counted?
    ensures Counts(LoopNext(w, delivers))
  {
  }

  lemma LoopCounts(w: World, delivers: bool)
    requires Counts(w) && (w.loop.Counted? ==> w.loop.conn !in w.running)
    ensures Counts(LoopNext(w, delivers))
  {
    match w.loop
    case Counted(c) => StartCounts(w, delivers, c);
    case Holding(_) =>
      if w.slots < w.Capacity() {
        TakeCounts(w, delivers);
      } else {
        ShedCounts(w, delivers);
      }
    case Slotted(_) => SlottedCounts(w, delivers);
    case _ => IdleCounts(w, delivers);
  }

  lemma LoopPhases(w: World, delivers: bool)
    requires Phased(w)
    ensures Phased(LoopNext(w, delivers))
  {
  }

  lemma LoopKeepsInv(w: World, delivers: bool)
    requires Inv(w)
    ensures Inv(LoopNext(w, delivers))
  {
    assert w.loop.Holding? || w.loop.Counted? ==> Placed(w, w.loop.conn);
    assert w.loop.Counted? ==> w.loop.conn !in w.running;
    LoopCounts(w, delivers);
    LoopPhases(w, delivers);
    var w' := LoopNext(w, delivers);
    forall c
      ensures Placed(w', c)
    {
      assert Placed(w, c);
      LoopPlaces(w, delivers, c);
    }
  }

  lemma HandlerPlaces(w: World, h: Conn, c: Conn)
    requires Placed(w, c) && Placed(w, h)
    ensures Placed(HandlerNext(w, h), c)
  {
  }

  lemma HandlerCounts(w: World, h: Conn)
    requires Counts(w) && Placed(w, h)
    ensures Counts(HandlerNext(w, h))
  {
    if h in w.running {
      RemoveOne(w.running, h);
      AddOne(w.served, h);
    } else if h in w.served {
      RemoveOne(w.served, h);
      AddOne(w.freed, h);
    } else if h in w.freed {
      RemoveOne(w.freed, h);
    }
  }

  lemma HandlerPhases(w: World, h: Conn)
    requires Phased(w)
    ensures Phased(HandlerNext(w, h))
  {
  }

  lemma HandlerKeepsInv(w: World, h: Conn)
    requires Inv(w)
    ensures Inv(HandlerNext(w, h))
  {
    assert Placed(w, h);
    HandlerCounts(w, h);
    HandlerPhases(w, h);
    var w' := HandlerNext(w, h);
    forall c
      ensures Placed(w', c)
    {
      assert Placed(w, c);
      HandlerPlaces(w, h, c);
    }
  }

  lemma {:induction false} InvHolds(maxConns: int, moves: seq<Move>)
    ensures Inv(Run(Init(maxConns), moves)) && Run(Init(maxConns), moves).maxConns == maxConns
  {
    if moves == [] {
      assert AllPlaced(Init(maxConns));
    } else {
      InvHolds(maxConns, moves[..|moves| - 1]);
      NextKeepsInv(Run(Init(maxConns), moves[..|moves| - 1]), moves[|moves| - 1]);
      NextKeepsLimit(Run(Init(maxConns), moves[..|moves| - 1]), moves[|moves| - 1]);
    }
  }

  lemma NextKeepsLimit(w: World, move: Move)
    ensures Next(w, move).maxConns == w.maxConns
  {
  }

  lemma NextKeepsInv(w: World, move: Move)
    requires Inv(w)
    ensures Inv(Next(w, move))
  {
    match move
    case LoopStep(delivers) => LoopKeepsInv(w, delivers);
    case HandlerStep(c) => HandlerKeepsInv(w, c);
    case CloseListener =>
      if w.cancelled {
        SameBooks(w, w.(listening := false));
      }
    case Cancel => SameBooks(w, w.(cancelled := true));
  }

  lemma SameBooks(w: World, w': World)
    requires Inv(w)
    requires w' == w.(listening := w'.listening, cancelled := w'.cancelled)
    requires w'.cancelled && (w'.listening ==> w.listening)
    ensures Inv(w')
  {
    forall c
      ensures Placed(w', c)
    {
      assert Placed(w, c);
    }
  }

  // ----- What every interleaving guarantees -----

  /** Live handlers never exceed the configured number, or one if that is less than one; every slot that
    is taken is either counted in the wait group or held by the loop on its way there. */
  lemma CapacityRespected(maxConns: int, moves: seq<Move>)
    ensures var w := Run(Init(maxConns), moves);
            && |w.running| <= (if maxConns < 1 then 1 else maxConns)
            && w.slots <= (if maxConns < 1 then 1 else maxConns)
            && w.slots <= w.group + (if w.loop.Slotted? then 1 else 0)
  {
    InvHolds(maxConns, moves);
  }

  /** Every accepted connection is with the loop, or was closed once by it and never handled, or was
    handed to exactly one handler, which closes it exactly once. */
  lemma ConnectionsAccountedFor(maxConns: int, moves: seq<Move>, c: Conn)
    ensures var w := Run(Init(maxConns), moves);
            && (c in w.shed ==> Count(w.closes, c) == 1 && Count(w.starts, c) == 0)
            && (c in w.running ==> Count(w.closes, c) == 0 && Count(w.starts, c) == 1)
            && (c in w.served + w.freed + w.done ==> Count(w.closes, c) == 1 && Count(w.starts, c) == 1)
            && (InLoop(w.loop, c) ==> Count(w.closes, c) == 0 && Count(w.starts, c) == 0)
            && (c < w.accepted <==> InLoop(w.loop, c) || c in w.shed + w.running + w.served + w.freed + w.done)
  {
    InvHolds(maxConns, moves);
    assert Placed(Run(Init(maxConns), moves), c);
  }

  /** The loop turns a connection away exactly when, at that moment, as many slots are taken as there
    are. */
  lemma ShedOnlyWhenFull(maxConns: int, moves: seq<Move>, delivers: bool)
    requires Run(Init(maxConns), moves).loop.Holding?
    ensures var w := Run(Init(maxConns), moves);
            var w' := Run(Init(maxConns), moves + [LoopStep(delivers)]);
            w'.shed != w.shed <==> w.slots == (if maxConns < 1 then 1 else maxConns)
  {
    InvHolds(maxConns, moves);
    var w := Run(Init(maxConns), moves);
    assert Placed(w, w.loop.conn);
    assert (moves + [LoopStep(delivers)])[..|moves|] == moves;
  }

  /** `Serve` returns only after cancelling, with every handler finished, every slot given back, and every
    connection it accepted closed exactly once. */
  lemma ReturnsQuiet(maxConns: int, moves: seq<Move>, c: Conn)
    requires Run(Init(maxConns), moves).loop.Returned?
    ensures var w := Run(Init(maxConns), moves);
            && w.cancelled && w.running == {} && w.slots == 0 && w.group == 0
            && (c < w.accepted ==> Count(w.closes, c) == 1 && (c in w.shed || c in w.done))
  {
    InvHolds(maxConns, moves);
    var w := Run(Init(maxConns), moves);
    assert Placed(w, c);
    assert |w.running| == 0 && |w.served| == 0 && |w.freed| == 0;
  }

  /** Once every handler has been let run to its end, a draining `Serve` can return at its next step. */
  lemma DrainedServeReturns(maxConns: int, moves: seq<Move>, delivers: bool)
    requires var w := Run(Init(maxConns), moves);
             w.loop.Draining? && w.running == {} && w.served == {} && w.freed == {}
    ensures Run(Init(maxConns), moves + [LoopStep(delivers)]).loop.Returned?
  {
    InvHolds(maxConns, moves);
    assert (moves + [LoopStep(delivers)])[..|moves|] == moves;
  }

  // ----- What `Serve` returns -----

  predicate Over(loop: Loop) {
    loop.Leaving? || loop.Draining? || loop.Returned?
  }

  ghost predicate CancelAmong(moves: seq<Move>) {
    exists i :: 0 <= i < |moves| && moves[i] == Cancel
  }

  lemma CancelGrows(moves: seq<Move>, move: Move)
    ensures CancelAmong(moves + [move]) <==> CancelAmong(moves) || move == Cancel
  {
    var all := moves + [move];
    assert all[|moves|] == move;
    if CancelAmong(moves) {
      var i :| 0 <= i < |moves| && moves[i] == Cancel;
      assert all[i] == Cancel;
    }
    if CancelAmong(all) && move != Cancel {
      var i :| 0 <= i < |all| && all[i] == Cancel;
      assert moves[i] == Cancel;
    }
  }

  /** As long as the loop goes on, only the outside world has cancelled the context. */
  lemma {:induction false} CancelledFromOutside(maxConns: int, moves: seq<Move>)
    ensures var w := Run(Init(maxConns), moves);
            && (!Over(w.loop) ==> (w.cancelled <==> CancelAmong(moves)))
            && (CancelAmong(moves) ==> w.cancelled)
            && (!w.listening ==> w.cancelled)
  {
    if moves != [] {
      var before, move := moves[..|moves| - 1], moves[|moves| - 1];
      assert moves == before + [move];
      CancelledFromOutside(maxConns, before);
      CancelGrows(before, move);
      CancelStays(Run(Init(maxConns), before), move);
    }
  }

  lemma CancelStays(w: World, move: Move)
    ensures w.cancelled || move == Cancel ==> Next(w, move).cancelled
    ensures !Over(Next(w, move).loop) ==> (Next(w, move).cancelled <==> w.cancelled || move == Cancel) && !Over(w.loop)
    ensures !Next(w, move).listening ==> !w.listening || w.cancelled
  {
  }

  /** At the `n`-th move Accept failed while the loop waited in it; the loop's error stands for whether the
    context had not been cancelled by then. */
  ghost predicate EndedBy(maxConns: int, moves: seq<Move>, n: nat, failed: bool) {
    && n < |moves| && moves[n] == LoopStep(false)
    && Run(Init(maxConns), moves[..n]).loop.Accepting?
    && (failed <==> !CancelAmong(moves[..n]))
  }

  /** `Serve` ends only by a failing Accept, and returns no error if and only if the context was cancelled
    before that. */
  lemma {:induction false} ErrorExactly(maxConns: int, moves: seq<Move>) returns (n: nat)
    requires Over(Run(Init(maxConns), moves).loop)
    ensures EndedBy(maxConns, moves, n, Run(Init(maxConns), moves).loop.failed)
  {
    var before, move := moves[..|moves| - 1], moves[|moves| - 1];
    var w := Run(Init(maxConns), before);
    if Over(w.loop) {
      n := ErrorExactly(maxConns, before);
      SameError(w, move);
      assert before[..n] == moves[..n];
    } else {
      n := |before|;
      JustEnded(w, move);
      CancelledFromOutside(maxConns, before);
    }
  }

  lemma JustEnded(w: World, move: Move)
    requires !Over(w.loop) && Over(Next(w, move).loop)
    ensures move == LoopStep(false) && w.loop.Accepting? && Next(w, move).loop == Leaving(!w.cancelled)
  {
  }

  lemma SameError(w: World, move: Move)
    requires Over(w.loop)
    ensures Over(Next(w, move).loop) && Next(w, move).loop.failed == w.loop.failed
  {
  }

  /** Once the listener is closed no connection is accepted any more. */
  lemma {:induction false} ClosedForGood(w: World, moves: seq<Move>)
    requires !w.listening
    ensures !Run(w, moves).listening && Run(w, moves).accepted == w.accepted
  {
    if moves != [] {
      ClosedForGood(w, moves[..|moves| - 1]);
      ClosedStays(Run(w, moves[..|moves| - 1]), moves[|moves| - 1]);
    }
  }

  lemma ClosedStays(w: World, move: Move)
    requires !w.listening
    ensures !Next(w, move).listening && Next(w, move).accepted == w.accepted
  {
  }
}
