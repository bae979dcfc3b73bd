/** internal/api/scrape.go, dispatch: sites are handed out one at a time, taking
    the waiting areas in turn, from a slice and a cursor. */
module Dispatch {

  /** A grid cell, by its row and column. */
  type Cell = (int, int)

  datatype Area = Area(cell: Cell, targets: seq<string>, sent: nat)

  datatype Job = Job(cell: Cell, target: string)

  /** The areas still to be handed out, and whose turn it is. */
  datatype Line = Line(areas: seq<Area>, turn: nat)

  predicate Unfinished(a: Area) {
    a.sent < |a.targets|
  }

  ghost predicate Orderly(s: Line) {
    && (if s.areas == [] then s.turn == 0 else s.turn < |s.areas|)
    && (forall k :: 0 <= k < |s.areas| ==> Unfinished(s.areas[k]))
    && (forall i, j :: 0 <= i < j < |s.areas| ==> s.areas[i].cell != s.areas[j].cell)
  }

  function Receive(s: Line, a: Area): Line {
    Line(s.areas + [a], s.turn)
  }

  /** The job on offer. */
  function Offer(s: Line): Job
    requires s.turn < |s.areas| && Unfinished(s.areas[s.turn])
  {
    Job(s.areas[s.turn].cell, s.areas[s.turn].targets[s.areas[s.turn].sent])
  }

  predicate LastOf(a: Area) {
    a.sent + 1 == |a.targets|
  }

  /** The line before the cursor is brought back to the start. */
  function Advanced(s: Line): Line
    requires s.turn < |s.areas|
  {
    var a := s.areas[s.turn];
    if LastOf(a) then Line(s.areas[..s.turn] + s.areas[s.turn + 1..], s.turn)
    else Line(s.areas[s.turn := a.(sent := a.sent + 1)], s.turn + 1)
  }

  function HandOut(s: Line): Line
    requires s.turn < |s.areas|
  {
    var t := Advanced(s);
    if t.turn >= |t.areas| then Line(t.areas, 0) else t
  }

  class Dispatcher {
    var areas: seq<Area>
    var turn: nat

    function Now(): Line
      reads this
    {
      Line(areas, turn)
    }

    constructor ()
      ensures Now() == Line([], 0) && Orderly(Now())
    {
      areas, turn := [], 0;
    }

    method Accept(area: Area)
      modifies this
      ensures Now() == Receive(old(Now()), area)
    {
      areas := areas + [area];
    }

    /** One job taken by a worker. */
    method Give() returns (job: Job)
      requires Orderly(Now()) && areas != []
      modifies this
      ensures job == Offer(old(Now())) && Now() == HandOut(old(Now()))
    {
      var area := areas[turn];
      job := Job(area.cell, area.targets[area.sent]);
      area := area.(sent := area.sent + 1);
      if area.sent == |area.targets| {
        areas := areas[..turn] + areas[turn + 1..];
      } else {
        areas := areas[turn := area];
        turn := turn + 1;
      }
      if turn >= |areas| {
        turn := 0;
      }
    }
  }

  lemma HandOutIsOrderly(s: Line)
    requires Orderly(s) && s.areas != []
    ensures Orderly(HandOut(s))
  {
  }

  lemma ReceiveIsOrderly(s: Line, a: Area)
    requires Orderly(s) && Unfinished(a) && forall k :: 0 <= k < |s.areas| ==> s.areas[k].cell != a.cell
    ensures Orderly(Receive(s, a))
  {
  }

  // ------------------------------------------------------------ rounds, in turn

  /** The same line seen as rounds: the areas still to be served in this one, and
      those that wait for the next. */
  datatype Rounds = Rounds(now: seq<Area>, next: seq<Area>)

  function Seen(s: Line): Rounds
    requires s.turn <= |s.areas|
  {
    Rounds(s.areas[s.turn..], s.areas[..s.turn])
  }

  /** Serve the first; it waits for the next round unless it is finished; a round
      that is over gives way to the next. */
  function Serve(r: Rounds): Rounds
    requires r.now != []
  {
    var a := r.now[0];
    var next := if LastOf(a) then r.next else r.next + [a.(sent := a.sent + 1)];
    if |r.now| == 1 then Rounds(next, []) else Rounds(r.now[1..], next)
  }

  /** The cursor and the slice keep exactly those rounds; a newcomer is served
      last in the round under way. */
  lemma CursorKeepsRounds(s: Line, a: Area)
    requires Orderly(s)
    ensures Seen(Receive(s, a)) == Rounds(Seen(s).now + [a], Seen(s).next)
    ensures s.areas != [] ==> Seen(s).now != [] && Offer(s).cell == Seen(s).now[0].cell && Seen(HandOut(s)) == Serve(Seen(s))
  {
  }

  // -------------------------------------------------------------------- fairness

  datatype Event = Arrives(area: Area) | Given

  ghost predicate Enabled(s: Line, e: Event) {
    match e
    case Arrives(a) => Unfinished(a) && forall k :: 0 <= k < |s.areas| ==> s.areas[k].cell != a.cell
    case Given => s.areas != []
  }

  ghost function Step(s: Line, e: Event): (s': Line)
    requires Orderly(s) && Enabled(s, e)
    ensures Orderly(s')
  {
    match e
    case Arrives(a) => ReceiveIsOrderly(s, a); Receive(s, a)
    case Given => HandOutIsOrderly(s); HandOut(s)
  }

  ghost predicate Possible(s: Line, run: seq<Event>)
    requires Orderly(s)
    decreases |run|
  {
    run == [] || (Enabled(s, run[0]) && Possible(Step(s, run[0]), run[1..]))
  }

  ghost function After(s: Line, run: seq<Event>): (s': Line)
    requires Orderly(s) && Possible(s, run)
    ensures Orderly(s')
    decreases |run|
  {
    if run == [] then s else After(Step(s, run[0]), run[1..])
  }

  ghost predicate Waits(s: Line, cell: Cell) {
    exists k :: 0 <= k < |s.areas| && s.areas[k].cell == cell
  }

  /** The cell's area is in line through the whole run. */
  ghost predicate WaitsThroughout(s: Line, run: seq<Event>, cell: Cell)
    requires Orderly(s) && Possible(s, run)
    decreases |run|
  {
    Waits(s, cell) && (run != [] ==> WaitsThroughout(Step(s, run[0]), run[1..], cell))
  }

  ghost function Given1(s: Line, e: Event, cell: Cell): nat
    requires Orderly(s) && Enabled(s, e)
  {
    if e.Given? && Offer(s).cell == cell then 1 else 0
  }

  /** How many of the cell's sites are handed out over the run. */
  ghost function Handouts(s: Line, run: seq<Event>, cell: Cell): nat
    requires Orderly(s) && Possible(s, run)
    decreases |run|
  {
    if run == [] then 0 else Given1(s, run[0], cell) + Handouts(Step(s, run[0]), run[1..], cell)
  }

  /** Position k has been served in the round under way. */
  function Served(s: Line, k: nat): int {
    if k < s.turn then 1 else 0
  }

  /** Where position k is found after a step it stays through. */
  function NewPlace(s: Line, e: Event, k: nat): nat
    requires e.Given? ==> s.turn < |s.areas|
  {
    if e.Given? && LastOf(s.areas[s.turn]) && k > s.turn then k - 1 else k
  }

  /** One for a step that ends a round: everyone in line is then unserved again. */
  function RoundEnds(s: Line, e: Event): int
    requires e.Given? ==> s.turn < |s.areas|
  {
    if e.Given? && Advanced(s).turn >= |Advanced(s).areas| then 1 else 0
  }

  lemma StaysInPlace(s: Line, e: Event, k: nat)
    requires Orderly(s) && Enabled(s, e) && k < |s.areas|
    requires Waits(Step(s, e), s.areas[k].cell)
    ensures var s', k' := Step(s, e), NewPlace(s, e, k);
            && k' < |s'.areas| && s'.areas[k'].cell == s.areas[k].cell
            && Served(s', k') == Served(s, k) + Given1(s, e, s.areas[k].cell) - RoundEnds(s, e)
  {
  }

  /** The area that was just finished is no longer in line. */
  lemma Departure(s: Line, i: nat, i': nat)
    requires Orderly(s) && s.areas != [] && LastOf(s.areas[s.turn]) && i < |s.areas|
    requires i' < |HandOut(s).areas| && HandOut(s).areas[i'].cell == s.areas[i].cell
    ensures i != s.turn
  {
  }

  /** One step keeps two waiting areas in order, and what it gives the one more
      than the other is the change in who has been served this round. */
  lemma FairStep(s: Line, e: Event, i: nat, j: nat) returns (i': nat, j': nat)
    requires Orderly(s) && Enabled(s, e) && i < j < |s.areas|
    requires Waits(Step(s, e), s.areas[i].cell) && Waits(Step(s, e), s.areas[j].cell)
    ensures var s' := Step(s, e);
            && i' < j' < |s'.areas|
            && s'.areas[i'].cell == s.areas[i].cell && s'.areas[j'].cell == s.areas[j].cell
            && Given1(s, e, s.areas[i].cell) - Given1(s, e, s.areas[j].cell)
               == (Served(s', i') - Served(s', j')) - (Served(s, i) - Served(s, j))
  {
    StaysInPlace(s, e, i);
    StaysInPlace(s, e, j);
    i', j' := NewPlace(s, e, i), NewPlace(s, e, j);
    if e.Given? && LastOf(s.areas[s.turn]) {
      var at :| 0 <= at < |Step(s, e).areas| && Step(s, e).areas[at].cell == s.areas[i].cell;
      Departure(s, i, at);
    }
  }

  lemma {:induction false} FairRun(s: Line, run: seq<Event>, i: nat, j: nat) returns (i': nat, j': nat)
    requires Orderly(s) && Possible(s, run) && i < j < |s.areas|
    requires WaitsThroughout(s, run, s.areas[i].cell) && WaitsThroughout(s, run, s.areas[j].cell)
    ensures var s' := After(s, run);
            Handouts(s, run, s.areas[i].cell) - Handouts(s, run, s.areas[j].cell)
            == (Served(s', i') - Served(s', j')) - (Served(s, i) - Served(s, j))
    ensures i' < j'
    decreases |run|
  {
    i', j' := i, j;
    if run != [] {
      i', j' := FairStep(s, run[0], i, j);
      i', j' := FairRun(Step(s, run[0]), run[1..], i', j');
    }
  }

  /** Over any stretch in which two areas both wait, whatever arrives or leaves
      meanwhile, neither is handed more than one site more than the other. */
  lemma {:induction false} NeitherFallsBehind(s: Line, run: seq<Event>, x: Cell, y: Cell)
    requires Orderly(s) && Possible(s, run)
    requires WaitsThroughout(s, run, x) && WaitsThroughout(s, run, y)
    ensures -1 <= Handouts(s, run, x) - Handouts(s, run, y) <= 1
  {
    var i :| 0 <= i < |s.areas| && s.areas[i].cell == x;
    var j :| 0 <= j < |s.areas| && s.areas[j].cell == y;
    if i < j {
      var i', j' := FairRun(s, run, i, j);
    } else if j < i {
      var j', i' := FairRun(s, run, j, i);
    }
  }
}
