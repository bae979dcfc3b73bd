/** internal/api/scrape.go: areas asked for on a visitor's behalf, from the request
    to the release of the cell, under every interleaving before the queue closes.
    Instants are nanoseconds. */
module ScrapeQueue {
  import opened Dispatch

  const QUEUE_DEPTH: nat := 32
  const ADMITTERS: nat := 3
  const HOUR: int := 3_600_000_000_000
  const COOLDOWN: int := 24 * HOUR

  datatype Option<T> = None | Some(value: T)

  datatype Phase = Queued | Running

  datatype Progress = Progress(sites: nat, read: nat, found: nat)

  datatype Reply = CoolingDown | AlreadyQueued | AlreadyRunning | Claimed

  // ------------------------------------------------------- what the mutex guards

  datatype Book = Book(state: map<Cell, Phase>, done: map<Cell, int>, progress: map<Cell, Progress>)

  predicate Cooling(b: Book, c: Cell, now: int) {
    c in b.done && now - b.done[c] < COOLDOWN
  }

  function Claim(b: Book, c: Cell, now: int): (Reply, Book) {
    if Cooling(b, c, now) then (CoolingDown, b)
    else if c in b.state && b.state[c] == Queued then (AlreadyQueued, b)
    else if c in b.state && b.state[c] == Running then (AlreadyRunning, b)
    else (Claimed, b.(state := b.state[c := Queued]))
  }

  function Withdrawn(b: Book, c: Cell): Book {
    b.(state := b.state - {c})
  }

  function Started(b: Book, c: Cell, sites: nat): Book {
    b.(state := b.state[c := Running], progress := b.progress[c := Progress(sites, 0, 0)])
  }

  function Released(b: Book, c: Cell, scraped: bool, now: int): Book {
    Book(b.state - {c}, if scraped then b.done[c := now] else b.done, b.progress - {c})
  }

  function Progressed(b: Book, c: Cell, found: nat): Book {
    if c in b.progress then b.(progress := b.progress[c := Progress(b.progress[c].sites, b.progress[c].read + 1, found)])
    else b
  }

  class ScrapeBook {
    var state: map<Cell, Phase>
    var done: map<Cell, int>
    var progress: map<Cell, Progress>

    function Now(): Book
      reads this
    {
      Book(state, done, progress)
    }

    /** The cooldowns recovered from before this start are all that is known. */
    constructor (recovered: map<Cell, int>)
      ensures Now() == Book(map[], recovered, map[])
    {
      state, done, progress := map[], recovered, map[];
    }

    method TryClaim(cell: Cell, now: int) returns (reply: Reply)
      modifies this
      ensures (reply, Now()) == Claim(old(Now()), cell, now)
      ensures reply == Claimed <==> cell !in old(state) && (cell in old(done) ==> now - old(done)[cell] >= 24 * HOUR)
      ensures reply == CoolingDown <==> cell in old(done) && now - old(done)[cell] < 24 * HOUR
      ensures reply == AlreadyQueued || reply == AlreadyRunning ==>
                cell in old(state) && old(state)[cell] == (if reply == AlreadyQueued then Queued else Running)
      ensures state == (if reply == Claimed then old(state)[cell := Queued] else old(state))
      ensures done == old(done) && progress == old(progress)
    {
      if cell in done && now - done[cell] < COOLDOWN {
        return CoolingDown;
      }
      if cell in state {
        match state[cell]
        case Queued => return AlreadyQueued;
        case Running => return AlreadyRunning;
      }
      state := state[cell := Queued];
      return Claimed;
    }

    method Withdraw(cell: Cell)
      modifies this
      ensures Now() == Withdrawn(old(Now()), cell)
      ensures state == old(state) - {cell} && done == old(done) && progress == old(progress)
    {
      state := state - {cell};
    }

    method Start(cell: Cell, sites: nat)
      modifies this
      ensures Now() == Started(old(Now()), cell, sites)
      ensures state == old(state)[cell := Running] && done == old(done)
      ensures progress == old(progress)[cell := Progress(sites, 0, 0)]
    {
      state := state[cell := Running];
      progress := progress[cell := Progress(sites, 0, 0)];
    }

    method Release(cell: Cell, scraped: bool, now: int)
      modifies this
      ensures Now() == Released(old(Now()), cell, scraped, now)
      ensures state == old(state) - {cell} && progress == old(progress) - {cell}
      ensures done == if scraped then old(done)[cell := now] else old(done)
    {
      state := state - {cell};
      progress := progress - {cell};
      if !scraped {
        return;
      }
      done := done[cell := now];
    }

    method SetProgress(cell: Cell, found: nat)
      modifies this
      ensures Now() == Progressed(old(Now()), cell, found)
      ensures state == old(state) && done == old(done)
      ensures progress == if cell !in old(progress) then old(progress)
                          else var p := old(progress)[cell]; old(progress)[cell := Progress(p.sites, p.read + 1, found)]
    {
      if cell in progress {
        var p := progress[cell];
        progress := progress[cell := Progress(p.sites, p.read + 1, found)];
      }
    }
  }

  // -------------------------------------------------------------- the protocol

  /** An area being read: the sites handed out, those of them still with a worker,
      the reports waiting in its buffer, and the reports its collector has taken. */
  datatype Delivery = Delivery(targets: seq<string>, given: seq<string>, held: nat, buffered: nat, taken: nat)

  /** Requests between the mutex and the channel, in the channel, and with an
      admitter; areas offered to the dispatcher, in its line, and being collected. */
  datatype System = System(book: Book, sending: multiset<Cell>, queue: seq<Cell>, preparing: multiset<Cell>,
                           offered: set<Cell>, line: Line, collecting: map<Cell, Delivery>)

  function Initial(recovered: map<Cell, int>): System {
    System(Book(map[], recovered, map[]), multiset{}, [], multiset{}, {}, Line([], 0), map[])
  }

  datatype Event =
    | Ask(cell: Cell, now: int)           // a visitor asks for the area
    | Send(cell: Cell)                    // the request enters the channel
    | Refuse(cell: Cell)                  // the channel was full: the claim is withdrawn, it may have drained since
    | Admit                               // an admitter takes the oldest request
    | LookupFailed(cell: Cell)            // the store could not be asked
    | LookupEmpty(cell: Cell, now: int)   // there is nothing to read there
    | Begin(cell: Cell, targets: seq<string>)
    | Join(cell: Cell)                    // the dispatcher receives the area
    | Give                                // a worker takes the job on offer
    | Deposit(cell: Cell)                 // a worker puts its report in the buffer
    | Collect(cell: Cell, found: nat)     // the collector takes a report
    | Finish(cell: Cell, now: int)        // every report taken: the cell is released

  ghost predicate Enabled(s: System, e: Event) {
    match e
    case Ask(_, _) => true
    case Send(c) => c in s.sending && |s.queue| < QUEUE_DEPTH
    case Refuse(c) => c in s.sending
    case Admit => s.queue != [] && |s.preparing| + |s.offered| < ADMITTERS
    case LookupFailed(c) => c in s.preparing
    case LookupEmpty(c, _) => c in s.preparing
    case Begin(c, targets) => c in s.preparing && targets != []
    case Join(c) => c in s.offered && c in s.collecting
    case Give => Orderly(s.line) && s.line.areas != [] && Offer(s.line).cell in s.collecting
    case Deposit(c) => c in s.collecting && s.collecting[c].held > 0
    case Collect(c, _) => c in s.collecting && s.collecting[c].buffered > 0
    case Finish(c, _) => c in s.collecting && s.collecting[c].taken == |s.collecting[c].targets|
  }

  ghost function Step(s: System, e: Event): System
    requires Enabled(s, e)
  {
    match e
    case Ask(c, now) =>
      var (reply, book) := Claim(s.book, c, now);
      s.(book := book, sending := if reply == Claimed then s.sending + multiset{c} else s.sending)
    case Send(c) => s.(sending := s.sending - multiset{c}, queue := s.queue + [c])
    case Refuse(c) => s.(sending := s.sending - multiset{c}, book := Withdrawn(s.book, c))
    case Admit => s.(queue := s.queue[1..], preparing := s.preparing + multiset{s.queue[0]})
    case LookupFailed(c) => s.(preparing := s.preparing - multiset{c}, book := Released(s.book, c, false, 0))
    case LookupEmpty(c, now) => s.(preparing := s.preparing - multiset{c}, book := Released(s.book, c, true, now))
    case Begin(c, targets) =>
      s.(preparing := s.preparing - multiset{c}, book := Started(s.book, c, |targets|),
         offered := s.offered + {c}, collecting := s.collecting[c := Delivery(targets, [], 0, 0, 0)])
    case Join(c) =>
      s.(offered := s.offered - {c}, line := Receive(s.line, Area(c, s.collecting[c].targets, 0)))
    case Give =>
      var job := Offer(s.line);
      var d := s.collecting[job.cell];
      s.(line := HandOut(s.line),
         collecting := s.collecting[job.cell := d.(given := d.given + [job.target], held := d.held + 1)])
    case Deposit(c) =>
      var d := s.collecting[c];
      s.(collecting := s.collecting[c := d.(held := d.held - 1, buffered := d.buffered + 1)])
    case Collect(c, found) =>
      var d := s.collecting[c];
      s.(collecting := s.collecting[c := d.(buffered := d.buffered - 1, taken := d.taken + 1)],
         book := Progressed(s.book, c, found))
    case Finish(c, now) => s.(collecting := s.collecting - {c}, book := Released(s.book, c, true, now))
  }

  // -------------------------------------------------- what every step preserves

  /** How many requests for the cell are under way. */
  function Outstanding(s: System, c: Cell): nat {
    s.sending[c] + multiset(s.queue)[c] + s.preparing[c] + if c in s.collecting then 1 else 0
  }

  /** The cell has at most one request under way, and an entry exactly while it
      has one; the entry says running, and has progress, from the moment the area
      is being collected. */
  ghost predicate CellInv(s: System, c: Cell) {
    && Outstanding(s, c) == (if c in s.book.state then 1 else 0)
    && (c in s.collecting <==> c in s.book.state && s.book.state[c] == Running)
    && (c in s.collecting <==> c in s.book.progress)
  }

  ghost predicate CellsInv(s: System) {
    |s.queue| <= QUEUE_DEPTH && forall c :: CellInv(s, c)
  }

  predicate Accounted(d: Delivery) {
    d.targets != [] && d.held + d.buffered + d.taken == |d.given|
  }

  /** The line's k-th area is being collected, and what was handed out of it is
      the front of its sites, in order. */
  ghost predicate Listed(line: Line, collecting: map<Cell, Delivery>, k: int)
    requires 0 <= k < |line.areas|
  {
    var a := line.areas[k];
    && a.cell in collecting
    && collecting[a.cell].targets == a.targets
    && a.sent <= |a.targets|
    && collecting[a.cell].given == a.targets[..a.sent]
  }

  /** A collected area is on offer to the dispatcher with nothing handed out, or in
      its line, or has been handed out whole. */
  ghost predicate Placed(offered: set<Cell>, line: Line, collecting: map<Cell, Delivery>, c: Cell)
    requires c in collecting
  {
    && Accounted(collecting[c])
    && (c in offered ==> collecting[c].given == [] && !Waits(line, c))
    && (c !in offered && !Waits(line, c) ==> collecting[c].given == collecting[c].targets)
  }

  ghost predicate AreasInv(offered: set<Cell>, line: Line, collecting: map<Cell, Delivery>) {
    && Orderly(line)
    && offered <= collecting.Keys
    && (forall c :: c in collecting ==> Placed(offered, line, collecting, c))
    && (forall k :: 0 <= k < |line.areas| ==> Listed(line, collecting, k))
  }

  ghost predicate Inv(s: System) {
    CellsInv(s) && AreasInv(s.offered, s.line, s.collecting)
  }

  lemma QueueCounts(queue: seq<Cell>, c: Cell)
    ensures multiset(queue + [c]) == multiset(queue) + multiset{c}
    ensures queue != [] ==> multiset(queue) == multiset(queue[1..]) + multiset{queue[0]}
  {
    if queue != [] {
      assert queue == [queue[0]] + queue[1..];
    }
  }

  lemma AskStep(s: System, e: Event, c: Cell)
    requires Enabled(s, e) && CellInv(s, c) && e.Ask?
    ensures CellInv(Step(s, e), c)
  {
  }

  lemma SendStep(s: System, e: Event, c: Cell)
    requires Enabled(s, e) && CellInv(s, c) && (e.Send? || e.Refuse?) && CellInv(s, e.cell)
    ensures CellInv(Step(s, e), c)
  {
  }

  lemma AdmitStep(s: System, e: Event, c: Cell)
    requires Enabled(s, e) && CellInv(s, c) && e.Admit?
    ensures CellInv(Step(s, e), c)
  {
    QueueCounts(s.queue, c);
  }

  lemma LookupStep(s: System, e: Event, c: Cell)
    requires Enabled(s, e) && CellInv(s, c) && (e.LookupFailed? || e.LookupEmpty? || e.Begin?)
    ensures CellInv(Step(s, e), c)
  {
  }

  lemma ReadingStep(s: System, e: Event, c: Cell)
    requires Enabled(s, e) && CellInv(s, c) && (e.Join? || e.Give? || e.Deposit? || e.Collect? || e.Finish?)
    ensures CellInv(Step(s, e), c)
  {
  }

  lemma CellsStep(s: System, e: Event)
    requires CellsInv(s) && Enabled(s, e)
    ensures CellsInv(Step(s, e))
  {
    forall c ensures CellInv(Step(s, e), c) {
      assert CellInv(s, c);
      if e.Ask? {
        AskStep(s, e, c);
      } else if e.Send? || e.Refuse? {
        assert CellInv(s, e.cell);
        SendStep(s, e, c);
      } else if e.Admit? {
        AdmitStep(s, e, c);
      } else if e.LookupFailed? || e.LookupEmpty? || e.Begin? {
        LookupStep(s, e, c);
      } else {
        ReadingStep(s, e, c);
      }
    }
  }

  lemma BeginKeepsAreas(offered: set<Cell>, line: Line, collecting: map<Cell, Delivery>, c: Cell, targets: seq<string>)
    requires AreasInv(offered, line, collecting) && c !in collecting && targets != []
    ensures AreasInv(offered + {c}, line, collecting[c := Delivery(targets, [], 0, 0, 0)])
  {
    var next := collecting[c := Delivery(targets, [], 0, 0, 0)];
    forall k | 0 <= k < |line.areas| ensures Listed(line, next, k) && line.areas[k].cell != c {
      assert Listed(line, collecting, k);
    }
    forall d | d in next ensures Placed(offered + {c}, line, next, d) {
      assert d != c ==> Placed(offered, line, collecting, d);
    }
  }

  lemma JoinKeepsAreas(offered: set<Cell>, line: Line, collecting: map<Cell, Delivery>, c: Cell)
    requires AreasInv(offered, line, collecting) && c in offered
    ensures AreasInv(offered - {c}, Receive(line, Area(c, collecting[c].targets, 0)), collecting)
  {
    var a := Area(c, collecting[c].targets, 0);
    var next := Receive(line, a);
    assert Placed(offered, line, collecting, c);
    ReceiveIsOrderly(line, a);
    forall k | 0 <= k < |next.areas| ensures Listed(next, collecting, k) {
      assert k < |line.areas| ==> Listed(line, collecting, k);
    }
    forall d | d in collecting ensures Placed(offered - {c}, next, collecting, d) {
      assert Placed(offered, line, collecting, d);
      WaitsOnceReceived(line, a, d);
    }
  }

  lemma WaitsOnceReceived(line: Line, a: Area, d: Cell)
    ensures Waits(Receive(line, a), d) <==> d == a.cell || Waits(line, d)
  {
    var next := Receive(line, a);
    if d == a.cell {
      assert next.areas[|line.areas|].cell == d;
    } else if Waits(line, d) {
      var k :| 0 <= k < |line.areas| && line.areas[k].cell == d;
      assert next.areas[k].cell == d;
    }
  }

  /** Where a place in the line after a hand-out was before it. */
  function OldPlace(line: Line, k: nat): nat
    requires line.turn < |line.areas|
  {
    if LastOf(line.areas[line.turn]) && k >= line.turn then k + 1 else k
  }

  lemma HandOutMoves(line: Line, k: nat)
    requires Orderly(line) && line.areas != [] && k < |HandOut(line).areas|
    ensures var j, a := OldPlace(line, k), line.areas[line.turn];
            && j < |line.areas|
            && HandOut(line).areas[k] == (if j == line.turn then a.(sent := a.sent + 1) else line.areas[j])
            && (j == line.turn ==> !LastOf(a))
  {
  }

  lemma WaitedBefore(line: Line, d: Cell)
    requires Orderly(line) && line.areas != [] && Waits(HandOut(line), d)
    ensures Waits(line, d) && !(LastOf(line.areas[line.turn]) && d == Offer(line).cell)
  {
    var next := HandOut(line);
    var k :| 0 <= k < |next.areas| && next.areas[k].cell == d;
    HandOutMoves(line, k);
    assert line.areas[OldPlace(line, k)].cell == d;
  }

  lemma WaitsAfter(line: Line, d: Cell)
    requires Orderly(line) && line.areas != [] && Waits(line, d)
    requires !(LastOf(line.areas[line.turn]) && d == Offer(line).cell)
    ensures Waits(HandOut(line), d)
  {
    var j :| 0 <= j < |line.areas| && line.areas[j].cell == d;
    var k := if LastOf(line.areas[line.turn]) && j > line.turn then j - 1 else j;
    HandOutMoves(line, k);
    assert HandOut(line).areas[k].cell == d;
  }

  lemma WaitsOnceHandedOut(line: Line, d: Cell)
    requires Orderly(line) && line.areas != []
    ensures Waits(HandOut(line), d) <==> Waits(line, d) && !(LastOf(line.areas[line.turn]) && d == Offer(line).cell)
  {
    if Waits(HandOut(line), d) {
      WaitedBefore(line, d);
    } else if Waits(line, d) && !(LastOf(line.areas[line.turn]) && d == Offer(line).cell) {
      WaitsAfter(line, d);
    }
  }

  function HandedOver(d: Delivery, target: string): Delivery {
    d.(given := d.given + [target], held := d.held + 1)
  }

  lemma GiveKeepsListed(line: Line, collecting: map<Cell, Delivery>, k: nat)
    requires Orderly(line) && line.areas != [] && k < |HandOut(line).areas| && Offer(line).cell in collecting
    requires Listed(line, collecting, line.turn) && OldPlace(line, k) < |line.areas| && Listed(line, collecting, OldPlace(line, k))
    ensures var job := Offer(line);
            Listed(HandOut(line), collecting[job.cell := HandedOver(collecting[job.cell], job.target)], k)
  {
  }

  lemma GiveKeepsPlaced(offered: set<Cell>, line: Line, collecting: map<Cell, Delivery>, d: Cell)
    requires AreasInv(offered, line, collecting) && line.areas != [] && d in collecting
    ensures var job := Offer(line);
            && job.cell in collecting
            && Placed(offered, HandOut(line), collecting[job.cell := HandedOver(collecting[job.cell], job.target)], d)
  {
    var a := line.areas[line.turn];
    assert Listed(line, collecting, line.turn);
    assert Placed(offered, line, collecting, d);
    WaitsOnceHandedOut(line, d);
    assert Waits(line, a.cell);
    if d == a.cell && LastOf(a) {
      assert a.targets[..a.sent] + [a.targets[a.sent]] == a.targets;
    }
  }

  lemma GiveKeepsAreas(offered: set<Cell>, line: Line, collecting: map<Cell, Delivery>)
    requires AreasInv(offered, line, collecting) && line.areas != []
    ensures var job := Offer(line);
            && job.cell in collecting
            && AreasInv(offered, HandOut(line), collecting[job.cell := HandedOver(collecting[job.cell], job.target)])
  {
    HandOutIsOrderly(line);
    assert Listed(line, collecting, line.turn);
    var job := Offer(line);
    var next := collecting[job.cell := HandedOver(collecting[job.cell], job.target)];
    forall k | 0 <= k < |HandOut(line).areas| ensures Listed(HandOut(line), next, k) {
      HandOutMoves(line, k);
      assert Listed(line, collecting, OldPlace(line, k));
      GiveKeepsListed(line, collecting, k);
    }
    forall d | d in next ensures Placed(offered, HandOut(line), next, d) {
      GiveKeepsPlaced(offered, line, collecting, d);
    }
  }

  /** A report that moves from a worker to the buffer, or from the buffer to the
      collector. */
  lemma ReportKeepsAreas(offered: set<Cell>, line: Line, collecting: map<Cell, Delivery>, c: Cell, d: Delivery)
    requires AreasInv(offered, line, collecting) && c in collecting && Accounted(d)
    requires d.targets == collecting[c].targets && d.given == collecting[c].given
    ensures AreasInv(offered, line, collecting[c := d])
  {
    var next := collecting[c := d];
    forall k | 0 <= k < |line.areas| ensures Listed(line, next, k) {
      assert Listed(line, collecting, k);
    }
    forall e | e in next ensures Placed(offered, line, next, e) {
      assert Placed(offered, line, collecting, e);
    }
  }

  /** Once every site is reported, the area was handed out whole, no worker and no
      buffer holds anything of it, and the dispatcher has forgotten it. */
  lemma AllReported(offered: set<Cell>, line: Line, collecting: map<Cell, Delivery>, c: Cell)
    requires AreasInv(offered, line, collecting) && c in collecting
    requires collecting[c].taken == |collecting[c].targets|
    ensures collecting[c].given == collecting[c].targets && collecting[c].held == collecting[c].buffered == 0
    ensures c !in offered && !Waits(line, c)
  {
    assert Placed(offered, line, collecting, c);
    if Waits(line, c) {
      WaitingIsUnfinished(offered, line, collecting, c);
    }
  }

  lemma WaitingIsUnfinished(offered: set<Cell>, line: Line, collecting: map<Cell, Delivery>, c: Cell)
    requires AreasInv(offered, line, collecting) && c in collecting && Waits(line, c)
    ensures collecting[c].given < collecting[c].targets
  {
    var k :| 0 <= k < |line.areas| && line.areas[k].cell == c;
    assert Listed(line, collecting, k) && Unfinished(line.areas[k]);
  }

  lemma FinishKeepsAreas(offered: set<Cell>, line: Line, collecting: map<Cell, Delivery>, c: Cell)
    requires AreasInv(offered, line, collecting) && c in collecting
    requires collecting[c].taken == |collecting[c].targets|
    ensures AreasInv(offered, line, collecting - {c})
  {
    AllReported(offered, line, collecting, c);
    var next := collecting - {c};
    forall k | 0 <= k < |line.areas| ensures Listed(line, next, k) {
      assert Listed(line, collecting, k);
      assert line.areas[k].cell != c;
    }
    forall d | d in next ensures Placed(offered, line, next, d) {
      assert Placed(offered, line, collecting, d);
    }
  }

  lemma AreasStep(s: System, e: Event)
    requires Inv(s) && Enabled(s, e)
    ensures AreasInv(Step(s, e).offered, Step(s, e).line, Step(s, e).collecting)
  {
    match e
    case Begin(c, targets) =>
      assert CellInv(s, c);
      BeginKeepsAreas(s.offered, s.line, s.collecting, c, targets);
    case Join(c) =>
      JoinKeepsAreas(s.offered, s.line, s.collecting, c);
    case Give =>
      GiveKeepsAreas(s.offered, s.line, s.collecting);
    case Deposit(c) =>
      assert Placed(s.offered, s.line, s.collecting, c);
      ReportKeepsAreas(s.offered, s.line, s.collecting, c, Step(s, e).collecting[c]);
    case Collect(c, _) =>
      assert Placed(s.offered, s.line, s.collecting, c);
      ReportKeepsAreas(s.offered, s.line, s.collecting, c, Step(s, e).collecting[c]);
    case Finish(c, _) =>
      FinishKeepsAreas(s.offered, s.line, s.collecting, c);
    case _ =>
  }

  // ------------------------------------------------------------------ over a run

  ghost predicate Possible(s: System, run: seq<Event>)
    decreases |run|
  {
    run == [] || (Enabled(s, run[0]) && Possible(Step(s, run[0]), run[1..]))
  }

  ghost function After(s: System, run: seq<Event>): System
    requires Possible(s, run)
    decreases |run|
  {
    if run == [] then s else After(Step(s, run[0]), run[1..])
  }

  lemma {:induction false} InvHolds(s: System, run: seq<Event>)
    requires Inv(s) && Possible(s, run)
    ensures Inv(After(s, run))
    decreases |run|
  {
    if run != [] {
      CellsStep(s, run[0]);
      AreasStep(s, run[0]);
      InvHolds(Step(s, run[0]), run[1..]);
    }
  }

  lemma InitialInv(recovered: map<Cell, int>)
    ensures Inv(Initial(recovered))
  {
  }

  /** Under every interleaving a cell has at most one request under way: being
      sent, queued, looked up, or collected; and it has an entry exactly then. */
  lemma {:induction false} OneRequestPerCell(recovered: map<Cell, int>, run: seq<Event>, c: Cell)
    requires Possible(Initial(recovered), run)
    ensures var s := After(Initial(recovered), run);
            && Outstanding(s, c) <= 1
            && (c in s.book.state <==> Outstanding(s, c) == 1)
            && (c in s.collecting <==> c in s.book.state && s.book.state[c] == Running)
  {
    InitialInv(recovered);
    InvHolds(Initial(recovered), run);
    assert CellInv(After(Initial(recovered), run), c);
  }

  /** Whenever a worker has a report to deposit, the buffer, which has a slot for
      each site, has room for it. */
  lemma {:induction false} DepositsNeverBlock(recovered: map<Cell, int>, run: seq<Event>, c: Cell)
    requires Possible(Initial(recovered), run)
    requires Enabled(After(Initial(recovered), run), Deposit(c))
    ensures var d := After(Initial(recovered), run).collecting[c]; d.buffered < |d.targets|
  {
    InitialInv(recovered);
    InvHolds(Initial(recovered), run);
    var s := After(Initial(recovered), run);
    GivenIsAFront(s.offered, s.line, s.collecting, c);
  }

  lemma GivenIsAFront(offered: set<Cell>, line: Line, collecting: map<Cell, Delivery>, c: Cell)
    requires AreasInv(offered, line, collecting) && c in collecting
    ensures collecting[c].given <= collecting[c].targets && Accounted(collecting[c])
  {
    assert Placed(offered, line, collecting, c);
    if Waits(line, c) {
      WaitingIsUnfinished(offered, line, collecting, c);
    }
  }

  /** At every moment what was handed out of an area is the front of its sites, in
      order and each once; the area's release finds all of them handed out and
      nothing of it left with a worker, in the buffer or in the dispatcher; and a
      job on offer always has its collector. */
  lemma {:induction false} EverySiteOnceInOrder(recovered: map<Cell, int>, run: seq<Event>, c: Cell)
    requires Possible(Initial(recovered), run)
    ensures var s := After(Initial(recovered), run);
            && (c in s.collecting ==> s.collecting[c].given <= s.collecting[c].targets)
            && (forall now :: Enabled(s, Finish(c, now)) ==>
                  && s.collecting[c].given == s.collecting[c].targets
                  && s.collecting[c].held == s.collecting[c].buffered == 0
                  && c !in s.offered && !Waits(s.line, c))
            && (s.line.areas != [] ==> Enabled(s, Give))
  {
    InitialInv(recovered);
    InvHolds(Initial(recovered), run);
    var s := After(Initial(recovered), run);
    if c in s.collecting {
      GivenIsAFront(s.offered, s.line, s.collecting, c);
      if s.collecting[c].taken == |s.collecting[c].targets| {
        AllReported(s.offered, s.line, s.collecting, c);
      }
    }
    if s.line.areas != [] {
      assert Listed(s.line, s.collecting, s.line.turn);
    }
  }

  // -------------------------------------------------------------------- fairness

  /** What the dispatcher sees of a step. */
  ghost function Shown(s: System, e: Event): seq<Dispatch.Event>
    requires Enabled(s, e)
  {
    match e
    case Join(c) => [Dispatch.Arrives(Area(c, s.collecting[c].targets, 0))]
    case Give => [Dispatch.Given]
    case _ => []
  }

  ghost function Projected(s: System, run: seq<Event>): seq<Dispatch.Event>
    requires Possible(s, run)
    decreases |run|
  {
    if run == [] then [] else Shown(s, run[0]) + Projected(Step(s, run[0]), run[1..])
  }

  lemma {:induction false} ShownIsPossible(s: System, e: Event, rest: seq<Dispatch.Event>)
    requires Inv(s) && Enabled(s, e) && Orderly(Step(s, e).line) && Dispatch.Possible(Step(s, e).line, rest)
    ensures Dispatch.Possible(s.line, Shown(s, e) + rest)
    ensures Dispatch.After(s.line, Shown(s, e) + rest) == Dispatch.After(Step(s, e).line, rest)
  {
    if e.Join? {
      assert Placed(s.offered, s.line, s.collecting, e.cell);
    }
    if e.Join? || e.Give? {
      assert (Shown(s, e) + rest)[1..] == rest;
    } else {
      assert Shown(s, e) + rest == rest;
    }
  }

  /** Every run shows the dispatcher a run of its own, ending in the line it ends in. */
  lemma {:induction false} ProjectedIsPossible(s: System, run: seq<Event>)
    requires Inv(s) && Possible(s, run)
    ensures Dispatch.Possible(s.line, Projected(s, run))
    ensures Dispatch.After(s.line, Projected(s, run)) == After(s, run).line
    decreases |run|
  {
    if run != [] {
      var s' := Step(s, run[0]);
      CellsStep(s, run[0]);
      AreasStep(s, run[0]);
      ProjectedIsPossible(s', run[1..]);
      ShownIsPossible(s, run[0], Projected(s', run[1..]));
    }
  }

  /** The cell's area is in the dispatcher's line through the whole run. */
  ghost predicate InLineThroughout(s: System, run: seq<Event>, c: Cell)
    requires Possible(s, run)
    decreases |run|
  {
    Waits(s.line, c) && (run != [] ==> InLineThroughout(Step(s, run[0]), run[1..], c))
  }

  /** How many of an area's sites have been handed out. */
  ghost function HandedOut(s: System, c: Cell): nat {
    if c in s.collecting then |s.collecting[c].given| else 0
  }

  ghost function GivenNow(s: System, e: Event, c: Cell): nat
    requires Enabled(s, e)
  {
    if e.Give? && Offer(s.line).cell == c then 1 else 0
  }

  lemma HandedOutStep(s: System, e: Event, c: Cell)
    requires Inv(s) && Enabled(s, e) && Waits(s.line, c)
    ensures HandedOut(Step(s, e), c) == HandedOut(s, c) + GivenNow(s, e, c)
  {
    var k :| 0 <= k < |s.line.areas| && s.line.areas[k].cell == c;
    assert Listed(s.line, s.collecting, k);
    assert CellInv(s, c);
    WaitingIsUnfinished(s.offered, s.line, s.collecting, c);
    assert Placed(s.offered, s.line, s.collecting, c);
  }

  lemma {:induction false} ShownHandouts(s: System, e: Event, rest: seq<Dispatch.Event>, c: Cell)
    requires Inv(s) && Enabled(s, e) && Orderly(Step(s, e).line) && Dispatch.Possible(Step(s, e).line, rest)
    requires Waits(s.line, c) && Dispatch.WaitsThroughout(Step(s, e).line, rest, c)
    ensures Dispatch.Possible(s.line, Shown(s, e) + rest) && Dispatch.WaitsThroughout(s.line, Shown(s, e) + rest, c)
    ensures Dispatch.Handouts(s.line, Shown(s, e) + rest, c)
         == GivenNow(s, e, c) + Dispatch.Handouts(Step(s, e).line, rest, c)
  {
    ShownIsPossible(s, e, rest);
    if e.Join? || e.Give? {
      assert (Shown(s, e) + rest)[1..] == rest;
    } else {
      assert Shown(s, e) + rest == rest;
    }
  }

  /** What an area in line is handed over a run is what the dispatcher's run hands
      it. */
  lemma {:induction false} HandedOutInLine(s: System, run: seq<Event>, c: Cell)
    requires Inv(s) && Possible(s, run) && InLineThroughout(s, run, c)
    ensures Dispatch.Possible(s.line, Projected(s, run)) && Dispatch.WaitsThroughout(s.line, Projected(s, run), c)
    ensures HandedOut(After(s, run), c) == HandedOut(s, c) + Dispatch.Handouts(s.line, Projected(s, run), c)
    decreases |run|
  {
    if run != [] {
      var s' := Step(s, run[0]);
      CellsStep(s, run[0]);
      AreasStep(s, run[0]);
      HandedOutInLine(s', run[1..], c);
      HandedOutStep(s, run[0], c);
      ShownHandouts(s, run[0], Projected(s', run[1..]), c);
    }
  }

  /** From any point of any run, over any stretch in which two areas are both in
      line, neither is handed more than one site more than the other, whatever is
      asked, admitted, deposited or released meanwhile. */
  lemma {:induction false} AreasAreServedAlike(recovered: map<Cell, int>, before: seq<Event>, stretch: seq<Event>, x: Cell, y: Cell)
    requires Possible(Initial(recovered), before) && Possible(After(Initial(recovered), before), stretch)
    requires InLineThroughout(After(Initial(recovered), before), stretch, x)
    requires InLineThroughout(After(Initial(recovered), before), stretch, y)
    ensures var s := After(Initial(recovered), before);
            var s' := After(s, stretch);
            -1 <= (HandedOut(s', x) - HandedOut(s, x)) - (HandedOut(s', y) - HandedOut(s, y)) <= 1
  {
    InitialInv(recovered);
    InvHolds(Initial(recovered), before);
    var s := After(Initial(recovered), before);
    HandedOutInLine(s, stretch, x);
    HandedOutInLine(s, stretch, y);
    NeitherFallsBehind(s.line, Projected(s, stretch), x, y);
  }

  // -------------------------------------------------------------------- cooldown

  /** The cell is free, and was read at the given instant. */
  ghost predicate Rested(s: System, c: Cell, at: int) {
    c !in s.book.state && c in s.book.done && s.book.done[c] == at
  }

  ghost predicate Releases(e: Event, c: Cell, at: int) {
    e == Finish(c, at) || e == LookupEmpty(c, at)
  }

  /** Every request for the cell in the run comes before the cooldown ends. */
  ghost predicate AsksWithin(run: seq<Event>, c: Cell, at: int) {
    forall k :: 0 <= k < |run| && run[k].Ask? && run[k].cell == c ==> run[k].now - at < COOLDOWN
  }

  lemma ReleaseRests(s: System, e: Event, c: Cell, at: int)
    requires Inv(s) && Enabled(s, e) && Releases(e, c, at)
    ensures Rested(Step(s, e), c, at)
  {
  }

  lemma RestedStep(s: System, e: Event, c: Cell, at: int)
    requires Inv(s) && Enabled(s, e) && Rested(s, c, at)
    requires e.Ask? && e.cell == c ==> e.now - at < COOLDOWN
    ensures Rested(Step(s, e), c, at) && Outstanding(s, c) == 0
    ensures e.Ask? && e.cell == c ==> Claim(s.book, c, e.now) == (CoolingDown, s.book)
  {
    assert CellInv(s, c);
  }

  lemma {:induction false} RestedThroughout(s: System, run: seq<Event>, c: Cell, at: int)
    requires Inv(s) && Possible(s, run) && Rested(s, c, at) && AsksWithin(run, c, at)
    ensures Rested(After(s, run), c, at)
    decreases |run|
  {
    if run != [] {
      RestedStep(s, run[0], c, at);
      CellsStep(s, run[0]);
      AreasStep(s, run[0]);
      assert forall k :: 0 <= k < |run[1..]| ==> run[1..][k] == run[k + 1];
      RestedThroughout(Step(s, run[0]), run[1..], c, at);
    }
  }

  lemma {:induction false} Continued(s: System, first: seq<Event>, rest: seq<Event>)
    requires Possible(s, first) && Possible(After(s, first), rest)
    ensures Possible(s, first + rest) && After(s, first + rest) == After(After(s, first), rest)
    decreases |first|
  {
    if first == [] {
      assert first + rest == rest;
    } else {
      assert (first + rest)[1..] == first[1..] + rest;
      Continued(Step(s, first[0]), first[1..], rest);
    }
  }

  /** After a release that counts as a read, whatever happens elsewhere, every
      request for the cell within the cooldown is turned away and no work on the
      cell is ever under way. */
  lemma {:induction false} NothingIsAcceptedWhileCooling(recovered: map<Cell, int>, before: seq<Event>, e: Event,
                                                         run: seq<Event>,
                                      c: Cell, at: int, now: int)
    requires Possible(Initial(recovered), before)
    requires Enabled(After(Initial(recovered), before), e) && Releases(e, c, at)
    requires Possible(Step(After(Initial(recovered), before), e), run) && AsksWithin(run, c, at)
    requires now - at < COOLDOWN
    ensures var s := After(Step(After(Initial(recovered), before), e), run);
            && Claim(s.book, c, now) == (CoolingDown, s.book)
            && Outstanding(s, c) == 0
  {
    InitialInv(recovered);
    InvHolds(Initial(recovered), before);
    var released := After(Initial(recovered), before);
    ReleaseRests(released, e, c, at);
    CellsStep(released, e);
    AreasStep(released, e);
    RestedThroughout(Step(released, e), run, c, at);
    InvHolds(Step(released, e), run);
    assert CellInv(After(Step(released, e), run), c);
  }

  // ------------------------------------------------------- what an asker is told

  /** When the cell was last released as read, going by the run and, before it, by
      what was recovered. */
  function LastRead(recovered: map<Cell, int>, run: seq<Event>, c: Cell): Option<int>
    decreases |run|
  {
    if run == [] then (if c in recovered then Some(recovered[c]) else None)
    else ReadBy(run[|run| - 1], c, LastRead(recovered, run[..|run| - 1], c))
  }

  /** An area is read when its collecting is finished, or when it has no site. */
  function ReadBy(e: Event, c: Cell, before: Option<int>): Option<int> {
    match e
    case Finish(d, now) => if d == c then Some(now) else before
    case LookupEmpty(d, now) => if d == c then Some(now) else before
    case _ => before
  }

  ghost predicate DoneAt(s: System, c: Cell, at: Option<int>) {
    match at
    case Some(instant) => c in s.book.done && s.book.done[c] == instant
    case None => c !in s.book.done
  }

  lemma {:induction false} PossibleSoFar(s: System, run: seq<Event>)
    requires run != [] && Possible(s, run)
    ensures var n := |run| - 1;
            && Possible(s, run[..n]) && Enabled(After(s, run[..n]), run[n])
            && After(s, run) == Step(After(s, run[..n]), run[n])
    decreases |run|
  {
    var n := |run| - 1;
    if n > 0 {
      assert run[1..][..n - 1] == run[..n][1..];
      PossibleSoFar(Step(s, run[0]), run[1..]);
    }
  }

  lemma DoneStep(s: System, e: Event, c: Cell, at: Option<int>)
    requires Enabled(s, e) && DoneAt(s, c, at)
    ensures DoneAt(Step(s, e), c, ReadBy(e, c, at))
  {
  }

  lemma {:induction false} DoneIsLastRead(recovered: map<Cell, int>, run: seq<Event>, c: Cell)
    requires Possible(Initial(recovered), run)
    ensures DoneAt(After(Initial(recovered), run), c, LastRead(recovered, run, c))
    decreases |run|
  {
    if run != [] {
      PossibleSoFar(Initial(recovered), run);
      DoneIsLastRead(recovered, run[..|run| - 1], c);
      DoneStep(After(Initial(recovered), run[..|run| - 1]), run[|run| - 1], c, LastRead(recovered, run[..|run| - 1], c));
    }
  }

  /** How long ago, if ever, the cell was last read. */
  predicate ReadWithinADay(last: Option<int>, now: int) {
    last.Some? && now - last.value < 24 * HOUR
  }

  /** After every run, whatever is asked: a cell read within the day is turned away; a
      cell with a request under way is told so, and that it is running exactly when it
      is being collected; and otherwise, and only then, the asking puts exactly one
      request under way. */
  lemma {:induction false} EveryAskIsAnsweredRightly(recovered: map<Cell, int>, run: seq<Event>, c: Cell, now: int)
    requires Possible(Initial(recovered), run)
    ensures var s := After(Initial(recovered), run);
            var s', reply := Step(s, Ask(c, now)), Claim(s.book, c, now).0;
            var recent := ReadWithinADay(LastRead(recovered, run, c), now);
            && (reply == CoolingDown <==> recent)
            && (reply == AlreadyRunning <==> !recent && c in s.collecting)
            && (reply == AlreadyQueued <==> !recent && c !in s.collecting && Outstanding(s, c) == 1)
            && (reply == Claimed <==> !recent && Outstanding(s, c) == 0)
            && (reply == Claimed ==> Outstanding(s', c) == 1 && c in s'.sending)
            && (reply != Claimed ==> s' == s)
            && (forall d :: d != c ==> Outstanding(s', d) == Outstanding(s, d))
  {
    InitialInv(recovered);
    InvHolds(Initial(recovered), run);
    DoneIsLastRead(recovered, run, c);
    assert CellInv(After(Initial(recovered), run), c);
  }

  // --------------------------------------------------- progress, told and made

  /** The progress shown of an area is its number of sites and of reports taken. */
  ghost predicate ProgressOf(s: System, c: Cell) {
    c in s.collecting ==>
      && c in s.book.progress
      && s.book.progress[c].sites == |s.collecting[c].targets|
      && s.book.progress[c].read == s.collecting[c].taken
  }

  ghost predicate ProgressIsTrue(s: System) {
    forall c :: c in s.collecting ==> ProgressOf(s, c)
  }

  lemma ProgressOfStep(s: System, e: Event, c: Cell)
    requires CellInv(s, c) && ProgressOf(s, c) && Enabled(s, e)
    ensures ProgressOf(Step(s, e), c)
  {
  }

  lemma ProgressStep(s: System, e: Event)
    requires Inv(s) && ProgressIsTrue(s) && Enabled(s, e)
    ensures ProgressIsTrue(Step(s, e))
  {
    forall c | c in Step(s, e).collecting ensures ProgressOf(Step(s, e), c) {
      assert CellInv(s, c);
      ProgressOfStep(s, e, c);
    }
  }

  lemma {:induction false} ProgressStaysTrue(s: System, run: seq<Event>)
    requires Inv(s) && ProgressIsTrue(s) && Possible(s, run)
    ensures ProgressIsTrue(After(s, run))
    decreases |run|
  {
    if run != [] {
      CellsStep(s, run[0]);
      AreasStep(s, run[0]);
      ProgressStep(s, run[0]);
      ProgressStaysTrue(Step(s, run[0]), run[1..]);
    }
  }

  /** After every run, a visitor asking after an area is shown how many sites it has
      and how many of them were reported. */
  lemma {:induction false} ProgressShownIsTrue(recovered: map<Cell, int>, run: seq<Event>)
    requires Possible(Initial(recovered), run)
    ensures ProgressIsTrue(After(Initial(recovered), run))
  {
    InitialInv(recovered);
    ProgressStaysTrue(Initial(recovered), run);
  }

  /** While any request is under way, something other than asking can happen: the
      queue never comes to a standstill. */
  lemma {:induction false} NeverAtAStandstill(recovered: map<Cell, int>, run: seq<Event>, c: Cell)
    returns (next: Event)
    requires Possible(Initial(recovered), run) && Outstanding(After(Initial(recovered), run), c) > 0
    ensures !next.Ask? && Enabled(After(Initial(recovered), run), next)
  {
    var s := After(Initial(recovered), run);
    InitialInv(recovered);
    InvHolds(Initial(recovered), run);
    if c in s.sending {
      next := if |s.queue| < QUEUE_DEPTH then Send(c) else Refuse(c);
    } else if s.preparing != multiset{} {
      var d :| d in s.preparing;
      next := LookupFailed(d);
    } else if s.offered != {} {
      var d :| d in s.offered;
      next := Join(d);
    } else if c in s.collecting {
      next := CollectingGoesOn(s, c);
    } else {
      assert c in multiset(s.queue);
      assert |s.preparing| == 0 && |s.offered| == 0;
      next := Admit;
    }
  }

  lemma CollectingGoesOn(s: System, c: Cell) returns (next: Event)
    requires Inv(s) && c in s.collecting && s.offered == {}
    ensures !next.Ask? && Enabled(s, next)
  {
    var d := s.collecting[c];
    assert Placed(s.offered, s.line, s.collecting, c);
    if s.line.areas != [] {
      assert Listed(s.line, s.collecting, s.line.turn);
      next := Give;
    } else if d.held > 0 {
      next := Deposit(c);
    } else if d.buffered > 0 {
      next := Collect(c, 0);
    } else {
      next := Finish(c, 0);
    }
  }
}
