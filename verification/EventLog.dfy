/**
 The history of an expense request as a word over its event types: an automaton that reads the
 log event by event, and the regular expression it is proved to accept.
 */
module EventLog {
  import opened Wrappers
  import opened LedgerModel

  /** Where a request stands after the events read so far. */
  datatype Phase =
    | Start | Pending | Withdrawn | Denied | Cancelled
    | Deciding | Holding | Releasing | Released
    | Registering | Consumed | ConsumedInPart | ExpenseGone

  function Next(p: Phase, k: EventType): Option<Phase> {
    match (p, k)
    case (Start, Created) => Some(Pending)
    case (Pending, Updated) => Some(Pending)
    case (Pending, Withdrawn) => Some(Phase.Withdrawn)
    case (Pending, Denied) => Some(Phase.Denied)
    case (Pending, Approved) => Some(Deciding)
    case (Pending, Annulled) => Some(Cancelled)
    case (Deciding, ReservationCreated) => Some(Holding)
    case (Holding, Annulled) => Some(Releasing)
    case (Releasing, ReservationReleased) => Some(Released)
    case (Holding, ExpenseRegistered) => Some(Registering)
    case (Registering, ReservationConsumed) => Some(Consumed)
    case (Consumed, UnusedReservationReleased) => Some(ConsumedInPart)
    case (Consumed, LinkedExpenseAnnulled) => Some(ExpenseGone)
    case (ConsumedInPart, LinkedExpenseAnnulled) => Some(ExpenseGone)
    case _ => None
  }

  /** Phase reached by reading the whole log, or None when some event is out of place. */
  function Read(log: seq<Event>): Option<Phase> {
    if log == [] then Some(Start)
    else
      var before := Read(log[..|log| - 1]);
      if before.None? then None else Next(before.value, log[|log| - 1].kind)
  }

  function Amount(x: Option<int>): int {
    if x.Some? then x.value else 0
  }

  /** What one event adds to (or takes from) the reservation of its request. */
  function ReservationDelta(e: Event): int {
    match e.kind
    case ReservationCreated => Amount(e.reserved)
    case ReservationConsumed => -Amount(e.executed)
    case UnusedReservationReleased => -Amount(e.released)
    case ReservationReleased => -Amount(e.released)
    case _ => 0
  }

  /** Reservations created minus consumed minus released, over a whole log. */
  function NetReserved(log: seq<Event>): int {
    if log == [] then 0 else NetReserved(log[..|log| - 1]) + ReservationDelta(log[|log| - 1])
  }

  lemma ReadAppend(log: seq<Event>, e: Event)
    ensures Read(log + [e]) == if Read(log).None? then None else Next(Read(log).value, e.kind)
    ensures NetReserved(log + [e]) == NetReserved(log) + ReservationDelta(e)
  {
    assert (log + [e])[..|log|] == log;
  }

  // ---- The same language as a regular expression ----------------------------------------

  function Kinds(log: seq<Event>): seq<EventType> {
    seq(|log|, i requires 0 <= i < |log| => log[i].kind)
  }

  function Updates(n: nat): seq<EventType> {
    seq(n, _ => Updated)
  }

  /** CREATED UPDATED^n followed by tail. */
  function Word(n: nat, tail: seq<EventType>): seq<EventType> {
    [Created] + Updates(n) + tail
  }

  /** The tails a log may end with when it has reached phase p. */
  predicate TailOf(tail: seq<EventType>, p: Phase) {
    match p
    case Start => false
    case Pending => tail == []
    case Withdrawn => tail == [EventType.Withdrawn]
    case Denied => tail == [EventType.Denied]
    case Cancelled => tail == [EventType.Annulled]
    case Deciding => tail == [Approved]
    case Holding => tail == [Approved, ReservationCreated]
    case Releasing => tail == [Approved, ReservationCreated, EventType.Annulled]
    case Released => tail == [Approved, ReservationCreated, EventType.Annulled, ReservationReleased]
    case Registering => tail == [Approved, ReservationCreated, ExpenseRegistered]
    case Consumed => tail == [Approved, ReservationCreated, ExpenseRegistered, ReservationConsumed]
    case ConsumedInPart =>
      tail == [Approved, ReservationCreated, ExpenseRegistered, ReservationConsumed, UnusedReservationReleased]
    case ExpenseGone =>
      || tail == [Approved, ReservationCreated, ExpenseRegistered, ReservationConsumed, LinkedExpenseAnnulled]
      || tail == [Approved, ReservationCreated, ExpenseRegistered, ReservationConsumed,
                  UnusedReservationReleased, LinkedExpenseAnnulled]
  }

  lemma KindsInit(log: seq<Event>)
    requires log != []
    ensures Kinds(log) == Kinds(log[..|log| - 1]) + [log[|log| - 1].kind]
  {
  }

  lemma SameSplit<T>(a: seq<T>, x: T, b: seq<T>, y: T)
    requires a + [x] == b + [y]
    ensures a == b && x == y
  {
    assert a == (a + [x])[..|a|] && b == (b + [y])[..|b|];
    assert (a + [x])[|a|] == x && (b + [y])[|b|] == y;
  }

  lemma WordExtend(n: nat, tail: seq<EventType>, k: EventType)
    ensures Word(n, tail) + [k] == Word(n, tail + [k])
    ensures Word(n, []) + [Updated] == Word(n + 1, [])
  {
    assert Updates(n) + [Updated] == Updates(n + 1);
  }

  /** Every log the automaton reads is a word of the regular expression, with the tail of its phase. */
  lemma {:induction false} ReadGivesWord(log: seq<Event>) returns (n: nat, tail: seq<EventType>)
    requires Read(log).Some? && log != []
    ensures TailOf(tail, Read(log).value) && Kinds(log) == Word(n, tail)
  {
    var init, k := log[..|log| - 1], log[|log| - 1].kind;
    KindsInit(log);
    if init == [] {
      n, tail := 0, [];
    } else {
      n, tail := ReadGivesWord(init);
      WordExtend(n, tail, k);
      if k == Updated {
        n := n + 1;
      } else {
        tail := tail + [k];
      }
    }
  }

  lemma {:induction false} ReadUpdates(log: seq<Event>, n: nat)
    requires Kinds(log) == Word(n, [])
    ensures Read(log) == Some(Pending)
  {
    var init := log[..|log| - 1];
    KindsInit(log);
    if n == 0 {
      assert |Kinds(log)| == 1 && init == [];
      assert Kinds(log)[0] == Created;
    } else {
      WordExtend(n - 1, [], Updated);
      SameSplit(Kinds(init), log[|log| - 1].kind, Word(n - 1, []), Updated);
      ReadUpdates(init, n - 1);
    }
  }

  /** Conversely, every word of the regular expression is read to the end, in the phase of its tail. */
  lemma {:induction false} WordIsRead(log: seq<Event>, n: nat, tail: seq<EventType>, p: Phase)
    requires TailOf(tail, p) && Kinds(log) == Word(n, tail)
    ensures Read(log) == Some(p)
    decreases |tail|
  {
    if tail == [] {
      ReadUpdates(log, n);
    } else {
      var shorter, k := tail[..|tail| - 1], tail[|tail| - 1];
      var init := log[..|log| - 1];
      KindsInit(log);
      WordExtend(n, shorter, k);
      assert shorter + [k] == tail;
      SameSplit(Kinds(init), log[|log| - 1].kind, Word(n, shorter), k);
      var q := Before(p, tail);
      WordIsRead(init, n, shorter, q);
    }
  }

  /** The phase just before the last event of a tail. */
  function Before(p: Phase, tail: seq<EventType>): (q: Phase)
    requires TailOf(tail, p) && tail != []
    ensures TailOf(tail[..|tail| - 1], q) && Next(q, tail[|tail| - 1]) == Some(p)
  {
    match p
    case Withdrawn => Pending
    case Denied => Pending
    case Cancelled => Pending
    case Deciding => Pending
    case Holding => Deciding
    case Releasing => Holding
    case Released => Releasing
    case Registering => Holding
    case Consumed => Registering
    case ConsumedInPart => Consumed
    case ExpenseGone => if |tail| == 5 then Consumed else ConsumedInPart
  }

  /** The automaton accepts exactly the words of the regular expression. */
  lemma LanguageExact(log: seq<Event>, p: Phase)
    requires p != Start
    ensures Read(log) == Some(p) <==> exists n: nat, tail :: TailOf(tail, p) && Kinds(log) == Word(n, tail)
  {
    if Read(log) == Some(p) {
      var n, tail := ReadGivesWord(log);
    }
    if n: nat, tail :| TailOf(tail, p) && Kinds(log) == Word(n, tail) {
      WordIsRead(log, n, tail, p);
    }
  }
}
