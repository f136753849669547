/** When each timer of a run of schedules and ticks fires, and in which order. */
module TimerRuns {
  import opened Basics
  import opened TimerIds
  import opened TimerWheels

  /** An accepted schedule, or an advance by some number of ticks; a negative number is none. */
  datatype Op = Schedule(delay: nat) | Advance(ticks: int)

  function Apply(book: Book, op: Op): (next: Book) {
    match op
    case Schedule(d) => book.Schedule(d)
    case Advance(n) => book.Ticks(Max(0, n))
  }

  /** The ordered list after a run. */
  function After(ops: seq<Op>): (book: Book)
  {
    if ops == [] then Book(0, 0, [], []) else Apply(After(ops[..|ops| - 1]), ops[|ops| - 1])
  }

  /** The timer that schedule i creates. */
  function Made(ops: seq<Op>, i: nat): (e: Entry)
    requires i < |ops| && ops[i].Schedule?
  {
    Entry(After(ops[..i]).created, After(ops[..i]).now + ops[i].delay)
  }

  /** Before in the order of firing: earlier tick, or same tick and smaller id. */
  ghost predicate FiresBefore(a: Entry, b: Entry) {
    a.fireTick < b.fireTick || (a.fireTick == b.fireTick && IdBefore(a.number, b.number))
  }

  ghost predicate FiringOrder(s: seq<Entry>) { forall i, j | 0 <= i < j < |s| :: FiresBefore(s[i], s[j]) }

  ghost predicate Sound(b: Book) {
    && Numbered(b.pending) && (forall e | e in b.pending :: e.number < b.created)
    && FiringOrder(b.fired) && (forall e | e in b.fired :: e.number < b.created && e.fireTick <= b.now)
  }

  lemma {:induction false} FiredTick(fired: seq<Entry>, due: seq<Entry>, now: nat)
    requires FiringOrder(fired) && ById(due)
    requires (forall e | e in fired :: e.fireTick < now) && forall e | e in due :: e.fireTick == now
    ensures FiringOrder(fired + due)
  {
    hide IdBefore;
    var all := fired + due;
    forall i, j | 0 <= i < j < |all| ensures FiresBefore(all[i], all[j]) {
      assert i < |fired| ==> all[i] in fired;
      assert j >= |fired| ==> all[j] in due;
      assert i >= |fired| ==> all[i] in due && all[i] == due[i - |fired|] && all[j] == due[j - |fired|];
    }
  }

  /** Where a tick takes each timer. */
  lemma {:induction false} TickMoves(b: Book)
    requires Sound(b)
    ensures Sound(b.Tick())
    ensures forall e :: e in b.Tick().fired <==> e in b.fired || (e in b.pending && e.fireTick == b.now + 1)
    ensures forall e :: e in b.Tick().pending <==> e in b.pending && e.fireTick != b.now + 1
  {
    hide Due, Rest, SortById, IdBefore, Numbered, ById, FiringOrder;
    var now := b.now + 1;
    Members(b.pending, now);
    PartsNumbered(b.pending, now);
    SortSorts(Due(b.pending, now));
    FiredTick(b.fired, SortById(Due(b.pending, now)), now);
  }

  /** An advance: the clock is n later; exactly the pending timers whose tick has come by then have fired, behind all
      that had fired before; the others are pending still. */
  lemma {:induction false} TicksMove(b: Book, n: nat)
    requires Sound(b)
    ensures var next := b.Ticks(n);
      && Sound(next) && next.now == b.now + n && next.created == b.created && b.fired <= next.fired
      && (forall e :: e in next.fired <==> e in b.fired || (e in b.pending && b.now < e.fireTick <= b.now + n))
      && (forall e :: e in next.pending <==> e in b.pending && !(b.now < e.fireTick <= b.now + n))
    decreases n
  {
    hide Sound, Book.Tick;
    if n > 0 {
      TicksMove(b, n - 1);
      TickMoves(b.Ticks(n - 1));
      TickClock(b.Ticks(n - 1));
    }
  }

  lemma {:induction false} TickClock(b: Book)
    ensures b.Tick().now == b.now + 1 && b.Tick().created == b.created && b.fired <= b.Tick().fired
  {
    hide SortById, Due, Rest;
  }

  /** What an advance returns is in the order of firing and holds exactly the timers that came due. */
  lemma {:induction false} AdvanceReturns(b: Book, n: nat, out: seq<Entry>)
    requires Sound(b) && b.Ticks(n).fired == b.fired + out
    ensures FiringOrder(out)
    ensures forall e :: e in out <==> e in b.pending && b.now < e.fireTick <= b.now + n
  {
    hide FiresBefore, Book.Ticks, Numbered;
    TicksMove(b, n);
    OrderOfRest(b.fired, out);
    forall e ensures e in out <==> e in b.pending && b.now < e.fireTick <= b.now + n {
      assert e in b.fired + out <==> e in b.fired || e in out;
      if e in b.fired { FiredOnce(b.fired, out, e); }
    }
  }

  lemma {:induction false} OrderOfRest(s: seq<Entry>, t: seq<Entry>)
    requires FiringOrder(s + t)
    ensures FiringOrder(t)
  {
    hide FiresBefore;
    var all := s + t;
    forall i, j | 0 <= i < j < |t| ensures FiresBefore(t[i], t[j]) {
      assert all[|s| + i] == t[i] && all[|s| + j] == t[j];
    }
  }

  lemma {:induction false} FiredOnce(s: seq<Entry>, t: seq<Entry>, e: Entry)
    requires FiringOrder(s + t) && e in s
    ensures e !in t
  {
    hide FiresBefore;
    var i :| 0 <= i < |s| && s[i] == e;
    if j :| 0 <= j < |t| && t[j] == e {
      var all := s + t;
      assert all[i] == e && all[|s| + j] == e;
      NotBeforeItself(e);
    }
  }

  lemma {:induction false} NotBeforeItself(e: Entry)
    ensures !FiresBefore(e, e)
  {
    hide IdBefore;
    IdTotal(e.number, e.number);
  }

  lemma {:induction false} ScheduleMoves(b: Book, delay: nat)
    requires Sound(b)
    ensures Sound(b.Schedule(delay))
  {
    hide IdBefore, FiringOrder;
    NumberedSnoc(b.pending, Entry(b.created, b.now + delay));
  }

  lemma {:induction false} RunsAreSound(ops: seq<Op>)
    ensures Sound(After(ops))
    decreases |ops|
  {
    if ops != [] {
      hide Sound;
      RunsAreSound(ops[..|ops| - 1]);
      var b := After(ops[..|ops| - 1]);
      match ops[|ops| - 1]
      case Schedule(d) => ScheduleMoves(b, d);
      case Advance(n) => TicksMove(b, Max(0, n));
    } else {
      assert After(ops) == Book(0, 0, [], []);
    }
  }

  /** Fired exactly when the delay was at least one tick and the tick has come; pending otherwise. */
  ghost predicate Punctual(b: Book, e: Entry, delay: nat) {
    && (e in b.fired <==> delay >= 1 && e.fireTick <= b.now)
    && (e in b.pending <==> e !in b.fired)
  }

  lemma {:induction false} PunctualAtStart(b: Book, delay: nat)
    requires Sound(b)
    ensures Punctual(b.Schedule(delay), Entry(b.created, b.now + delay), delay)
  {
    hide IdBefore, FiringOrder, Numbered;
  }

  lemma {:induction false} PunctualAfterSchedule(b: Book, e: Entry, delay: nat, next: nat)
    requires Punctual(b, e, delay) && e.number < b.created
    ensures Punctual(b.Schedule(next), e, delay)
  {
  }

  lemma {:induction false} PunctualAfterAdvance(b: Book, e: Entry, delay: nat, n: nat)
    requires Sound(b) && Punctual(b, e, delay) && (delay == 0 ==> e.fireTick <= b.now)
    ensures Punctual(b.Ticks(n), e, delay)
  {
    TicksMove(b, n);
    hide Sound, Due, Rest, SortById, Book.Ticks;
  }

  /**
   * Over every run: the timer of schedule i has fired exactly when its delay was at least one tick and its tick
   * has come; until then, and forever for a delay of zero, it is pending.
   */
  lemma {:induction false} FiresExactlyOnTime(ops: seq<Op>, i: nat)
    requires i < |ops| && ops[i].Schedule?
    ensures Punctual(After(ops), Made(ops, i), ops[i].delay)
    decreases |ops|
  {
    hide Punctual, Sound, After, Made, Due, Rest, SortById;
    var last := |ops| - 1;
    var front := ops[..last];
    RunsAreSound(front);
    AfterLast(ops, i);
    if i == last {
      PunctualAtStart(After(front), ops[i].delay);
    } else {
      FiresExactlyOnTime(front, i);
      MadeIsPast(front, i);
      match ops[last]
      case Schedule(d) => PunctualAfterSchedule(After(front), Made(ops, i), ops[i].delay, d);
      case Advance(n) => PunctualAfterAdvance(After(front), Made(ops, i), ops[i].delay, Max(0, n));
    }
  }

  lemma {:induction false} AfterLast(ops: seq<Op>, i: nat)
    requires i < |ops| && ops[i].Schedule?
    ensures var front := ops[..|ops| - 1];
      && After(ops) == Apply(After(front), ops[|ops| - 1])
      && (if i == |front| then Made(ops, i) == Entry(After(front).created, After(front).now + ops[i].delay) else Made(front, i) == Made(ops, i))
  {
    if i < |ops| - 1 { assert ops[..|ops| - 1][..i] == ops[..i]; }
  }

  lemma {:induction false} MadeIsPast(ops: seq<Op>, i: nat)
    requires i < |ops| && ops[i].Schedule?
    ensures Made(ops, i).number < After(ops).created
    ensures After(ops[..i]).now <= After(ops).now
    ensures ops[i].delay == 0 ==> Made(ops, i).fireTick <= After(ops).now
    decreases |ops|
  {
    var front := ops[..|ops| - 1];
    if i < |front| {
      assert front[..i] == ops[..i];
      MadeIsPast(front, i);
      RunsAreSound(front);
      if ops[|front|].Advance? { TicksMove(After(front), Max(0, ops[|front|].ticks)); }
    }
  }

  /** What has fired is in the order of ticks and, within a tick, of ids; so no timer fires twice. */
  lemma {:induction false} FiredInOrder(ops: seq<Op>)
    ensures FiringOrder(After(ops).fired) && Distinct(After(ops).fired)
  {
    hide IdBefore;
    RunsAreSound(ops);
    var fired := After(ops).fired;
    forall i, j | 0 <= i < j < |fired| ensures fired[i] != fired[j] {
      assert FiresBefore(fired[i], fired[j]);
      IdTotal(fired[i].number, fired[i].number);
    }
  }

  /** With at most 100000 timers created the order within a tick is the order of creation. */
  lemma {:induction false} FiredInCreationOrder(ops: seq<Op>, i: nat, j: nat)
    requires After(ops).created <= 100000 && i < j < |After(ops).fired|
    ensures var a, b := After(ops).fired[i], After(ops).fired[j];
      a.fireTick < b.fireTick || (a.fireTick == b.fireTick && a.number < b.number)
  {
    hide IdBefore, After;
    RunsAreSound(ops);
    var a, b := After(ops).fired[i], After(ops).fired[j];
    assert FiresBefore(a, b) && a in After(ops).fired && b in After(ops).fired;
    FiveDigitOrder(a.number, b.number);
  }

  /** A number of timers of one tick each, and then that tick. */
  function AtOnce(count: nat): seq<Op> { seq(count, _ => Schedule(1)) + [Advance(1)] }

  function OneTick(count: nat): (s: seq<Entry>)
    ensures |s| == count && forall i | 0 <= i < count :: s[i] == Entry(i, 1)
  {
    seq(count, (i: nat) => Entry(i, 1))
  }

  lemma {:induction false} AfterSchedules(count: nat)
    ensures After(seq(count, _ => Schedule(1))) == Book(0, count, OneTick(count), [])
    decreases count
  {
    if count > 0 {
      var ops := seq(count, _ => Schedule(1));
      assert ops[..count - 1] == seq(count - 1, _ => Schedule(1));
      AfterSchedules(count - 1);
      assert OneTick(count) == OneTick(count - 1) + [Entry(count - 1, 1)];
    } else {
      assert OneTick(0) == [];
    }
  }

  lemma {:induction false} AllFire(count: nat)
    ensures forall e :: e in After(AtOnce(count)).fired <==> e.fireTick == 1 && e.number < count
    ensures After(AtOnce(count)).created == count
  {
    var ops := seq(count, _ => Schedule(1));
    var b := After(ops);
    assert AtOnce(count)[..count] == ops;
    AfterSchedules(count);
    RunsAreSound(ops);
    TicksMove(b, 1);
    hide Sound, Due, Rest, SortById, Book.Ticks;
    forall e ensures e in OneTick(count) <==> e.fireTick == 1 && e.number < count {
      if e.fireTick == 1 && e.number < count { assert OneTick(count)[e.number] == e; }
    }
  }

  /** Timers scheduled one after the other for the same tick fire in that order exactly when there are at most 100000. */
  lemma {:induction false} AtOnceInOrderIff(count: nat)
    ensures var fired := After(AtOnce(count)).fired;
      (forall i, j | 0 <= i < j < |fired| :: fired[i].number < fired[j].number) <==> count <= 100000
  {
    hide IdBefore, After, FiringOrder;
    var ops := AtOnce(count);
    var fired := After(ops).fired;
    AllFire(count);
    if count <= 100000 {
      forall i, j | 0 <= i < j < |fired| ensures fired[i].number < fired[j].number {
        FiredInCreationOrder(ops, i, j);
        assert fired[i] in fired && fired[j] in fired;
      }
    } else {
      Overtakes(ops);
    }
  }

  /** Timer 100000 fires before timer 99999 when both fire in the same tick. */
  lemma {:induction false} Overtakes(ops: seq<Op>)
    requires Entry(99999, 1) in After(ops).fired && Entry(100000, 1) in After(ops).fired
    ensures var fired := After(ops).fired;
      exists i, j :: 0 <= i < j < |fired| && fired[i] == Entry(100000, 1) && fired[j] == Entry(99999, 1)
  {
    hide IdBefore, After;
    var fired := After(ops).fired;
    FiredInOrder(ops);
    var j :| 0 <= j < |fired| && fired[j] == Entry(99999, 1);
    var i :| 0 <= i < |fired| && fired[i] == Entry(100000, 1);
    SixDigitsOvertake();
    IdTotal(99999, 100000);
    assert j < i ==> FiresBefore(fired[j], fired[i]);
  }
}
