/** The hashed timer wheel, a plain ordered list that it refines, and when each timer of a run fires. */
module TimerWheels {
  import opened Basics
  import opened TimerIds

  datatype Entry = Entry(number: nat, fireTick: nat)

  // ---- sorting by id ----

  function Insert(s: seq<Entry>, e: Entry): (t: seq<Entry>)
  {
    if s == [] then [e]
    else if IdBefore(e.number, s[0].number) then [e] + s
    else [s[0]] + Insert(s[1..], e)
  }

  /** The stable sort by timer id. */
  function SortById(s: seq<Entry>): (t: seq<Entry>)
  {
    if s == [] then [] else Insert(SortById(s[..|s| - 1]), s[|s| - 1])
  }

  ghost predicate ById(s: seq<Entry>) { forall i, j | 0 <= i < j < |s| :: IdBefore(s[i].number, s[j].number) }

  ghost predicate Numbered(s: seq<Entry>) { forall i, j | 0 <= i < j < |s| :: s[i].number < s[j].number }

  lemma {:induction false} InsertSorts(s: seq<Entry>, e: Entry)
    requires ById(s) && forall x | x in s :: x.number != e.number
    ensures ById(Insert(s, e)) && forall x :: x in Insert(s, e) <==> x in s || x == e
    decreases |s|
  {
    hide IdBefore;
    if s != [] {
      IdTotal(e.number, s[0].number);
      if IdBefore(e.number, s[0].number) {
        forall x | x in s[1..] ensures IdBefore(e.number, x.number) {
          IdTransitive(e.number, s[0].number, x.number);
        }
      } else {
        InsertSorts(s[1..], e);
        assert s == [s[0]] + s[1..];
        assert forall x | x in Insert(s[1..], e) :: IdBefore(s[0].number, x.number);
      }
    }
  }

  lemma {:induction false} IdTransitive(a: nat, b: nat, c: nat)
    requires IdBefore(a, b) && IdBefore(b, c)
    ensures IdBefore(a, c)
  {
    TextTransitive(Id(a), Id(b), Id(c));
  }

  lemma {:induction false} SortSorts(s: seq<Entry>)
    requires Numbered(s)
    ensures ById(SortById(s)) && forall x :: x in SortById(s) <==> x in s
    decreases |s|
  {
    hide IdBefore;
    if s != [] {
      SortSorts(s[..|s| - 1]);
      InsertSorts(SortById(s[..|s| - 1]), s[|s| - 1]);
    }
  }

  // ---- filters ----

  /** Entries due at tick t, in their order. */
  function Due(s: seq<Entry>, t: nat): (d: seq<Entry>)
  {
    if s == [] then []
    else if s[|s| - 1].fireTick == t then Due(s[..|s| - 1], t) + [s[|s| - 1]]
    else Due(s[..|s| - 1], t)
  }

  /** Entries not due at tick t. */
  function Rest(s: seq<Entry>, t: nat): (d: seq<Entry>)
  {
    if s == [] then []
    else if s[|s| - 1].fireTick != t then Rest(s[..|s| - 1], t) + [s[|s| - 1]]
    else Rest(s[..|s| - 1], t)
  }

  /** Entries filed in slot k. */
  function Slot(s: seq<Entry>, k: nat, slots: nat): (d: seq<Entry>)
    requires slots > 0
  {
    if s == [] then []
    else if s[|s| - 1].fireTick % slots == k then Slot(s[..|s| - 1], k, slots) + [s[|s| - 1]]
    else Slot(s[..|s| - 1], k, slots)
  }

  lemma {:induction false} Members(s: seq<Entry>, t: nat)
    ensures forall e :: e in Due(s, t) <==> e in s && e.fireTick == t
    ensures forall e :: e in Rest(s, t) <==> e in s && e.fireTick != t
    decreases |s|
  {
    if s != [] {
      var front, last := s[..|s| - 1], s[|s| - 1];
      Members(front, t);
      assert s == front + [last];
      assert forall e :: e in s <==> e in front || e == last;
      DueSnoc(front, last, t);
      hide Due, Rest;
    }
  }

  lemma {:induction false} PartsNumbered(s: seq<Entry>, t: nat)
    requires Numbered(s)
    ensures Numbered(Due(s, t)) && Numbered(Rest(s, t))
    decreases |s|
  {
    if s != [] {
      var front, last := s[..|s| - 1], s[|s| - 1];
      PartsNumbered(front, t);
      Members(front, t);
      assert forall e | e in front :: e.number < last.number;
      NumberedSnoc(Due(front, t), last);
      NumberedSnoc(Rest(front, t), last);
    }
  }

  lemma {:induction false} NumberedSnoc(s: seq<Entry>, e: Entry)
    requires Numbered(s)
    ensures (forall x | x in s :: x.number < e.number) ==> Numbered(s + [e])
  {
  }

  lemma {:induction false} DueSnoc(s: seq<Entry>, e: Entry, t: nat)
    ensures Due(s + [e], t) == if e.fireTick == t then Due(s, t) + [e] else Due(s, t)
    ensures Rest(s + [e], t) == if e.fireTick != t then Rest(s, t) + [e] else Rest(s, t)
  {
    assert (s + [e])[..|s|] == s;
  }

  /** What is due is found in its own slot, and only that slot loses entries. */
  lemma {:induction false} SlotOfDue(s: seq<Entry>, t: nat, k: nat, slots: nat)
    requires slots > 0 && k < slots
    ensures Due(Slot(s, t % slots, slots), t) == Due(s, t)
    ensures Slot(Rest(s, t), k, slots) == if k == t % slots then Rest(Slot(s, k, slots), t) else Slot(s, k, slots)
    decreases |s|
  {
    if s != [] {
      hide Due, Rest, Slot;
      var front, last := s[..|s| - 1], s[|s| - 1];
      assert s == front + [last];
      SlotOfDue(front, t, k, slots);
      DueSnoc(front, last, t);
      SlotSnoc(front, last, k, slots);
      SlotSnoc(front, last, t % slots, slots);
      DueSnoc(Slot(front, t % slots, slots), last, t);
      DueSnoc(Slot(front, k, slots), last, t);
      SlotSnoc(Rest(front, t), last, k, slots);
    }
  }

  lemma {:induction false} SlotSnoc(s: seq<Entry>, e: Entry, k: nat, slots: nat)
    requires slots > 0
    ensures Slot(s + [e], k, slots) == if e.fireTick % slots == k then Slot(s, k, slots) + [e] else Slot(s, k, slots)
  {
    assert (s + [e])[..|s|] == s;
  }

  lemma {:induction false} SlotNumbered(s: seq<Entry>, k: nat, slots: nat)
    requires slots > 0 && Numbered(s)
    ensures Numbered(Slot(s, k, slots)) && forall e | e in Slot(s, k, slots) :: e in s
    decreases |s|
  {
    if s != [] {
      SlotNumbered(s[..|s| - 1], k, slots);
      assert forall e | e in s[..|s| - 1] :: e.number < s[|s| - 1].number;
    }
  }

  // ---- the ordered list ----

  /** The reference: everything not fired in creation order, and everything fired. */
  datatype Book = Book(now: nat, created: nat, pending: seq<Entry>, fired: seq<Entry>) {
    function Schedule(delay: nat): Book {
      this.(created := created + 1, pending := pending + [Entry(created, now + delay)])
    }

    function Tick(): Book {
      Book(now + 1, created, Rest(pending, now + 1), fired + SortById(Due(pending, now + 1)))
    }

    function Ticks(n: nat): Book
      decreases n
    {
      if n == 0 then this else Ticks(n - 1).Tick()
    }
  }

  // ---- the wheel ----

  class TimerWheel {
    const slots: nat
    var now: nat
    var wheel: array<seq<Entry>>
    var created: nat
    var fired: seq<Entry>
    ghost var pending: seq<Entry>

    ghost function Contents(): Book
      reads this
    {
      Book(now, created, pending, fired)
    }

    /** Every slot holds exactly the pending entries of its residue, in creation order. */
    ghost predicate Valid()
      reads this, wheel
    {
      && slots > 0 && wheel.Length == slots
      && Numbered(pending) && (forall e | e in pending :: e.number < created)
      && forall k | 0 <= k < slots :: wheel[k] == Slot(pending, k, slots)
    }

    constructor (slots: nat)
      requires slots >= 1
      ensures Valid() && fresh(wheel) && this.slots == slots && Contents() == Book(0, 0, [], [])
    {
      this.slots := slots;
      now, created, fired, pending := 0, 0, [], [];
      wheel := new seq<Entry>[slots](_ => []);
    }

    /** Refuses a delay outside the span of the wheel; otherwise files the timer. */
    method Schedule(delay: int) returns (entry: Option<Entry>)
      requires Valid()
      modifies this, wheel
      ensures Valid() && wheel == old(wheel)
      ensures entry.Some? <==> 0 <= delay < slots
      ensures entry.None? ==> Contents() == old(Contents())
      ensures entry.Some? ==> Contents() == old(Contents()).Schedule(delay) && entry.value == Entry(old(created), now + delay)
    {
      if delay < 0 || delay >= slots {
        return None;
      }
      hide Slot, Due, Rest;
      var e := Entry(created, now + delay);
      created := created + 1;
      var k := e.fireTick % slots;
      forall j | 0 <= j < slots ensures Slot(pending + [e], j, slots) == if k == j then Slot(pending, j, slots) + [e] else Slot(pending, j, slots) {
        SlotSnoc(pending, e, j, slots);
      }
      wheel[k] := wheel[k] + [e];
      pending := pending + [e];
      return Some(e);
    }

    /** One tick: the due entries of one slot leave it, in the order of their ids. */
    method Tick() returns (out: seq<Entry>)
      requires Valid()
      modifies this, wheel
      ensures Valid() && wheel == old(wheel)
      ensures Contents() == old(Contents()).Tick()
      ensures fired == old(fired) + out
    {
      hide Slot, Due, Rest, SortById, Numbered;
      now := now + 1;
      var k := now % slots;
      var slot := wheel[k];
      SlotOfDue(pending, now, k, slots);
      SlotNumbered(pending, k, slots);
      Members(pending, now);
      PartsNumbered(pending, now);
      var due := SortById(Due(slot, now));
      PartsNumbered(slot, now);
      SortSorts(Due(slot, now));
      wheel[k] := RemoveAll(slot, due, now);
      out := due;
      fired := fired + due;
      forall j | 0 <= j < slots ensures wheel[j] == Slot(Rest(pending, now), j, slots) {
        SlotOfDue(pending, now, j, slots);
      }
      pending := Rest(pending, now);
    }

    /** Entries fired by the given number of ticks; a negative number is none. */
    method Advance(ticks: int) returns (out: seq<Entry>)
      requires Valid()
      modifies this, wheel
      ensures Valid() && wheel == old(wheel)
      ensures Contents() == old(Contents()).Ticks(Max(0, ticks))
      ensures fired == old(fired) + out
    {
      hide Slot, Due, Rest, SortById, Numbered;
      out := [];
      for i := 0 to Max(0, ticks)
        invariant Valid() && wheel == old(wheel)
        invariant Contents() == old(Contents()).Ticks(i)
        invariant fired == old(fired) + out
      {
        var now := Tick();
        out := out + now;
      }
    }
  }

  /** Removing the first occurrence. */
  function RemoveOne(s: seq<Entry>, e: Entry): (t: seq<Entry>)
  {
    if s == [] then [] else if s[0] == e then s[1..] else [s[0]] + RemoveOne(s[1..], e)
  }

  /** Taking out every due entry one by one leaves exactly the others. */
  method RemoveAll(slot: seq<Entry>, due: seq<Entry>, t: nat) returns (left: seq<Entry>)
    requires Numbered(slot) && ById(due) && forall e :: e in due <==> e in Due(slot, t)
    ensures left == Rest(slot, t)
  {
    hide ById, Numbered, Due, Rest;
    left := slot;
    WithoutNone(slot);
    for i := 0 to |due|
      invariant left == Without(slot, due[..i])
    {
      DistinctById(due, i);
      Members(slot, t);
      assert due[i] in due;
      WithoutStep(slot, due[..i], due[i]);
      assert due[..i] + [due[i]] == due[..i + 1];
      left := RemoveOne(left, due[i]);
    }
    assert due[..|due|] == due;
    Members(slot, t);
    WithoutIsRest(slot, due, t);
  }

  ghost function Without(s: seq<Entry>, gone: seq<Entry>): seq<Entry>
  {
    if s == [] then []
    else if s[0] in gone then Without(s[1..], gone)
    else [s[0]] + Without(s[1..], gone)
  }

  lemma {:induction false} WithoutNone(s: seq<Entry>)
    ensures Without(s, []) == s
    decreases |s|
  {
    if s != [] { WithoutNone(s[1..]); }
  }

  lemma {:induction false} DistinctById(s: seq<Entry>, i: nat)
    requires ById(s) && i < |s|
    ensures s[i] !in s[..i]
  {
    hide IdBefore;
    IdTotal(s[i].number, s[i].number);
  }

  lemma {:induction false} WithoutStep(s: seq<Entry>, gone: seq<Entry>, e: Entry)
    requires Numbered(s) && e !in gone
    ensures RemoveOne(Without(s, gone), e) == Without(s, gone + [e])
    decreases |s|
  {
    if s != [] {
      if s[0] == e {
        WithoutSame(s[1..], gone, e);
        assert ([e] + Without(s[1..], gone))[1..] == Without(s[1..], gone);
      } else {
        WithoutStep(s[1..], gone, e);
        assert s[0] in gone + [e] <==> s[0] in gone;
        assert ([s[0]] + Without(s[1..], gone))[1..] == Without(s[1..], gone);
      }
    }
  }

  lemma {:induction false} WithoutSame(s: seq<Entry>, gone: seq<Entry>, e: Entry)
    requires e !in s
    ensures Without(s, gone) == Without(s, gone + [e])
    decreases |s|
  {
    if s != [] { WithoutSame(s[1..], gone, e); }
  }

  lemma {:induction false} WithoutIsRest(s: seq<Entry>, gone: seq<Entry>, t: nat)
    requires forall e | e in s :: e in gone <==> e.fireTick == t
    ensures Without(s, gone) == Rest(s, t)
    decreases |s|
  {
    if s != [] {
      WithoutIsRest(s[..|s| - 1], gone, t);
      WithoutSnoc(s[..|s| - 1], s[|s| - 1], gone);
      assert s == s[..|s| - 1] + [s[|s| - 1]];
    }
  }

  lemma {:induction false} WithoutSnoc(s: seq<Entry>, e: Entry, gone: seq<Entry>)
    ensures Without(s + [e], gone) == if e in gone then Without(s, gone) else Without(s, gone) + [e]
    decreases |s|
  {
    if s == [] {
      assert [e][1..] == [];
    } else {
      WithoutSnoc(s[1..], e, gone);
      assert (s + [e])[1..] == s[1..] + [e];
    }
  }
}
