/** Work-stealing deques: local push and pop, a named steal, and the outward walk over victims. */
module WorkStealings {
  import opened Basics

  /** Live quantum state held by a task: none, only of classically known value, or some of unknown value. */
  datatype Holding = NoQuantum | KnownQuantum | UnknownQuantum

  /** A task with what the scheduler asks of it. */
  datatype Task = Task(id: nat, holds: Holding, movable: bool, waiting: bool) {
    predicate Unknown() { holds == UnknownQuantum }

    predicate Stealable() { movable && !Unknown() && waiting }
  }

  /** `allowClassical` is never consulted. */
  datatype MigrationRules = MigrationRules(allowClassical: bool, allowQuantum: bool, requireMovable: bool, maxHops: int,
                                           forbidCrossTrust: bool)
  {
    predicate Permits(quantum: bool, movable: bool, hops: int, sameTrust: bool) {
      && (quantum ==> allowQuantum)
      && (requireMovable ==> movable)
      && hops <= maxHops
      && (forbidCrossTrust ==> sameTrust)
    }
  }

  const DEFAULT_RULES: MigrationRules := MigrationRules(true, false, true, 2, true)

  /** The rules applied to a steal, which is one hop. */
  predicate Permitted(rules: MigrationRules, trust: map<int, string>, t: Task, thief: int, victim: int)
    requires thief in trust && victim in trust
  {
    rules.Permits(t.holds != NoQuantum, t.movable, 1, trust[thief] == trust[victim])
  }

  datatype Level = WorkerLocal | WorkerGroup | Domain | Federated

  datatype Record = Record(thief: int, victim: int, task: nat, level: Level)

  datatype Outcome = Got(task: Task) | Nothing | Rejected

  /** What the search for something to steal ends with. */
  datatype Find = Found(level: Level, victim: int, place: nat, task: Task) | NotFound | Refused {
    function Outcome(): Outcome { if Found? then Got(task) else if NotFound? then Nothing else Rejected }
  }

  type Deques = map<int, seq<Task>>

  // ---- where tasks are ----

  ghost predicate Queued(deques: Deques, w: int, i: int,
        t: Task) { w in deques && 0 <= i < |deques[w]| && deques[w][i] == t }

  /** Every task is queued at most once, on one worker. */
  ghost predicate Once(deques: Deques) {
    forall w, i, t, v, j, u | Queued(deques, w, i, t) && Queued(deques, v, j, u) && t.id == u.id :: w == v && i == j
  }

  ghost predicate Present(deques: Deques, t: Task) { exists w, i :: Queued(deques, w, i, t) }

  // ---- removing from a deque ----

  /** Removing the first occurrence. */
  function RemoveFirst(s: seq<Task>, t: Task): (r: seq<Task>)
    requires t in s
    ensures |r| == |s| - 1
  {
    if s[0] == t then s[1..] else [s[0]] + RemoveFirst(s[1..], t)
  }

  lemma {:induction false} RemoveFirstAt(s: seq<Task>, t: Task, k: nat)
    requires k < |s| && s[k] == t && t !in s[..k]
    ensures RemoveFirst(s, t) == s[..k] + s[k + 1..]
    decreases k
  {
    if k > 0 {
      assert s[0] in s[..k];
      assert s[1..][..k - 1] == s[..k][1..];
      RemoveFirstAt(s[1..], t, k - 1);
      assert s[1..][..k - 1] + s[1..][k..] == s[1..k] + s[k + 1..];
    }
  }

  // ---- the order of victims ----

  /** Deeper queue first, then smaller name. */
  predicate Deeper(deques: Deques, a: int, b: int)
    requires a in deques && b in deques
  {
    |deques[a]| > |deques[b]| || (|deques[a]| == |deques[b]| && a <= b)
  }

  predicate Known(deques: Deques, s: seq<int>) { forall i | 0 <= i < |s| :: s[i] in deques }

  function InsertVictim(deques: Deques, s: seq<int>, v: int): (r: seq<int>)
    requires Known(deques, s) && v in deques
    ensures Known(deques, r)
  {
    if s == [] then [v]
    else if Deeper(deques, s[0], v) then [s[0]] + InsertVictim(deques, s[1..], v)
    else [v] + s
  }

  function SortVictims(deques: Deques, s: seq<int>): (r: seq<int>)
    requires Known(deques, s)
    ensures Known(deques, r)
  {
    if s == [] then [] else InsertVictim(deques, SortVictims(deques, s[..|s| - 1]), s[|s| - 1])
  }

  ghost predicate DeepestFirst(deques: Deques, s: seq<int>) {
    Known(deques, s) && forall i, j | 0 <= i < j < |s| :: Deeper(deques, s[i], s[j])
  }

  lemma {:induction false} InsertKeepsOrder(deques: Deques, s: seq<int>, v: int)
    requires DeepestFirst(deques, s) && v in deques
    ensures DeepestFirst(deques, InsertVictim(deques, s, v))
    ensures forall x :: x in InsertVictim(deques, s, v) <==> x in s || x == v
    decreases |s|
  {
    if s != [] {
      if Deeper(deques, s[0], v) {
        assert s == [s[0]] + s[1..];
        InsertKeepsOrder(deques, s[1..], v);
        var r := InsertVictim(deques, s[1..], v);
        forall x | x in r ensures x in deques && Deeper(deques, s[0], x) {
          if x != v {
            var j :| 0 <= j < |s[1..]| && s[1..][j] == x;
            assert s[j + 1] == x;
          }
        }
      } else {
        forall x | x in s ensures x in deques && Deeper(deques, v, x) {
          var j :| 0 <= j < |s| && s[j] == x;
        }
      }
    }
  }

  lemma {:induction false} SortOrders(deques: Deques, s: seq<int>)
    requires Known(deques, s)
    ensures DeepestFirst(deques, SortVictims(deques, s))
    ensures forall x :: x in SortVictims(deques, s) <==> x in s
    decreases |s|
  {
    if s != [] {
      var front, last := s[..|s| - 1], s[|s| - 1];
      SortOrders(deques, front);
      InsertKeepsOrder(deques, SortVictims(deques, front), last);
      assert s == front + [last];
    }
  }

  /** The other workers of a scope, deepest queue first. */
  function Victims(deques: Deques, scope: seq<int>, thief: int): (v: seq<int>)
    requires Known(deques, scope)
    ensures Known(deques, v)
  {
    SortVictims(deques, Others(deques, scope, thief))
  }

  function Others(deques: Deques, scope: seq<int>, thief: int): (o: seq<int>)
    requires Known(deques, scope)
    ensures Known(deques, o) && forall x :: x in o <==> x in scope && x != thief
  {
    if scope == [] then []
    else
      var front, last := scope[..|scope| - 1], scope[|scope| - 1];
      assert scope == front + [last];
      if last == thief then Others(deques, front, thief) else Others(deques, front, thief) + [last]
  }

  // ---- what a steal takes ----

  /** The oldest stealable task of a deque, with nothing stealable before it. */
  ghost predicate Oldest(s: seq<Task>, k: nat) { k < |s| && s[k].Stealable() && forall i | 0 <= i < k :: !s[i].Stealable() }

  ghost predicate HasStealable(deques: Deques,
        w: int) { w in deques && exists i | 0 <= i < |deques[w]| :: deques[w][i].Stealable() }

  /** No level before this one offers anything. */
  ghost predicate NoneAt(deques: Deques, scope: seq<int>, thief: int) {
    forall v | v in scope && v != thief :: !HasStealable(deques, v)
  }

  /** The choice: victim v of the scope has something to steal, and no deeper (or equally deep, earlier named) victim has. */
  ghost predicate Chosen(deques: Deques, scope: seq<int>, thief: int, v: int, k: nat) {
    && v in scope && v != thief && v in deques && Oldest(deques[v], k)
    && forall u | u in scope && u != thief && HasStealable(deques, u) :: Deeper(deques, v, u)
  }

  /** A steal at level l from victim v, with nothing on offer at the levels before l. */
  ghost predicate Stole(deques: Deques, scopes: map<(int, Level), seq<int>>, thief: int, l: Level, v: int, k: nat) {
    && l in OUTWARD && (thief, l) in scopes && Chosen(deques, scopes[(thief, l)], thief, v, k)
    && forall m | m in OUTWARD && Before(m, l) :: (thief, m) in scopes && NoneAt(deques, scopes[(thief, m)], thief)
  }

  predicate Before(m: Level, l: Level) { (m == WorkerGroup && l != WorkerGroup) || (m == Domain && l == Federated) }

  lemma {:induction false} VictimsAre(deques: Deques, scope: seq<int>, thief: int)
    requires Known(deques, scope)
    ensures DeepestFirst(deques, Victims(deques, scope, thief))
    ensures forall x :: x in Victims(deques, scope, thief) <==> x in scope && x != thief
    ensures forall i | 0 <= i < |Victims(deques, scope, thief)| ::
      Victims(deques, scope, thief)[i] in deques && Victims(deques, scope, thief)[i] != thief
  {
    SortOrders(deques, Others(deques, scope, thief));
    var v := Victims(deques, scope, thief);
    assert forall i | 0 <= i < |v| :: v[i] in v;
  }

  lemma {:induction false} StoleIs(deques: Deques, scopes: map<(int, Level), seq<int>>, thief: int, l: nat, v: int,
        k: nat)
    requires l < |OUTWARD| && forall m :: (thief, m) in scopes
    requires Chosen(deques, scopes[(thief, OUTWARD[l])], thief, v, k)
    requires forall j | 0 <= j < l :: NoneAt(deques, scopes[(thief, OUTWARD[j])], thief)
    ensures Stole(deques, scopes, thief, OUTWARD[l], v, k)
  {
    hide Chosen, NoneAt;
    assert OUTWARD == [WorkerGroup, Domain, Federated];
  }

  /** The first stealable task met on the walk is the chosen one. */
  lemma {:induction false} ChosenIs(deques: Deques, scope: seq<int>, thief: int, victims: seq<int>, i: nat, k: nat)
    requires Known(deques, scope) && DeepestFirst(deques, victims)
    requires forall x :: x in victims <==> x in scope && x != thief
    requires i < |victims| && forall j | 0 <= j < i :: !HasStealable(deques, victims[j])
    requires k < |deques[victims[i]]| && Oldest(deques[victims[i]], k)
    ensures Chosen(deques, scope, thief, victims[i], k)
  {
    hide Oldest, HasStealable;
    assert victims[i] in victims;
    forall u | u in scope && u != thief && HasStealable(deques, u) ensures u in deques && Deeper(deques, victims[i], u) {
      assert u in victims;
      var j :| 0 <= j < |victims| && victims[j] == u;
      assert j >= i;
    }
  }

  // ---- the tasks met on the walk ----

  /** The queues of the victims, one behind the other. */
  function TasksOf(deques: Deques, victims: seq<int>): seq<Task>
    requires Known(deques, victims)
  {
    if victims == [] then [] else TasksOf(deques, victims[..|victims| - 1]) + deques[victims[|victims| - 1]]
  }

  ghost predicate Scoped(deques: Deques, scopes: map<(int, Level), seq<int>>, thief: int) {
    forall l: Level :: (thief, l) in scopes && Known(deques, scopes[(thief, l)])
  }

  /** Every task of the first n levels of the walk, in the order in which it is met; a victim is met again on every
      level whose scope it is in. */
  function Met(deques: Deques, scopes: map<(int, Level), seq<int>>, thief: int, n: nat): seq<Task>
    requires Scoped(deques, scopes, thief) && n <= |OUTWARD|
  {
    if n == 0 then []
    else
      Met(deques, scopes, thief, n - 1) + TasksOf(deques, Victims(deques, scopes[(thief, OUTWARD[n - 1])], thief))
  }

  /** The walk can stop at a task that it may take, and must in strict mode at one of unknown quantum state. */
  predicate Stops(t: Task, strict: bool) { t.Stealable() || (strict && t.Unknown()) }

  ghost predicate NoStop(met: seq<Task>, strict: bool) { forall j | 0 <= j < |met| :: !Stops(met[j], strict) }

  ghost predicate FirstStop(met: seq<Task>, i: int, strict: bool) {
    0 <= i < |met| && Stops(met[i], strict) && forall j | 0 <= j < i :: !Stops(met[j], strict)
  }

  /** How a walk over these tasks ends, and how many refusals it notes down: it takes the first task that it may take
      unless, in strict mode, one of unknown quantum state comes before; every task before that is refused. */
  ghost predicate Ends(met: seq<Task>, strict: bool, outcome: Outcome, refused: int) {
    match outcome
    case Got(t) => FirstStop(met, refused, strict) && met[refused] == t && t.Stealable()
    case Rejected => FirstStop(met, refused - 1, strict) && met[refused - 1].Unknown()
    case Nothing => refused == |met| && NoStop(met, strict)
  }

  lemma {:induction false} StopHere(met: seq<Task>, seen: seq<Task>, t: Task, strict: bool)
    requires |seen| < |met| && seen == met[..|seen|] && met[|seen|] == t && NoStop(seen, strict)
    ensures t.Stealable() ==> Ends(met, strict, Got(t), |seen|)
    ensures t.Unknown() && strict ==> Ends(met, strict, Rejected, |seen| + 1)
    ensures !t.Stealable() && (strict ==> !t.Unknown()) ==> NoStop(seen + [t], strict)
  {
    assert forall j | 0 <= j < |seen| :: met[j] == seen[j];
  }

  lemma {:induction false} RejectedIff(met: seq<Task>, strict: bool, outcome: Outcome, refused: int)
    requires Ends(met, strict, outcome, refused)
    ensures outcome.Rejected? <==> strict && exists i :: FirstStop(met, i, true) && met[i].Unknown()
  {
    if i :| FirstStop(met, i, true) && strict {
      if outcome.Got? { FirstStopIsOne(met, i, refused, strict); }
    }
  }

  lemma {:induction false} FirstStopIsOne(met: seq<Task>, i: int, j: int, strict: bool)
    requires FirstStop(met, i, strict) && FirstStop(met, j, strict)
    ensures i == j
  {
  }

  lemma {:induction false} TasksPrefix(deques: Deques, victims: seq<int>, i: nat)
    requires Known(deques, victims) && i < |victims|
    ensures Known(deques, victims[..i])
    ensures TasksOf(deques, victims[..i]) + deques[victims[i]] <= TasksOf(deques, victims)
    decreases |victims|
  {
    var n := |victims| - 1;
    if i < n {
      assert victims[..n][..i] == victims[..i];
      TasksPrefix(deques, victims[..n], i);
    }
  }

  lemma {:induction false} MetPrefix(deques: Deques, scopes: map<(int, Level), seq<int>>, thief: int, l: nat, n: nat)
    requires Scoped(deques, scopes, thief) && l <= n <= |OUTWARD|
    ensures Met(deques, scopes, thief, l) <= Met(deques, scopes, thief, n)
    decreases n
  {
    if l < n { MetPrefix(deques, scopes, thief, l, n - 1); }
  }

  /** The tasks met before place k of victim i of level l. */
  ghost predicate SeenAt(deques: Deques, scopes: map<(int, Level), seq<int>>, thief: int, l: nat, victims: seq<int>,
        i: nat, k: nat, seen: seq<Task>)
  {
    && Scoped(deques, scopes, thief) && l < |OUTWARD| && i <= |victims| && Known(deques, victims)
    && victims == Victims(deques, scopes[(thief, OUTWARD[l])], thief)
    && Known(deques, victims[..i]) && (if i < |victims| then k <= |deques[victims[i]]| else k == 0)
    && seen == Met(deques, scopes, thief, l) + TasksOf(deques, victims[..i])
             + if i < |victims| then deques[victims[i]][..k] else []
  }

  lemma {:induction false} SeenLevel(deques: Deques, scopes: map<(int, Level), seq<int>>, thief: int, l: nat,
        victims: seq<int>)
    requires Scoped(deques, scopes, thief) && l < |OUTWARD|
    requires victims == Victims(deques, scopes[(thief, OUTWARD[l])], thief)
    ensures SeenAt(deques, scopes, thief, l, victims, 0, 0, Met(deques, scopes, thief, l))
  {
    assert victims[..0] == [];
  }

  lemma {:induction false} SeenTask(deques: Deques, scopes: map<(int, Level), seq<int>>, thief: int, l: nat,
        victims: seq<int>, i: nat, k: nat, seen: seq<Task>)
    requires SeenAt(deques, scopes, thief, l, victims, i, k, seen) && i < |victims| && victims[i] in deques
    requires k < |deques[victims[i]]|
    ensures SeenAt(deques, scopes, thief, l, victims, i, k + 1, seen + [deques[victims[i]][k]])
    ensures var met := Met(deques, scopes, thief, |OUTWARD|);
      |seen| < |met| && met[|seen|] == deques[victims[i]][k] && seen == met[..|seen|]
  {
    MetAt(deques, scopes, thief, l, victims, i, k, seen);
    OneMore(Met(deques, scopes, thief, l) + TasksOf(deques, victims[..i]), deques[victims[i]], k);
    hide Met, TasksOf, Victims, Known, Scoped;
  }

  lemma {:induction false} OneMore(a: seq<Task>, queue: seq<Task>, k: nat)
    requires k < |queue|
    ensures a + queue[..k] + [queue[k]] == a + queue[..k + 1]
  {
  }

  lemma {:induction false} SeenVictim(deques: Deques, scopes: map<(int, Level), seq<int>>, thief: int, l: nat,
        victims: seq<int>, i: nat, k: nat, seen: seq<Task>)
    requires SeenAt(deques, scopes, thief, l, victims, i, k, seen) && i < |victims| && victims[i] in deques
    requires k == |deques[victims[i]]|
    ensures SeenAt(deques, scopes, thief, l, victims, i + 1, 0, seen)
  {
    var queue := deques[victims[i]];
    assert queue[..k] == queue;
    assert victims[..i + 1][..i] == victims[..i];
    hide Met;
    assert TasksOf(deques, victims[..i + 1]) == TasksOf(deques, victims[..i]) + queue;
  }

  lemma {:induction false} SeenAll(deques: Deques, scopes: map<(int, Level), seq<int>>, thief: int, l: nat,
        victims: seq<int>, seen: seq<Task>)
    requires SeenAt(deques, scopes, thief, l, victims, |victims|, 0, seen)
    ensures seen == Met(deques, scopes, thief, l + 1)
  {
    assert victims[..|victims|] == victims;
  }

  /** The task at place k of victim i of level l is met right behind those. */
  lemma {:induction false} MetAt(deques: Deques, scopes: map<(int, Level), seq<int>>, thief: int, l: nat,
        victims: seq<int>, i: nat, k: nat, seen: seq<Task>)
    requires SeenAt(deques, scopes, thief, l, victims, i, k, seen) && i < |victims| && victims[i] in deques
    requires k < |deques[victims[i]]|
    ensures var met := Met(deques, scopes, thief, |OUTWARD|);
      |seen| < |met| && met[|seen|] == deques[victims[i]][k] && seen == met[..|seen|]
  {
    TasksPrefix(deques, victims, i);
    MetPrefix(deques, scopes, thief, l + 1, |OUTWARD|);
    LevelPrefix(Met(deques, scopes, thief, l), TasksOf(deques, victims[..i]), deques[victims[i]], k,
                TasksOf(deques, victims), Met(deques, scopes, thief, |OUTWARD|));
  }

  lemma {:induction false} LevelPrefix(a: seq<Task>, b: seq<Task>, queue: seq<Task>, k: nat, level: seq<Task>,
        met: seq<Task>)
    requires b + queue <= level && a + level <= met && k < |queue|
    ensures var seen := a + b + queue[..k]; |seen| < |met| && met[|seen|] == queue[k] && seen == met[..|seen|]
  {
    var seen := a + b + queue[..k];
    assert (a + level)[|seen|] == level[|b| + k] == (b + queue)[|b| + k];
    assert seen == (a + level)[..|seen|];
  }

  // ---- placement ----

  /** Every queued task is queued once, its owner is where it is, and unknown quantum state is where it was pushed. */
  ghost predicate Placed(deques: Deques, owner: map<nat, int>, home: map<nat, int>) {
    && Once(deques)
    && forall w, i, t | Queued(deques, w, i, t) :: AtHome(owner, home, w, t)
  }

  ghost predicate AtHome(owner: map<nat, int>, home: map<nat, int>, w: int, t: Task) {
    t.id in owner && owner[t.id] == w && t.id in home && (t.Unknown() ==> home[t.id] == w)
  }

  function Append(deques: Deques, w: int, t: Task): Deques
    requires w in deques
  {
    deques[w := deques[w] + [t]]
  }

  function Drop(deques: Deques, w: int, k: nat): Deques
    requires w in deques && k < |deques[w]|
  {
    deques[w := deques[w][..k] + deques[w][k + 1..]]
  }

  lemma {:induction false} AppendPlaces(deques: Deques, owner: map<nat, int>, home: map<nat, int>, w: int, t: Task,
        newHome: map<nat, int>)
    requires Placed(deques, owner, home) && w in deques && forall u | Present(deques, u) :: u.id != t.id
    requires newHome == home || newHome == home[t.id := w]
    requires t.id in newHome && (t.Unknown() ==> newHome[t.id] == w)
    ensures Placed(Append(deques, w, t), owner[t.id := w], newHome)
    ensures forall u :: Present(Append(deques, w, t), u) <==> Present(deques, u) || u == t
  {
    var next := Append(deques, w, t);
    forall v, i, u ensures Queued(next, v, i, u) <==> Queued(deques, v, i, u) || (v == w && i == |deques[w]| && u == t) {
    }
    forall v, i, u | Queued(deques, v, i, u) ensures u.id != t.id { assert Present(deques, u); }
    assert Queued(next, w, |deques[w]|, t);
    hide Queued;
    forall u ensures Present(next, u) <==> Present(deques, u) || u == t {
      if v, i :| Queued(deques, v, i, u) { assert Queued(next, v, i, u); }
    }
  }

  /** A task queued once more is queued twice. */
  lemma {:induction false} AppendTwice(deques: Deques, owner: map<nat, int>, home: map<nat, int>, w: int, t: Task)
    requires w in deques && exists u :: Present(deques, u) && u.id == t.id
    ensures !Placed(Append(deques, w, t), owner, home)
  {
    var u :| Present(deques, u) && u.id == t.id;
    var v, i :| Queued(deques, v, i, u);
    var next := Append(deques, w, t);
    assert Queued(next, v, i, u) && Queued(next, w, |deques[w]|, t);
    assert v != w || i != |deques[w]|;
  }

  lemma {:induction false} DropPlaces(deques: Deques, owner: map<nat, int>, home: map<nat, int>, w: int, k: nat)
    requires Placed(deques, owner, home) && w in deques && k < |deques[w]|
    ensures Placed(Drop(deques, w, k), owner, home) && AtHome(owner, home, w, deques[w][k])
    ensures forall u :: Present(Drop(deques, w, k), u) <==> Present(deques, u) && u != deques[w][k]
    ensures forall u | Present(Drop(deques, w, k), u) :: u.id != deques[w][k].id
  {
    var next, t := Drop(deques, w, k), deques[w][k];
    forall v, i, u ensures Queued(next, v, i, u) <==> 0 <= i && Queued(deques, v, Shift(v == w && i >= k, i), u) {
    }
    assert Queued(deques, w, k, t);
    assert forall v, i, u :: Queued(deques, v, i, u) ==> i >= 0;
    hide Queued, AtHome;
    forall u ensures Present(next, u) <==> Present(deques, u) && u != t {
      if v, i :| Queued(deques, v, i, u) {
        if v != w || i < k {
          assert Shift(v == w && i >= k, i) == i && Queued(next, v, i, u);
        } else if i > k {
          assert Shift(v == w && i - 1 >= k, i - 1) == i && Queued(next, v, i - 1, u);
        }
      }
    }
  }

  lemma {:induction false} DropIs(deques: Deques, w: int, k: nat)
    requires w in deques && k < |deques[w]|
    ensures Drop(deques, w, k) == deques[w := deques[w][..k] + deques[w][k + 1..]]
  {
  }

  /** A queued task is nowhere before its place. */
  lemma {:induction false} FirstIsOnly(deques: Deques, w: int, k: nat)
    requires Once(deques) && w in deques && k < |deques[w]|
    ensures deques[w][k] !in deques[w][..k]
  {
    var t := deques[w][k];
    if t in deques[w][..k] {
      var j :| 0 <= j < k && deques[w][j] == t;
      assert Queued(deques, w, j, t) && Queued(deques, w, k, t);
    }
  }

  function Shift(up: bool, i: int): int { if up then i + 1 else i }

  /** A task of unknown quantum state on offer somewhere along the walk. */
  ghost predicate UnknownMet(deques: Deques, scopes: map<(int, Level), seq<int>>, thief: int)
    requires Scoped(deques, scopes, thief)
  {
    exists l, v, t :: l in OUTWARD && v in scopes[(thief, l)] && v in deques && t in deques[v] && t.Unknown()
  }

  ghost predicate NothingOffered(deques: Deques, scopes: map<(int, Level), seq<int>>, thief: int, n: nat)
    requires Scoped(deques, scopes, thief) && n <= |OUTWARD|
  {
    forall j | 0 <= j < n :: NoneAt(deques, scopes[(thief, OUTWARD[j])], thief)
  }

  /** The walk up to place k of victim i of level l has met these tasks and could stop at none. */
  ghost predicate Sought(deques: Deques, scopes: map<(int, Level), seq<int>>, thief: int, strict: bool, l: nat,
        victims: seq<int>, i: nat, k: nat, seen: seq<Task>)
  {
    && SeenAt(deques, scopes, thief, l, victims, i, k, seen) && NoStop(seen, strict)
    && NothingOffered(deques, scopes, thief, l)
    && (forall j | 0 <= j < i :: !HasStealable(deques, victims[j]))
    && (i < |victims| ==> forall j | 0 <= j < k :: !deques[victims[i]][j].Stealable())
  }

  /** What a search finds after noting down so many refusals. */
  ghost predicate FindIs(deques: Deques, scopes: map<(int, Level), seq<int>>, thief: int, strict: bool, find: Find,
        refused: int)
    requires Scoped(deques, scopes, thief)
  {
    && Ends(Met(deques, scopes, thief, |OUTWARD|), strict, find.Outcome(), refused)
    && match find {
      case Found(l, v, k, t) =>
        Stole(deques, scopes, thief, l, v, k) && v in deques && v != thief && k < |deques[v]| && deques[v][k] == t
      case NotFound => NothingOffered(deques, scopes, thief, |OUTWARD|)
      case Refused => strict && UnknownMet(deques, scopes, thief)
    }
  }

  lemma {:induction false} VictimIs(deques: Deques, scopes: map<(int, Level), seq<int>>, thief: int, strict: bool, l: nat,
        victims: seq<int>, i: nat, k: nat, seen: seq<Task>)
    requires Sought(deques, scopes, thief, strict, l, victims, i, k, seen) && i < |victims|
    ensures l < |OUTWARD| && (thief, OUTWARD[l]) in scopes
    ensures victims[i] in deques && victims[i] in scopes[(thief, OUTWARD[l])]
  {
    VictimsAre(deques, scopes[(thief, OUTWARD[l])], thief);
    assert victims[i] in victims;
  }

  lemma {:induction false} SoughtLevel(deques: Deques, scopes: map<(int, Level), seq<int>>, thief: int, strict: bool,
        l: nat, victims: seq<int>, seen: seq<Task>)
    requires Scoped(deques, scopes, thief) && l < |OUTWARD| && NothingOffered(deques, scopes, thief, l)
    requires victims == Victims(deques, scopes[(thief, OUTWARD[l])], thief)
    requires seen == Met(deques, scopes, thief, l) && NoStop(seen, strict)
    ensures Sought(deques, scopes, thief, strict, l, victims, 0, 0, seen)
  {
    SeenLevel(deques, scopes, thief, l, victims);
  }

  /** The next task is passed by, taken or an error. */
  lemma {:induction false} SoughtTask(deques: Deques, scopes: map<(int, Level), seq<int>>, thief: int, strict: bool,
        l: nat, victims: seq<int>, i: nat, k: nat, seen: seq<Task>, t: Task)
    requires Sought(deques, scopes, thief, strict, l, victims, i, k, seen) && i < |victims| && victims[i] in deques
    requires k < |deques[victims[i]]| && Scoped(deques, scopes, thief) && l < |OUTWARD|
    requires t == deques[victims[i]][k]
    ensures t.Stealable() ==> FindIs(deques, scopes, thief, strict, Found(OUTWARD[l], victims[i], k, t), |seen|)
    ensures t.Unknown() && strict ==> FindIs(deques, scopes, thief, strict, Refused, |seen| + 1)
    ensures !t.Stealable() && (strict ==> !t.Unknown()) ==>
      Sought(deques, scopes, thief, strict, l, victims, i, k + 1, seen + [t])
  {
    hide Stole, UnknownMet, SeenAt, NoStop, Met, Ends, HasStealable, NothingOffered, Victims, Scoped;
    var met := Met(deques, scopes, thief, |OUTWARD|);
    SeenTask(deques, scopes, thief, l, victims, i, k, seen);
    StopHere(met, seen, t, strict);
    VictimIs(deques, scopes, thief, strict, l, victims, i, k, seen);
    if t.Unknown() { UnknownIsMet(deques, scopes, thief, l, victims[i], k); }
    if t.Stealable() { SoughtSteal(deques, scopes, thief, strict, l, victims, i, k, seen, t); }
  }

  lemma {:induction false} SoughtSteal(deques: Deques, scopes: map<(int, Level), seq<int>>, thief: int, strict: bool,
        l: nat, victims: seq<int>, i: nat, k: nat, seen: seq<Task>, t: Task)
    requires Sought(deques, scopes, thief, strict, l, victims, i, k, seen) && i < |victims| && victims[i] in deques
    requires Scoped(deques, scopes, thief) && l < |OUTWARD| && k < |deques[victims[i]]|
    requires deques[victims[i]][k] == t && t.Stealable()
    ensures Stole(deques, scopes, thief, OUTWARD[l], victims[i], k) && victims[i] != thief && !t.Unknown()
    ensures Find.Found(OUTWARD[l], victims[i], k, t).Outcome() == Got(t)
  {
    var scope := scopes[(thief, OUTWARD[l])];
    VictimsAre(deques, scope, thief);
    assert Oldest(deques[victims[i]], k);
    hide Chosen, Victims, Known, Stole, DeepestFirst, Deeper, HasStealable, SeenAt, NoStop, Oldest;
    ChosenIs(deques, scope, thief, victims, i, k);
    StoleIs(deques, scopes, thief, l, victims[i], k);
  }

  lemma {:induction false} SoughtVictim(deques: Deques, scopes: map<(int, Level), seq<int>>, thief: int, strict: bool,
        l: nat, victims: seq<int>, i: nat, k: nat, seen: seq<Task>)
    requires Sought(deques, scopes, thief, strict, l, victims, i, k, seen) && i < |victims| && victims[i] in deques
    requires k == |deques[victims[i]]|
    ensures Sought(deques, scopes, thief, strict, l, victims, i + 1, 0, seen)
  {
    SeenVictim(deques, scopes, thief, l, victims, i, k, seen);
    assert !HasStealable(deques, victims[i]);
    hide HasStealable, Met, TasksOf, NoStop;
  }

  lemma {:induction false} NothingOfferedNext(deques: Deques, scopes: map<(int, Level), seq<int>>, thief: int, n: nat,
        victims: seq<int>)
    requires Scoped(deques, scopes, thief) && n < |OUTWARD| && NothingOffered(deques, scopes, thief, n)
    requires victims == Victims(deques, scopes[(thief, OUTWARD[n])], thief)
    requires forall j | 0 <= j < |victims| :: !HasStealable(deques, victims[j])
    ensures NothingOffered(deques, scopes, thief, n + 1)
  {
    VictimsAre(deques, scopes[(thief, OUTWARD[n])], thief);
    hide HasStealable;
    assert NoneAt(deques, scopes[(thief, OUTWARD[n])], thief);
  }

  lemma {:induction false} SoughtAll(deques: Deques, scopes: map<(int, Level), seq<int>>, thief: int, strict: bool,
        l: nat, victims: seq<int>, seen: seq<Task>)
    requires Sought(deques, scopes, thief, strict, l, victims, |victims|, 0, seen)
    requires Scoped(deques, scopes, thief) && l < |OUTWARD|
    ensures NothingOffered(deques, scopes, thief, l + 1) && NoStop(seen, strict)
    ensures seen == Met(deques, scopes, thief, l + 1)
  {
    SeenAll(deques, scopes, thief, l, victims, seen);
    hide HasStealable, Met, TasksOf, NoStop;
    NothingOfferedNext(deques, scopes, thief, l, victims);
  }

  lemma {:induction false} NothingFound(deques: Deques, scopes: map<(int, Level), seq<int>>, thief: int, strict: bool,
        seen: seq<Task>)
    requires Scoped(deques, scopes, thief) && NothingOffered(deques, scopes, thief, |OUTWARD|)
    requires seen == Met(deques, scopes, thief, |OUTWARD|) && NoStop(seen, strict)
    ensures FindIs(deques, scopes, thief, strict, NotFound, |seen|)
  {
  }

  lemma {:induction false} UnknownIsMet(deques: Deques, scopes: map<(int, Level), seq<int>>, thief: int, l: nat, v: int,
        k: nat)
    requires Scoped(deques, scopes, thief) && l < |OUTWARD| && v in scopes[(thief, OUTWARD[l])]
    requires v in deques && k < |deques[v]| && deques[v][k].Unknown()
    ensures UnknownMet(deques, scopes, thief)
  {
    var t := deques[v][k];
    assert OUTWARD[l] in OUTWARD && t in deques[v];
  }

  // ---- the scheduler ----

  class WorkStealing {
    /** The workers that a thief reaches at a level. */
    const scopes: map<(int, Level), seq<int>>
    const rules: MigrationRules
    /** The trust domain of each worker. */
    const trust: map<int, string>
    var deques: Deques
    var owner: map<nat, int>
    var records: seq<Record>
    var refusals: nat
    /** The worker each task was last pushed to. */
    ghost var home: map<nat, int>

    /** Every worker has its scopes, of workers, and its trust domain. */
    ghost predicate Wired()
      reads this`deques
    {
      && (forall w | w in deques :: w in trust)
      && (forall w, l | w in deques :: (w, l) in scopes && Known(deques, scopes[(w, l)]))
    }

    ghost predicate Valid()
      reads this`deques, this`owner, this`home
    {
      Placed(deques, owner, home) && Wired()
    }

    constructor (workers: set<int>, scopes: map<(int, Level), seq<int>>, rules: MigrationRules, trust: map<int, string>)
      requires forall w | w in workers :: w in trust
      requires forall w, l | w in workers :: (w, l) in scopes && forall i | 0 <= i < |scopes[(w, l)]| :: scopes[(w, l)][i] in workers
      ensures Valid() && deques == map w | w in workers :: []
      ensures owner == map[] && refusals == 0 && records == [] && this.scopes == scopes && this.rules == rules && this.trust == trust
    {
      this.scopes, this.rules, this.trust := scopes, rules, trust;
      deques := map w | w in workers :: [];
      owner, records, refusals, home := map[], [], 0, map[];
    }

    /** Queues a task at the back of a worker's deque; refused for an unknown worker. The placement of tasks stays
        sound exactly when no task of that identity was queued. */
    method Push(worker: int, t: Task) returns (ok: bool)
      requires Wired()
      modifies this
      ensures Wired() && (ok <==> worker in old(deques)) && records == old(records) && refusals == old(refusals)
      ensures !ok ==> deques == old(deques) && owner == old(owner) && home == old(home)
      ensures ok ==> deques == Append(old(deques), worker, t) && owner == old(owner)[t.id := worker]
      ensures old(Valid()) && ok ==> (Valid() <==> old(forall u | Present(deques, u) :: u.id != t.id))
      ensures old(Valid()) && ok && old(forall u | Present(deques, u) :: u.id != t.id) ==>
        forall u :: Present(deques, u) <==> old(Present(deques, u)) || u == t
    {
      hide Placed, Present;
      if worker !in deques {
        return false;
      }
      if Placed(deques, owner, home) {
        if forall u | Present(deques, u) :: u.id != t.id {
          AppendPlaces(deques, owner, home, worker, t, home[t.id := worker]);
        } else {
          AppendTwice(deques, owner[t.id := worker], home[t.id := worker], worker, t);
        }
      }
      owner := owner[t.id := worker];
      home := home[t.id := worker];
      deques := deques[worker := deques[worker] + [t]];
      return true;
    }

    /** Takes the youngest task of the worker's own deque. */
    method PopLocal(worker: int) returns (t: Option<Task>)
      requires Valid() && worker in deques
      modifies this`deques
      ensures Valid()
      ensures t == None <==> old(deques[worker]) == []
      ensures t == None ==> deques == old(deques)
      ensures t.Some? ==> deques.Keys == old(deques).Keys && old(deques[worker]) == deques[worker] + [t.value]
      ensures t.Some? ==> forall w | w in deques && w != worker :: deques[w] == old(deques)[w]
      ensures t.Some? ==> forall u :: Present(deques, u) <==> old(Present(deques, u)) && u != t.value
    {
      hide Placed, Present;
      var s := deques[worker];
      if s == [] {
        return None;
      }
      DropPlaces(deques, owner, home, worker, |s| - 1);
      assert s[..|s| - 1] + s[|s| - 1 + 1..] == s[..|s| - 1];
      deques := deques[worker := s[..|s| - 1]];
      assert s == deques[worker] + [s[|s| - 1]];
      return Some(s[|s| - 1]);
    }

    /** Moves the first occurrence of a task to the back of the thief's deque. */
    method Move(thief: int, victim: int, t: Task, level: Level, ghost k: nat)
      requires Valid() && thief in deques && victim in deques && !t.Unknown()
      requires k < |deques[victim]| && deques[victim][k] == t
      modifies this
      ensures Valid()
      ensures deques == Append(Drop(old(deques), victim, k), thief, t)
      ensures owner == old(owner)[t.id := thief] && home == old(home)
      ensures records == old(records) + [Record(thief, victim, t.id, level)] && refusals == old(refusals)
      ensures forall u :: Present(deques, u) <==> old(Present(deques, u))
    {
      FirstIsOnly(deques, victim, k);
      RemoveFirstAt(deques[victim], t, k);
      DropPlaces(deques, owner, home, victim, k);
      assert Present(deques, t) by { assert Queued(deques, victim, k, t); }
      hide Placed, Present, Drop, RemoveFirst;
      deques := deques[victim := RemoveFirst(deques[victim], t)];
      assert deques == Drop(old(deques), victim, k) by { DropIs(old(deques), victim, k); }
      AppendPlaces(deques, owner, home, thief, t, home);
      owner := owner[t.id := thief];
      deques := deques[thief := deques[thief] + [t]];
      records := records + [Record(thief, victim, t.id, level)];
    }

    /**
     * Moves a named task to the back of the thief's deque. Refused for unknown quantum state, for a task that is not
     * movable, when the rules forbid it, and when the victim does not queue it; a refusal moves nothing.
     */
    method StealSpecific(thief: int, victim: int, t: Task, level: Level) returns (stolen: bool)
      requires Valid() && thief in deques && victim in deques
      modifies this
      ensures Valid()
      ensures stolen <==> !t.Unknown() && t.movable && Permitted(rules, trust, t, thief, victim) && t in old(deques[victim])
      ensures !stolen ==> deques == old(deques) && owner == old(owner) && records == old(records)
      ensures refusals == old(refusals) + if t.Unknown() || !t.movable then 1 else 0
      ensures stolen ==> owner == old(owner)[t.id := thief] && records == old(records) + [Record(thief, victim, t.id, level)]
      ensures stolen ==> exists k: nat | k < |old(deques[victim])| ::
        old(deques[victim])[k] == t && deques == Append(Drop(old(deques), victim, k), thief, t)
      ensures forall u :: Present(deques, u) <==> old(Present(deques, u))
    {
      hide Placed, Present, Append, Drop;
      if t.Unknown() {
        refusals := refusals + 1;
        return false;
      }
      if !t.movable {
        refusals := refusals + 1;
        return false;
      }
      if !Permitted(rules, trust, t, thief, victim) {
        return false;
      }
      if t !in deques[victim] {
        return false;
      }
      ghost var k: nat :| k < |deques[victim]| && deques[victim][k] == t;
      Move(thief, victim, t, level, k);
      return true;
    }

    /** A steal by a thief with an empty deque ends with the task taken straight from that deque. */
    method StealAndPop(thief: int, victim: int, t: Task, level: Level, k: nat)
      requires Valid() && thief in deques && victim in deques && thief != victim && !t.Unknown()
      requires k < |deques[victim]| && deques[victim][k] == t
      modifies this
      ensures Valid() && deques == Drop(old(deques), victim, k) && deques.Keys == old(deques).Keys
      ensures owner == old(owner)[t.id := thief] && records == old(records) + [Record(thief, victim, t.id, level)]
      ensures refusals == old(refusals)
      ensures forall u :: Present(deques, u) <==> old(Present(deques, u)) && u != t
    {
      hide Placed, Present;
      Move(thief, victim, t, level, k);
      ghost var moved := deques;
      var mine := PopLocal(thief);
      assert moved[thief] == old(deques[thief]) + [t];
      assert mine.value == moved[thief][|moved[thief]| - 1] == t;
      assert deques[thief] == moved[thief][..|moved[thief]| - 1] == old(deques[thief]);
      assert forall w | w in deques :: deques[w] == Drop(old(deques), victim, k)[w];
    }

    /**
     * The walk: first the thief's own deque, then outward level by level, in each the deepest queue first and its
     * oldest task first. In strict mode the first task of unknown quantum state met is an error.
     */
    method AttemptSteal(thief: int, strict: bool) returns (outcome: Outcome)
      requires Valid() && thief in deques
      modifies this
      ensures Valid() && deques.Keys == old(deques).Keys
      ensures old(deques[thief]) != [] ==>
        outcome.Got? && old(deques[thief]) == deques[thief] + [outcome.task] && owner == old(owner)
      ensures old(deques[thief]) != [] && outcome.Got? ==>
        records == old(records) + [Record(thief, thief, outcome.task.id, WorkerLocal)]
      ensures old(deques[thief]) == [] && outcome.Got? ==> exists l: Level, v, k: nat ::
        Stole(old(deques), scopes, thief, l, v, k) && old(deques)[v][k] == outcome.task && deques == Drop(old(deques), v, k) &&
        owner == old(owner)[outcome.task.id := thief] && records == old(records) + [Record(thief, v, outcome.task.id, l)]
      ensures Scoped(old(deques), scopes, thief)
      ensures outcome.Nothing? ==> NothingOffered(old(deques), scopes, thief, |OUTWARD|)
      ensures !outcome.Got? ==> deques == old(deques) && owner == old(owner) && records == old(records)
      ensures outcome.Rejected? ==> strict && UnknownMet(old(deques), scopes, thief)
      ensures outcome.Got? ==> forall u :: Present(deques, u) <==> old(Present(deques, u)) && u != outcome.task
      ensures outcome.Got? && outcome.task.Unknown() ==> old(deques[thief]) != []
      ensures old(deques[thief]) != [] ==> refusals == old(refusals)
      ensures old(deques[thief]) == [] ==>
        Ends(Met(old(deques), scopes, thief, |OUTWARD|), strict, outcome, refusals - old(refusals))
      ensures var met := Met(old(deques), scopes, thief, |OUTWARD|);
        outcome.Rejected? <==>
        old(deques[thief]) == [] && strict && exists i :: FirstStop(met, i, true) && met[i].Unknown()
    {
      assert Scoped(deques, scopes, thief);
      hide *;
      var local := PopLocal(thief);
      if local.Some? {
        records := records + [Record(thief, thief, local.value.id, WorkerLocal)];
        return Got(local.value);
      }
      outcome := StealOutward(thief, strict);
      RejectedIff(Met(old(deques), scopes, thief, |OUTWARD|), strict, outcome, refusals - old(refusals));
    }

    /** The walk beyond the thief's own deque, which is empty. */
    method StealOutward(thief: int, strict: bool) returns (outcome: Outcome)
      requires Valid() && thief in deques && Scoped(deques, scopes, thief)
      modifies this
      ensures Valid() && deques.Keys == old(deques).Keys
      ensures outcome.Got? ==> exists l: Level, v, k: nat ::
        Stole(old(deques), scopes, thief, l, v, k) && old(deques)[v][k] == outcome.task && deques == Drop(old(deques), v, k) &&
        owner == old(owner)[outcome.task.id := thief] && records == old(records) + [Record(thief, v, outcome.task.id, l)]
      ensures outcome.Got? ==> !outcome.task.Unknown()
      ensures outcome.Got? ==> forall u :: Present(deques, u) <==> old(Present(deques, u)) && u != outcome.task
      ensures outcome.Nothing? ==> NothingOffered(old(deques), scopes, thief, |OUTWARD|)
      ensures outcome.Rejected? ==> strict && UnknownMet(old(deques), scopes, thief)
      ensures !outcome.Got? ==> unchanged(`deques, `owner, `records)
      ensures Ends(Met(old(deques), scopes, thief, |OUTWARD|), strict, outcome, refusals - old(refusals))
    {
      hide Placed, Present, Append, Drop, Chosen, Victims, Known, Scoped, Met, AtHome, FirstStop, NothingOffered, UnknownMet;
      var find := Seek(thief, strict);
      match find {
        case Refused => return Rejected;
        case NotFound => return Nothing;
        case Found(l, victim, k, t) =>
          StealAndPop(thief, victim, t, l, k);
          return Got(t);
      }
    }

    /** The search beyond the thief's own deque: it changes nothing but the count of refusals. */
    method Seek(thief: int, strict: bool) returns (find: Find)
      requires Valid() && thief in deques && Scoped(deques, scopes, thief)
      modifies this`refusals
      ensures FindIs(deques, scopes, thief, strict, find, refusals - old(refusals))
    {
      var queues := deques;
      ghost var already := refusals;
      assert forall l: Level :: (thief, l) in scopes && Known(queues, scopes[(thief, l)]);
      ghost var seen := Met(queues, scopes, thief, 0);
      assert NothingOffered(queues, scopes, thief, 0) && seen == [] && NoStop(seen, strict);
      hide *;
      for l := 0 to |OUTWARD|
        invariant NothingOffered(queues, scopes, thief, l) && seen == Met(queues, scopes, thief, l) && NoStop(seen, strict)
        invariant refusals == already + |seen|
      {
        var level := OUTWARD[l];
        var victims := Victims(queues, scopes[(thief, level)], thief);
        SoughtLevel(queues, scopes, thief, strict, l, victims, seen);
        for i := 0 to |victims|
          invariant Sought(queues, scopes, thief, strict, l, victims, i, 0, seen) && refusals == already + |seen|
        {
          find, seen := SeekQueue(queues, thief, strict, l, victims, i, seen);
          if !find.NotFound? {
            return;
          }
        }
        SoughtAll(queues, scopes, thief, strict, l, victims, seen);
      }
      NothingFound(queues, scopes, thief, strict, seen);
      return NotFound;
    }

    /** The search in one queue, oldest task first. */
    method SeekQueue(queues: Deques, thief: int, strict: bool, l: nat, victims: seq<int>, i: nat, ghost before: seq<Task>)
      returns (find: Find, ghost seen: seq<Task>)
      requires Scoped(queues, scopes, thief) && l < |OUTWARD| && i < |victims|
      requires Sought(queues, scopes, thief, strict, l, victims, i, 0, before)
      modifies this`refusals
      ensures refusals == old(refusals) + |seen| - |before|
      ensures if find.NotFound? then Sought(queues, scopes, thief, strict, l, victims, i + 1, 0, seen)
              else FindIs(queues, scopes, thief, strict, find, |seen|)
    {
      VictimIs(queues, scopes, thief, strict, l, victims, i, 0, before);
      hide *;
      var queue := queues[victims[i]];
      seen := before;
      for k := 0 to |queue|
        invariant Sought(queues, scopes, thief, strict, l, victims, i, k, seen)
        invariant refusals == old(refusals) + |seen| - |before|
      {
        var t := queue[k];
        SoughtTask(queues, scopes, thief, strict, l, victims, i, k, seen, t);
        if t.Unknown() {
          refusals := refusals + 1;
          seen := seen + [t];
          if strict {
            return Refused, seen;
          }
        } else if !t.Stealable() {
          refusals := refusals + 1;
          seen := seen + [t];
        } else {
          return Found(OUTWARD[l], victims[i], k, t), seen;
        }
      }
      SoughtVictim(queues, scopes, thief, strict, l, victims, i, |queue|, seen);
      return NotFound, seen;
    }
  }

  const OUTWARD: seq<Level> := [WorkerGroup, Domain, Federated]

  // ---- the walk and the migration rules ----

  /** The walk decides by the deques and scopes alone: no two choices are possible, so identical runs steal alike. */
  lemma {:induction false} StealIsDetermined(deques: Deques, scopes: map<(int, Level), seq<int>>, thief: int,
        l: Level, v: int, k: nat, l': Level, v': int, k': nat)
    requires Stole(deques, scopes, thief, l, v, k) && Stole(deques, scopes, thief, l', v', k')
    ensures l == l' && v == v' && k == k'
  {
    assert OUTWARD == [WorkerGroup, Domain, Federated];
    assert HasStealable(deques, v) && HasStealable(deques, v');
  }

  /** What a walk migrates respects the rules exactly when this much of them holds; nothing on the walk asks. */
  lemma {:induction false} StealRespectsRulesIff(deques: Deques, scopes: map<(int, Level), seq<int>>, thief: int, l: Level,
        v: int, k: nat, rules: MigrationRules, trust: map<int, string>)
    requires Stole(deques, scopes, thief, l, v, k) && thief in trust && v in trust
    ensures Permitted(rules, trust, deques[v][k], thief, v) <==>
      && (deques[v][k].holds == KnownQuantum ==> rules.allowQuantum)
      && rules.maxHops >= 1 && (rules.forbidCrossTrust ==> trust[thief] == trust[v])
  {
  }

  /** A task that some walk of the thief could take. */
  ghost predicate InReach(deques: Deques, scopes: map<(int, Level), seq<int>>, thief: int, v: int, t: Task) {
    v != thief && v in deques && t in deques[v] && t.Stealable() && InScope(scopes, thief, v)
  }

  ghost predicate InScope(scopes: map<(int, Level), seq<int>>, thief: int, v: int) {
    exists l :: l in OUTWARD && (thief, l) in scopes && v in scopes[(thief, l)]
  }

  lemma {:induction false} StealTakesOne(deques: Deques, scopes: map<(int, Level), seq<int>>, thief: int, l: Level,
        v: int, k: nat, u: int, t: Task)
    requires Once(deques) && Stole(deques, scopes, thief, l, v, k)
    ensures Once(Drop(deques, v, k)) && InReach(deques, scopes, thief, v, deques[v][k])
    ensures InReach(Drop(deques, v, k), scopes, thief, u, t) <==>
      InReach(deques, scopes, thief, u, t) && !(u == v && t == deques[v][k])
  {
    hide Chosen;
    assert v in deques && v in scopes[(thief, l)] && v != thief && k < |deques[v]| && deques[v][k].Stealable() by {
      StoleFacts(deques, scopes, thief, l, v, k);
    }
    var next := Drop(deques, v, k);
    assert forall x, i, s :: Queued(next, x, i, s) <==> 0 <= i && Queued(deques, x, Shift(x == v && i >= k, i), s);
    if u == v {
      FirstIsOnly(deques, v, k);
      OnlyOne(deques, v, k);
      assert deques[v] == deques[v][..k] + [deques[v][k]] + deques[v][k + 1..];
    }
  }

  lemma {:induction false} OnlyOne(deques: Deques, w: int, k: nat)
    requires Once(deques) && w in deques && k < |deques[w]|
    ensures deques[w][k] !in deques[w][k + 1..]
  {
    var t := deques[w][k];
    if t in deques[w][k + 1..] {
      var j :| k < j < |deques[w]| && deques[w][j] == t;
      assert Queued(deques, w, j, t) && Queued(deques, w, k, t);
    }
  }

  lemma {:induction false} StoleFacts(deques: Deques, scopes: map<(int, Level), seq<int>>, thief: int, l: Level, v: int,
        k: nat)
    requires Stole(deques, scopes, thief, l, v, k)
    ensures v in deques && v in scopes[(thief, l)] && v != thief && k < |deques[v]| && deques[v][k].Stealable()
  {
  }

  datatype Pick = Pick(level: Level, victim: int, place: nat)

  /** Repeated walks of one thief, each taking one task away, until nothing is on offer. */
  ghost predicate Walks(states: seq<Deques>, picks: seq<Pick>, scopes: map<(int, Level), seq<int>>, thief: int) {
    && |states| == |picks| + 1
    && (forall i | 0 <= i < |picks| :: Walked(states[i], picks[i], states[i + 1], scopes, thief))
    && forall l | l in OUTWARD :: (thief, l) in scopes && NoneAt(states[|picks|], scopes[(thief, l)], thief)
  }

  ghost predicate Walked(a: Deques, p: Pick, b: Deques, scopes: map<(int, Level), seq<int>>, thief: int) {
    Stole(a, scopes, thief, p.level, p.victim, p.place) && b == Drop(a, p.victim, p.place)
  }

  ghost predicate Took(states: seq<Deques>, picks: seq<Pick>, i: int, v: int, t: Task)
    requires |states| == |picks| + 1
  {
    && 0 <= i < |picks| && picks[i].victim == v && v in states[i] && picks[i].place < |states[i][v]|
    && states[i][v][picks[i].place] == t
  }

  /** The walks take exactly the tasks in reach of the first state. */
  lemma {:induction false} WalksTakeAll(states: seq<Deques>, picks: seq<Pick>, scopes: map<(int, Level), seq<int>>,
        thief: int, v: int, t: Task)
    requires Walks(states, picks, scopes, thief) && Once(states[0])
    ensures InReach(states[0], scopes, thief, v, t) <==> exists i :: Took(states, picks, i, v, t)
    decreases |picks|
  {
    hide Stole, InReach, Once;
    if picks == [] {
      NothingInReach(states[0], scopes, thief, v, t);
    } else {
      var p := picks[0];
      assert Walked(states[0], p, states[1], scopes, thief);
      StealTakesOne(states[0], scopes, thief, p.level, p.victim, p.place, v, t);
      StoleFacts(states[0], scopes, thief, p.level, p.victim, p.place);
      forall i | 0 <= i < |picks| - 1
        ensures Walked(states[1..][i], picks[1..][i], states[1..][i + 1], scopes, thief)
      {
        assert Walked(states[i + 1], picks[i + 1], states[i + 1 + 1], scopes, thief);
      }
      WalksTakeAll(states[1..], picks[1..], scopes, thief, v, t);
      assert forall i :: Took(states[1..], picks[1..], i, v, t) <==> i >= 0 && Took(states, picks, i + 1, v, t);
      if i :| Took(states, picks, i, v, t) {
        if i > 0 { assert Took(states[1..], picks[1..], i - 1, v, t); }
      }
      if InReach(states[0], scopes, thief, v, t) && v == p.victim && t == states[0][v][p.place] {
        assert Took(states, picks, 0, v, t);
      }
    }
  }

  lemma {:induction false} NothingInReach(deques: Deques, scopes: map<(int, Level), seq<int>>, thief: int, v: int,
        t: Task)
    requires forall l | l in OUTWARD :: (thief, l) in scopes && NoneAt(deques, scopes[(thief, l)], thief)
    ensures !InReach(deques, scopes, thief, v, t)
  {
  }

  /** All that repeated walks of a thief migrate is permitted exactly when every task in its reach is. */
  lemma {:induction false} WalksRespectRulesIff(states: seq<Deques>, picks: seq<Pick>, scopes: map<(int, Level), seq<int>>,
        thief: int, rules: MigrationRules, trust: map<int, string>)
    requires Walks(states, picks, scopes, thief) && Once(states[0])
    requires thief in trust && forall w | w in states[0] :: w in trust
    ensures (forall i, v, t | Took(states, picks, i, v, t) && v in trust :: Permitted(rules, trust, t, thief, v)) <==>
      (forall v, t | InReach(states[0], scopes, thief, v, t) :: Permitted(rules, trust, t, thief, v))
  {
    assert |states| == |picks| + 1;
    hide Walks, Took, Permitted, InReach;
    forall v, t ensures InReach(states[0], scopes, thief, v, t) <==> exists i :: Took(states, picks, i, v, t) {
      WalksTakeAll(states, picks, scopes, thief, v, t);
    }
  }

  lemma {:induction false} LevelIs(l: Level)
    ensures l in {WorkerLocal, WorkerGroup, Domain, Federated}
  {
    match l case _ =>
  }

  const LOCAL: map<int, string> := map[0 := "LOCAL_TRUSTED", 1 := "LOCAL_TRUSTED"]

  /** A group of two workers that trust each other, with one task queued on the second. */
  method GroupOfTwo(t: Task) returns (fabric: WorkStealing)
    ensures fresh(fabric) && fabric.Valid() && fabric.deques == map[0 := [], 1 := [t]]
    ensures fabric.rules == DEFAULT_RULES && fabric.trust == LOCAL && fabric.scopes[(0, WorkerGroup)] == [0, 1]
  {
    var scopes := map w: int, l: Level |
      w in {0, 1} && l in {WorkerLocal, WorkerGroup, Domain, Federated} :: (w, l) := [0, 1];
    forall w, l | w in {0, 1} ensures (w, l) in scopes { LevelIs(l); }
    fabric := new WorkStealing({0, 1}, scopes, DEFAULT_RULES, LOCAL);
    assert forall u :: !Present(fabric.deques, u);
    assert fabric.deques == map[0 := [], 1 := []];
    var ok := fabric.Push(1, t);
    assert ok && fabric.deques[1] == [] + [t] == [t];
    assert fabric.deques == map[0 := [], 1 := [t]];
    assert scopes[(0, WorkerGroup)] == [0, 1];
  }

  /** Under the default rules the named steal of a movable task holding a known quantum payload is refused, and the
      walk then migrates that very task. */
  method WalkIgnoresRules() returns (t: Task, stolen: bool, outcome: Outcome)
    ensures t.holds == KnownQuantum && t.Stealable() && !Permitted(DEFAULT_RULES, LOCAL, t, 0, 1)
    ensures !stolen && outcome == Got(t)
  {
    t := Task(7, KnownQuantum, true, true);
    var fabric := GroupOfTwo(t);
    stolen := fabric.StealSpecific(0, 1, t, WorkerGroup);
    ghost var deques := fabric.deques;
    outcome := fabric.AttemptSteal(0, false);
    assert HasStealable(deques, 1) by { assert deques[1][0].Stealable(); }
    assert outcome.Nothing? ==> NoneAt(deques, fabric.scopes[(0, OUTWARD[0])], 0);
  }
}
