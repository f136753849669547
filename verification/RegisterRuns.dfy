/** Runs of a last-writer-wins register under a clock policy: what it reads after anti-entropy. */
module RegisterRuns {
  import opened Basics
  import opened Folds
  import opened AntiEntropies
  import opened Crdts

  /** A write without an explicit timestamp, or an exchange. */
  datatype Event = Write(r: nat, value: int) | Sync(a: nat, b: nat) {
    predicate Valid(n: nat) { if Sync? then a < n && b < n && a != b else r < n }
  }

  ghost predicate ValidRun(run: seq<Event>, n: nat) { forall i | 0 <= i < |run| :: run[i].Valid(n) }

  /** A write is stamped one later than what the replica has; it raises the replica's own version entry. */
  function Written(s: Register, r: nat, value: int): Register {
    var stamp := s.timestamp + 1;
    Register(value, stamp, r, s.version[r := Max(Get(s.version, r), if stamp >= 0 then stamp else 0)])
  }

  function Merged(policy: Policy): (Register, Register) -> Register {
    (a: Register, b: Register) => MergeRegisters(policy, a, b)
  }

  function Step(policy: Policy, states: seq<Register>, ev: Event): (next: seq<Register>)
    requires ev.Valid(|states|)
    ensures |next| == |states|
  {
    match ev
    case Write(r, v) => states[r := Written(states[r], r, v)]
    case Sync(a, b) => var m := MergeRegisters(policy, states[a], states[b]); states[a := m][b := m]
  }

  /** The registers of n replicas; each starts as its own write at time zero. */
  function After(policy: Policy, start: seq<Register>, run: seq<Event>): (states: seq<Register>)
    requires ValidRun(run, |start|)
    ensures |states| == |start|
  {
    if run == [] then start else Step(policy, After(policy, start, run[..|run| - 1]), run[|run| - 1])
  }

  /** What write i wrote. */
  function Made(policy: Policy, start: seq<Register>, run: seq<Event>, i: nat): Register
    requires ValidRun(run, |start|) && i < |run| && run[i].Write?
  {
    Written(After(policy, start, run[..i])[run[i].r], run[i].r, run[i].value)
  }

  /** The write of the state is one of the run's, or one of the start. */
  ghost predicate Original(policy: Policy, start: seq<Register>, run: seq<Event>, s: Register)
    requires ValidRun(run, |start|)
  {
    || (exists q | 0 <= q < |start| :: SameWrite(s, start[q]))
    || (exists i: nat :: i < |run| && run[i].Write? && SameWrite(s, Made(policy, start, run, i)))
  }

  lemma {:induction false} MadeBefore(policy: Policy, start: seq<Register>, run: seq<Event>, i: nat)
    requires ValidRun(run, |start|) && i < |run| - 1 && run[i].Write?
    ensures Made(policy, start, run[..|run| - 1], i) == Made(policy, start, run, i)
  {
    assert run[..|run| - 1][..i] == run[..i];
  }

  lemma {:induction false} StillOriginal(policy: Policy, start: seq<Register>, run: seq<Event>, s: Register)
    requires ValidRun(run, |start|) && run != [] && Original(policy, start, run[..|run| - 1], s)
    ensures Original(policy, start, run, s)
  {
    var front := run[..|run| - 1];
    if i: nat :| i < |front| && front[i].Write? && SameWrite(s, Made(policy, start, front, i)) {
      MadeBefore(policy, start, run, i);
      assert SameWrite(s, Made(policy, start, run, i));
    }
  }

  lemma {:induction false} SameIsOriginal(policy: Policy, start: seq<Register>, run: seq<Event>, s: Register, t: Register)
    requires ValidRun(run, |start|) && Original(policy, start, run, s) && SameWrite(t, s)
    ensures Original(policy, start, run, t)
  {
    if q :| 0 <= q < |start| && SameWrite(s, start[q]) {
      assert SameWrite(t, start[q]);
    } else {
      var i: nat :| i < |run| && run[i].Write? && SameWrite(s, Made(policy, start, run, i));
      assert SameWrite(t, Made(policy, start, run, i));
    }
  }

  /** Nothing a replica reads was made up. */
  lemma {:induction false} StatesAreOriginal(policy: Policy, start: seq<Register>, run: seq<Event>, r: nat)
    requires ValidRun(run, |start|) && r < |start|
    ensures Original(policy, start, run, After(policy, start, run)[r])
    decreases |run|
  {
    hide Original, MergeRegisters, Written;
    if run == [] {
      StartIsOriginal(policy, start, r);
    } else {
      var front := run[..|run| - 1];
      var before := After(policy, start, front);
      StatesAreOriginal(policy, start, front, r);
      StillOriginal(policy, start, run, before[r]);
      match run[|run| - 1]
      case Write(q, v) => WriteIsOriginal(policy, start, run);
      case Sync(a, b) =>
        StatesAreOriginal(policy, start, front, a);
        StatesAreOriginal(policy, start, front, b);
        StillOriginal(policy, start, run, before[a]);
        StillOriginal(policy, start, run, before[b]);
        var m := MergeRegisters(policy, before[a], before[b]);
        MergeKeeps(policy, before[a], before[b]);
        if SameWrite(m, before[a]) {
          SameIsOriginal(policy, start, run, before[a], m);
        } else {
          SameIsOriginal(policy, start, run, before[b], m);
        }
    }
  }

  lemma {:induction false} StartIsOriginal(policy: Policy, start: seq<Register>, r: nat)
    requires r < |start|
    ensures Original(policy, start, [], start[r])
  {
    assert SameWrite(start[r], start[r]);
  }

  lemma {:induction false} WriteIsOriginal(policy: Policy, start: seq<Register>, run: seq<Event>)
    requires ValidRun(run, |start|) && run != [] && run[|run| - 1].Write?
    ensures Original(policy, start, run, After(policy, start, run)[run[|run| - 1].r])
  {
    var i := |run| - 1;
    assert SameWrite(After(policy, start, run)[run[i].r], Made(policy, start, run, i));
  }

  /** Under a clock policy what a replica holds is never outdone by what it held before. */
  lemma {:induction false} NeverBack(policy: Policy, start: seq<Register>, run: seq<Event>, i: nat, r: nat)
    requires policy != VersionVector && ValidRun(run, |start|) && i <= |run| && r < |start|
    ensures !Outdoes(After(policy, start, run[..i])[r], After(policy, start, run)[r])
    decreases |run|
  {
    hide MergeRegisters;
    if i == |run| {
      assert run[..i] == run;
    } else {
      var front := run[..|run| - 1];
      assert front[..i] == run[..i];
      NeverBack(policy, start, front, i, r);
      var before := After(policy, start, front);
      match run[|run| - 1]
      case Write(q, v) =>
      case Sync(a, b) => MergeKeeps(policy, before[a], before[b]);
    }
  }

  /** Under a clock policy, after any run of writes and exchanges and one sweep: every replica reads one of the writes
      of the run, or of the start, and no write of the run and none of the start is later than it. */
  lemma {:induction false} ConvergedReadsLatest(policy: Policy, start: seq<Register>, run: seq<Event>, r: nat)
    requires policy != VersionVector && ValidRun(run, |start|) && r < |start|
    ensures var s := Sweep(Merged(policy), After(policy, start, run), 0, 1)[r];
      && Original(policy, start, run, s)
      && (forall q | 0 <= q < |start| :: !Outdoes(start[q], s))
      && (forall i: nat | i < |run| && run[i].Write? :: !Outdoes(Made(policy, start, run, i), s))
  {
    hide Original, MergeRegisters, Sweep, Made;
    var states := After(policy, start, run);
    RegistersAbsorb(policy);
    SweepReachesJoin(Merged(policy), states);
    FoldIsLatest(policy, states);
    var s := Sweep(Merged(policy), states, 0, 1)[r];
    assert LatestOf(s, states);
    var o :| 0 <= o < |states| && SameWrite(s, states[o]);
    StatesAreOriginal(policy, start, run, o);
    SameIsOriginal(policy, start, run, states[o], s);
    forall q | 0 <= q < |start| ensures !Outdoes(start[q], s) {
      NeverBack(policy, start, run, 0, q);
      assert run[..0] == [];
      assert !Outdoes(states[q], s);
    }
    forall i: nat | i < |run| && run[i].Write? ensures !Outdoes(Made(policy, start, run, i), s) {
      MadeIsHeld(policy, start, run, i);
      NeverBack(policy, start, run, i + 1, run[i].r);
      assert !Outdoes(states[run[i].r], s);
    }
  }

  lemma {:induction false} MadeIsHeld(policy: Policy, start: seq<Register>, run: seq<Event>, i: nat)
    requires ValidRun(run, |start|) && i < |run| && run[i].Write?
    ensures After(policy, start, run[..i + 1])[run[i].r] == Made(policy, start, run, i)
  {
    assert run[..i + 1][..i] == run[..i];
  }
}
