/**
 The deferred-deadline indicator of
 firmware/include/mks57d/deferred_deadline_indicator.h. Releases are numbered by
 32-bit sequence words; the ledger below numbers them without bound.
 */
module DeadlineIndicator {
  import opened Words

  /** How many releases have started, completed in order, and been found overdue. */
  datatype Ledger = Ledger(started: nat, completed: nat, overdue: nat) {
    /** What the indication promises: the newest overdue release is incomplete. */
    ghost predicate Overdue() {
      completed < overdue
    }

    ghost predicate WellFormed() {
      completed <= started && overdue <= started && started - completed < TWO_31
    }
  }

  datatype Op = Start | DeadlineElapsed | Complete(release: nat)

  /** Completions arrive in order and fewer than 2^31 releases are outstanding. */
  ghost predicate Allowed(l: Ledger, op: Op) {
    match op
    case Start => l.started + 1 - l.completed < TWO_31
    case DeadlineElapsed => true
    case Complete(release) => l.completed <= release <= l.started
  }

  ghost function Apply(l: Ledger, op: Op): Ledger {
    match op
    case Start => l.(started := l.started + 1)
    case DeadlineElapsed => if l.started == l.completed then l else l.(overdue := l.started)
    case Complete(release) => l.(completed := release)
  }

  /** The four fields of the structure. */
  datatype Fields = Fields(started: uint32, completed: uint32, overdue: uint32, active: bool)

  /** The fields after a call and, for the two that return one, its boolean result. */
  datatype Reply = Reply(fields: Fields, result: bool)

  const INITIAL: Fields := Fields(0, 0, 0, false)

  /** The three operations on 32-bit words. */
  function StepWords(f: Fields, op: Op): Reply {
    match op
    case Start => Reply(f.(started := Wrap(f.started + 1)), false)
    case DeadlineElapsed =>
      if f.started == f.completed then Reply(f, false)
      else Reply(f.(overdue := f.started, active := true), !f.active)
    case Complete(release) =>
      var completed := f.(completed := Wrap(release));
      if f.active && Signed32(Wrap(Wrap(release) - f.overdue)) >= 0 then Reply(completed.(active := false), true)
      else Reply(completed, false)
  }

  /** The words are the wrapped ledger, and `active` says exactly what it promises. */
  ghost predicate Represents(f: Fields, l: Ledger) {
    && l.WellFormed()
    && f == Fields(Wrap(l.started), Wrap(l.completed), Wrap(l.overdue), l.Overdue())
  }

  /**
   One call on words refines one on the ledger, across wrap: a deadline check
   returns true exactly when the ledger becomes overdue, a completion exactly
   when it stops being overdue, and nothing else changes that.
   */
  lemma StepRefines(f: Fields, l: Ledger, op: Op)
    requires Represents(f, l) && Allowed(l, op)
    ensures
      var r, next := StepWords(f, op), Apply(l, op);
      && Represents(r.fields, next)
      && (r.result <==> l.Overdue() != next.Overdue())
      && (r.result ==> next.Overdue() == op.DeadlineElapsed?)
  {
    match op
    case Start => WrapSum(l.started, 1);
    case DeadlineElapsed => WrapInjective(l.started, l.completed);
    case Complete(release) => SignedDifference(release, l.overdue);
  }

  class Indicator {
    var latestStarted: uint32
    var latestCompleted: uint32
    var latestOverdue: uint32
    var active: bool
    ghost var ledger: Ledger

    function Words(): Fields
      reads this
    {
      Fields(latestStarted, latestCompleted, latestOverdue, active)
    }

    ghost predicate Valid()
      reads this
    {
      Represents(Words(), ledger)
    }

    constructor ()
      ensures Valid() && ledger == Ledger(0, 0, 0) && Words() == INITIAL
    {
      latestStarted, latestCompleted, latestOverdue, active := 0, 0, 0, false;
      ledger := Ledger(0, 0, 0);
    }

    method StartRelease() returns (sequence: uint32)
      requires Valid() && Allowed(ledger, Start)
      modifies this
      ensures Valid() && ledger == Apply(old(ledger), Start)
      ensures Words() == StepWords(old(Words()), Start).fields
      ensures sequence == Wrap(ledger.started)
    {
      StepRefines(Words(), ledger, Start);
      latestStarted := Wrap(latestStarted + 1);
      ledger := Apply(ledger, Start);
      sequence := latestStarted;
    }

    /** A true result is exactly an off-to-on transition of the promise. */
    method CheckDeadline() returns (raised: bool)
      requires Valid()
      modifies this
      ensures Valid() && ledger == Apply(old(ledger), DeadlineElapsed)
      ensures StepWords(old(Words()), DeadlineElapsed) == Reply(Words(), raised)
      ensures raised <==> !old(ledger.Overdue()) && ledger.Overdue()
    {
      StepRefines(Words(), ledger, DeadlineElapsed);
      ledger := Apply(ledger, DeadlineElapsed);
      if latestStarted == latestCompleted {
        return false;
      }
      latestOverdue := latestStarted;
      if active {
        return false;
      }
      active := true;
      return true;
    }

    /** A true result is exactly an on-to-off transition of the promise. */
    method CompleteRelease(sequence: uint32, ghost release: nat) returns (lowered: bool)
      requires Valid() && Allowed(ledger, Complete(release)) && sequence == Wrap(release)
      modifies this
      ensures Valid() && ledger == Apply(old(ledger), Complete(release))
      ensures StepWords(old(Words()), Complete(release)) == Reply(Words(), lowered)
      ensures lowered <==> old(ledger.Overdue()) && !ledger.Overdue()
    {
      StepRefines(Words(), ledger, Complete(release));
      ledger := Apply(ledger, Complete(release));
      latestCompleted := sequence;
      if !active || Signed32(Wrap(sequence - latestOverdue)) < 0 {
        return false;
      }
      active := false;
      return true;
    }
  }

  // ---- whole runs ----

  ghost predicate AllowedRun(l: Ledger, ops: seq<Op>)
    decreases ops
  {
    ops == [] || (Allowed(l, ops[0]) && AllowedRun(Apply(l, ops[0]), ops[1..]))
  }

  ghost function LedgerAfter(l: Ledger, ops: seq<Op>, n: nat): Ledger
    requires n <= |ops|
    decreases n
  {
    if n == 0 then l else LedgerAfter(Apply(l, ops[0]), ops[1..], n - 1)
  }

  /** A true result: which call returned it, and whether that call was a deadline check. */
  datatype Entry = Entry(at: nat, raised: bool)

  /** Every true result of a run of calls on the 32-bit fields, in order. */
  function Log(f: Fields, ops: seq<Op>, at: nat): seq<Entry>
    decreases ops
  {
    if ops == [] then []
    else
      var r := StepWords(f, ops[0]);
      (if r.result then [Entry(at, ops[0].DeadlineElapsed?)] else []) + Log(r.fields, ops[1..], at + 1)
  }

  /** Raises and lowers take turns, the first of them leaving the given condition. */
  predicate Alternates(log: seq<Entry>, overdue: bool) {
    log == [] || (log[0].raised == !overdue && Alternates(log[1..], !overdue))
  }

  /** The entries are in time order, at or after `from`. */
  predicate Ordered(log: seq<Entry>, from: nat) {
    log == [] || (from <= log[0].at && Ordered(log[1..], log[0].at + 1))
  }

  lemma {:induction false} AlternatesAt(log: seq<Entry>, overdue: bool, i: nat)
    requires Alternates(log, overdue) && i < |log|
    ensures log[i].raised == ((i % 2 == 0) != overdue)
    decreases i
  {
    if i > 0 {
      AlternatesAt(log[1..], !overdue, i - 1);
    }
  }

  lemma {:induction false} NothingEarlier(log: seq<Entry>, from: nat, n: nat, raised: bool)
    requires Ordered(log, from) && n < from
    ensures Entry(n, raised) !in log
    decreases log
  {
    if log != [] {
      NothingEarlier(log[1..], log[0].at + 1, n, raised);
      assert log == [log[0]] + log[1..];
    }
  }

  /** The true results of a run strictly alternate, in time order. */
  lemma {:induction false} LogAlternates(f: Fields, l: Ledger, ops: seq<Op>, at: nat)
    requires Represents(f, l) && AllowedRun(l, ops)
    ensures Alternates(Log(f, ops, at), l.Overdue()) && Ordered(Log(f, ops, at), at)
    decreases ops
  {
    hide StepWords, Represents, Apply, Allowed;
    if ops != [] {
      var r, next := StepWords(f, ops[0]), Apply(l, ops[0]);
      StepRefines(f, l, ops[0]);
      LogAlternates(r.fields, next, ops[1..], at + 1);
      var rest := Log(r.fields, ops[1..], at + 1);
      if r.result {
        assert Log(f, ops, at)[1..] == rest;
      } else {
        assert Log(f, ops, at) == rest;
      }
    }
  }

  /** A call returns true exactly where the unbounded ledger starts or stops being overdue. */
  lemma {:induction false} LogIsExact(f: Fields, l: Ledger, ops: seq<Op>, at: nat, n: nat, raised: bool)
    requires Represents(f, l) && AllowedRun(l, ops) && n < |ops|
    ensures Entry(at + n, raised) in Log(f, ops, at) <==> Turns(l, ops, n, raised)
    decreases ops
  {
    hide StepWords, Represents, Apply, Allowed, AllowedRun;
    var r, next := StepWords(f, ops[0]), Apply(l, ops[0]);
    AllowedTail(l, ops);
    StepRefines(f, l, ops[0]);
    var rest := Log(r.fields, ops[1..], at + 1);
    if n == 0 {
      LogAlternates(r.fields, next, ops[1..], at + 1);
      NothingEarlier(rest, at + 1, at, raised);
      assert LedgerAfter(l, ops, 1) == next;
    } else {
      LogIsExact(r.fields, next, ops[1..], at + 1, n - 1, raised);
    }
  }

  lemma AllowedTail(l: Ledger, ops: seq<Op>)
    requires ops != [] && AllowedRun(l, ops)
    ensures Allowed(l, ops[0]) && AllowedRun(Apply(l, ops[0]), ops[1..])
  {}

  /** Call n makes the ledger overdue, or makes it stop being so. */
  ghost predicate Turns(l: Ledger, ops: seq<Op>, n: nat, raised: bool)
    requires n < |ops|
  {
    LedgerAfter(l, ops, n).Overdue() == !raised && LedgerAfter(l, ops, n + 1).Overdue() == raised
  }

  /**
   From initialisation, over any run with in-order completions and fewer than
   2^31 outstanding releases: the true results of the two calls strictly
   alternate, beginning with a raise, and they are returned by exactly the calls
   at which the newest overdue release becomes incomplete or is completed.
   */
  lemma IndicationIsExact(ops: seq<Op>)
    requires AllowedRun(Ledger(0, 0, 0), ops)
    ensures
      var log := Log(INITIAL, ops, 0);
      forall i :: 0 <= i < |log| ==> log[i].raised == (i % 2 == 0)
    ensures
      forall n: nat, raised :: n < |ops| ==>
        (Entry(n, raised) in Log(INITIAL, ops, 0) <==> Turns(Ledger(0, 0, 0), ops, n, raised))
  {
    hide StepWords, Apply, Allowed, AllowedRun, Log, Turns, Alternates, Ordered;
    var l := Ledger(0, 0, 0);
    LogAlternates(INITIAL, l, ops, 0);
    var log := Log(INITIAL, ops, 0);
    forall i | 0 <= i < |log| ensures log[i].raised == (i % 2 == 0) {
      AlternatesAt(log, false, i);
    }
    forall n: nat, raised | n < |ops|
      ensures Entry(n, raised) in log <==> Turns(l, ops, n, raised)
    {
      LogIsExact(INITIAL, l, ops, 0, n, raised);
    }
  }
}
