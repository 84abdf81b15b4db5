/**
 The sequence-locked publications of rotor_control_runtime.c. One writer (the
 SPI callback) publishes a record field by field between two increments of a
 32-bit sequence word; getters in the foreground copy it field by field and
 retry. The writer is a state machine, so that a run of it can be cut at any
 store; a getter reads each of its words at some later instant of such a run.
 */
module SequenceLock {
  import opened Words

  /** The contents of one field of a record. */
  type Cell = int

  /**
   The shared memory at one instant. `count` is the sequence word before it is
   reduced to 32 bits, `history` the records published so far, the initial
   contents first; `pending` is the record being stored, when there is one.
   */
  datatype Publication = Publication(
    count: nat,
    memory: seq<Cell>,
    pending: seq<Cell>,
    written: nat,
    history: seq<seq<Cell>>)
  {
    function Sequence(): uint32 { Wrap(count) }
  }

  /** The steps of `publish_*_snapshot`: one store to shared memory each, or a pause. */
  datatype Store = Pause | Open(value: seq<Cell>) | Field | Close

  function Begin(value: seq<Cell>): Publication {
    Publication(0, value, value, |value|, [value])
  }

  predicate Enabled(p: Publication, s: Store) {
    match s
    case Pause => true
    case Open(value) => p.count % 2 == 0 && |value| == |p.memory|
    case Field => p.count % 2 == 1 && p.written < |p.pending| && |p.pending| == |p.memory|
    case Close => p.count % 2 == 1 && p.written == |p.pending|
  }

  function Apply(p: Publication, s: Store): Publication
    requires Enabled(p, s)
  {
    match s
    case Pause => p
    case Open(value) => p.(count := p.count + 1, pending := value, written := 0)
    case Field => p.(memory := p.memory[p.written := p.pending[p.written]], written := p.written + 1)
    case Close => p.(count := p.count + 1, history := p.history + [p.pending])
  }

  ghost predicate Next(p: Publication, q: Publication) {
    exists s: Store :: Enabled(p, s) && q == Apply(p, s)
  }

  ghost predicate WriterRun(run: seq<Publication>) {
    && run != []
    && Coherent(run[0])
    && forall i :: 0 < i < |run| ==> Next(run[i - 1], run[i])
  }

  /** Between publications the memory holds the last complete record. */
  predicate Coherent(p: Publication) {
    && |p.history| == p.count / 2 + 1
    && |p.pending| == |p.memory|
    && p.written <= |p.memory|
    && p.memory[..p.written] == p.pending[..p.written]
    && (p.count % 2 == 0 ==> p.memory == p.history[p.count / 2])
  }

  lemma BeginIsCoherent(value: seq<Cell>)
    ensures Coherent(Begin(value))
  {}

  lemma StoreKeepsCoherent(p: Publication, s: Store)
    requires Coherent(p) && Enabled(p, s)
    ensures Coherent(Apply(p, s))
    ensures p.history <= Apply(p, s).history
  {
    var q := Apply(p, s);
    match s
    case Field =>
      assert q.memory[..q.written] == p.memory[..p.written] + [p.pending[p.written]];
    case Close =>
      assert p.memory[..p.written] == p.memory && p.pending[..p.written] == p.pending;
    case _ =>
  }

  /**
   The writer itself, `publish_progress_snapshot` and `publish_full_snapshot`:
   its stores in order are a run of the machine, and at the end the record has
   joined the history and is what memory holds.
   */
  method Publish(p: Publication, value: seq<Cell>) returns (run: seq<Publication>)
    requires Coherent(p) && p.count % 2 == 0 && |value| == |p.memory|
    ensures WriterRun(run) && run[0] == p
    ensures var q := run[|run| - 1];
            q.count == p.count + 2 && q.memory == value && q.history == p.history + [value]
  {
    hide Coherent;
    run := [p];
    run := Step(run, Open(value));
    var k := 0;
    while k < |value|
      invariant WriterRun(run) && run[0] == p
      invariant 0 <= k <= |value|
      invariant var q := run[|run| - 1];
                q.count == p.count + 1 && q.pending == value && q.written == k
                && |q.memory| == |value| && q.history == p.history
    {
      run := Step(run, Field);
      k := k + 1;
    }
    run := Step(run, Close);
    ghost var q := run[|run| - 1];
    RunKeepsCoherent(run, 0, |run| - 1);
    NewestIsLast(p, q);
  }

  /** Publication after publication from initialisation: the history is what was published. */
  method PublishAll(initial: seq<Cell>, records: seq<seq<Cell>>) returns (run: seq<Publication>)
    requires forall r :: r in records ==> |r| == |initial|
    ensures WriterRun(run) && run[0] == Begin(initial)
    ensures run[|run| - 1].history == [initial] + records
    ensures run[|run| - 1].count == 2 * |records|
  {
    hide Coherent, Next;
    BeginIsCoherent(initial);
    run := [Begin(initial)];
    for n := 0 to |records|
      invariant WriterRun(run) && run[0] == Begin(initial)
      invariant var q := run[|run| - 1];
                q.count == 2 * n && |q.memory| == |initial| && q.history == [initial] + records[..n]
    {
      var q := run[|run| - 1];
      RunKeepsCoherent(run, 0, |run| - 1);
      var more := Publish(q, records[n]);
      RunsJoin(run, more);
      run := run + more[1..];
      assert records[..n + 1] == records[..n] + [records[n]];
    }
    assert records[..|records|] == records;
  }

  lemma RunsJoin(a: seq<Publication>, b: seq<Publication>)
    requires WriterRun(a) && WriterRun(b) && a[|a| - 1] == b[0]
    ensures WriterRun(a + b[1..])
    ensures (a + b[1..])[|a| + |b| - 2] == b[|b| - 1]
  {
    hide Coherent, Next;
    var run := a + b[1..];
    forall i | 0 < i < |run| ensures Next(run[i - 1], run[i]) {
      if i < |a| {
        assert Next(a[i - 1], a[i]);
      } else {
        var j := i - |a| + 1;
        assert run[i] == b[j] && run[i - 1] == b[j - 1];
        assert Next(b[j - 1], b[j]);
      }
    }
  }

  lemma NewestIsLast(p: Publication, q: Publication)
    requires Coherent(p) && Coherent(q) && p.count % 2 == 0
    requires q.count == p.count + 2 && |q.history| == |p.history| + 1
    ensures q.memory == q.history[|p.history|]
  {}

  method Step(run: seq<Publication>, s: Store) returns (longer: seq<Publication>)
    requires WriterRun(run) && Enabled(run[|run| - 1], s)
    ensures WriterRun(longer) && longer == run + [Apply(run[|run| - 1], s)]
  {
    hide Coherent, Enabled;
    longer := run + [Apply(run[|run| - 1], s)];
    assert Next(run[|run| - 1], longer[|run|]);
    forall i | 0 < i < |longer| ensures Next(longer[i - 1], longer[i]) {
      if i < |run| {
        assert Next(run[i - 1], run[i]);
      }
    }
  }

  /** What the writer keeps between any two instants of a run. */
  lemma {:induction false} RunKeepsCoherent(run: seq<Publication>, i: nat, j: nat)
    requires WriterRun(run) && i <= j < |run|
    ensures Coherent(run[i]) && Coherent(run[j])
    ensures run[i].count <= run[j].count && run[i].history <= run[j].history
    decreases j
  {
    hide Coherent, Enabled, Apply;
    if j > 0 {
      RunKeepsCoherent(run, if i < j then i else j - 1, j - 1);
      assert Next(run[j - 1], run[j]);
      NextKeeps(run[j - 1], run[j]);
    }
  }

  lemma NextKeeps(p: Publication, q: Publication)
    requires Coherent(p) && Next(p, q)
    ensures Coherent(q) && p.count <= q.count && p.history <= q.history
  {
    hide Coherent;
    var s :| Enabled(p, s) && q == Apply(p, s);
    StoreKeepsCoherent(p, s);
  }

  /** An even count that has not moved between two instants means memory has not either. */
  lemma SameCountSameMemory(run: seq<Publication>, i: nat, k: nat, j: nat)
    requires WriterRun(run) && i <= k <= j < |run|
    requires run[i].count == run[j].count && run[i].count % 2 == 0
    ensures |run[i].history| == run[i].count / 2 + 1
    ensures run[k].memory == run[i].history[run[i].count / 2] == run[i].memory
  {
    RunKeepsCoherent(run, i, k);
    RunKeepsCoherent(run, k, j);
  }

  /** The loop condition of the getters. */
  predicate Retry(before: uint32, after: uint32) {
    before != after || after % 2 != 0
  }

  lemma WordParity(n: nat)
    ensures Wrap(n) % 2 == n % 2
  {}

  /**
   An attempt between counts a and b is accepted exactly when no publication
   was under way at a and the count moved by a multiple of 2^32; so with fewer
   than 2^31 publications in between, exactly when it did not move.
   */
  lemma AcceptedIff(a: nat, b: nat)
    requires a <= b
    ensures !Retry(Wrap(a), Wrap(b)) <==> a % 2 == 0 && (b - a) % TWO_32 == 0
    ensures b - a < TWO_32 ==> (!Retry(Wrap(a), Wrap(b)) <==> a % 2 == 0 && a == b)
  {
    WordParity(a);
    WordParity(b);
    WrapDifference(b, a);
    if b - a < TWO_32 {
      WrapInjective(a, b);
    }
  }

  datatype Reading =
    | NotInitialized
    | StillWaiting
    | Returned(copy: seq<Cell>, first: nat, last: nat)

  /**
   A snapshot getter. `now` is the instant of the run at which it reads next;
   any number of writer steps may pass before each read. `stale` is what `after`
   holds before its first assignment and `buffer` what the caller's record
   holds. When the loop ends, with fewer than 2^31 publications between its
   last two reads of the word, the copy is one record published in full: the
   newest one at the instant `first`, which lies inside this call.
   */
  method GetSnapshot(run: seq<Publication>, start: nat, initialized: bool, stale: uint32, buffer: seq<Cell>)
    returns (r: Reading)
    requires WriterRun(run) && start < |run|
    ensures r.NotInitialized? <==> !initialized
    ensures r.Returned? ==>
              && start <= r.first <= r.last < |run|
              && (run[r.last].count - run[r.first].count < TWO_32 ==>
                    && |run[r.first].history| == run[r.first].count / 2 + 1
                    && run[r.last].history == run[r.first].history
                    && r.copy == run[r.first].history[run[r.first].count / 2])
  {
    hide WriterRun, Coherent, Next;
    if !initialized {
      return NotInitialized;
    }
    var now, after, copy := start, stale, buffer;
    while true
      invariant start <= now < |run|
      decreases |run| - now
    {
      var first := Later(now, |run|);
      if first == |run| {
        return StillWaiting;
      }
      var before := run[first].Sequence();
      now := first;
      WordParity(run[first].count);
      if before % 2 == 0 {
        var copied := CopyRecord(run, first);
        if copied.None? {
          return StillWaiting;
        }
        copy := copied.copy;
        var last := Later(copied.at, |run|);
        if last == |run| {
          return StillWaiting;
        }
        after := run[last].Sequence();
        now := last;
        RunKeepsCoherent(run, first, last);
        if !Retry(before, after) {
          AcceptedIff(run[first].count, run[last].count);
          if run[last].count - run[first].count < TWO_32 {
            CopyIsRecord(run, first, last, copy);
          }
          return Returned(copy, first, last);
        }
      } else {
        // `continue` goes to the loop condition with the old `after`.
        assert Retry(before, after);
      }
    }
  }

  datatype Copied = None | Record(copy: seq<Cell>, at: nat)

  /** Any instant after `now`, or the end of the run. */
  method Later(now: nat, end: nat) returns (later: nat)
    requires now < end
    ensures now < later <= end
  {
    later := *;
    if later <= now || later > end {
      later := now + 1;
    }
  }

  /** The copy of the record, one field at a time. */
  method CopyRecord(run: seq<Publication>, first: nat) returns (r: Copied)
    requires WriterRun(run) && first < |run|
    ensures r.Record? ==> first <= r.at < |run| && CopyOf(run, first, r.at, r.copy)
  {
    hide WriterRun, Coherent, Next;
    var copy: seq<Cell>, now := [], first;
    var fields := |run[first].memory|;
    while |copy| < fields
      invariant first <= now < |run| && |copy| <= fields
      invariant forall k :: 0 <= k < |copy| ==> FieldSeen(run, first, now, k, copy[k])
    {
      var at := Later(now, |run|);
      if at == |run| {
        return None;
      }
      SameLength(run, first, at);
      assert FieldSeen(run, first, at, |copy|, run[at].memory[|copy|]);
      copy := copy + [run[at].memory[|copy|]];
      now := at;
    }
    return Record(copy, now);
  }

  /** Field k of the record held v at some instant of the interval. */
  ghost predicate FieldSeen(run: seq<Publication>, from: nat, to: nat, k: nat, v: Cell) {
    exists t: nat :: from <= t <= to && t < |run| && k < |run[t].memory| && run[t].memory[k] == v
  }

  ghost predicate CopyOf(run: seq<Publication>, from: nat, to: nat, copy: seq<Cell>)
    requires from < |run|
  {
    && |copy| == |run[from].memory|
    && forall k :: 0 <= k < |copy| ==> FieldSeen(run, from, to, k, copy[k])
  }

  lemma {:induction false} SameLength(run: seq<Publication>, i: nat, j: nat)
    requires WriterRun(run) && i <= j < |run|
    ensures |run[i].memory| == |run[j].memory|
    decreases j
  {
    hide Coherent;
    if i < j {
      SameLength(run, i, j - 1);
      assert Next(run[j - 1], run[j]);
    }
  }

  lemma CopyIsRecord(run: seq<Publication>, first: nat, last: nat, copy: seq<Cell>)
    requires WriterRun(run) && first <= last < |run| && CopyOf(run, first, last, copy)
    requires run[first].count == run[last].count && run[first].count % 2 == 0
    ensures |run[first].history| == run[first].count / 2 + 1
    ensures run[last].history == run[first].history
    ensures copy == run[first].history[run[first].count / 2]
  {
    hide WriterRun, FieldSeen;
    RunKeepsCoherent(run, first, last);
    SameCountSameMemory(run, first, first, last);
    forall k | 0 <= k < |copy| ensures copy[k] == run[first].memory[k] {
      assert FieldSeen(run, first, last, k, copy[k]);
      FieldIsStable(run, first, last, k, copy[k]);
    }
  }

  lemma FieldIsStable(run: seq<Publication>, first: nat, last: nat, k: nat, v: Cell)
    requires WriterRun(run) && first <= last < |run| && FieldSeen(run, first, last, k, v)
    requires run[first].count == run[last].count && run[first].count % 2 == 0
    ensures k < |run[first].memory| && v == run[first].memory[k]
  {
    hide WriterRun, Coherent;
    var t: nat :| first <= t <= last && t < |run| && k < |run[t].memory| && run[t].memory[k] == v;
    SameCountSameMemory(run, first, t, last);
  }
}
