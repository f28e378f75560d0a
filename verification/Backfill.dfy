/**
 The job that copies `metrics_legacy` into `metrics` in batches. Rows of both tables are keyed by id and
 timestamp, and nobody else writes those keys while the job runs.
 */
module Backfill {
  import opened Common

  datatype Key = Key(id: nat, at: int)

  datatype Metric = Metric(device: int, oid: string, value: string)

  type Table = map<Key, Metric>

  // ---------- the statements

  function Remaining(legacy: Table, metrics: Table): set<Key> {
    legacy.Keys - metrics.Keys
  }

  function Left(legacy: Table, metrics: Table): nat {
    |Remaining(legacy, metrics)|
  }

  /** `ORDER BY id LIMIT n`: as many rows as there are up to `n`, lowest ids first, ties in any order. */
  predicate IsBatch(remaining: set<Key>, n: nat, batch: set<Key>) {
    && batch <= remaining
    && |batch| == (if n < |remaining| then n else |remaining|)
    && forall b, r | b in batch && r in remaining - batch :: b.id <= r.id
  }

  function Inserted(legacy: Table, metrics: Table, batch: set<Key>): Table
    requires batch <= legacy.Keys
  {
    metrics + map k | k in batch :: legacy[k]
  }

  /** Where every complete backfill ends: rows already in `metrics` stay, all others come from the legacy table. */
  function Goal(legacy: Table, metrics: Table): Table {
    legacy + metrics
  }

  lemma SizeMinus(s: set<Key>, t: set<Key>)
    requires t <= s
    ensures |s - t| == |s| - |t|
  {
    assert s == (s - t) + t;
  }

  lemma InsertedKeys(legacy: Table, metrics: Table, batch: set<Key>)
    requires batch <= legacy.Keys
    ensures Inserted(legacy, metrics, batch).Keys == metrics.Keys + batch
    ensures Remaining(legacy, Inserted(legacy, metrics, batch)) == Remaining(legacy, metrics) - batch
  {
    assert (map k | k in batch :: legacy[k]).Keys == batch;
  }

  lemma GoalStays(legacy: Table, metrics: Table, batch: set<Key>)
    requires batch <= legacy.Keys && batch !! metrics.Keys
    ensures Goal(legacy, Inserted(legacy, metrics, batch)) == Goal(legacy, metrics)
  {
    InsertedKeys(legacy, metrics, batch);
    var a, b := Goal(legacy, Inserted(legacy, metrics, batch)), Goal(legacy, metrics);
    assert a.Keys == b.Keys;
    forall k | k in b.Keys ensures a[k] == b[k] {
    }
  }

  /** One batch moves exactly its keys out of what remains and leaves the goal where it was. */
  lemma BatchMoves(legacy: Table, metrics: Table, n: nat, batch: set<Key>)
    requires IsBatch(Remaining(legacy, metrics), n, batch)
    ensures var metrics' := Inserted(legacy, metrics, batch);
            && Remaining(legacy, metrics') == Remaining(legacy, metrics) - batch
            && |batch| == (if n < Left(legacy, metrics) then n else Left(legacy, metrics))
            && Left(legacy, metrics') == Left(legacy, metrics) - |batch|
            && Goal(legacy, metrics') == Goal(legacy, metrics)
  {
    InsertedKeys(legacy, metrics, batch);
    SizeMinus(Remaining(legacy, metrics), batch);
    GoalStays(legacy, metrics, batch);
    hide Goal, Inserted;
  }

  lemma NothingRemains(legacy: Table, metrics: Table)
    requires Left(legacy, metrics) == 0
    ensures legacy.Keys <= metrics.Keys && metrics == Goal(legacy, metrics)
  {
    assert Remaining(legacy, metrics) == {};
    assert forall k | k in legacy :: k !in Remaining(legacy, metrics);
    assert metrics.Keys == Goal(legacy, metrics).Keys;
  }

  // ---------- any number of runs, capped, interrupted or not

  /** The batches of all runs in order, each with its size limit and the keys it took. */
  datatype Batch = Batch(size: nat, keys: set<Key>)

  ghost predicate Legal(legacy: Table, metrics: Table, batches: seq<Batch>)
    decreases batches
  {
    batches == [] ||
    (&& batches[0].size > 0 && IsBatch(Remaining(legacy, metrics), batches[0].size, batches[0].keys)
     && Legal(legacy, Inserted(legacy, metrics, batches[0].keys), batches[1..]))
  }

  ghost function After(legacy: Table, metrics: Table, batches: seq<Batch>): Table
    requires Legal(legacy, metrics, batches)
    decreases batches
  {
    if batches == [] then metrics else After(legacy, Inserted(legacy, metrics, batches[0].keys), batches[1..])
  }

  function Copied(batches: seq<Batch>): nat {
    if batches == [] then 0 else |batches[0].keys| + Copied(batches[1..])
  }

  lemma {:induction false} BatchesMove(legacy: Table, metrics: Table, batches: seq<Batch>)
    requires Legal(legacy, metrics, batches)
    ensures var end := After(legacy, metrics, batches);
            && Goal(legacy, end) == Goal(legacy, metrics)
            && Copied(batches) + Left(legacy, end) == Left(legacy, metrics)
    decreases batches
  {
    if batches != [] {
      BatchMoves(legacy, metrics, batches[0].size, batches[0].keys);
      hide IsBatch, Inserted, Goal, Remaining;
      BatchesMove(legacy, Inserted(legacy, metrics, batches[0].keys), batches[1..]);
    }
  }

  /**
   However the work is cut into batches and runs: once nothing remains the metrics table is the same, and the
   copied rows add up to what remained at the start.
   */
  lemma EveryScheduleAgrees(legacy: Table, metrics: Table, a: seq<Batch>, b: seq<Batch>)
    requires Legal(legacy, metrics, a) && Legal(legacy, metrics, b)
    requires Left(legacy, After(legacy, metrics, a)) == 0 && Left(legacy, After(legacy, metrics, b)) == 0
    ensures After(legacy, metrics, a) == Goal(legacy, metrics) == After(legacy, metrics, b)
    ensures Copied(a) == Left(legacy, metrics) == Copied(b)
  {
    BatchesMove(legacy, metrics, a);
    BatchesMove(legacy, metrics, b);
    NothingRemains(legacy, After(legacy, metrics, a));
    NothingRemains(legacy, After(legacy, metrics, b));
  }

  // ---------- the job

  datatype Outcome =
    | InvalidBatchSize
    | InvalidMaxBatches
    | NoLegacyTable
    | BatchFailed(batches: nat, copied: nat)
    | CannotFinalize(remaining: nat)
    | Completed(batches: nat, copied: nat, remaining: nat)

  /** When the database fails, if it does. */
  datatype Outage = Never | AtBatch(batch: nat)

  predicate FailsAt(outage: Outage, batch: nat) {
    outage == AtBatch(batch)
  }

  /** What a run may copy: everything, or as much as its cap of batches allows. */
  predicate CopiedInFull(remaining: nat, size: nat, cap: nat, copied: nat) {
    copied == if cap > 0 && cap * size < remaining then cap * size else remaining
  }

  /** The loop gets as far as batch `b`: no cap stops it before, and every batch before it has rows to copy. */
  predicate Reaches(remaining: nat, size: nat, cap: nat, b: nat) {
    (cap == 0 || b < cap) && (b == 0 || (b - 1) * size < remaining)
  }

  /** The run fails: the outage is at a batch that the loop reaches. */
  predicate Fails(outage: Outage, remaining: nat, size: nat, cap: nat) {
    outage.AtBatch? && Reaches(remaining, size, cap, outage.batch)
  }

  /** The outage has not come in the first `batches` batches. */
  predicate Spared(outage: Outage, batches: nat) {
    outage.AtBatch? ==> batches <= outage.batch
  }

  /** So many batches, none of them empty, have copied so many rows: all are full but perhaps the last. */
  predicate Batches(remaining: nat, size: nat, batches: nat, copied: nat) {
    && copied == (if batches * size < remaining then batches * size else remaining)
    && (batches > 0 ==> (batches - 1) * size < remaining)
  }

  /** What a run leaves when it is not a dry one and does not fail. */
  function LeftAfter(before: nat, size: nat, cap: nat): int {
    if cap > 0 && cap * size < before then before - cap * size else 0
  }

  /**
   How a run with valid settings on an existing legacy table ends, `before` and `after` being the rows that remain:
   it fails exactly for an outage at a batch it reaches, and names that batch; it refuses to finalize exactly if it
   is asked to and rows remain; otherwise it completes.
   */
  predicate Answers(outcome: Outcome, before: nat, after: nat, size: nat, cap: nat, dryRun: bool, finalize: bool,
                    outage: Outage)
  {
    var fails := !dryRun && Fails(outage, before, size, cap);
    && (outcome.BatchFailed? <==> fails) && (outcome.BatchFailed? ==> outage == AtBatch(outcome.batches))
    && (outcome.CannotFinalize? <==> !fails && finalize && after > 0)
    && (outcome.Completed? <==> !fails && !(finalize && after > 0))
    && (!fails ==> after == if dryRun then before else LeftAfter(before, size, cap))
    && (outcome.CannotFinalize? ==> outcome.remaining == after)
    && (outcome.Completed? ==>
          && outcome.remaining == after
          && if dryRun then outcome.batches == 0 && outcome.copied == 0
             else Batches(before, size, outcome.batches, outcome.copied))
  }

  /** What one batch of at most `size` rows does to the metrics table. */
  predicate Moved(legacy: Table, metrics: Table, next: Table, size: nat, n: nat) {
    && Goal(legacy, next) == Goal(legacy, metrics)
    && n == (if size < Left(legacy, metrics) then size else Left(legacy, metrics))
    && Left(legacy, next) == Left(legacy, metrics) - n
  }

  /** A run between two batches: `start` is the metrics table it began with. */
  predicate Underway(legacy: Table, start: Table, metrics: Table, size: nat, cap: nat, batches: nat, copied: nat) {
    && Goal(legacy, metrics) == Goal(legacy, start)
    && copied + Left(legacy, metrics) == Left(legacy, start)
    && AfterBatches(Left(legacy, start), size, batches, copied)
    && (cap > 0 ==> batches <= cap)
    && (batches > 0 ==> (batches - 1) * size < Left(legacy, start))
  }

  lemma GoesOn(legacy: Table, start: Table, metrics: Table, next: Table, size: nat, cap: nat, batches: nat,
               copied: nat, n: nat)
    requires Underway(legacy, start, metrics, size, cap, batches, copied) && Moved(legacy, metrics, next, size, n)
    ensures !(cap > 0 && batches >= cap) && n > 0 ==>
              Underway(legacy, start, next, size, cap, batches + 1, copied + n)
    ensures size > 0 && n == 0 ==>
              Underway(legacy, start, next, size, cap, batches, copied) && copied == Left(legacy, start)
    ensures n > 0 ==> Left(legacy, next) < Left(legacy, metrics)
  {
    hide Left, Goal;
    assert n > 0 ==> batches * size < Left(legacy, start);
    MoreBatches(Left(legacy, start), size, batches, copied, n);
  }

  lemma Ends(legacy: Table, start: Table, metrics: Table, size: nat, cap: nat, batches: nat, copied: nat)
    requires Underway(legacy, start, metrics, size, cap, batches, copied)
    ensures copied == Left(legacy, start) || (cap > 0 && batches >= cap) ==>
              CopiedInFull(Left(legacy, start), size, cap, copied)
  {
    hide Left, Goal;
    FullOrCapped(Left(legacy, start), size, batches, copied, cap);
  }

  /** Stopping at an outage or after the last batch is what the outage says. */
  lemma Stops(legacy: Table, start: Table, metrics: Table, size: nat, cap: nat, batches: nat, copied: nat,
              outage: Outage)
    requires Underway(legacy, start, metrics, size, cap, batches, copied) && size > 0 && Spared(outage, batches)
    ensures outage == AtBatch(batches) && !(cap > 0 && batches >= cap) ==> Fails(outage, Left(legacy, start), size, cap)
    ensures cap > 0 && batches >= cap ==> !Fails(outage, Left(legacy, start), size, cap)
    ensures copied == Left(legacy, start) && outage != AtBatch(batches) ==>
              !Fails(outage, Left(legacy, start), size, cap)
  {
    var remaining := Left(legacy, start);
    hide Left, Goal;
    if outage.AtBatch? && outage.batch > batches && copied == remaining {
      assert batches * size <= (outage.batch - 1) * size;
    }
  }

  /** What `batches` batches have copied, of `remaining` rows. */
  predicate AfterBatches(remaining: nat, size: nat, batches: nat, copied: nat) {
    copied == if batches * size < remaining then batches * size else remaining
  }

  class Database {
    var legacy: Option<Table>
    var metrics: Table

    constructor (legacy: Option<Table>, metrics: Table)
      ensures this.legacy == legacy && this.metrics == metrics
    {
      this.legacy, this.metrics := legacy, metrics;
    }

    method RemainingRows() returns (remaining: nat)
      requires legacy.Some?
      ensures remaining == Left(legacy.value, metrics)
    {
      remaining := |legacy.value.Keys - metrics.Keys|;
    }

    method LowestFirst(rows: set<Key>, n: nat) returns (batch: set<Key>)
      ensures IsBatch(rows, n, batch)
    {
      batch := {};
      var rest := rows;
      while |batch| < n && rest != {}
        invariant batch + rest == rows && batch !! rest && |batch| <= n && |batch| + |rest| == |rows|
        invariant forall b, r | b in batch && r in rest :: b.id <= r.id
        decreases |rest|
      {
        LowestExists(rest);
        var k :| k in rest && forall r | r in rest :: k.id <= r.id;
        batch := batch + {k};
        rest := rest - {k};
      }
      assert rows - batch == rest;
    }

    method CopyBatch(batchSize: nat) returns (copied: nat, ghost batch: set<Key>)
      requires legacy.Some?
      modifies this`metrics
      ensures IsBatch(Remaining(legacy.value, old(metrics)), batchSize, batch)
      ensures metrics == Inserted(legacy.value, old(metrics), batch) && copied == |batch|
    {
      var chosen := LowestFirst(legacy.value.Keys - metrics.Keys, batchSize);
      batch := chosen;
      metrics := metrics + map k | k in chosen :: legacy.value[k];
      copied := |chosen|;
    }

    /** One batch seen from the loop. */
    method NextBatch(batchSize: nat) returns (n: nat)
      requires legacy.Some?
      modifies this`metrics
      ensures Moved(legacy.value, old(metrics), metrics, batchSize, n)
    {
      hide IsBatch, Remaining, Goal, Inserted, Left;
      ghost var batch;
      n, batch := CopyBatch(batchSize);
      BatchMoves(legacy.value, old(metrics), batchSize, batch);
    }

    /** A batch at which the database fails leaves nothing behind. */
    method CopyAll(batchSize: nat, maxBatches: nat, failAt: Outage)
      returns (batches: nat, copiedTotal: nat, failed: bool)
      requires legacy.Some? && batchSize > 0
      modifies this`metrics
      ensures Underway(legacy.value, old(metrics), metrics, batchSize, maxBatches, batches, copiedTotal)
      ensures !failed ==> CopiedInFull(Left(legacy.value, old(metrics)), batchSize, maxBatches, copiedTotal)
      ensures failed <==> Fails(failAt, Left(legacy.value, old(metrics)), batchSize, maxBatches)
      ensures failed ==> failAt == AtBatch(batches)
    {
      batches, copiedTotal, failed := 0, 0, false;
      assert Underway(legacy.value, metrics, metrics, batchSize, maxBatches, 0, 0) by {
        NoBatches(Left(legacy.value, metrics), batchSize);
      }
      while true
        invariant Underway(legacy.value, old(metrics), metrics, batchSize, maxBatches, batches, copiedTotal)
        invariant Spared(failAt, batches)
        decreases Left(legacy.value, metrics)
      {
        hide *;
        Ends(legacy.value, old(metrics), metrics, batchSize, maxBatches, batches, copiedTotal);
        Stops(legacy.value, old(metrics), metrics, batchSize, maxBatches, batches, copiedTotal, failAt);
        Passed(failAt, batches);
        if maxBatches > 0 && batches >= maxBatches {
          return;
        }
        if FailsAt(failAt, batches) {
          failed := true;
          return;
        }
        ghost var at := metrics;
        var n := NextBatch(batchSize);
        GoesOn(legacy.value, old(metrics), at, metrics, batchSize, maxBatches, batches, copiedTotal, n);
        if n == 0 {
          return;
        }
        batches, copiedTotal := batches + 1, copiedTotal + n;
      }
    }

    method Run(batchSize: int, maxBatches: int, dryRun: bool, finalize: bool, failAt: Outage)
      returns (outcome: Outcome)
      modifies this
      ensures batchSize <= 0 <==> outcome == InvalidBatchSize
      ensures batchSize > 0 && maxBatches < 0 <==> outcome == InvalidMaxBatches
      ensures batchSize > 0 && maxBatches >= 0 && old(legacy).None? <==> outcome == NoLegacyTable
      ensures outcome.InvalidBatchSize? || outcome.InvalidMaxBatches? || outcome.NoLegacyTable? || dryRun ==>
                metrics == old(metrics)
      ensures old(legacy).Some? ==> Goal(old(legacy).value, metrics) == Goal(old(legacy).value, old(metrics))
      ensures outcome.BatchFailed? ==>
                outcome.copied + Left(old(legacy).value, metrics) == Left(old(legacy).value, old(metrics))
      ensures batchSize > 0 && maxBatches >= 0 && old(legacy).Some? ==>
                Answers(outcome, Left(old(legacy).value, old(metrics)), Left(old(legacy).value, metrics), batchSize,
                        maxBatches, dryRun, finalize, failAt)
      ensures outcome.CannotFinalize? ==> finalize && outcome.remaining == Left(old(legacy).value, metrics) > 0
      ensures outcome.Completed? ==>
                && outcome.remaining == Left(old(legacy).value, metrics)
                && outcome.copied + outcome.remaining == Left(old(legacy).value, old(metrics))
                && (if dryRun then outcome.copied == 0
                    else CopiedInFull(Left(old(legacy).value, old(metrics)), batchSize, maxBatches, outcome.copied))
      ensures outcome.Completed? && !dryRun && maxBatches == 0 ==> outcome.remaining == 0
      ensures if outcome.Completed? && finalize then legacy == None else legacy == old(legacy)
      ensures outcome.Completed? && finalize ==>
                old(legacy).value.Keys <= metrics.Keys && metrics == Goal(old(legacy).value, metrics)
    {
      hide Goal, Remaining, Fails, Answers;
      if batchSize <= 0 {
        return InvalidBatchSize;
      }
      if maxBatches < 0 {
        return InvalidMaxBatches;
      }
      if legacy.None? {
        return NoLegacyTable;
      }
      var batches, copiedTotal, failed := 0, 0, false;
      if !dryRun {
        batches, copiedTotal, failed := CopyAll(batchSize, maxBatches, failAt);
        CopiedAnswers(legacy.value, old(metrics), metrics, batchSize, maxBatches, batches, copiedTotal, failed,
                      finalize, failAt);
        if failed {
          return BatchFailed(batches, copiedTotal);
        }
      }
      var remaining := RemainingRows();
      if dryRun {
        DryAnswers(remaining, batchSize, maxBatches, finalize, failAt);
      }
      if finalize {
        if remaining > 0 {
          return CannotFinalize(remaining);
        }
        NothingRemains(legacy.value, metrics);
        legacy := None;
      }
      return Completed(batches, copiedTotal, remaining);
    }
  }

  /** From the loop to the answer of the run. */
  lemma CopiedAnswers(legacy: Table, start: Table, metrics: Table, size: nat, cap: nat, batches: nat, copied: nat,
                      failed: bool, finalize: bool, outage: Outage)
    requires Underway(legacy, start, metrics, size, cap, batches, copied)
    requires failed <==> Fails(outage, Left(legacy, start), size, cap)
    requires failed ==> outage == AtBatch(batches)
    requires !failed ==> CopiedInFull(Left(legacy, start), size, cap, copied)
    ensures var before, after := Left(legacy, start), Left(legacy, metrics);
            var outcome := if failed then BatchFailed(batches, copied)
                           else if finalize && after > 0 then CannotFinalize(after)
                           else Completed(batches, copied, after);
            Answers(outcome, before, after, size, cap, false, finalize, outage)
  {
    hide Left, Goal, Fails;
  }

  lemma DryAnswers(before: nat, size: nat, cap: nat, finalize: bool, outage: Outage)
    ensures Answers(if finalize && before > 0 then CannotFinalize(before) else Completed(0, 0, before), before, before,
                    size, cap, true, finalize, outage)
  {
    hide Fails;
  }

  lemma Passed(outage: Outage, batches: nat)
    ensures FailsAt(outage, batches) <==> outage == AtBatch(batches)
    ensures Spared(outage, batches) && outage != AtBatch(batches) ==> Spared(outage, batches + 1)
  {
  }

  lemma NoBatches(remaining: nat, size: nat)
    ensures AfterBatches(remaining, size, 0, 0)
  {
  }

  lemma MoreBatches(remaining: nat, size: nat, batches: nat, copied: nat, n: nat)
    requires AfterBatches(remaining, size, batches, copied) && copied <= remaining
    requires n == if size < remaining - copied then size else remaining - copied
    ensures AfterBatches(remaining, size, batches + 1, copied + n)
  {
    assert (batches + 1) * size == batches * size + size;
  }

  lemma FullOrCapped(remaining: nat, size: nat, batches: nat, copied: nat, cap: nat)
    requires AfterBatches(remaining, size, batches, copied) && (cap > 0 ==> batches <= cap)
    ensures copied == remaining || (cap > 0 && batches == cap) ==> CopiedInFull(remaining, size, cap, copied)
  {
    if cap > 0 {
      assert batches * size <= cap * size;
    }
  }

  lemma {:induction false} LowestExists(s: set<Key>)
    requires s != {}
    ensures exists k :: k in s && forall r | r in s :: k.id <= r.id
    decreases |s|
  {
    var x :| x in s;
    if s != {x} {
      var rest := s - {x};
      assert s == rest + {x};
      LowestExists(rest);
      var y :| y in rest && forall r | r in rest :: y.id <= r.id;
      var k := if x.id <= y.id then x else y;
      assert k in s && forall r | r in s :: k.id <= r.id;
    }
  }
}
