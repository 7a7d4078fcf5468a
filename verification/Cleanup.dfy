/** The chain of cleanup jobs: each deletes up to 1000 expired requests and, if it deleted that
    many, queues the next. */
module Cleanup {
  const BATCH := 1000

  /** What one job may delete: expired rows, as many as there are but no more than a batch. The
      database chooses which. */
  predicate Batch(rows: set<nat>, expired: set<nat>, batch: set<nat>) {
    && batch <= rows * expired
    && |batch| == (if |rows * expired| < BATCH then |rows * expired| else BATCH)
  }

  /** The batches of a chain from its first job to the one that queues no other. */
  predicate Chain(rows: set<nat>, expired: set<nat>, batches: seq<set<nat>>) {
    && |batches| > 0
    && Batch(rows, expired, batches[0])
    && if |batches[0]| >= BATCH then Chain(rows - batches[0], expired, batches[1..]) else |batches| == 1
  }

  function Remaining(rows: set<nat>, batches: seq<set<nat>>): set<nat>
    decreases |batches|
  {
    if |batches| == 0 then rows else Remaining(rows - batches[0], batches[1..])
  }

  lemma BatchTakes(rows: set<nat>, expired: set<nat>, batch: set<nat>)
    requires Batch(rows, expired, batch)
    ensures (rows - batch) - expired == rows - expired
    ensures |(rows - batch) * expired| == |rows * expired| - |batch|
    ensures |batch| < BATCH ==> rows - batch == rows - expired
  {
    assert (rows - batch) * expired == rows * expired - batch;
    if |batch| < BATCH {
      SameSize(batch, rows * expired);
    }
  }

  lemma SameSize(a: set<nat>, b: set<nat>)
    requires a <= b && |a| == |b|
    ensures a == b
  {
    assert |b - a| == 0;
  }

  /** With n expired rows the chain ends after exactly n / 1000 + 1 jobs and leaves exactly the rows
      that are not expired, whichever rows each job picks. */
  lemma {:induction false} ChainLength(rows: set<nat>, expired: set<nat>, batches: seq<set<nat>>)
    requires Chain(rows, expired, batches)
    ensures |batches| == |rows * expired| / 1000 + 1
    ensures Remaining(rows, batches) == rows - expired
    decreases |batches|
  {
    BatchTakes(rows, expired, batches[0]);
    if |batches[0]| >= BATCH {
      ChainLength(rows - batches[0], expired, batches[1..]);
    } else {
      assert batches[1..] == [];
    }
  }

  /** The requests and the cleanup queue. Expiry is judged at one instant. */
  class RequestCleanup {
    const expired: set<nat>
    var rows: set<nat>
    var jobs: nat

    constructor (rows: set<nat>, expired: set<nat>)
      ensures this.rows == rows && this.expired == expired && jobs == 0
    {
      this.rows, this.expired, jobs := rows, expired, 0;
    }

    /** DELETE ... LIMIT 1000, which takes rows in any order. */
    method DeleteExpired(limit: nat) returns (deleted: set<nat>)
      modifies `rows
      ensures rows == old(rows) - deleted && deleted <= old(rows) * expired
      ensures |deleted| == if |old(rows) * expired| < limit then |old(rows) * expired| else limit
    {
      var left := rows * expired;
      ghost var all := left;
      deleted := {};
      while |deleted| < limit && left != {}
        invariant left !! deleted && left + deleted == all
        invariant |deleted| + |left| == |all| && |deleted| <= limit
        decreases |left|
      {
        var id :| id in left;
        left := left - {id};
        deleted := deleted + {id};
      }
      rows := rows - deleted;
    }

    method Execute() returns (deleted: set<nat>)
      modifies this
      ensures Batch(old(rows), expired, deleted) && rows == old(rows) - deleted
      ensures jobs == old(jobs) + if |deleted| >= BATCH then 1 else 0
    {
      deleted := DeleteExpired(BATCH);
      if |deleted| >= BATCH {
        jobs := jobs + 1;
      }
    }

    /** The queue processor, from one enqueued job until the queue is empty. */
    method Drain() returns (runs: nat)
      requires jobs == 1
      modifies this
      ensures jobs == 0 && rows == old(rows) - expired
      ensures runs == |old(rows) * expired| / 1000 + 1
    {
      runs := 0;
      while jobs > 0
        invariant jobs <= 1
        invariant rows - expired == old(rows) - expired
        invariant jobs == 1 ==> |rows * expired| == |old(rows) * expired| - BATCH * runs
        invariant jobs == 0 ==> rows == old(rows) - expired && runs == |old(rows) * expired| / BATCH + 1
        decreases jobs, |rows * expired|
      {
        jobs := jobs - 1;
        ghost var before := rows;
        var deleted := Execute();
        BatchTakes(before, expired, deleted);
        runs := runs + 1;
      }
    }
  }
}
