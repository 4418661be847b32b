/**
 * The nightly purge of positions (apps/api/src/worker/maintenance.job.ts). The
 * table is partitioned by month; a position of a month without a partition is
 * in the default one. The calendar is the strictly increasing sequence of the
 * instants at which months begin.
 */
module Retention {
  const DAY := 86_400_000
  const LOT := 10_000

  datatype Row = Row(id: nat, companyId: nat, at: int)

  datatype Policy = Policy(companyId: nat, days: int)

  /** `companyId` is the key of the policies. */
  ghost predicate OnePerCompany(policies: seq<Policy>) {
    forall i, j :: 0 <= i < j < |policies| ==> policies[i].companyId != policies[j].companyId
  }

  function Cutoff(days: int, now: int): int {
    now - days * DAY
  }

  /** `Math.max` over the policies. */
  function MaxDays(policies: seq<Policy>): (r: int)
    requires policies != []
    ensures exists p :: p in policies && p.days == r
    ensures forall p :: p in policies ==> p.days <= r
  {
    var last := policies[|policies| - 1];
    if |policies| == 1 then last.days
    else
      var before := MaxDays(policies[..|policies| - 1]);
      assert forall p :: p in policies <==> p in policies[..|policies| - 1] || p == last;
      if before > last.days then before else last.days
  }

  // ------------------------------------------------------------------------
  //  Partitions
  // ------------------------------------------------------------------------

  ghost predicate Calendar(start: int -> int) {
    forall a: int, b: int :: a < b ==> start(a) < start(b)
  }

  predicate InMonth(start: int -> int, at: int, month: int) {
    start(month) <= at < start(month + 1)
  }

  /** A partition may be dropped when its month ends no later than the cutoff. */
  predicate Droppable(start: int -> int, month: int, cutoff: int) {
    start(month + 1) <= cutoff
  }

  /** The position is in one of the partitions, and that one is dropped. */
  predicate Dropped(start: int -> int, partitions: seq<int>, cutoff: int, at: int) {
    exists month :: month in partitions && Droppable(start, month, cutoff) && InMonth(start, at, month)
  }

  /** The company's own policy is stricter than the maximum, and the position is older. */
  predicate Overdue(policies: seq<Policy>, maxDays: int, now: int, r: Row) {
    exists p :: p in policies && p.days < maxDays && Concerns(p, now, r)
  }

  predicate Concerns(p: Policy, now: int, r: Row) {
    r.companyId == p.companyId && r.at < Cutoff(p.days, now)
  }

  function Matching(rows: set<Row>, p: Policy, now: int): set<Row> {
    set r | r in rows && Concerns(p, now, r)
  }

  // ------------------------------------------------------------------------
  //  The job
  // ------------------------------------------------------------------------

  class MaintenanceJob {
    const start: int -> int
    var rows: set<Row>
    var partitions: seq<int>

    constructor (start: int -> int, rows: set<Row>, partitions: seq<int>)
      ensures this.start == start && this.rows == rows && this.partitions == partitions
    {
      this.start, this.rows, this.partitions := start, rows, partitions;
    }

    /** The partitions are visited once, in the order of their names. */
    method DropOldPartitions(days: int, now: int)
      modifies this
      ensures forall r :: r in rows <==> r in old(rows) && !Dropped(start, old(partitions), Cutoff(days, now), r.at)
      ensures forall month :: month in partitions <==>
        month in old(partitions) && !Droppable(start, month, Cutoff(days, now))
    {
      var cutoff := Cutoff(days, now);
      var visited := partitions;
      var kept: seq<int> := [];
      for i := 0 to |visited|
        modifies `rows
        invariant forall r :: r in rows <==> r in old(rows) && !Dropped(start, visited[..i], cutoff, r.at)
        invariant forall month :: month in kept <==> month in visited[..i] && !Droppable(start, month, cutoff)
      {
        var month := visited[i];
        assert forall m :: m in visited[..i + 1] <==> m in visited[..i] || m == month;
        if start(month + 1) > cutoff {
          kept := kept + [month];
        } else {
          rows := set r | r in rows && !InMonth(start, r.at, month);
        }
        forall r ensures r in rows <==> r in old(rows) && !Dropped(start, visited[..i + 1], cutoff, r.at) {
          OneMoreMonth(start, visited, i, cutoff, r.at);
        }
      }
      assert visited[..|visited|] == visited;
      partitions := kept;
    }

    /** The DELETE limited to one lot: which rows go is up to the database. */
    method DeleteLot(p: Policy, now: int) returns (lot: nat)
      modifies `rows
      ensures rows <= old(rows) && old(rows) - rows <= Matching(old(rows), p, now)
      ensures lot == |old(rows) - rows| == |Matching(old(rows), p, now)| - |Matching(rows, p, now)|
      ensures lot == if |Matching(old(rows), p, now)| < LOT then |Matching(old(rows), p, now)| else LOT
    {
      var matching := Matching(rows, p, now);
      lot := if |matching| < LOT then |matching| else LOT;
      var chosen := Take(matching, lot);
      rows := rows - chosen;
      assert Matching(rows, p, now) == matching - chosen;
      assert old(rows) - rows == chosen;
    }

    /** The loop for one company; `statements` counts the DELETEs. */
    method PurgeCompany(p: Policy, now: int) returns (deleted: nat, statements: nat)
      modifies `rows
      ensures rows == old(rows) - Matching(old(rows), p, now)
      ensures deleted == |Matching(old(rows), p, now)|
      ensures statements == |Matching(old(rows), p, now)| / 10_000 + 1
    {
      ghost var matching := Matching(rows, p, now);
      deleted, statements := 0, 0;
      while true
        invariant rows <= old(rows) && old(rows) - rows <= matching
        invariant deleted == statements * LOT && deleted + |Matching(rows, p, now)| == |matching|
        decreases |Matching(rows, p, now)|
      {
        ghost var before := rows;
        var lot := DeleteLot(p, now);
        forall r | r in old(rows) - rows ensures r in matching {
          assert r in before ==> r in before - rows;
        }
        deleted := deleted + lot;
        statements := statements + 1;
        if lot < LOT {
          break;
        }
      }
      assert Matching(rows, p, now) == {};
      forall r | r in rows ensures r !in matching {
        assert r !in Matching(rows, p, now);
      }
    }

    /** `purgeLocationsDesEntreprisesPlusStrictes`. */
    method PurgeStricter(policies: seq<Policy>, maxDays: int, now: int) returns (total: nat)
      modifies `rows
      ensures forall r :: r in rows <==> r in old(rows) && !Overdue(policies, maxDays, now, r)
      ensures total == |old(rows)| - |rows|
    {
      total := 0;
      for i := 0 to |policies|
        invariant forall r :: r in rows <==> r in old(rows) && !Overdue(policies[..i], maxDays, now, r)
        invariant total == |old(rows)| - |rows|
      {
        var p := policies[i];
        ghost var before := rows;
        assert forall q :: q in policies[..i + 1] <==> q in policies[..i] || q == p;
        if p.days < maxDays {
          var deleted, _ := PurgeCompany(p, now);
          Sizes(before, Matching(before, p, now));
          total := total + deleted;
        }
        forall r ensures r in rows <==> r in old(rows) && !Overdue(policies[..i + 1], maxDays, now, r) {
          OneMorePolicy(policies, i, maxDays, now, r);
        }
      }
      assert policies[..|policies|] == policies;
    }

    /** `applyRetention`, for the positions. */
    method ApplyRetention(policies: seq<Policy>, now: int)
      modifies this
      ensures policies == [] ==> rows == old(rows) && partitions == old(partitions)
      ensures policies != [] ==>
        forall r :: r in rows <==> r in old(rows) && Kept(start, old(partitions), policies, now, r)
    {
      if |policies| == 0 {
        return;
      }
      var maxDays := MaxDays(policies);
      DropOldPartitions(maxDays, now);
      var _ := PurgeStricter(policies, maxDays, now);
    }
  }

  lemma OneMoreMonth(start: int -> int, partitions: seq<int>, i: nat, cutoff: int, at: int)
    requires i < |partitions|
    ensures Dropped(start, partitions[..i + 1], cutoff, at) <==>
      || Dropped(start, partitions[..i], cutoff, at)
      || (Droppable(start, partitions[i], cutoff) && InMonth(start, at, partitions[i]))
  {
  }

  lemma OneMorePolicy(policies: seq<Policy>, i: nat, maxDays: int, now: int, r: Row)
    requires i < |policies|
    ensures Overdue(policies[..i + 1], maxDays, now, r) <==>
      Overdue(policies[..i], maxDays, now, r) || (policies[i].days < maxDays && Concerns(policies[i], now, r))
  {
  }

  lemma Sizes(all: set<Row>, part: set<Row>)
    requires part <= all
    ensures |all - part| == |all| - |part|
  {
  }

  /** Some `n` of the rows. */
  method Take(pool: set<Row>, n: nat) returns (chosen: set<Row>)
    requires n <= |pool|
    ensures chosen <= pool && |chosen| == n
  {
    chosen := {};
    var rest := pool;
    for i := 0 to n
      invariant chosen <= pool && rest == pool - chosen && |chosen| == i && |rest| == |pool| - i
    {
      var r :| r in rest;
      chosen := chosen + {r};
      rest := rest - {r};
    }
  }

  // ------------------------------------------------------------------------
  //  What remains
  // ------------------------------------------------------------------------

  /** The position survives the job. */
  predicate Kept(start: int -> int, partitions: seq<int>, policies: seq<Policy>, now: int, r: Row)
    requires policies != []
  {
    !Dropped(start, partitions, Cutoff(MaxDays(policies), now), r.at) && !Overdue(policies, MaxDays(policies), now, r)
  }

  /**
   * Which positions of a company with a policy remain: all those no older than its
   * own retention; of the older ones none if the company is stricter than the
   * longest retention; otherwise those in the month the cutoff falls in, or in no
   * month's partition.
   */
  lemma KeptExactly(
    start: int -> int, partitions: seq<int>, policies: seq<Policy>, now: int, p: Policy, r: Row, month: int)
    requires Calendar(start) && OnePerCompany(policies) && p in policies && r.companyId == p.companyId
    requires start(month) <= r.at < start(month + 1)
    ensures var cutoff := now - p.days * 86_400_000;
      Kept(start, partitions, policies, now, r) <==>
        || r.at >= cutoff
        || ((forall other :: other in policies ==> other.days <= p.days)
            && (month !in partitions || start(month) <= cutoff < start(month + 1)))
  {
  }

  /**
   * A company without a policy keeps nothing for long either: its positions go
   * with the partitions, at the longest retention of the others.
   */
  lemma WithoutAPolicy(
    start: int -> int, partitions: seq<int>, policies: seq<Policy>, now: int, r: Row, month: int, longest: int)
    requires Calendar(start) && start(month) <= r.at < start(month + 1)
    requires forall p :: p in policies ==> p.companyId != r.companyId && p.days <= longest
    requires exists p :: p in policies && p.days == longest
    ensures Kept(start, partitions, policies, now, r) <==>
      month !in partitions || now - longest * 86_400_000 < start(month + 1)
  {
  }
}
