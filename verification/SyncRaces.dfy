/**
 * Pushes of one phone that overlap: each reads the phone when it begins, and writes
 * its last position much later (apps/api/src/sync/sync.service.ts).
 */
module SyncRaces {
  import opened Wrappers
  import opened Overlap
  import S = Sync

  /**
   * The latest position of a push. Pushes are listed in the order they write:
   * `behind` of them write between its reading and its own writing.
   */
  datatype Report = Report(latest: S.Fix, behind: nat)

  predicate Later(latest: S.Fix, seen: Option<S.Fix>) {
    seen.Some? ==> seen.value.at < latest.at
  }

  /** The last position of the phone after the first `n` writings. */
  function LastAfter(start: Option<S.Fix>, run: seq<Report>, n: nat): Option<S.Fix>
    requires n <= |run|
    decreases n, 0
  {
    if n == 0 then start
    else if Writes(start, run, n - 1) then Some(run[n - 1].latest)
    else LastAfter(start, run, n - 1)
  }

  /** Push `i` found its latest position later than the last one, when it read the phone. */
  predicate Writes(start: Option<S.Fix>, run: seq<Report>, i: nat)
    requires i < |run|
    decreases i, 1
  {
    Later(run[i].latest, LastAfter(start, run, SeenBy(i, run[i].behind)))
  }

  function LastOf(st: S.State, deviceId: nat): Option<S.Fix> {
    if deviceId in st.last then Some(st.last[deviceId]) else None
  }

  /** Without overlap, the write is that of the push. */
  lemma AloneIsPositioned(st: S.State, phone: S.Phone, events: seq<S.Event>)
    requires S.Located(events) != []
    ensures var latest := S.Latest(S.Located(events));
      LastOf(S.Positioned(st, phone, events), phone.id)
      == LastAfter(LastOf(st, phone.id), [Report(S.Fix(latest.at, latest.position.value), 0)], 1)
  {
    hide S.Located, S.Latest, S.AddLocations, S.A.Raised, S.F.ActiveOf;
  }

  /** Push `j` is the last to have written between the writings `m` and `n`. */
  ghost predicate LastWriter(start: Option<S.Fix>, run: seq<Report>, m: nat, n: nat, j: nat)
    requires n <= |run|
  {
    m <= j < n && Writes(start, run, j) && forall k :: j < k < n ==> !Writes(start, run, k)
  }

  lemma {:induction false} WrittenSince(start: Option<S.Fix>, run: seq<Report>, m: nat, n: nat)
    requires m <= n <= |run|
    ensures || (LastAfter(start, run, n) == LastAfter(start, run, m) && forall k :: m <= k < n ==> !Writes(start, run, k))
            || exists j: nat :: LastWriter(start, run, m, n, j) && LastAfter(start, run, n) == Some(run[j].latest)
    decreases n
  {
    hide Writes;
    if m < n {
      WrittenSince(start, run, m, n - 1);
      if Writes(start, run, n - 1) {
        assert LastWriter(start, run, m, n, n - 1);
      } else if LastAfter(start, run, n) != LastAfter(start, run, m) {
        var j: nat :| LastWriter(start, run, m, n - 1, j) && LastAfter(start, run, n - 1) == Some(run[j].latest);
        assert LastWriter(start, run, m, n, j);
      }
    }
  }

  /** The writing of push `i` puts an earlier date in place of a later one. */
  predicate MovesBack(start: Option<S.Fix>, run: seq<Report>, i: nat)
    requires i < |run|
  {
    var before, after := LastAfter(start, run, i), LastAfter(start, run, i + 1);
    before.Some? && (after.None? || after.value.at < before.value.at)
  }

  /**
   * A push moves the last position back exactly when its own is later than the one it
   * read, and the last push to write in between wrote a later one still.
   */
  lemma MovesBackExactly(start: Option<S.Fix>, run: seq<Report>, i: nat)
    requires i < |run|
    ensures MovesBack(start, run, i) <==>
      Writes(start, run, i)
      && exists j: nat :: LastWriter(start, run, SeenBy(i, run[i].behind), i, j) && run[i].latest.at < run[j].latest.at
  {
    var m := SeenBy(i, run[i].behind);
    assert LastAfter(start, run, i + 1)
        == if Writes(start, run, i) then Some(run[i].latest) else LastAfter(start, run, i);
    WrittenSince(start, run, m, i);
    forall j: nat | LastWriter(start, run, m, i, j) ensures LastAfter(start, run, i) == Some(run[j].latest) {
      OneLastWriter(start, run, m, i, j);
    }
  }

  lemma OneLastWriter(start: Option<S.Fix>, run: seq<Report>, m: nat, n: nat, j: nat)
    requires n <= |run| && m <= n && LastWriter(start, run, m, n, j)
    ensures LastAfter(start, run, n) == Some(run[j].latest)
  {
    var next := j + 1;
    assert LastAfter(start, run, next) == Some(run[j].latest);
    hide Writes, LastAfter;
    WrittenSince(start, run, next, n);
    assert forall k: nat :: !LastWriter(start, run, next, n, k);
  }

  /** A position of noon is stored while a push that read the phone before brings one of the morning. */
  lemma MorningReplacesNoon(noon: S.Fix, morning: S.Fix)
    requires morning.at < noon.at
    ensures var run := [Report(noon, 0), Report(morning, 1)];
      MovesBack(None, run, 1) && LastAfter(None, run, 2) == Some(morning)
  {
    var run := [Report(noon, 0), Report(morning, 1)];
    assert Writes(None, run, 0) && LastAfter(None, run, 1) == Some(noon);
    assert Writes(None, run, 1);
  }
}
