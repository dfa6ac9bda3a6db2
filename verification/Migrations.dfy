/** Schema migrations, with any number of connections racing to apply the same list. */
module Migrations {
  import opened Common

  predicate Ascending(vs: seq<int>)
  {
    forall i, j | 0 <= i < j < |vs| :: vs[i] < vs[j]
  }

  /** What `std::sort` makes of a list of distinct versions. */
  ghost predicate SortedCopy(list: seq<int>, sorted: seq<int>)
  {
    Ascending(sorted) && multiset(sorted) == multiset(list)
  }

  /** `COALESCE(MAX(version), 0)`, and 0 without a table. */
  function CurrentVersion(applied: seq<int>): int
  {
    if applied == [] then 0 else Max(applied[|applied| - 1], CurrentVersion(applied[..|applied| - 1]))
  }

  lemma {:induction false} CurrentIsMax(applied: seq<int>)
    ensures CurrentVersion(applied) >= 0
    ensures forall i | 0 <= i < |applied| :: applied[i] <= CurrentVersion(applied)
    ensures CurrentVersion(applied) == 0 || CurrentVersion(applied) in applied
    decreases |applied|
  {
    if applied != [] {
      CurrentIsMax(applied[..|applied| - 1]);
      assert forall i | 0 <= i < |applied| - 1 :: applied[i] == applied[..|applied| - 1][i];
    }
  }

  /** A connection in `applyMigrations`: about to start the transaction for index `next`, returned, or
      left by an exception. */
  datatype Connection = Running(next: nat) | Returned | Threw

  /** The shared table, as the log of recorded versions, and the connections. */
  datatype System = System(applied: seq<int>, connections: seq<Connection>)

  /** A connection finishes the loop, runs one transaction, or has its transaction rolled back by a failure. */
  datatype Step = Transact(c: nat) | Fail(c: nat) | Leave(c: nat)

  predicate Enabled(sorted: seq<int>, s: System, step: Step)
  {
    step.c < |s.connections| && s.connections[step.c].Running? &&
    match step
    case Leave(c) => s.connections[c].next == |sorted|
    case _ => s.connections[step.c].next < |sorted|
  }

  /** BEGIN IMMEDIATE to COMMIT is one atomic step: the re-check, then either nothing or the migration
      and its record. */
  function Do(sorted: seq<int>, s: System, step: Step): System
    requires Enabled(sorted, s, step)
  {
    match step
    case Transact(c) =>
      var i := s.connections[c].next;
      var t := s.(connections := s.connections[c := Running(i + 1)]);
      if sorted[i] <= CurrentVersion(s.applied) then t else t.(applied := s.applied + [sorted[i]])
    case Fail(c) => s.(connections := s.connections[c := Threw])
    case Leave(c) => s.(connections := s.connections[c := Returned])
  }

  predicate CanRun(sorted: seq<int>, s: System, steps: seq<Step>)
    decreases |steps|
  {
    steps == [] || (Enabled(sorted, s, steps[0]) && CanRun(sorted, Do(sorted, s, steps[0]), steps[1..]))
  }

  function RunOf(sorted: seq<int>, s: System, steps: seq<Step>): System
    requires CanRun(sorted, s, steps)
    decreases |steps|
  {
    if steps == [] then s else RunOf(sorted, Do(sorted, s, steps[0]), steps[1..])
  }

  /** How many leading versions are not above `version`. */
  function Below(sorted: seq<int>, version: int): (k: nat)
    ensures k <= |sorted|
    ensures forall i | 0 <= i < k :: sorted[i] <= version
    ensures k < |sorted| ==> sorted[k] > version
  {
    if sorted == [] || sorted[0] > version then 0 else 1 + Below(sorted[1..], version)
  }

  /** The log with `k` migrations behind: those not above the version at the start, then those applied in order. */
  predicate LogAt(sorted: seq<int>, start: seq<int>, applied: seq<int>, k: nat)
  {
    var k0 := Below(sorted, CurrentVersion(start));
    && k0 <= k <= |sorted|
    && applied == start + sorted[k0..k]
    && (forall i | 0 <= i < k :: sorted[i] <= CurrentVersion(applied))
    && (k < |sorted| ==> CurrentVersion(applied) < sorted[k])
  }

  lemma LogStart(sorted: seq<int>, start: seq<int>)
    ensures LogAt(sorted, start, start, Below(sorted, CurrentVersion(start)))
  {
    var k0 := Below(sorted, CurrentVersion(start));
    assert start + sorted[k0..k0] == start;
  }

  lemma Recorded(applied: seq<int>, v: int)
    requires v > CurrentVersion(applied)
    ensures CurrentVersion(applied + [v]) == v
  {
    assert (applied + [v])[..|applied|] == applied;
  }

  /** Applying the next migration. */
  lemma LogStep(sorted: seq<int>, start: seq<int>, applied: seq<int>, k: nat)
    requires Ascending(sorted) && LogAt(sorted, start, applied, k) && k < |sorted|
    ensures LogAt(sorted, start, applied + [sorted[k]], k + 1)
  {
    hide CurrentVersion, Below;
    var k0 := Below(sorted, CurrentVersion(start));
    Recorded(applied, sorted[k]);
    assert start + sorted[k0..k] + [sorted[k]] == start + sorted[k0..k + 1];
  }

  /** Where connections stand when `k` migrations are behind. */
  predicate Standing(sorted: seq<int>, c: Connection, k: nat)
  {
    match c case Running(next) => next <= k case Returned => k == |sorted| case Threw => true
  }

  predicate Progress(sorted: seq<int>, start: seq<int>, s: System, k: nat)
  {
    LogAt(sorted, start, s.applied, k) && forall c | 0 <= c < |s.connections| :: Standing(sorted, s.connections[c], k)
  }

  lemma StepProgress(sorted: seq<int>, start: seq<int>, s: System, k: nat, step: Step) returns (l: nat)
    requires Ascending(sorted) && Progress(sorted, start, s, k) && Enabled(sorted, s, step)
    ensures k <= l && Progress(sorted, start, Do(sorted, s, step), l)
  {
    LogBounds(sorted, start, s.applied, k);
    hide LogAt, CurrentVersion, Ascending;
    var c := s.connections[step.c];
    assert Standing(sorted, c, k);
    l := k;
    if step.Transact? && sorted[c.next] > CurrentVersion(s.applied) {
      assert c.next == k;
      LogStep(sorted, start, s.applied, k);
      l := k + 1;
    }
    var t := Do(sorted, s, step);
    forall d | 0 <= d < |t.connections| ensures Standing(sorted, t.connections[d], l) {
      assert Standing(sorted, s.connections[d], k);
    }
  }

  /** The re-check tells exactly whether a migration is behind. */
  lemma LogBounds(sorted: seq<int>, start: seq<int>, applied: seq<int>, k: nat)
    requires Ascending(sorted) && LogAt(sorted, start, applied, k)
    ensures k <= |sorted|
    ensures forall i | 0 <= i < |sorted| :: sorted[i] <= CurrentVersion(applied) <==> i < k
  {
    hide CurrentVersion, Below;
  }

  lemma {:induction false} RunProgress(sorted: seq<int>, start: seq<int>, s: System, k: nat, steps: seq<Step>)
    returns (l: nat)
    requires Ascending(sorted) && Progress(sorted, start, s, k) && CanRun(sorted, s, steps)
    ensures k <= l && Progress(sorted, start, RunOf(sorted, s, steps), l)
    decreases |steps|
  {
    if steps == [] {
      l := k;
    } else {
      hide Progress, Do;
      var m := StepProgress(sorted, start, s, k, steps[0]);
      l := RunProgress(sorted, start, Do(sorted, s, steps[0]), m, steps[1..]);
    }
  }

  function StartWith(applied: seq<int>, n: nat): System
  {
    System(applied, seq(n, _ => Running(0)))
  }

  /** Racing migrations on any database: on every interleaving and with any transactions failing, the
      log grows by an ascending prefix of the migrations above its version, each recorded once; and
      once a connection has returned normally all of those are recorded. */
  lemma RacingMigrations(list: seq<int>, sorted: seq<int>, start: seq<int>, n: nat, steps: seq<Step>) returns (k: nat)
    requires SortedCopy(list, sorted) && CanRun(sorted, StartWith(start, n), steps)
    ensures var k0 := Below(sorted, CurrentVersion(start));
            var s := RunOf(sorted, StartWith(start, n), steps);
            && k0 <= k <= |sorted|
            && s.applied == start + sorted[k0..k]
            && (Returned in s.connections ==> k == |sorted|)
  {
    hide RunOf, CurrentVersion, Below;
    LogStart(sorted, start);
    k := RunProgress(sorted, start, StartWith(start, n), Below(sorted, CurrentVersion(start)), steps);
    var s := RunOf(sorted, StartWith(start, n), steps);
    if Returned in s.connections {
      var c :| 0 <= c < |s.connections| && s.connections[c] == Returned;
      assert Standing(sorted, s.connections[c], k);
    }
  }

  lemma AllAbove(list: seq<int>, sorted: seq<int>, version: int)
    requires SortedCopy(list, sorted) && forall v | v in list :: v > version
    ensures Below(sorted, version) == 0
  {
    if sorted != [] {
      assert sorted[0] in multiset(sorted) && sorted[0] in multiset(list);
      assert sorted[0] in list;
    }
  }

  /** From an empty database with positive versions: always an ascending prefix of the sorted list, and
      the whole list once some connection has returned normally. */
  lemma FromEmpty(list: seq<int>, sorted: seq<int>, n: nat, steps: seq<Step>) returns (k: nat)
    requires SortedCopy(list, sorted) && CanRun(sorted, StartWith([], n), steps)
    requires forall v | v in list :: v > 0
    ensures k <= |sorted|
    ensures var s := RunOf(sorted, StartWith([], n), steps);
            s.applied == sorted[..k] && (Returned in s.connections ==> s.applied == sorted)
  {
    assert CurrentVersion([]) == 0;
    hide RunOf, CanRun, CurrentVersion, Below, SortedCopy;
    k := RacingMigrations(list, sorted, [], n, steps);
    AllAbove(list, sorted, 0);
    assert [] + sorted[0..k] == sorted[..k];
    assert sorted[..|sorted|] == sorted;
  }

  lemma LateOnes(sorted: seq<int>, version: int, v: int)
    requires Ascending(sorted) && v in sorted
    ensures v in sorted[Below(sorted, version)..] <==> v > version
  {
    hide Below;
    var k0 := Below(sorted, version);
    var late := sorted[k0..];
    var i :| 0 <= i < |sorted| && sorted[i] == v;
    if v > version {
      assert late[i - k0] == v;
    }
    if v in late {
      var j :| 0 <= j < |late| && late[j] == v;
      assert sorted[k0 + j] == v;
    }
  }

  /** A migration that is numbered below the version the database already has is skipped for good: a
      normal return leaves the whole list applied if and only if nothing below was missing. */
  lemma LateMigrationsAreSkipped(list: seq<int>, sorted: seq<int>, start: seq<int>, n: nat, steps: seq<Step>)
    requires SortedCopy(list, sorted) && CanRun(sorted, StartWith(start, n), steps)
    requires Returned in RunOf(sorted, StartWith(start, n), steps).connections
    ensures var s := RunOf(sorted, StartWith(start, n), steps);
            (forall v | v in sorted :: v in s.applied) <==>
            (forall v | v in sorted && v <= CurrentVersion(start) :: v in start)
  {
    hide RunOf, CanRun, CurrentVersion, Below;
    var k := RacingMigrations(list, sorted, start, n, steps);
    var late := sorted[Below(sorted, CurrentVersion(start))..];
    var applied := RunOf(sorted, StartWith(start, n), steps).applied;
    assert applied == start + late;
    forall v | v in sorted ensures v in applied <==> v in start || v > CurrentVersion(start) {
      LateOnes(sorted, CurrentVersion(start), v);
      assert v in applied <==> v in start || v in late;
    }
  }

  // ---------------------------------------------------------------------------------------------
  // One connection, as code
  // ---------------------------------------------------------------------------------------------

  class SchemaTable {
    var applied: seq<int>

    constructor ()
      ensures applied == []
    {
      applied := [];
    }

    /** `applyMigrations` without rivals; `failing` is the index whose SQL fails, if one does. */
    method ApplyMigrations(sorted: seq<int>, failing: Option<nat>) returns (ok: bool)
      requires Ascending(sorted)
      modifies this
      ensures var k0 := Below(sorted, CurrentVersion(old(applied)));
              && (ok <==> !(failing.Some? && k0 <= failing.value < |sorted|))
              && (ok ==> applied == old(applied) + sorted[k0..])
              && (!ok ==> failing.Some? && k0 <= failing.value < |sorted| &&
                          applied == old(applied) + sorted[k0..failing.value])
    {
      hide Below, LogAt;
      ghost var start := applied;
      ghost var k := Below(sorted, CurrentVersion(start));
      LogStart(sorted, start);
      for i := 0 to |sorted|
        invariant k >= i && LogAt(sorted, start, applied, k)
        invariant k == Max(i, Below(sorted, CurrentVersion(start)))
        invariant failing.Some? && Below(sorted, CurrentVersion(start)) <= failing.value ==> failing.value >= i
      {
        LogBounds(sorted, start, applied, k);
        if sorted[i] <= CurrentVersion(applied) { continue; }
        if failing == Some(i) {
          LogIs(sorted, start, applied, k);
          return false;
        }
        LogStep(sorted, start, applied, k);
        applied := applied + [sorted[i]];
        k := k + 1;
      }
      LogIs(sorted, start, applied, k);
      return true;
    }

    lemma LogIs(sorted: seq<int>, start: seq<int>, log: seq<int>, k: nat)
      requires LogAt(sorted, start, log, k)
      ensures var k0 := Below(sorted, CurrentVersion(start));
              k0 <= k <= |sorted| && log == start + sorted[k0..k]
      ensures k == |sorted| ==> log == start + sorted[Below(sorted, CurrentVersion(start))..]
    {
    }
  }

  predicate IsDigitChar(c: char) { '0' <= c <= '9' }

  /** Length of the leading run of digits. */
  function DigitRun(stem: string): (n: nat)
    ensures n <= |stem| && forall i | 0 <= i < n :: IsDigitChar(stem[i])
    ensures n < |stem| ==> !IsDigitChar(stem[n])
  {
    if stem == "" || !IsDigitChar(stem[0]) then 0 else 1 + DigitRun(stem[1..])
  }

  /** `parseVersionPrefix` as far as the text goes: the digits before the first '_', if the stem starts so. */
  method VersionDigits(stem: string) returns (r: Option<string>)
    ensures r.Some? <==> 0 < DigitRun(stem) < |stem| && stem[DigitRun(stem)] == '_'
    ensures r.Some? ==> r.value == stem[..DigitRun(stem)]
  {
    var i := 0;
    assert stem[0..] == stem;
    while i < |stem| && IsDigitChar(stem[i])
      invariant 0 <= i <= |stem|
      invariant DigitRun(stem) == i + DigitRun(stem[i..])
    {
      assert stem[i..][1..] == stem[i + 1..];
      i := i + 1;
    }
    if i == 0 || i >= |stem| || stem[i] != '_' { return None; }
    return Some(stem[..i]);
  }
}
