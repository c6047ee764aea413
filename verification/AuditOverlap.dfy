/**
  The audit handler with its steps apart: it takes its timestamp, looks up the
  tenant's newest row, and writes the new one.  Handlers overlap in any way, with
  each other and with rows that other services write without hashes; timestamps
  may be equal.
 */
module AuditOverlap {
  import opened Optional
  import opened HashText
  import opened AuditChain
  import opened AuditLog

  /** A handler, and the newest row it found once it has looked. */
  datatype Pending = Pending(stamped: Stamped, look: Option<Option<Row>>)

  /** `ids` holds the row ids given out so far. */
  datatype Sys = Sys(logs: seq<Row>, pending: map<int, Pending>, ids: set<string>, clock: int)

  datatype Step =
    | Begin(r: int, s: Stamped)
    | Read(r: int, latest: Option<Row>)
    | Write(r: int)
    | Other(row: Row)

  /** Row ids are fresh and hold no separator; among the newest rows the look-up may find any. */
  predicate Enabled(sys: Sys, step: Step)
  {
    match step
    case Begin(r, s) =>
      && r !in sys.pending && sys.clock <= s.now && s.event.tenantId != ""
      && s.logId !in sys.ids && NoBar(s.logId)
    case Read(r, latest) =>
      && r in sys.pending && sys.pending[r].look.None?
      && IsLatest(sys.logs, sys.pending[r].stamped.event.tenantId, latest)
    case Write(r) => r in sys.pending && sys.pending[r].look.Some?
    case Other(row) => row.id !in sys.ids && NoBar(row.id)
  }

  function NewRow(pepper: Text, p: Pending): (row: Row)
    requires p.look.Some?
  {
    RowFor(pepper, p.stamped, LatestHash(p.look.value))
  }

  function Next(pepper: Text, sys: Sys, step: Step): (sys': Sys)
    requires Enabled(sys, step)
  {
    match step
    case Begin(r, s) => Sys(sys.logs, sys.pending[r := Pending(s, None)], sys.ids + {s.logId}, s.now)
    case Read(r, latest) => sys.(pending := sys.pending[r := sys.pending[r].(look := Some(latest))])
    case Write(r) => sys.(logs := sys.logs + [NewRow(pepper, sys.pending[r])], pending := sys.pending - {r})
    case Other(row) => sys.(logs := sys.logs + [EntryRow(pepper, Bare(row), [])], ids := sys.ids + {row.id})
  }

  predicate AllEnabled(pepper: Text, sys: Sys, steps: seq<Step>)
    decreases |steps|
  {
    steps == [] || (Enabled(sys, steps[0]) && AllEnabled(pepper, Next(pepper, sys, steps[0]), steps[1..]))
  }

  function Run(pepper: Text, sys: Sys, steps: seq<Step>): (sys': Sys)
    requires AllEnabled(pepper, sys, steps)
    decreases |steps|
  {
    if steps == [] then sys else Run(pepper, Next(pepper, sys, steps[0]), steps[1..])
  }

  /** The rows with hashes, as they were written. */
  function HashedRows(rows: seq<Row>): (hs: seq<Row>)
  {
    if rows == [] then []
    else
      var front := HashedRows(rows[..|rows| - 1]);
      if rows[|rows| - 1].hash == [] then front else front + [rows[|rows| - 1]]
  }

  function TenantHashed(sys: Sys, tenant: string): (hs: seq<Row>)
  {
    HashedRows(TenantLog(sys.logs, tenant))
  }

  /** The step writes no event of the tenant, or the hash its handler found is the last one written. */
  predicate Serial(sys: Sys, step: Step, tenant: string)
    requires Enabled(sys, step)
  {
    step.Write? && sys.pending[step.r].stamped.event.tenantId == tenant ==>
      LatestHash(sys.pending[step.r].look.value) == TipHash(TenantHashed(sys, tenant))
  }

  predicate AllSerial(pepper: Text, sys: Sys, steps: seq<Step>, tenant: string)
    requires AllEnabled(pepper, sys, steps)
    decreases |steps|
  {
    steps == [] || (Serial(sys, steps[0], tenant) && AllSerial(pepper, Next(pepper, sys, steps[0]), steps[1..], tenant))
  }

  /** Every payload of the tenant comes back as it was hashed. */
  predicate StepsKept(steps: seq<Step>, tenant: string)
  {
    forall i :: 0 <= i < |steps| && steps[i].Begin? && steps[i].s.event.tenantId == tenant ==>
      KeptAsHashed(steps[i].s.event)
  }

  const INIT := Sys([], map[], {}, 0)

  /** Undisturbed, the three steps are the handler of the service. */
  lemma StepsAreHandler(pepper: Text, sys: Sys, r: int, s: Stamped, latest: Option<Row>)
    requires Enabled(sys, Begin(r, s)) && IsLatest(sys.logs, s.event.tenantId, latest)
    ensures var sys1 := Next(pepper, sys, Begin(r, s));
      && Enabled(sys1, Read(r, latest))
      && var sys2 := Next(pepper, sys1, Read(r, latest));
      && Enabled(sys2, Write(r))
      && var sys3 := Next(pepper, sys2, Write(r));
      && sys3.logs == sys.logs + [RowFor(pepper, s, LatestHash(latest))] && sys3.pending == sys.pending
  {
  }

  // ------------------------------------------------------------------ what always holds

  /** Every row and handler has an id of its own. */
  predicate OwnIds(sys: Sys)
  {
    && (forall i :: 0 <= i < |sys.logs| ==> sys.logs[i].id in sys.ids && NoBar(sys.logs[i].id))
    && (forall i, j :: 0 <= i < j < |sys.logs| ==> sys.logs[i].id != sys.logs[j].id)
    && (forall r :: r in sys.pending ==> sys.pending[r].stamped.logId in sys.ids && NoBar(sys.pending[r].stamped.logId))
    && (forall i, r :: 0 <= i < |sys.logs| && r in sys.pending ==> sys.logs[i].id != sys.pending[r].stamped.logId)
    && (forall q, r :: q in sys.pending && r in sys.pending && q != r ==>
      sys.pending[q].stamped.logId != sys.pending[r].stamped.logId)
  }

  lemma StepKeepsOwnIds(pepper: Text, sys: Sys, step: Step)
    requires OwnIds(sys) && Enabled(sys, step)
    ensures OwnIds(Next(pepper, sys, step))
  {
  }

  /** The hash is that of one of the rows, or stands for none. */
  predicate Known(hs: seq<Row>, hash: Text)
  {
    hash == GENESIS || exists j :: 0 <= j < |hs| && hs[j].hash == hash
  }

  predicate BackedAt(pepper: Text, hs: seq<Row>, i: nat)
    requires i < |hs|
  {
    && hs[i].hash == ComputeAuditHash(pepper, hs[i]) && hs[i].previousHash != []
    && Known(hs[..i], hs[i].previousHash)
  }

  /** Each row verifies by itself and links to one written before it. */
  predicate Backed(pepper: Text, hs: seq<Row>)
  {
    forall i :: 0 <= i < |hs| ==> BackedAt(pepper, hs, i)
  }

  predicate PendingOk(hs: seq<Row>, p: Pending)
  {
    KeptAsHashed(p.stamped.event) && (p.look.Some? ==> Known(hs, LatestHash(p.look.value)))
  }

  predicate Inv(pepper: Text, sys: Sys, tenant: string)
  {
    && OwnIds(sys)
    && Backed(pepper, TenantHashed(sys, tenant))
    && (forall i :: 0 <= i < |sys.logs| && sys.logs[i].hash == [] ==> sys.logs[i].previousHash == [])
    && (forall r :: r in sys.pending && sys.pending[r].stamped.event.tenantId == tenant ==>
      PendingOk(TenantHashed(sys, tenant), sys.pending[r]))
  }

  lemma TenantLogGrows(logs: seq<Row>, row: Row, tenant: string)
    ensures TenantLog(logs + [row], tenant) == TenantLog(logs, tenant) + if row.tenantId == tenant then [row] else []
  {
    assert (logs + [row])[..|logs|] == logs;
  }

  lemma HashedRowsGrow(rows: seq<Row>, row: Row)
    ensures HashedRows(rows + [row]) == HashedRows(rows) + if row.hash == [] then [] else [row]
  {
    assert (rows + [row])[..|rows|] == rows;
  }

  lemma HashedGrows(logs: seq<Row>, row: Row, tenant: string)
    ensures HashedRows(TenantLog(logs + [row], tenant)) ==
      HashedRows(TenantLog(logs, tenant)) + if row.tenantId == tenant && row.hash != [] then [row] else []
  {
    TenantLogGrows(logs, row, tenant);
    HashedRowsGrow(TenantLog(logs, tenant), row);
    assert TenantLog(logs, tenant) + [] == TenantLog(logs, tenant);
  }

  lemma {:induction false} HashedMembers(rows: seq<Row>)
    ensures forall r :: r in HashedRows(rows) <==> r in rows && r.hash != []
  {
    if rows != [] {
      HashedMembers(rows[..|rows| - 1]);
    }
  }

  lemma KnownGrows(hs: seq<Row>, row: Row, hash: Text)
    requires Known(hs, hash)
    ensures Known(hs + [row], hash)
  {
    if hash != GENESIS {
      var j :| 0 <= j < |hs| && hs[j].hash == hash;
      assert (hs + [row])[j].hash == hash;
    }
  }

  lemma BackedGrows(pepper: Text, hs: seq<Row>, row: Row)
    requires Backed(pepper, hs) && Known(hs, row.previousHash)
    requires row.hash == ComputeAuditHash(pepper, row) && row.previousHash != []
    ensures Backed(pepper, hs + [row])
  {
    var hs' := hs + [row];
    forall i | 0 <= i < |hs'|
      ensures BackedAt(pepper, hs', i)
    {
      assert hs'[..i] == hs[..i];
      assert hs[..|hs|] == hs;
      assert i < |hs| ==> BackedAt(pepper, hs, i);
    }
  }

  /** A look-up finds a row of the tenant with a known hash, one without, or none. */
  lemma LookIsKnown(logs: seq<Row>, tenant: string, latest: Option<Row>)
    requires IsLatest(logs, tenant, latest)
    ensures Known(HashedRows(TenantLog(logs, tenant)), LatestHash(latest))
  {
    if latest.Some? && latest.value.hash != [] {
      TenantLogMembers(logs, tenant);
      HashedMembers(TenantLog(logs, tenant));
      assert latest.value in HashedRows(TenantLog(logs, tenant));
    }
  }

  lemma WriteKeepsInv(pepper: Text, sys: Sys, step: Step, tenant: string)
    requires Inv(pepper, sys, tenant) && Enabled(sys, step) && step.Write?
    ensures Inv(pepper, Next(pepper, sys, step), tenant)
  {
    var p, hs := sys.pending[step.r], TenantHashed(sys, tenant);
    var row := NewRow(pepper, p);
    StepKeepsOwnIds(pepper, sys, step);
    HashedGrows(sys.logs, row, tenant);
    RecordedHasHash(pepper, p.stamped, row.previousHash);
    if p.stamped.event.tenantId == tenant {
      assert |GENESIS| == 24;
      RowVerifiesIffKept(pepper, p.stamped, row.previousHash);
      BackedGrows(pepper, hs, row);
      forall r | r in sys.pending && sys.pending[r].stamped.event.tenantId == tenant && sys.pending[r].look.Some?
        ensures Known(hs + [row], LatestHash(sys.pending[r].look.value))
      {
        KnownGrows(hs, row, LatestHash(sys.pending[r].look.value));
      }
    }
  }

  lemma ReadKeepsInv(pepper: Text, sys: Sys, step: Step, tenant: string)
    requires Inv(pepper, sys, tenant) && Enabled(sys, step) && step.Read?
    ensures Inv(pepper, Next(pepper, sys, step), tenant)
  {
    StepKeepsOwnIds(pepper, sys, step);
    LookIsKnown(sys.logs, sys.pending[step.r].stamped.event.tenantId, step.latest);
  }

  lemma OtherKeepsInv(pepper: Text, sys: Sys, step: Step, tenant: string)
    requires Inv(pepper, sys, tenant) && Enabled(sys, step) && step.Other?
    ensures Inv(pepper, Next(pepper, sys, step), tenant)
  {
    StepKeepsOwnIds(pepper, sys, step);
    HashedGrows(sys.logs, EntryRow(pepper, Bare(step.row), []), tenant);
    assert TenantHashed(sys, tenant) + [] == TenantHashed(sys, tenant);
  }

  lemma StepKeepsInv(pepper: Text, sys: Sys, step: Step, tenant: string)
    requires Inv(pepper, sys, tenant) && Enabled(sys, step)
    requires step.Begin? && step.s.event.tenantId == tenant ==> KeptAsHashed(step.s.event)
    ensures Inv(pepper, Next(pepper, sys, step), tenant)
  {
    StepKeepsOwnIds(pepper, sys, step);
    match step
    case Begin(_, _) =>
    case Read(_, _) => ReadKeepsInv(pepper, sys, step, tenant);
    case Write(_) => WriteKeepsInv(pepper, sys, step, tenant);
    case Other(_) => OtherKeepsInv(pepper, sys, step, tenant);
  }

  // ------------------------------------------------------------------ serial runs are chained runs

  predicate LinksBack(hs: seq<Row>, i: nat)
    requires i < |hs|
  {
    hs[i].previousHash == TipHash(hs[..i])
  }

  /** Each row links to the one written before it. */
  predicate Chained(hs: seq<Row>)
  {
    forall i :: 0 <= i < |hs| ==> LinksBack(hs, i)
  }

  lemma ChainedByLast(hs: seq<Row>, row: Row)
    ensures Chained(hs + [row]) <==> Chained(hs) && row.previousHash == TipHash(hs)
  {
    var hs' := hs + [row];
    assert hs'[..|hs|] == hs && hs'[|hs|] == row;
    forall i | 0 <= i < |hs|
      ensures LinksBack(hs', i) <==> LinksBack(hs, i)
    {
      assert hs'[i] == hs[i] && hs'[..i] == hs[..i];
    }
    assert LinksBack(hs', |hs|) <==> row.previousHash == TipHash(hs);
  }

  lemma StepChainsIff(pepper: Text, sys: Sys, step: Step, tenant: string)
    requires Enabled(sys, step)
    ensures Chained(TenantHashed(Next(pepper, sys, step), tenant)) <==>
      Chained(TenantHashed(sys, tenant)) && Serial(sys, step, tenant)
  {
    match step
    case Begin(_, _) =>
    case Read(_, _) =>
    case Write(r) =>
      var p := sys.pending[r];
      var row := NewRow(pepper, p);
      HashedGrows(sys.logs, row, tenant);
      RecordedHasHash(pepper, p.stamped, row.previousHash);
      ChainedByLast(TenantHashed(sys, tenant), row);
    case Other(row) => HashedGrows(sys.logs, EntryRow(pepper, Bare(row), []), tenant);
  }

  lemma KeptTail(steps: seq<Step>, tenant: string)
    requires StepsKept(steps, tenant) && steps != []
    ensures StepsKept(steps[1..], tenant)
    ensures steps[0].Begin? && steps[0].s.event.tenantId == tenant ==> KeptAsHashed(steps[0].s.event)
  {
    assert forall i :: 0 <= i < |steps| - 1 ==> steps[1..][i] == steps[i + 1];
  }

  lemma {:induction false} RunChainsIff(pepper: Text, sys: Sys, steps: seq<Step>, tenant: string)
    requires Inv(pepper, sys, tenant) && AllEnabled(pepper, sys, steps) && StepsKept(steps, tenant)
    ensures Inv(pepper, Run(pepper, sys, steps), tenant)
    ensures Chained(TenantHashed(Run(pepper, sys, steps), tenant)) <==>
      Chained(TenantHashed(sys, tenant)) && AllSerial(pepper, sys, steps, tenant)
    decreases |steps|
  {
    if steps != [] {
      KeptTail(steps, tenant);
      StepKeepsInv(pepper, sys, steps[0], tenant);
      StepChainsIff(pepper, sys, steps[0], tenant);
      RunChainsIff(pepper, Next(pepper, sys, steps[0]), steps[1..], tenant);
    }
  }

  // ------------------------------------------------------------------ what the verifier says

  predicate BareLast(rows: seq<Row>)
  {
    forall i, j :: 0 <= i < j < |rows| && rows[i].hash == [] ==> rows[j].hash == []
  }

  /** The verifier's query: the tenant's rows in order of their timestamps, equal ones in any order. */
  predicate IsQueryResult(rows: seq<Row>, found: seq<Row>)
  {
    && multiset(found) == multiset(rows)
    && forall i, j :: 0 <= i < j < |found| ==> found[i].createdAt <= found[j].createdAt
  }

  lemma {:induction false} HashedCount(rows: seq<Row>, r: Row)
    ensures multiset(HashedRows(rows))[r] == if r.hash == [] then 0 else multiset(rows)[r]
  {
    if rows != [] {
      var front, last := rows[..|rows| - 1], rows[|rows| - 1];
      HashedCount(front, r);
      assert rows == front + [last];
      assert multiset(rows)[r] == multiset(front)[r] + multiset{last}[r];
      HashedRowsGrow(front, last);
      assert multiset(HashedRows(front) + [last])[r] == multiset(HashedRows(front))[r] + multiset{last}[r];
    }
  }

  lemma HashedSameMultiset(rows: seq<Row>, found: seq<Row>)
    requires multiset(found) == multiset(rows)
    ensures multiset(HashedRows(found)) == multiset(HashedRows(rows))
    ensures |HashedRows(found)| == |HashedRows(rows)|
  {
    forall r: Row
      ensures multiset(HashedRows(found))[r] == multiset(HashedRows(rows))[r]
    {
      HashedCount(rows, r);
      HashedCount(found, r);
    }
    assert multiset(HashedRows(found)) == multiset(HashedRows(rows));
    assert |HashedRows(found)| == |multiset(HashedRows(found))|;
  }

  lemma {:induction false} HashedArePrefix(rows: seq<Row>)
    requires BareLast(rows)
    ensures HashedRows(rows) <= rows
    ensures forall i :: |HashedRows(rows)| <= i < |rows| ==> rows[i].hash == []
  {
    if rows != [] {
      HashedArePrefix(rows[..|rows| - 1]);
    }
  }

  /** Rows with clean ids of their own have hashes of their own. */
  lemma OtherIdOtherHash(pepper: Text, a: Row, b: Row)
    requires NoBar(a.id) && NoBar(b.id) && ComputeAuditHash(pepper, a) == ComputeAuditHash(pepper, b)
    ensures a.id == b.id
  {
    HashDeterminesText(pepper, a, b);
    assert Hashed(a)[0] == Str(a.id) && Hashed(b)[0] == Str(b.id);
    NoBarIsClean(a.id);
    NoBarIsClean(b.id);
    HeadIsDetermined(Str(a.id), Str(b.id), Join(Hashed(a)[1..]), Join(Hashed(b)[1..]));
    StrInjective(a.id, b.id);
  }

  /** Rows of a query result, as the invariant has them. */
  predicate Genuine(pepper: Text, found: seq<Row>)
  {
    && (forall i :: 0 <= i < |found| ==>
      && NoBar(found[i].id)
      && (found[i].hash == [] ==> found[i].previousHash == [])
      && (found[i].hash != [] ==> found[i].previousHash != [] && found[i].hash == ComputeAuditHash(pepper, found[i])))
    && (forall i, j :: 0 <= i < j < |found| ==> found[i].id != found[j].id)
  }

  /** Hashes of genuine rows tell the rows apart. */
  lemma HashesApart(pepper: Text, found: seq<Row>, i: nat, j: nat)
    requires Genuine(pepper, found) && i < |found| && j < |found|
    requires ComputeAuditHash(pepper, found[i]) == ComputeAuditHash(pepper, found[j])
    ensures i == j
  {
    OtherIdOtherHash(pepper, found[i], found[j]);
  }

  /** Every link of a hashed row is known among the hashed rows. */
  predicate AllKnown(found: seq<Row>, hs: seq<Row>)
  {
    forall i :: 0 <= i < |found| && found[i].hash != [] ==> Known(hs, found[i].previousHash)
  }

  lemma HashedBehindHashed(pepper: Text, found: seq<Row>, hs: seq<Row>, i: nat)
    requires Genuine(pepper, found) && Accepted(pepper, found) && 0 < i < |found| && found[i].hash != []
    requires Known(hs, found[i].previousHash) && forall j :: 0 <= j < |hs| ==> hs[j] in found && hs[j].hash != []
    ensures found[i - 1].hash != []
  {
    AcceptedAt(pepper, found, i);
    HashIsNotGenesis(pepper, found[i - 1]);
    var j :| 0 <= j < |hs| && hs[j].hash == found[i].previousHash;
    var k :| 0 <= k < |found| && found[k] == hs[j];
    HashesApart(pepper, found, k, i - 1);
  }

  lemma {:induction false} HashedAllBefore(rows: seq<Row>)
    requires forall i :: 0 < i < |rows| && rows[i].hash != [] ==> rows[i - 1].hash != []
    ensures BareLast(rows)
  {
    if rows != [] {
      var n := |rows| - 1;
      HashedAllBefore(rows[..n]);
      forall i | 0 <= i < n && rows[i].hash == []
        ensures rows[n].hash == []
      {
        assert rows[..n][i].hash == [] && (i < n - 1 ==> rows[..n][n - 1].hash == []);
      }
      forall i, j | 0 <= i < j < |rows| && rows[i].hash == []
        ensures rows[j].hash == []
      {
        assert rows[..n][i].hash == [];
        assert j < n ==> rows[..n][j].hash == [];
      }
    }
  }

  lemma AcceptedHasBareLast(pepper: Text, found: seq<Row>, hs: seq<Row>)
    requires Genuine(pepper, found) && Accepted(pepper, found) && AllKnown(found, hs)
    requires forall j :: 0 <= j < |hs| ==> hs[j] in found && hs[j].hash != []
    ensures BareLast(found)
  {
    forall i | 0 < i < |found| && found[i].hash != []
      ensures found[i - 1].hash != []
    {
      HashedBehindHashed(pepper, found, hs, i);
    }
    HashedAllBefore(found);
  }

  lemma AcceptedIsChained(pepper: Text, found: seq<Row>)
    requires Genuine(pepper, found) && Accepted(pepper, found) && forall i :: 0 <= i < |found| ==> found[i].hash != []
    ensures Chained(found)
  {
    forall i | 0 <= i < |found|
      ensures LinksBack(found, i)
    {
      AcceptedAt(pepper, found, i);
      if i > 0 {
        assert found[..i][i - 1] == found[i - 1];
      }
    }
  }

  lemma ChainedIsAccepted(pepper: Text, found: seq<Row>, hs: seq<Row>)
    requires Genuine(pepper, found) && hs <= found && Chained(hs)
    requires forall i :: 0 <= i < |hs| ==> found[i].hash != []
    requires forall i :: |hs| <= i < |found| ==> found[i].hash == []
    ensures Accepted(pepper, found)
  {
    forall i | 0 <= i < |found|
      ensures LinkOk(pepper, found, i) && HashOk(pepper, found, i)
    {
      if i < |hs| {
        assert hs[i] == found[i] && LinksBack(hs, i);
        if i > 0 {
          assert hs[..i][i - 1] == hs[i - 1] == found[i - 1];
        }
      }
    }
  }

  lemma SamePrefixAt(hs: seq<Row>, chain: seq<Row>, n: nat, k: nat)
    requires n <= |hs| && n <= |chain| && hs[..n] == chain[..n] && k < n
    ensures hs[k] == chain[k]
  {
    assert hs[k] == hs[..n][k] && chain[k] == chain[..n][k];
  }

  lemma LinkBehind(chain: seq<Row>, k: nat)
    requires Chained(chain) && 0 < k < |chain| && chain[k - 1].hash != []
    ensures chain[k].previousHash == chain[k - 1].hash
  {
    assert LinksBack(chain, k) && chain[..k][k - 1] == chain[k - 1];
  }

  lemma OtherRowOtherHash(pepper: Text, chain: seq<Row>, i: nat, j: nat)
    requires Genuine(pepper, chain) && i < j < |chain| && chain[i].hash != [] && chain[j].hash != []
    ensures chain[i].hash != chain[j].hash
  {
    if chain[i].hash == chain[j].hash {
      HashesApart(pepper, chain, i, j);
    }
  }

  lemma GenuineHash(pepper: Text, chain: seq<Row>, i: nat)
    requires Genuine(pepper, chain) && i < |chain| && chain[i].hash != []
    ensures chain[i].hash != GENESIS
  {
    HashIsNotGenesis(pepper, chain[i]);
  }

  /** A row cannot be read behind its place: it links to none of the rows before that. */
  lemma UnknownBefore(pepper: Text, chain: seq<Row>, n: nat, k: nat)
    requires Genuine(pepper, chain) && n < k < |chain| && chain[k].previousHash == chain[k - 1].hash
    requires forall i :: 0 <= i < |chain| ==> chain[i].hash != []
    ensures !Known(chain[..n], chain[k].previousHash)
  {
    GenuineHash(pepper, chain, k - 1);
    forall j | 0 <= j < n
      ensures chain[..n][j].hash != chain[k - 1].hash
    {
      OtherRowOtherHash(pepper, chain, j, k - 1);
    }
  }

  /** Rows written each after the one it links to, and read as a chain, were written in that order. */
  lemma NextIsSame(pepper: Text, hs: seq<Row>, chain: seq<Row>, n: nat)
    requires Backed(pepper, hs) && Genuine(pepper, hs) && Genuine(pepper, chain) && Chained(chain)
    requires multiset(hs) == multiset(chain) && n < |hs| == |chain| && hs[..n] == chain[..n]
    requires forall i :: 0 <= i < |chain| ==> chain[i].hash != []
    ensures hs[n] == chain[n]
  {
    assert hs[n] in multiset(hs);
    assert hs[n] in chain;
    assert BackedAt(pepper, hs, n);
    var k :| 0 <= k < |chain| && chain[k] == hs[n];
    if k < n {
      SamePrefixAt(hs, chain, n, k);
    } else if n < k {
      LinkBehind(chain, k);
      UnknownBefore(pepper, chain, n, k);
    }
  }

  lemma {:induction false} OneOrder(pepper: Text, hs: seq<Row>, chain: seq<Row>, n: nat)
    requires Backed(pepper, hs) && Genuine(pepper, hs) && Genuine(pepper, chain) && Chained(chain)
    requires multiset(hs) == multiset(chain) && n <= |hs| == |chain| && hs[..n] == chain[..n]
    requires forall i :: 0 <= i < |chain| ==> chain[i].hash != []
    ensures hs == chain
    decreases |hs| - n
  {
    if n < |hs| {
      NextIsSame(pepper, hs, chain, n);
      assert hs[..n + 1] == hs[..n] + [hs[n]] && chain[..n + 1] == chain[..n] + [chain[n]];
      OneOrder(pepper, hs, chain, n + 1);
    } else {
      assert hs[..n] == hs && chain[..n] == chain;
    }
  }

  lemma {:induction false} TenantLogIds(logs: seq<Row>, tenant: string)
    requires forall i, j :: 0 <= i < j < |logs| ==> logs[i].id != logs[j].id
    ensures forall i, j :: 0 <= i < j < |TenantLog(logs, tenant)| ==>
      TenantLog(logs, tenant)[i].id != TenantLog(logs, tenant)[j].id
  {
    if logs != [] {
      var front := logs[..|logs| - 1];
      TenantLogIds(front, tenant);
      TenantLogMembers(front, tenant);
      var rows := TenantLog(front, tenant);
      forall i | 0 <= i < |rows|
        ensures rows[i].id != logs[|logs| - 1].id
      {
        assert rows[i] in rows;
      }
    }
  }

  lemma TwoPlaces(rows: seq<Row>, i: nat, j: nat)
    requires i < j < |rows| && rows[i] == rows[j]
    ensures multiset(rows)[rows[i]] >= 2
  {
    assert rows == rows[..j] + [rows[j]] + rows[j + 1..];
    assert rows[..j][i] == rows[i];
  }

  lemma {:induction false} IdOnce(rows: seq<Row>, r: Row)
    requires forall i, j :: 0 <= i < j < |rows| ==> rows[i].id != rows[j].id
    ensures multiset(rows)[r] <= 1
  {
    if rows != [] {
      var n := |rows| - 1;
      IdOnce(rows[..n], r);
      assert rows == rows[..n] + [rows[n]];
      forall i | 0 <= i < n
        ensures rows[..n][i] != rows[n]
      {
        assert rows[i].id != rows[n].id;
      }
    }
  }

  lemma SameIdSameRow(rows: seq<Row>, a: Row, b: Row)
    requires a in rows && b in rows && a.id == b.id
    requires forall i, j :: 0 <= i < j < |rows| ==> rows[i].id != rows[j].id
    ensures a == b
  {
  }

  lemma IdsApart(rows: seq<Row>, found: seq<Row>)
    requires multiset(found) == multiset(rows)
    requires forall i, j :: 0 <= i < j < |rows| ==> rows[i].id != rows[j].id
    ensures forall i, j :: 0 <= i < j < |found| ==> found[i].id != found[j].id
  {
    forall i, j | 0 <= i < j < |found|
      ensures found[i].id != found[j].id
    {
      assert found[i] in multiset(found) && found[j] in multiset(found);
      if found[i].id == found[j].id {
        SameIdSameRow(rows, found[i], found[j]);
        TwoPlaces(found, i, j);
        IdOnce(rows, found[i]);
      }
    }
  }

  lemma PrefixKnown(hs: seq<Row>, k: nat, hash: Text)
    requires k <= |hs| && Known(hs[..k], hash)
    ensures Known(hs, hash)
  {
    if hash != GENESIS {
      var j :| 0 <= j < k && hs[..k][j].hash == hash;
      assert hs[j].hash == hash;
    }
  }

  lemma HashedRowIsKnown(pepper: Text, hs: seq<Row>, row: Row)
    requires Backed(pepper, hs) && row in hs
    ensures row.previousHash != [] && row.hash == ComputeAuditHash(pepper, row) && Known(hs, row.previousHash)
  {
    var k :| 0 <= k < |hs| && hs[k] == row;
    assert BackedAt(pepper, hs, k);
    PrefixKnown(hs, k, hs[k].previousHash);
  }

  lemma FoundRow(sys: Sys, tenant: string, found: seq<Row>, i: nat)
    requires multiset(found) == multiset(TenantLog(sys.logs, tenant)) && i < |found|
    ensures found[i] in sys.logs && (found[i].hash != [] ==> found[i] in TenantHashed(sys, tenant))
  {
    assert found[i] in multiset(found);
    TenantLogMembers(sys.logs, tenant);
    HashedMembers(TenantLog(sys.logs, tenant));
  }

  lemma HashedIsFound(sys: Sys, tenant: string, found: seq<Row>, j: nat)
    requires multiset(found) == multiset(TenantLog(sys.logs, tenant)) && j < |TenantHashed(sys, tenant)|
    ensures TenantHashed(sys, tenant)[j] in found && TenantHashed(sys, tenant)[j].hash != []
  {
    HashedMembers(TenantLog(sys.logs, tenant));
    assert TenantHashed(sys, tenant)[j] in TenantHashed(sys, tenant);
    assert TenantHashed(sys, tenant)[j] in multiset(TenantLog(sys.logs, tenant));
  }

  /** What the verifier reads, whatever the order. */
  lemma FoundIsGenuine(pepper: Text, sys: Sys, tenant: string, found: seq<Row>)
    requires Inv(pepper, sys, tenant) && multiset(found) == multiset(TenantLog(sys.logs, tenant))
    ensures Genuine(pepper, found) && AllKnown(found, TenantHashed(sys, tenant))
  {
    TenantLogIds(sys.logs, tenant);
    IdsApart(TenantLog(sys.logs, tenant), found);
    forall i | 0 <= i < |found|
      ensures NoBar(found[i].id) && (found[i].hash == [] ==> found[i].previousHash == [])
      ensures found[i].hash != [] ==>
        && found[i].previousHash != [] && found[i].hash == ComputeAuditHash(pepper, found[i])
        && Known(TenantHashed(sys, tenant), found[i].previousHash)
    {
      FoundRow(sys, tenant, found, i);
      if found[i].hash != [] {
        HashedRowIsKnown(pepper, TenantHashed(sys, tenant), found[i]);
      }
    }
  }

  lemma GenuinePrefix(pepper: Text, found: seq<Row>, hs: seq<Row>)
    requires Genuine(pepper, found) && hs <= found
    ensures Genuine(pepper, hs)
    ensures Accepted(pepper, found) ==> Accepted(pepper, hs)
  {
    assert hs == found[..|hs|];
    if Accepted(pepper, found) {
      PrefixAccepted(pepper, found, |hs|);
    }
  }

  lemma {:induction false} HashedIds(rows: seq<Row>)
    requires forall i, j :: 0 <= i < j < |rows| ==> rows[i].id != rows[j].id
    ensures forall i, j :: 0 <= i < j < |HashedRows(rows)| ==> HashedRows(rows)[i].id != HashedRows(rows)[j].id
  {
    if rows != [] {
      var front := rows[..|rows| - 1];
      HashedIds(front);
      HashedMembers(front);
      var hs := HashedRows(front);
      forall i | 0 <= i < |hs|
        ensures hs[i].id != rows[|rows| - 1].id
      {
        assert hs[i] in hs && hs[i] in front;
      }
    }
  }

  lemma HashedIsGenuine(pepper: Text, sys: Sys, tenant: string)
    requires Inv(pepper, sys, tenant)
    ensures Genuine(pepper, TenantHashed(sys, tenant))
  {
    var rows, hs := TenantLog(sys.logs, tenant), TenantHashed(sys, tenant);
    TenantLogIds(sys.logs, tenant);
    HashedIds(rows);
    TenantLogMembers(sys.logs, tenant);
    HashedMembers(rows);
    forall i | 0 <= i < |hs|
      ensures hs[i] in sys.logs && hs[i].hash != [] && BackedAt(pepper, hs, i)
    {
      assert hs[i] in hs;
    }
  }

  lemma AcceptedInOrder(pepper: Text, sys: Sys, tenant: string, found: seq<Row>)
    requires Inv(pepper, sys, tenant) && multiset(found) == multiset(TenantLog(sys.logs, tenant))
    requires Genuine(pepper, found) && Accepted(pepper, found) && BareLast(found)
    ensures HashedRows(found) == TenantHashed(sys, tenant) && Chained(TenantHashed(sys, tenant))
  {
    var rows, hs, chain := TenantLog(sys.logs, tenant), TenantHashed(sys, tenant), HashedRows(found);
    HashedSameMultiset(rows, found);
    HashedArePrefix(found);
    HashedMembers(found);
    GenuinePrefix(pepper, found, chain);
    forall i | 0 <= i < |chain|
      ensures chain[i].hash != []
    {
      assert chain[i] in chain;
    }
    AcceptedIsChained(pepper, chain);
    HashedIsGenuine(pepper, sys, tenant);
    OneOrder(pepper, hs, chain, 0);
  }

  /**
    What makes a tenant's rows a log the verifier accepts, in whatever order they are
    read: the hashed rows come first, in the order they were written, each linked to
    the one written before it.
   */
  lemma AcceptedIffInOrder(pepper: Text, sys: Sys, tenant: string, found: seq<Row>)
    requires Inv(pepper, sys, tenant) && multiset(found) == multiset(TenantLog(sys.logs, tenant))
    ensures Accepted(pepper, found) <==>
      && BareLast(found) && HashedRows(found) == TenantHashed(sys, tenant)
      && Chained(TenantHashed(sys, tenant))
  {
    var hs, chain := TenantHashed(sys, tenant), HashedRows(found);
    FoundIsGenuine(pepper, sys, tenant, found);
    HashedMembers(found);
    if Accepted(pepper, found) {
      forall j | 0 <= j < |hs|
        ensures hs[j] in found && hs[j].hash != []
      {
        HashedIsFound(sys, tenant, found, j);
      }
      AcceptedHasBareLast(pepper, found, hs);
      AcceptedInOrder(pepper, sys, tenant, found);
    } else if BareLast(found) && chain == hs && Chained(hs) {
      HashedArePrefix(found);
      forall i | 0 <= i < |hs|
        ensures found[i].hash != []
      {
        assert hs[i] in hs;
      }
      ChainedIsAccepted(pepper, found, hs);
    }
  }

  /**
    For every interleaving of handlers and of other services' rows: a tenant's log, as
    the query gives it back, is accepted if and only if every handler of the tenant
    found the hash that was the last one when it wrote, and the query gives back the
    hashed rows in the order they were written, before the others.
   */
  lemma LogVerifiesIffSerial(pepper: Text, steps: seq<Step>, tenant: string, found: seq<Row>)
    requires AllEnabled(pepper, INIT, steps) && StepsKept(steps, tenant)
    requires IsQueryResult(TenantLog(Run(pepper, INIT, steps).logs, tenant), found)
    ensures Accepted(pepper, found) <==>
      && AllSerial(pepper, INIT, steps, tenant) && BareLast(found)
      && HashedRows(found) == TenantHashed(Run(pepper, INIT, steps), tenant)
  {
    RunChainsIff(pepper, INIT, steps, tenant);
    AcceptedIffInOrder(pepper, Run(pepper, INIT, steps), tenant, found);
  }

  // ------------------------------------------------------------------ when all timestamps differ

  predicate InOrderOfTime(rows: seq<Row>)
  {
    forall i, j :: 0 <= i < j < |rows| ==> rows[i].createdAt < rows[j].createdAt
  }

  /** Rows without hashes are newer than those with. */
  predicate BareNewest(rows: seq<Row>)
  {
    forall i, j :: 0 <= i < |rows| && 0 <= j < |rows| && rows[i].hash != [] && rows[j].hash == [] ==>
      rows[i].createdAt < rows[j].createdAt
  }

  lemma QueryIsStrict(rows: seq<Row>, found: seq<Row>)
    requires IsQueryResult(rows, found)
    requires forall a, b :: a in rows && b in rows && a.id != b.id ==> a.createdAt != b.createdAt
    requires forall i, j :: 0 <= i < j < |found| ==> found[i].id != found[j].id
    ensures InOrderOfTime(found)
  {
    forall i, j | 0 <= i < j < |found|
      ensures found[i].createdAt < found[j].createdAt
    {
      assert found[i] in multiset(found) && found[j] in multiset(found);
    }
  }

  lemma {:induction false} HashedInOrder(rows: seq<Row>)
    requires InOrderOfTime(rows)
    ensures InOrderOfTime(HashedRows(rows))
  {
    if rows != [] {
      var front := rows[..|rows| - 1];
      HashedInOrder(front);
      HashedMembers(front);
      var hs := HashedRows(front);
      forall i | 0 <= i < |hs|
        ensures hs[i].createdAt < rows[|rows| - 1].createdAt
      {
        assert hs[i] in hs && hs[i] in front;
      }
    }
  }

  lemma LastIsSame(a: seq<Row>, b: seq<Row>)
    requires InOrderOfTime(a) && InOrderOfTime(b) && multiset(a) == multiset(b) && a != []
    ensures b != [] && b[|b| - 1] == a[|a| - 1]
  {
    var x := a[|a| - 1];
    assert x in multiset(a) && x in b;
    var y := b[|b| - 1];
    assert y in multiset(b) && y in a;
    var i :| 0 <= i < |a| && a[i] == y;
    var j :| 0 <= j < |b| && b[j] == x;
  }

  lemma FrontsSameMultiset(a: seq<Row>, b: seq<Row>, x: Row)
    requires multiset(a + [x]) == multiset(b + [x])
    ensures multiset(a) == multiset(b)
  {
    assert multiset(a) == multiset(a + [x]) - multiset{x};
    assert multiset(b) == multiset(b + [x]) - multiset{x};
  }

  lemma OrderedFront(a: seq<Row>)
    requires InOrderOfTime(a) && a != []
    ensures InOrderOfTime(a[..|a| - 1]) && a == a[..|a| - 1] + [a[|a| - 1]]
  {
  }

  lemma OrderedFronts(a: seq<Row>, b: seq<Row>)
    requires InOrderOfTime(a) && InOrderOfTime(b) && multiset(a) == multiset(b) && a != []
    ensures b != [] && a[|a| - 1] == b[|b| - 1]
    ensures multiset(a[..|a| - 1]) == multiset(b[..|b| - 1])
  {
    LastIsSame(a, b);
    OrderedFront(a);
    OrderedFront(b);
    FrontsSameMultiset(a[..|a| - 1], b[..|b| - 1], a[|a| - 1]);
  }

  lemma {:induction false} OrderedIsUnique(a: seq<Row>, b: seq<Row>)
    requires InOrderOfTime(a) && InOrderOfTime(b) && multiset(a) == multiset(b)
    ensures a == b
    decreases |a|
  {
    if a == [] {
      assert |b| == |multiset(b)| == |multiset(a)|;
    } else {
      OrderedFronts(a, b);
      OrderedFront(a);
      OrderedFront(b);
      OrderedIsUnique(a[..|a| - 1], b[..|b| - 1]);
    }
  }

  lemma BareLastIff(rows: seq<Row>, found: seq<Row>)
    requires multiset(rows) == multiset(found) && InOrderOfTime(found)
    ensures BareLast(found) <==> BareNewest(rows)
  {
    if BareNewest(rows) {
      forall i, j | 0 <= i < j < |found| && found[i].hash == []
        ensures found[j].hash == []
      {
        assert found[i] in multiset(found) && found[j] in multiset(found);
        assert found[i] in rows && found[j] in rows;
      }
    }
    if BareLast(found) {
      forall i, j | 0 <= i < |rows| && 0 <= j < |rows| && rows[i].hash != [] && rows[j].hash == []
        ensures rows[i].createdAt < rows[j].createdAt
      {
        assert rows[i] in multiset(rows) && rows[j] in multiset(rows);
        var k :| 0 <= k < |found| && found[k] == rows[i];
        var l :| 0 <= l < |found| && found[l] == rows[j];
      }
    }
  }

  /**
    When no two rows of the tenant have one timestamp the verdict is settled by the run:
    the handlers wrote in the order of their timestamps, each having found the hash that
    was the last one, and every row of another service is newer than theirs.
   */
  lemma DistinctStampsVerifyIff(pepper: Text, steps: seq<Step>, tenant: string, found: seq<Row>)
    requires AllEnabled(pepper, INIT, steps) && StepsKept(steps, tenant)
    requires var rows := TenantLog(Run(pepper, INIT, steps).logs, tenant);
      && IsQueryResult(rows, found)
      && forall a, b :: a in rows && b in rows && a.id != b.id ==> a.createdAt != b.createdAt
    ensures var sys := Run(pepper, INIT, steps);
      Accepted(pepper, found) <==>
        && AllSerial(pepper, INIT, steps, tenant) && InOrderOfTime(TenantHashed(sys, tenant))
        && BareNewest(TenantLog(sys.logs, tenant))
  {
    var sys := Run(pepper, INIT, steps);
    var rows, hs := TenantLog(sys.logs, tenant), TenantHashed(sys, tenant);
    RunChainsIff(pepper, INIT, steps, tenant);
    LogVerifiesIffSerial(pepper, steps, tenant, found);
    FoundIsGenuine(pepper, sys, tenant, found);
    QueryIsStrict(rows, found);
    BareLastIff(rows, found);
    HashedInOrder(found);
    HashedSameMultiset(rows, found);
    if InOrderOfTime(hs) {
      OrderedIsUnique(HashedRows(found), hs);
    }
  }
}
