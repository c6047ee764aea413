/**
  The audit log: a hash chain per tenant, a verifier, and an anchor of the latest
  hash kept outside the database.  An empty text stands for a null column or an
  absent argument; the source treats both alike.
 */
module AuditChain {
  import opened Optional
  import opened HashText
  import opened JsonText

  const GENESIS: Text := Str("GENESIS_BLOCK_ROKAD_2026")

  datatype Row = Row(
    id: string, tenantId: string, userId: string, action: string, entity: string, entityId: string,
    createdAt: int, previousHash: Text, newValues: Option<Json>, hash: Text)

  function Or(t: Text, default: Text): Text
  {
    if t == [] then default else t
  }

  /** Values the runtime takes for absent. */
  predicate Truthy(v: Json)
  {
    match v
    case JNull => false
    case JBool(b) => b
    case JNum(n) => n != 0.0
    case JString(s) => s != ""
    case _ => true
  }

  /** Null, false, zero and the empty text stand for nothing; objects and arrays never do. */
  lemma TruthyIff(v: Json)
    ensures Truthy(v) <==> v != JNull && v != JBool(false) && v != JNum(0.0) && v != JString("")
  {
  }

  function PayloadText(v: Option<Json>): (t: Text)
  {
    if v.Some? && Truthy(v.value) then Render(v.value) else []
  }

  /** The first six hashed fields; a missing user has a default. */
  function Subject(row: Row): (fields: seq<string>)
    ensures |fields| == 6 && fields[2] != ""
  {
    [row.id, row.tenantId, if row.userId == "" then "SYSTEM" else row.userId, row.action, row.entity, row.entityId]
  }

  function Texts(fields: seq<string>): (ts: seq<Text>)
    ensures |ts| == |fields|
  {
    seq(|fields|, i requires 0 <= i < |fields| => Str(fields[i]))
  }

  /** The link as it is hashed. */
  function Link(row: Row): (link: Text)
    ensures link != []
  {
    Or(row.previousHash, GENESIS)
  }

  function Header(row: Row): (fields: seq<Text>)
  {
    Texts(Subject(row)) + [[Instant(row.createdAt)], Link(row)]
  }

  function Hashed(row: Row): (fields: seq<Text>)
  {
    Header(row) + [PayloadText(row.newValues)]
  }

  function ComputeAuditHash(pepper: Text, row: Row): (hash: Text)
  {
    [Digest(Join(Hashed(row) + [pepper]))]
  }

  /**
    What is hashed: ten fields with a separator between them; a missing user is `SYSTEM`, a
    missing link the genesis text, and a payload that stands for nothing the empty text.
   */
  lemma HashIs(pepper: Text, row: Row)
    ensures var user := if row.userId == "" then "SYSTEM" else row.userId;
      var link := if row.previousHash == [] then Str("GENESIS_BLOCK_ROKAD_2026") else row.previousHash;
      var payload := if row.newValues.Some? && Truthy(row.newValues.value) then Render(row.newValues.value) else [];
      ComputeAuditHash(pepper, row) == [Digest(Join([
        Str(row.id), Str(row.tenantId), Str(user), Str(row.action), Str(row.entity), Str(row.entityId),
        [Instant(row.createdAt)], link, payload, pepper]))]
  {
    var user := if row.userId == "" then "SYSTEM" else row.userId;
    assert Texts(Subject(row)) ==
      [Str(row.id), Str(row.tenantId), Str(user), Str(row.action), Str(row.entity), Str(row.entityId)];
    assert Hashed(row) + [pepper] == [
      Str(row.id), Str(row.tenantId), Str(user), Str(row.action), Str(row.entity), Str(row.entityId),
      [Instant(row.createdAt)], Link(row), PayloadText(row.newValues), pepper];
  }

  lemma HashIsNotGenesis(pepper: Text, row: Row)
    ensures ComputeAuditHash(pepper, row) != GENESIS && ComputeAuditHash(pepper, row) != []
  {
  }

  /** Equal hashes mean equal joined texts, whatever the pepper. */
  lemma HashDeterminesText(pepper: Text, a: Row, b: Row)
    requires ComputeAuditHash(pepper, a) == ComputeAuditHash(pepper, b)
    ensures Join(Hashed(a)) == Join(Hashed(b))
  {
    JoinCancels(Hashed(a), Hashed(b), pepper);
  }

  /******* The verifier *******/

  function ExpectedPrev(pepper: Text, logs: seq<Row>, i: nat): (prev: Text)
    requires i < |logs|
  {
    if i == 0 then GENESIS else Or(logs[i - 1].hash, ComputeAuditHash(pepper, logs[i - 1]))
  }

  predicate LinkOk(pepper: Text, logs: seq<Row>, i: nat)
    requires i < |logs|
  {
    logs[i].previousHash == [] || logs[i].previousHash == ExpectedPrev(pepper, logs, i)
  }

  predicate HashOk(pepper: Text, logs: seq<Row>, i: nat)
    requires i < |logs|
  {
    logs[i].hash == [] || logs[i].hash == ComputeAuditHash(pepper, logs[i])
  }

  predicate Accepted(pepper: Text, logs: seq<Row>)
  {
    forall i :: 0 <= i < |logs| ==> LinkOk(pepper, logs, i) && HashOk(pepper, logs, i)
  }

  datatype Report =
    | NoLogs
    | BrokenChainLink(at: nat)
    | HashMismatch(at: nat)
    | Intact(totalVerified: nat, lastRecordHash: Text, externalAnchorVerified: bool)

  lemma PrefixAccepted(pepper: Text, logs: seq<Row>, n: nat)
    requires n <= |logs|
    requires forall k :: 0 <= k < n ==> LinkOk(pepper, logs, k) && HashOk(pepper, logs, k)
    ensures Accepted(pepper, logs[..n])
  {
    forall k | 0 <= k < n
      ensures LinkOk(pepper, logs[..n], k) && HashOk(pepper, logs[..n], k)
    {
      assert LinkOk(pepper, logs, k) && HashOk(pepper, logs, k);
    }
  }

  /** `anchor` is the value read from the external store, empty when there is none. */
  method VerifyAuditLogIntegrity(pepper: Text, logs: seq<Row>, anchor: Text) returns (report: Report)
    ensures report.NoLogs? <==> logs == []
    ensures report.Intact? <==> logs != [] && Accepted(pepper, logs)
    ensures report.Intact? ==>
      && report.totalVerified == |logs| && report.lastRecordHash == logs[|logs| - 1].hash
      && (report.externalAnchorVerified <==> anchor == [] || anchor == logs[|logs| - 1].hash)
    ensures report.BrokenChainLink? ==>
      report.at < |logs| && Accepted(pepper, logs[..report.at]) && !LinkOk(pepper, logs, report.at)
    ensures report.HashMismatch? ==>
      report.at < |logs| && Accepted(pepper, logs[..report.at])
      && LinkOk(pepper, logs, report.at) && !HashOk(pepper, logs, report.at)
  {
    if |logs| == 0 {
      return NoLogs;
    }
    var expectedPrevHash := GENESIS;
    var i := 0;
    while i < |logs|
      invariant 0 <= i <= |logs|
      invariant i < |logs| ==> expectedPrevHash == ExpectedPrev(pepper, logs, i)
      invariant forall k :: 0 <= k < i ==> LinkOk(pepper, logs, k) && HashOk(pepper, logs, k)
    {
      PrefixAccepted(pepper, logs, i);
      assert LinkOk(pepper, logs, i) <==> logs[i].previousHash == [] || logs[i].previousHash == expectedPrevHash;
      if logs[i].previousHash != [] && logs[i].previousHash != expectedPrevHash {
        return BrokenChainLink(i);
      }
      var computedHash := ComputeAuditHash(pepper, logs[i]);
      assert HashOk(pepper, logs, i) <==> logs[i].hash == [] || logs[i].hash == computedHash;
      if logs[i].hash != [] && logs[i].hash != computedHash {
        return HashMismatch(i);
      }
      expectedPrevHash := Or(logs[i].hash, computedHash);
      i := i + 1;
    }
    var lastLogHash := logs[|logs| - 1].hash;
    report := Intact(|logs|, lastLogHash, anchor == [] || anchor == lastLogHash);
  }

  /******* Honest chains and hashed texts *******/

  predicate HonestAt(pepper: Text, rows: seq<Row>, i: nat)
    requires i < |rows|
  {
    rows[i].previousHash == ExpectedPrev(pepper, rows, i) && rows[i].hash == ComputeAuditHash(pepper, rows[i])
  }

  /** A chain as the append step writes it when the stored payload is the hashed one. */
  predicate HonestChain(pepper: Text, rows: seq<Row>)
  {
    forall i :: 0 <= i < |rows| ==> HonestAt(pepper, rows, i)
  }

  /** A link as the verifier accepts it: the first one, or a digest. */
  predicate IsLink(t: Text)
  {
    t == GENESIS || (|t| == 1 && t[0].Digest?)
  }

  function Front(row: Row): (t: Text)
  {
    Join(Texts(Subject(row)))
  }

  lemma HashedText(row: Row)
    ensures Join(Hashed(row)) ==
      Front(row) + [BAR] + ([Instant(row.createdAt)] + [BAR] + (Link(row) + [BAR] + PayloadText(row.newValues)))
  {
    var tail := [[Instant(row.createdAt)], Link(row), PayloadText(row.newValues)];
    assert Hashed(row) == Texts(Subject(row)) + tail;
    assert tail[1..] == [Link(row), PayloadText(row.newValues)];
    assert tail[1..][1..] == [PayloadText(row.newValues)];
    assert Join(tail[1..]) == Link(row) + [BAR] + PayloadText(row.newValues);
    assert Join(tail) == [Instant(row.createdAt)] + [BAR] + Join(tail[1..]);
    JoinSplit(Texts(Subject(row)), tail);
  }

  predicate Timeless(t: Text)
  {
    forall i :: 0 <= i < |t| ==> !t[i].Instant?
  }

  lemma {:induction false} JoinTimeless(fields: seq<Text>)
    requires forall i :: 0 <= i < |fields| ==> Timeless(fields[i])
    ensures Timeless(Join(fields))
  {
    if |fields| > 1 {
      JoinTimeless(fields[1..]);
      assert Timeless(fields[0]);
    }
  }

  lemma FrontIsTimeless(row: Row)
    ensures Timeless(Front(row))
  {
    var ts := Texts(Subject(row));
    forall i | 0 <= i < |ts|
      ensures Timeless(ts[i])
    {
    }
    JoinTimeless(ts);
  }

  /** Two timeless texts before an instant are the same when what starts with them is. */
  lemma CutAtInstant(a: Text, s: int, x: Text, b: Text, t: int, y: Text)
    requires Timeless(a) && Timeless(b)
    requires a + [BAR] + ([Instant(s)] + [BAR] + x) == b + [BAR] + ([Instant(t)] + [BAR] + y)
    ensures a == b && s == t && x == y
  {
    var p, q := a + [BAR] + ([Instant(s)] + [BAR] + x), b + [BAR] + ([Instant(t)] + [BAR] + y);
    assert p[|a| + 1] == Instant(s) && q[|b| + 1] == Instant(t);
    assert forall i :: 0 <= i <= |a| ==> !p[i].Instant?;
    assert forall i :: 0 <= i <= |b| ==> !q[i].Instant?;
    assert |a| == |b|;
    assert a == p[..|a|] && b == q[..|b|];
    assert x == p[|a| + 3..] && y == q[|b| + 3..];
  }

  lemma LinkIsClean(t: Text)
    requires IsLink(t)
    ensures Clean(t)
  {
  }

  /** The one instant and the link cut a hashed text into the same pieces for both rows, whatever bars they hold. */
  lemma TextDeterminesPieces(a: Row, b: Row)
    requires IsLink(Link(a)) && IsLink(Link(b))
    requires Join(Hashed(a)) == Join(Hashed(b))
    ensures Front(a) == Front(b) && a.createdAt == b.createdAt && Link(a) == Link(b)
    ensures PayloadText(a.newValues) == PayloadText(b.newValues)
  {
    HashedText(a);
    HashedText(b);
    FrontIsTimeless(a);
    FrontIsTimeless(b);
    var x, y := PayloadText(a.newValues), PayloadText(b.newValues);
    CutAtInstant(Front(a), a.createdAt, Link(a) + [BAR] + x, Front(b), b.createdAt, Link(b) + [BAR] + y);
    LinkIsClean(Link(a));
    LinkIsClean(Link(b));
    HeadIsDetermined(Link(a), Link(b), x, y);
  }

  // ------------------------------------------------------------------ readings of the first six fields

  predicate NoBar(s: string)
  {
    '|' !in s
  }

  /** No field holds the separator, or only the user id does and is nothing else. */
  predicate OneReading(f: seq<string>)
    requires |f| == 6
  {
    && NoBar(f[0]) && NoBar(f[1]) && NoBar(f[3]) && NoBar(f[4]) && NoBar(f[5])
    && (NoBar(f[2]) || f[2] == "|")
  }

  lemma StrInjective(a: string, b: string)
    requires Str(a) == Str(b)
    ensures a == b
  {
    assert |a| == |b|;
    assert forall i :: 0 <= i < |a| ==> Str(a)[i] == Ch(a[i]) && Str(b)[i] == Ch(b[i]);
  }

  lemma TextsInjective(f: seq<string>, g: seq<string>)
    requires Texts(f) == Texts(g)
    ensures f == g
  {
    assert |f| == |g|;
    forall i | 0 <= i < |f|
      ensures f[i] == g[i]
    {
      assert Texts(f)[i] == Texts(g)[i];
      StrInjective(f[i], g[i]);
    }
  }

  lemma NoBarIsClean(s: string)
    ensures NoBar(s) <==> Clean(Str(s))
  {
    if !NoBar(s) {
      var i :| 0 <= i < |s| && s[i] == '|';
      assert Str(s)[i] == BAR;
    }
  }

  lemma LoneBarSegments(t: Text)
    requires t == Str("|")
    ensures Segments(t) == [[], []]
  {
    assert t == [BAR] && t[1..] == [];
  }

  lemma NoBarIsOneSegment(s: string)
    requires NoBar(s)
    ensures Segments(Str(s)) == [Str(s)]
  {
    NoBarIsClean(s);
    CleanIsOneSegment(Str(s));
  }

  /** The seven segments of fields of which only the third holds the separator, and nothing else. */
  lemma SegmentsOfLone(f: seq<string>)
    requires |f| == 6 && OneReading(f) && f[2] == "|"
    ensures Segments(Str(f[0])) == [Str(f[0])] && Segments(Str(f[1])) == [Str(f[1])]
    ensures Segments(Str(f[3])) == [Str(f[3])] && Segments(Str(f[4])) == [Str(f[4])] &&
      Segments(Str(f[5])) == [Str(f[5])]
    ensures Segments(Join(Texts(f))) == [Str(f[0]), Str(f[1]), [], [], Str(f[3]), Str(f[4]), Str(f[5])]
  {
    SegmentsOfSix(Texts(f));
    NoBarIsOneSegment(f[0]);
    NoBarIsOneSegment(f[1]);
    NoBarIsOneSegment(f[3]);
    NoBarIsOneSegment(f[4]);
    NoBarIsOneSegment(f[5]);
    LoneBarSegments(Str(f[2]));
  }

  lemma SameSegmentsSameText(s: string, t: string)
    requires Segments(Str(s)) == Segments(Str(t))
    ensures s == t
  {
    SegmentsInjective(Str(s), Str(t));
    StrInjective(s, t);
  }

  /** A user id that is a lone separator has no other reading with a user in it. */
  lemma LoneUserHasOneReading(f: seq<string>, g: seq<string>)
    requires |f| == 6 && |g| == 6 && OneReading(f) && f[2] == "|" && g[2] != ""
    requires Join(Texts(f)) == Join(Texts(g))
    ensures f == g
  {
    SegmentsOfLone(f);
    SegmentsOfSix(Texts(g));
    JoinSegments(Str(g[2]));
    LoneGrouping(Segments(Str(g[0])), Segments(Str(g[1])), Segments(Str(g[2])), Segments(Str(g[3])),
        Segments(Str(g[4])), Segments(Str(g[5])), Segments(Join(Texts(f))));
    LoneBarSegments(Str(f[2]));
    SameSegmentsSameText(f[0], g[0]);
    SameSegmentsSameText(f[1], g[1]);
    SameSegmentsSameText(f[2], g[2]);
    SameSegmentsSameText(f[3], g[3]);
    SameSegmentsSameText(f[4], g[4]);
    SameSegmentsSameText(f[5], g[5]);
  }

  lemma OneReadingIsUnique(f: seq<string>, g: seq<string>)
    requires |f| == 6 && |g| == 6 && OneReading(f) && g[2] != ""
    requires Join(Texts(f)) == Join(Texts(g))
    ensures f == g
  {
    if f[2] == "|" {
      LoneUserHasOneReading(f, g);
    } else {
      forall i | 0 <= i < 6
        ensures Clean(Texts(f)[i])
      {
        NoBarIsClean(f[i]);
      }
      CleanHasUniqueReading(Texts(f));
      TextsInjective(f, g);
    }
  }

  function Shifted(f: seq<string>, i: nat, k: nat): (g: seq<string>)
    requires |f| == 6 && i < 5 && k < |f[i]|
    ensures |g| == 6
  {
    f[i := f[i][..k]][i + 1 := f[i][k + 1..] + "|" + f[i + 1]]
  }

  /** Moving the boundary after field `i` back to a separator inside it. */
  lemma ShiftedReads(f: seq<string>, i: nat, k: nat)
    requires |f| == 6 && i < 5 && k < |f[i]| && f[i][k] == '|'
    ensures Join(Texts(Shifted(f, i, k))) == Join(Texts(f)) && Shifted(f, i, k) != f
  {
    var x, y, z := f[i][..k], f[i][k + 1..], f[i + 1];
    assert f[i] == x + "|" + y;
    assert Str(f[i]) == Str(x) + [BAR] + Str(y);
    assert Str(y + "|" + z) == Str(y) + [BAR] + Str(z);
    var front, rest := Texts(f)[..i], Texts(f)[i + 2..];
    ShiftBoundary(front, Str(x), Str(y), Str(z), rest);
    assert Texts(f) == front + [Str(x) + [BAR] + Str(y), Str(z)] + rest;
    assert Texts(Shifted(f, i, k)) == front + [Str(x), Str(y) + [BAR] + Str(z)] + rest;
    assert |Shifted(f, i, k)[i]| < |f[i]|;
  }

  function Gathered(f: seq<string>, i: nat, k: nat): (g: seq<string>)
    requires |f| == 6 && 0 < i < 6 && k < |f[i]|
    ensures |g| == 6
  {
    f[i := f[i][k + 1..]][i - 1 := f[i - 1] + "|" + f[i][..k]]
  }

  /** Moving the boundary before field `i` on to a separator inside it. */
  lemma GatheredReads(f: seq<string>, i: nat, k: nat)
    requires |f| == 6 && 0 < i < 6 && k < |f[i]| && f[i][k] == '|'
    ensures Join(Texts(Gathered(f, i, k))) == Join(Texts(f)) && Gathered(f, i, k) != f
  {
    var x, y, z := f[i][..k], f[i][k + 1..], f[i - 1];
    assert f[i] == x + "|" + y;
    assert Str(f[i]) == Str(x) + [BAR] + Str(y);
    assert Str(z + "|" + x) == Str(z) + [BAR] + Str(x);
    var front, rest := Texts(f)[..i - 1], Texts(f)[i + 1..];
    ShiftBoundary(front, Str(z), Str(x), Str(y), rest);
    assert Texts(f) == front + [Str(z), Str(x) + [BAR] + Str(y)] + rest;
    assert Texts(Gathered(f, i, k)) == front + [Str(z) + [BAR] + Str(x), Str(y)] + rest;
    assert |Gathered(f, i, k)[i]| < |f[i]|;
  }

  /**
    Another reading that names the same row and tenant is at hand unless the bar is in one
    of them or opens the user id.
   */
  predicate BarBehindTenant(f: seq<string>)
    requires |f| == 6
  {
    !NoBar(f[3]) || !NoBar(f[4]) || !NoBar(f[5]) || (f[2] != "" && !NoBar(f[2][1..]))
  }

  lemma BarAt(s: string) returns (k: nat)
    requires !NoBar(s)
    ensures k < |s| && s[k] == '|'
  {
    k :| 0 <= k < |s| && s[k] == '|';
  }

  lemma OtherReading(f: seq<string>) returns (g: seq<string>)
    requires |f| == 6 && f[2] != "" && !OneReading(f)
    ensures |g| == 6 && g != f && g[2] != "" && Join(Texts(g)) == Join(Texts(f))
    ensures BarBehindTenant(f) ==> g[0] == f[0] && g[1] == f[1]
  {
    var k: nat;
    if !NoBar(f[3]) {
      k := BarAt(f[3]);
      ShiftedReads(f, 3, k);
      g := Shifted(f, 3, k);
    } else if !NoBar(f[4]) {
      k := BarAt(f[4]);
      ShiftedReads(f, 4, k);
      g := Shifted(f, 4, k);
    } else if !NoBar(f[5]) {
      k := BarAt(f[5]);
      GatheredReads(f, 5, k);
      g := Gathered(f, 5, k);
    } else if !NoBar(f[2][1..]) {
      k := BarAt(f[2][1..]);
      ShiftedReads(f, 2, k + 1);
      g := Shifted(f, 2, k + 1);
    } else if !NoBar(f[0]) {
      k := BarAt(f[0]);
      ShiftedReads(f, 0, k);
      g := Shifted(f, 0, k);
    } else if !NoBar(f[1]) {
      k := BarAt(f[1]);
      ShiftedReads(f, 1, k);
      g := Shifted(f, 1, k);
    } else {
      assert f[2] == [f[2][0]] + f[2][1..];
      GatheredReads(f, 2, 0);
      g := Gathered(f, 2, 0);
    }
  }

  // ------------------------------------------------------------------ tamper evidence

  predicate SafeRows(rows: seq<Row>)
  {
    forall i :: 0 <= i < |rows| ==> OneReading(Subject(rows[i]))
  }

  /** Any rows that pass the verifier, null links and hashes included, and end in the anchor of the honest chain. */
  predicate Passes(pepper: Text, honest: seq<Row>, found: seq<Row>)
    requires honest != []
  {
    found != [] && Accepted(pepper, found) && found[|found| - 1].hash == honest[|honest| - 1].hash
  }

  /** The last of the rows found are the honest ones in every hashed field. */
  predicate EndsIn(honest: seq<Row>, found: seq<Row>)
  {
    |honest| <= |found| &&
    forall j :: 0 <= j < |honest| ==> Hashed(found[|found| - |honest| + j]) == Hashed(honest[j])
  }

  predicate SameHashedContent(honest: seq<Row>, found: seq<Row>)
  {
    |honest| == |found| && EndsIn(honest, found)
  }

  /** No row behind the first lacks its link, which the verifier does not ask for. */
  predicate LinkedBehindFirst(rows: seq<Row>)
  {
    forall i :: 0 < i < |rows| ==> rows[i].previousHash != []
  }

  lemma AcceptedAt(pepper: Text, rows: seq<Row>, i: nat)
    requires Accepted(pepper, rows) && i < |rows|
    ensures rows[i].hash == [] || rows[i].hash == ComputeAuditHash(pepper, rows[i])
    ensures rows[i].previousHash != [] ==>
      rows[i].previousHash == if i == 0 then GENESIS else ComputeAuditHash(pepper, rows[i - 1])
    ensures IsLink(Link(rows[i]))
  {
    assert LinkOk(pepper, rows, i) && HashOk(pepper, rows, i);
    if i > 0 {
      assert HashOk(pepper, rows, i - 1);
    }
  }

  lemma HonestLinks(pepper: Text, honest: seq<Row>, i: nat)
    requires HonestChain(pepper, honest) && i < |honest|
    ensures honest[i].hash == ComputeAuditHash(pepper, honest[i]) && honest[i].hash != []
    ensures honest[i].previousHash == if i == 0 then GENESIS else honest[i - 1].hash
    ensures honest[i].previousHash != [] && (honest[i].previousHash == GENESIS <==> i == 0)
    ensures IsLink(Link(honest[i]))
  {
    assert HonestAt(pepper, honest, i);
    assert |GENESIS| == 24;
    if i > 0 {
      assert HonestAt(pepper, honest, i - 1);
      HashIsNotGenesis(pepper, honest[i - 1]);
    }
  }

  predicate SamePieces(a: Row, b: Row)
  {
    && Front(a) == Front(b) && a.createdAt == b.createdAt && Link(a) == Link(b)
    && PayloadText(a.newValues) == PayloadText(b.newValues)
  }

  predicate SameFrom(honest: seq<Row>, found: seq<Row>, d: nat)
    requires d + |honest| <= |found|
  {
    forall k :: 0 <= k < |honest| ==> SamePieces(honest[k], found[d + k])
  }

  lemma EqualHashesGoDown(pepper: Text, honest: seq<Row>, found: seq<Row>, i: nat, j: nat)
    requires HonestChain(pepper, honest) && Accepted(pepper, found) && i < |honest| && j < |found|
    requires ComputeAuditHash(pepper, honest[i]) == ComputeAuditHash(pepper, found[j])
    ensures SamePieces(honest[i], found[j])
    ensures i == 0 && j > 0 ==> found[j].previousHash == []
    ensures i > 0 ==>
      && j > 0 && found[j].previousHash != []
      && ComputeAuditHash(pepper, honest[i - 1]) == ComputeAuditHash(pepper, found[j - 1])
  {
    HonestLinks(pepper, honest, i);
    AcceptedAt(pepper, found, j);
    HashDeterminesText(pepper, honest[i], found[j]);
    TextDeterminesPieces(honest[i], found[j]);
    if i > 0 {
      HonestLinks(pepper, honest, i - 1);
    } else if j > 0 {
      HashIsNotGenesis(pepper, found[j - 1]);
    }
  }

  /**
    A row found that hashes as an honest one has the same pieces, and so have the rows
    before both, down to the first honest one; what is in front of that is behind a
    missing link.
   */
  lemma {:induction false} HashesAgreeDownwards(pepper: Text, honest: seq<Row>, found: seq<Row>, i: nat, j: nat, k: nat)
    requires HonestChain(pepper, honest) && Accepted(pepper, found) && k <= i < |honest| && j < |found|
    requires ComputeAuditHash(pepper, honest[i]) == ComputeAuditHash(pepper, found[j])
    ensures i - k <= j && SamePieces(honest[k], found[j - (i - k)])
    ensures k > 0 ==> i - k < j && found[j - (i - k)].previousHash != []
    ensures k == 0 && i < j ==> found[j - i].previousHash == []
    decreases i
  {
    EqualHashesGoDown(pepper, honest, found, i, j);
    if k < i {
      HashesAgreeDownwards(pepper, honest, found, i - 1, j - 1, k);
    }
  }

  lemma LastHashesAgree(pepper: Text, honest: seq<Row>, found: seq<Row>)
    requires HonestChain(pepper, honest) && honest != [] && Passes(pepper, honest, found)
    ensures ComputeAuditHash(pepper, honest[|honest| - 1]) == ComputeAuditHash(pepper, found[|found| - 1])
  {
    HonestLinks(pepper, honest, |honest| - 1);
    AcceptedAt(pepper, found, |found| - 1);
  }

  lemma OneMissingLink(found: seq<Row>, k: nat)
    requires k < |found| && (k > 0 ==> found[k].previousHash == [])
    requires forall i :: k < i < |found| ==> found[i].previousHash != []
    ensures k == 0 <==> LinkedBehindFirst(found)
  {
  }

  lemma TailRow(pepper: Text, honest: seq<Row>, found: seq<Row>, k: nat)
    requires HonestChain(pepper, honest) && k < |honest| && Passes(pepper, honest, found)
    ensures |honest| <= |found| && SamePieces(honest[k], found[|found| - |honest| + k])
    ensures k > 0 ==> found[|found| - |honest| + k].previousHash != []
    ensures k == 0 && |honest| < |found| ==> found[|found| - |honest|].previousHash == []
  {
    var n, m := |honest| - 1, |found| - 1;
    LastHashesAgree(pepper, honest, found);
    HashesAgreeDownwards(pepper, honest, found, n, m, 0);
    HashesAgreeDownwards(pepper, honest, found, n, m, k);
    assert m - (n - k) == |found| - |honest| + k;
  }

  lemma TailIsSame(pepper: Text, honest: seq<Row>, found: seq<Row>)
    requires HonestChain(pepper, honest) && honest != [] && Passes(pepper, honest, found)
    ensures |honest| <= |found| && SameFrom(honest, found, |found| - |honest|)
  {
    TailRow(pepper, honest, found, 0);
    forall k | 0 <= k < |honest|
      ensures SamePieces(honest[k], found[|found| - |honest| + k])
    {
      TailRow(pepper, honest, found, k);
    }
  }

  lemma TailIsLinked(pepper: Text, honest: seq<Row>, found: seq<Row>)
    requires HonestChain(pepper, honest) && honest != [] && Passes(pepper, honest, found) && |honest| <= |found|
    ensures |honest| < |found| ==> found[|found| - |honest|].previousHash == []
    ensures |honest| == |found| <==> LinkedBehindFirst(found)
  {
    var d := |found| - |honest|;
    TailRow(pepper, honest, found, 0);
    forall i | d < i < |found|
      ensures found[i].previousHash != []
    {
      TailRow(pepper, honest, found, i - d);
    }
    OneMissingLink(found, d);
  }

  lemma SamePiecesOneReading(a: Row, b: Row)
    requires SamePieces(a, b) && OneReading(Subject(a))
    ensures Hashed(a) == Hashed(b)
  {
    OneReadingIsUnique(Subject(a), Subject(b));
  }

  lemma PiecesGiveContent(honest: seq<Row>, found: seq<Row>)
    requires SafeRows(honest) && |honest| <= |found| && SameFrom(honest, found, |found| - |honest|)
    ensures EndsIn(honest, found)
  {
    forall j | 0 <= j < |honest|
      ensures Hashed(found[|found| - |honest| + j]) == Hashed(honest[j])
    {
      SamePiecesOneReading(honest[j], found[|found| - |honest| + j]);
    }
  }

  /**
    Tamper evidence: any rows that pass against an honest chain without stray
    separators end in that chain, in every hashed field, so an edit, deletion,
    reordering or truncation is caught, and an insertion unless it is in front of the
    first row; and they are that chain, row for row, if and only if no link is missing
    behind their first row.
   */
  lemma TamperEvidence(pepper: Text, honest: seq<Row>, found: seq<Row>)
    requires HonestChain(pepper, honest) && honest != [] && SafeRows(honest)
    requires Passes(pepper, honest, found)
    ensures EndsIn(honest, found)
    ensures SameHashedContent(honest, found) <==> LinkedBehindFirst(found)
    ensures |honest| < |found| ==> found[|found| - |honest|].previousHash == []
  {
    TailIsSame(pepper, honest, found);
    TailIsLinked(pepper, honest, found);
    PiecesGiveContent(honest, found);
  }

  // ------------------------------------------------------------------ what else passes

  lemma SameTextSameHash(pepper: Text, a: Row, b: Row)
    requires SamePieces(a, b)
    ensures ComputeAuditHash(pepper, a) == ComputeAuditHash(pepper, b)
  {
    HashedText(a);
    HashedText(b);
    JoinSnoc(Hashed(a), pepper);
    JoinSnoc(Hashed(b), pepper);
  }

  lemma SameHashedSamePieces(a: Row, b: Row)
    requires Hashed(a) == Hashed(b)
    ensures SamePieces(a, b)
  {
    assert Texts(Subject(a)) == Hashed(a)[..6] && Texts(Subject(b)) == Hashed(b)[..6];
    assert Hashed(a)[6] == [Instant(a.createdAt)] && Hashed(b)[6] == [Instant(b.createdAt)];
    assert Hashed(a)[7] == Link(a) && Hashed(b)[7] == Link(b);
    assert Hashed(a)[8] == PayloadText(a.newValues) && Hashed(b)[8] == PayloadText(b.newValues);
  }

  /** The rows from `k` on have the pieces of the honest rows, and hashes that are theirs or null, the last not. */
  predicate StandsFor(honest: seq<Row>, found: seq<Row>, k: nat)
  {
    && honest != [] && |found| == k + |honest|
    && (forall j :: 0 <= j < |honest| ==>
      SamePieces(honest[j], found[k + j]) && (found[k + j].hash == [] || found[k + j].hash == honest[j].hash))
    && found[|found| - 1].hash == honest[|honest| - 1].hash
  }

  lemma StandInAt(pepper: Text, honest: seq<Row>, found: seq<Row>, k: nat, j: nat)
    requires HonestChain(pepper, honest) && StandsFor(honest, found, k) && j < |honest|
    requires k > 0 ==> found[k].previousHash == []
    ensures LinkOk(pepper, found, k + j) && HashOk(pepper, found, k + j)
  {
    HonestLinks(pepper, honest, j);
    SameTextSameHash(pepper, honest[j], found[k + j]);
    if j > 0 {
      HonestLinks(pepper, honest, j - 1);
      assert SamePieces(honest[j - 1], found[k + (j - 1)]);
      SameTextSameHash(pepper, honest[j - 1], found[k + (j - 1)]);
    }
  }

  /** Such rows pass behind any accepted rows if their first link is missing or nothing is in front of them. */
  lemma StandInPasses(pepper: Text, honest: seq<Row>, found: seq<Row>, k: nat)
    requires HonestChain(pepper, honest) && StandsFor(honest, found, k)
    requires Accepted(pepper, found[..k]) && (k > 0 ==> found[k].previousHash == [])
    ensures Passes(pepper, honest, found)
  {
    forall i | 0 <= i < |found|
      ensures LinkOk(pepper, found, i) && HashOk(pepper, found, i)
    {
      if i < k {
        assert LinkOk(pepper, found[..k], i) && HashOk(pepper, found[..k], i);
      } else {
        StandInAt(pepper, honest, found, k, i - k);
      }
    }
  }

  lemma RowStandsIn(pepper: Text, honest: seq<Row>, found: seq<Row>, j: nat)
    requires HonestChain(pepper, honest) && Accepted(pepper, found) && EndsIn(honest, found) && j < |honest|
    ensures var row := found[|found| - |honest| + j];
      SamePieces(honest[j], row) && (row.hash == [] || row.hash == honest[j].hash)
  {
    var row := found[|found| - |honest| + j];
    SameHashedSamePieces(honest[j], row);
    SameTextSameHash(pepper, honest[j], row);
    AcceptedAt(pepper, found, |found| - |honest| + j);
    HonestLinks(pepper, honest, j);
  }

  lemma TailStandsFor(pepper: Text, honest: seq<Row>, found: seq<Row>)
    requires HonestChain(pepper, honest) && honest != [] && Accepted(pepper, found) && EndsIn(honest, found)
    requires found[|found| - 1].hash == honest[|honest| - 1].hash
    ensures StandsFor(honest, found, |found| - |honest|)
  {
    forall j | 0 <= j < |honest|
      ensures var row := found[|found| - |honest| + j];
        SamePieces(honest[j], row) && (row.hash == [] || row.hash == honest[j].hash)
    {
      RowStandsIn(pepper, honest, found, j);
    }
  }

  lemma PassesStandsIn(pepper: Text, honest: seq<Row>, found: seq<Row>)
    requires HonestChain(pepper, honest) && honest != [] && SafeRows(honest) && Passes(pepper, honest, found)
    ensures EndsIn(honest, found)
    ensures var k := |found| - |honest|;
      StandsFor(honest, found, k) && Accepted(pepper, found[..k]) && (k > 0 ==> found[k].previousHash == [])
  {
    TamperEvidence(pepper, honest, found);
    TailStandsFor(pepper, honest, found);
    PrefixAccepted(pepper, found, |found| - |honest|);
  }

  /**
    Exactly what passes against an honest chain without stray separators: its own
    content, with hashes left out but the last, behind any accepted rows if the first
    link is left out too.
   */
  lemma PassesIff(pepper: Text, honest: seq<Row>, found: seq<Row>)
    requires HonestChain(pepper, honest) && honest != [] && SafeRows(honest)
    ensures Passes(pepper, honest, found) <==>
      |honest| <= |found| && var k := |found| - |honest|;
      StandsFor(honest, found, k) && Accepted(pepper, found[..k]) && (k > 0 ==> found[k].previousHash == [])
  {
    if Passes(pepper, honest, found) {
      PassesStandsIn(pepper, honest, found);
    } else if |honest| <= |found| {
      var k := |found| - |honest|;
      if StandsFor(honest, found, k) && Accepted(pepper, found[..k]) && (k > 0 ==> found[k].previousHash == []) {
        StandInPasses(pepper, honest, found, k);
      }
    }
  }

  /** Against every honest chain rows can be put in front: the first link is taken out, which hashes as before. */
  lemma RowsInFrontPass(pepper: Text, honest: seq<Row>, extra: seq<Row>)
    requires HonestChain(pepper, honest) && honest != [] && extra != [] && Accepted(pepper, extra)
    ensures var found := extra + honest[0 := honest[0].(previousHash := [])];
      Passes(pepper, honest, found) && !SameHashedContent(honest, found)
  {
    var tail := honest[0 := honest[0].(previousHash := [])];
    var found, k := extra + tail, |extra|;
    assert found[..k] == extra;
    HonestLinks(pepper, honest, 0);
    forall j | 0 <= j < |honest|
      ensures SamePieces(honest[j], found[k + j]) && found[k + j].hash == honest[j].hash
    {
      assert found[k + j] == tail[j];
      assert Subject(tail[j]) == Subject(honest[j]);
    }
    StandInPasses(pepper, honest, found, k);
  }

  /** Rows without links and hashes are accepted, whatever they say. */
  lemma UnhashedAreAccepted(pepper: Text, rows: seq<Row>)
    requires forall i :: 0 <= i < |rows| ==> rows[i].previousHash == [] && rows[i].hash == []
    ensures Accepted(pepper, rows)
  {
    forall i | 0 <= i < |rows|
      ensures LinkOk(pepper, rows, i) && HashOk(pepper, rows, i)
    {
    }
  }

  function WithSubject(row: Row, f: seq<string>): (row': Row)
    requires |f| == 6
  {
    row.(id := f[0], tenantId := f[1], userId := f[2], action := f[3], entity := f[4], entityId := f[5])
  }

  lemma ReplacedRowPasses(pepper: Text, honest: seq<Row>, i: nat, row: Row)
    requires HonestChain(pepper, honest) && i < |honest|
    requires SamePieces(honest[i], row) && row.hash == honest[i].hash && row.previousHash == honest[i].previousHash
    ensures Passes(pepper, honest, honest[i := row]) && LinkedBehindFirst(honest[i := row])
  {
    var found := honest[i := row];
    assert found[..0] == [];
    StandInPasses(pepper, honest, found, 0);
    forall k | 0 < k < |found|
      ensures found[k].previousHash != []
    {
      HonestLinks(pepper, honest, k);
    }
  }

  lemma OtherSubjectOtherContent(a: Row, b: Row)
    requires Subject(a) != Subject(b)
    ensures Hashed(a) != Hashed(b)
  {
    if Hashed(a) == Hashed(b) {
      assert Texts(Subject(a)) == Hashed(a)[..6] && Texts(Subject(b)) == Hashed(b)[..6];
      TextsInjective(Subject(a), Subject(b));
    }
  }

  /** One stray separator in an honest row is enough for other rows to pass in its place. */
  lemma StraySeparatorHidesAnEdit(pepper: Text, honest: seq<Row>, i: nat) returns (found: seq<Row>)
    requires HonestChain(pepper, honest) && i < |honest| && !OneReading(Subject(honest[i]))
    ensures Passes(pepper, honest, found) && !EndsIn(honest, found)
    ensures |found| == |honest| && LinkedBehindFirst(found)
    ensures BarBehindTenant(Subject(honest[i])) ==>
      forall k :: 0 <= k < |found| ==> found[k].id == honest[k].id && found[k].tenantId == honest[k].tenantId
  {
    var g := OtherReading(Subject(honest[i]));
    var row := WithSubject(honest[i], g);
    assert Subject(row) == g && Front(row) == Front(honest[i]);
    found := honest[i := row];
    ReplacedRowPasses(pepper, honest, i, row);
    OtherSubjectOtherContent(row, honest[i]);
    assert Hashed(found[|found| - |honest| + i]) != Hashed(honest[i]);
  }

  /**
    The anchor of an honest chain proves the content of the last rows found, and of all
    of them when no link is missing behind the first, if and only if the chain is free
    of stray separators.
   */
  lemma AnchorIsEvidenceIff(pepper: Text, honest: seq<Row>)
    requires HonestChain(pepper, honest) && honest != []
    ensures (forall found :: Passes(pepper, honest, found) ==> EndsIn(honest, found)) <==> SafeRows(honest)
    ensures (forall found :: Passes(pepper, honest, found) && LinkedBehindFirst(found) ==>
      SameHashedContent(honest, found)) <==> SafeRows(honest)
  {
    if SafeRows(honest) {
      forall found | Passes(pepper, honest, found)
        ensures EndsIn(honest, found) && (SameHashedContent(honest, found) <==> LinkedBehindFirst(found))
      {
        TamperEvidence(pepper, honest, found);
      }
    } else {
      var i :| 0 <= i < |honest| && !OneReading(Subject(honest[i]));
      var found := StraySeparatorHidesAnEdit(pepper, honest, i);
    }
  }
}
