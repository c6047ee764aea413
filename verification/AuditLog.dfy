/**
  Recording audit events: many tenants interleaved in one table, one chain and
  one anchor for each, among rows that other services write without hashes.
  Entries are written one at a time with strictly increasing timestamps.
 */
module AuditLog {
  import opened Decimals
  import opened HashText
  import opened JsonText
  import opened AuditChain
  import opened Optional
  import opened Utf8

  /** An absent payload is `None`; an empty text stands for an absent argument. */
  datatype Event = Event(
    tenantId: string, userId: string, action: string, entity: string, entityId: string,
    newValues: Option<Json>, appVersion: string)

  /** An event with the id and the instant the service gives it. */
  datatype Stamped = Stamped(event: Event, logId: string, now: int)

  // ------------------------------------------------------------------ what is stored

  /** An array spread into an object gives its indices as keys. */
  function Indexed(items: Items, from: nat): (ms: Members)
    decreases items
  {
    match items
    case NoItems => NoMembers
    case Item(value, rest) => Member(Decimal(from), value, Indexed(rest, from + 1))
  }

  function ItemAt(items: Items, i: nat): (v: Option<Json>)
    decreases items
  {
    match items
    case NoItems => None
    case Item(value, rest) => if i == 0 then Some(value) else ItemAt(rest, i - 1)
  }

  function MemberAt(members: Members, i: nat): (m: Option<(string, Json)>)
    decreases members
  {
    match members
    case NoMembers => None
    case Member(key, value, rest) => if i == 0 then Some((key, value)) else MemberAt(rest, i - 1)
  }

  /** The i-th item of an array becomes the i-th member, under its index. */
  lemma {:induction false} IndexedAt(items: Items, from: nat, i: nat)
    ensures MemberAt(Indexed(items, from), i) ==
      if ItemAt(items, i).None? then None else Some((Decimal(from + i), ItemAt(items, i).value))
    decreases items
  {
    if items.Item? && i > 0 {
      IndexedAt(items.rest, from + 1, i - 1);
    }
  }

  /** The members of an object or array, else the value under the key `value`. */
  function Spread(v: Option<Json>): (ms: Members)
  {
    match v
    case None => NoMembers
    case Some(JObject(members)) => members
    case Some(JArray(items)) => Indexed(items, 0)
    case Some(other) => Member("value", other, NoMembers)
  }

  lemma ArraySpreads(items: Items, i: nat)
    ensures MemberAt(Spread(Some(JArray(items))), i) ==
      if ItemAt(items, i).None? then None else Some((Decimal(i), ItemAt(items, i).value))
  {
    IndexedAt(items, 0, i);
  }

  predicate Given(v: Option<Json>)
  {
    v.Some? && Truthy(v.value)
  }

  /** What the service writes to the column. */
  function Written(e: Event): (data: Option<Json>)
  {
    if !Given(e.newValues) && e.appVersion == "" then None
    else
      var members := Spread(e.newValues);
      Some(JObject(if e.appVersion == "" then members else Assigned(members, "_appVersion", JString(e.appVersion))))
  }

  /** What the column gives back. */
  function ReadBack(e: Event): (v: Option<Json>)
  {
    if Written(e).None? then None else Some(Stored(Written(e).value))
  }

  /**
    Nothing given and no version; or an object whose keys are in storage order and which
    holds the version, if there is one, itself.
   */
  predicate KeptAsHashed(e: Event)
  {
    if !Given(e.newValues) then e.appVersion == ""
    else
      && e.newValues.value.JObject? && InOrder(e.newValues.value)
      && (e.appVersion != "" ==> Holds(e.newValues.value.members, "_appVersion", JString(e.appVersion)))
  }

  lemma ObjectReadBack(e: Event)
    requires Given(e.newValues) && e.newValues.value.JObject?
    ensures ReadBack(e) == e.newValues <==> KeptAsHashed(e)
  {
    var members := e.newValues.value.members;
    if e.appVersion == "" {
      StoredUnchangedIffInOrder(e.newValues.value);
    } else {
      StoredWithUnchangedIff(members, "_appVersion", e.appVersion);
    }
  }

  /** The payload text read back is the one that was hashed exactly for these events. */
  lemma ReadBackAsHashedIff(e: Event)
    ensures PayloadText(ReadBack(e)) == PayloadText(e.newValues) <==> KeptAsHashed(e)
  {
    if ReadBack(e).Some? {
      FirstSymbol(ReadBack(e).value, []);
    }
    if Given(e.newValues) {
      FirstSymbol(e.newValues.value, []);
      if e.newValues.value.JObject? {
        ObjectReadBack(e);
        if PayloadText(ReadBack(e)) == PayloadText(e.newValues) {
          RenderInjective(ReadBack(e).value, e.newValues.value);
        }
      }
    }
  }

  /** The row of an event as it is read back, when the chain ends in `previousHash`. */
  function RowFor(pepper: Text, s: Stamped, previousHash: Text): (row: Row)
  {
    var e := s.event;
    var hashed := Row(s.logId, e.tenantId, e.userId, e.action, e.entity, e.entityId, s.now, previousHash,
        e.newValues, []);
    hashed.(newValues := ReadBack(e), hash := ComputeAuditHash(pepper, hashed))
  }

  /** The row has the fields of the event, the id and instant it was given, and the link. */
  lemma RowIs(pepper: Text, s: Stamped, previousHash: Text)
    ensures var row, e := RowFor(pepper, s, previousHash), s.event;
      && row.id == s.logId && row.createdAt == s.now && row.previousHash == previousHash
      && row.tenantId == e.tenantId && row.userId == e.userId && row.action == e.action && row.entity == e.entity
      && row.entityId == e.entityId && row.newValues == ReadBack(e)
      && row.hash == ComputeAuditHash(pepper, row.(newValues := e.newValues))
  {
    var hashed := Row(s.logId, s.event.tenantId, s.event.userId, s.event.action, s.event.entity, s.event.entityId,
        s.now, previousHash, s.event.newValues, []);
    assert Hashed(hashed) == Hashed(RowFor(pepper, s, previousHash).(newValues := s.event.newValues));
  }

  lemma {:induction false} ReplacedKeeps(members: Members, k: string, v: Json, key: string, value: Json)
    requires key != k
    ensures Has(Replaced(members, k, v), key) <==> Has(members, key)
    ensures Only(members, key, value) ==> Only(Replaced(members, k, v), key, value)
  {
    if members.Member? {
      ReplacedKeeps(members.rest, k, v, key, value);
    }
  }

  lemma {:induction false} AppendedKeeps(members: Members, k: string, v: Json, key: string, value: Json)
    requires key != k
    ensures Has(Appended(members, k, v), key) <==> Has(members, key)
    ensures Only(members, key, value) ==> Only(Appended(members, k, v), key, value)
  {
    if members.Member? {
      AppendedKeeps(members.rest, k, v, key, value);
    }
  }

  lemma {:induction false} AssignedKeeps(members: Members, k: string, v: Json, key: string, value: Json)
    requires key != k && Holds(members, key, value)
    ensures Holds(Assigned(members, k, v), key, value)
  {
    if Has(members, k) {
      ReplacedKeeps(members, k, v, key, value);
    } else {
      AppendedKeeps(members, k, v, key, value);
    }
  }

  /**
    What the column gives back: nothing for an event without payload and version; else an
    object with the members of the payload, or a payload of another kind under `value`,
    and the version, if there is one, in its own place.
   */
  lemma ReadBackHolds(e: Event, key: string, value: Json)
    ensures ReadBack(e) == None <==> !Given(e.newValues) && e.appVersion == ""
    ensures ReadBack(e) != None ==>
      && ReadBack(e).value.JObject?
      && (e.appVersion != "" ==> Holds(ReadBack(e).value.members, "_appVersion", JString(e.appVersion)))
      && (key != "_appVersion" || e.appVersion == "" ==>
        && (e.newValues.Some? && e.newValues.value.JObject? && Holds(e.newValues.value.members, key, value) ==>
          Holds(ReadBack(e).value.members, key, Stored(value)))
        && (e.newValues == Some(value) && !value.JObject? && !value.JArray? ==>
          Holds(ReadBack(e).value.members, "value", value)))
  {
    if ReadBack(e).Some? {
      var members := Spread(e.newValues);
      var written := if e.appVersion == "" then members else Assigned(members, "_appVersion", JString(e.appVersion));
      if e.appVersion != "" {
        AssignedHolds(members, "_appVersion", JString(e.appVersion));
        StoredHolds(written, "_appVersion", JString(e.appVersion));
      }
      if Holds(members, key, value) {
        if e.appVersion != "" && key != "_appVersion" {
          AssignedKeeps(members, "_appVersion", JString(e.appVersion), key, value);
        }
        if Holds(written, key, value) {
          StoredHolds(written, key, value);
        }
      }
      if e.newValues == Some(value) && !value.JObject? && !value.JArray? {
        if e.appVersion != "" {
          AssignedKeeps(members, "_appVersion", JString(e.appVersion), "value", value);
        }
        StoredHolds(written, "value", value);
      }
    }
  }

  /** A recorded row passes the verifier's recomputation exactly when its payload comes back as it was hashed. */
  lemma RowVerifiesIffKept(pepper: Text, s: Stamped, previousHash: Text)
    ensures RowFor(pepper, s, previousHash).hash == ComputeAuditHash(pepper, RowFor(pepper, s, previousHash))
      <==> KeptAsHashed(s.event)
  {
    var row := RowFor(pepper, s, previousHash);
    var hashed := row.(newValues := s.event.newValues, hash := []);
    ReadBackAsHashedIff(s.event);
    assert Header(row) == Header(hashed);
    if row.hash == ComputeAuditHash(pepper, row) {
      HashDeterminesText(pepper, hashed, row);
      JoinLastInjective(Header(row), PayloadText(row.newValues), PayloadText(hashed.newValues));
    }
  }

  lemma {:induction false} AsciiLength(s: string)
    requires forall i :: 0 <= i < |s| ==> s[i] < '\U{80}'
    ensures Utf8Length(s) == |s|
  {
    if s != "" {
      AsciiLength(s[1..]);
    }
  }

  lemma LetterIsNoIndex(key: string)
    requires key != "" && !IsDigit(key[0])
    ensures !IsIndex(key)
  {
  }

  lemma LongerKeyIsNotBefore()
    ensures !Before("schoolName", "slug")
  {
    var a, b := "schoolName", "slug";
    AsciiLength(a);
    AsciiLength(b);
    assert a[0] == 's' && b[0] == 's';
    LetterIsNoIndex(a);
    LetterIsNoIndex(b);
    assert |a| == 10 && |b| == 4;
  }

  lemma NamesOutOfOrder(v: Json, rest: Members)
    requires rest.Member? && rest.key == "slug"
    ensures !InOrder(JObject(Member("schoolName", v, rest)))
  {
    LongerKeyIsNotBefore();
  }

  /**
    The registration of a school is such an event: its payload names `schoolName`
    before `slug`, the shorter key is read back first, and the untouched row fails.
   */
  lemma RegistrationFailsVerification(pepper: Text, s: Stamped, previousHash: Text, schoolName: string, slug: string)
    requires s.event.newValues ==
      Some(JObject(Member("schoolName", JString(schoolName), Member("slug", JString(slug), NoMembers))))
    ensures RowFor(pepper, s, previousHash).hash != ComputeAuditHash(pepper, RowFor(pepper, s, previousHash))
  {
    NamesOutOfOrder(JString(schoolName), Member("slug", JString(slug), NoMembers));
    assert !KeptAsHashed(s.event);
    RowVerifiesIffKept(pepper, s, previousHash);
  }

  // ------------------------------------------------------------------ the table

  datatype Store = Store(logs: seq<Row>, anchors: map<string, Text>)

  const EMPTY: Store := Store([], map[])

  /** What is written to the table: an event by the audit service, or a row by a service that writes its own. */
  datatype Entry = Recorded(s: Stamped) | Bare(row: Row)

  function TenantOf(e: Entry): (tenant: string)
  {
    if e.Recorded? then e.s.event.tenantId else e.row.tenantId
  }

  /** The row of an entry; other services leave link and hash out. */
  function EntryRow(pepper: Text, e: Entry, previousHash: Text): (row: Row)
  {
    match e
    case Recorded(s) => RowFor(pepper, s, previousHash)
    case Bare(row) => row.(previousHash := [], hash := [])
  }

  /** The verifier's query: one tenant's rows in the order of their timestamps. */
  function TenantLog(logs: seq<Row>, tenant: string): (rows: seq<Row>)
  {
    if logs == [] then []
    else
      var rest := TenantLog(logs[..|logs| - 1], tenant);
      if logs[|logs| - 1].tenantId == tenant then rest + [logs[|logs| - 1]] else rest
  }

  function TipHash(rows: seq<Row>): (hash: Text)
  {
    if rows == [] then GENESIS else Or(rows[|rows| - 1].hash, GENESIS)
  }

  function Append(pepper: Text, st: Store, e: Entry): (st': Store)
  {
    var row := EntryRow(pepper, e, TipHash(TenantLog(st.logs, TenantOf(e))));
    match e
    case Recorded(s) =>
      if s.event.tenantId == "" then st else Store(st.logs + [row], st.anchors[s.event.tenantId := row.hash])
    case Bare(_) => st.(logs := st.logs + [row])
  }

  function Record(pepper: Text, es: seq<Entry>): (st: Store)
  {
    if es == [] then EMPTY else Append(pepper, Record(pepper, es[..|es| - 1]), es[|es| - 1])
  }

  function TenantEntries(es: seq<Entry>, tenant: string): (own: seq<Entry>)
  {
    if es == [] then []
    else
      var rest := TenantEntries(es[..|es| - 1], tenant);
      if TenantOf(es[|es| - 1]) == tenant then rest + [es[|es| - 1]] else rest
  }

  /** The last hash in the rows, if any has one. */
  function LastHash(rows: seq<Row>): (hash: Text)
  {
    if rows == [] then [] else Or(rows[|rows| - 1].hash, LastHash(rows[..|rows| - 1]))
  }

  /** The value kept outside the database, empty when there is none. */
  function Anchor(st: Store, tenant: string): (anchor: Text)
  {
    if tenant in st.anchors then st.anchors[tenant] else []
  }

  predicate LogAt(pepper: Text, rows: seq<Row>, own: seq<Entry>, i: nat)
    requires i < |rows| && i < |own|
  {
    rows[i] == EntryRow(pepper, own[i], TipHash(rows[..i]))
  }

  predicate LogOf(pepper: Text, rows: seq<Row>, own: seq<Entry>)
  {
    |rows| == |own| && forall i :: 0 <= i < |rows| ==> LogAt(pepper, rows, own, i)
  }

  lemma ExtendLog(pepper: Text, rows: seq<Row>, own: seq<Entry>, e: Entry)
    requires LogOf(pepper, rows, own)
    ensures LogOf(pepper, rows + [EntryRow(pepper, e, TipHash(rows))], own + [e])
  {
    var rows', own' := rows + [EntryRow(pepper, e, TipHash(rows))], own + [e];
    forall i | 0 <= i < |rows'|
      ensures LogAt(pepper, rows', own', i)
    {
      assert rows'[..i] == rows[..i];
      if i == |rows| {
        assert rows[..i] == rows;
      } else {
        assert LogAt(pepper, rows, own, i);
      }
    }
  }

  lemma RecordedHasHash(pepper: Text, s: Stamped, previousHash: Text)
    ensures RowFor(pepper, s, previousHash).hash != []
  {
    HashIsNotGenesis(pepper, RowFor(pepper, s, previousHash).(newValues := s.event.newValues, hash := []));
  }

  lemma AppendExtends(pepper: Text, st: Store, own: seq<Entry>, e: Entry, tenant: string)
    requires tenant != "" && LogOf(pepper, TenantLog(st.logs, tenant), own)
    requires Anchor(st, tenant) == LastHash(TenantLog(st.logs, tenant))
    ensures var rows := TenantLog(Append(pepper, st, e).logs, tenant);
      && LogOf(pepper, rows, if TenantOf(e) == tenant then own + [e] else own)
      && Anchor(Append(pepper, st, e), tenant) == LastHash(rows)
  {
    var rows := TenantLog(st.logs, tenant);
    var row := EntryRow(pepper, e, TipHash(TenantLog(st.logs, TenantOf(e))));
    assert (st.logs + [row])[..|st.logs|] == st.logs;
    if TenantOf(e) == tenant {
      ExtendLog(pepper, rows, own, e);
      assert (rows + [row])[..|rows|] == rows;
      if e.Recorded? {
        RecordedHasHash(pepper, e.s, TipHash(rows));
      }
    }
  }

  /** What each tenant's rows and anchor are after any interleaving of entries. */
  lemma {:induction false} RecordedChain(pepper: Text, es: seq<Entry>, tenant: string)
    requires tenant != ""
    ensures LogOf(pepper, TenantLog(Record(pepper, es).logs, tenant), TenantEntries(es, tenant))
    ensures Anchor(Record(pepper, es), tenant) == LastHash(TenantLog(Record(pepper, es).logs, tenant))
  {
    if es != [] {
      var front := es[..|es| - 1];
      RecordedChain(pepper, front, tenant);
      AppendExtends(pepper, Record(pepper, front), TenantEntries(front, tenant), es[|es| - 1], tenant);
    }
  }

  // ------------------------------------------------------------------ when an untouched log verifies

  /** Recorded events come back as they were hashed, and none follows a row without a hash. */
  predicate EntryVerifies(own: seq<Entry>, i: nat)
    requires i < |own|
  {
    own[i].Recorded? ==> KeptAsHashed(own[i].s.event) && (i > 0 ==> own[i - 1].Recorded?)
  }

  predicate AllVerify(own: seq<Entry>)
  {
    forall i :: 0 <= i < |own| ==> EntryVerifies(own, i)
  }

  lemma TipBefore(pepper: Text, rows: seq<Row>, own: seq<Entry>, i: nat)
    requires LogOf(pepper, rows, own) && 0 < i < |rows|
    ensures TipHash(rows[..i]) == Or(rows[i - 1].hash, GENESIS)
    ensures rows[i - 1].hash != [] <==> own[i - 1].Recorded?
  {
    assert rows[..i][i - 1] == rows[i - 1];
    assert LogAt(pepper, rows, own, i - 1);
    if own[i - 1].Recorded? {
      RecordedHasHash(pepper, own[i - 1].s, TipHash(rows[..i - 1]));
    }
  }

  lemma LinkOkIff(pepper: Text, rows: seq<Row>, own: seq<Entry>, i: nat)
    requires LogOf(pepper, rows, own) && i < |rows|
    ensures LinkOk(pepper, rows, i) <==> (own[i].Recorded? && i > 0 ==> own[i - 1].Recorded?)
  {
    assert LogAt(pepper, rows, own, i);
    assert |GENESIS| == 24;
    if i > 0 {
      TipBefore(pepper, rows, own, i);
      HashIsNotGenesis(pepper, rows[i - 1]);
    }
  }

  lemma EntryVerifiesIff(pepper: Text, rows: seq<Row>, own: seq<Entry>, i: nat)
    requires LogOf(pepper, rows, own) && i < |rows|
    ensures LinkOk(pepper, rows, i) && HashOk(pepper, rows, i) <==> EntryVerifies(own, i)
  {
    LinkOkIff(pepper, rows, own, i);
    assert LogAt(pepper, rows, own, i);
    if own[i].Recorded? {
      RowVerifiesIffKept(pepper, own[i].s, TipHash(rows[..i]));
      RecordedHasHash(pepper, own[i].s, TipHash(rows[..i]));
    }
  }

  lemma FrontOfLog(pepper: Text, rows: seq<Row>, own: seq<Entry>)
    requires LogOf(pepper, rows, own) && rows != []
    ensures var n := |rows| - 1;
      && LogOf(pepper, rows[..n], own[..n]) && rows[n] == EntryRow(pepper, own[n], TipHash(rows[..n]))
      && (rows[n].hash == [] <==> own[n].Bare?)
  {
    var n := |rows| - 1;
    forall i | 0 <= i < n
      ensures LogAt(pepper, rows[..n], own[..n], i)
    {
      assert LogAt(pepper, rows, own, i) && rows[..n][..i] == rows[..i];
    }
    assert LogAt(pepper, rows, own, n);
    if own[n].Recorded? {
      RecordedHasHash(pepper, own[n].s, TipHash(rows[..n]));
    }
  }

  predicate AnyRecorded(own: seq<Entry>)
  {
    exists i :: 0 <= i < |own| && own[i].Recorded?
  }

  lemma AnyRecordedByLast(own: seq<Entry>)
    requires own != []
    ensures AnyRecorded(own) <==> AnyRecorded(own[..|own| - 1]) || own[|own| - 1].Recorded?
  {
    var front := own[..|own| - 1];
    assert forall i :: 0 <= i < |front| ==> front[i] == own[i];
    if AnyRecorded(own) && !own[|own| - 1].Recorded? {
      var i :| 0 <= i < |own| && own[i].Recorded?;
      assert front[i].Recorded?;
    }
  }

  lemma {:induction false} LastHashIff(pepper: Text, rows: seq<Row>, own: seq<Entry>)
    requires LogOf(pepper, rows, own)
    ensures LastHash(rows) != [] <==> AnyRecorded(own)
    decreases |rows|
  {
    if rows != [] {
      FrontOfLog(pepper, rows, own);
      LastHashIff(pepper, rows[..|rows| - 1], own[..|own| - 1]);
      AnyRecordedByLast(own);
    }
  }

  lemma AcceptedIffAllVerify(pepper: Text, rows: seq<Row>, own: seq<Entry>)
    requires LogOf(pepper, rows, own)
    ensures Accepted(pepper, rows) <==> AllVerify(own)
  {
    forall i | 0 <= i < |rows|
      ensures LinkOk(pepper, rows, i) && HashOk(pepper, rows, i) <==> EntryVerifies(own, i)
    {
      EntryVerifiesIff(pepper, rows, own, i);
    }
  }

  lemma AnchorMatchesIff(pepper: Text, rows: seq<Row>, own: seq<Entry>)
    requires LogOf(pepper, rows, own) && rows != []
    ensures LastHash(rows) == [] || LastHash(rows) == rows[|rows| - 1].hash <==>
      own[|own| - 1].Recorded? || !AnyRecorded(own)
  {
    LastHashIff(pepper, rows, own);
    FrontOfLog(pepper, rows, own);
  }

  /**
    After any interleaving of entries of all tenants, the verifier accepts a tenant's
    untouched log if and only if every recorded event comes back as it was hashed and
    none follows a row that another service wrote; and its anchor matches if and only
    if the last row was recorded, or none was.
   */
  lemma HonestLogVerifies(pepper: Text, es: seq<Entry>, tenant: string)
    requires tenant != ""
    ensures var rows, own := TenantLog(Record(pepper, es).logs, tenant), TenantEntries(es, tenant);
      var anchor := Anchor(Record(pepper, es), tenant);
      && |rows| == |own|
      && (Accepted(pepper, rows) <==> AllVerify(own))
      && (rows != [] ==>
        (anchor == [] || anchor == rows[|rows| - 1].hash <==> own[|own| - 1].Recorded? || !AnyRecorded(own)))
  {
    var rows, own := TenantLog(Record(pepper, es).logs, tenant), TenantEntries(es, tenant);
    RecordedChain(pepper, es, tenant);
    AcceptedIffAllVerify(pepper, rows, own);
    if rows != [] {
      AnchorMatchesIff(pepper, rows, own);
    }
  }

  // ------------------------------------------------------------------ what an anchored log proves

  /** The events recorded since another service wrote a row, up to the last event. */
  function CurrentEvents(own: seq<Entry>): (es: seq<Stamped>)
  {
    if own == [] then []
    else
      var front, last := own[..|own| - 1], own[|own| - 1];
      if last.Bare? then CurrentEvents(front)
      else if front == [] || front[|front| - 1].Bare? then [last.s]
      else CurrentEvents(front) + [last.s]
  }

  /** The rows of those events. */
  function CurrentChain(rows: seq<Row>): (chain: seq<Row>)
  {
    if rows == [] then []
    else
      var front, last := rows[..|rows| - 1], rows[|rows| - 1];
      if last.hash == [] then CurrentChain(front)
      else if front == [] || front[|front| - 1].hash == [] then [last]
      else CurrentChain(front) + [last]
  }

  predicate ChainAt(pepper: Text, rows: seq<Row>, own: seq<Stamped>, i: nat)
    requires i < |rows| && i < |own|
  {
    rows[i] == RowFor(pepper, own[i], TipHash(rows[..i]))
  }

  predicate ChainOf(pepper: Text, rows: seq<Row>, own: seq<Stamped>)
  {
    |rows| == |own| && forall i :: 0 <= i < |rows| ==> ChainAt(pepper, rows, own, i)
  }

  lemma ExtendChain(pepper: Text, rows: seq<Row>, own: seq<Stamped>, s: Stamped)
    requires ChainOf(pepper, rows, own)
    ensures ChainOf(pepper, rows + [RowFor(pepper, s, TipHash(rows))], own + [s])
  {
    var rows', own' := rows + [RowFor(pepper, s, TipHash(rows))], own + [s];
    forall i | 0 <= i < |rows'|
      ensures ChainAt(pepper, rows', own', i)
    {
      assert rows'[..i] == rows[..i];
      if i == |rows| {
        assert rows[..i] == rows;
      } else {
        assert ChainAt(pepper, rows, own, i);
      }
    }
  }

  lemma {:induction false} CurrentEndsInTip(rows: seq<Row>)
    requires rows != [] && rows[|rows| - 1].hash != []
    ensures TipHash(CurrentChain(rows)) == TipHash(rows)
  {
  }

  lemma ChainGrows(pepper: Text, rows: seq<Row>, own: seq<Entry>)
    requires LogOf(pepper, rows, own) && rows != [] && own[|own| - 1].Recorded?
    requires ChainOf(pepper, CurrentChain(rows[..|rows| - 1]), CurrentEvents(own[..|own| - 1]))
    ensures ChainOf(pepper, CurrentChain(rows), CurrentEvents(own))
  {
    var n := |rows| - 1;
    var front, before := rows[..n], own[..n];
    FrontOfLog(pepper, rows, own);
    if n > 0 {
      FrontOfLog(pepper, front, before);
    }
    if n == 0 || before[n - 1].Bare? {
      assert [rows[n]][..0] == [];
      assert TipHash(front) == GENESIS;
    } else {
      CurrentEndsInTip(front);
      ExtendChain(pepper, CurrentChain(front), CurrentEvents(before), own[n].s);
    }
  }

  /** Rows of other services start the chain anew. */
  lemma {:induction false} CurrentIsChain(pepper: Text, rows: seq<Row>, own: seq<Entry>)
    requires LogOf(pepper, rows, own)
    ensures ChainOf(pepper, CurrentChain(rows), CurrentEvents(own))
    decreases |rows|
  {
    if rows != [] {
      var n := |rows| - 1;
      FrontOfLog(pepper, rows, own);
      CurrentIsChain(pepper, rows[..n], own[..n]);
      if own[n].Recorded? {
        ChainGrows(pepper, rows, own);
      }
    }
  }

  /** The anchor is the hash of the newest row of the chain. */
  lemma {:induction false} CurrentEndsInLastHash(rows: seq<Row>)
    ensures CurrentChain(rows) == [] <==> LastHash(rows) == []
    ensures CurrentChain(rows) != [] ==> LastHash(rows) == CurrentChain(rows)[|CurrentChain(rows)| - 1].hash
    decreases |rows|
  {
    if rows != [] {
      CurrentEndsInLastHash(rows[..|rows| - 1]);
    }
  }

  predicate AllKept(own: seq<Stamped>)
  {
    forall i :: 0 <= i < |own| ==> KeptAsHashed(own[i].event)
  }

  lemma ChainIsHonest(pepper: Text, rows: seq<Row>, own: seq<Stamped>)
    requires ChainOf(pepper, rows, own) && AllKept(own)
    ensures HonestChain(pepper, rows)
  {
    forall i | 0 <= i < |rows|
      ensures HonestAt(pepper, rows, i)
    {
      assert ChainAt(pepper, rows, own, i);
      RowVerifiesIffKept(pepper, own[i], TipHash(rows[..i]));
      if i > 0 {
        assert rows[..i][i - 1] == rows[i - 1];
        assert ChainAt(pepper, rows, own, i - 1);
        RecordedHasHash(pepper, own[i - 1], TipHash(rows[..i - 1]));
      }
    }
  }

  /** The first six hashed fields that the row of an event will have. */
  function EventSubject(s: Stamped): (fields: seq<string>)
    ensures |fields| == 6
  {
    var e := s.event;
    [s.logId, e.tenantId, if e.userId == "" then "SYSTEM" else e.userId, e.action, e.entity, e.entityId]
  }

  predicate SafeEvents(own: seq<Stamped>)
  {
    forall i :: 0 <= i < |own| ==> OneReading(EventSubject(own[i]))
  }

  lemma SafeRowsIff(pepper: Text, rows: seq<Row>, own: seq<Stamped>)
    requires ChainOf(pepper, rows, own)
    ensures SafeRows(rows) <==> SafeEvents(own)
  {
    forall i | 0 <= i < |rows|
      ensures Subject(rows[i]) == EventSubject(own[i])
    {
      assert ChainAt(pepper, rows, own, i);
    }
  }

  lemma ChainIsEvidenceIff(pepper: Text, chain: seq<Row>, own: seq<Stamped>)
    requires ChainOf(pepper, chain, own) && AllKept(own) && own != []
    ensures ((forall found :: Passes(pepper, chain, found) ==> EndsIn(chain, found)) <==> SafeEvents(own))
    ensures ((forall found :: Passes(pepper, chain, found) && LinkedBehindFirst(found) ==>
        SameHashedContent(chain, found)) <==> SafeEvents(own))
  {
    ChainIsHonest(pepper, chain, own);
    SafeRowsIff(pepper, chain, own);
    AnchorIsEvidenceIff(pepper, chain);
  }

  /**
    The two halves together.  For events since the last row of another service whose
    payloads come back as they were hashed: any rows that are accepted and end in the
    anchor end in the recorded content of those events, and are nothing else when no
    link is missing behind the first, if and only if no such event had a stray separator.
   */
  lemma AnchoredLogIsAuthenticIff(pepper: Text, es: seq<Entry>, tenant: string)
    requires tenant != "" && CurrentEvents(TenantEntries(es, tenant)) != []
    requires AllKept(CurrentEvents(TenantEntries(es, tenant)))
    ensures var chain := CurrentChain(TenantLog(Record(pepper, es).logs, tenant));
      var safe := SafeEvents(CurrentEvents(TenantEntries(es, tenant)));
      && chain != [] && Anchor(Record(pepper, es), tenant) == chain[|chain| - 1].hash
      && ((forall found :: Passes(pepper, chain, found) ==> EndsIn(chain, found)) <==> safe)
      && ((forall found :: Passes(pepper, chain, found) && LinkedBehindFirst(found) ==>
        SameHashedContent(chain, found)) <==> safe)
  {
    var rows, own := TenantLog(Record(pepper, es).logs, tenant), TenantEntries(es, tenant);
    RecordedChain(pepper, es, tenant);
    CurrentIsChain(pepper, rows, own);
    CurrentEndsInLastHash(rows);
    ChainIsEvidenceIff(pepper, CurrentChain(rows), CurrentEvents(own));
  }

  // ------------------------------------------------------------------ the service

  /** The result of asking for a tenant's newest row; among equal timestamps any may come. */
  predicate IsLatest(logs: seq<Row>, tenant: string, latest: Option<Row>)
  {
    match latest
    case None => forall i :: 0 <= i < |logs| ==> logs[i].tenantId != tenant
    case Some(row) =>
      row in logs && row.tenantId == tenant &&
      forall i :: 0 <= i < |logs| && logs[i].tenantId == tenant ==> logs[i].createdAt <= row.createdAt
  }

  /** No row of the tenant is newer than its latest, which is one of them; it has none exactly when there is none. */
  lemma LatestIs(logs: seq<Row>, tenant: string, latest: Option<Row>)
    ensures IsLatest(logs, tenant, latest) <==>
      && (latest.None? ==> forall r :: r in logs ==> r.tenantId != tenant)
      && (latest.Some? ==>
        && latest.value in logs && latest.value.tenantId == tenant
        && forall r :: r in logs && r.tenantId == tenant ==> r.createdAt <= latest.value.createdAt)
  {
  }

  function LatestHash(latest: Option<Row>): (hash: Text)
  {
    if latest.None? then GENESIS else Or(latest.value.hash, GENESIS)
  }

  predicate Increasing(logs: seq<Row>)
  {
    forall i, j :: 0 <= i < j < |logs| ==> logs[i].createdAt < logs[j].createdAt
  }

  lemma {:induction false} TenantLogMembers(logs: seq<Row>, tenant: string)
    ensures forall r :: r in TenantLog(logs, tenant) <==> r in logs && r.tenantId == tenant
    ensures TenantLog(logs, tenant) != [] && Increasing(logs) ==>
      forall i :: 0 <= i < |logs| && logs[i].tenantId == tenant ==>
        logs[i].createdAt <= TenantLog(logs, tenant)[|TenantLog(logs, tenant)| - 1].createdAt
  {
    if logs != [] {
      TenantLogMembers(logs[..|logs| - 1], tenant);
    }
  }

  /** With distinct timestamps the newest row is the last of the tenant's log. */
  lemma LatestIsTip(logs: seq<Row>, tenant: string, latest: Option<Row>)
    requires Increasing(logs) && IsLatest(logs, tenant, latest)
    ensures LatestHash(latest) == TipHash(TenantLog(logs, tenant))
  {
    var rows := TenantLog(logs, tenant);
    TenantLogMembers(logs, tenant);
    assert latest.Some? ==> latest.value in rows;
    assert rows != [] ==> rows[|rows| - 1] in rows;
    assert rows == [] <==> latest.None?;
    if rows != [] {
      var tip := rows[|rows| - 1];
      assert tip in rows;
      var i :| 0 <= i < |logs| && logs[i] == tip;
      var j :| 0 <= j < |logs| && logs[j] == latest.value;
      assert i == j;
    }
  }

  class AuditLogService {
    const pepper: Text
    var logs: seq<Row>
    var anchors: map<string, Text>

    constructor (pepper: Text)
      ensures Store(logs, anchors) == EMPTY && this.pepper == pepper
    {
      this.pepper := pepper;
      logs, anchors := [], map[];
    }

    /** `findFirst` ordered by `createdAt` descending. */
    method FindLatest(tenant: string) returns (latest: Option<Row>)
      ensures IsLatest(logs, tenant, latest)
    {
      latest := None;
      for i := 0 to |logs|
        invariant IsLatest(logs[..i], tenant, latest)
      {
        assert logs[..i + 1] == logs[..i] + [logs[i]];
        if logs[i].tenantId == tenant && (latest.None? || latest.value.createdAt < logs[i].createdAt) {
          latest := Some(logs[i]);
        }
      }
      assert logs[..|logs|] == logs;
    }

    method HandleAuditLogEvent(e: Event, logId: string, now: int) returns (ghost latest: Option<Row>)
      modifies this
      ensures e.tenantId != "" ==> IsLatest(old(logs), e.tenantId, latest)
      ensures var row := RowFor(pepper, Stamped(e, logId, now), LatestHash(latest));
        Store(logs, anchors) ==
          if e.tenantId == "" then old(Store(logs, anchors))
          else Store(old(logs) + [row], old(anchors)[e.tenantId := row.hash])
      ensures Increasing(old(logs)) ==>
        Store(logs, anchors) == Append(pepper, old(Store(logs, anchors)), Recorded(Stamped(e, logId, now)))
    {
      latest := None;
      if e.tenantId == "" {
        return;
      }
      var previousLog := FindLatest(e.tenantId);
      latest := previousLog;
      if Increasing(logs) {
        LatestIsTip(logs, e.tenantId, latest);
      }
      var previousHash := LatestHash(previousLog);
      var entry := Row(logId, e.tenantId, e.userId, e.action, e.entity, e.entityId, now, previousHash, e.newValues, []);
      var hash := ComputeAuditHash(pepper, entry);
      logs := logs + [entry.(newValues := ReadBack(e), hash := hash)];
      anchors := anchors[e.tenantId := hash];
    }

    /** How the services that reveal passwords, change roles and run tenants write their rows. */
    method RecordWithoutHash(row: Row)
      modifies this`logs
      ensures Store(logs, anchors) == Append(pepper, old(Store(logs, anchors)), Bare(row))
    {
      logs := logs + [row.(previousHash := [], hash := [])];
    }
  }
}
