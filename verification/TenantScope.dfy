/**
  The query extension that confines a request to the tenant of its context: it
  rewrites the arguments of each database call before the call is made.
 */
module TenantScope {
  import opened Optional

  type Id = string

  const TENANT_BOUND_MODELS: seq<string> := [
    "User", "RefreshTokenFamily", "TenantFeatureFlag", "AuditLog", "AcademicYear", "Term", "EducationalLevel",
    "StudyField", "Lesson", "Classroom", "ClassEnrollment", "ClassSchedule", "SchoolRole", "UserSchoolRole",
    "StudentProfile", "TeacherProfile", "CoachProfile", "StaffProfile", "ParentProfile", "ParentStudentLink",
    "ProfileBlog", "SchoolProfile", "StudentAttendance", "TeacherAttendance", "Homework", "HomeworkSubmission",
    "SchoolEvent", "Poll", "PollVote", "ParentVisitSlot", "ParentVisitBooking", "DisciplinaryMatter", "LessonPlan",
    "QuestionCategory", "Question", "Exam", "ExamClassroom", "ExamParticipation", "GradeEntry", "Podman",
    "PodmanGrade", "CourseMaterial", "MaterialClassroom", "ChatChannel", "ChatChannelMember", "ChatMessage",
    "StudentFeeContract", "FeeInstallment", "PaymentTransaction", "FeeReceipt", "StaffPayrollProfile", "PayrollSlip",
    "PayrollItem", "TeacherContract", "PayrollAdjustment", "TenantSubscription", "ClubMembership",
    "ClubRoadmapMilestone", "ClubStudentMilestoneProgress", "ClubChallenge", "ClubChallengeSubmission"
  ]

  const SOFT_DELETE_MODELS: seq<string> := [
    "SchoolRole", "UserPermissionOverride", "SchoolEvent", "ProfileBlog", "ProfileBlogComment"
  ]

  // ------------------------------------------------------------------ rows and conditions

  datatype Ref = Ref(model: string, id: Id)

  datatype Row = Row(tenantId: Id, deletedAt: Option<int>, fields: map<string, string>)

  type Db = map<Ref, Row>

  datatype TenantCond = TenantIs(id: Id) | TenantIn(ids: seq<Id>) | TenantIsNot(id: Id)

  datatype DeletedCond = NotDeleted | OnlyDeleted | Either

  /** Anything else a caller may ask of a row. */
  datatype Cond =
    | All
    | IdIs(id: Id)
    | FieldIs(name: string, value: string)
    | Owned(tenant: TenantCond)
    | Removed(state: DeletedCond)
    | And(left: Cond, right: Cond)
    | Or(left: Cond, right: Cond)
    | Not(cond: Cond)

  /** A where object: its own tenant and deletion entries, and the rest. */
  datatype Where = Where(tenantId: Option<TenantCond>, deletedAt: Option<DeletedCond>, rest: Cond)

  predicate OwnerOk(c: TenantCond, tenantId: Id)
  {
    match c
    case TenantIs(id) => tenantId == id
    case TenantIn(ids) => tenantId in ids
    case TenantIsNot(id) => tenantId != id
  }

  predicate DeletionOk(c: DeletedCond, row: Row)
  {
    match c
    case NotDeleted => row.deletedAt.None?
    case OnlyDeleted => row.deletedAt.Some?
    case Either => true
  }

  predicate Holds(c: Cond, id: Id, row: Row)
  {
    match c
    case All => true
    case IdIs(i) => id == i
    case FieldIs(name, value) => name in row.fields && row.fields[name] == value
    case Owned(tenant) => OwnerOk(tenant, row.tenantId)
    case Removed(state) => DeletionOk(state, row)
    case And(left, right) => Holds(left, id, row) && Holds(right, id, row)
    case Or(left, right) => Holds(left, id, row) || Holds(right, id, row)
    case Not(cond) => !Holds(cond, id, row)
  }

  predicate Matches(w: Option<Where>, id: Id, row: Row)
  {
    w.Some? ==>
      && (w.value.tenantId.Some? ==> OwnerOk(w.value.tenantId.value, row.tenantId))
      && (w.value.deletedAt.Some? ==> DeletionOk(w.value.deletedAt.value, row))
      && Holds(w.value.rest, id, row)
  }

  predicate Hit(db: Db, model: string, w: Option<Where>, r: Ref)
  {
    r in db && r.model == model && Matches(w, r.id, db[r])
  }

  // ------------------------------------------------------------------ arguments and their rewriting

  datatype Data = Data(tenantId: Option<Id>, deletedAt: Option<Option<int>>, fields: map<string, string>)

  datatype Payload = NoData | One(item: Data) | Many(items: seq<Data>)

  datatype Args = Args(where: Option<Where>, data: Payload, create: Option<Data>)

  datatype Operation =
    | FindUnique
    | FindFirst | FindMany | Count | Aggregate | GroupBy
    | Create | CreateMany
    | Update | UpdateMany | Upsert
    | Delete | DeleteMany

  /** What the request's context says; a platform administrator is not confined. */
  datatype Context = Context(tenantId: Option<Id>, isPlatform: bool)

  predicate IsRead(op: Operation)
  {
    op.FindFirst? || op.FindMany? || op.Count? || op.Aggregate? || op.GroupBy?
  }

  predicate TakesWhere(op: Operation)
  {
    IsRead(op) || op.Update? || op.UpdateMany? || op.Upsert? || op.Delete? || op.DeleteMany?
  }

  const NO_WHERE := Where(None, None, All)

  function WhereOr(w: Option<Where>): (w': Where)
  {
    if w.Some? then w.value else NO_WHERE
  }

  function HideDeleted(model: string, op: Operation, w: Option<Where>): (w': Option<Where>)
  {
    if model in SOFT_DELETE_MODELS && IsRead(op) then
      var given := WhereOr(w);
      Some(if given.deletedAt.None? then given.(deletedAt := Some(NotDeleted)) else given)
    else w
  }

  function Stamp(d: Data, tenantId: Id): (d': Data)
  {
    d.(tenantId := Some(tenantId))
  }

  function StampAll(p: Payload, tenantId: Id): (p': Payload)
  {
    match p
    case NoData => NoData
    case One(item) => One(Stamp(item, tenantId))
    case Many(items) => Many(seq(|items|, i requires 0 <= i < |items| => Stamp(items[i], tenantId)))
  }

  const NO_FIELDS := Data(None, None, map[])

  predicate Confined(ctx: Context, model: string)
  {
    model in TENANT_BOUND_MODELS && !ctx.isPlatform && ctx.tenantId.Some? && ctx.tenantId.value != ""
  }

  function Rewrite(ctx: Context, model: string, op: Operation, args: Args): (args': Args)
  {
    var filtered := args.(where := HideDeleted(model, op, args.where));
    if !Confined(ctx, model) then filtered
    else
      var t := ctx.tenantId.value;
      Args(
        if TakesWhere(op) then Some(WhereOr(filtered.where).(tenantId := Some(TenantIs(t)))) else filtered.where,
        if op.Create? then One(Stamp(if args.data.One? then args.data.item else NO_FIELDS, t))
        else if op.CreateMany? then StampAll(args.data, t)
        else args.data,
        if op.Upsert? && args.create.Some? then Some(Stamp(args.create.value, t)) else args.create)
  }

  // ------------------------------------------------------------------ the database

  /** A call: the ids its new rows would get, and how the database orders and sums what it finds. */
  datatype Call = Call(model: string, op: Operation, args: Args, newIds: seq<Id>, order: Db -> Ref, sum: Db -> int)

  datatype Result =
    | Rows(rows: Db)
    | First(row: Option<(Ref, Row)>)
    | Number(n: int)
    | Done
    | Fails

  function Found(db: Db, model: string, w: Option<Where>): (rows: Db)
  {
    map r | r in db && Hit(db, model, w, r) :: db[r]
  }

  function NewRow(d: Data): (row: Row)
    requires d.tenantId.Some?
  {
    Row(d.tenantId.value, if d.deletedAt.Some? then d.deletedAt.value else None, d.fields)
  }

  function Changed(row: Row, d: Data): (row': Row)
  {
    Row(
      if d.tenantId.Some? then d.tenantId.value else row.tenantId,
      if d.deletedAt.Some? then d.deletedAt.value else row.deletedAt,
      row.fields + d.fields)
  }

  function Inserted(db: Db, model: string, items: seq<Data>, ids: seq<Id>): (db': Db)
    requires |items| == |ids|
    requires forall i :: 0 <= i < |items| ==> items[i].tenantId.Some?
  {
    if items == [] then db else Inserted(db, model, items[1..], ids[1..])[Ref(model, ids[0]) := NewRow(items[0])]
  }

  function UpdatedDb(db: Db, model: string, w: Option<Where>, d: Data): (db': Db)
  {
    map r | r in db :: if Hit(db, model, w, r) then Changed(db[r], d) else db[r]
  }

  function DeletedDb(db: Db, model: string, w: Option<Where>): (db': Db)
  {
    map r | r in db && !Hit(db, model, w, r) :: db[r]
  }

  function Items(p: Payload): (items: seq<Data>)
  {
    match p
    case NoData => []
    case One(item) => [item]
    case Many(items) => items
  }

  /** The rows a call would insert; a row without a tenant is refused. */
  function Insert(db: Db, model: string, items: seq<Data>, ids: seq<Id>): (x: (Db, Result))
  {
    if |ids| == |items| && forall i :: 0 <= i < |items| ==> items[i].tenantId.Some?
    then (Inserted(db, model, items, ids), Done) else (db, Fails)
  }

  function Modify(db: Db, model: string, w: Option<Where>, p: Payload, single: bool): (x: (Db, Result))
  {
    if single && Found(db, model, w) == map[] then (db, Fails)
    else (UpdatedDb(db, model, w, if p.One? then p.item else NO_FIELDS), Rows(Found(db, model, w)))
  }

  /** A call that names one row fails when there is none; a unique key matches no more than one. */
  function Exec(db: Db, c: Call, args: Args): (x: (Db, Result))
  {
    var found := Found(db, c.model, args.where);
    match c.op
    case FindUnique => (db, Rows(found))
    case FindMany => (db, Rows(found))
    case FindFirst => (
      var r := c.order(found);
      (db, First(if r in found then Some((r, found[r])) else None)))
    case Count => (db, Number(|found|))
    case Aggregate => (db, Number(c.sum(found)))
    case GroupBy => (db, Number(c.sum(found)))
    case Create => Insert(db, c.model, Items(args.data), c.newIds)
    case CreateMany => Insert(db, c.model, Items(args.data), c.newIds)
    case Update => Modify(db, c.model, args.where, args.data, true)
    case UpdateMany => Modify(db, c.model, args.where, args.data, false)
    case Upsert => (
      if found == map[] then
        if args.create.Some? then Insert(db, c.model, [args.create.value], c.newIds) else (db, Fails)
      else Modify(db, c.model, args.where, args.data, false))
    case Delete => if found == map[] then (db, Fails) else (DeletedDb(db, c.model, args.where), Rows(found))
    case DeleteMany => (DeletedDb(db, c.model, args.where), Rows(found))
  }

  /** A call made in a tenant's context. */
  function Perform(db: Db, t: Id, c: Call): (x: (Db, Result))
  {
    Exec(db, c, Rewrite(Context(Some(t), false), c.model, c.op, c.args))
  }

  // ------------------------------------------------------------------ what a tenant owns

  function OwnAt(db: Db, r: Ref, t: Id): (row: Option<Row>)
  {
    if r in db && db[r].tenantId == t then Some(db[r]) else None
  }

  function OtherAt(db: Db, r: Ref, t: Id): (row: Option<Row>)
  {
    if r in db && db[r].tenantId != t then Some(db[r]) else None
  }

  ghost predicate SameOwn(a: Db, b: Db, t: Id)
  {
    forall r: Ref :: OwnAt(a, r, t) == OwnAt(b, r, t)
  }

  ghost predicate SameOthers(a: Db, b: Db, t: Id)
  {
    forall r: Ref :: OtherAt(a, r, t) == OtherAt(b, r, t)
  }

  /** The calls the extension rewrites, on a tenant's model, with an update that leaves the tenant column alone. */
  predicate Covered(c: Call)
  {
    && c.model in TENANT_BOUND_MODELS && !c.op.FindUnique?
    && ((c.op.Update? || c.op.UpdateMany? || c.op.Upsert?) && c.args.data.One? ==> c.args.data.item.tenantId.None?)
  }

  /** The ids a call would give to new rows are unused. */
  predicate Fresh(db: Db, c: Call)
  {
    forall i :: 0 <= i < |c.newIds| ==> Ref(c.model, c.newIds[i]) !in db
  }

  predicate OwnWhere(w: Option<Where>, t: Id)
  {
    w.Some? && w.value.tenantId == Some(TenantIs(t))
  }

  predicate OwnItems(items: seq<Data>, t: Id)
  {
    forall i :: 0 <= i < |items| ==> items[i].tenantId == Some(t)
  }

  /** What rewriting achieves, whatever the caller wrote. */
  lemma RewriteConfines(t: Id, c: Call)
    requires t != "" && Covered(c)
    ensures
      var args := Rewrite(Context(Some(t), false), c.model, c.op, c.args);
      && (TakesWhere(c.op) ==> OwnWhere(args.where, t))
      && (c.op.Create? || c.op.CreateMany? ==> OwnItems(Items(args.data), t))
      && (c.op.Upsert? && args.create.Some? ==> OwnItems([args.create.value], t))
      && ((c.op.Update? || c.op.UpdateMany? || c.op.Upsert?) ==> args.data == c.args.data)
  {
  }

  /**
    What rewriting leaves alone: the caller's other conditions, the fields of the new and
    changed rows, and, but for the hiding of deleted rows, every call of a platform
    administrator, without a tenant, or on a model that is not bound to one.
   */
  lemma RewriteKeeps(ctx: Context, model: string, op: Operation, args: Args)
    ensures var args' := Rewrite(ctx, model, op, args);
      var bound := model in TENANT_BOUND_MODELS && !ctx.isPlatform && ctx.tenantId.Some? && ctx.tenantId.value != "";
      var hides := model in SOFT_DELETE_MODELS && IsRead(op) && WhereOr(args.where).deletedAt.None?;
      && WhereOr(args'.where).rest == WhereOr(args.where).rest
      && WhereOr(args'.where).deletedAt == (if hides then Some(NotDeleted) else WhereOr(args.where).deletedAt)
      && (!bound ==> WhereOr(args'.where).tenantId == WhereOr(args.where).tenantId)
      && (!bound || !TakesWhere(op) ==> WhereOr(args'.where).tenantId == WhereOr(args.where).tenantId)
      && (!bound || !(op.Create? || op.CreateMany?) ==> args'.data == args.data)
      && (!bound || !op.Upsert? ==> args'.create == args.create)
      && (!op.Create? || args.data.One? ==>
        && |Items(args'.data)| == |Items(args.data)|
        && forall i :: 0 <= i < |Items(args.data)| ==>
          Items(args'.data)[i].(tenantId := None) == Items(args.data)[i].(tenantId := None))
      && (args'.create.Some? <==> args.create.Some?)
      && (args.create.Some? ==> args'.create.value.(tenantId := None) == args.create.value.(tenantId := None))
  {
  }

  /**
    A rewritten read sees the rows of the tenant that the caller's other conditions pick,
    without deleted ones unless asked for.
   */
  lemma ReadSeesOwnRows(t: Id, c: Call, db: Db, r: Ref)
    requires t != "" && Covered(c) && IsRead(c.op) && c.args.where.Some?
    ensures
      var given := c.args.where.value;
      var hides := c.model in SOFT_DELETE_MODELS && given.deletedAt.None?;
      Hit(db, c.model, Rewrite(Context(Some(t), false), c.model, c.op, c.args).where, r) <==>
        && r.model == c.model && OwnAt(db, r, t).Some?
        && Matches(Some(given.(tenantId := None)), r.id, db[r]) && (hides ==> db[r].deletedAt.None?)
  {
  }

  // ------------------------------------------------------------------ one call

  lemma {:induction false} InsertedIsOwn(db: Db, model: string, items: seq<Data>, ids: seq<Id>, t: Id, r: Ref)
    requires |items| == |ids| && OwnItems(items, t)
    requires forall i :: 0 <= i < |ids| ==> Ref(model, ids[i]) !in db
    ensures OtherAt(Inserted(db, model, items, ids), r, t) == OtherAt(db, r, t)
    ensures r in Inserted(db, model, items, ids) ==> r in db || (r.model == model && r.id in ids)
  {
    if items != [] {
      InsertedIsOwn(db, model, items[1..], ids[1..], t, r);
    }
  }

  lemma {:induction false} InsertedAlike(a: Db, b: Db, model: string, items: seq<Data>, ids: seq<Id>, t: Id, r: Ref)
    requires |items| == |ids| && OwnItems(items, t)
    requires OwnAt(a, r, t) == OwnAt(b, r, t)
    ensures OwnAt(Inserted(a, model, items, ids), r, t) == OwnAt(Inserted(b, model, items, ids), r, t)
  {
    if items != [] {
      InsertedAlike(a, b, model, items[1..], ids[1..], t, r);
    }
  }

  lemma InsertKeepsTenants(a: Db, b: Db, model: string, items: seq<Data>, ids: seq<Id>, t: Id)
    requires OwnItems(items, t)
    requires forall i :: 0 <= i < |ids| ==> Ref(model, ids[i]) !in a
    ensures SameOthers(Insert(a, model, items, ids).0, a, t)
    ensures SameOwn(a, b, t) ==> SameOwn(Insert(a, model, items, ids).0, Insert(b, model, items, ids).0, t)
    ensures Insert(a, model, items, ids).1 == Insert(b, model, items, ids).1
    ensures forall r :: r in Insert(a, model, items, ids).0 ==> r in a || (r.model == model && r.id in ids)
  {
    if |ids| == |items| {
      forall r: Ref
        ensures OtherAt(Inserted(a, model, items, ids), r, t) == OtherAt(a, r, t)
        ensures r in Inserted(a, model, items, ids) ==> r in a || (r.model == model && r.id in ids)
      {
        InsertedIsOwn(a, model, items, ids, t, r);
      }
      forall r: Ref | OwnAt(a, r, t) == OwnAt(b, r, t)
        ensures OwnAt(Inserted(a, model, items, ids), r, t) == OwnAt(Inserted(b, model, items, ids), r, t)
      {
        InsertedAlike(a, b, model, items, ids, t, r);
      }
    }
  }

  lemma HitIsOwn(db: Db, model: string, w: Option<Where>, t: Id, r: Ref)
    requires OwnWhere(w, t)
    ensures Hit(db, model, w, r) <==>
      r.model == model && OwnAt(db, r, t).Some? && Matches(w, r.id, OwnAt(db, r, t).value)
  {
  }

  lemma FoundAlike(a: Db, b: Db, model: string, w: Option<Where>, t: Id)
    requires SameOwn(a, b, t) && OwnWhere(w, t)
    ensures Found(a, model, w) == Found(b, model, w)
  {
    forall r: Ref
      ensures Hit(a, model, w, r) <==> Hit(b, model, w, r)
      ensures Hit(a, model, w, r) ==> a[r] == b[r]
    {
      assert OwnAt(a, r, t) == OwnAt(b, r, t);
      HitIsOwn(a, model, w, t, r);
      HitIsOwn(b, model, w, t, r);
    }
    assert Found(a, model, w).Keys == Found(b, model, w).Keys;
  }

  lemma UpdateKeepsTenants(a: Db, b: Db, model: string, w: Option<Where>, d: Data, t: Id)
    requires OwnWhere(w, t) && d.tenantId.None?
    ensures SameOthers(UpdatedDb(a, model, w, d), a, t)
    ensures SameOwn(a, b, t) ==> SameOwn(UpdatedDb(a, model, w, d), UpdatedDb(b, model, w, d), t)
  {
    var a', b' := UpdatedDb(a, model, w, d), UpdatedDb(b, model, w, d);
    forall r: Ref
      ensures OtherAt(a', r, t) == OtherAt(a, r, t)
      ensures OwnAt(a, r, t) == OwnAt(b, r, t) ==> OwnAt(a', r, t) == OwnAt(b', r, t)
    {
      HitIsOwn(a, model, w, t, r);
      HitIsOwn(b, model, w, t, r);
    }
  }

  lemma DeleteKeepsTenants(a: Db, b: Db, model: string, w: Option<Where>, t: Id)
    requires OwnWhere(w, t)
    ensures SameOthers(DeletedDb(a, model, w), a, t)
    ensures SameOwn(a, b, t) ==> SameOwn(DeletedDb(a, model, w), DeletedDb(b, model, w), t)
  {
    var a', b' := DeletedDb(a, model, w), DeletedDb(b, model, w);
    forall r: Ref
      ensures OtherAt(a', r, t) == OtherAt(a, r, t)
      ensures OwnAt(a, r, t) == OwnAt(b, r, t) ==> OwnAt(a', r, t) == OwnAt(b', r, t)
    {
      HitIsOwn(a, model, w, t, r);
      HitIsOwn(b, model, w, t, r);
    }
  }

  predicate Writes(op: Operation)
  {
    op.Update? || op.UpdateMany? || op.Upsert?
  }

  /** A covered call leaves the rows of every other tenant alone and adds no row but under its new ids. */
  lemma CallLeavesOthers(db: Db, t: Id, c: Call)
    requires t != "" && Covered(c) && Fresh(db, c)
    ensures SameOthers(Perform(db, t, c).0, db, t)
    ensures forall r :: r in Perform(db, t, c).0 ==> r in db || (r.model == c.model && r.id in c.newIds)
  {
    var args := Rewrite(Context(Some(t), false), c.model, c.op, c.args);
    RewriteConfines(t, c);
    if c.op.Create? || c.op.CreateMany? {
      InsertKeepsTenants(db, db, c.model, Items(args.data), c.newIds, t);
    } else if Writes(c.op) {
      UpdateKeepsTenants(db, db, c.model, args.where, if args.data.One? then args.data.item else NO_FIELDS, t);
      if c.op.Upsert? && args.create.Some? {
        InsertKeepsTenants(db, db, c.model, [args.create.value], c.newIds, t);
      }
    } else if c.op.Delete? || c.op.DeleteMany? {
      DeleteKeepsTenants(db, db, c.model, args.where, t);
    }
  }

  /** Its answer and its effect on the tenant's rows depend on the tenant's rows alone. */
  lemma CallSeesOwn(a: Db, b: Db, t: Id, c: Call)
    requires t != "" && Covered(c) && Fresh(a, c) && SameOwn(a, b, t)
    ensures Perform(a, t, c).1 == Perform(b, t, c).1
    ensures SameOwn(Perform(a, t, c).0, Perform(b, t, c).0, t)
  {
    var args := Rewrite(Context(Some(t), false), c.model, c.op, c.args);
    RewriteConfines(t, c);
    if TakesWhere(c.op) {
      FoundAlike(a, b, c.model, args.where, t);
    }
    if c.op.Create? || c.op.CreateMany? {
      InsertKeepsTenants(a, b, c.model, Items(args.data), c.newIds, t);
    } else if Writes(c.op) {
      UpdateKeepsTenants(a, b, c.model, args.where, if args.data.One? then args.data.item else NO_FIELDS, t);
      if c.op.Upsert? && args.create.Some? {
        InsertKeepsTenants(a, b, c.model, [args.create.value], c.newIds, t);
      }
    } else if c.op.Delete? || c.op.DeleteMany? {
      DeleteKeepsTenants(a, b, c.model, args.where, t);
    }
  }

  // ------------------------------------------------------------------ runs of many tenants

  datatype Request = Request(tenant: Id, call: Call)

  function Run(db: Db, rs: seq<Request>): (db': Db)
    decreases |rs|
  {
    if rs == [] then db else Run(Perform(db, rs[0].tenant, rs[0].call).0, rs[1..])
  }

  /** The answers that one tenant gets in a run. */
  function Answers(db: Db, rs: seq<Request>, t: Id): (results: seq<Result>)
    decreases |rs|
  {
    if rs == [] then []
    else
      var (db', result) := Perform(db, rs[0].tenant, rs[0].call);
      (if rs[0].tenant == t then [result] else []) + Answers(db', rs[1..], t)
  }

  /** The run without the requests of other tenants. */
  function Only(rs: seq<Request>, t: Id): (own: seq<Request>)
    decreases |rs|
  {
    if rs == [] then [] else (if rs[0].tenant == t then [rs[0]] else []) + Only(rs[1..], t)
  }

  predicate AllCovered(rs: seq<Request>)
  {
    forall i :: 0 <= i < |rs| ==> rs[i].tenant != "" && Covered(rs[i].call)
  }

  predicate Unused(used: set<Ref>, c: Call)
  {
    forall i :: 0 <= i < |c.newIds| ==> Ref(c.model, c.newIds[i]) !in used
  }

  function NewRefs(c: Call): (refs: set<Ref>)
  {
    set i | 0 <= i < |c.newIds| :: Ref(c.model, c.newIds[i])
  }

  /** No id is given out twice. */
  predicate Supply(used: set<Ref>, rs: seq<Request>)
    decreases |rs|
  {
    rs != [] ==> Unused(used, rs[0].call) && Supply(used + NewRefs(rs[0].call), rs[1..])
  }

  lemma StepUses(db: Db, used: set<Ref>, t: Id, c: Call)
    requires t != "" && Covered(c) && db.Keys <= used && Unused(used, c)
    ensures Fresh(db, c) && Perform(db, t, c).0.Keys <= used + NewRefs(c)
  {
    CallLeavesOthers(db, t, c);
    forall r | r in Perform(db, t, c).0
      ensures r in used + NewRefs(c)
    {
      if r !in db {
        var i :| 0 <= i < |c.newIds| && c.newIds[i] == r.id;
        assert r == Ref(c.model, c.newIds[i]);
      }
    }
  }

  lemma OthersKeepOwn(a: Db, b: Db, t: Id, u: Id)
    requires SameOthers(a, b, u) && t != u
    ensures SameOwn(a, b, t)
  {
    forall r: Ref
      ensures OwnAt(a, r, t) == OwnAt(b, r, t)
    {
      assert OtherAt(a, r, u) == OtherAt(b, r, u);
    }
  }

  /**
    Noninterference over runs that interleave any tenants.  From databases that agree
    on a tenant's rows, the full run and the run of that tenant's requests alone give
    the tenant the same answers and leave the tenant the same rows.
   */
  lemma {:induction false} OtherTenantsDoNotInterfere(a: Db, b: Db, used: set<Ref>, rs: seq<Request>, t: Id)
    requires t != "" && AllCovered(rs) && SameOwn(a, b, t)
    requires a.Keys <= used && b.Keys <= used && Supply(used, rs)
    ensures Answers(a, rs, t) == Answers(b, Only(rs, t), t)
    ensures SameOwn(Run(a, rs), Run(b, Only(rs, t)), t)
    decreases |rs|
  {
    if rs != [] {
      var u, c := rs[0].tenant, rs[0].call;
      var a' := Perform(a, u, c).0;
      var rest := Only(rs[1..], t);
      assert u != "" && Covered(c);
      StepUses(a, used, u, c);
      if u == t {
        StepUses(b, used, u, c);
        CallSeesOwn(a, b, t, c);
        var b' := Perform(b, u, c).0;
        OtherTenantsDoNotInterfere(a', b', used + NewRefs(c), rs[1..], t);
        assert Only(rs, t)[0] == rs[0] && Only(rs, t)[1..] == rest;
      } else {
        CallLeavesOthers(a, u, c);
        OthersKeepOwn(a', a, t, u);
        forall r: Ref
          ensures OwnAt(a', r, t) == OwnAt(b, r, t)
        {
          assert OwnAt(a', r, t) == OwnAt(a, r, t) == OwnAt(b, r, t);
        }
        OtherTenantsDoNotInterfere(a', b, used + NewRefs(c), rs[1..], t);
        assert Only(rs, t) == rest;
      }
    }
  }

  /** A run of one tenant's requests changes no row of any other. */
  lemma {:induction false} RunLeavesOthers(db: Db, used: set<Ref>, rs: seq<Request>, t: Id)
    requires AllCovered(rs) && db.Keys <= used && Supply(used, rs)
    requires forall i :: 0 <= i < |rs| ==> rs[i].tenant == t
    ensures SameOthers(Run(db, rs), db, t)
    decreases |rs|
  {
    if rs != [] {
      var c := rs[0].call;
      var db' := Perform(db, t, c).0;
      StepUses(db, used, t, c);
      CallLeavesOthers(db, t, c);
      RunLeavesOthers(db', used + NewRefs(c), rs[1..], t);
      forall r: Ref
        ensures OtherAt(Run(db, rs), r, t) == OtherAt(db, r, t)
      {
        assert OtherAt(Run(db', rs[1..]), r, t) == OtherAt(db', r, t) == OtherAt(db, r, t);
      }
    }
  }

  // ------------------------------------------------------------------ where it stops

  /** The call finds no row to change. */
  ghost predicate Misses(db: Db, t: Id, c: Call)
  {
    forall r :: !Hit(db, c.model, Rewrite(Context(Some(t), false), c.model, c.op, c.args).where, r)
  }

  lemma MovedRows(db: Db, model: string, w: Option<Where>, d: Data, t: Id, u: Id)
    requires OwnWhere(w, t) && d.tenantId == Some(u)
    ensures SameOthers(UpdatedDb(db, model, w, d), db, t) <==> u == t || forall r :: !Hit(db, model, w, r)
  {
    var db' := UpdatedDb(db, model, w, d);
    if r :| Hit(db, model, w, r) && u != t {
      HitIsOwn(db, model, w, t, r);
      assert OtherAt(db', r, t).Some? && OtherAt(db, r, t).None?;
    } else {
      forall r: Ref
        ensures OtherAt(db', r, t) == OtherAt(db, r, t)
      {
        HitIsOwn(db, model, w, t, r);
      }
    }
  }

  lemma FoundIffHit(db: Db, model: string, w: Option<Where>)
    ensures Found(db, model, w) == map[] <==> forall r :: !Hit(db, model, w, r)
  {
    forall r: Ref
      ensures r in Found(db, model, w) <==> Hit(db, model, w, r)
    {
    }
  }

  /**
    An update, of one row, of many or as half of an upsert, that names a tenant: other
    tenants' rows stay as they are if and only if it names its own or finds no row.
   */
  lemma UpdateMovesRowsIff(db: Db, t: Id, c: Call, d: Data, u: Id)
    requires t != "" && c.model in TENANT_BOUND_MODELS && Writes(c.op) && Fresh(db, c)
    requires c.args.data == One(d) && d.tenantId == Some(u)
    ensures SameOthers(Perform(db, t, c).0, db, t) <==> u == t || Misses(db, t, c)
  {
    var args := Rewrite(Context(Some(t), false), c.model, c.op, c.args);
    assert OwnWhere(args.where, t) && args.data == One(d);
    MovedRows(db, c.model, args.where, d, t, u);
    assert Found(db, c.model, args.where) == map[] <==> Misses(db, t, c) by {
      FoundIffHit(db, c.model, args.where);
    }
    if c.op.Upsert? && args.create.Some? {
      InsertKeepsTenants(db, db, c.model, [args.create.value], c.newIds, t);
    }
  }

  // ------------------------------------------------------------------ look-ups by unique key

  /** A look-up by unique key is not rewritten and shows a row whoever owns it. */
  lemma FindUniqueIsNotConfined(db: Db, t: Id, c: Call, r: Ref)
    requires c.op.FindUnique? && r in db && r.model == c.model
    requires c.args.where == Some(Where(None, None, IdIs(r.id)))
    ensures Perform(db, t, c).1 == Rows(map[r := db[r]])
  {
  }

  /** The answer is the same over all databases that agree on the tenant's rows. */
  ghost predicate SeesOwnAlone(t: Id, c: Call)
  {
    forall a: Db, b: Db :: SameOwn(a, b, t) ==> Perform(a, t, c).1 == Perform(b, t, c).1
  }

  /** Only rows of the tenant can satisfy the condition. */
  ghost predicate NamesTenant(w: Option<Where>, t: Id)
  {
    forall id: Id, row: Row :: Matches(w, id, row) ==> row.tenantId == t
  }

  lemma OwnMatchesAlike(a: Db, b: Db, t: Id, model: string, w: Option<Where>)
    requires SameOwn(a, b, t) && NamesTenant(w, t)
    ensures Found(a, model, w) == Found(b, model, w)
  {
    forall r: Ref
      ensures r in Found(a, model, w) <==> r in Found(b, model, w)
      ensures r in Found(a, model, w) ==> a[r] == b[r]
    {
      assert OwnAt(a, r, t) == OwnAt(b, r, t);
      assert r in a && Matches(w, r.id, a[r]) ==> a[r].tenantId == t;
      assert r in b && Matches(w, r.id, b[r]) ==> b[r].tenantId == t;
    }
  }

  lemma ForeignMatchShows(t: Id, c: Call, id: Id, row: Row)
    requires c.op.FindUnique? && Matches(c.args.where, id, row) && row.tenantId != t
    ensures !SeesOwnAlone(t, c)
  {
    var r := Ref(c.model, id);
    var a: Db, b: Db := map[], map[r := row];
    assert SameOwn(a, b, t) by {
      assert forall q: Ref :: OwnAt(a, q, t) == OwnAt(b, q, t);
    }
    assert r in Found(b, c.model, c.args.where) && r !in Found(a, c.model, c.args.where);
    assert Perform(a, t, c).1 != Perform(b, t, c).1;
  }

  /**
    A look-up by unique key depends on the tenant's own rows alone if and only if its
    condition admits no other row.
   */
  lemma FindUniqueSeesOwnIff(t: Id, c: Call)
    requires c.op.FindUnique?
    ensures SeesOwnAlone(t, c) <==> NamesTenant(c.args.where, t)
  {
    if NamesTenant(c.args.where, t) {
      forall a: Db, b: Db | SameOwn(a, b, t)
        ensures Perform(a, t, c).1 == Perform(b, t, c).1
      {
        OwnMatchesAlike(a, b, t, c.model, c.args.where);
      }
    } else {
      var id: Id, row: Row :| Matches(c.args.where, id, row) && row.tenantId != t;
      ForeignMatchShows(t, c, id, row);
    }
  }

  predicate OnlyTenant(c: TenantCond, t: Id)
  {
    match c
    case TenantIs(id) => id == t
    case TenantIn(ids) => forall i :: 0 <= i < |ids| ==> ids[i] == t
    case TenantIsNot(_) => false
  }

  /** By id, the caller has to add the tenant and no other. */
  lemma LookupByIdSeesOwnIff(t: Id, c: Call, tenant: Option<TenantCond>, id: Id)
    requires c.op.FindUnique? && c.args.where == Some(Where(tenant, None, IdIs(id)))
    ensures SeesOwnAlone(t, c) <==> tenant.Some? && OnlyTenant(tenant.value, t)
  {
    FindUniqueSeesOwnIff(t, c);
    if tenant.None? || !OnlyTenant(tenant.value, t) {
      var other := match tenant
        case Some(TenantIs(u)) => u
        case Some(TenantIn(ids)) => (var i :| 0 <= i < |ids| && ids[i] != t; ids[i])
        case Some(TenantIsNot(u)) => if u == t + "a" then t + "b" else t + "a"
        case None => t + "a";
      assert |t + "a"| > |t| && |t + "b"| > |t| && (t + "a")[|t|] != (t + "b")[|t|];
      assert Matches(c.args.where, id, Row(other, None, map[])) && other != t;
    }
  }

  // ------------------------------------------------------------------ the extension

  /** The arguments of a call, rewritten in place before the call is made. */
  class QueryArgs {
    var where: Option<Where>
    var data: Payload
    var create: Option<Data>

    constructor (args: Args)
      ensures Value() == args
    {
      where, data, create := args.where, args.data, args.create;
    }

    function Value(): (args: Args)
      reads this
    {
      Args(where, data, create)
    }

    /** A list item by item, a single item in place. */
    method Stamped(p: Payload, tenantId: Id) returns (p': Payload)
      ensures p' == StampAll(p, tenantId)
    {
      match p {
        case Many(items) => return Many(seq(|items|, i requires 0 <= i < |items| => Stamp(items[i], tenantId)));
        case One(item) => return One(item.(tenantId := Some(tenantId)));
        case NoData => return NoData;
      }
    }

    /** The tenant takes the place of whatever the condition said of it. */
    method Confine(tenantId: Id)
      modifies this`where
      ensures where == Some(WhereOr(old(where)).(tenantId := Some(TenantIs(tenantId))))
    {
      where := Some(WhereOr(where).(tenantId := Some(TenantIs(tenantId))));
    }

    method FilterDeleted(model: string, operation: Operation)
      modifies this`where
      ensures where == HideDeleted(model, operation, old(where))
    {
      if model in SOFT_DELETE_MODELS && IsRead(operation) {
        if where.None? {
          where := Some(NO_WHERE);
        }
        if where.value.deletedAt.None? {
          where := Some(where.value.(deletedAt := Some(NotDeleted)));
        }
      }
    }

    method Extend(ctx: Context, model: string, operation: Operation)
      modifies this
      ensures Value() == Rewrite(ctx, model, operation, old(Value()))
    {
      FilterDeleted(model, operation);
      if model !in TENANT_BOUND_MODELS {
        return;
      }
      if ctx.isPlatform {
        return;
      }
      if ctx.tenantId.None? || ctx.tenantId.value == "" {
        return;
      }
      var tenantId := ctx.tenantId.value;
      if IsRead(operation) {
        Confine(tenantId);
      }
      if operation.Create? {
        data := One(Stamp(if data.One? then data.item else NO_FIELDS, tenantId));
      }
      if operation.CreateMany? {
        data := Stamped(data, tenantId);
      }
      if operation.Update? || operation.UpdateMany? || operation.Upsert? {
        Confine(tenantId);
        if operation.Upsert? && create.Some? {
          create := Some(create.value.(tenantId := Some(tenantId)));
        }
      }
      if operation.Delete? || operation.DeleteMany? {
        Confine(tenantId);
      }
    }
  }
}
