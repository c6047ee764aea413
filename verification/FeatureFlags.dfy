/**
  Feature flags with per-tenant overrides, resolved through a cache whose keys are
  plain text.
 */
module FeatureFlags {
  import opened Optional
  import opened TimedStore

  type Id = string

  // ------------------------------------------------------------------ cache keys

  /** An absent or empty tenant reads the global entry. */
  function ScopeName(tenant: Option<Id>): (name: string)
  {
    if tenant.Some? && tenant.value != "" then tenant.value else "global"
  }

  function CacheKey(tenant: Option<Id>, flag: Id): (key: string)
  {
    "ff:" + ScopeName(tenant) + ":" + flag
  }

  /** Tenants read one scope exactly when they are the same or both are read as the global one. */
  lemma SameScopeIff(t: Option<Id>, u: Option<Id>)
    ensures ScopeName(t) == ScopeName(u) <==> t == u || (ScopeName(t) == "global" && ScopeName(u) == "global")
  {
  }

  /** The key of a scope, cut after the scope's name. */
  lemma KeyParts(t: Option<Id>, f: Id)
    ensures CacheKey(t, f) == "ff:" + (ScopeName(t) + (":" + f))
  {
  }

  lemma EqualKeysEqualTails(a: string, f: string, b: string, g: string)
    requires "ff:" + (a + (":" + f)) == "ff:" + (b + (":" + g))
    ensures a + (":" + f) == b + (":" + g)
  {
    assert a + (":" + f) == ("ff:" + (a + (":" + f)))[3..];
    assert b + (":" + g) == ("ff:" + (b + (":" + g)))[3..];
  }

  lemma ShorterNameIsInside(a: string, f: string, b: string, g: string)
    requires a + (":" + f) == b + (":" + g)
    ensures |a| < |b| ==> a + ":" <= b
    ensures |a| == |b| ==> a == b && f == g
  {
    var s := a + (":" + f);
    assert s[|a|] == ':' && a == s[..|a|] && b == s[..|b|];
    assert f == s[|a| + 1..] && g == s[|b| + 1..];
    if |a| < |b| {
      assert b[|a|] == s[|a|] && b[..|a|] == a;
    }
  }

  lemma LongerNameShares(a: string, b: string) returns (f: string)
    requires a + ":" <= b
    ensures a + (":" + f) == b + (":" + "")
  {
    f := b[|a| + 1..] + ":";
    assert b == (a + ":") + b[|a| + 1..];
  }

  /** Two scopes can share an entry, for some flags, if and only if one name with a colon after it begins the other. */
  lemma ScopesShareIff(t: Option<Id>, u: Option<Id>)
    requires ScopeName(t) != ScopeName(u)
    ensures (exists f, g :: CacheKey(t, f) == CacheKey(u, g)) <==>
      ScopeName(t) + ":" <= ScopeName(u) || ScopeName(u) + ":" <= ScopeName(t)
  {
    var a, b := ScopeName(t), ScopeName(u);
    forall f, g | CacheKey(t, f) == CacheKey(u, g)
      ensures a + ":" <= b || b + ":" <= a
    {
      KeyParts(t, f);
      KeyParts(u, g);
      EqualKeysEqualTails(a, f, b, g);
      ShorterNameIsInside(a, f, b, g);
      ShorterNameIsInside(b, g, a, f);
    }
    if a + ":" <= b {
      var f := LongerNameShares(a, b);
      KeyParts(t, f);
      KeyParts(u, "");
      assert CacheKey(t, f) == CacheKey(u, "");
    } else if b + ":" <= a {
      var g := LongerNameShares(b, a);
      KeyParts(u, g);
      KeyParts(t, "");
      assert CacheKey(t, "") == CacheKey(u, g);
    }
  }

  /** A tenant id that the key text can tell from the others, as any UUID is. */
  predicate Plain(tenant: Option<Id>)
  {
    tenant.Some? ==> ':' !in tenant.value && tenant.value != "global" && tenant.value != ""
  }

  lemma BegunNameHasColon(a: string, b: string)
    ensures a + ":" <= b ==> ':' in b
  {
    if a + ":" <= b {
      assert (a + ":")[|a|] == b[|a|];
    }
  }

  /** So for plain tenant ids different questions have different entries. */
  lemma KeyInjective(t: Option<Id>, f: Id, u: Option<Id>, g: Id)
    requires Plain(t) && Plain(u)
    ensures CacheKey(t, f) == CacheKey(u, g) <==> t == u && f == g
  {
    SameScopeIff(t, u);
    if ScopeName(t) != ScopeName(u) {
      ScopesShareIff(t, u);
      BegunNameHasColon(ScopeName(t), ScopeName(u));
      BegunNameHasColon(ScopeName(u), ScopeName(t));
    } else if CacheKey(t, f) == CacheKey(u, g) {
      KeyParts(t, f);
      KeyParts(u, g);
      EqualKeysEqualTails(ScopeName(t), f, ScopeName(u), g);
      ShorterNameIsInside(ScopeName(t), f, ScopeName(u), g);
    }
  }

  // ------------------------------------------------------------------ state

  datatype Flag = Flag(id: Id, defaultEnabled: bool)

  datatype OverrideKey = OverrideKey(tenant: Id, flagId: Id)

  type Flags = map<Id, Flag>
  type Overrides = map<OverrideKey, bool>
  type Cache = Data<string, string>

  datatype State = Tables(flags: Flags, overrides: Overrides, cache: Cache)

  datatype Event =
    | IsEnabled(flag: Id, tenant: Option<Id>)
    | SetTenantFlag(owner: Id, flag: Id, isEnabled: bool)
    | RegisterFlag(flag: Id, defaultEnabled: bool, newId: Id)

  datatype Step = Step(now: int, event: Event)

  datatype Answer = UndefinedFlag | Saved | Says(isEnabled: bool)

  /** The answer without a cache: the tenant's override, else the default, else off. */
  function Rule(flags: Flags, overrides: Overrides, tenant: Option<Id>, flag: Id): (enabled: bool)
  {
    if flag !in flags then false
    else if tenant.Some? && tenant.value != "" && OverrideKey(tenant.value, flags[flag].id) in overrides then
      overrides[OverrideKey(tenant.value, flags[flag].id)]
    else flags[flag].defaultEnabled
  }

  /** An undefined flag is off; a defined one is what the tenant's override says, else its default. */
  lemma RuleIs(flags: Flags, overrides: Overrides, tenant: Option<Id>, flag: Id)
    ensures flag !in flags ==> !Rule(flags, overrides, tenant, flag)
    ensures flag in flags && (tenant.None? || tenant == Some("")) ==>
      Rule(flags, overrides, tenant, flag) == flags[flag].defaultEnabled
    ensures flag in flags && tenant.Some? && OverrideKey(tenant.value, flags[flag].id) !in overrides ==>
      Rule(flags, overrides, tenant, flag) == flags[flag].defaultEnabled
    ensures flag in flags && tenant.Some? && tenant != Some("") ==>
      forall o :: o in overrides && o.tenant == tenant.value && o.flagId == flags[flag].id ==>
        Rule(flags, overrides, tenant, flag) == overrides[o]
  {
  }

  function Text(b: bool): (t: string)
  {
    if b then "true" else "false"
  }

  /** An undefined flag is remembered for 5 minutes, a resolved one for 10. */
  function CacheSeconds(flags: Flags, flag: Id): (seconds: nat)
    ensures 0 < seconds <= 600
  {
    if flag in flags then 600 else 300
  }

  function Resolved(s: State, tenant: Option<Id>, flag: Id, now: int): (s': State)
  {
    s.(cache := Put(s.cache, CacheKey(tenant, flag), Text(Rule(s.flags, s.overrides, tenant, flag)),
        CacheSeconds(s.flags, flag), now))
  }

  function Next(s: State, step: Step): (r: (State, Answer))
  {
    match step.event
    case IsEnabled(flag, tenant) => (
      var hit := Find(s.cache, CacheKey(tenant, flag), step.now);
      if hit.Some? && hit.value.cell.Doc? then (s, Says(hit.value.cell.value == "true"))
      else (Resolved(s, tenant, flag, step.now), Says(Rule(s.flags, s.overrides, tenant, flag))))
    case SetTenantFlag(tenant, flag, isEnabled) => (
      if flag !in s.flags then (s, UndefinedFlag)
      else
        var overrides := s.overrides[OverrideKey(tenant, s.flags[flag].id) := isEnabled];
        (s.(overrides := overrides, cache := Del(s.cache, "ff:" + tenant + ":" + flag)), Saved))
    case RegisterFlag(flag, defaultEnabled, newId) => (
      var id := if flag in s.flags then s.flags[flag].id else newId;
      (s.(flags := s.flags[flag := Flag(id, defaultEnabled)]), Saved))
  }

  /** A question is answered from an entry that is alive, else by the rule, kept for 10 minutes or 5 if undefined. */
  lemma AskDoes(s: State, now: int, flag: Id, tenant: Option<Id>)
    ensures var (s', answer) := Next(s, Step(now, IsEnabled(flag, tenant)));
      var key := "ff:" + (if tenant.Some? && tenant.value != "" then tenant.value else "global") + ":" + flag;
      var alive := key in s.cache && s.cache[key].cell.Doc? &&
        (s.cache[key].expiresAt.Some? ==> now < s.cache[key].expiresAt.value);
      if alive then s' == s && answer == Says(s.cache[key].cell.value == "true")
      else
        var enabled := Rule(s.flags, s.overrides, tenant, flag);
        var until := now + if flag in s.flags then 600 else 300;
        && answer == Says(enabled)
        && s' == s.(cache := s.cache[key := Entry(Doc(if enabled then "true" else "false"), Some(until))])
  {
  }

  /** A flag is set for a tenant if it is defined, and its cached answer dropped; registering keeps the flag's id. */
  lemma ChangesDo(s: State, now: int, tenant: Id, flag: Id, isEnabled: bool, newId: Id)
    ensures var (s', answer) := Next(s, Step(now, SetTenantFlag(tenant, flag, isEnabled)));
      if flag !in s.flags then s' == s && answer == UndefinedFlag
      else
        && answer == Saved && s'.flags == s.flags && s'.cache == s.cache - {"ff:" + tenant + ":" + flag}
        && s'.overrides == s.overrides[OverrideKey(tenant, s.flags[flag].id) := isEnabled]
    ensures var (s', answer) := Next(s, Step(now, RegisterFlag(flag, isEnabled, newId)));
      && answer == Saved && s'.overrides == s.overrides && s'.cache == s.cache
      && s'.flags == s.flags[flag := Flag(if flag in s.flags then s.flags[flag].id else newId, isEnabled)]
  {
  }

  /** A flag is created under a new id; tenants are told apart by the key text. */
  predicate Enabled(s: State, e: Event)
  {
    match e
    case IsEnabled(flag, tenant) => Plain(tenant)
    case SetTenantFlag(tenant, flag, isEnabled) => Plain(Some(tenant))
    case RegisterFlag(flag, defaultEnabled, newId) =>
      && (forall f :: f in s.flags ==> s.flags[f].id != newId)
      && forall o :: o in s.overrides ==> o.flagId != newId
  }

  /** Flags have ids of their own, and overrides are for flags that exist. */
  predicate Inv(s: State)
  {
    && (forall f, g :: f in s.flags && g in s.flags && f != g ==> s.flags[f].id != s.flags[g].id)
    && forall o :: o in s.overrides ==> exists f :: f in s.flags && s.flags[f].id == o.flagId
  }

  lemma StepKeepsInv(s: State, step: Step)
    requires Inv(s) && Enabled(s, step.event)
    ensures Inv(Next(s, step).0)
  {
    var s' := Next(s, step).0;
    assert forall f :: f in s.flags ==> f in s'.flags && s'.flags[f].id == s.flags[f].id;
  }

  // ------------------------------------------------------------------ runs

  function Run(s: State, steps: seq<Step>): (s': State)
    decreases |steps|
  {
    if steps == [] then s else Next(Run(s, steps[..|steps| - 1]), steps[|steps| - 1]).0
  }

  predicate AllEnabled(s: State, steps: seq<Step>)
    decreases |steps|
  {
    steps != [] ==>
      AllEnabled(s, steps[..|steps| - 1]) && Enabled(Run(s, steps[..|steps| - 1]), steps[|steps| - 1].event)
  }

  predicate Ordered(steps: seq<Step>)
  {
    forall i, j :: 0 <= i < j < |steps| ==> steps[i].now <= steps[j].now
  }

  predicate Sets(e: Event, tenant: Id, flag: Id)
  {
    e.SetTenantFlag? && e.owner == tenant && e.flag == flag
  }

  /** The override says `v` and the cache, whether the entry has expired or not, does not say otherwise. */
  predicate Stuck(s: State, tenant: Id, flag: Id, v: bool)
  {
    var key := CacheKey(Some(tenant), flag);
    && flag in s.flags
    && OverrideKey(tenant, s.flags[flag].id) in s.overrides && s.overrides[OverrideKey(tenant, s.flags[flag].id)] == v
    && (key in s.cache ==> s.cache[key].cell == Doc(Text(v)))
  }

  lemma StepKeepsStuck(s: State, step: Step, tenant: Id, flag: Id, v: bool)
    requires Inv(s) && Enabled(s, step.event) && Plain(Some(tenant))
    requires Stuck(s, tenant, flag, v) && !Sets(step.event, tenant, flag)
    ensures Stuck(Next(s, step).0, tenant, flag, v)
  {
    if step.event.IsEnabled? {
      KeyInjective(Some(tenant), flag, step.event.tenant, step.event.flag);
    }
  }

  lemma {:induction false} RunKeepsStuck(s: State, steps: seq<Step>, tenant: Id, flag: Id, v: bool)
    requires Inv(s) && AllEnabled(s, steps) && Plain(Some(tenant))
    requires Stuck(s, tenant, flag, v)
    requires forall i :: 0 <= i < |steps| ==> !Sets(steps[i].event, tenant, flag)
    ensures Inv(Run(s, steps)) && Stuck(Run(s, steps), tenant, flag, v)
    decreases |steps|
  {
    if steps != [] {
      var n := |steps| - 1;
      RunKeepsStuck(s, steps[..n], tenant, flag, v);
      StepKeepsInv(Run(s, steps[..n]), steps[n]);
      StepKeepsStuck(Run(s, steps[..n]), steps[n], tenant, flag, v);
    }
  }

  lemma StuckAnswers(s: State, now: int, tenant: Id, flag: Id, v: bool)
    requires Stuck(s, tenant, flag, v) && tenant != ""
    ensures Next(s, Step(now, IsEnabled(flag, Some(tenant)))).1 == Says(v)
  {
  }

  /**
    A set flag is seen at once and for good: after `setTenantFlag`, whatever is asked,
    registered or set for others, every answer for the tenant is the value that was set.
   */
  lemma SetFlagIsSeen(s: State, setting: Step, steps: seq<Step>, ask: Step)
    requires Inv(s) && Enabled(s, setting.event) && setting.event.SetTenantFlag? && Next(s, setting).1 == Saved
    requires AllEnabled(Next(s, setting).0, steps)
    requires forall i :: 0 <= i < |steps| ==> !Sets(steps[i].event, setting.event.owner, setting.event.flag)
    requires ask.event == IsEnabled(setting.event.flag, Some(setting.event.owner))
    ensures Next(Run(Next(s, setting).0, steps), ask).1 == Says(setting.event.isEnabled)
  {
    var s' := Next(s, setting).0;
    var owner, flag, v := setting.event.owner, setting.event.flag, setting.event.isEnabled;
    StepKeepsInv(s, setting);
    assert Stuck(s', owner, flag, v);
    RunKeepsStuck(s', steps, owner, flag, v);
    StuckAnswers(Run(s', steps), ask.now, owner, flag, v);
  }

  // ------------------------------------------------------------------ staleness

  function FlagsBefore(s: State, steps: seq<Step>, i: nat): (flags: Flags)
    requires i <= |steps|
  {
    Run(s, steps[..i]).flags
  }

  /** The entry shows, from the moment `at`, earlier flag definitions and the overrides of today. */
  predicate Shows(earlier: Flags, flags: Flags, overrides: Overrides, t: Option<Id>, f: Id, e: Entry<string>, at: int)
  {
    && e == Entry(Doc(Text(Rule(earlier, overrides, t, f))), Some(at + CacheSeconds(earlier, f)))
    && (f in earlier ==> f in flags && flags[f].id == earlier[f].id)
  }

  /** It shows the definitions of the j-th step. */
  predicate CachedAt(s: State, steps: seq<Step>, overrides: Overrides, t: Option<Id>, f: Id, e: Entry<string>, j: int)
  {
    0 <= j < |steps| && Shows(FlagsBefore(s, steps, j), Run(s, steps).flags, overrides, t, f, e, steps[j].now)
  }

  ghost predicate Explained(s: State, steps: seq<Step>, overrides: Overrides, t: Option<Id>, f: Id, e: Entry<string>)
  {
    exists j :: CachedAt(s, steps, overrides, t, f, e, j)
  }

  ghost predicate AllExplained(s: State, steps: seq<Step>, overrides: Overrides, cache: Cache)
  {
    forall t: Option<Id>, f: Id :: Plain(t) && CacheKey(t, f) in cache ==>
      Explained(s, steps, overrides, t, f, cache[CacheKey(t, f)])
  }

  /** A step leaves this question's override alone. */
  predicate SameOverride(flags: Flags, a: Overrides, b: Overrides, t: Option<Id>, f: Id)
  {
    f in flags && t.Some? ==>
      var o := OverrideKey(t.value, flags[f].id);
      (o in a <==> o in b) && (o in a ==> a[o] == b[o])
  }

  function Fresh(s: State, t: Option<Id>, f: Id, now: int): (e: Entry<string>)
  {
    Entry(Doc(Text(Rule(s.flags, s.overrides, t, f))), Some(now + CacheSeconds(s.flags, f)))
  }

  lemma EntryIsOldOrFresh(s: State, step: Step, t: Option<Id>, f: Id)
    requires Inv(s) && Enabled(s, step.event) && Plain(t)
    requires CacheKey(t, f) in Next(s, step).0.cache
    ensures
      var s' := Next(s, step).0;
      var key := CacheKey(t, f);
      || (key in s.cache && s'.cache[key] == s.cache[key] && SameOverride(s.flags, s.overrides, s'.overrides, t, f))
      || (s'.cache[key] == Fresh(s, t, f, step.now) && s'.overrides == s.overrides && s'.flags == s.flags)
  {
    if step.event.IsEnabled? {
      KeyInjective(t, f, step.event.tenant, step.event.flag);
    } else if step.event.SetTenantFlag? {
      KeyInjective(t, f, Some(step.event.owner), step.event.flag);
    }
  }

  lemma RunExtends(s: State, steps: seq<Step>, more: Step, j: nat)
    requires j <= |steps|
    ensures Run(s, steps + [more]) == Next(Run(s, steps), more).0
    ensures FlagsBefore(s, steps + [more], j) == FlagsBefore(s, steps, j)
  {
    assert (steps + [more])[..|steps|] == steps;
    assert (steps + [more])[..j] == steps[..j];
  }

  lemma StillShown(s: State, step: Step, earlier: Flags, t: Option<Id>, f: Id, e: Entry<string>, at: int)
    requires Shows(earlier, s.flags, s.overrides, t, f, e, at)
    requires SameOverride(s.flags, s.overrides, Next(s, step).0.overrides, t, f)
    ensures Shows(earlier, Next(s, step).0.flags, Next(s, step).0.overrides, t, f, e, at)
  {
  }

  lemma StillCached(s: State, steps: seq<Step>, more: Step, t: Option<Id>, f: Id, e: Entry<string>)
    requires Explained(s, steps, Run(s, steps).overrides, t, f, e)
    requires SameOverride(Run(s, steps).flags, Run(s, steps).overrides, Next(Run(s, steps), more).0.overrides, t, f)
    ensures Explained(s, steps + [more], Next(Run(s, steps), more).0.overrides, t, f, e)
  {
    var j :| CachedAt(s, steps, Run(s, steps).overrides, t, f, e, j);
    RunExtends(s, steps, more, j);
    StillShown(Run(s, steps), more, FlagsBefore(s, steps, j), t, f, e, steps[j].now);
    assert CachedAt(s, steps + [more], Next(Run(s, steps), more).0.overrides, t, f, e, j);
  }

  lemma NewlyCached(s: State, steps: seq<Step>, more: Step, t: Option<Id>, f: Id)
    requires Next(Run(s, steps), more).0.overrides == Run(s, steps).overrides
    requires Next(Run(s, steps), more).0.flags == Run(s, steps).flags
    ensures Explained(s, steps + [more], Run(s, steps).overrides, t, f, Fresh(Run(s, steps), t, f, more.now))
  {
    var n := |steps|;
    RunExtends(s, steps, more, n);
    assert steps[..n] == steps;
    assert Shows(Run(s, steps).flags, Run(s, steps).flags, Run(s, steps).overrides, t, f,
        Fresh(Run(s, steps), t, f, more.now), more.now);
    assert CachedAt(s, steps + [more], Run(s, steps).overrides, t, f, Fresh(Run(s, steps), t, f, more.now), n);
  }

  lemma {:induction false} RunIsExplained(s: State, steps: seq<Step>)
    requires s.cache == map[] && Inv(s) && AllEnabled(s, steps)
    ensures Inv(Run(s, steps)) && AllExplained(s, steps, Run(s, steps).overrides, Run(s, steps).cache)
    decreases |steps|
  {
    if steps != [] {
      var n := |steps| - 1;
      var front := steps[..n];
      RunIsExplained(s, front);
      StepKeepsInv(Run(s, front), steps[n]);
      assert front + [steps[n]] == steps;
      var before, after := Run(s, front), Run(s, steps);
      assert after == Next(before, steps[n]).0;
      forall t: Option<Id>, f: Id | Plain(t) && CacheKey(t, f) in after.cache
        ensures Explained(s, steps, after.overrides, t, f, after.cache[CacheKey(t, f)])
      {
        var key := CacheKey(t, f);
        EntryIsOldOrFresh(before, steps[n], t, f);
        if after.cache[key] == Fresh(before, t, f, steps[n].now) && after.overrides == before.overrides &&
          after.flags == before.flags {
          NewlyCached(s, front, steps[n], t, f);
        } else {
          StillCached(s, front, steps[n], t, f, before.cache[key]);
        }
      }
    }
  }

  /**
    Every answer is the uncached rule with the overrides as they are now and the
    definitions of some step less than 10 minutes before.
   */
  lemma AnswersFollowRule(s: State, steps: seq<Step>, ask: Step) returns (j: nat)
    requires s.cache == map[] && Inv(s) && AllEnabled(s, steps) && Ordered(steps + [ask])
    requires ask.event.IsEnabled? && Plain(ask.event.tenant)
    ensures j <= |steps|
    ensures j < |steps| ==> ask.now - 600 < steps[j].now <= ask.now
    ensures Next(Run(s, steps), ask).1 ==
      Says(Rule(FlagsBefore(s, steps, j), Run(s, steps).overrides, ask.event.tenant, ask.event.flag))
  {
    var before := Run(s, steps);
    var t, f := ask.event.tenant, ask.event.flag;
    var key := CacheKey(t, f);
    RunIsExplained(s, steps);
    if Find(before.cache, key, ask.now).Some? {
      assert Explained(s, steps, before.overrides, t, f, before.cache[key]);
      j :| CachedAt(s, steps, before.overrides, t, f, before.cache[key], j);
      var all := steps + [ask];
      assert all[j] == steps[j] && all[|steps|] == ask;
    } else {
      j := |steps|;
      assert steps[..j] == steps;
    }
  }

  // ------------------------------------------------------------------ the service

  class FeatureFlagsService {
    var flags: Flags
    var overrides: Overrides
    const redis: RedisService<string, string>

    constructor (redis: RedisService<string, string>)
      ensures this.redis == redis && flags == map[] && overrides == map[]
    {
      this.redis := redis;
      flags := map[];
      overrides := map[];
    }

    ghost function Current(): (s: State)
      reads this, redis
    {
      Tables(flags, overrides, redis.data)
    }

    /** Without a connection every answer is the uncached rule. */
    method IsFlagEnabled(flagKey: Id, tenantId: Option<Id>, now: int) returns (enabled: bool)
      modifies redis`data
      ensures redis.ready ==>
        (Current(), Says(enabled)) == Next(old(Current()), Step(now, IsEnabled(flagKey, tenantId)))
      ensures !redis.ready ==> Current() == old(Current()) && enabled == Rule(flags, overrides, tenantId, flagKey)
    {
      var cacheKey := CacheKey(tenantId, flagKey);
      var cached := redis.Get(cacheKey, now);
      if cached.Some? && cached.value.Doc? {
        return cached.value.value == "true";
      }
      if flagKey !in flags {
        redis.Set(cacheKey, "false", 300, now);
        return false;
      }
      var featureFlag := flags[flagKey];
      enabled := featureFlag.defaultEnabled;
      if tenantId.Some? && tenantId.value != "" {
        var o := OverrideKey(tenantId.value, featureFlag.id);
        if o in overrides {
          enabled := overrides[o];
        }
      }
      redis.Set(cacheKey, if enabled then "true" else "false", 600, now);
    }

    /** Without a connection the override is written and the cached answer stays. */
    method SetFlag(tenantId: Id, flagKey: Id, isEnabled: bool, now: int) returns (answer: Answer)
      modifies this`overrides, redis`data
      ensures redis.ready ==>
        (Current(), answer) == Next(old(Current()), Step(now, SetTenantFlag(tenantId, flagKey, isEnabled)))
      ensures !redis.ready ==>
        var (s', a) := Next(old(Current()), Step(now, SetTenantFlag(tenantId, flagKey, isEnabled)));
        answer == a && Current() == s'.(cache := old(redis.data))
      ensures answer.Saved? <==> flagKey in flags
    {
      if flagKey !in flags {
        return UndefinedFlag;
      }
      overrides := overrides[OverrideKey(tenantId, flags[flagKey].id) := isEnabled];
      redis.Delete("ff:" + tenantId + ":" + flagKey);
      answer := Saved;
    }

    method Register(flagKey: Id, defaultEnabled: bool, newId: Id, now: int) returns (answer: Answer)
      modifies this`flags
      ensures (Current(), answer) == Next(old(Current()), Step(now, RegisterFlag(flagKey, defaultEnabled, newId)))
    {
      if flagKey in flags {
        flags := flags[flagKey := flags[flagKey].(defaultEnabled := defaultEnabled)];
      } else {
        flags := flags[flagKey := Flag(newId, defaultEnabled)];
      }
      answer := Saved;
    }
  }
}
