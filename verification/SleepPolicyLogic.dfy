/** The policy side: which workloads a policy puts to sleep, and how a
    namespace's orders are brought in line with that. */
module SleepPolicyLogic {
  import opened Wrappers
  import opened Text
  import opened WorkingDays
  import opened Api
  import opened ConfigHash

  const DEFAULT_KEY := "default"
  const SLEEP_POLICY_FINALIZER := "sleepod.io/sleep-policy-finalizer"
  /** "Monday,Tuesday,Wednesday,Thursday,Friday,Saturday,Sunday" */
  const EVERY_DAY := Join(ALL_DAYS, ',')

  datatype PolicyConfig = PolicyConfig(enable: bool, wakeAt: string, sleepAt: string,
                                       timezone: string, workingDays: string)

  const ENABLED := PolicyConfig(true, "", "", "", "")

  datatype Defaults = Defaults(wakeAt: string, sleepAt: string, timezone: string,
                               weekend: string, excludeWeekend: bool)

  /** `state` is the last desired state reported; an empty one is stored as absent. */
  datatype Policy = Policy(name: string, namespace: string,
                           deployments: map<string, PolicyConfig>, statefulSets: map<string, PolicyConfig>,
                           finalizers: set<string>, deleting: bool,
                           state: Option<map<string, SleepParams>>)

  /** A namespace: its policy, the names of its workloads, and its sleep orders. */
  datatype Space = Space(policy: Policy, deployments: seq<string>, statefulSets: seq<string>,
                         orders: map<string, SleepOrder>)

  // ----- Names -----

  function GetSleepOrderName(policyName: string, kind: string, name: string): string {
    var lower := ToLower(kind);
    var short := if lower == ToLower(KIND_DEPLOYMENT) then "dep"
                 else if lower == ToLower(KIND_STATEFUL_SET) then "sts" else lower;
    policyName + "-" + short + "-" + name
  }

  lemma OrderNameText(policyName: string, name: string)
    ensures GetSleepOrderName(policyName, "Deployment", name) == policyName + "-dep-" + name
    ensures GetSleepOrderName(policyName, "StatefulSet", name) == policyName + "-sts-" + name
  {
    assert ToLower(KIND_DEPLOYMENT)[0] == 'd' && ToLower(KIND_STATEFUL_SET)[0] == 's';
    assert policyName + "-" + "dep" + "-" + name == policyName + "-dep-" + name;
    assert policyName + "-" + "sts" + "-" + name == policyName + "-sts-" + name;
  }

  /** The order of a workload is named after it and no other. */
  lemma OrderNamesAreDistinct(policyName: string, kind: string, name: string, kind': string, name': string)
    requires Supported(kind) && Supported(kind')
    ensures GetSleepOrderName(policyName, kind, name) == GetSleepOrderName(policyName, kind', name')
       <==> kind == kind' && name == name'
  {
    var a, b := GetSleepOrderName(policyName, kind, name), GetSleepOrderName(policyName, kind', name');
    assert ToLower(KIND_DEPLOYMENT)[0] == 'd' && ToLower(KIND_STATEFUL_SET)[0] == 's';
    var p := |policyName| + 1;
    if a == b {
      assert a[p] == (if kind == KIND_DEPLOYMENT then 'd' else 's');
      assert b[p] == (if kind' == KIND_DEPLOYMENT then 'd' else 's');
      assert a[p + 4..] == name && b[p + 4..] == name';
    }
  }

  // ----- Defaults -----

  predicate NeedsDefault(m: map<string, PolicyConfig>, names: seq<string>) {
    DEFAULT_KEY !in m && (m == map[] || exists i :: 0 <= i < |names| && names[i] !in m)
  }

  function WithDefault(m: map<string, PolicyConfig>, names: seq<string>): map<string, PolicyConfig> {
    if NeedsDefault(m, names) then m[DEFAULT_KEY := ENABLED] else m
  }

  function Completed(p: Policy, deployments: seq<string>, statefulSets: seq<string>): Policy {
    p.(deployments := WithDefault(p.deployments, deployments),
       statefulSets := WithDefault(p.statefulSets, statefulSets))
  }

  /** Completing a policy keeps every entry, adds at most the default, covers every
      workload by a specific or a default entry, and needs doing only once: for an
      empty policy, and for one without a default that some workload is missing in. */
  lemma DefaultCovers(m: map<string, PolicyConfig>, names: seq<string>)
    ensures var c := WithDefault(m, names);
            && (forall k :: k in m ==> k in c && c[k] == m[k])
            && (forall k :: k in c ==> k in m || k == DEFAULT_KEY)
            && (forall i :: 0 <= i < |names| ==> names[i] in c || DEFAULT_KEY in c)
            && c != map[]
            && !NeedsDefault(c, names)
            && (c != m <==> m == map[] || (DEFAULT_KEY !in m && !forall i :: 0 <= i < |names| ==> names[i] in m))
  {
  }

  /** The entry that governs a workload: its own, and else the default one. */
  predicate Governs(c: PolicyConfig, m: map<string, PolicyConfig>, name: string) {
    if name in m then m[name] == c else "default" in m && m["default"] == c
  }

  lemma WithDefaultGoverns(m: map<string, PolicyConfig>, names: seq<string>, name: string, c: PolicyConfig)
    requires name in names
    ensures Governs(c, WithDefault(m, names), name) <==>
              if name in m || "default" in m then Governs(c, m, name) else c == PolicyConfig(true, "", "", "", "")
  {
    var i :| 0 <= i < |names| && names[i] == name;
  }

  // ----- Effective parameters -----

  function OrElse(text: string, default: string): string {
    if text == "" then default else text
  }

  function ResolveWorkingDays(d: Defaults, workingDays: string): string {
    if workingDays != "" then workingDays
    else if d.excludeWeekend && d.weekend != "" then WorkingDaysOutside(d.weekend)
    else EVERY_DAY
  }

  function ResolveParams(d: Defaults, namespace: string, name: string, kind: string, c: PolicyConfig)
    : Option<SleepParams>
  {
    if !c.enable then None
    else Some(SleepParams(name, namespace, kind, OrElse(c.sleepAt, d.sleepAt), OrElse(c.wakeAt, d.wakeAt),
                          OrElse(c.timezone, d.timezone), ResolveWorkingDays(d, c.workingDays)))
  }

  function GetEffectiveParams(d: Defaults, namespace: string, name: string, kind: string,
                              m: map<string, PolicyConfig>): Option<SleepParams>
  {
    if name in m then ResolveParams(d, namespace, name, kind, m[name])
    else if DEFAULT_KEY in m then ResolveParams(d, namespace, name, kind, m[DEFAULT_KEY])
    else None
  }

  lemma EveryDayWorks(d: Weekday)
    ensures DayWorking(EVERY_DAY, d)
  {
    forall i | 0 <= i < |ALL_DAYS| ensures !InWeekend("", ALL_DAYS[i]) {
      assert ALL_DAYS[i] == FullName((i + 1) % 7);
      NothingIsBlank((i + 1) % 7);
    }
    RemainingAll(ALL_DAYS, "", |ALL_DAYS|);
    assert ALL_DAYS[..|ALL_DAYS|] == ALL_DAYS;
    NothingIsBlank(d);
    WeekendComplement("", d);
  }

  lemma NothingIsBlank(e: Weekday)
    ensures !InWeekend("", FullName(e))
  {
  }

  lemma {:induction false} RemainingAll(days: seq<string>, weekend: string, n: nat)
    requires n <= |days| && forall i :: 0 <= i < n ==> !InWeekend(weekend, days[i])
    ensures Remaining(days[..n], weekend) == days[..n]
  {
    hide InWeekend;
    if n > 0 {
      RemainingAll(days, weekend, n - 1);
      var part := days[..n];
      assert part[..n - 1] == days[..n - 1] && part[n - 1] == days[n - 1];
      assert Remaining(part, weekend) == Remaining(days[..n - 1], weekend) + [days[n - 1]];
    }
  }

  /** An entry without working days of its own works every day outside the
      configured weekend; but a weekend that takes the whole week takes nothing. */
  lemma DefaultWorkingDays(d: Defaults, day: Weekday)
    ensures DayWorking(ResolveWorkingDays(d, ""), day)
       <==> (!d.excludeWeekend || d.weekend == "" || !InWeekend(d.weekend, FullName(day))
             || forall x :: x in ALL_DAYS ==> InWeekend(d.weekend, x))
  {
    if d.excludeWeekend && d.weekend != "" {
      WeekendComplement(d.weekend, day);
    } else {
      EveryDayWorks(day);
    }
  }

  // ----- The desired state -----

  function AddDesired(found: map<string, SleepParams>, d: Defaults, p: Policy, kind: string,
                      m: map<string, PolicyConfig>, names: seq<string>): map<string, SleepParams>
  {
    if names == [] then found
    else
      var front, name := names[..|names| - 1], names[|names| - 1];
      var rest := AddDesired(found, d, p, kind, m, front);
      match GetEffectiveParams(d, p.namespace, name, kind, m)
      case None => rest
      case Some(params) => rest[GetSleepOrderName(p.name, params.kind, params.name) := params]
  }

  function DesiredState(d: Defaults, s: Space): map<string, SleepParams> {
    var p := s.policy;
    AddDesired(AddDesired(map[], d, p, KIND_DEPLOYMENT, p.deployments, s.deployments),
               d, p, KIND_STATEFUL_SET, p.statefulSets, s.statefulSets)
  }

  /** The workloads of a namespace, the entries that govern them, what they come to. */
  predicate Listed(s: Space, kind: string, name: string) {
    (kind == KIND_DEPLOYMENT && name in s.deployments) || (kind == KIND_STATEFUL_SET && name in s.statefulSets)
  }

  function Entries(p: Policy, kind: string): map<string, PolicyConfig> {
    if kind == KIND_DEPLOYMENT then p.deployments else p.statefulSets
  }

  function EffectiveIn(d: Defaults, s: Space, kind: string, name: string): Option<SleepParams> {
    GetEffectiveParams(d, s.policy.namespace, name, kind, Entries(s.policy, kind))
  }

  function Workloads(s: Space, kind: string): seq<string> {
    if kind == KIND_DEPLOYMENT then s.deployments else s.statefulSets
  }

  /** Of a policy completion changes nothing but the two maps of entries. It leaves a
      listed workload to the entry it had, and gives every other one an enabled entry
      that leaves all parameters to the configured defaults. There is something to
      complete exactly when, for one of the kinds, no entry is there at all, or no
      default and a workload has none. */
  lemma CompletionGoverns(s: Space, kind: string, name: string, c: PolicyConfig)
    requires Supported(kind)
    ensures var p, before := Completed(s.policy, s.deployments, s.statefulSets), Entries(s.policy, kind);
            && p.(deployments := s.policy.deployments, statefulSets := s.policy.statefulSets) == s.policy
            && (Listed(s, kind, name) ==>
                  (Governs(c, Entries(p, kind), name) <==>
                     if name in before || "default" in before then Governs(c, before, name)
                     else c == PolicyConfig(true, "", "", "", "")))
            && (Entries(p, kind) != before <==>
                  before == map[] || ("default" !in before && exists other :: Listed(s, kind, other) && other !in before))
  {
    var m, names := Entries(s.policy, kind), Workloads(s, kind);
    assert forall other :: Listed(s, kind, other) <==> other in names;
    assert KIND_DEPLOYMENT != KIND_STATEFUL_SET;
    DefaultCovers(m, names);
    if name in names {
      WithDefaultGoverns(m, names, name, c);
    }
  }

  lemma EffectiveNames(d: Defaults, namespace: string, name: string, kind: string, m: map<string, PolicyConfig>)
    ensures var e := GetEffectiveParams(d, namespace, name, kind, m);
            e.Some? ==> e.value.name == name && e.value.kind == kind && e.value.namespace == namespace
  {
  }

  lemma {:induction false} AddDesiredExact(found: map<string, SleepParams>, d: Defaults, p: Policy, kind: string,
                                           m: map<string, PolicyConfig>, names: seq<string>, name: string)
    requires Supported(kind)
    ensures var key := GetSleepOrderName(p.name, kind, name);
            var e, all := GetEffectiveParams(d, p.namespace, name, kind, m), AddDesired(found, d, p, kind, m, names);
            if name in names && e.Some? then key in all && all[key] == e.value
            else (key in all <==> key in found) && (key in found ==> all[key] == found[key])
  {
    hide GetSleepOrderName, GetEffectiveParams;
    if names != [] {
      var front, last := names[..|names| - 1], names[|names| - 1];
      AddDesiredExact(found, d, p, kind, m, front, name);
      EffectiveNames(d, p.namespace, last, kind, m);
      OrderNamesAreDistinct(p.name, kind, last, kind, name);
      assert name in names <==> name in front || name == last;
    }
  }

  lemma {:induction false} AddDesiredAdds(found: map<string, SleepParams>, d: Defaults, p: Policy, kind: string,
                                          m: map<string, PolicyConfig>, names: seq<string>, key: string)
    ensures var all := AddDesired(found, d, p, kind, m, names);
            if exists name :: name in names && GetEffectiveParams(d, p.namespace, name, kind, m).Some?
                 && key == GetSleepOrderName(p.name, kind, name) then key in all
            else (key in all <==> key in found) && (key in found ==> all[key] == found[key])
  {
    hide GetSleepOrderName, GetEffectiveParams;
    if names != [] {
      var front, last := names[..|names| - 1], names[|names| - 1];
      AddDesiredAdds(found, d, p, kind, m, front, key);
      EffectiveNames(d, p.namespace, last, kind, m);
      assert forall name :: name in names <==> name in front || name == last;
    }
  }

  lemma DesiredIsEffective(d: Defaults, s: Space, kind: string, name: string)
    requires Supported(kind)
    ensures var key := GetSleepOrderName(s.policy.name, kind, name);
            var e, desired := EffectiveIn(d, s, kind, name), DesiredState(d, s);
            && (key in desired <==> Listed(s, kind, name) && e.Some?)
            && (key in desired ==> desired[key] == e.value)
  {
    hide GetSleepOrderName, GetEffectiveParams;
    var p := s.policy;
    var first := AddDesired(map[], d, p, KIND_DEPLOYMENT, p.deployments, s.deployments);
    var key := GetSleepOrderName(p.name, kind, name);
    if kind == KIND_DEPLOYMENT {
      AddDesiredExact(map[], d, p, kind, p.deployments, s.deployments, name);
      AddDesiredAdds(first, d, p, KIND_STATEFUL_SET, p.statefulSets, s.statefulSets, key);
      forall other ensures key != GetSleepOrderName(p.name, KIND_STATEFUL_SET, other) {
        OrderNamesAreDistinct(p.name, kind, name, KIND_STATEFUL_SET, other);
      }
    } else {
      AddDesiredExact(first, d, p, kind, p.statefulSets, s.statefulSets, name);
      AddDesiredAdds(map[], d, p, KIND_DEPLOYMENT, p.deployments, s.deployments, key);
      forall other ensures key != GetSleepOrderName(p.name, KIND_DEPLOYMENT, other) {
        OrderNamesAreDistinct(p.name, kind, name, KIND_DEPLOYMENT, other);
      }
    }
  }

  /** The days an entry lets its workload work: those of its own list, else those
      outside the configured weekend, unless that takes the whole week. */
  predicate EntryWorks(d: Defaults, c: PolicyConfig, day: Weekday) {
    if c.workingDays != "" then DayWorking(c.workingDays, day)
    else !d.excludeWeekend || d.weekend == "" || !InWeekend(d.weekend, FullName(day))
         || forall x :: x in ALL_DAYS ==> InWeekend(d.weekend, x)
  }

  /** The record has the entry's own parameters, and the default where it has none. */
  predicate Fills(d: Defaults, c: PolicyConfig, p: SleepParams) {
    && p.wakeAt == (if c.wakeAt != "" then c.wakeAt else d.wakeAt)
    && p.sleepAt == (if c.sleepAt != "" then c.sleepAt else d.sleepAt)
    && p.timezone == (if c.timezone != "" then c.timezone else d.timezone)
    && (c.workingDays != "" ==> p.workingDays == c.workingDays)
    && forall day: Weekday :: DayWorking(p.workingDays, day) <==> EntryWorks(d, c, day)
  }

  lemma GoverningEntryIsEffective(d: Defaults, namespace: string, name: string, kind: string,
                                  m: map<string, PolicyConfig>, c: PolicyConfig)
    requires Governs(c, m, name)
    ensures var e := GetEffectiveParams(d, namespace, name, kind, m);
            && (e.Some? <==> c.enable)
            && (e.Some? ==> Fills(d, c, e.value))
  {
    hide DayWorking, InWeekend, WorkingDaysOutside;
    forall day: Weekday ensures DayWorking(ResolveWorkingDays(d, c.workingDays), day) <==> EntryWorks(d, c, day) {
      if c.workingDays == "" {
        DefaultWorkingDays(d, day);
      }
    }
    hide ResolveWorkingDays, EntryWorks;
  }

  /** The desired state holds exactly one record for each listed workload whose own,
      else default, entry is enabled, under that workload's own name, and the record
      says what this entry says. */
  lemma DesiredStateExact(d: Defaults, s: Space, kind: string, name: string)
    requires Supported(kind)
    ensures var key, m := GetSleepOrderName(s.policy.name, kind, name), Entries(s.policy, kind);
            var desired := DesiredState(d, s);
            && (key in desired <==> Listed(s, kind, name) && exists c :: Governs(c, m, name) && c.enable)
            && (forall c :: key in desired && Governs(c, m, name) ==>
                  && desired[key].name == name && desired[key].kind == kind
                  && desired[key].namespace == s.policy.namespace
                  && Fills(d, c, desired[key]))
  {
    var m := Entries(s.policy, kind);
    DesiredIsEffective(d, s, kind, name);
    EffectiveNames(d, s.policy.namespace, name, kind, m);
    forall c | Governs(c, m, name)
      ensures var e := EffectiveIn(d, s, kind, name);
              (e.Some? <==> c.enable) && (e.Some? ==> Fills(d, c, e.value))
    {
      GoverningEntryIsEffective(d, s.policy.namespace, name, kind, m, c);
    }
    if EffectiveIn(d, s, kind, name).Some? {
      var c := if name in m then m[name] else m["default"];
      assert Governs(c, m, name);
    }
    hide GetSleepOrderName, DesiredState, GetEffectiveParams, Fills, Listed;
  }

  /** Nothing else is desired: every key is some listed workload's. */
  lemma DesiredKeysAreWorkloads(d: Defaults, s: Space, key: string) returns (kind: string, name: string)
    requires key in DesiredState(d, s)
    ensures Supported(kind) && Listed(s, kind, name) && key == GetSleepOrderName(s.policy.name, kind, name)
    ensures EffectiveIn(d, s, kind, name) == Some(DesiredState(d, s)[key])
  {
    hide GetSleepOrderName, GetEffectiveParams;
    var p := s.policy;
    var first := AddDesired(map[], d, p, KIND_DEPLOYMENT, p.deployments, s.deployments);
    AddDesiredAdds(map[], d, p, KIND_DEPLOYMENT, p.deployments, s.deployments, key);
    AddDesiredAdds(first, d, p, KIND_STATEFUL_SET, p.statefulSets, s.statefulSets, key);
    if exists n :: n in s.statefulSets && GetEffectiveParams(d, p.namespace, n, KIND_STATEFUL_SET, p.statefulSets).Some?
                && key == GetSleepOrderName(p.name, KIND_STATEFUL_SET, n) {
      kind := KIND_STATEFUL_SET;
      name :| name in s.statefulSets && GetEffectiveParams(d, p.namespace, name, KIND_STATEFUL_SET, p.statefulSets).Some?
        && key == GetSleepOrderName(p.name, KIND_STATEFUL_SET, name);
    } else {
      kind := KIND_DEPLOYMENT;
      name :| name in s.deployments && GetEffectiveParams(d, p.namespace, name, KIND_DEPLOYMENT, p.deployments).Some?
        && key == GetSleepOrderName(p.name, KIND_DEPLOYMENT, name);
    }
    DesiredIsEffective(d, s, kind, name);
  }

  // ----- Bringing the orders in line -----

  function SpecOf(p: SleepParams): OrderSpec {
    OrderSpec(TargetRef(p.kind, p.name), p.wakeAt, p.sleepAt, p.timezone, p.workingDays)
  }

  /** Deleting an order that has finalizers only marks it. */
  function AfterDelete(orders: map<string, SleepOrder>, keep: set<string>): map<string, SleepOrder> {
    map k | k in orders && (k in keep || orders[k].finalizers != {}) ::
      if k in keep then orders[k] else orders[k].(deleting := true)
  }

  predicate Outdated(digest: string -> Hash, order: SleepOrder, p: SleepParams) {
    order.configHash != Some(ConfigHashCalc(digest, p))
  }

  /** The order after the apply loop has visited its key. An update rebuilds it
      without finalizers, so a terminating order goes away. */
  function Deployed(digest: string -> Hash, orders: map<string, SleepOrder>, key: string, p: SleepParams)
    : Option<SleepOrder>
  {
    var hash := ConfigHashCalc(digest, p);
    if key !in orders then Some(SleepOrder(SpecOf(p), Some(hash), {}, false, EMPTY_STATUS))
    else if !Outdated(digest, orders[key], p) then Some(orders[key])
    else if orders[key].deleting then None
    else Some(SleepOrder(SpecOf(p), Some(hash), {}, false, orders[key].status))
  }

  function AfterApply(digest: string -> Hash, orders: map<string, SleepOrder>, desired: map<string, SleepParams>)
    : map<string, SleepOrder>
  {
    map k | k in orders.Keys + desired.Keys && (k in desired ==> Deployed(digest, orders, k, desired[k]).Some?) ::
      if k in desired then Deployed(digest, orders, k, desired[k]).value else orders[k]
  }

  /** Both loops of a pass. */
  function InLine(digest: string -> Hash, orders: map<string, SleepOrder>, desired: map<string, SleepParams>)
    : map<string, SleepOrder>
  {
    AfterApply(digest, AfterDelete(orders, desired.Keys), desired)
  }
}
