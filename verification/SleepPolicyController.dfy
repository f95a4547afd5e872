/** The sleep policy controller: loops over a namespace's workloads and orders
    that change the API server's objects, each proved against the policy logic. */
module SleepPolicyController {
  import opened Wrappers
  import opened Api
  import opened ConfigHash
  import opened SleepPolicyLogic
  import Spec = SleepPolicyPass

  /** The API server, as far as one namespace goes. `wrote` notes any write. */
  class NamespaceServer {
    var policy: Policy
    var deployments: seq<string>
    var statefulSets: seq<string>
    var orders: map<string, SleepOrder>
    var wrote: bool

    constructor (s: Space)
      ensures State() == s && !wrote
    {
      policy, deployments, statefulSets, orders := s.policy, s.deployments, s.statefulSets, s.orders;
      wrote := false;
    }

    function State(): Space
      reads this
    {
      Space(policy, deployments, statefulSets, orders)
    }

    method UpdatePolicy(copy: Policy)
      modifies this`policy, this`wrote
      ensures policy == copy && wrote
    {
      policy, wrote := copy, true;
    }

    method UpdatePolicyState(desired: map<string, SleepParams>)
      modifies this`policy, this`wrote
      ensures policy == old(policy).(state := Spec.StoredState(desired)) && wrote
    {
      policy, wrote := policy.(state := Spec.StoredState(desired)), true;
    }

    /** An order with finalizers is only marked. */
    method DeleteOrder(key: string)
      requires key in orders
      modifies this`orders, this`wrote
      ensures wrote
      ensures orders == if old(orders)[key].finalizers == {} then old(orders) - {key}
                        else old(orders)[key := old(orders)[key].(deleting := true)]
    {
      wrote := true;
      if orders[key].finalizers == {} {
        orders := orders - {key};
      } else {
        orders := orders[key := orders[key].(deleting := true)];
      }
    }

    method CreateOrder(key: string, order: SleepOrder)
      requires key !in orders
      modifies this`orders, this`wrote
      ensures wrote && orders == old(orders)[key := order]
    {
      wrote := true;
      orders := orders[key := order];
    }

    /** The deletion mark and the status are the server's own; a terminating order
        goes away with its last finalizer. */
    method ReplaceOrder(key: string, order: SleepOrder)
      requires key in orders
      modifies this`orders, this`wrote
      ensures wrote
      ensures orders == if old(orders)[key].deleting && order.finalizers == {} then old(orders) - {key}
                        else old(orders)[key := order.(deleting := old(orders)[key].deleting,
                                                       status := old(orders)[key].status)]
    {
      wrote := true;
      var current := orders[key];
      if current.deleting && order.finalizers == {} {
        orders := orders - {key};
      } else {
        orders := orders[key := order.(deleting := current.deleting, status := current.status)];
      }
    }
  }

  datatype Action = Nothing | Create | Update

  class SleepPolicyReconciler {
    const client: NamespaceServer
    const config: Defaults
    const digest: string -> Hash

    constructor (client: NamespaceServer, config: Defaults, digest: string -> Hash)
      ensures this.client == client && this.config == config && this.digest == digest
    {
      this.client, this.config, this.digest := client, config, digest;
    }

    /** One kind's share of the validation: a default entry for uncovered workloads,
        and for an empty map. */
    method EnsureDefault(entries: map<string, PolicyConfig>, names: seq<string>)
      returns (completed: map<string, PolicyConfig>, changed: bool)
      ensures completed == WithDefault(entries, names)
      ensures changed <==> completed != entries
    {
      completed, changed := entries, false;
      var needsDefault := false;
      for i := 0 to |names|
        invariant !needsDefault && forall k :: 0 <= k < i ==> names[k] in entries
      {
        if names[i] !in completed {
          needsDefault := true;
          break;
        }
      }
      if needsDefault {
        if DEFAULT_KEY !in completed {
          completed := completed[DEFAULT_KEY := ENABLED];
          changed := true;
        }
      }
      if |completed| == 0 {
        assert completed == map[];
        completed := completed[DEFAULT_KEY := ENABLED];
        changed := true;
      }
      assert changed ==> DEFAULT_KEY in completed && DEFAULT_KEY !in entries;
    }

    method CheckAndBuildValidResource(policy: Policy) returns (completed: Policy, changed: bool)
      ensures completed == Completed(policy, client.deployments, client.statefulSets)
      ensures changed <==> completed != policy
    {
      var deployments, statefulSets, more;
      deployments, changed := EnsureDefault(policy.deployments, client.deployments);
      statefulSets, more := EnsureDefault(policy.statefulSets, client.statefulSets);
      completed := policy.(deployments := deployments, statefulSets := statefulSets);
      changed := changed || more;
    }

    method AddWorkloads(found: map<string, SleepParams>, policy: Policy, kind: string,
                        entries: map<string, PolicyConfig>, names: seq<string>)
      returns (desired: map<string, SleepParams>)
      ensures desired == AddDesired(found, config, policy, kind, entries, names)
    {
      desired := found;
      for i := 0 to |names|
        invariant desired == AddDesired(found, config, policy, kind, entries, names[..i])
      {
        assert names[..i + 1][..i] == names[..i];
        var params := GetEffectiveParams(config, policy.namespace, names[i], kind, entries);
        if params.Some? {
          var key := GetSleepOrderName(policy.name, params.value.kind, params.value.name);
          desired := desired[key := params.value];
        }
      }
      assert names[..|names|] == names;
    }

    method BuildTheDesiredState() returns (desired: map<string, SleepParams>)
      ensures desired == DesiredState(config, client.State())
    {
      var policy := client.policy;
      desired := AddWorkloads(map[], policy, KIND_DEPLOYMENT, policy.deployments, client.deployments);
      desired := AddWorkloads(desired, policy, KIND_STATEFUL_SET, policy.statefulSets, client.statefulSets);
    }

    method DeleteUndesiredResources(desired: map<string, SleepParams>)
      modifies client`orders, client`wrote
      ensures client.orders == AfterDelete(old(client.orders), desired.Keys)
      ensures client.wrote <==> (old(client.wrote) || SomeOutside(old(client.orders), desired.Keys))
    {
      hide AfterDelete, SomeOutside;
      ghost var before := client.orders;
      var todo := client.orders.Keys;
      DeleteNothing(before, desired.Keys);
      while todo != {}
        invariant todo <= before.Keys
        invariant client.orders == AfterDelete(before, desired.Keys + todo)
        invariant client.wrote <==> (old(client.wrote) || SomeOutside(before, desired.Keys + todo))
        decreases |todo|
      {
        var key :| key in todo;
        DeleteOneMore(before, desired.Keys, todo, key);
        if key !in desired.Keys {
          client.DeleteOrder(key);
        }
        todo := todo - {key};
      }
      assert desired.Keys + todo == desired.Keys;
    }

    method NeedToDeploySleepOrder(policyName: string, params: SleepParams) returns (action: Action)
      ensures var key := GetSleepOrderName(policyName, params.kind, params.name);
              action == if key !in client.orders then Create
                        else if Outdated(digest, client.orders[key], params) then Update else Nothing
    {
      var expectedName := GetSleepOrderName(policyName, params.kind, params.name);
      if expectedName in client.orders {
        if client.orders[expectedName].configHash != Some(ConfigHashCalc(digest, params)) {
          return Update;
        }
        return Nothing;
      }
      return Create;
    }

    method DeploySleepOrderResource(policy: Policy, params: SleepParams, action: Action)
      requires var key := GetSleepOrderName(policy.name, params.kind, params.name);
               (action.Create? ==> key !in client.orders) && (action.Update? ==> key in client.orders)
      modifies client`orders, client`wrote
      ensures var key := GetSleepOrderName(policy.name, params.kind, params.name);
              var deployed := Deployed(digest, old(client.orders), key, params);
              client.orders == if action.Nothing? then old(client.orders)
                               else if deployed.None? then old(client.orders) - {key}
                               else old(client.orders)[key := deployed.value]
      ensures var key := GetSleepOrderName(policy.name, params.kind, params.name);
              client.wrote <==> (old(client.wrote) || action.Create?
                                 || (action.Update? && Outdated(digest, old(client.orders)[key], params)))
    {
      var key := GetSleepOrderName(policy.name, params.kind, params.name);
      var hash := ConfigHashCalc(digest, params);
      var spec := OrderSpec(TargetRef(params.kind, params.name), params.wakeAt, params.sleepAt,
                            params.timezone, params.workingDays);
      var sleepOrder := SleepOrder(spec, Some(hash), {}, false, EMPTY_STATUS);
      match action
      case Create =>
        client.CreateOrder(key, sleepOrder);
      case Update =>
        var current := client.orders[key];
        if current.configHash == Some(hash) {
          assert client.orders[key := current] == client.orders;
          return;
        }
        client.ReplaceOrder(key, sleepOrder);
      case Nothing =>
    }

    /** The apply loop visits the desired records in an arbitrary order. */
    method ApplyDesired(desired: map<string, SleepParams>)
      requires forall k :: k in desired ==> k == GetSleepOrderName(client.policy.name, desired[k].kind, desired[k].name)
      modifies client`orders, client`wrote
      ensures client.orders == AfterApply(digest, old(client.orders), desired)
      ensures client.wrote <==> (old(client.wrote) || SomeToWrite(digest, old(client.orders), desired))
    {
      hide GetSleepOrderName, AfterApply, Deployed, Outdated, SomeToWrite;
      ghost var before := client.orders;
      var todo := desired.Keys;
      ApplyNothing(digest, before);
      assert desired - todo == map[];
      while todo != {}
        invariant todo <= desired.Keys
        invariant client.orders == AfterApply(digest, before, desired - todo)
        invariant client.wrote <==> (old(client.wrote) || SomeToWrite(digest, before, desired - todo))
        decreases |todo|
      {
        var key :| key in todo;
        var params := desired[key];
        ApplyOneMore(digest, before, desired - todo, key, params);
        assert (desired - todo)[key := params] == desired - (todo - {key});
        var action := NeedToDeploySleepOrder(client.policy.name, params);
        if action != Nothing {
          DeploySleepOrderResource(client.policy, params, action);
        }
        todo := todo - {key};
      }
      assert desired - todo == desired;
    }

    /** One pass; the result says whether to be called again at once. */
    method Reconcile() returns (requeue: bool)
      modifies client
      ensures var pass := Spec.Reconcile(config, digest, old(client.State()));
              client.State() == pass.space && requeue == pass.requeue
              && (client.wrote <==> (old(client.wrote) || pass.wrote))
    {
      hide GetSleepOrderName, DesiredState, Completed, AfterDelete, AfterApply;
      hide SomeOutside, SomeToWrite, Spec.LeavesOrders;
      var policy, changed := CheckAndBuildValidResource(client.policy);
      if changed {
        client.UpdatePolicy(policy);
        return true;
      }
      if policy.deleting {
        policy := policy.(finalizers := policy.finalizers - {SLEEP_POLICY_FINALIZER});
        client.UpdatePolicy(policy);
        return false;
      }
      if SLEEP_POLICY_FINALIZER !in policy.finalizers {
        policy := policy.(finalizers := policy.finalizers + {SLEEP_POLICY_FINALIZER});
        client.UpdatePolicy(policy);
        return true;
      }
      ghost var before := client.orders;
      var desired := BuildTheDesiredState();
      DesiredKeysAreNames(config, client.State());
      WritesNeeded(digest, before, desired);
      DeleteUndesiredResources(desired);
      ApplyDesired(desired);
      if policy.state != Some(desired) {
        client.UpdatePolicyState(desired);
      }
      return false;
    }
  }

  predicate SomeOutside(orders: map<string, SleepOrder>, keep: set<string>) {
    exists k :: k in orders && k !in keep
  }

  lemma DeleteNothing(before: map<string, SleepOrder>, keep: set<string>)
    ensures AfterDelete(before, keep + before.Keys) == before && !SomeOutside(before, keep + before.Keys)
  {
  }

  /** Visiting one more key ends its order only, and only if it is not desired. */
  lemma DeleteOneMore(before: map<string, SleepOrder>, keep: set<string>, todo: set<string>, key: string)
    requires key in todo && key in before
    ensures var orders := AfterDelete(before, keep + todo);
            && key in orders && orders[key] == before[key]
            && AfterDelete(before, keep + (todo - {key}))
               == (if key in keep then orders
                   else if before[key].finalizers == {} then orders - {key}
                   else orders[key := before[key].(deleting := true)])
    ensures SomeOutside(before, keep + (todo - {key})) <==> (SomeOutside(before, keep + todo) || key !in keep)
  {
  }

  /** Some desired order has to be created or updated. */
  predicate SomeToWrite(digest: string -> Hash, orders: map<string, SleepOrder>, desired: map<string, SleepParams>) {
    exists k :: k in desired && (k !in orders || Outdated(digest, orders[k], desired[k]))
  }

  lemma ApplyNothing(digest: string -> Hash, before: map<string, SleepOrder>)
    ensures AfterApply(digest, before, map[]) == before && !SomeToWrite(digest, before, map[])
  {
  }

  /** Visiting one more key changes its order only, whatever was visited before. */
  lemma ApplyOneMore(digest: string -> Hash, before: map<string, SleepOrder>, done: map<string, SleepParams>,
                     key: string, p: SleepParams)
    requires key !in done
    ensures var orders, deployed := AfterApply(digest, before, done), Deployed(digest, before, key, p);
            && (key in orders <==> key in before) && (key in orders ==> orders[key] == before[key])
            && Deployed(digest, orders, key, p) == deployed
            && (key in orders && !Outdated(digest, orders[key], p) ==>
                  deployed.Some? && orders[key := deployed.value] == orders)
            && AfterApply(digest, before, done[key := p])
               == (if deployed.None? then orders - {key} else orders[key := deployed.value])
    ensures SomeToWrite(digest, before, done[key := p])
       <==> (SomeToWrite(digest, before, done) || key !in before || Outdated(digest, before[key], p))
  {
    MoreToWrite(digest, before, done, key, p);
    DeployedLocally(digest, before, AfterApply(digest, before, done), key, p);
    hide SomeToWrite, Outdated, Deployed;
    var orders, deployed := AfterApply(digest, before, done), Deployed(digest, before, key, p);
    var after := AfterApply(digest, before, done[key := p]);
    var expected := if deployed.None? then orders - {key} else orders[key := deployed.value];
    forall k ensures (k in after <==> k in expected) && (k in after ==> after[k] == expected[k]) {
      if k != key {
        assert k in done[key := p] <==> k in done;
      }
    }
    assert after == expected;
  }

  lemma DeployedLocally(digest: string -> Hash, before: map<string, SleepOrder>, orders: map<string, SleepOrder>,
                        key: string, p: SleepParams)
    requires (key in orders <==> key in before) && (key in orders ==> orders[key] == before[key])
    ensures var deployed := Deployed(digest, before, key, p);
            && Deployed(digest, orders, key, p) == deployed
            && (key in orders && !Outdated(digest, orders[key], p) ==>
                  deployed.Some? && orders[key := deployed.value] == orders)
  {
  }

  lemma MoreToWrite(digest: string -> Hash, before: map<string, SleepOrder>, done: map<string, SleepParams>,
                    key: string, p: SleepParams)
    requires key !in done
    ensures SomeToWrite(digest, before, done[key := p])
       <==> (SomeToWrite(digest, before, done) || key !in before || Outdated(digest, before[key], p))
  {
  }

  lemma DesiredKeysAreNames(d: Defaults, s: Space)
    ensures var desired := DesiredState(d, s);
            forall k :: k in desired ==> k == GetSleepOrderName(s.policy.name, desired[k].kind, desired[k].name)
  {
    hide DesiredState, GetSleepOrderName, GetEffectiveParams;
    var desired := DesiredState(d, s);
    forall k | k in desired ensures k == GetSleepOrderName(s.policy.name, desired[k].kind, desired[k].name) {
      var kind, name := DesiredKeysAreWorkloads(d, s, k);
      EffectiveNames(d, s.policy.namespace, name, kind, Entries(s.policy, kind));
    }
  }

  /** The two loops write exactly when the orders are not already in line. */
  lemma WritesNeeded(digest: string -> Hash, before: map<string, SleepOrder>, desired: map<string, SleepParams>)
    ensures SomeOutside(before, desired.Keys) || SomeToWrite(digest, AfterDelete(before, desired.Keys), desired)
       <==> !Spec.LeavesOrders(digest, before, desired)
  {
  }
}
