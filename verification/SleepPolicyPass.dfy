/** One reconcile pass of a policy, and what passes converge to. */
module SleepPolicyPass {
  import opened Wrappers
  import opened Api
  import opened ConfigHash
  import opened SleepPolicyLogic

  /** `wrote` says whether the pass sent any write to the API server. */
  datatype PolicyPass = PolicyPass(space: Space, requeue: bool, wrote: bool)

  function StoredState(desired: map<string, SleepParams>): Option<map<string, SleepParams>> {
    if desired == map[] then None else Some(desired)
  }

  /** Every desired order is there with the current hash. */
  predicate AllCurrent(digest: string -> Hash, orders: map<string, SleepOrder>, desired: map<string, SleepParams>) {
    forall k :: k in desired ==> k in orders && !Outdated(digest, orders[k], desired[k])
  }

  predicate LeavesOrders(digest: string -> Hash, orders: map<string, SleepOrder>, desired: map<string, SleepParams>) {
    orders.Keys == desired.Keys && AllCurrent(digest, orders, desired)
  }

  function Reconcile(d: Defaults, digest: string -> Hash, s: Space): PolicyPass {
    var p := Completed(s.policy, s.deployments, s.statefulSets);
    if p != s.policy then PolicyPass(s.(policy := p), true, true)
    else if p.deleting then
      PolicyPass(s.(policy := p.(finalizers := p.finalizers - {SLEEP_POLICY_FINALIZER})), false, true)
    else if SLEEP_POLICY_FINALIZER !in p.finalizers then
      PolicyPass(s.(policy := p.(finalizers := p.finalizers + {SLEEP_POLICY_FINALIZER})), true, true)
    else
      var desired := DesiredState(d, s);
      PolicyPass(s.(orders := InLine(digest, s.orders, desired),
                    policy := if p.state == Some(desired) then p else p.(state := StoredState(desired))),
                 false,
                 !LeavesOrders(digest, s.orders, desired) || p.state != Some(desired))
  }

  // ----- What applying the desired state achieves -----

  predicate NoneTerminating(orders: map<string, SleepOrder>, desired: map<string, SleepParams>) {
    forall k :: k in orders && k in desired ==> !orders[k].deleting
  }

  /** An order whose hash is current has the current spec. */
  predicate HashFaithful(digest: string -> Hash, orders: map<string, SleepOrder>, desired: map<string, SleepParams>) {
    forall k :: k in orders && k in desired && !Outdated(digest, orders[k], desired[k]) ==>
      orders[k].spec == SpecOf(desired[k])
  }

  /** Every undesired order is gone, or terminating because a finalizer holds it. */
  lemma UndesiredOrdersEnd(digest: string -> Hash, orders: map<string, SleepOrder>, desired: map<string, SleepParams>,
                           k: string)
    requires k !in desired
    ensures var after := InLine(digest, orders, desired);
            && (k in after <==> k in orders && orders[k].finalizers != {})
            && (k in after ==> after[k] == orders[k].(deleting := true))
  {
  }

  /** No desired order is terminating with an outdated hash. */
  predicate NoneLost(digest: string -> Hash, orders: map<string, SleepOrder>, desired: map<string, SleepParams>) {
    forall k :: k in orders && k in desired && orders[k].deleting ==> !Outdated(digest, orders[k], desired[k])
  }

  /** Every desired key has an order with the current hash, unless its order is
      terminating and outdated. A current order is left alone, and any other one is
      written anew: it keeps its status but none of its finalizers. */
  lemma DesiredOrderStays(digest: string -> Hash, orders: map<string, SleepOrder>, desired: map<string, SleepParams>,
                          k: string)
    requires k in desired
    requires k in orders && orders[k].deleting ==> !Outdated(digest, orders[k], desired[k])
    ensures var after := InLine(digest, orders, desired);
            && k in after && !Outdated(digest, after[k], desired[k])
            && (after[k].deleting <==> k in orders && orders[k].deleting)
            && (if k in orders && !Outdated(digest, orders[k], desired[k]) then after[k] == orders[k]
                else after[k] == SleepOrder(SpecOf(desired[k]), Some(ConfigHashCalc(digest, desired[k])), {}, false,
                                            if k in orders then orders[k].status else EMPTY_STATUS))
  {
  }

  /** So an order that was just written is not held back when it is no longer
      desired: it is gone at once, with its workload as it is. */
  lemma WrittenOrderGoesAtOnce(digest: string -> Hash, orders: map<string, SleepOrder>, desired: map<string, SleepParams>,
                               k: string, later: map<string, SleepParams>)
    requires k in desired && k !in later
    requires k in orders && orders[k].deleting ==> !Outdated(digest, orders[k], desired[k])
    ensures k !in InLine(digest, InLine(digest, orders, desired), later)
       <==> k !in orders || Outdated(digest, orders[k], desired[k]) || orders[k].finalizers == {}
  {
    DesiredOrderStays(digest, orders, desired, k);
    UndesiredOrdersEnd(digest, InLine(digest, orders, desired), later, k);
    hide InLine, Outdated;
  }

  lemma DesiredOrderIsLive(digest: string -> Hash, orders: map<string, SleepOrder>, desired: map<string, SleepParams>,
                           k: string)
    ensures var after := InLine(digest, orders, desired);
            k in after && !after[k].deleting <==> k in desired && (k in orders ==> !orders[k].deleting)
  {
  }

  lemma SpecsNeedFaithfulHashes(digest: string -> Hash, orders: map<string, SleepOrder>,
                                desired: map<string, SleepParams>)
    ensures var after := InLine(digest, orders, desired);
            (forall k :: k in desired ==> k in after && after[k].spec == SpecOf(desired[k]))
            <==> NoneLost(digest, orders, desired) && HashFaithful(digest, orders, desired)
  {
  }

  /** Apply correctness: the live orders are exactly the desired ones if and only if
      no desired one was terminating. Every desired order is there with exactly the
      desired spec if and only if none of them is lost and the hashes compared were
      faithful. */
  lemma ApplyCorrect(digest: string -> Hash, orders: map<string, SleepOrder>, desired: map<string, SleepParams>)
    ensures var after := InLine(digest, orders, desired);
            && ((forall k :: k in after && !after[k].deleting <==> k in desired)
                <==> NoneTerminating(orders, desired))
            && ((forall k :: k in desired ==> k in after && after[k].spec == SpecOf(desired[k]))
                <==> NoneLost(digest, orders, desired) && HashFaithful(digest, orders, desired))
  {
    var after := InLine(digest, orders, desired);
    forall k ensures k in after && !after[k].deleting <==> k in desired && (k in orders ==> !orders[k].deleting) {
      DesiredOrderIsLive(digest, orders, desired, k);
    }
    SpecsNeedFaithfulHashes(digest, orders, desired);
    hide InLine;
    if !NoneTerminating(orders, desired) {
      var k :| k in orders && k in desired && orders[k].deleting;
      assert !(k in after && !after[k].deleting <==> k in desired);
    }
  }

  /** A desired order is lost exactly when it is terminating with an outdated hash:
      the update drops its finalizers, and with them the order. */
  lemma TerminatingOrderIsLost(digest: string -> Hash, orders: map<string, SleepOrder>, desired: map<string, SleepParams>,
                               k: string)
    requires k in desired
    ensures k !in InLine(digest, orders, desired)
       <==> k in orders && orders[k].deleting && Outdated(digest, orders[k], desired[k])
  {
  }

  // ----- Where faithful hashes come from -----

  /** The orders a pass found, and the state it wanted. */
  datatype Round = Round(before: map<string, SleepOrder>, desired: map<string, SleepParams>)

  /** Between passes orders may go away and change in any way but spec and hash. */
  predicate Disturbed(left: map<string, SleepOrder>, found: map<string, SleepOrder>) {
    forall k :: k in found ==>
      k in left && found[k].spec == left[k].spec && found[k].configHash == left[k].configHash
  }

  /** A run of apply passes in a namespace that began without orders. */
  predicate ApplyRun(digest: string -> Hash, rounds: seq<Round>) {
    && (rounds != [] ==> rounds[0].before == map[])
    && forall i, j :: 0 <= i && j == i + 1 < |rounds| ==>
         Disturbed(InLine(digest, rounds[i].before, rounds[i].desired), rounds[j].before)
  }

  /** Parameters are plain, and those desired for one key at different times do not collide. */
  predicate WellHashed(digest: string -> Hash, rounds: seq<Round>) {
    && (forall i, k :: 0 <= i < |rounds| && k in rounds[i].desired ==> Plain(rounds[i].desired[k]))
    && (forall i, j, k :: 0 <= i < j < |rounds| && k in rounds[i].desired && k in rounds[j].desired ==>
          CollisionFree(digest, rounds[i].desired[k], rounds[j].desired[k]))
  }

  predicate WrittenFor(digest: string -> Hash, order: SleepOrder, p: SleepParams) {
    order.spec == SpecOf(p) && order.configHash == Some(ConfigHashCalc(digest, p))
  }

  predicate WrittenInRun(digest: string -> Hash, order: SleepOrder, k: string, rounds: seq<Round>) {
    exists i :: 0 <= i < |rounds| && k in rounds[i].desired && WrittenFor(digest, order, rounds[i].desired[k])
  }

  lemma {:induction false} OrdersComeFromRun(digest: string -> Hash, rounds: seq<Round>, n: nat, k: string)
    requires ApplyRun(digest, rounds) && n < |rounds| && k in rounds[n].before
    ensures WrittenInRun(digest, rounds[n].before[k], k, rounds[..n])
  {
    var i := n - 1;
    var round, found := rounds[i], rounds[n].before[k];
    var left := InLine(digest, round.before, round.desired);
    assert Disturbed(left, rounds[n].before);
    if k in round.desired && WrittenFor(digest, left[k], round.desired[k]) {
      assert rounds[..n][i] == round;
    } else {
      OrdersComeFromRun(digest, rounds, i, k);
      var j :| 0 <= j < i && k in rounds[..i][j].desired
        && WrittenFor(digest, round.before[k], rounds[..i][j].desired[k]);
      assert rounds[..n][j] == rounds[..i][j];
    }
  }

  /** Over every run of apply passes, whatever happened to the orders in between,
      hashes are faithful: each order that is desired last has exactly the spec
      desired last. */
  lemma SpecsAreCurrent(digest: string -> Hash, rounds: seq<Round>, k: string)
    requires ApplyRun(digest, rounds) && WellHashed(digest, rounds) && rounds != []
    ensures var last := rounds[|rounds| - 1];
            var after := InLine(digest, last.before, last.desired);
            k in last.desired && k in after ==> WrittenFor(digest, after[k], last.desired[k])
  {
    var n := |rounds| - 1;
    var last := rounds[n];
    if k in last.desired && k in last.before && !Outdated(digest, last.before[k], last.desired[k]) {
      OrdersComeFromRun(digest, rounds, n, k);
      var i :| 0 <= i < n && k in rounds[..n][i].desired
        && WrittenFor(digest, last.before[k], rounds[..n][i].desired[k]);
      HashDetectsChange(digest, rounds[i].desired[k], last.desired[k]);
    }
  }

  /** A current order is rewritten exactly when some parameter changed. */
  lemma RewrittenIfChanged(digest: string -> Hash, order: SleepOrder, p: SleepParams, q: SleepParams)
    requires Plain(p) && Plain(q) && CollisionFree(digest, p, q)
    requires order.configHash == Some(ConfigHashCalc(digest, p))
    ensures Outdated(digest, order, q) <==> p != q
  {
    HashDetectsChange(digest, p, q);
  }

  // ----- Convergence -----

  function Missing(s: Space): nat {
    (if Completed(s.policy, s.deployments, s.statefulSets) != s.policy then 1 else 0)
    + (if SLEEP_POLICY_FINALIZER in s.policy.finalizers then 0 else 1)
  }

  function Passes(d: Defaults, digest: string -> Hash, s: Space, k: nat): Space {
    if k == 0 then s else Reconcile(d, digest, Passes(d, digest, s, k - 1)).space
  }

  /** While something is missing a pass adds it, touches no order, and asks to be
      called again; once nothing is missing it does not. */
  lemma PassProgress(d: Defaults, digest: string -> Hash, s: Space)
    requires !s.policy.deleting
    ensures var r := Reconcile(d, digest, s);
            && !r.space.policy.deleting && (r.requeue <==> Missing(s) > 0)
            && (if Missing(s) > 0
                then Missing(r.space) == Missing(s) - 1 && r.space.orders == s.orders
                     && r.space.policy.state == s.policy.state
                else Missing(r.space) == 0)
  {
  }

  lemma {:induction false} PassesProgress(d: Defaults, digest: string -> Hash, s: Space, k: nat)
    requires !s.policy.deleting && k <= Missing(s)
    ensures var after := Passes(d, digest, s, k);
            && !after.policy.deleting && after.policy.state == s.policy.state
            && Missing(after) == Missing(s) - k && after.orders == s.orders
  {
    if k > 0 {
      PassesProgress(d, digest, s, k - 1);
      PassProgress(d, digest, Passes(d, digest, s, k - 1));
    }
  }

  /** What was missing: defaults and the policy's own finalizer, nothing else. */
  lemma ReadyIsCompleted(d: Defaults, digest: string -> Hash, s: Space)
    requires !s.policy.deleting
    ensures Passes(d, digest, s, Missing(s)) ==
              s.(policy := Completed(s.policy, s.deployments, s.statefulSets)
                           .(finalizers := s.policy.finalizers + {SLEEP_POLICY_FINALIZER}))
  {
    hide NeedsDefault, InLine, DesiredState, LeavesOrders;
    var first := Passes(d, digest, s, 1);
    assert first == Reconcile(d, digest, Passes(d, digest, s, 0)).space;
    if Missing(s) == 2 {
      assert Passes(d, digest, s, 2) == Reconcile(d, digest, first).space;
      DefaultCovers(s.policy.deployments, s.deployments);
      DefaultCovers(s.policy.statefulSets, s.statefulSets);
    }
    if SLEEP_POLICY_FINALIZER in s.policy.finalizers {
      assert s.policy.finalizers + {SLEEP_POLICY_FINALIZER} == s.policy.finalizers;
    }
  }

  // ----- Deletion of a policy -----

  /** Passes of a policy being deleted: one adds the defaults if they are missing,
      and the next removes the policy's own finalizer and does not ask to be called
      again. Each sends a write, and none touches an order, the reported state, or
      another finalizer. */
  lemma {:induction false} DeletedPolicyIsReleased(d: Defaults, digest: string -> Hash, s: Space, k: nat)
    requires s.policy.deleting
    ensures var completed := Completed(s.policy, s.deployments, s.statefulSets);
            var adds := if completed != s.policy then 1 else 0;
            var before, pass := Passes(d, digest, s, k), Reconcile(d, digest, Passes(d, digest, s, k));
            && before == s.(policy := if k == 0 then s.policy else if k <= adds then completed
                                      else completed.(finalizers := s.policy.finalizers - {SLEEP_POLICY_FINALIZER}))
            && before.orders == s.orders && before.policy.state == s.policy.state
            && (SLEEP_POLICY_FINALIZER in before.policy.finalizers <==>
                  SLEEP_POLICY_FINALIZER in s.policy.finalizers && k <= adds)
            && pass.wrote && (pass.requeue <==> k < adds)
  {
    hide NeedsDefault, InLine, DesiredState, LeavesOrders;
    DefaultCovers(s.policy.deployments, s.deployments);
    DefaultCovers(s.policy.statefulSets, s.statefulSets);
    if k > 0 {
      DeletedPolicyIsReleased(d, digest, s, k - 1);
    }
    var finalizers := s.policy.finalizers - {SLEEP_POLICY_FINALIZER};
    assert finalizers - {SLEEP_POLICY_FINALIZER} == finalizers;
  }

  lemma FinishedKeys(s: Space, d: Defaults, digest: string -> Hash)
    requires !s.policy.deleting && Missing(s) == 0
    ensures DesiredState(d, Reconcile(d, digest, s).space) == DesiredState(d, s)
  {
    SameEntriesSameDesired(d, s, Reconcile(d, digest, s).space);
  }

  lemma {:induction false} SamePolicySameAdded(found: map<string, SleepParams>, d: Defaults, p: Policy, q: Policy,
                                               kind: string, m: map<string, PolicyConfig>, names: seq<string>)
    requires p.name == q.name && p.namespace == q.namespace
    ensures AddDesired(found, d, p, kind, m, names) == AddDesired(found, d, q, kind, m, names)
  {
    if names != [] {
      SamePolicySameAdded(found, d, p, q, kind, m, names[..|names| - 1]);
    }
  }

  lemma SameEntriesSameDesired(d: Defaults, s: Space, t: Space)
    requires s.deployments == t.deployments && s.statefulSets == t.statefulSets
    requires t.policy == s.policy.(state := t.policy.state)
    ensures DesiredState(d, t) == DesiredState(d, s)
  {
    var p, q := s.policy, t.policy;
    SamePolicySameAdded(map[], d, p, q, KIND_DEPLOYMENT, p.deployments, s.deployments);
    var first := AddDesired(map[], d, p, KIND_DEPLOYMENT, p.deployments, s.deployments);
    SamePolicySameAdded(first, d, p, q, KIND_STATEFUL_SET, p.statefulSets, s.statefulSets);
  }

  /** Applying again changes nothing exactly when the first time lost no order; it
      finds nothing to write exactly when moreover no undesired order was held by a
      finalizer. What was lost is back after the second time, which loses none. */
  lemma ApplyTwice(digest: string -> Hash, orders: map<string, SleepOrder>, desired: map<string, SleepParams>)
    ensures var after := InLine(digest, orders, desired);
            && (InLine(digest, after, desired) == after <==> NoneLost(digest, orders, desired))
            && (LeavesOrders(digest, after, desired) <==>
                  && NoneLost(digest, orders, desired)
                  && forall k :: k in orders && k !in desired ==> orders[k].finalizers == {})
            && NoneLost(digest, after, desired)
            && AllCurrent(digest, InLine(digest, after, desired), desired)
  {
    hide InLine, Outdated;
    var after := InLine(digest, orders, desired);
    var again := InLine(digest, after, desired);
    forall k | k in desired && k in after ensures !Outdated(digest, after[k], desired[k]) {
      TerminatingOrderIsLost(digest, orders, desired, k);
      DesiredOrderStays(digest, orders, desired, k);
    }
    forall k | k in desired ensures k in again && !Outdated(digest, again[k], desired[k]) {
      DesiredOrderStays(digest, after, desired, k);
    }
    if NoneLost(digest, orders, desired) {
      forall k ensures (k in again <==> k in after) && (k in after ==> again[k] == after[k]) {
        AppliedOrderStays(digest, orders, desired, k);
      }
      assert again.Keys == after.Keys;
      NothingLeftToWrite(digest, orders, desired);
    } else {
      var k :| k in orders && k in desired && orders[k].deleting && Outdated(digest, orders[k], desired[k]);
      TerminatingOrderIsLost(digest, orders, desired, k);
      TerminatingOrderIsLost(digest, after, desired, k);
      assert k in again && k in desired.Keys && k !in after.Keys;
    }
  }

  lemma NothingLeftToWrite(digest: string -> Hash, orders: map<string, SleepOrder>, desired: map<string, SleepParams>)
    requires NoneLost(digest, orders, desired)
    ensures LeavesOrders(digest, InLine(digest, orders, desired), desired)
       <==> forall k :: k in orders && k !in desired ==> orders[k].finalizers == {}
  {
    hide InLine, Outdated;
    var after := InLine(digest, orders, desired);
    forall k | k in desired ensures k in after && !Outdated(digest, after[k], desired[k]) {
      DesiredOrderStays(digest, orders, desired, k);
    }
    forall k | k !in desired ensures k in after <==> k in orders && orders[k].finalizers != {} {
      UndesiredOrdersEnd(digest, orders, desired, k);
    }
    if LeavesOrders(digest, after, desired) {
      forall k | k in orders && k !in desired ensures orders[k].finalizers == {} {
        assert k !in after.Keys;
      }
    } else {
      assert after.Keys != desired.Keys;
    }
  }

  lemma AppliedOrderStays(digest: string -> Hash, orders: map<string, SleepOrder>, desired: map<string, SleepParams>,
                          k: string)
    requires NoneLost(digest, orders, desired)
    ensures var after := InLine(digest, orders, desired);
            var again := InLine(digest, after, desired);
            (k in again <==> k in after) && (k in after ==> again[k] == after[k])
  {
    var after := InLine(digest, orders, desired);
    if k in desired {
      DesiredOrderStays(digest, orders, desired, k);
      assert AfterDelete(after, desired.Keys)[k] == after[k];
    } else {
      UndesiredOrdersEnd(digest, orders, desired, k);
      UndesiredOrdersEnd(digest, after, desired, k);
    }
  }

  /** Convergence: on an unchanging cluster a live policy is requeued exactly as
      often as something is missing, at most twice, and the next pass applies the
      desired state. The pass after it changes nothing exactly when no order was
      lost; otherwise it brings the lost orders back, and passes change nothing from
      then on. It sends no write at all exactly when moreover some workload is
      desired and no undesired order is held back by a finalizer. */
  lemma Converges(d: Defaults, digest: string -> Hash, s: Space)
    requires !s.policy.deleting && s.policy.state != Some(map[])
    ensures Missing(s) <= 2
    ensures forall k :: 0 <= k < Missing(s) ==> Reconcile(d, digest, Passes(d, digest, s, k)).requeue
    ensures var ready := Passes(d, digest, s, Missing(s));
            var applied, desired := Reconcile(d, digest, ready), DesiredState(d, ready);
            && ready == s.(policy := Completed(s.policy, s.deployments, s.statefulSets)
                                     .(finalizers := s.policy.finalizers + {SLEEP_POLICY_FINALIZER}))
            && !applied.requeue
            && applied.space.orders == InLine(digest, s.orders, desired)
            && var again := Reconcile(d, digest, applied.space);
               && !again.requeue && AllCurrent(digest, again.space.orders, desired)
               && (again.space == applied.space <==> NoneLost(digest, s.orders, desired))
               && (!again.wrote <==>
                     && desired != map[] && NoneLost(digest, s.orders, desired)
                     && forall k :: k in s.orders && k !in desired ==> s.orders[k].finalizers == {})
               && var third := Reconcile(d, digest, again.space);
                  third.space == again.space && !third.requeue
  {
    forall k | 0 <= k < Missing(s) ensures Reconcile(d, digest, Passes(d, digest, s, k)).requeue {
      PassesProgress(d, digest, s, k);
      PassProgress(d, digest, Passes(d, digest, s, k));
    }
    PassesProgress(d, digest, s, Missing(s));
    ReadyIsCompleted(d, digest, s);
    var ready := Passes(d, digest, s, Missing(s));
    var applied, desired := Reconcile(d, digest, ready), DesiredState(d, ready);
    ApplyPass(d, digest, ready);
    ApplyTwice(digest, s.orders, desired);
    ApplyPass(d, digest, applied.space);
    ApplyTwice(digest, applied.space.orders, desired);
    var again := Reconcile(d, digest, applied.space);
    ApplyPass(d, digest, again.space);
  }

  /** With nothing missing, a pass applies and reports the desired state, which it
      leaves as it was. */
  lemma ApplyPass(d: Defaults, digest: string -> Hash, s: Space)
    requires !s.policy.deleting && Missing(s) == 0
    ensures var r, desired := Reconcile(d, digest, s), DesiredState(d, s);
            && !r.requeue && !r.space.policy.deleting && Missing(r.space) == 0
            && DesiredState(d, r.space) == desired
            && r.space.orders == InLine(digest, s.orders, desired)
            && r.space == s.(orders := r.space.orders, policy := r.space.policy)
            && r.space.policy == (if s.policy.state == Some(desired) then s.policy
                                  else s.policy.(state := StoredState(desired)))
            && (!r.wrote <==> LeavesOrders(digest, s.orders, desired) && s.policy.state == Some(desired))
  {
    hide DesiredState, InLine, LeavesOrders;
    PassProgress(d, digest, s);
    FinishedKeys(s, d, digest);
  }
}
