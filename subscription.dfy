/** The plan, subscription and usage state of src/hooks/useSubscription.ts, and the rule that
    decides which brain modules the current plan opens. The database and its RPCs are oracles:
    each operation takes what the query returned as a parameter. */
module Subscription {
  import opened Text

  /** `limits.modules` as stored: a keyword string such as "all", an array of module ids, or
      any other JSON value. */
  datatype Modules = Keyword(word: string) | Ids(ids: seq<string>) | OtherValue

  datatype Limits = Limits(dailyMessages: int, monthlyMessages: int, imageUploads: int,
                           modules: Modules)

  /** `features` as read from the table, before normalisation. */
  datatype RawFeatures = FeatureArray(items: seq<string>) | NotAnArray

  /** A row of `subscription_plans`, and the plan the hook keeps for it. */
  datatype PlanRow = PlanRow(id: string, name: string, features: RawFeatures, limits: Limits)
  datatype Plan = Plan(id: string, name: string, features: seq<string>, limits: Limits)

  /** An active row of `user_subscriptions`. */
  datatype UserSubscription = UserSubscription(id: string, planId: string, status: string)

  /** The row `fetchSubscription` inserts for a user without an active subscription. */
  datatype SubscriptionInsert = SubscriptionInsert(userId: string, planId: string, status: string)

  datatype Usage = Usage(current: int, limit: int, remaining: int, allowed: bool)

  /** What `check_usage_limit` or `increment_usage` answered. */
  datatype UsageReply = UsageFailed | UsageData(data: Usage)

  /** The arguments of one `increment_usage` call. */
  datatype IncrementCall = IncrementCall(userId: string, moduleId: Option<string>, hasImage: bool)

  /** The usage `checkUsage` reports when it cannot ask the database. */
  const FallbackUsage: Usage := Usage(0, 50, 50, true)

  /** A plan keeps its row's features only when they are an array; otherwise it has none. */
  function NormalizePlan(row: PlanRow): (p: Plan)
    ensures p.id == row.id && p.name == row.name && p.limits == row.limits
    ensures row.features.FeatureArray? ==> p.features == row.features.items
    ensures row.features.NotAnArray? ==> p.features == []
  {
    Plan(row.id, row.name,
         match row.features
         case FeatureArray(items) => items
         case NotAnArray => [],
         row.limits)
  }

  /** The plans `fetchPlans` keeps: each row normalised, in the order the query returned. */
  function NormalizePlans(rows: seq<PlanRow>): (ps: seq<Plan>)
    ensures |ps| == |rows|
    ensures forall k :: 0 <= k < |rows| ==> ps[k] == NormalizePlan(rows[k])
  {
    seq(|rows|, k requires 0 <= k < |rows| => NormalizePlan(rows[k]))
  }

  /** `plans.find(p => p.id === id)`: the first plan with that id, if any. */
  function FindPlan(plans: seq<Plan>, id: string): (r: Option<Plan>)
    ensures r.Some? ==> r.value.id == id
    ensures r.None? <==> forall k :: 0 <= k < |plans| ==> plans[k].id != id
  {
    if plans == [] then None
    else if plans[0].id == id then Some(plans[0])
    else FindPlan(plans[1..], id)
  }

  /** The plan `find` returns is the first one with the id: it occurs at an index before which
      no plan has that id. */
  lemma {:induction false} FindPlanIsFirst(plans: seq<Plan>, id: string)
    requires FindPlan(plans, id).Some?
    ensures exists k :: 0 <= k < |plans| && plans[k] == FindPlan(plans, id).value
                        && forall j :: 0 <= j < k ==> plans[j].id != id
  {
    if plans[0].id != id {
      FindPlanIsFirst(plans[1..], id);
      var k :| 0 <= k < |plans[1..]| && plans[1..][k] == FindPlan(plans[1..], id).value
               && forall j :: 0 <= j < k ==> plans[1..][j].id != id;
      assert plans[k + 1] == plans[1..][k];
      forall j | 0 <= j < k + 1
        ensures plans[j].id != id
      {
        if j > 0 {
          assert plans[j] == plans[1..][j - 1];
        }
      }
    }
  }

  /** A plan limits modules only when its `modules` is an array that holds neither the module
      id nor "default". */
  predicate Locks(plan: Plan, moduleId: string) {
    plan.limits.modules.Ids? && moduleId !in plan.limits.modules.ids
    && "default" !in plan.limits.modules.ids
  }

  /** `canAccessModule`: open when no plan is loaded, for the keywords "all" and "all_basic",
      for an array holding the id or "default", and for any other value; closed otherwise. */
  function CanAccessModule(currentPlan: Option<Plan>, moduleId: string): (ok: bool)
    ensures !ok <==> currentPlan.Some? && Locks(currentPlan.value, moduleId)
  {
    if currentPlan.None? then true
    else
      match currentPlan.value.limits.modules
      case Keyword(word) => if word == "all" then true else if word == "all_basic" then true else true
      case Ids(ids) => moduleId in ids || "default" in ids
      case OtherValue => true
  }

  /** A plan whose module list holds "default" opens every module. */
  lemma DefaultOpensEveryModule(plan: Plan, moduleId: string)
    requires plan.limits.modules.Ids? && "default" in plan.limits.modules.ids
    ensures CanAccessModule(Some(plan), moduleId)
  {
  }

  /** Access only grows as ids are added to a plan's module list. */
  lemma AccessGrowsWithIds(plan: Plan, more: seq<string>, moduleId: string)
    requires plan.limits.modules.Ids?
    requires CanAccessModule(Some(plan), moduleId)
    ensures CanAccessModule(Some(plan.(limits := plan.limits.(modules := Ids(plan.limits.modules.ids + more)))), moduleId)
  {
  }

  /** The state the hook holds. */
  class SubscriptionState {
    var plans: seq<Plan>
    var subscription: Option<UserSubscription>
    var currentPlan: Option<Plan>
    var usage: Option<Usage>

    constructor()
      ensures plans == [] && subscription.None? && currentPlan.None? && usage.None?
    {
      plans := [];
      subscription := None;
      currentPlan := None;
      usage := None;
    }

    /** `fetchPlans`: the rows read replace the plans, normalised; an error or no data leaves
        everything as it was. */
    method FetchPlans(rows: Option<seq<PlanRow>>)
      modifies this
      ensures plans == (if rows.Some? then NormalizePlans(rows.value) else old(plans))
      ensures subscription == old(subscription) && currentPlan == old(currentPlan)
      ensures usage == old(usage)
    {
      if rows.Some? {
        plans := NormalizePlans(rows.value);
      }
    }

    /** `fetchSubscription`: without a user nothing happens. An active subscription found
        becomes current with the plan of its id. Otherwise (also when the query failed) a free
        subscription is inserted; when the insert returns a row it becomes current with the
        plan whose id is "free", or no plan. */
    method FetchSubscription(user: Option<string>, found: Option<UserSubscription>,
                             created: Option<UserSubscription>)
      returns (insert: Option<SubscriptionInsert>)
      modifies this
      ensures user.None? ==> insert.None? && subscription == old(subscription)
                             && currentPlan == old(currentPlan)
      ensures user.Some? && found.Some? ==>
                insert.None? && subscription == found
                && currentPlan == FindPlan(plans, found.value.planId)
      ensures user.Some? && found.None? ==>
                insert == Some(SubscriptionInsert(user.value, "free", "active"))
      ensures user.Some? && found.None? && created.Some? ==>
                subscription == created && currentPlan == FindPlan(plans, "free")
      ensures user.Some? && found.None? && created.None? ==>
                subscription == old(subscription) && currentPlan == old(currentPlan)
      ensures plans == old(plans) && usage == old(usage)
    {
      insert := None;
      if user.None? {
        return;
      }
      if found.Some? {
        subscription := found;
        currentPlan := FindPlan(plans, found.value.planId);
      } else {
        insert := Some(SubscriptionInsert(user.value, "free", "active"));
        if created.Some? {
          subscription := created;
          currentPlan := FindPlan(plans, "free");
        }
      }
    }

    /** `checkUsage`: without a user or when the RPC fails it reports the fallback usage and
        keeps the state; otherwise the usage read is stored and reported. */
    method CheckUsage(user: Option<string>, reply: UsageReply) returns (u: Usage)
      modifies this
      ensures user.None? || reply.UsageFailed? ==> u == FallbackUsage && usage == old(usage)
      ensures user.Some? && reply.UsageData? ==> u == reply.data && usage == Some(u)
      ensures plans == old(plans) && subscription == old(subscription)
      ensures currentPlan == old(currentPlan)
    {
      if user.None? {
        return FallbackUsage;
      }
      if reply.UsageFailed? {
        return FallbackUsage;
      }
      u := reply.data;
      usage := Some(u);
    }

    /** `incrementUsage`: without a user no RPC is made and it reports null; otherwise the RPC
        gets the module id (empty counts as null) and whether an image was sent (absent counts
        as false), and a usage read back is stored and reported. */
    method IncrementUsage(user: Option<string>, moduleId: Option<string>, hasImage: Option<bool>,
                          reply: UsageReply)
      returns (call: Option<IncrementCall>, u: Option<Usage>)
      modifies this
      ensures user.None? ==> call.None? && u.None? && usage == old(usage)
      ensures user.Some? ==>
                call == Some(IncrementCall(user.value, NullIfEmpty(moduleId),
                                           hasImage.Some? && hasImage.value))
      ensures user.Some? && reply.UsageFailed? ==> u.None? && usage == old(usage)
      ensures user.Some? && reply.UsageData? ==> u == Some(reply.data) && usage == u
      ensures plans == old(plans) && subscription == old(subscription)
      ensures currentPlan == old(currentPlan)
    {
      if user.None? {
        return None, None;
      }
      call := Some(IncrementCall(user.value, NullIfEmpty(moduleId),
                                 hasImage.Some? && hasImage.value));
      if reply.UsageFailed? {
        return call, None;
      }
      u := Some(reply.data);
      usage := u;
    }
  }
}
