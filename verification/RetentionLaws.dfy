/**
 What retention comes to, in terms of the fields of policies and rows and of the items that an
 evaluation returns: which rows are safe, which are not, and what a push or a lost tag changes.
 */
module RetentionLaws {
  import opened Foundation
  import opened Inventory
  import opened Policies
  import opened LifecycleEvaluation
  import InventoryStore
  import Reconciliation

  /** A day in nanoseconds. */
  const OneDay := 86_400_000_000_000

  /** The row counts as pushed at `time`: its last push, or when it was first seen if there is none. */
  ghost predicate PushedAt(manifest: Manifest, time: int) {
    manifest.lastPushedAt == Some(time) || (manifest.lastPushedAt == None && manifest.firstSeenAt == time)
  }

  /** The row is not gone and carries a tag that the policy's patterns match; no patterns match every tag. */
  ghost predicate Covers(policy: Policy, manifest: Manifest, glob: Glob) {
    && (manifest.state == Active || manifest.state == Untagged)
    && exists t :: t in manifest.tags && TagCovered(policy, t, glob)
  }

  ghost predicate TagCovered(policy: Policy, tag: Tag, glob: Glob) {
    policy.tagPatterns == [] || exists q :: q in policy.tagPatterns && glob(q, tag)
  }

  ghost predicate Retains(policy: Policy) {
    policy.enabled && policy.kind == Retention
  }

  /** A criterion is on with this limit, or it is off. */
  ghost predicate On(enabled: Option<bool>, limit: Option<int>, value: int) {
    limit == Some(value) && enabled != Some(false)
  }

  ghost predicate Off(enabled: Option<bool>, limit: Option<int>) {
    enabled == Some(false) || (enabled == None && limit == None)
  }

  /** Nothing stands in the way of deleting the row: no policy, no subject of its own, no row it is the subject of. */
  ghost predicate Unprotected(policies: seq<Policy>, inventory: seq<Manifest>, manifest: Manifest, glob: Glob) {
    && (forall p, t :: p in policies && t in manifest.tags ==> !Protecting(p, t, glob))
    && manifest.subject == NoDigest
    && (forall m :: m in inventory && m.state != Deleted ==> m.subject != manifest.digest || manifest.digest == NoDigest)
  }

  /** Only a policy with patterns protects, if it excludes from lifecycle or prevents deletion by tag. */
  ghost predicate Protecting(policy: Policy, tag: Tag, glob: Glob) {
    && policy.enabled && (policy.excludeFromLifecycle || (policy.kind == TagProtection && policy.preventDeletion))
    && exists q :: q in policy.tagPatterns && glob(q, tag)
  }

  // ----- from rows to items

  /** The item of a row is the decision about that row. */
  lemma ItemOf(policies: seq<Policy>, inventory: seq<Manifest>, now: int, glob: Glob, items: seq<Item>, item: Item,
               j: nat)
    requires AllLimitsPresent(policies) && IsEvaluation(policies, inventory, now, glob, items)
    requires UniqueDigests(inventory) && j < |inventory| && item in items && item.digest == inventory[j].digest
    ensures item.decision == Decide(policies, inventory, now, glob, j) && item.tags == inventory[j].tags
    ensures Live(inventory[j])
  {
    hide Decide;
  }

  lemma CoversIsMatching(policy: Policy, manifest: Manifest, glob: Glob)
    ensures Covers(policy, manifest, glob) <==> Matching(policy, manifest, glob)
  {
    if Covers(policy, manifest, glob) {
      var t :| t in manifest.tags && TagCovered(policy, t, glob);
      assert MatchesAnyTag(t, policy.tagPatterns, glob);
    }
    if Matching(policy, manifest, glob) {
      var t :| t in manifest.tags && MatchesAnyTag(t, policy.tagPatterns, glob);
      assert TagCovered(policy, t, glob);
    }
  }

  lemma UnprotectedIsUnshielded(policies: seq<Policy>, inventory: seq<Manifest>, glob: Glob, j: nat)
    requires j < |inventory|
    ensures Unprotected(policies, inventory, inventory[j], glob) <==> !Shielded(policies, inventory, glob, j)
  {
    var manifest := inventory[j];
    if HasProtectedTag(policies, manifest, glob) {
      var p, t :| p in policies && t in manifest.tags && IsProtection(p) && MatchesAnyTag(t, p.tagPatterns, glob);
      assert Protecting(p, t, glob);
    }
    if p, t :| p in policies && t in manifest.tags && Protecting(p, t, glob) {
      assert IsProtection(p) && MatchesAnyTag(t, p.tagPatterns, glob);
    }
  }

  // ----- who is blocked

  /** A row is blocked exactly when something protects it. */
  lemma BlockedExactly(policies: seq<Policy>, inventory: seq<Manifest>, now: int, glob: Glob, items: seq<Item>,
                       manifest: Manifest, item: Item)
    requires AllLimitsPresent(policies) && IsEvaluation(policies, inventory, now, glob, items)
    requires UniqueDigests(inventory) && manifest in inventory && item in items && item.digest == manifest.digest
    ensures item.decision.Blocked? <==> !Unprotected(policies, inventory, manifest, glob)
  {
    var j :| 0 <= j < |inventory| && inventory[j] == manifest;
    ItemOf(policies, inventory, now, glob, items, item, j);
    UnprotectedIsUnshielded(policies, inventory, glob, j);
    hide Shielded, Wanted, Unprotected;
  }

  // ----- who is eligible

  /** Whatever is eligible is so for a reason: too old for a policy, not among its latest, or untagged too long. */
  lemma EligibleForAReason(policies: seq<Policy>, inventory: seq<Manifest>, now: int, glob: Glob, items: seq<Item>,
                           manifest: Manifest, item: Item)
    requires AllLimitsPresent(policies) && IsEvaluation(policies, inventory, now, glob, items)
    requires UniqueDigests(inventory) && manifest in inventory && item in items && item.digest == manifest.digest
    requires item.decision.Eligible?
    ensures exists p :: p in policies && Retains(p) && Reason(p, manifest, now, glob)
  {
    var j :| 0 <= j < |inventory| && inventory[j] == manifest;
    ItemOf(policies, inventory, now, glob, items, item, j);
    var p :| p in policies && IsRetention(p) && Selects(p, inventory, now, glob, j);
    CoversIsMatching(p, manifest, glob);
    assert PushedAt(manifest, LifecycleTime(manifest));
    assert Reason(p, manifest, now, glob);
  }

  ghost predicate Reason(policy: Policy, manifest: Manifest, now: int, glob: Glob) {
    || (Covers(policy, manifest, glob)
        && exists time :: PushedAt(manifest, time) && TooOld(policy, time, now))
    || (Covers(policy, manifest, glob) && policy.keepLastEnabled != Some(false) && policy.keepLast.Some?)
    || (manifest.state == Untagged && manifest.untaggedAt.Some? && policy.untaggedGraceDaysEnabled != Some(false)
        && policy.untaggedGraceDays.Some? && manifest.untaggedAt.value <= now - policy.untaggedGraceDays.value * OneDay)
  }

  ghost predicate TooOld(policy: Policy, time: int, now: int) {
    && policy.expireAfterDaysEnabled != Some(false) && policy.expireAfterDays.Some?
    && time <= now - policy.expireAfterDays.value * OneDay
  }

  /** A row pushed within the expiry period of a policy that covers it is not eligible, whenever it was first seen. */
  lemma RecentPushIsNotEligible(policies: seq<Policy>, inventory: seq<Manifest>, now: int, glob: Glob,
                                items: seq<Item>, policy: Policy, manifest: Manifest, item: Item, days: int, time: int)
    requires AllLimitsPresent(policies) && IsEvaluation(policies, inventory, now, glob, items)
    requires UniqueDigests(inventory) && manifest in inventory && item in items && item.digest == manifest.digest
    requires policy in policies && Retains(policy) && Covers(policy, manifest, glob)
    requires On(policy.expireAfterDaysEnabled, policy.expireAfterDays, days)
    requires PushedAt(manifest, time) && time > now - days * OneDay
    ensures !item.decision.Eligible?
  {
    var j :| 0 <= j < |inventory| && inventory[j] == manifest;
    ItemOf(policies, inventory, now, glob, items, item, j);
    CoversIsMatching(policy, manifest, glob);
    assert Keeps(policy, inventory, now, glob, j);
  }

  /** With one policy that only expires, a covered row that nothing protects is eligible exactly when it is too old. */
  lemma ExpiryIsExact(inventory: seq<Manifest>, now: int, glob: Glob, items: seq<Item>, policy: Policy,
                      manifest: Manifest, item: Item, days: int, time: int)
    requires AllLimitsPresent([policy]) && IsEvaluation([policy], inventory, now, glob, items)
    requires UniqueDigests(inventory) && manifest in inventory && item in items && item.digest == manifest.digest
    requires Retains(policy) && Covers(policy, manifest, glob) && Unprotected([policy], inventory, manifest, glob)
    requires On(policy.expireAfterDaysEnabled, policy.expireAfterDays, days)
    requires Off(policy.keepLastEnabled, policy.keepLast)
    requires Off(policy.untaggedGraceDaysEnabled, policy.untaggedGraceDays)
    requires PushedAt(manifest, time)
    ensures item.decision.Eligible? <==> time <= now - days * OneDay
  {
    var j :| 0 <= j < |inventory| && inventory[j] == manifest;
    ItemOf([policy], inventory, now, glob, items, item, j);
    CoversIsMatching(policy, manifest, glob);
    UnprotectedIsUnshielded([policy], inventory, glob, j);
    hide Shielded, Unprotected;
    assert policy in [policy];
    assert Selects(policy, inventory, now, glob, j) <==> time <= now - days * OneDay;
    assert Keeps(policy, inventory, now, glob, j) <==> time > now - days * OneDay;
  }

  /** With one policy that only has a grace period, a row without a tag is eligible exactly when it is over. */
  lemma GraceIsExact(inventory: seq<Manifest>, now: int, glob: Glob, items: seq<Item>, policy: Policy,
                     manifest: Manifest, item: Item, days: int, since: int)
    requires AllLimitsPresent([policy]) && IsEvaluation([policy], inventory, now, glob, items)
    requires UniqueDigests(inventory) && manifest in inventory && item in items && item.digest == manifest.digest
    requires Retains(policy) && Unprotected([policy], inventory, manifest, glob)
    requires manifest.state == Untagged && manifest.tags == [] && manifest.untaggedAt == Some(since)
    requires On(policy.untaggedGraceDaysEnabled, policy.untaggedGraceDays, days)
    ensures item.decision.Eligible? <==> since <= now - days * OneDay
  {
    var j :| 0 <= j < |inventory| && inventory[j] == manifest;
    ItemOf([policy], inventory, now, glob, items, item, j);
    UnprotectedIsUnshielded([policy], inventory, glob, j);
    hide Shielded, Unprotected;
    assert policy in [policy];
    assert Selects(policy, inventory, now, glob, j) <==> since <= now - days * OneDay;
    assert Keeps(policy, inventory, now, glob, j) <==> since > now - days * OneDay;
  }

  // ----- the latest ones

  /** The row pushed last among those a keep-last policy covers is not eligible. */
  lemma LatestPushIsNotEligible(policies: seq<Policy>, inventory: seq<Manifest>, now: int, glob: Glob,
                                items: seq<Item>, policy: Policy, manifest: Manifest, item: Item, k: int, time: int)
    requires AllLimitsPresent(policies) && IsEvaluation(policies, inventory, now, glob, items)
    requires UniqueDigests(inventory) && manifest in inventory && item in items && item.digest == manifest.digest
    requires policy in policies && Retains(policy) && Covers(policy, manifest, glob)
    requires On(policy.keepLastEnabled, policy.keepLast, k) && k >= 1 && PushedAt(manifest, time)
    requires forall m, other :: m in inventory && m != manifest && Covers(policy, m, glob) && PushedAt(m, other) ==>
                                  other < time
    ensures !item.decision.Eligible?
  {
    var j :| 0 <= j < |inventory| && inventory[j] == manifest;
    ItemOf(policies, inventory, now, glob, items, item, j);
    CoversIsMatching(policy, manifest, glob);
    forall i: nat | i < |inventory| && Matching(policy, inventory[i], glob)
      ensures !RanksBefore(inventory, i, j)
    {
      CoversIsMatching(policy, inventory[i], glob);
      assert PushedAt(inventory[i], LifecycleTime(inventory[i]));
      assert i != j ==> inventory[i] in inventory && inventory[i] != manifest;
    }
    assert Ahead(policy, inventory, glob, j) == {};
    assert Keeps(policy, inventory, now, glob, j);
  }

  /** Of two covered rows, keeping the last one keeps the one pushed later and nothing else. */
  lemma KeepOneKeepsTheLaterPush(inventory: seq<Manifest>, now: int, glob: Glob, items: seq<Item>, policy: Policy,
                                 later: Manifest, earlier: Manifest, kept: Item, item: Item, time: int, before: int)
    requires AllLimitsPresent([policy]) && IsEvaluation([policy], inventory, now, glob, items)
    requires UniqueDigests(inventory) && (inventory == [later, earlier] || inventory == [earlier, later])
    requires kept in items && kept.digest == later.digest && item in items && item.digest == earlier.digest
    requires Retains(policy) && Covers(policy, later, glob) && Covers(policy, earlier, glob)
    requires Unprotected([policy], inventory, earlier, glob)
    requires On(policy.keepLastEnabled, policy.keepLast, 1)
    requires Off(policy.expireAfterDaysEnabled, policy.expireAfterDays)
    requires Off(policy.untaggedGraceDaysEnabled, policy.untaggedGraceDays)
    requires PushedAt(later, time) && PushedAt(earlier, before) && before < time
    ensures !kept.decision.Eligible? && item.decision.Eligible?
  {
    assert policy in [policy] && later in inventory && earlier in inventory;
    LatestPushIsNotEligible([policy], inventory, now, glob, items, policy, later, kept, 1, time);
    var j :| 0 <= j < |inventory| && inventory[j] == earlier;
    var i :| 0 <= i < |inventory| && inventory[i] == later;
    ItemOf([policy], inventory, now, glob, items, item, j);
    CoversIsMatching(policy, later, glob);
    CoversIsMatching(policy, earlier, glob);
    UnprotectedIsUnshielded([policy], inventory, glob, j);
    OvertakenIsSelected(policy, inventory, now, glob, i, j);
    hide Shielded, Unprotected, Selects, Keeps, Matching, Covers, IsEvaluation, UniqueDigests;
  }

  lemma OvertakenIsSelected(policy: Policy, inventory: seq<Manifest>, now: int, glob: Glob, i: nat, j: nat)
    requires LimitsPresent(policy) && i < |inventory| && j < |inventory|
    requires On(policy.keepLastEnabled, policy.keepLast, 1)
    requires Off(policy.expireAfterDaysEnabled, policy.expireAfterDays)
    requires Off(policy.untaggedGraceDaysEnabled, policy.untaggedGraceDays)
    requires Matching(policy, inventory[i], glob) && Matching(policy, inventory[j], glob)
    requires RanksBefore(inventory, i, j)
    ensures Selects(policy, inventory, now, glob, j) && !Keeps(policy, inventory, now, glob, j)
  {
    hide Matching, RanksBefore;
    assert i in Ahead(policy, inventory, glob, j);
    assert |Ahead(policy, inventory, glob, j)| >= 1;
  }

  // ----- pushing again

  lemma PushingShrinksAhead(policy: Policy, inventory: seq<Manifest>, pushed: seq<Manifest>, glob: Glob, j: nat,
                            time: int)
    requires j < |inventory| && pushed == inventory[j := inventory[j].(lastPushedAt := Some(time))]
    requires forall before :: PushedAt(inventory[j], before) ==> before <= time
    ensures Ahead(policy, pushed, glob, j) <= Ahead(policy, inventory, glob, j)
    ensures |Ahead(policy, pushed, glob, j)| <= |Ahead(policy, inventory, glob, j)|
  {
    assert PushedAt(inventory[j], LifecycleTime(inventory[j]));
    SubsetCardinality(Ahead(policy, pushed, glob, j), Ahead(policy, inventory, glob, j));
  }

  lemma PushingSelectsLess(policy: Policy, inventory: seq<Manifest>, pushed: seq<Manifest>, now: int, glob: Glob,
                           j: nat, time: int)
    requires LimitsPresent(policy)
    requires j < |inventory| && pushed == inventory[j := inventory[j].(lastPushedAt := Some(time))]
    requires forall before :: PushedAt(inventory[j], before) ==> before <= time
    ensures Selects(policy, pushed, now, glob, j) ==> Selects(policy, inventory, now, glob, j)
    ensures Keeps(policy, inventory, now, glob, j) ==> Keeps(policy, pushed, now, glob, j)
  {
    PushingShrinksAhead(policy, inventory, pushed, glob, j, time);
    assert PushedAt(inventory[j], LifecycleTime(inventory[j]));
    assert Matching(policy, pushed[j], glob) <==> Matching(policy, inventory[j], glob);
    hide Ahead, Matching;
  }

  /** Pushing a row again never makes it eligible. */
  lemma PushingAgainNeverHurts(policies: seq<Policy>, inventory: seq<Manifest>, pushed: seq<Manifest>, now: int,
                               glob: Glob, items: seq<Item>, after: seq<Item>, item: Item, again: Item, j: nat, time: int)
    requires AllLimitsPresent(policies) && UniqueDigests(inventory) && UniqueDigests(pushed)
    requires j < |inventory| && pushed == inventory[j := inventory[j].(lastPushedAt := Some(time))]
    requires forall before :: PushedAt(inventory[j], before) ==> before <= time
    requires IsEvaluation(policies, inventory, now, glob, items) && IsEvaluation(policies, pushed, now, glob, after)
    requires item in items && again in after && item.digest == again.digest == inventory[j].digest
    ensures again.decision.Eligible? ==> item.decision.Eligible?
  {
    ItemOf(policies, inventory, now, glob, items, item, j);
    ItemOf(policies, pushed, now, glob, after, again, j);
    SameSubjects(inventory, pushed, j, time);
    hide Selects, Keeps, IsEvaluation;
    forall p | p in policies && IsRetention(p)
      ensures Selects(p, pushed, now, glob, j) ==> Selects(p, inventory, now, glob, j)
      ensures Keeps(p, inventory, now, glob, j) ==> Keeps(p, pushed, now, glob, j)
    {
      PushingSelectsLess(p, inventory, pushed, now, glob, j, time);
    }
  }

  lemma SameSubjects(inventory: seq<Manifest>, pushed: seq<Manifest>, j: nat, time: int)
    requires j < |inventory| && pushed == inventory[j := inventory[j].(lastPushedAt := Some(time))]
    ensures forall d :: IsSubject(pushed, d) <==> IsSubject(inventory, d)
  {
    forall d
      ensures IsSubject(pushed, d) <==> IsSubject(inventory, d)
    {
      if IsSubject(inventory, d) {
        var i :| 0 <= i < |inventory| && inventory[i].subject == d && !inventory[i].state.Deleted?;
        assert pushed[i].subject == d && pushed[i] in pushed;
      }
      if IsSubject(pushed, d) {
        var i :| 0 <= i < |pushed| && pushed[i].subject == d && !pushed[i].state.Deleted?;
        assert inventory[i].subject == d && inventory[i] in inventory;
      }
    }
  }

  // ----- after a reconciliation

  lemma TagIsAttached(tables: InventoryStore.Tables, manifest: Manifest)
    requires Reconciliation.Lists(tables, manifest) && manifest.tags != []
    ensures InventoryStore.Attached(tables.tags, manifest.digest)
  {
    assert manifest.tags[0] in manifest.tags;
  }

  /**
   A manifest that lost its last tag in a reconciliation is untagged since then, so no evaluation
   makes it eligible before the shortest grace period of all policies is over.
   */
  lemma LostTagIsKept(before: InventoryStore.Tables, tables: InventoryStore.Tables, inventory: seq<Manifest>,
                      policies: seq<Policy>, reconciledAt: int, now: int, glob: Glob, items: seq<Item>,
                      manifest: Manifest, item: Item)
    requires InventoryStore.Consistent(tables) && Reconciliation.TimesFit(before, tables, reconciledAt)
    requires UniqueDigests(inventory) && forall m :: m in inventory ==> Reconciliation.Lists(tables, m)
    requires AllLimitsPresent(policies) && IsEvaluation(policies, inventory, now, glob, items)
    requires manifest in inventory && item in items && item.digest == manifest.digest
    requires manifest.state == Untagged
    requires manifest.digest in before.rows ==> before.rows[manifest.digest].state == Active
    requires forall p :: p in policies && Retains(p) && p.untaggedGraceDays.Some? ==>
                           now < reconciledAt + p.untaggedGraceDays.value * OneDay
    ensures !item.decision.Eligible?
  {
    assert Reconciliation.Lists(tables, manifest);
    assert manifest.untaggedAt == Some(reconciledAt);
    assert InventoryStore.RowFits(tables, manifest.digest);
    if manifest.tags != [] {
      TagIsAttached(tables, manifest);
    }
    if item.decision.Eligible? {
      EligibleForAReason(policies, inventory, now, glob, items, manifest, item);
    }
  }
}
