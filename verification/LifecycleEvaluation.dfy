/**
 Retention (`evaluateLifecycle`): several retention and protection policies are combined into
 one decision per live manifest.
 */
module LifecycleEvaluation {
  import opened Foundation
  import opened Inventory
  import opened Policies

  datatype Decision = Eligible | Retained | Blocked

  datatype Item = Item(digest: Digest, tags: seq<Tag>, decision: Decision)

  function LifecycleTime(manifest: Manifest): int {
    if manifest.lastPushedAt.Some? then manifest.lastPushedAt.value else manifest.firstSeenAt
  }

  // ----- the declarative reading

  predicate IsRetention(policy: Policy) {
    policy.enabled && policy.kind.Retention?
  }

  predicate IsProtection(policy: Policy) {
    && policy.enabled && policy.tagPatterns != []
    && (policy.excludeFromLifecycle || (policy.kind.TagProtection? && policy.preventDeletion))
  }

  predicate Matching(policy: Policy, manifest: Manifest, glob: Glob) {
    Live(manifest) && exists t | t in manifest.tags :: MatchesAnyTag(t, policy.tagPatterns, glob)
  }

  /** Row `i` ranks before row `j`: pushed later, or at the same time and listed first. */
  predicate RanksBefore(inventory: seq<Manifest>, i: nat, j: nat)
    requires i < |inventory| && j < |inventory|
  {
    || LifecycleTime(inventory[i]) > LifecycleTime(inventory[j])
    || (LifecycleTime(inventory[i]) == LifecycleTime(inventory[j]) && i < j)
  }

  function Ahead(policy: Policy, inventory: seq<Manifest>, glob: Glob, j: nat): set<nat>
    requires j < |inventory|
  {
    set i: nat | i < |inventory| && Matching(policy, inventory[i], glob) && RanksBefore(inventory, i, j)
  }

  /** Row `j` is among the `keepLast` matching rows that rank first. */
  predicate AmongLatest(policy: Policy, inventory: seq<Manifest>, glob: Glob, j: nat)
    requires j < |inventory| && LimitsPresent(policy)
  {
    KeepLastOn(policy) && |Ahead(policy, inventory, glob, j)| < policy.keepLast.value
  }

  predicate Young(policy: Policy, manifest: Manifest, now: int)
    requires LimitsPresent(policy) && ExpireOn(policy)
  {
    LifecycleTime(manifest) > now - policy.expireAfterDays.value * Day
  }

  predicate InGraceScope(policy: Policy, manifest: Manifest) {
    manifest.state.Untagged? && manifest.untaggedAt.Some? && GraceOn(policy)
  }

  predicate InGrace(policy: Policy, manifest: Manifest, now: int)
    requires LimitsPresent(policy) && InGraceScope(policy, manifest)
  {
    manifest.untaggedAt.value > now - policy.untaggedGraceDays.value * Day
  }

  predicate SelectsTagged(policy: Policy, inventory: seq<Manifest>, now: int, glob: Glob, j: nat)
    requires j < |inventory| && LimitsPresent(policy)
  {
    && Matching(policy, inventory[j], glob) && !AmongLatest(policy, inventory, glob, j)
    && if ExpireOn(policy) then !Young(policy, inventory[j], now) else KeepLastOn(policy)
  }

  predicate KeepsTagged(policy: Policy, inventory: seq<Manifest>, now: int, glob: Glob, j: nat)
    requires j < |inventory| && LimitsPresent(policy)
  {
    && Matching(policy, inventory[j], glob)
    && (AmongLatest(policy, inventory, glob, j) || (ExpireOn(policy) && Young(policy, inventory[j], now)))
  }

  predicate SelectsUntagged(policy: Policy, manifest: Manifest, now: int)
    requires LimitsPresent(policy)
  {
    InGraceScope(policy, manifest) && !InGrace(policy, manifest, now)
  }

  predicate KeepsUntagged(policy: Policy, manifest: Manifest, now: int)
    requires LimitsPresent(policy)
  {
    InGraceScope(policy, manifest) && InGrace(policy, manifest, now)
  }

  predicate Selects(policy: Policy, inventory: seq<Manifest>, now: int, glob: Glob, j: nat)
    requires j < |inventory| && LimitsPresent(policy)
  {
    SelectsTagged(policy, inventory, now, glob, j) || SelectsUntagged(policy, inventory[j], now)
  }

  predicate Keeps(policy: Policy, inventory: seq<Manifest>, now: int, glob: Glob, j: nat)
    requires j < |inventory| && LimitsPresent(policy)
  {
    KeepsTagged(policy, inventory, now, glob, j) || KeepsUntagged(policy, inventory[j], now)
  }

  predicate HasProtectedTag(policies: seq<Policy>, manifest: Manifest, glob: Glob) {
    exists p, t | p in policies && t in manifest.tags :: IsProtection(p) && MatchesAnyTag(t, p.tagPatterns, glob)
  }

  predicate IsSubject(inventory: seq<Manifest>, digest: Digest) {
    digest != NoDigest && exists m | m in inventory :: m.subject == digest && !m.state.Deleted?
  }

  predicate Wanted(policies: seq<Policy>, inventory: seq<Manifest>, now: int, glob: Glob, j: nat)
    requires j < |inventory| && AllLimitsPresent(policies)
  {
    && (exists p | p in policies :: IsRetention(p) && Selects(p, inventory, now, glob, j))
    && !(exists p | p in policies :: IsRetention(p) && Keeps(p, inventory, now, glob, j))
  }

  predicate Shielded(policies: seq<Policy>, inventory: seq<Manifest>, glob: Glob, j: nat)
    requires j < |inventory|
  {
    || HasProtectedTag(policies, inventory[j], glob)
    || inventory[j].subject != NoDigest
    || IsSubject(inventory, inventory[j].digest)
  }

  predicate AllLimitsPresent(policies: seq<Policy>) {
    forall p | p in policies :: IsRetention(p) ==> LimitsPresent(p)
  }

  /** The specification: one decision for each row. */
  function Decide(policies: seq<Policy>, inventory: seq<Manifest>, now: int, glob: Glob, j: nat): Decision
    requires j < |inventory| && AllLimitsPresent(policies)
  {
    if Shielded(policies, inventory, glob, j) then Blocked
    else if Wanted(policies, inventory, now, glob, j) then Eligible
    else Retained
  }

  function ItemFor(policies: seq<Policy>, inventory: seq<Manifest>, now: int, glob: Glob, j: nat): Item
    requires j < |inventory| && AllLimitsPresent(policies)
  {
    Item(inventory[j].digest, inventory[j].tags, Decide(policies, inventory, now, glob, j))
  }

  ghost predicate SortedByDigest(items: seq<Item>) {
    forall i, k :: 0 <= i < k < |items| ==> items[i].digest < items[k].digest
  }

  /** `items` lists each live row once, by digest, with its specified decision. */
  ghost predicate IsEvaluation(policies: seq<Policy>, inventory: seq<Manifest>, now: int, glob: Glob, items: seq<Item>)
    requires AllLimitsPresent(policies)
  {
    && SortedByDigest(items)
    && (forall item :: item in items <==>
          exists j :: 0 <= j < |inventory| && Live(inventory[j]) && item == ItemFor(policies, inventory, now, glob, j))
  }

  // ----- the loops of the evaluator

  method ProtectedDigests(policies: seq<Policy>, inventory: seq<Manifest>, glob: Glob) returns (protected: set<Digest>)
    ensures forall d :: d in protected <==>
                          exists m :: m in inventory && m.digest == d && HasProtectedTag(policies, m, glob)
  {
    protected := {};
    for i := 0 to |inventory|
      invariant forall d :: d in protected <==>
                              exists m :: m in inventory[..i] && m.digest == d && HasProtectedTag(policies, m, glob)
    {
      ghost var before := protected;
      var manifest := inventory[i];
      assert inventory[..i + 1] == inventory[..i] + [manifest];
      for k := 0 to |policies|
        invariant protected == before + if HasProtectedTag(policies[..k], manifest, glob) then {manifest.digest} else {}
      {
        assert policies[..k + 1] == policies[..k] + [policies[k]];
        var policy := policies[k];
        if !policy.enabled ||
           (!policy.excludeFromLifecycle && (!policy.kind.TagProtection? || !policy.preventDeletion)) ||
           policy.tagPatterns == [] {
          continue;
        }
        if exists t | t in manifest.tags :: MatchesAnyTag(t, policy.tagPatterns, glob) {
          protected := protected + {manifest.digest};
        }
      }
      assert policies[..|policies|] == policies;
    }
    assert inventory[..|inventory|] == inventory;
  }

  method ReferrerSubjects(inventory: seq<Manifest>) returns (subjects: set<Digest>)
    ensures forall d :: d in subjects <==> IsSubject(inventory, d)
  {
    subjects := {};
    for i := 0 to |inventory|
      invariant forall d :: d in subjects <==> IsSubject(inventory[..i], d)
    {
      assert inventory[..i + 1] == inventory[..i] + [inventory[i]];
      if inventory[i].subject != NoDigest && !inventory[i].state.Deleted? {
        subjects := subjects + {inventory[i].subject};
      }
    }
    assert inventory[..|inventory|] == inventory;
  }

  /** `rows` are the rows of the inventory at the positions `at`. */
  ghost predicate RowsAt(inventory: seq<Manifest>, rows: seq<Manifest>, at: seq<nat>) {
    && |rows| == |at|
    && forall k :: 0 <= k < |at| ==> at[k] < |inventory| && rows[k] == inventory[at[k]]
  }

  ghost predicate Increasing(at: seq<nat>) {
    forall k, l :: 0 <= k < l < |at| ==> at[k] < at[l]
  }

  ghost predicate Ranked(inventory: seq<Manifest>, at: seq<nat>) {
    && (forall k :: 0 <= k < |at| ==> at[k] < |inventory|)
    && (forall k, l :: 0 <= k < l < |at| ==> RanksBefore(inventory, at[k], at[l]))
  }

  method MatchingRows(policy: Policy, inventory: seq<Manifest>, glob: Glob)
    returns (matching: seq<Manifest>, ghost at: seq<nat>)
    ensures RowsAt(inventory, matching, at) && Increasing(at)
    ensures forall i: nat :: i in at <==> i < |inventory| && Matching(policy, inventory[i], glob)
    ensures forall m :: m in matching <==> m in inventory && Matching(policy, m, glob)
  {
    matching, at := [], [];
    for i := 0 to |inventory|
      invariant RowsAt(inventory, matching, at) && Increasing(at)
      invariant forall m :: m in matching <==> m in inventory[..i] && Matching(policy, m, glob)
      invariant forall j: nat :: j in at <==> j < i && Matching(policy, inventory[j], glob)
    {
      var manifest := inventory[i];
      if manifest.state.Deleted? || manifest.state.Missing? || manifest.tags == [] {
        continue;
      }
      assert inventory[..i + 1] == inventory[..i] + [manifest];
      if exists t | t in manifest.tags :: MatchesAnyTag(t, policy.tagPatterns, glob) {
        matching, at := matching + [manifest], at + [i];
      }
    }
  }

  ghost function InsertAt(inventory: seq<Manifest>, order: seq<nat>, k: nat, row: nat): (r: seq<nat>)
    requires Ranked(inventory, order) && k <= |order| && row < |inventory|
    requires forall l :: 0 <= l < k ==> RanksBefore(inventory, order[l], row)
    requires forall l :: k <= l < |order| ==> LifecycleTime(inventory[order[l]]) < LifecycleTime(inventory[row])
    ensures r == order[..k] + [row] + order[k..] && Ranked(inventory, r)
    ensures forall i :: i in r <==> i in order || i == row
  {
    order[..k] + [row] + order[k..]
  }

  /** Puts one more row behind every row that is not older: rows of the same time stay in order. */
  method InsertLatest(ghost inventory: seq<Manifest>, sorted: seq<Manifest>, ghost order: seq<nat>,
                      manifest: Manifest, ghost row: nat)
    returns (more: seq<Manifest>, ghost places: seq<nat>)
    requires RowsAt(inventory, sorted, order) && Ranked(inventory, order)
    requires row < |inventory| && inventory[row] == manifest && forall l :: 0 <= l < |order| ==> order[l] < row
    ensures RowsAt(inventory, more, places) && Ranked(inventory, places)
    ensures forall i :: i in places <==> i in order || i == row
    ensures multiset(more) == multiset(sorted) + multiset{manifest}
  {
    var k := |sorted|;
    while k > 0 && LifecycleTime(sorted[k - 1]) < LifecycleTime(manifest)
      invariant 0 <= k <= |sorted|
      invariant forall l :: k <= l < |sorted| ==> LifecycleTime(sorted[l]) < LifecycleTime(manifest)
    {
      k := k - 1;
    }
    forall l | 0 <= l < k
      ensures RanksBefore(inventory, order[l], row)
    {
      assert l < k - 1 ==> RanksBefore(inventory, order[l], order[k - 1]);
    }
    assert k > 0 ==> !(LifecycleTime(sorted[k - 1]) < LifecycleTime(manifest));
    hide RowsAt, Ranked, RanksBefore;
    InsertedRows(inventory, sorted, order, k, row);
    InsertedMultiset(sorted, k, manifest);
    more, places := sorted[..k] + [manifest] + sorted[k..], InsertAt(inventory, order, k, row);
  }

  lemma InsertedMultiset<T>(s: seq<T>, k: nat, x: T)
    requires k <= |s|
    ensures multiset(s[..k] + [x] + s[k..]) == multiset(s) + multiset{x}
  {
    assert s == s[..k] + s[k..];
  }

  lemma InsertedRows(inventory: seq<Manifest>, rows: seq<Manifest>, at: seq<nat>, k: nat, row: nat)
    requires RowsAt(inventory, rows, at) && k <= |rows| && row < |inventory|
    ensures RowsAt(inventory, rows[..k] + [inventory[row]] + rows[k..], at[..k] + [row] + at[k..])
  {
  }

  lemma LatestFirst(inventory: seq<Manifest>, sorted: seq<Manifest>, order: seq<nat>)
    requires RowsAt(inventory, sorted, order) && Ranked(inventory, order)
    ensures forall i, j :: 0 <= i < j < |sorted| ==> LifecycleTime(sorted[i]) >= LifecycleTime(sorted[j])
  {
    forall i, j | 0 <= i < j < |sorted|
      ensures LifecycleTime(sorted[i]) >= LifecycleTime(sorted[j])
    {
      assert RanksBefore(inventory, order[i], order[j]);
    }
  }

  /** Stable sort, latest first. */
  method SortLatestFirst(ghost inventory: seq<Manifest>, matching: seq<Manifest>, ghost at: seq<nat>)
    returns (sorted: seq<Manifest>, ghost order: seq<nat>)
    requires RowsAt(inventory, matching, at) && Increasing(at)
    ensures RowsAt(inventory, sorted, order) && Ranked(inventory, order)
    ensures forall i :: i in order <==> i in at
    ensures multiset(sorted) == multiset(matching)
    ensures forall i, j :: 0 <= i < j < |sorted| ==> LifecycleTime(sorted[i]) >= LifecycleTime(sorted[j])
  {
    sorted, order := [], [];
    hide Ranked, LifecycleTime;
    NothingRanked(inventory);
    for n := 0 to |matching|
      invariant RowsAt(inventory, sorted, order) && Ranked(inventory, order)
      invariant forall i :: i in order <==> i in at[..n]
      invariant multiset(sorted) == multiset(matching[..n])
    {
      assert forall l :: 0 <= l < |order| ==> order[l] in at[..n];
      sorted, order := InsertLatest(inventory, sorted, order, matching[n], at[n]);
      assert at[..n + 1] == at[..n] + [at[n]];
      assert matching[..n + 1] == matching[..n] + [matching[n]];
    }
    assert at[..|at|] == at && matching[..|matching|] == matching;
    LatestFirst(inventory, sorted, order);
  }

  lemma NothingRanked(inventory: seq<Manifest>)
    ensures Ranked(inventory, [])
  {
  }

  method DistinctRows(ghost inventory: seq<Manifest>, matching: seq<Manifest>, ghost order: seq<nat>)
    returns (distinct: seq<Manifest>)
    requires UniqueDigests(inventory) && RowsAt(inventory, matching, order) && Ranked(inventory, order)
    ensures distinct == matching
  {
    var seen: set<Digest> := {};
    distinct := [];
    for k := 0 to |matching|
      invariant distinct == matching[..k]
      invariant forall d :: d in seen ==> exists l :: 0 <= l < k && matching[l].digest == d
    {
      var manifest := matching[k];
      if manifest.digest in seen {
        assert false;
      }
      seen := seen + {manifest.digest};
      distinct := distinct + [manifest];
    }
  }

  /** In the ranked list, a row's position is the number of matching rows ahead of it. */
  lemma RankIsPosition(policy: Policy, inventory: seq<Manifest>, glob: Glob, order: seq<nat>, k: nat)
    requires Ranked(inventory, order) && k < |order|
    requires forall i: nat :: i in order <==> i < |inventory| && Matching(policy, inventory[i], glob)
    ensures |Ahead(policy, inventory, glob, order[k])| == k
  {
    var front := order[..k];
    assert Distinct(front);
    DistinctCardinality(front);
    forall i: nat | i in Ahead(policy, inventory, glob, order[k])
      ensures i in front
    {
      var l :| 0 <= l < |order| && order[l] == i;
      assert l < k;
    }
    forall i | i in front
      ensures i in Ahead(policy, inventory, glob, order[k])
    {
      var l :| 0 <= l < k && order[l] == i;
      assert RanksBefore(inventory, order[l], order[k]);
      assert i in order;
    }
    assert Ahead(policy, inventory, glob, order[k]) == Elements(front);
  }

  predicate Verdict(selects: bool, policy: Policy, inventory: seq<Manifest>, now: int, glob: Glob, j: nat)
    requires j < |inventory| && LimitsPresent(policy)
  {
    if selects then SelectsTagged(policy, inventory, now, glob, j) else KeepsTagged(policy, inventory, now, glob, j)
  }

  /** Some of the first `n` ranked rows has this digest and this verdict. */
  ghost predicate VerdictAmong(selects: bool, policy: Policy, inventory: seq<Manifest>, now: int, glob: Glob,
                               order: seq<nat>, n: nat, d: Digest)
    requires LimitsPresent(policy) && forall k :: 0 <= k < |order| ==> order[k] < |inventory|
  {
    exists k :: 0 <= k < n <= |order| && inventory[order[k]].digest == d && Verdict(selects, policy, inventory, now, glob, order[k])
  }

  lemma VerdictGrows(selects: bool, policy: Policy, inventory: seq<Manifest>, now: int, glob: Glob, order: seq<nat>,
                     n: nat)
    requires LimitsPresent(policy) && forall k :: 0 <= k < |order| ==> order[k] < |inventory|
    requires n < |order|
    ensures forall d :: VerdictAmong(selects, policy, inventory, now, glob, order, n + 1, d) <==>
                          || VerdictAmong(selects, policy, inventory, now, glob, order, n, d)
                          || (d == inventory[order[n]].digest && Verdict(selects, policy, inventory, now, glob, order[n]))
  {
    hide Verdict;
    forall d | VerdictAmong(selects, policy, inventory, now, glob, order, n, d)
      ensures VerdictAmong(selects, policy, inventory, now, glob, order, n + 1, d)
    {
      var k :| 0 <= k < n && inventory[order[k]].digest == d && Verdict(selects, policy, inventory, now, glob, order[k]);
      assert k < n + 1;
    }
  }

  /** Only matching rows get a verdict, so the ranked rows account for all of them. */
  lemma AllVerdicts(selects: bool, policy: Policy, inventory: seq<Manifest>, now: int, glob: Glob, order: seq<nat>)
    requires LimitsPresent(policy)
    requires forall i: nat :: i in order <==> i < |inventory| && Matching(policy, inventory[i], glob)
    ensures forall k :: 0 <= k < |order| ==> order[k] in order && order[k] < |inventory|
    ensures forall d :: VerdictAmong(selects, policy, inventory, now, glob, order, |order|, d) <==>
                          exists j: nat :: j < |inventory| && inventory[j].digest == d && Verdict(selects, policy, inventory, now, glob, j)
  {
    assert forall k :: 0 <= k < |order| ==> order[k] in order;
    forall j: nat | j < |inventory| && Verdict(selects, policy, inventory, now, glob, j)
      ensures j in order
    {
    }
    hide Verdict, Matching;
    forall d, j: nat | j < |inventory| && inventory[j].digest == d && Verdict(selects, policy, inventory, now, glob, j)
      ensures VerdictAmong(selects, policy, inventory, now, glob, order, |order|, d)
    {
      var k :| 0 <= k < |order| && order[k] == j;
      assert Verdict(selects, policy, inventory, now, glob, order[k]);
    }
  }

  /** The verdicts one retention policy adds for tagged rows. */
  method JudgeTagged(policy: Policy, inventory: seq<Manifest>, now: int, glob: Glob)
    returns (eligible: set<Digest>, keep: set<Digest>)
    requires UniqueDigests(inventory) && LimitsPresent(policy)
    ensures forall d :: d in eligible <==>
                          exists j: nat :: j < |inventory| && inventory[j].digest == d && Verdict(true, policy, inventory, now, glob, j)
    ensures forall d :: d in keep <==>
                          exists j: nat :: j < |inventory| && inventory[j].digest == d && Verdict(false, policy, inventory, now, glob, j)
  {
    var matching, at := MatchingRows(policy, inventory, glob);
    var sorted, order := SortLatestFirst(inventory, matching, at);
    var distinct := DistinctRows(inventory, sorted, order);
    eligible, keep := {}, {};
    AllVerdicts(true, policy, inventory, now, glob, order);
    AllVerdicts(false, policy, inventory, now, glob, order);
    assert forall d :: !VerdictAmong(true, policy, inventory, now, glob, order, 0, d) &&
                       !VerdictAmong(false, policy, inventory, now, glob, order, 0, d);
    hide VerdictAmong, Verdict, Ranked, Matching, LifecycleTime, ExpireOn, KeepLastOn;
    for index := 0 to |distinct|
      invariant forall d :: d in eligible <==> VerdictAmong(true, policy, inventory, now, glob, order, index, d)
      invariant forall d :: d in keep <==> VerdictAmong(false, policy, inventory, now, glob, order, index, d)
    {
      var manifest := distinct[index];
      VerdictAt(policy, inventory, now, glob, order, index);
      VerdictGrows(true, policy, inventory, now, glob, order, index);
      VerdictGrows(false, policy, inventory, now, glob, order, index);
      if KeepLastOn(policy) && index < policy.keepLast.value {
        keep := keep + {manifest.digest};
        continue;
      }
      if ExpireOn(policy) {
        var threshold := now - policy.expireAfterDays.value * Day;
        if LifecycleTime(manifest) > threshold {
          keep := keep + {manifest.digest};
          continue;
        }
        eligible := eligible + {manifest.digest};
      } else if KeepLastOn(policy) {
        eligible := eligible + {manifest.digest};
      }
    }
  }

  /** What a retention policy says about the row at one position of the ranked list. */
  lemma VerdictAt(policy: Policy, inventory: seq<Manifest>, now: int, glob: Glob, order: seq<nat>, k: nat)
    requires LimitsPresent(policy) && Ranked(inventory, order) && k < |order|
    requires forall i: nat :: i in order <==> i < |inventory| && Matching(policy, inventory[i], glob)
    ensures order[k] < |inventory|
    ensures var latest := KeepLastOn(policy) && k < policy.keepLast.value;
            var young := ExpireOn(policy) && LifecycleTime(inventory[order[k]]) > now - policy.expireAfterDays.value * Day;
            && (Verdict(false, policy, inventory, now, glob, order[k]) <==> latest || young)
            && (Verdict(true, policy, inventory, now, glob, order[k]) <==> !latest && !young && (ExpireOn(policy) || KeepLastOn(policy)))
  {
    RankIsPosition(policy, inventory, glob, order, k);
    assert order[k] in order;
  }

  /** The verdicts one retention policy adds for untagged rows. */
  method JudgeUntagged(policy: Policy, inventory: seq<Manifest>, now: int)
    returns (eligible: set<Digest>, keep: set<Digest>)
    requires LimitsPresent(policy)
    ensures forall d :: d in eligible <==>
                          exists j :: 0 <= j < |inventory| && inventory[j].digest == d && SelectsUntagged(policy, inventory[j], now)
    ensures forall d :: d in keep <==>
                          exists j :: 0 <= j < |inventory| && inventory[j].digest == d && KeepsUntagged(policy, inventory[j], now)
  {
    eligible, keep := {}, {};
    for i := 0 to |inventory|
      invariant forall d :: d in eligible <==>
                              exists j :: 0 <= j < i && inventory[j].digest == d && SelectsUntagged(policy, inventory[j], now)
      invariant forall d :: d in keep <==>
                              exists j :: 0 <= j < i && inventory[j].digest == d && KeepsUntagged(policy, inventory[j], now)
    {
      var manifest := inventory[i];
      if !manifest.state.Untagged? || manifest.untaggedAt.None? || !GraceOn(policy) {
        continue;
      }
      var threshold := now - policy.untaggedGraceDays.value * Day;
      if manifest.untaggedAt.value <= threshold {
        eligible := eligible + {manifest.digest};
      } else {
        keep := keep + {manifest.digest};
      }
    }
  }

  ghost predicate SomeSelects(retention: seq<Policy>, inventory: seq<Manifest>, now: int, glob: Glob, j: nat)
    requires j < |inventory| && forall p :: p in retention ==> LimitsPresent(p)
  {
    exists p :: p in retention && Selects(p, inventory, now, glob, j)
  }

  ghost predicate SomeKeeps(retention: seq<Policy>, inventory: seq<Manifest>, now: int, glob: Glob, j: nat)
    requires j < |inventory| && forall p :: p in retention ==> LimitsPresent(p)
  {
    exists p :: p in retention && Keeps(p, inventory, now, glob, j)
  }

  method Judge(retention: seq<Policy>, inventory: seq<Manifest>, now: int, glob: Glob)
    returns (eligible: set<Digest>, keep: set<Digest>)
    requires UniqueDigests(inventory) && forall p :: p in retention ==> LimitsPresent(p)
    ensures forall j :: 0 <= j < |inventory| ==>
                          && (inventory[j].digest in eligible <==> SomeSelects(retention, inventory, now, glob, j))
                          && (inventory[j].digest in keep <==> SomeKeeps(retention, inventory, now, glob, j))
  {
    eligible, keep := {}, {};
    for i := 0 to |retention|
      invariant forall p :: p in retention[..i] ==> LimitsPresent(p)
      invariant forall j :: 0 <= j < |inventory| ==>
                              && (inventory[j].digest in eligible <==> SomeSelects(retention[..i], inventory, now, glob, j))
                              && (inventory[j].digest in keep <==> SomeKeeps(retention[..i], inventory, now, glob, j))
    {
      var policy := retention[i];
      assert retention[..i + 1] == retention[..i] + [policy];
      var taggedEligible, taggedKeep := JudgeTagged(policy, inventory, now, glob);
      var untaggedEligible, untaggedKeep := JudgeUntagged(policy, inventory, now);
      forall j | 0 <= j < |inventory|
        ensures inventory[j].digest in taggedEligible + untaggedEligible <==> Selects(policy, inventory, now, glob, j)
        ensures inventory[j].digest in taggedKeep + untaggedKeep <==> Keeps(policy, inventory, now, glob, j)
      {
        assert forall k :: 0 <= k < |inventory| && inventory[k].digest == inventory[j].digest ==> k == j;
      }
      eligible := eligible + taggedEligible + untaggedEligible;
      keep := keep + taggedKeep + untaggedKeep;
    }
    assert retention[..|retention|] == retention;
  }

  /** Insertion keeps the items sorted by digest. */
  method InsertByDigest(items: seq<Item>, item: Item) returns (r: seq<Item>)
    requires SortedByDigest(items) && forall x :: x in items ==> x.digest != item.digest
    ensures SortedByDigest(r) && forall x :: x in r <==> x in items || x == item
  {
    var k := |items|;
    while k > 0 && items[k - 1].digest > item.digest
      invariant 0 <= k <= |items|
      invariant forall l :: k <= l < |items| ==> items[l].digest > item.digest
    {
      k := k - 1;
    }
    r := items[..k] + [item] + items[k..];
  }

  /**
   The evaluator meets the specification: it fails exactly when no retention policy is
   enabled, and otherwise decides every live row once.
   */
  method EvaluateLifecycle(policies: seq<Policy>, inventory: seq<Manifest>, now: int, glob: Glob)
    returns (result: Result<seq<Item>>)
    requires UniqueDigests(inventory) && AllLimitsPresent(policies)
    ensures result.Ok? <==> exists p :: p in policies && IsRetention(p)
    ensures result.Ok? ==> IsEvaluation(policies, inventory, now, glob, result.value)
  {
    var retention: seq<Policy> := [];
    for i := 0 to |policies|
      invariant forall p :: p in retention <==> p in policies[..i] && IsRetention(p)
    {
      if policies[i].enabled && policies[i].kind.Retention? {
        retention := retention + [policies[i]];
      }
    }
    if retention == [] {
      return Err;
    }
    assert policies[..|policies|] == policies;
    assert retention[0] in retention;
    var protected := ProtectedDigests(policies, inventory, glob);
    var referrerSubjects := ReferrerSubjects(inventory);
    var eligible, keep := Judge(retention, inventory, now, glob);
    var items: seq<Item> := [];
    for i := 0 to |inventory|
      invariant SortedByDigest(items)
      invariant forall item :: item in items <==>
                                 exists j :: 0 <= j < i && Live(inventory[j]) && item == ItemFor(policies, inventory, now, glob, j)
    {
      var manifest := inventory[i];
      if manifest.state.Deleted? || manifest.state.Missing? {
        continue;
      }
      var decision := Retained;
      if manifest.digest in eligible && manifest.digest !in keep {
        decision := Eligible;
      }
      if manifest.digest in protected {
        decision := Blocked;
      }
      if manifest.subject != NoDigest {
        decision := Blocked;
      }
      if manifest.digest in referrerSubjects {
        decision := Blocked;
      }
      assert decision == Decide(policies, inventory, now, glob, i) by {
        OnlyRow(inventory, i);
      }
      items := InsertByDigest(items, Item(manifest.digest, manifest.tags, decision));
    }
    return Ok(items);
  }

  lemma OnlyRow(inventory: seq<Manifest>, i: nat)
    requires UniqueDigests(inventory) && i < |inventory|
    ensures forall m :: m in inventory && m.digest == inventory[i].digest ==> m == inventory[i]
  {
    FindsRow(inventory, inventory[i]);
  }

  // ----- what the specification implies

  /** Reordering the policies changes no decision. */
  lemma PolicyOrderIsIrrelevant(policies: seq<Policy>, reordered: seq<Policy>, inventory: seq<Manifest>, now: int,
                                glob: Glob, j: nat)
    requires multiset(policies) == multiset(reordered) && AllLimitsPresent(policies) && j < |inventory|
    ensures AllLimitsPresent(reordered)
    ensures Decide(policies, inventory, now, glob, j) == Decide(reordered, inventory, now, glob, j)
  {
    assert forall p :: p in policies <==> p in multiset(policies);
    assert forall p :: p in reordered <==> p in multiset(reordered);
  }

  ghost predicate DistinctTimes(inventory: seq<Manifest>) {
    forall i, j :: 0 <= i < j < |inventory| ==> LifecycleTime(inventory[i]) != LifecycleTime(inventory[j])
  }

  ghost function AheadRows(policy: Policy, inventory: seq<Manifest>, glob: Glob, manifest: Manifest): set<Manifest> {
    set m | m in inventory && Matching(policy, m, glob) && LifecycleTime(m) > LifecycleTime(manifest)
  }

  lemma {:induction false} ImageCardinality(inventory: seq<Manifest>, positions: set<nat>, rows: set<Manifest>)
    requires UniqueDigests(inventory) && forall i :: i in positions ==> i < |inventory|
    requires forall i :: i in positions ==> inventory[i] in rows
    requires forall m :: m in rows ==> exists i :: i in positions && inventory[i] == m
    ensures |positions| == |rows|
    decreases |positions|
  {
    if positions != {} {
      var i :| i in positions;
      forall m | m in rows - {inventory[i]}
        ensures exists k :: k in positions - {i} && inventory[k] == m
      {
        var k :| k in positions && inventory[k] == m;
      }
      forall k | k in positions - {i}
        ensures inventory[k] in rows - {inventory[i]}
      {
        assert inventory[k].digest != inventory[i].digest;
      }
      ImageCardinality(inventory, positions - {i}, rows - {inventory[i]});
    }
  }

  /** With distinct times, a row's rank depends only on the rows, not on their order. */
  lemma RankByTime(policy: Policy, inventory: seq<Manifest>, glob: Glob, j: nat)
    requires UniqueDigests(inventory) && DistinctTimes(inventory) && j < |inventory|
    ensures |Ahead(policy, inventory, glob, j)| == |AheadRows(policy, inventory, glob, inventory[j])|
  {
    var positions := Ahead(policy, inventory, glob, j);
    var rows := AheadRows(policy, inventory, glob, inventory[j]);
    forall m | m in rows
      ensures exists i :: i in positions && inventory[i] == m
    {
      var i: nat :| i < |inventory| && inventory[i] == m;
      assert RanksBefore(inventory, i, j);
    }
    ImageCardinality(inventory, positions, rows);
  }

  /** Reordering the inventory changes no decision, as long as no two rows share a lifecycle time. */
  lemma InventoryOrderIsIrrelevant(policies: seq<Policy>, inventory: seq<Manifest>, reordered: seq<Manifest>,
                                   now: int, glob: Glob, j: nat, k: nat)
    requires AllLimitsPresent(policies) && multiset(inventory) == multiset(reordered)
    requires UniqueDigests(inventory) && UniqueDigests(reordered)
    requires DistinctTimes(inventory) && DistinctTimes(reordered)
    requires j < |inventory| && k < |reordered| && inventory[j] == reordered[k]
    ensures Decide(policies, inventory, now, glob, j) == Decide(policies, reordered, now, glob, k)
  {
    assert forall m :: m in inventory <==> m in multiset(inventory);
    assert forall m :: m in reordered <==> m in multiset(reordered);
    forall p | p in policies && IsRetention(p)
      ensures |Ahead(p, inventory, glob, j)| == |Ahead(p, reordered, glob, k)|
    {
      RankByTime(p, inventory, glob, j);
      RankByTime(p, reordered, glob, k);
      assert AheadRows(p, inventory, glob, inventory[j]) == AheadRows(p, reordered, glob, reordered[k]);
    }
    forall p | p in policies && IsRetention(p)
      ensures Selects(p, inventory, now, glob, j) == Selects(p, reordered, now, glob, k)
      ensures Keeps(p, inventory, now, glob, j) == Keeps(p, reordered, now, glob, k)
    {
    }
  }

  /** What is eligible stays eligible as time passes. */
  lemma EligibilityIsMonotone(policies: seq<Policy>, inventory: seq<Manifest>, earlier: int, later: int, glob: Glob,
                              j: nat)
    requires AllLimitsPresent(policies) && j < |inventory| && earlier <= later
    requires Decide(policies, inventory, earlier, glob, j).Eligible?
    ensures Decide(policies, inventory, later, glob, j).Eligible?
  {
    var p :| p in policies && IsRetention(p) && Selects(p, inventory, earlier, glob, j);
    assert Selects(p, inventory, later, glob, j);
    forall q | q in policies && IsRetention(q) && Keeps(q, inventory, later, glob, j)
      ensures Keeps(q, inventory, earlier, glob, j)
    {
    }
  }

  /** A policy that is not an enabled retention policy can only take eligibility away. */
  lemma OtherPoliciesOnlyProtect(policies: seq<Policy>, extra: Policy, inventory: seq<Manifest>, now: int, glob: Glob,
                                 j: nat)
    requires AllLimitsPresent(policies) && !IsRetention(extra) && j < |inventory|
    ensures AllLimitsPresent(policies + [extra])
    ensures Decide(policies + [extra], inventory, now, glob, j).Eligible? ==> Decide(policies, inventory, now, glob, j).Eligible?
  {
    if Decide(policies + [extra], inventory, now, glob, j).Eligible? {
      var p :| p in policies + [extra] && IsRetention(p) && Selects(p, inventory, now, glob, j);
      assert p in policies;
      assert forall q :: q in policies ==> q in policies + [extra];
    }
  }

  /** The rows a policy keeps by count. */
  ghost function LatestRows(policy: Policy, inventory: seq<Manifest>, glob: Glob): set<nat>
    requires LimitsPresent(policy)
  {
    set j: nat | j < |inventory| && Matching(policy, inventory[j], glob) && AmongLatest(policy, inventory, glob, j)
  }

  ghost function MatchingPositions(policy: Policy, inventory: seq<Manifest>, glob: Glob): set<nat> {
    set j: nat | j < |inventory| && Matching(policy, inventory[j], glob)
  }

  /** Keep-last-k keeps exactly min(k, matching) rows, and none of them is ever eligible. */
  lemma KeepsLatest(policies: seq<Policy>, policy: Policy, inventory: seq<Manifest>, now: int, glob: Glob)
    requires AllLimitsPresent(policies) && policy in policies && IsRetention(policy) && KeepLastOn(policy)
    ensures var latest := LatestRows(policy, inventory, glob);
            && |latest| == (if policy.keepLast.value < |MatchingPositions(policy, inventory, glob)|
                            then policy.keepLast.value else |MatchingPositions(policy, inventory, glob)|)
            && forall j :: j in latest ==> !Decide(policies, inventory, now, glob, j).Eligible?
  {
    var order := RankedPositions(policy, inventory, glob);
    var all := MatchingPositions(policy, inventory, glob);
    var k := if policy.keepLast.value < |order| then policy.keepLast.value else |order|;
    DistinctCardinality(order);
    assert Elements(order) == all;
    DistinctCardinality(order[..k]);
    forall i | 0 <= i < |order|
      ensures |Ahead(policy, inventory, glob, order[i])| == i
    {
      RankIsPosition(policy, inventory, glob, order, i);
    }
    var latest := LatestRows(policy, inventory, glob);
    forall j | j in latest
      ensures j in order[..k]
    {
      var i :| 0 <= i < |order| && order[i] == j;
      assert i < k;
    }
    forall j | j in order[..k]
      ensures j in latest
    {
      var i :| 0 <= i < k && order[i] == j;
      assert j in order;
    }
    assert latest == Elements(order[..k]);
    forall j | j in latest
      ensures !Decide(policies, inventory, now, glob, j).Eligible?
    {
      assert Keeps(policy, inventory, now, glob, j);
    }
  }

  /** The matching rows can be listed in rank order. */
  lemma RankedPositions(policy: Policy, inventory: seq<Manifest>, glob: Glob) returns (order: seq<nat>)
    ensures Ranked(inventory, order) && Distinct(order)
    ensures forall i: nat :: i in order <==> i < |inventory| && Matching(policy, inventory[i], glob)
  {
    order := [];
    for i := 0 to |inventory|
      invariant Ranked(inventory, order)
      invariant forall j: nat :: j in order <==> j < i && Matching(policy, inventory[j], glob)
    {
      if Matching(policy, inventory[i], glob) {
        var k := |order|;
        while k > 0 && LifecycleTime(inventory[order[k - 1]]) < LifecycleTime(inventory[i])
          invariant 0 <= k <= |order|
          invariant forall l :: k <= l < |order| ==> LifecycleTime(inventory[order[l]]) < LifecycleTime(inventory[i])
        {
          k := k - 1;
        }
        forall l | 0 <= l < k
          ensures RanksBefore(inventory, order[l], i)
        {
          assert order[l] in order;
          assert l < k - 1 ==> RanksBefore(inventory, order[l], order[k - 1]);
        }
        order := InsertAt(inventory, order, k, i);
      }
    }
    RankedIsDistinct(inventory, order);
  }

  lemma RankedIsDistinct(inventory: seq<Manifest>, order: seq<nat>)
    requires Ranked(inventory, order)
    ensures Distinct(order)
  {
    forall i, j | 0 <= i < j < |order|
      ensures order[i] != order[j]
    {
      assert RanksBefore(inventory, order[i], order[j]);
    }
  }
}
