/**
 Executing a stored lifecycle preview (`Execute`): every approved artifact is revalidated and
 deleted with its plan, against a local view that follows the run's own deletions.
 */
module LifecycleExecution {
  import opened Foundation
  import opened ManifestGraph
  import opened Registry
  import opened Inventory
  import opened Policies
  import opened LifecycleEvaluation
  import opened LifecycleProtocol
  import InventoryStore
  import DeletionPlan
  import opened DeletionTree

  // ----- the collaborators

  /** The lifecycle tables; every write may fail, and then changes nothing. */
  class LifecycleStore {
    const faults: nat -> bool
    var calls: nat
    var db: Db
    /** The inventory tables, which the run writes to as well. */
    var tables: InventoryStore.Tables
    /** The items written back, in order. */
    var items: seq<RunItem>

    ghost predicate Reliable() {
      forall n :: !faults(n)
    }

    method Attempt() returns (ok: bool)
      modifies this`calls
      ensures ok == !faults(old(calls)) && calls == old(calls) + 1
      ensures Reliable() ==> ok
    {
      ok := !faults(calls);
      calls := calls + 1;
    }

    method AcquireLifecycleLock(repository: Id, run: Id, now: int) returns (ok: bool)
      modifies this`calls, this`db
      ensures ok ==> Some(db) == AcquireLock(old(db), repository, run, now)
      ensures !ok ==> db == old(db)
      ensures ok <==> !faults(old(calls)) && AcquireLock(old(db), repository, run, now).Some?
      ensures Reliable() ==> (ok <==> AcquireLock(old(db), repository, run, now).Some?)
    {
      ok := Attempt();
      var acquired := AcquireLock(db, repository, run, now);
      if ok && acquired.Some? {
        db := acquired.value;
      } else {
        ok := false;
      }
    }

    method ReleaseLifecycleLock(repository: Id, run: Id) returns (ok: bool)
      modifies this`calls, this`db
      ensures db == if ok then ReleaseLock(old(db), repository, run) else old(db)
      ensures ok == !faults(old(calls))
      ensures Reliable() ==> ok
    {
      ok := Attempt();
      if ok {
        db := ReleaseLock(db, repository, run);
      }
    }

    method CreateLifecycleRunFromPreview(run: Id, preview: Id, repository: Id) returns (ok: bool)
      modifies this`calls, this`db
      ensures ok ==> Some(db) == CreateRun(old(db), run, preview, repository)
      ensures !ok ==> db == old(db)
      ensures ok <==> !faults(old(calls)) && CreateRun(old(db), run, preview, repository).Some?
      ensures Reliable() ==> (ok <==> CreateRun(old(db), run, preview, repository).Some?)
    {
      ok := Attempt();
      var created := CreateRun(db, run, preview, repository);
      if ok && created.Some? {
        db := created.value;
      } else {
        ok := false;
      }
    }

    method CompleteLifecycleRun(run: Id, status: RunStatus) returns (ok: bool)
      modifies this`calls, this`db
      ensures db == if ok then CompleteRun(old(db), run, status) else old(db)
      ensures ok == !faults(old(calls))
      ensures Reliable() ==> ok
    {
      ok := Attempt();
      if ok {
        db := CompleteRun(db, run, status);
      }
    }

    method SetLifecyclePreviewStatus(preview: Id, status: PreviewStatus) returns (ok: bool)
      modifies this`calls, this`db
      ensures db == if ok then SetPreview(old(db), preview, status) else old(db)
      ensures ok == !faults(old(calls))
      ensures Reliable() ==> ok
    {
      ok := Attempt();
      if ok {
        db := SetPreview(db, preview, status);
      }
    }

    method UpdateLifecycleRunItem(item: RunItem) returns (ok: bool)
      modifies this`calls, this`items
      ensures items == if ok then old(items) + [item] else old(items)
      ensures ok == !faults(old(calls)) && (Reliable() ==> ok)
    {
      ok := Attempt();
      if ok {
        items := items + [item];
      }
    }

    method MarkManifestDeleted(digest: Digest, now: int) returns (ok: bool)
      modifies this`calls, this`tables
      ensures tables == if ok then InventoryStore.MarkDeleted(old(tables), digest, now) else old(tables)
      ensures ok == !faults(old(calls))
      ensures Reliable() ==> ok
    {
      ok := Attempt();
      if ok {
        tables := InventoryStore.MarkDeleted(tables, digest, now);
      }
    }
  }

  datatype Action = RunStarted | ItemDone(item: RunItem) | RunEnded(failed: bool)

  class AuditRecorder {
    const faults: nat -> bool
    var calls: nat
    var log: seq<Action>

    ghost predicate Reliable() {
      forall n :: !faults(n)
    }

    method Record(action: Action) returns (ok: bool)
      modifies this
      ensures (ok <==> !faults(old(calls))) && calls == old(calls) + 1
      ensures log == if ok then old(log) + [action] else old(log)
      ensures Reliable() ==> ok
    {
      ok := !faults(calls);
      calls := calls + 1;
      if ok {
        log := log + [action];
      }
    }
  }

  // ----- the local view

  /** The row as the run sees it once its manifest is gone. */
  function Gone(manifest: Manifest): Manifest {
    manifest.(state := Deleted, tags := [])
  }

  /** `view` is the reconciled inventory in which some rows were marked deleted. */
  ghost predicate MarkedFrom(current: seq<Manifest>, view: seq<Manifest>) {
    && |view| == |current|
    && forall i :: 0 <= i < |view| ==> view[i] == current[i] || view[i] == Gone(current[i])
  }

  /** Only manifests that are absent from the registry are marked. */
  ghost predicate Faithful(current: seq<Manifest>, view: seq<Manifest>, documents: map<Digest, Document>) {
    && MarkedFrom(current, view)
    && forall i :: 0 <= i < |view| && view[i] != current[i] ==> current[i].digest !in documents
  }

  /** The view with the rows of some digests marked. */
  function Marked(view: seq<Manifest>, digests: set<Digest>): seq<Manifest> {
    seq(|view|, i requires 0 <= i < |view| => if view[i].digest in digests then Gone(view[i]) else view[i])
  }

  method MarkInventoryDeleted(view: array<Manifest>, digest: Digest)
    requires UniqueDigests(view[..])
    modifies view
    ensures view[..] == Marked(old(view[..]), {digest})
  {
    for index := 0 to view.Length
      invariant view[..] == old(view[..])
      invariant forall i :: 0 <= i < index ==> view[i].digest != digest
    {
      if view[index].digest == digest {
        view[index] := view[index].(state := Deleted, tags := []);
        return;
      }
    }
  }

  lemma MarkedTwice(view: seq<Manifest>, first: set<Digest>, second: set<Digest>)
    ensures Marked(Marked(view, first), second) == Marked(view, first + second)
    ensures UniqueDigests(view) ==> UniqueDigests(Marked(view, first))
    ensures Marked(view, {}) == view
  {
  }

  /** Marking digests that are absent keeps the view faithful. */
  lemma MarkingIsFaithful(current: seq<Manifest>, view: seq<Manifest>, documents: map<Digest, Document>,
                          digests: set<Digest>)
    requires Faithful(current, view, documents) && digests !! documents.Keys
    ensures Faithful(current, Marked(view, digests), documents)
  {
  }

  // ----- recording

  /** The local view shows a digest as gone. */
  ghost predicate MarkedIn(view: seq<Manifest>, digest: Digest) {
    forall i :: 0 <= i < |view| && view[i].digest == digest ==> view[i].state.Deleted? && view[i].tags == []
  }

  /** Everything that is gone from the registry is marked in the local view and in the tables. */
  ghost predicate Recorded(view: seq<Manifest>, tables: InventoryStore.Tables, before: map<Digest, Document>,
                           documents: map<Digest, Document>) {
    forall d :: d in before && d !in documents ==> MarkedIn(view, d) && InventoryStore.RowGone(tables, d)
  }

  lemma RecordMore(view: seq<Manifest>, marked: seq<Manifest>, tables: InventoryStore.Tables,
                   after: InventoryStore.Tables, before: map<Digest, Document>, middle: map<Digest, Document>,
                   documents: map<Digest, Document>, deleted: set<Digest>)
    requires Recorded(view, tables, before, middle) && InventoryStore.OnlyMarks(tables, after, deleted)
    requires marked == Marked(view, deleted) && documents == middle - deleted
    requires forall d :: d in deleted ==> InventoryStore.RowGone(after, d)
    ensures Recorded(marked, after, before, documents)
  {
    hide InventoryStore.RowGone;
    forall d | d in before && d !in documents
      ensures MarkedIn(marked, d) && InventoryStore.RowGone(after, d)
    {
      if d !in deleted {
        assert MarkedIn(view, d);
      }
    }
  }

  // ----- what a whole run keeps

  /** A digest that may be deleted while `present` is there: approved itself, or planned with an approved target. */
  ghost predicate Permitted(current: seq<Manifest>, approved: set<Digest>, present: map<Digest, Document>,
                            digest: Digest) {
    digest in approved || exists view, target :: PlannedWith(current, approved, view, present, target, digest)
  }

  /** The plan is made on a view that marks only what is absent. */
  ghost predicate PlannedWith(current: seq<Manifest>, approved: set<Digest>, view: seq<Manifest>,
                              present: map<Digest, Document>, target: Digest, digest: Digest) {
    target in approved && Faithful(current, view, present) && digest in DeletionPlan.Plan(view, target)
  }

  /**
   However the run ended: no surviving referrer lost its subject, what was not approved keeps its
   tags and its place in every surviving index, and a tag whose tree holds nothing approved keeps
   that tree whole.
   */
  ghost predicate RunSafe(current: seq<Manifest>, before: map<Digest, Document>, after: map<Digest, Document>,
                          tags: map<Tag, Digest>, approved: set<Digest>) {
    && Shrinks(before, after)
    && (forall t :: t in tags && tags[t] in before && tags[t] !in approved ==> tags[t] in after)
    && KeepsTaggedTrees(before, after, tags, approved)
    && (forall p :: p in after && after[p].subject in before ==> after[p].subject in after)
    && (Covers(current, before) ==>
          forall p, c :: p in after && c in References(after[p]) && c in before && c !in approved ==> c in after)
  }

  lemma ViewCovers(current: seq<Manifest>, view: seq<Manifest>, before: map<Digest, Document>,
                   documents: map<Digest, Document>)
    requires Covers(current, before) && Shrinks(before, documents) && Faithful(current, view, documents)
    ensures Covers(view, documents)
  {
    forall d | d in documents
      ensures exists m :: m in view && RowFor(m, d, documents[d])
    {
      var m :| m in current && RowFor(m, d, before[d]);
      var i :| 0 <= i < |current| && current[i] == m;
      assert view[i] == m;
    }
  }

  lemma {:induction false} FewerMentions(tree: Metadata, fewer: set<Digest>, more: set<Digest>)
    requires fewer <= more && !MentionsAny(tree, more)
    ensures !MentionsAny(tree, fewer)
    decreases tree
  {
    forall i | 0 <= i < |tree.children|
      ensures !MentionsAny(tree.children[i], fewer)
    {
      FewerMentions(tree.children[i], fewer, more);
    }
  }

  /** Trees that hold nothing approved survive one more deletion of an approved target. */
  lemma TreesStayWhole(before: map<Digest, Document>, middle: map<Digest, Document>, after: map<Digest, Document>,
                       tags: map<Tag, Digest>, approved: set<Digest>, target: Digest)
    requires KeepsTaggedTrees(before, middle, tags, approved) && KeepsTaggedTrees(middle, after, tags, {target})
    requires target in approved
    ensures KeepsTaggedTrees(before, after, tags, approved)
  {
    hide IsUnfolding, MentionsAny;
    forall t, tree | t in tags && IsUnfolding(GraphOf(before, tags), ByDigest(tags[t]), tree)
                     && !MentionsAny(tree, approved)
      ensures IsUnfolding(GraphOf(after, tags), ByDigest(tags[t]), tree)
    {
      FewerMentions(tree, {target}, approved);
    }
  }

  /** One more deletion of an approved target that has no referrers keeps the whole run safe. */
  lemma RunStaysSafe(current: seq<Manifest>, view: seq<Manifest>, before: map<Digest, Document>,
                     middle: map<Digest, Document>, after: map<Digest, Document>, tags: map<Tag, Digest>,
                     approved: set<Digest>, target: Digest, children: seq<Digest>)
    requires RunSafe(current, before, middle, tags, approved) && Faithful(current, view, middle)
    requires Safe(view, middle, after, tags, target, children) && target in approved
    requires forall r :: !Referrer(middle, target, r)
    ensures RunSafe(current, before, after, tags, approved)
  {
    TreesStayWhole(before, middle, after, tags, approved, target);
    hide KeepsTaggedTrees;
    forall p | p in after && after[p].subject in before
      ensures after[p].subject in after
    {
      assert after[p] == middle[p];
      assert !Referrer(middle, target, p);
    }
    if Covers(current, before) {
      ViewCovers(current, view, before, middle);
      forall p, c | p in after && c in References(after[p]) && c in before && c !in approved
        ensures c in after
      {
        assert after[p] == middle[p];
        assert c in middle;
      }
    }
  }

  /**
   Whatever is planned with an approved target has a live, untagged row without a subject, and
   among what is present nothing lists it but the target and the plan, and nothing refers to it.
   */
  lemma PlannedRowIsUntagged(current: seq<Manifest>, approved: set<Digest>, view: seq<Manifest>,
                             present: map<Digest, Document>, target: Digest, digest: Digest)
    requires PlannedWith(current, approved, view, present, target, digest)
    ensures exists m :: m in current && m.digest == digest && Live(m) && m.tags == [] && m.subject == NoDigest
    ensures forall m :: m in current && Live(m) && m.digest in present && digest in m.platforms ==>
                          m.digest == target || m.digest in DeletionPlan.Plan(view, target)
    ensures forall m :: m in current && Live(m) && m.digest in present ==> m.subject != digest
  {
    var plan := DeletionPlan.Plan(view, target);
    DeletionPlan.PlanIsGreatest(view, target);
    assert digest in Elements(plan);
    assert DeletionPlan.Unneeded(digest, Elements(plan) + {target}, view);
    var row := Find(view, digest).value;
    var i :| 0 <= i < |view| && view[i] == row;
    assert current[i] in current;
    forall m | m in current && Live(m) && m.digest in present
      ensures m in view
    {
      var j :| 0 <= j < |current| && current[j] == m;
      assert view[j] == m;
    }
  }

  /** A tagged row that was not approved is never permitted. */
  lemma TaggedRowsAreNotPermitted(current: seq<Manifest>, approved: set<Digest>, present: map<Digest, Document>,
                                  manifest: Manifest)
    requires UniqueDigests(current) && manifest in current && manifest.tags != [] && manifest.digest !in approved
    ensures !Permitted(current, approved, present, manifest.digest)
  {
    var k :| 0 <= k < |current| && current[k] == manifest;
    OnlyRow(current, k);
    forall view, target
      ensures !PlannedWith(current, approved, view, present, target, manifest.digest)
    {
      if PlannedWith(current, approved, view, present, target, manifest.digest) {
        PlannedRowIsUntagged(current, approved, view, present, target, manifest.digest);
        assert false;
      }
    }
  }

  /** Neither is a digest that a present, tagged index outside the approval lists, nor one with a present referrer. */
  lemma ReferencedRowsAreNotPermitted(current: seq<Manifest>, approved: set<Digest>, present: map<Digest, Document>,
                                      manifest: Manifest, digest: Digest)
    requires UniqueDigests(current) && manifest in current && Live(manifest) && manifest.digest in present
    requires digest !in approved && manifest.digest !in approved
    requires manifest.subject == digest || (digest in manifest.platforms && manifest.tags != [])
    ensures !Permitted(current, approved, present, digest)
  {
    forall view, target
      ensures !PlannedWith(current, approved, view, present, target, digest)
    {
      if PlannedWith(current, approved, view, present, target, digest) {
        PlannedRowIsUntagged(current, approved, view, present, target, digest);
        TaggedRowsAreNotPermitted(current, approved, present, manifest);
        assert PlannedWith(current, approved, view, present, target, manifest.digest);
        assert false;
      }
    }
  }

  // ----- executing one approved item

  datatype ItemStatus = ItemDeleted | ItemSkipped | ItemFailed

  /** What revalidation asks of a candidate. */
  ghost predicate IsCurrent(documents: map<Digest, Document>, tags: map<Tag, Digest>, digest: Digest, named: seq<Tag>) {
    && digest in documents
    && (forall t :: t in named ==> Resolve(documents, tags, ByTag(t)) == Some(digest))
    && (forall r :: !Referrer(documents, digest, r))
  }

  method RevalidateLifecycleCandidate(registry: Distribution, digest: Digest, tags: seq<Tag>) returns (current: bool)
    modifies registry`calls
    ensures current ==> IsCurrent(registry.documents, registry.tags, digest, tags)
    ensures registry.Reliable() ==> (current <==> IsCurrent(registry.documents, registry.tags, digest, tags))
  {
    var resolved := registry.ResolveManifest(ByDigest(digest));
    if resolved.Err? || resolved.value != Some(digest) {
      return false;
    }
    for i := 0 to |tags|
      invariant forall t :: t in tags[..i] ==> Resolve(registry.documents, registry.tags, ByTag(t)) == Some(digest)
    {
      resolved := registry.ResolveManifest(ByTag(tags[i]));
      if resolved.Err? || resolved.value != Some(digest) {
        assert tags[i] in tags;
        return false;
      }
    }
    var referrers := registry.ListReferrers(digest);
    if referrers.Err? {
      return false;
    }
    if |referrers.value| > 0 {
      assert Referrer(registry.documents, digest, referrers.value[0]);
      return false;
    }
    assert tags[..|tags|] == tags;
    assert forall r :: Referrer(registry.documents, digest, r) ==> r in referrers.value;
    current := true;
  }

  /**
   Records the deletions the engine reported, in the tables and in the local view. `recorded` of
   them are marked in the view: all, or those before the failing write that stopped this.
   */
  method RecordDeletions(store: LifecycleStore, view: array<Manifest>, deleted: seq<Digest>, stopOnError: bool,
                         now: int)
    returns (ok: bool, ghost recorded: nat)
    requires UniqueDigests(view[..])
    modifies view, store`calls, store`tables
    ensures recorded <= |deleted| && view[..] == Marked(old(view[..]), Elements(deleted[..recorded]))
    ensures ok || !stopOnError ==> recorded == |deleted|
    ensures !ok && stopOnError ==> recorded < |deleted|
    ensures InventoryStore.OnlyMarks(old(store.tables), store.tables, Elements(deleted))
    ensures ok || stopOnError ==> forall d :: d in deleted[..recorded] ==> InventoryStore.RowGone(store.tables, d)
    ensures store.Reliable() ==> ok
  {
    hide InventoryStore.RowGone, InventoryStore.MarkDeleted, UniqueDigests, Marked;
    ok, recorded := true, 0;
    MarkedTwice(view[..], {}, {});
    assert Elements(deleted[..0]) == {};
    for i := 0 to |deleted|
      invariant recorded == i && UniqueDigests(view[..])
      invariant view[..] == Marked(old(view[..]), Elements(deleted[..i]))
      invariant InventoryStore.OnlyMarks(old(store.tables), store.tables, Elements(deleted))
      invariant ok ==> forall d :: d in deleted[..i] ==> InventoryStore.RowGone(store.tables, d)
      invariant stopOnError || store.Reliable() ==> ok
    {
      InventoryStore.MarkDeletedMarks(store.tables, deleted[i], now);
      var marked := store.MarkManifestDeleted(deleted[i], now);
      if !marked {
        ok := false;
        if stopOnError {
          return;
        }
      }
      MarkedTwice(view[..], {deleted[i]}, {});
      MarkedTwice(old(view[..]), Elements(deleted[..i]), {deleted[i]});
      assert deleted[..i + 1] == deleted[..i] + [deleted[i]];
      assert Elements(deleted[..i + 1]) == Elements(deleted[..i]) + {deleted[i]};
      MarkInventoryDeleted(view, deleted[i]);
      recorded := i + 1;
    }
    assert deleted[..|deleted|] == deleted;
  }

  /**
   What a run is measured against: the reconciled rows, the registry at its start and what was
   approved. `certain` tells that no deletion is refused.
   */
  datatype Scope = Scope(current: seq<Manifest>, before: map<Digest, Document>, approved: set<Digest>, from: nat,
                         certain: bool)

  /** Every request was permitted by what was present when it was made. */
  ghost predicate AllPermitted(scope: Scope, requested: seq<Digest>, presentWhen: seq<map<Digest, Document>>) {
    && scope.from <= |requested| == |presentWhen|
    && forall k :: scope.from <= k < |requested| ==>
                     Permitted(scope.current, scope.approved, presentWhen[k], requested[k])
  }

  /** What the run's own writes leave alone, and what they add. */
  ghost predicate RunInvariant(scope: Scope, view: seq<Manifest>, documents: map<Digest, Document>,
                               tags: map<Tag, Digest>, requested: seq<Digest>,
                               presentWhen: seq<map<Digest, Document>>) {
    && UniqueDigests(view)
    && Faithful(scope.current, view, documents)
    && RunSafe(scope.current, scope.before, documents, tags, scope.approved)
    && AllPermitted(scope, requested, presentWhen)
    && Accounted(scope.before, documents, requested, scope.from)
    && Traced(scope.before, documents, requested, presentWhen, scope.from, scope.certain)
  }

  /** The engine's run on an approved target keeps the invariant of the whole run. */
  lemma EngineKeepsRun(scope: Scope, view: seq<Manifest>, middle: map<Digest, Document>, after: map<Digest, Document>,
                       tags: map<Tag, Digest>, target: Digest, requested: seq<Digest>, later: seq<Digest>,
                       presentWhen: seq<map<Digest, Document>>, laterPresent: seq<map<Digest, Document>>)
    requires RunInvariant(scope, view, middle, tags, requested, presentWhen) && target in scope.approved
    requires forall r :: !Referrer(middle, target, r)
    requires Safe(view, middle, after, tags, target, DeletionPlan.Plan(view, target))
    requires Requests(requested, presentWhen, later, laterPresent, [target] + DeletionPlan.Plan(view, target))
    requires Traced(middle, after, later, laterPresent, |requested|, scope.certain)
    requires Accounted(middle, after, later, |requested|)
    ensures RunInvariant(scope, view, after, tags, later, laterPresent) && Shrinks(middle, after)
    ensures requested <= later
  {
    var plan := DeletionPlan.Plan(view, target);
    RunStaysSafe(scope.current, view, scope.before, middle, after, tags, scope.approved, target, plan);
    StillAccounted(scope.before, middle, after, requested, later, scope.from);
    FaithSurvives(scope.current, view, middle, after, tags, target, plan);
    EnginePermitted(scope, view, middle, after, target, requested, later, presentWhen, laterPresent);
    TraceMore(scope.before, middle, after, requested, later, presentWhen, laterPresent, scope.from, scope.certain);
  }

  lemma FaithSurvives(current: seq<Manifest>, view: seq<Manifest>, before: map<Digest, Document>,
                      after: map<Digest, Document>, tags: map<Tag, Digest>, target: Digest, children: seq<Digest>)
    requires Faithful(current, view, before)
    requires Safe(view, before, after, tags, target, children)
    ensures Faithful(current, view, after) && Shrinks(before, after)
  {
  }

  lemma EnginePermitted(scope: Scope, view: seq<Manifest>, middle: map<Digest, Document>, last: map<Digest, Document>,
                        target: Digest, before: seq<Digest>, after: seq<Digest>,
                        presentWhen: seq<map<Digest, Document>>, laterPresent: seq<map<Digest, Document>>)
    requires Faithful(scope.current, view, middle) && target in scope.approved
    requires AllPermitted(scope, before, presentWhen)
    requires Requests(before, presentWhen, after, laterPresent, [target] + DeletionPlan.Plan(view, target))
    requires Traced(middle, last, after, laterPresent, |before|, scope.certain)
    ensures AllPermitted(scope, after, laterPresent)
  {
    forall k | scope.from <= k < |after|
      ensures Permitted(scope.current, scope.approved, laterPresent[k], after[k])
    {
      if k < |before| {
        assert laterPresent[k] == presentWhen[k] && after[k] == before[k];
      } else if k > |before| {
        assert after[k] == DeletionPlan.Plan(view, target)[k - |before| - 1];
        assert Shrinks(middle, laterPresent[k]);
        assert PlannedWith(scope.current, scope.approved, view, laterPresent[k], target, after[k]);
      }
    }
  }

  /** The rows of what a deleted item took say so. */
  ghost predicate TakenRowsGone(item: RunItem, view: seq<Manifest>, tables: InventoryStore.Tables) {
    item.status.ItemDeleted? ==>
      forall d :: d == item.digest || d in DeletionPlan.Plan(view, item.digest) ==> InventoryStore.RowGone(tables, d)
  }

  /** The registry and the local view at one point of the run. */
  datatype Moment = Moment(documents: map<Digest, Document>, view: seq<Manifest>)

  method DeleteApproved(registry: Distribution, store: LifecycleStore, view: array<Manifest>, digest: Digest, now: int,
                        ghost scope: Scope)
    returns (status: ItemStatus)
    requires registry.Valid() && digest in scope.approved && forall r :: !Referrer(registry.documents, digest, r)
    requires scope.certain == registry.NeverRefuses()
    requires RunInvariant(scope, view[..], registry.documents, registry.tags, registry.requested, registry.presentWhen)
    modifies registry, store`calls, store`tables, view
    ensures registry.Valid() && registry.tags == old(registry.tags)
    ensures RunInvariant(scope, view[..], registry.documents, registry.tags, registry.requested, registry.presentWhen)
    ensures old(registry.requested) <= registry.requested && Shrinks(old(registry.documents), registry.documents)
    ensures store.Reliable() && registry.KeepsReplies()
            && old(Recorded(view[..], store.tables, scope.before, registry.documents)) ==>
              Recorded(view[..], store.tables, scope.before, registry.documents)
    ensures InventoryStore.OnlyMarks(old(store.tables), store.tables, old(registry.documents).Keys - registry.documents.Keys)
    ensures status.ItemDeleted? ==> digest in old(registry.documents) && digest !in registry.documents
    ensures status != ItemSkipped
    ensures TakenRowsGone(RunItem(digest, status), old(view[..]), store.tables)
    ensures status.ItemDeleted? ==>
              && Passable(old(view[..]), old(registry.documents), registry.tags, digest,
                          DeletionPlan.Plan(old(view[..]), digest))
              && registry.documents ==
                 old(registry.documents) - ({digest} + Elements(DeletionPlan.Plan(old(view[..]), digest)))
    ensures registry.Reliable() && store.Reliable() ==>
              (status.ItemDeleted? <==>
               Passable(old(view[..]), old(registry.documents), registry.tags, digest,
                        DeletionPlan.Plan(old(view[..]), digest)))
  {
    hide Faithful, RunSafe, Safe, InOrder, Covers, Passable, AllPermitted, MarkedFrom, DeletionPlan.Plan, Cleared, Stopped,
      Traced, Accounted, Requests, GetsTo, Distribution.Reliable, Distribution.KeepsReplies, Distribution.NeverRefuses,
      LifecycleStore.Reliable, Distinct, Recorded,
      UniqueDigests, Marked, InventoryStore.OnlyMarks, InventoryStore.RowGone;
    ghost var middle, known, tables := registry.documents, view[..], store.tables;
    var children := DeletionPlan.DeletionChildDigests(digest, view[..]);
    var deleted, ok := DeleteManifestTree(registry, digest, children, view[..]);
    EngineKeepsRun(scope, known, middle, registry.documents, registry.tags, digest, old(registry.requested),
                   registry.requested, old(registry.presentWhen), registry.presentWhen);
    var recorded;
    ghost var n;
    recorded, n := RecordDeletions(store, view, deleted, ok, now);
    status := if ok && recorded then ItemDeleted else ItemFailed;
    InventoryStore.NothingMarked(tables);
    InventoryStore.OnlyMarksMore(tables, tables, store.tables, {}, Elements(deleted),
                                 middle.Keys - registry.documents.Keys);
    PrefixIsAbsent(deleted, n, middle, registry.documents);
    MarkedTwice(known, Elements(deleted[..n]), {});
    MarkingIsFaithful(scope.current, known, registry.documents, Elements(deleted[..n]));
    if store.Reliable() && registry.KeepsReplies() && Recorded(known, tables, scope.before, middle) {
      assert deleted[..n] == deleted;
      assert forall d :: d in Elements(deleted) ==> d in deleted;
      RecordMore(known, view[..], tables, store.tables, scope.before, middle, registry.documents, Elements(deleted));
    }
    if ok {
      assert deleted[0] == digest;
      assert digest in Elements(deleted);
      assert Elements(deleted) == {digest} + Elements(children);
      forall d | recorded && (d == digest || d in children)
        ensures InventoryStore.RowGone(store.tables, d)
      {
        assert d in deleted && deleted[..n] == deleted;
      }
    }
  }

  lemma PrefixIsAbsent(deleted: seq<Digest>, n: nat, before: map<Digest, Document>, after: map<Digest, Document>)
    requires n <= |deleted| && Elements(deleted) <= before.Keys - after.Keys
    ensures Elements(deleted[..n]) !! after.Keys
  {
    forall d | d in Elements(deleted[..n])
      ensures d in Elements(deleted)
    {
    }
  }

  // ----- the run

  datatype RunItem = RunItem(digest: Digest, status: ItemStatus)

  function Count(items: seq<RunItem>, status: ItemStatus): nat {
    if items == [] then 0
    else Count(items[..|items| - 1], status) + if items[|items| - 1].status == status then 1 else 0
  }

  lemma CountOneMore(items: seq<RunItem>, item: RunItem, status: ItemStatus)
    ensures Count(items + [item], status) == Count(items, status) + if item.status == status then 1 else 0
  {
    assert (items + [item])[..|items|] == items;
  }

  /** Every item has exactly one of the three outcomes. */
  lemma {:induction false} CountsAddUp(items: seq<RunItem>)
    ensures Count(items, ItemDeleted) + Count(items, ItemFailed) + Count(items, ItemSkipped) == |items|
  {
    if items != [] {
      CountsAddUp(items[..|items| - 1]);
    }
  }

  function RunStatusOf(items: seq<RunItem>): RunStatus {
    if Count(items, ItemFailed) > 0 && Count(items, ItemDeleted) == 0 then Failed
    else if Count(items, ItemFailed) > 0 || Count(items, ItemSkipped) > 0 then PartiallyCompleted
    else Completed
  }

  /** The digests eligible in the stored preview and in the latest evaluation, with the same tags. */
  function ApprovedDigests(items: seq<Item>, latest: seq<Item>): set<Digest> {
    set a, b | a in items && b in latest && a.digest == b.digest && a.decision.Eligible? && b.decision.Eligible?
               && SameEntries(a.tags, b.tags) :: a.digest
  }

  ghost predicate EligibleIn(items: seq<Item>, digest: Digest) {
    exists a :: a in items && a.digest == digest && a.decision.Eligible?
  }

  ghost predicate Reported(items: seq<RunItem>, digest: Digest) {
    exists item :: item in items && item.digest == digest
  }

  lemma StillAccounted(before: map<Digest, Document>, middle: map<Digest, Document>, after: map<Digest, Document>,
                       earlier: seq<Digest>, later: seq<Digest>, from: nat)
    requires Accounted(before, middle, earlier, from) && Accounted(middle, after, later, |earlier|) && earlier <= later
    ensures Accounted(before, after, later, from)
  {
    assert later[from..] == earlier[from..] + later[|earlier|..];
    assert Elements(later[from..]) == Elements(earlier[from..]) + Elements(later[|earlier|..]);
  }

  method FindItem(items: seq<Item>, digest: Digest) returns (found: Option<Item>)
    ensures found.Some? ==> found.value in items && found.value.digest == digest
    ensures found.None? ==> forall item :: item in items ==> item.digest != digest
  {
    found := None;
    for i := 0 to |items|
      invariant found.Some? ==> found.value in items && found.value.digest == digest
      invariant found.None? ==> forall item :: item in items[..i] ==> item.digest != digest
    {
      if items[i].digest == digest {
        found := Some(items[i]);
      }
    }
    assert items[..|items|] == items;
  }

  /** What lets a run take an approved item on: it is still current, and the view has a row for it. */
  ghost predicate Ready(moment: Moment, tags: map<Tag, Digest>, latest: seq<Item>, digest: Digest) {
    && (forall item :: item in latest && item.digest == digest ==>
                         IsCurrent(moment.documents, tags, digest, item.tags))
    && (exists i :: 0 <= i < |moment.view| && moment.view[i].digest == digest)
  }

  /** An approved item that the run can delete: it is ready, and every review of its plan passes. */
  ghost predicate Deletable(moment: Moment, tags: map<Tag, Digest>, latest: seq<Item>, digest: Digest) {
    && Ready(moment, tags, latest, digest)
    && Passable(moment.view, moment.documents, tags, digest, DeletionPlan.Plan(moment.view, digest))
  }

  /**
   What becomes of one item. It is skipped unless it is approved and ready, and skipped only for that
   reason or because a request failed; it is deleted only if every review passes. Without failing
   requests and writes both are exact, so that it fails exactly when a review does not pass.
   */
  ghost predicate ItemFollows(approved: set<Digest>, tags: map<Tag, Digest>, latest: seq<Item>, item: RunItem,
                              moment: Moment, reliable: bool, written: bool) {
    var ready := item.digest in approved && Ready(moment, tags, latest, item.digest);
    && (!ready ==> item.status.ItemSkipped?)
    && (reliable && ready ==> !item.status.ItemSkipped?)
    && (item.status.ItemDeleted? ==> Deletable(moment, tags, latest, item.digest))
    && (reliable && written && ready && Deletable(moment, tags, latest, item.digest) ==> item.status.ItemDeleted?)
  }

  /** Sorted by digest, an item list has at most one item for a digest. */
  lemma OneItem(items: seq<Item>, left: Item, right: Item)
    requires SortedByDigest(items) && left in items && right in items && left.digest == right.digest
    ensures left == right
  {
    var i :| 0 <= i < |items| && items[i] == left;
    var j :| 0 <= j < |items| && items[j] == right;
  }

  /** What looking both lists up by digest says about approval. */
  lemma ApprovalOf(items: seq<Item>, latest: seq<Item>, digest: Digest, expected: Item, found: Option<Item>)
    requires SortedByDigest(items) && SortedByDigest(latest)
    requires expected in items && expected.digest == digest && EligibleIn(items, digest)
    requires found.Some? ==> found.value in latest && found.value.digest == digest
    requires found.None? ==> forall item :: item in latest ==> item.digest != digest
    ensures digest in ApprovedDigests(items, latest) <==>
            found.Some? && found.value.decision.Eligible? && SameEntries(expected.tags, found.value.tags)
    ensures expected.decision.Eligible?
  {
    var a :| a in items && a.digest == digest && a.decision.Eligible?;
    OneItem(items, a, expected);
    if digest in ApprovedDigests(items, latest) {
      var c, b :| c in items && b in latest && c.digest == b.digest == digest && c.decision.Eligible?
                  && b.decision.Eligible? && SameEntries(c.tags, b.tags);
      OneItem(items, c, expected);
      OneItem(latest, b, found.value);
    }
  }

  /** One item: skipped unless it is still approved and still current, otherwise deleted with its plan. */
  method ExecuteItem(registry: Distribution, store: LifecycleStore, view: array<Manifest>, digest: Digest,
                     items: seq<Item>, latest: seq<Item>, now: int, ghost scope: Scope)
    returns (status: ItemStatus)
    requires registry.Valid() && SortedByDigest(items) && SortedByDigest(latest)
    requires EligibleIn(items, digest) && scope.approved == ApprovedDigests(items, latest)
    requires scope.certain == registry.NeverRefuses()
    requires RunInvariant(scope, view[..], registry.documents, registry.tags, registry.requested, registry.presentWhen)
    modifies registry, store`calls, store`tables, view
    ensures registry.Valid() && registry.tags == old(registry.tags)
    ensures RunInvariant(scope, view[..], registry.documents, registry.tags, registry.requested, registry.presentWhen)
    ensures old(registry.requested) <= registry.requested && Shrinks(old(registry.documents), registry.documents)
    ensures store.Reliable() && registry.KeepsReplies()
            && old(Recorded(view[..], store.tables, scope.before, registry.documents)) ==>
              Recorded(view[..], store.tables, scope.before, registry.documents)
    ensures InventoryStore.OnlyMarks(old(store.tables), store.tables, old(registry.documents).Keys - registry.documents.Keys)
    ensures status.ItemDeleted? ==>
              digest in scope.approved && digest in old(registry.documents) && digest !in registry.documents
    ensures status.ItemSkipped? ==>
              registry.requested == old(registry.requested) && registry.documents == old(registry.documents)
    ensures ItemFollows(scope.approved, registry.tags, latest, RunItem(digest, status),
                        old(Moment(registry.documents, view[..])), registry.Reliable(), store.Reliable())
    ensures TakenRowsGone(RunItem(digest, status), old(view[..]), store.tables)
    ensures status.ItemDeleted? ==>
              registry.documents ==
              old(registry.documents) - ({digest} + Elements(DeletionPlan.Plan(old(view[..]), digest)))
  {
    hide RunInvariant, Recorded, ApprovedDigests, Passable, IsCurrent, DeletionPlan.Plan, SortedByDigest, SameEntries,
         InventoryStore.OnlyMarks;
    InventoryStore.NothingMarked(store.tables);
    assert registry.documents.Keys - registry.documents.Keys == {};
    var expected := FindItem(items, digest);
    var currentItem := FindItem(latest, digest);
    ApprovalOf(items, latest, digest, expected.value, currentItem);
    if currentItem.None? || !currentItem.value.decision.Eligible?
       || !SameEntries(expected.value.tags, currentItem.value.tags) {
      return ItemSkipped;
    }
    var stillCurrent := RevalidateLifecycleCandidate(registry, digest, currentItem.value.tags);
    if !stillCurrent || !(exists i | 0 <= i < view.Length :: view[i].digest == digest) {
      assert stillCurrent ==> forall i :: 0 <= i < |view[..]| ==> view[..][i] == view[i];
      return ItemSkipped;
    }
    NoReferrers(registry.documents, registry.tags, digest, currentItem.value.tags);
    forall item | item in latest && item.digest == digest
      ensures item == currentItem.value
    {
      OneItem(latest, item, currentItem.value);
    }
    status := DeleteApproved(registry, store, view, digest, now, scope);
  }

  lemma NoReferrers(documents: map<Digest, Document>, tags: map<Tag, Digest>, digest: Digest, named: seq<Tag>)
    requires IsCurrent(documents, tags, digest, named)
    ensures forall r :: !Referrer(documents, digest, r)
  {
  }

  /** A deleted item is gone with its plan, and nothing that is gone comes back. */
  ghost predicate ItemTakes(item: RunItem, moment: Moment, documents: map<Digest, Document>) {
    && Shrinks(moment.documents, documents)
    && (item.status.ItemDeleted? ==>
          ({item.digest} + Elements(DeletionPlan.Plan(moment.view, item.digest))) !! documents.Keys)
  }

  /** What the items came to, given the registry and the view when each of them was reached. */
  ghost predicate ItemsFollow(scope: Scope, tags: map<Tag, Digest>, latest: seq<Item>, done: seq<RunItem>,
                              moments: seq<Moment>, documents: map<Digest, Document>, reliable: bool, written: bool) {
    && |moments| == |done|
    && (forall i :: 0 <= i < |done| ==>
                      && Shrinks(scope.before, moments[i].documents)
                      && Faithful(scope.current, moments[i].view, moments[i].documents)
                      && ItemFollows(scope.approved, tags, latest, done[i], moments[i], reliable, written)
                      && ItemTakes(done[i], moments[i], documents))
    && (forall i, j :: 0 <= i < j < |done| ==> ItemTakes(done[i], moments[i], moments[j].documents))
  }

  lemma ItemsFollowOn(scope: Scope, tags: map<Tag, Digest>, latest: seq<Item>, done: seq<RunItem>,
                      moments: seq<Moment>, item: RunItem, moment: Moment, after: map<Digest, Document>,
                      reliable: bool, written: bool)
    requires ItemsFollow(scope, tags, latest, done, moments, moment.documents, reliable, written)
    requires Shrinks(scope.before, moment.documents) && Faithful(scope.current, moment.view, moment.documents)
    requires ItemFollows(scope.approved, tags, latest, item, moment, reliable, written)
    requires ItemTakes(item, moment, after)
    ensures ItemsFollow(scope, tags, latest, done + [item], moments + [moment], after, reliable, written)
  {
    hide Faithful, ItemFollows, DeletionPlan.Plan;
    forall i | 0 <= i < |done|
      ensures ItemTakes(done[i], moments[i], after)
    {
      assert ItemTakes(done[i], moments[i], moment.documents);
    }
  }

  /** An item whose manifest an earlier deletion of the run took along is skipped. */
  lemma TakenAlongIsSkipped(scope: Scope, tags: map<Tag, Digest>, latest: seq<Item>, items: seq<Item>,
                            done: seq<RunItem>, moments: seq<Moment>, documents: map<Digest, Document>,
                            reliable: bool, written: bool, i: nat, j: nat)
    requires ItemsFollow(scope, tags, latest, done, moments, documents, reliable, written)
    requires scope.approved == ApprovedDigests(items, latest) && i < j < |done|
    requires done[i].status.ItemDeleted?
    requires done[j].digest == done[i].digest || done[j].digest in DeletionPlan.Plan(moments[i].view, done[i].digest)
    ensures done[j].status.ItemSkipped?
  {
    hide Faithful, Deletable, DeletionPlan.Plan, Shrinks;
    assert ItemTakes(done[i], moments[i], moments[j].documents);
    assert done[j].digest in {done[i].digest} + Elements(DeletionPlan.Plan(moments[i].view, done[i].digest));
    GoneIsSkipped(scope, tags, latest, items, done[j], moments[j], reliable, written);
  }

  /** Whatever is absent when its item is reached is skipped, whether or not requests fail. */
  lemma GoneIsSkipped(scope: Scope, tags: map<Tag, Digest>, latest: seq<Item>, items: seq<Item>, item: RunItem,
                      moment: Moment, reliable: bool, written: bool)
    requires ItemFollows(scope.approved, tags, latest, item, moment, reliable, written)
    requires scope.approved == ApprovedDigests(items, latest) && item.digest !in moment.documents
    ensures item.status.ItemSkipped?
  {
  }

  /** The three counters are those of the items done so far. */
  ghost predicate Counted(done: seq<RunItem>, deleted: nat, failed: nat, skipped: nat) {
    deleted == Count(done, ItemDeleted) && failed == Count(done, ItemFailed) && skipped == Count(done, ItemSkipped)
  }

  /** The items done are the digests in their order, and a deleted one was approved and is gone. */
  ghost predicate ItemsFit(scope: Scope, documents: map<Digest, Document>, digests: seq<Digest>, done: seq<RunItem>) {
    && |done| <= |digests|
    && (forall k :: 0 <= k < |done| ==> done[k].digest == digests[k])
    && (forall item :: item in done && item.status.ItemDeleted? ==>
                         item.digest in scope.approved && item.digest !in documents)
  }

  /** The loop over the items; `ok` is false when a write or an audit record failed and the run was abandoned. */
  method ExecuteItems(registry: Distribution, store: LifecycleStore, audit: AuditRecorder, view: array<Manifest>,
                      digests: seq<Digest>, items: seq<Item>, latest: seq<Item>, now: int, ghost scope: Scope)
    returns (done: seq<RunItem>, deleted: nat, failed: nat, skipped: nat, ok: bool, ghost moments: seq<Moment>)
    requires registry.Valid() && SortedByDigest(items) && SortedByDigest(latest)
    requires (forall d :: d in digests ==> EligibleIn(items, d)) && scope.approved == ApprovedDigests(items, latest)
    requires scope.certain == registry.NeverRefuses()
    requires RunInvariant(scope, view[..], registry.documents, registry.tags, registry.requested, registry.presentWhen)
    requires Recorded(view[..], store.tables, scope.before, registry.documents)
    modifies registry, store`calls, store`tables, store`items, view, audit
    ensures registry.Valid() && registry.tags == old(registry.tags)
    ensures RunInvariant(scope, view[..], registry.documents, registry.tags, registry.requested, registry.presentWhen)
    ensures old(registry.requested) <= registry.requested
    ensures store.Reliable() && registry.KeepsReplies() ==>
              Recorded(view[..], store.tables, scope.before, registry.documents)
    ensures registry.documents.Keys <= old(registry.documents).Keys
    ensures InventoryStore.OnlyMarks(old(store.tables), store.tables, old(registry.documents).Keys - registry.documents.Keys)
    ensures Counted(done, deleted, failed, skipped) && ItemsFit(scope, registry.documents, digests, done)
    ensures ok ==> |done| == |digests|
    ensures store.Reliable() && audit.Reliable() ==> ok
    ensures AllRowsGone(done, moments, store.tables)
    ensures ok ==> Journaled(done, old(store.items), store.items, old(audit.log), audit.log)
    ensures !ok ==> BrokenOff(done, old(store.items), store.items, old(audit.log), audit.log)
    ensures ItemsFollow(scope, registry.tags, latest, done, moments, registry.documents, registry.Reliable(),
                        store.Reliable())
    ensures moments != [] ==> moments[0] == Moment(old(registry.documents), old(view[..]))
  {
    hide RunInvariant, ApprovedDigests, Recorded, ItemFollows, ItemTakes, ItemsFollow, SortedByDigest, Faithful, Shrinks,
         ItemsFit, DeletionPlan.Plan, Counted, EligibleIn, InventoryStore.OnlyMarks, LifecycleStore.Reliable, AuditRecorder.Reliable,
         Distribution.Reliable, Distribution.KeepsReplies, TakenRowsGone, AllRowsGone, Journaled, BrokenOff, Addressed, Distinct;
    InventoryStore.NothingMarked(store.tables);
    assert registry.documents.Keys - registry.documents.Keys == {};
    ghost var tables, present, first := store.tables, registry.documents.Keys, Moment(registry.documents, view[..]);
    assert MarksFit(tables, tables, present, registry.documents);
    done, deleted, failed, skipped, ok, moments := [], 0, 0, 0, true, [];
    NoItems(scope, registry.tags, latest, registry.documents, digests, registry.Reliable(), store.Reliable());
    NothingJournaled(store.items, audit.log, store.tables);
    for i := 0 to |digests|
      invariant registry.Valid() && registry.tags == old(registry.tags)
      invariant RunInvariant(scope, view[..], registry.documents, registry.tags, registry.requested,
                             registry.presentWhen)
      invariant old(registry.requested) <= registry.requested
      invariant store.Reliable() && registry.KeepsReplies() ==>
                  Recorded(view[..], store.tables, scope.before, registry.documents)
      invariant MarksFit(tables, store.tables, present, registry.documents)
      invariant AllRowsGone(done, moments, store.tables)
      invariant Journaled(done, old(store.items), store.items, old(audit.log), audit.log)
      invariant |done| == i && Counted(done, deleted, failed, skipped)
      invariant ItemsFit(scope, registry.documents, digests, done)
      invariant ItemsFollow(scope, registry.tags, latest, done, moments, registry.documents, registry.Reliable(),
                            store.Reliable())
      invariant BeginsWith(moments, first, Moment(registry.documents, view[..]))
    {
      assert digests[i] in digests;
      ghost var moment := Moment(registry.documents, view[..]);
      MomentFits(scope, moment, registry.tags, registry.requested, registry.presentWhen);
      ghost var known := store.tables;
      var status := ExecuteItem(registry, store, view, digests[i], items, latest, now, scope);
      var item := RunItem(digests[i], status);
      ItemGoes(item, moment, registry.documents);
      MarksFitMore(tables, known, store.tables, present, moment.documents, registry.documents);
      CountedMore(done, deleted, failed, skipped, item);
      RowsStayGone(done, moments, item, moment, known, store.tables, moment.documents.Keys - registry.documents.Keys);
      ItemsFitMore(scope, moment.documents, registry.documents, digests, done, item);
      ItemsFollowOn(scope, registry.tags, latest, done, moments, item, moment, registry.documents, registry.Reliable(),
                    store.Reliable());
      JournaledMore(done, item, old(store.items), store.items, old(audit.log), audit.log);
      moments := moments + [moment];
      done := done + [item];
      match status {
        case ItemDeleted => deleted := deleted + 1;
        case ItemFailed => failed := failed + 1;
        case ItemSkipped => skipped := skipped + 1;
      }
      ok := RecordItem(store, audit, item);
      if !ok {
        return;
      }
    }
  }

  /** The first of these moments is the given one; before there is any, it is the present. */
  ghost predicate BeginsWith(moments: seq<Moment>, first: Moment, now: Moment) {
    first == if moments == [] then now else moments[0]
  }

  /** The tables have marks for nothing but what is gone. */
  ghost predicate MarksFit(before: InventoryStore.Tables, tables: InventoryStore.Tables, present: set<Digest>,
                           documents: map<Digest, Document>) {
    documents.Keys <= present && InventoryStore.OnlyMarks(before, tables, present - documents.Keys)
  }

  lemma MarksFitMore(before: InventoryStore.Tables, tables: InventoryStore.Tables, after: InventoryStore.Tables,
                     present: set<Digest>, middle: map<Digest, Document>, documents: map<Digest, Document>)
    requires MarksFit(before, tables, present, middle) && documents.Keys <= middle.Keys
    requires InventoryStore.OnlyMarks(tables, after, middle.Keys - documents.Keys)
    ensures MarksFit(before, after, present, documents)
  {
    hide InventoryStore.OnlyMarks;
    InventoryStore.OnlyMarksMore(before, tables, after, present - middle.Keys, middle.Keys - documents.Keys,
                                 present - documents.Keys);
  }

  function ItemActions(items: seq<RunItem>): seq<Action> {
    seq(|items|, i requires 0 <= i < |items| => ItemDone(items[i]))
  }

  /** Every item was written back and audited, in order. */
  ghost predicate Journaled(done: seq<RunItem>, itemsBefore: seq<RunItem>, items: seq<RunItem>, logBefore: seq<Action>,
                            log: seq<Action>) {
    items == itemsBefore + done && log == logBefore + ItemActions(done)
  }

  /** The last item could not be written back or audited, and those before it were. */
  ghost predicate BrokenOff(done: seq<RunItem>, itemsBefore: seq<RunItem>, items: seq<RunItem>, logBefore: seq<Action>,
                            log: seq<Action>) {
    && done != [] && log == logBefore + ItemActions(done[..|done| - 1])
    && (items == itemsBefore + done[..|done| - 1] || items == itemsBefore + done)
  }

  lemma JournaledMore(done: seq<RunItem>, item: RunItem, itemsBefore: seq<RunItem>, items: seq<RunItem>,
                      logBefore: seq<Action>, log: seq<Action>)
    requires Journaled(done, itemsBefore, items, logBefore, log)
    ensures Journaled(done + [item], itemsBefore, items + [item], logBefore, log + [ItemDone(item)])
    ensures BrokenOff(done + [item], itemsBefore, items, logBefore, log)
    ensures BrokenOff(done + [item], itemsBefore, items + [item], logBefore, log)
  {
    assert (done + [item])[..|done|] == done;
    assert ItemActions(done + [item]) == ItemActions(done) + [ItemDone(item)];
  }

  /** The rows of everything that deleted items took say so. */
  ghost predicate AllRowsGone(done: seq<RunItem>, moments: seq<Moment>, tables: InventoryStore.Tables) {
    |moments| == |done| && forall i :: 0 <= i < |done| ==> TakenRowsGone(done[i], moments[i].view, tables)
  }

  lemma RowsStayGone(done: seq<RunItem>, moments: seq<Moment>, item: RunItem, moment: Moment,
                     before: InventoryStore.Tables, after: InventoryStore.Tables, marked: set<Digest>)
    requires AllRowsGone(done, moments, before) && TakenRowsGone(item, moment.view, after)
    requires InventoryStore.OnlyMarks(before, after, marked)
    ensures AllRowsGone(done + [item], moments + [moment], after)
  {
    hide DeletionPlan.Plan, InventoryStore.RowGone;
    forall i | 0 <= i < |done|
      ensures TakenRowsGone(done[i], moments[i].view, after)
    {
      assert TakenRowsGone(done[i], moments[i].view, before);
    }
  }

  /** Writes back one item and its audit record; a failing write leaves the rest undone. */
  method RecordItem(store: LifecycleStore, audit: AuditRecorder, item: RunItem) returns (ok: bool)
    modifies store`calls, store`items, audit
    ensures ok <==> !store.faults(old(store.calls)) && !audit.faults(old(audit.calls))
    ensures ok ==> store.items == old(store.items) + [item] && audit.log == old(audit.log) + [ItemDone(item)]
    ensures !ok ==> audit.log == old(audit.log)
                    && (store.items == old(store.items) || store.items == old(store.items) + [item])
    ensures store.Reliable() && audit.Reliable() ==> ok
  {
    ok := store.UpdateLifecycleRunItem(item);
    if ok {
      ok := audit.Record(ItemDone(item));
    }
  }

  lemma CountedMore(done: seq<RunItem>, deleted: nat, failed: nat, skipped: nat, item: RunItem)
    requires Counted(done, deleted, failed, skipped)
    ensures Counted(done + [item], if item.status.ItemDeleted? then deleted + 1 else deleted,
                    if item.status.ItemFailed? then failed + 1 else failed,
                    if item.status.ItemSkipped? then skipped + 1 else skipped)
  {
    CountOneMore(done, item, ItemDeleted);
    CountOneMore(done, item, ItemFailed);
    CountOneMore(done, item, ItemSkipped);
  }

  lemma ItemGoes(item: RunItem, moment: Moment, after: map<Digest, Document>)
    requires Shrinks(moment.documents, after)
    requires item.status.ItemDeleted? ==>
               after == moment.documents - ({item.digest} + Elements(DeletionPlan.Plan(moment.view, item.digest)))
    ensures ItemTakes(item, moment, after) && after.Keys <= moment.documents.Keys
  {
    hide DeletionPlan.Plan;
  }

  lemma NoItems(scope: Scope, tags: map<Tag, Digest>, latest: seq<Item>, documents: map<Digest, Document>,
                digests: seq<Digest>, reliable: bool, written: bool)
    ensures ItemsFollow(scope, tags, latest, [], [], documents, reliable, written)
    ensures ItemsFit(scope, documents, digests, [])
    ensures Counted([], 0, 0, 0)
  {
  }

  lemma NothingJournaled(items: seq<RunItem>, log: seq<Action>, tables: InventoryStore.Tables)
    ensures AllRowsGone([], [], tables) && Journaled([], items, items, log, log)
  {
  }

  lemma ItemsFitMore(scope: Scope, before: map<Digest, Document>, after: map<Digest, Document>, digests: seq<Digest>,
                     done: seq<RunItem>, item: RunItem)
    requires ItemsFit(scope, before, digests, done) && after.Keys <= before.Keys
    requires |done| < |digests| && item.digest == digests[|done|]
    requires item.status.ItemDeleted? ==> item.digest in scope.approved && item.digest !in after
    ensures ItemsFit(scope, after, digests, done + [item])
  {
  }

  lemma MomentFits(scope: Scope, moment: Moment, tags: map<Tag, Digest>, requested: seq<Digest>,
                   presentWhen: seq<map<Digest, Document>>)
    requires RunInvariant(scope, moment.view, moment.documents, tags, requested, presentWhen)
    ensures Shrinks(scope.before, moment.documents) && Faithful(scope.current, moment.view, moment.documents)
  {
  }

  datatype Request = Request(reasonLength: nat, preview: Id, items: seq<Item>, overdue: bool, sameProject: bool,
                             run: Id, repository: Id, startedAt: int)

  datatype Outcome =
    | Rejected
    | Abandoned
    | Finished(status: RunStatus, items: seq<RunItem>, recorded: bool)

  /** Nothing of the run is left in progress. */
  ghost predicate WoundUp(db: Db, request: Request) {
    && request.run in db.runs && !db.runs[request.run].status.Running?
    && request.preview in db.previews && db.previews[request.preview].Executed?
    && !HoldsLockOf(db, request)
  }

  ghost predicate HoldsLockOf(db: Db, request: Request) {
    request.repository in db.locks && db.locks[request.repository].run == request.run
  }

  function EligibleCount(items: seq<Item>): nat {
    if items == [] then 0
    else EligibleCount(items[..|items| - 1]) + if items[|items| - 1].decision.Eligible? then 1 else 0
  }

  method EligibleDigests(items: seq<Item>) returns (digests: seq<Digest>)
    ensures forall d :: d in digests <==> EligibleIn(items, d)
    ensures SortedByDigest(items) ==> Distinct(digests)
    ensures |digests| == EligibleCount(items)
  {
    digests := [];
    for i := 0 to |items|
      invariant forall d :: d in digests <==> EligibleIn(items[..i], d)
      invariant SortedByDigest(items) ==> Distinct(digests)
      invariant |digests| == EligibleCount(items[..i])
    {
      assert items[..i + 1] == items[..i] + [items[i]];
      assert items[..i + 1][..i] == items[..i];
      if SortedByDigest(items) {
        forall d | d in digests
          ensures d < items[i].digest
        {
          var a :| a in items[..i] && a.digest == d;
        }
        assert forall k :: 0 <= k < |digests| ==> digests[k] in digests;
      }
      if items[i].decision.Eligible? {
        digests := digests + [items[i].digest];
      }
    }
    assert items[..|items|] == items;
  }

  /** What a finished run reports: every approved digest once, with counts that add up and decide the status. */
  ghost predicate Reports(outcome: Outcome, items: seq<Item>, approved: set<Digest>, documents: map<Digest, Document>)
    requires outcome.Finished?
  {
    && (forall i, j :: 0 <= i < j < |outcome.items| ==> outcome.items[i].digest != outcome.items[j].digest)
    && (forall d :: Reported(outcome.items, d) <==> EligibleIn(items, d))
    && Count(outcome.items, ItemDeleted) + Count(outcome.items, ItemFailed) + Count(outcome.items, ItemSkipped)
       == |outcome.items| == EligibleCount(items)
    && outcome.status == RunStatusOf(outcome.items)
    && (forall item :: item in outcome.items && item.status.ItemDeleted? ==>
                         item.digest in approved && item.digest !in documents)
  }

  predicate Admitted(db: Db, request: Request) {
    && 0 < request.reasonLength <= 500
    && request.preview in db.previews && db.previews[request.preview].Ready? && !request.overdue
    && request.sameProject && EligibleCount(request.items) > 0
  }

  /** What a request needs for its run to be created. */
  predicate MayStart(db: Db, request: Request) {
    && Admitted(db, request)
    && AcquireLock(db, request.repository, request.run, request.startedAt).Some? && request.run !in db.runs
  }

  /** The request finds its preview ready but overdue. */
  predicate ExpiresNow(db: Db, request: Request) {
    && 0 < request.reasonLength <= 500
    && request.preview in db.previews && db.previews[request.preview].Ready? && request.overdue
  }

  lemma LockedMayCreate(db: Db, request: Request)
    requires AcquireLock(db, request.repository, request.run, request.startedAt).Some?
    requires request.preview in db.previews && db.previews[request.preview].Ready?
    ensures var locked := AcquireLock(db, request.repository, request.run, request.startedAt).value;
            CreateRun(locked, request.run, request.preview, request.repository).Some? <==> request.run !in db.runs
  {
  }

  /** From its creation to its end an execution changes no other run or preview, and of its own run only the status. */
  ghost predicate OnlyThisRun(before: Db, after: Db, request: Request) {
    && after.runs.Keys == before.runs.Keys && after.previews.Keys == before.previews.Keys
    && (forall r :: r in before.runs && r != request.run ==> after.runs[r] == before.runs[r])
    && (forall p :: p in before.previews && p != request.preview ==> after.previews[p] == before.previews[p])
    && (request.run in before.runs ==>
          after.runs[request.run] == before.runs[request.run].(status := after.runs[request.run].status))
  }

  /** The tables once the lock is taken and the run is created. */
  ghost function Created(db: Db, request: Request): Db
    requires MayStart(db, request)
  {
    var locked := AcquireLock(db, request.repository, request.run, request.startedAt).value;
    LockedMayCreate(db, request);
    CreateRun(locked, request.run, request.preview, request.repository).value
  }

  /** A finished run has written back and audited its items, and its end if it could be recorded and audited. */
  ghost predicate FullyJournaled(outcome: Outcome, itemsBefore: seq<RunItem>, items: seq<RunItem>,
                                 logBefore: seq<Action>, log: seq<Action>, audited: bool)
    requires outcome.Finished?
  {
    var started := logBefore + [RunStarted] + ItemActions(outcome.items);
    var ended := started + [RunEnded(outcome.status.Failed?)];
    && items == itemsBefore + outcome.items
    && (log == started || (outcome.recorded && log == ended))
    && (outcome.recorded && audited ==> log == ended)
  }

  /** An abandoned run has written back and audited a beginning of its items at most, and has audited no end. */
  ghost predicate PartlyJournaled(itemsBefore: seq<RunItem>, items: seq<RunItem>, logBefore: seq<Action>,
                                  log: seq<Action>) {
    && itemsBefore <= items
    && (log == logBefore ||
        exists n: nat :: n <= |items| - |itemsBefore| <= n + 1 && AuditedUpTo(itemsBefore, items, logBefore, log, n))
  }

  ghost predicate AuditedUpTo(itemsBefore: seq<RunItem>, items: seq<RunItem>, logBefore: seq<Action>, log: seq<Action>,
                              n: nat)
    requires itemsBefore <= items && n <= |items| - |itemsBefore|
  {
    log == logBefore + [RunStarted] + ItemActions(items[|itemsBefore|..][..n])
  }

  lemma BrokenOffPartly(done: seq<RunItem>, itemsBefore: seq<RunItem>, items: seq<RunItem>, logBefore: seq<Action>,
                        log: seq<Action>)
    requires BrokenOff(done, itemsBefore, items, logBefore + [RunStarted], log)
    ensures PartlyJournaled(itemsBefore, items, logBefore, log)
  {
    var n := |done| - 1;
    assert items[|itemsBefore|..][..n] == done[..n];
    assert AuditedUpTo(itemsBefore, items, logBefore, log, n);
  }

  lemma IsCreated(db: Db, request: Request, created: Db)
    requires MayStart(db, request)
    requires var locked := AcquireLock(db, request.repository, request.run, request.startedAt).value;
             Some(created) == CreateRun(locked, request.run, request.preview, request.repository)
    ensures Created(db, request) == created
  {
    hide AcquireLock, CreateRun, Admitted;
  }

  lemma ReleasingKeeps(before: Db, db: Db, after: Db, request: Request)
    requires OnlyThisRun(before, db, request) && after == db.(locks := after.locks)
    ensures OnlyThisRun(before, after, request)
  {
  }

  lemma OtherLocksStay(db: Db, request: Request)
    requires AcquireLock(db, request.repository, request.run, request.startedAt).Some?
    ensures var locked := AcquireLock(db, request.repository, request.run, request.startedAt).value;
            forall r :: r != request.repository ==>
                          && (r in locked.locks <==> r in db.locks)
                          && (r in locked.locks ==> locked.locks[r] == db.locks[r])
  {
  }

  function RowsOf(reconciled: Result<seq<Manifest>>): seq<Manifest> {
    if reconciled.Ok? then reconciled.value else []
  }

  /** The checks before anything is locked: the digests to delete, or none when the request is refused. */
  method Admit(store: LifecycleStore, request: Request) returns (digests: seq<Digest>)
    requires SortedByDigest(request.items)
    modifies store`calls, store`db
    ensures digests == [] ==> old(!MayStart(store.db, request)) && store.db.locks == old(store.db.locks)
    ensures digests != [] ==>
              && Distinct(digests) && |digests| == EligibleCount(request.items)
              && (forall d :: d in digests <==> EligibleIn(request.items, d))
              && store.db == old(store.db) && Admitted(store.db, request)
    ensures store.Reliable() && old(ExpiresNow(store.db, request)) ==>
              digests == [] && store.db == SetPreview(old(store.db), request.preview, Expired)
  {
    digests := [];
    if request.reasonLength == 0 || request.reasonLength > 500 {
      return;
    }
    if request.preview !in store.db.previews {
      return;
    }
    if store.db.previews[request.preview].Ready? && request.overdue {
      var _ := store.SetLifecyclePreviewStatus(request.preview, Expired);
      return;
    }
    if !store.db.previews[request.preview].Ready? || !request.sameProject {
      return;
    }
    digests := EligibleDigests(request.items);
  }

  /**
   A whole execution. `reconciled` and `policies` are what reading the inventory and the
   repository again yields once the run exists; `final` is the local view at the end, and
   `moments` holds the registry and the view as each item found them.
   */
  method Execute(registry: Distribution, store: LifecycleStore, audit: AuditRecorder, request: Request,
                 reconciled: Result<seq<Manifest>>, policies: Result<seq<Policy>>, now: int, glob: Glob)
    returns (outcome: Outcome, started: bool, latest: seq<Item>, final: seq<Manifest>, ghost moments: seq<Moment>)
    requires registry.Valid() && SortedByDigest(request.items)
    requires reconciled.Ok? ==> UniqueDigests(reconciled.value)
    requires policies.Ok? ==> AllLimitsPresent(policies.value)
    modifies registry, store, audit
    ensures registry.Valid() && registry.tags == old(registry.tags)
    // What the fresh evaluation decides, when there is one.
    ensures latest == [] || (reconciled.Ok? && policies.Ok?
                             && IsEvaluation(policies.value, reconciled.value, now, glob, latest))
    ensures outcome.Finished? && EvaluationDue(reconciled, policies) ==>
              IsEvaluation(policies.value, reconciled.value, now, glob, latest)
    // What the registry keeps, whatever the outcome.
    ensures RunInvariant(Scope(RowsOf(reconciled), old(registry.documents), ApprovedDigests(request.items, latest),
                               |old(registry.requested)|, registry.NeverRefuses()),
                         final, registry.documents, registry.tags, registry.requested, registry.presentWhen)
    ensures old(registry.requested) <= registry.requested
    ensures !started ==> registry.requested == old(registry.requested) && registry.documents == old(registry.documents)
    ensures audit.faults(old(audit.calls)) ==> registry.requested == old(registry.requested)
    // What is recorded of what went.
    ensures store.Reliable() && registry.KeepsReplies() ==>
              Recorded(final, store.tables, old(registry.documents), registry.documents)
    ensures InventoryStore.OnlyMarks(old(store.tables), store.tables, old(registry.documents).Keys - registry.documents.Keys)
    // When a run is created.
    ensures started ==> old(MayStart(store.db, request))
    ensures store.Reliable() && old(MayStart(store.db, request)) ==> started
    ensures store.Reliable() && old(ExpiresNow(store.db, request)) ==>
              store.db == SetPreview(old(store.db), request.preview, Expired)
    // What the tables say once a run was created and no write fails.
    ensures started && store.Reliable() ==> WoundUp(store.db, request)
    ensures store.Reliable() && !old(HoldsLockOf(store.db, request)) ==> !HoldsLockOf(store.db, request)
    ensures outcome.Finished? && store.Reliable() ==>
              outcome.recorded && request.run in store.db.runs && store.db.runs[request.run].status == outcome.status
    // What a finished run reports, and when a run finishes.
    ensures outcome.Finished? ==> started
    ensures outcome.Finished? ==>
              Reports(outcome, request.items, ApprovedDigests(request.items, latest), registry.documents)
    ensures started && store.Reliable() && audit.Reliable() ==> outcome.Finished?
    ensures outcome.Finished? ==>
              ItemsFollow(Scope(RowsOf(reconciled), old(registry.documents), ApprovedDigests(request.items, latest),
                                |old(registry.requested)|, registry.NeverRefuses()),
                          registry.tags, latest, outcome.items, moments, registry.documents, registry.Reliable(),
                          store.Reliable())
    ensures moments != [] ==> moments[0] == Moment(old(registry.documents), RowsOf(reconciled))
    // Everything a finished run reports is written back, audited, and recorded in the inventory.
    ensures outcome.Rejected? <==> !started
    ensures outcome.Rejected? ==> store.items == old(store.items) && audit.log == old(audit.log)
    ensures outcome.Finished? ==>
              && AllRowsGone(outcome.items, moments, store.tables)
              && FullyJournaled(outcome, old(store.items), store.items, old(audit.log), audit.log, audit.Reliable())
    ensures outcome.Abandoned? ==>
              PartlyJournaled(old(store.items), store.items, old(audit.log), audit.log)
    // What else changes in the lifecycle tables.
    ensures started ==> OnlyThisRun(Created(old(store.db), request), store.db, request)
    ensures forall r :: r != request.repository ==>
                          && (r in store.db.locks <==> r in old(store.db.locks))
                          && (r in store.db.locks ==> store.db.locks[r] == old(store.db.locks)[r])
  {
    hide RunInvariant, Recorded, IsEvaluation, ApprovedDigests, ItemsFollow, Reports, EligibleCount, SortedByDigest,
         AllLimitsPresent, UniqueDigests, AcquireLock, EvaluationDue, InventoryStore.OnlyMarks, LifecycleStore.Reliable,
         AuditRecorder.Reliable, Distribution.Reliable, Distribution.KeepsReplies, Distribution.NeverRefuses, ExpiresNow,
         EligibleIn, Distinct, Admitted, CompleteRun, SetPreview, AllRowsGone, FullyJournaled, PartlyJournaled, OnlyThisRun, Created;
    EmptyIsSorted();
    outcome, started, latest, moments := Rejected, false, [], [];
    final := RowsOf(reconciled);
    NothingDone(final, registry.documents, registry.tags, ApprovedDigests(request.items, latest), registry.requested,
                registry.presentWhen, registry.NeverRefuses(), store.tables);
    var digests := Admit(store, request);
    if digests == [] {
      return;
    }
    if AcquireLock(store.db, request.repository, request.run, request.startedAt).Some? {
      LockedMayCreate(store.db, request);
      OtherLocksStay(store.db, request);
    }
    var locked := store.AcquireLifecycleLock(request.repository, request.run, request.startedAt);
    if !locked {
      return;
    }
    started := store.CreateLifecycleRunFromPreview(request.run, request.preview, request.repository);
    ghost var created := store.db;
    if started {
      IsCreated(old(store.db), request, created);
      outcome, latest, final, moments :=
        ExecuteStarted(registry, store, audit, request, digests, reconciled, policies, now, glob);
    }
    ghost var ended := store.db;
    var _ := store.ReleaseLifecycleLock(request.repository, request.run);
    if started {
      ReleasingKeeps(created, ended, store.db, request);
    }
  }

  lemma NothingDone(current: seq<Manifest>, documents: map<Digest, Document>, tags: map<Tag, Digest>,
                    approved: set<Digest>, requested: seq<Digest>, presentWhen: seq<map<Digest, Document>>,
                    certain: bool, tables: InventoryStore.Tables)
    requires UniqueDigests(current) && |presentWhen| == |requested|
    ensures RunInvariant(Scope(current, documents, approved, |requested|, certain), current, documents, tags, requested,
                         presentWhen)
    ensures Recorded(current, tables, documents, documents)
    ensures InventoryStore.OnlyMarks(tables, tables, documents.Keys - documents.Keys)
  {
  }

  /** Everything between the creation of the run and the release of the lock. */
  method ExecuteStarted(registry: Distribution, store: LifecycleStore, audit: AuditRecorder, request: Request,
                        digests: seq<Digest>, reconciled: Result<seq<Manifest>>, policies: Result<seq<Policy>>,
                        now: int, glob: Glob)
    returns (outcome: Outcome, latest: seq<Item>, final: seq<Manifest>, ghost moments: seq<Moment>)
    requires registry.Valid() && SortedByDigest(request.items)
    requires reconciled.Ok? ==> UniqueDigests(reconciled.value)
    requires policies.Ok? ==> AllLimitsPresent(policies.value)
    requires Distinct(digests) && |digests| == EligibleCount(request.items)
    requires forall d :: d in digests <==> EligibleIn(request.items, d)
    requires request.run in store.db.runs && request.preview in store.db.previews
    modifies registry, store`calls, store`db, store`tables, store`items, audit
    ensures registry.Valid() && registry.tags == old(registry.tags)
    ensures latest == [] || (reconciled.Ok? && policies.Ok?
                             && IsEvaluation(policies.value, reconciled.value, now, glob, latest))
    ensures outcome.Finished? && EvaluationDue(reconciled, policies) ==>
              IsEvaluation(policies.value, reconciled.value, now, glob, latest)
    ensures RunInvariant(Scope(RowsOf(reconciled), old(registry.documents), ApprovedDigests(request.items, latest),
                               |old(registry.requested)|, registry.NeverRefuses()),
                         final, registry.documents, registry.tags, registry.requested, registry.presentWhen)
    ensures old(registry.requested) <= registry.requested
    ensures audit.faults(old(audit.calls)) ==> registry.requested == old(registry.requested)
    ensures store.Reliable() && registry.KeepsReplies() ==>
              Recorded(final, store.tables, old(registry.documents), registry.documents)
    ensures InventoryStore.OnlyMarks(old(store.tables), store.tables, old(registry.documents).Keys - registry.documents.Keys)
    ensures store.Reliable() ==>
              && request.run in store.db.runs && !store.db.runs[request.run].status.Running?
              && request.preview in store.db.previews && store.db.previews[request.preview].Executed?
              && (outcome.Finished? ==> outcome.recorded && store.db.runs[request.run].status == outcome.status)
    ensures store.db.locks == old(store.db.locks) && OnlyThisRun(old(store.db), store.db, request)
    ensures !outcome.Rejected? && (store.Reliable() && audit.Reliable() ==> outcome.Finished?)
    ensures outcome.Finished? ==>
              Reports(outcome, request.items, ApprovedDigests(request.items, latest), registry.documents)
    ensures outcome.Finished? ==>
              ItemsFollow(Scope(RowsOf(reconciled), old(registry.documents), ApprovedDigests(request.items, latest),
                                |old(registry.requested)|, registry.NeverRefuses()),
                          registry.tags, latest, outcome.items, moments, registry.documents, registry.Reliable(),
                          store.Reliable())
    ensures moments != [] ==> moments[0] == Moment(old(registry.documents), RowsOf(reconciled))
    ensures outcome.Finished? ==>
              && AllRowsGone(outcome.items, moments, store.tables)
              && FullyJournaled(outcome, old(store.items), store.items, old(audit.log), audit.log, audit.Reliable())
    ensures outcome.Abandoned? ==>
              PartlyJournaled(old(store.items), store.items, old(audit.log), audit.log)
  {
    hide RunInvariant, IsEvaluation, Recorded, ApprovedDigests, ItemsFollow, Reports, Count, RunStatusOf, Counted,
         EligibleCount, ItemsFit, UniqueDigests, AllLimitsPresent, SortedByDigest, Distinct, EligibleIn, CompleteRun,
         SetPreview, LifecycleStore.Reliable, AuditRecorder.Reliable, EvaluationDue, InventoryStore.OnlyMarks, BrokenOff,
         AllRowsGone, Distribution.Reliable, Distribution.KeepsReplies, Distribution.NeverRefuses;
    latest, moments := [], [];
    final := RowsOf(reconciled);
    EmptyIsSorted();
    NothingDone(final, registry.documents, registry.tags, ApprovedDigests(request.items, latest), registry.requested,
                registry.presentWhen, registry.NeverRefuses(), store.tables);
    var recorded := audit.Record(RunStarted);
    if !recorded {
      FailUnaudited(store, request);
      return Abandoned, latest, final, moments;
    }
    latest := FreshDecisions(reconciled, policies, now, glob);
    ghost var scope := Scope(final, registry.documents, ApprovedDigests(request.items, latest),
                             |registry.requested|, registry.NeverRefuses());
    NothingDone(final, registry.documents, registry.tags, scope.approved, registry.requested, registry.presentWhen,
                registry.NeverRefuses(), store.tables);
    var view := new Manifest[|final|](i requires 0 <= i < |final| => final[i]);
    assert view[..] == final;
    var done, deleted, failed, skipped, ok;
    done, deleted, failed, skipped, ok, moments :=
      ExecuteItems(registry, store, audit, view, digests, request.items, latest, now, scope);
    final := view[..];
    if !ok {
      FailRun(store, request);
      BrokenOffPartly(done, old(store.items), store.items, old(audit.log), audit.log);
      return Abandoned, latest, final, moments;
    }
    outcome := Finish(store, audit, request, done, deleted, failed, skipped, digests, scope, registry.documents);
  }

  /** The end of a run whose items are all done. */
  method Finish(store: LifecycleStore, audit: AuditRecorder, request: Request, done: seq<RunItem>, deleted: nat,
                failed: nat, skipped: nat, digests: seq<Digest>, ghost scope: Scope,
                ghost documents: map<Digest, Document>)
    returns (outcome: Outcome)
    requires Counted(done, deleted, failed, skipped) && ItemsFit(scope, documents, digests, done)
    requires |done| == |digests| == EligibleCount(request.items) && Distinct(digests)
    requires forall d :: d in digests <==> EligibleIn(request.items, d)
    requires request.run in store.db.runs && request.preview in store.db.previews
    modifies store`calls, store`db, audit
    ensures outcome.Finished? && outcome.items == done
    ensures Reports(outcome, request.items, scope.approved, documents)
    ensures store.db.locks == old(store.db.locks) && OnlyThisRun(old(store.db), store.db, request)
    ensures request.run in store.db.runs && request.preview in store.db.previews
    ensures store.Reliable() ==>
              && outcome.recorded && store.db.runs[request.run].status == outcome.status
              && !outcome.status.Running? && store.db.previews[request.preview].Executed?
    ensures audit.log == old(audit.log)
            || (outcome.recorded && audit.log == old(audit.log) + [RunEnded(outcome.status.Failed?)])
    ensures outcome.recorded && audit.Reliable() ==> audit.log == old(audit.log) + [RunEnded(outcome.status.Failed?)]
  {
    hide Counted, ItemsFit, Reports, EligibleIn, Distinct, EligibleCount, LifecycleStore.Reliable;
    var status := Completed;
    if failed > 0 && deleted == 0 {
      status := Failed;
    } else if failed > 0 || skipped > 0 {
      status := PartiallyCompleted;
    }
    RunReports(status, done, deleted, failed, skipped, request.items, digests, scope, documents);
    var written := WindUp(store, request, status);
    outcome := Finished(status, done, written);
    if written {
      var _ := audit.Record(RunEnded(status.Failed?));
    }
  }

  lemma EmptyIsSorted()
    ensures SortedByDigest([]) && UniqueDigests([])
  {
  }

  /** A fresh evaluation has everything it needs. */
  ghost predicate EvaluationDue(reconciled: Result<seq<Manifest>>, policies: Result<seq<Policy>>) {
    reconciled.Ok? && policies.Ok? && exists p :: p in policies.value && IsRetention(p)
  }

  /** The decisions the run goes by: those of a fresh evaluation, or none when anything it needs is missing. */
  method FreshDecisions(reconciled: Result<seq<Manifest>>, policies: Result<seq<Policy>>, now: int, glob: Glob)
    returns (latest: seq<Item>)
    requires reconciled.Ok? ==> UniqueDigests(reconciled.value)
    requires policies.Ok? ==> AllLimitsPresent(policies.value)
    ensures SortedByDigest(latest)
    ensures latest == [] || (reconciled.Ok? && policies.Ok?
                             && IsEvaluation(policies.value, reconciled.value, now, glob, latest))
    ensures EvaluationDue(reconciled, policies) ==>
              IsEvaluation(policies.value, reconciled.value, now, glob, latest)
  {
    latest := [];
    if reconciled.Ok? && policies.Ok? {
      var evaluated := EvaluateLifecycle(policies.value, reconciled.value, now, glob);
      if evaluated.Ok? {
        latest := evaluated.value;
      }
    }
  }

  lemma RunReports(status: RunStatus, done: seq<RunItem>, deleted: nat, failed: nat, skipped: nat, items: seq<Item>,
                   digests: seq<Digest>, scope: Scope, documents: map<Digest, Document>)
    requires Counted(done, deleted, failed, skipped) && ItemsFit(scope, documents, digests, done)
    requires |done| == |digests| == EligibleCount(items) && Distinct(digests)
    requires forall d :: d in digests <==> EligibleIn(items, d)
    requires status == if failed > 0 && deleted == 0 then Failed
                       else if failed > 0 || skipped > 0 then PartiallyCompleted
                       else Completed
    ensures forall written :: Reports(Finished(status, done, written), items, scope.approved, documents)
  {
    hide EligibleIn;
    CountsAddUp(done);
    forall d | d in digests
      ensures Reported(done, d)
    {
      var i :| 0 <= i < |digests| && digests[i] == d;
      assert done[i] in done;
    }
  }

  /** Completes the run and consumes its preview, as far as the writes go through. */
  method WindUp(store: LifecycleStore, request: Request, status: RunStatus) returns (written: bool)
    requires request.run in store.db.runs && request.preview in store.db.previews
    modifies store`calls, store`db
    ensures store.db.locks == old(store.db.locks) && OnlyThisRun(old(store.db), store.db, request)
    ensures request.run in store.db.runs && request.preview in store.db.previews
    ensures written ==> store.db.runs[request.run].status == status && store.db.previews[request.preview].Executed?
    ensures store.Reliable() ==> written
  {
    written := store.CompleteLifecycleRun(request.run, status);
    if written {
      written := store.SetLifecyclePreviewStatus(request.preview, Executed);
    }
  }

  /**
   The failure path when the start could not be recorded: the preview is consumed even if the run
   cannot be completed.
   */
  method FailUnaudited(store: LifecycleStore, request: Request)
    requires request.run in store.db.runs && request.preview in store.db.previews
    modifies store`calls, store`db
    ensures store.db.locks == old(store.db.locks) && OnlyThisRun(old(store.db), store.db, request)
    ensures request.run in store.db.runs && request.preview in store.db.previews
    ensures store.Reliable() ==>
              store.db.runs[request.run].status.Failed? && store.db.previews[request.preview].Executed?
  {
    var _ := store.CompleteLifecycleRun(request.run, Failed);
    var _ := store.SetLifecyclePreviewStatus(request.preview, Executed);
  }

  /** The failure path. */
  method FailRun(store: LifecycleStore, request: Request)
    requires request.run in store.db.runs && request.preview in store.db.previews
    modifies store`calls, store`db
    ensures store.db.locks == old(store.db.locks) && OnlyThisRun(old(store.db), store.db, request)
    ensures request.run in store.db.runs && request.preview in store.db.previews
    ensures store.Reliable() ==>
              store.db.runs[request.run].status.Failed? && store.db.previews[request.preview].Executed?
  {
    var _ := WindUp(store, request, Failed);
  }

  // ----- consequences for a whole run

  /**
   Keep-last-k survives the run: for every enabled keep-last policy the min(k, matching) rows it
   keeps are never requested for deletion, and those that were present still are.
   */
  lemma LatestSurvive(policies: seq<Policy>, policy: Policy, current: seq<Manifest>, now: int, glob: Glob,
                      items: seq<Item>, latest: seq<Item>, view: seq<Manifest>, before: map<Digest, Document>,
                      documents: map<Digest, Document>, tags: map<Tag, Digest>, requested: seq<Digest>,
                      presentWhen: seq<map<Digest, Document>>, from: nat, certain: bool, j: nat)
    requires UniqueDigests(current) && AllLimitsPresent(policies)
    requires latest == [] || IsEvaluation(policies, current, now, glob, latest)
    requires RunInvariant(Scope(current, before, ApprovedDigests(items, latest), from, certain), view, documents, tags,
                          requested, presentWhen)
    requires policy in policies && IsRetention(policy) && KeepLastOn(policy)
    requires j in LatestRows(policy, current, glob)
    ensures forall k :: from <= k < |requested| ==> requested[k] != current[j].digest
    ensures current[j].digest in before ==> current[j].digest in documents
    ensures |LatestRows(policy, current, glob)| ==
            (if policy.keepLast.value < |MatchingPositions(policy, current, glob)|
             then policy.keepLast.value else |MatchingPositions(policy, current, glob)|)
  {
    var approved := ApprovedDigests(items, latest);
    KeepsLatest(policies, policy, current, now, glob);
    LatestIsTagged(policy, current, glob, j);
    hide LatestRows, MatchingPositions, Decide, RunSafe, Faithful, Permitted, UniqueDigests;
    LatestIsNotApproved(policies, current, now, glob, items, latest, j);
    hide ApprovedDigests, IsEvaluation;
    forall k | from <= k < |requested|
      ensures requested[k] != current[j].digest
    {
      assert Permitted(current, approved, presentWhen[k], requested[k]);
      TaggedRowsAreNotPermitted(current, approved, presentWhen[k], current[j]);
    }
    assert current[j].digest !in Elements(requested[from..]);
    assert current[j].digest !in before.Keys - documents.Keys;
  }

  lemma LatestIsTagged(policy: Policy, current: seq<Manifest>, glob: Glob, j: nat)
    requires LimitsPresent(policy) && j in LatestRows(policy, current, glob)
    ensures current[j].tags != []
  {
  }

  lemma LatestIsNotApproved(policies: seq<Policy>, current: seq<Manifest>, now: int, glob: Glob,
                            items: seq<Item>, latest: seq<Item>, j: nat)
    requires UniqueDigests(current) && AllLimitsPresent(policies) && j < |current|
    requires latest == [] || IsEvaluation(policies, current, now, glob, latest)
    requires !Decide(policies, current, now, glob, j).Eligible?
    ensures current[j].digest !in ApprovedDigests(items, latest)
  {
    hide Decide;
  }

  /** Some present manifest lists a present, approved digest. */
  ghost predicate ListsApproved(documents: map<Digest, Document>, approved: set<Digest>, p: Digest) {
    p in documents && exists d :: d in approved && d in documents && d in References(documents[p])
  }

  /**
   Reference closure over a whole run: what an index misses afterwards was approved. If nothing lists
   an approved digest to begin with, all indexes stay complete, however the run ends; if each lister
   is approved itself, they do when everything approved goes.
   */
  lemma OnlyApprovedAreMissed(current: seq<Manifest>, before: map<Digest, Document>, after: map<Digest, Document>,
                              tags: map<Tag, Digest>, approved: set<Digest>)
    requires RunSafe(current, before, after, tags, approved) && Covers(current, before) && Closed(before)
    ensures forall p, c :: p in after && c in References(after[p]) && c !in after ==> c in approved
    ensures (forall p :: !ListsApproved(before, approved, p)) ==> Closed(after)
    ensures approved !! after.Keys && (forall p :: ListsApproved(before, approved, p) ==> p in approved) ==>
              Closed(after)
  {
    hide References, KeepsTaggedTrees;
    forall p, c | p in after && c in References(after[p]) && c !in after
      ensures c in approved && ListsApproved(before, approved, p)
    {
      assert after[p] == before[p];
    }
  }

  /** A tagged index that was not approved survives the run, and is incomplete as soon as an entry of it is gone. */
  lemma RetainedListerIsIncomplete(scope: Scope, view: seq<Manifest>, documents: map<Digest, Document>,
                                   tags: map<Tag, Digest>, requested: seq<Digest>,
                                   presentWhen: seq<map<Digest, Document>>, manifest: Manifest)
    requires RunInvariant(scope, view, documents, tags, requested, presentWhen) && UniqueDigests(scope.current)
    requires manifest in scope.current && manifest.tags != [] && manifest.digest !in scope.approved
    requires manifest.digest in scope.before
    ensures manifest.digest in documents
    ensures forall d :: d in References(scope.before[manifest.digest]) && d !in documents ==> !Closed(documents)
  {
    hide References, RunSafe, UniqueDigests, Faithful, Permitted, Traced;
    TaggedRowsAreNotRequested(scope, view, documents, tags, requested, presentWhen, manifest);
    ShrinksAt(scope, documents, tags, manifest.digest);
  }

  lemma ShrinksAt(scope: Scope, documents: map<Digest, Document>, tags: map<Tag, Digest>, digest: Digest)
    requires RunSafe(scope.current, scope.before, documents, tags, scope.approved) && digest in documents
    ensures digest in scope.before && documents[digest] == scope.before[digest]
  {
  }

  lemma TaggedRowsAreNotRequested(scope: Scope, view: seq<Manifest>, documents: map<Digest, Document>,
                                  tags: map<Tag, Digest>, requested: seq<Digest>,
                                  presentWhen: seq<map<Digest, Document>>, manifest: Manifest)
    requires RunInvariant(scope, view, documents, tags, requested, presentWhen) && UniqueDigests(scope.current)
    requires manifest in scope.current && manifest.tags != [] && manifest.digest !in scope.approved
    ensures manifest.digest !in requested[scope.from..]
    ensures manifest.digest in scope.before ==> manifest.digest in documents
  {
    hide RunSafe, UniqueDigests, Faithful, Permitted, Traced;
    forall k | scope.from <= k < |requested|
      ensures requested[k] != manifest.digest
    {
      TaggedRowsAreNotPermitted(scope.current, scope.approved, presentWhen[k], manifest);
      assert Permitted(scope.current, scope.approved, presentWhen[k], requested[k]);
    }
    assert manifest.digest !in Elements(requested[scope.from..]);
  }

  /**
   Exactly when a run that deletes everything approved leaves all indexes complete, provided that no
   untagged index lists something approved: if and only if no index outside the approval does.
   */
  lemma ClosedAfterRunExactly(scope: Scope, view: seq<Manifest>, documents: map<Digest, Document>,
                              tags: map<Tag, Digest>, requested: seq<Digest>,
                              presentWhen: seq<map<Digest, Document>>)
    requires RunInvariant(scope, view, documents, tags, requested, presentWhen) && UniqueDigests(scope.current)
    requires Covers(scope.current, scope.before) && Closed(scope.before) && scope.approved !! documents.Keys
    requires forall p :: ListsApproved(scope.before, scope.approved, p) && p !in scope.approved ==>
                           exists m :: m in scope.current && m.digest == p && m.tags != []
    ensures Closed(documents) <==> forall p :: ListsApproved(scope.before, scope.approved, p) ==> p in scope.approved
  {
    OnlyApprovedAreMissed(scope.current, scope.before, documents, tags, scope.approved);
    hide Closed, Covers, References, RunSafe, UniqueDigests, Faithful, Permitted, Traced;
    forall p | ListsApproved(scope.before, scope.approved, p) && p !in scope.approved
      ensures !Closed(documents)
    {
      var m :| m in scope.current && m.digest == p && m.tags != [];
      RetainedListerIsIncomplete(scope, view, documents, tags, requested, presentWhen, m);
    }
  }

  const SevenDayGrace: Policy :=
    Policy(Retention, true, [], [], false, false, false, false, None, None, None, None, Some(7), None)

  function RetainedIndex(now: int): Manifest {
    Manifest(1, [2], [1], NoDigest, Active, now, None, None)
  }

  function UntaggedChild(now: int): Manifest {
    Manifest(2, [2], [], NoDigest, Untagged, now - 30 * Day, None, Some(now - 30 * Day))
  }

  /**
   The evaluator does not look at the entries of other manifests: the untagged child of a live,
   tagged and retained index becomes eligible as soon as its grace period is over.
   */
  lemma ChildOfRetainedIndexIsEligible(glob: Glob, now: int)
    ensures var inventory := [RetainedIndex(now), UntaggedChild(now)];
            && ValidatePolicy(SevenDayGrace, (pattern: Pattern) => true)
            && UniqueDigests(inventory)
            && AllLimitsPresent([SevenDayGrace])
            && Decide([SevenDayGrace], inventory, now, glob, 0).Retained?
            && Decide([SevenDayGrace], inventory, now, glob, 1).Eligible?
            && UntaggedChild(now).digest in RetainedIndex(now).platforms
            && DeletionPlan.HasExternalManifestReference(2, {2}, inventory)
  {
    var policy, index, child := SevenDayGrace, RetainedIndex(now), UntaggedChild(now);
    var inventory := [index, child];
    assert policy in [policy];
    assert inventory[1] == child && inventory[0] == index;
    assert Selects(policy, inventory, now, glob, 1);
    assert !Keeps(policy, inventory, now, glob, 1);
    assert index in inventory;
  }

  /** The registry of that example: a tagged index and its only entry. */
  predicate IndexAndChild(documents: map<Digest, Document>, tags: map<Tag, Digest>) {
    && documents.Keys == {1, 2} && tags == map[1 := 1]
    && DeletionTree.Lists(documents[1], 1, [2]) && DeletionTree.Lists(documents[2], 2, [])
  }

  lemma IndexIsComplete(documents: map<Digest, Document>, tags: map<Tag, Digest>)
    requires IndexAndChild(documents, tags)
    ensures Closed(documents) && References(documents[1]) == {2} && forall r :: !Referrer(documents, 2, r)
  {
    assert documents[1].manifests[0].digest == 2;
    assert |documents[1].manifests| == 1;
  }

  lemma ChildHasNoPlan(now: int)
    ensures DeletionPlan.Plan([RetainedIndex(now), UntaggedChild(now)], 2) == []
  {
    var rows := [RetainedIndex(now), UntaggedChild(now)];
    assert rows[..1] == [rows[0]] && rows[..0] == [];
    assert Find(rows, 2) == Some(UntaggedChild(now));
    assert DeletionPlan.AppendNew([2], 2, []) == [2];
    assert [2][..0] == [];
    assert DeletionPlan.AppendNew([2], 2, [2]) == [2];
    assert DeletionPlan.BfsFrom(rows, 2, [2], 1) == [2];
    assert DeletionPlan.BfsOrder(rows, 2) == [2];
  }

  /** The child is approved, and the run can delete it when it comes to it. */
  lemma ChildIsDeletable(documents: map<Digest, Document>, tags: map<Tag, Digest>, now: int, glob: Glob,
                         items: seq<Item>, latest: seq<Item>)
    requires IndexAndChild(documents, tags) && items == [Item(1, [1], Retained), Item(2, [], Eligible)]
    requires AllLimitsPresent([SevenDayGrace])
    requires IsEvaluation([SevenDayGrace], [RetainedIndex(now), UntaggedChild(now)], now, glob, latest)
    ensures ApprovedDigests(items, latest) == {2}
    ensures Deletable(Moment(documents, [RetainedIndex(now), UntaggedChild(now)]), tags, latest, 2)
  {
    var rows := [RetainedIndex(now), UntaggedChild(now)];
    ChildOfRetainedIndexIsEligible(glob, now);
    IndexIsComplete(documents, tags);
    ChildHasNoPlan(now);
    hide Decide, UniqueDigests, ValidatePolicy, References, DeletionPlan.Plan, DeletionPlan.HasExternalManifestReference,
         AllLimitsPresent;
    assert rows[1].digest == 2;
    assert ItemFor([SevenDayGrace], rows, now, glob, 1) == Item(2, [], Eligible);
    assert Item(2, [], Eligible) in latest && items[1] in items;
    NoEntries();
    forall item | item in latest && item.digest == 2
      ensures item.tags == []
    {
      OneItem(latest, item, Item(2, [], Eligible));
    }
    assert Passable(rows, documents, tags, 2, []);
  }

  lemma ItemsAreSorted(items: seq<Item>)
    requires items == [Item(1, [1], Retained), Item(2, [], Eligible)]
    ensures SortedByDigest(items)
  {
  }

  lemma NoEntries()
    ensures SameEntries<Tag>([], [])
  {
  }

  lemma OneItemReported(items: seq<Item>, outcome: Outcome, approved: set<Digest>, documents: map<Digest, Document>)
    requires items == [Item(1, [1], Retained), Item(2, [], Eligible)]
    requires outcome.Finished? && Reports(outcome, items, approved, documents)
    ensures |outcome.items| == 1 && outcome.items[0].digest == 2
    ensures outcome.items[0].status.ItemDeleted? ==> 2 !in documents && outcome.status == Completed
  {
    assert items[..1] == [items[0]] && items[..1][..0] == [];
    assert EligibleCount(items[..0]) == 0 && EligibleCount(items[..1]) == 0 && EligibleCount(items) == 1;
    assert Reported(outcome.items, outcome.items[0].digest);
    assert outcome.items[..0] == [];
    assert outcome.items[0] in outcome.items;
  }

  /** What the run of the example comes to. */
  lemma IndexLosesItsEntry(items: seq<Item>, outcome: Outcome, latest: seq<Item>, moments: seq<Moment>, scope: Scope,
                           view: seq<Manifest>, documents: map<Digest, Document>, tags: map<Tag, Digest>,
                           requested: seq<Digest>, presentWhen: seq<map<Digest, Document>>, now: int, glob: Glob)
    requires IndexAndChild(scope.before, tags) && items == [Item(1, [1], Retained), Item(2, [], Eligible)]
    requires AllLimitsPresent([SevenDayGrace])
    requires IsEvaluation([SevenDayGrace], [RetainedIndex(now), UntaggedChild(now)], now, glob, latest)
    requires scope.current == [RetainedIndex(now), UntaggedChild(now)]
    requires scope.approved == ApprovedDigests(items, latest)
    requires outcome.Finished? && Reports(outcome, items, scope.approved, documents)
    requires ItemsFollow(scope, tags, latest, outcome.items, moments, documents, true, true)
    requires moments != [] ==> moments[0] == Moment(scope.before, scope.current)
    requires RunInvariant(scope, view, documents, tags, requested, presentWhen)
    ensures outcome.status == Completed && outcome.items == [RunItem(2, ItemDeleted)]
    ensures documents == scope.before - {2} && !Closed(documents)
  {
    ChildIsDeletable(scope.before, tags, now, glob, items, latest);
    OneItemReported(items, outcome, scope.approved, documents);
    hide IsEvaluation, Reports, RunInvariant, ApprovedDigests, AllLimitsPresent, Closed, IndexAndChild;
    ReadyItemIsDeleted(scope, tags, latest, outcome.items, moments, documents);
    IndexStays(scope, view, documents, tags, requested, presentWhen);
  }

  lemma ReadyItemIsDeleted(scope: Scope, tags: map<Tag, Digest>, latest: seq<Item>, done: seq<RunItem>,
                           moments: seq<Moment>, documents: map<Digest, Document>)
    requires ItemsFollow(scope, tags, latest, done, moments, documents, true, true) && |done| == 1
    requires done[0].digest in scope.approved && Deletable(moments[0], tags, latest, done[0].digest)
    ensures done[0].status.ItemDeleted?
  {
    hide Ready, Passable, Faithful, ItemTakes, DeletionPlan.Plan;
  }

  lemma IndexStays(scope: Scope, view: seq<Manifest>, documents: map<Digest, Document>, tags: map<Tag, Digest>,
                   requested: seq<Digest>, presentWhen: seq<map<Digest, Document>>)
    requires IndexAndChild(scope.before, tags) && scope.approved == {2} && 2 !in documents
    requires RunInvariant(scope, view, documents, tags, requested, presentWhen)
    ensures documents == scope.before - {2} && !Closed(documents)
  {
    IndexIsComplete(scope.before, tags);
    hide AllPermitted, Traced, Accounted, UniqueDigests, KeepsTaggedTrees, Covers, Faithful, DeletionTree.Lists;
    assert 1 in tags && tags[1] == 1 && 1 in documents;
    assert documents[1] == scope.before[1];
    assert 2 in References(documents[1]);
    assert documents.Keys == {1};
  }

  /**
   A whole run over that registry, with a request that lists the child as eligible: nothing fails, the
   child is deleted, and the tagged index that was retained is left without its entry.
   */
  method DeleteChildOfRetainedIndex(registry: Distribution, store: LifecycleStore, audit: AuditRecorder,
                                    request: Request, now: int, glob: Glob)
    returns (outcome: Outcome)
    requires registry.Valid() && registry.Reliable() && store.Reliable() && audit.Reliable()
    requires IndexAndChild(registry.documents, registry.tags) && MayStart(store.db, request)
    requires request.items == [Item(1, [1], Retained), Item(2, [], Eligible)]
    modifies registry, store, audit
    ensures outcome == Finished(Completed, [RunItem(2, ItemDeleted)], true)
    ensures registry.documents == old(registry.documents) - {2}
    ensures Closed(old(registry.documents)) && !Closed(registry.documents)
  {
    ghost var before, tags := registry.documents, registry.tags;
    var rows := [RetainedIndex(now), UntaggedChild(now)];
    ChildOfRetainedIndexIsEligible(glob, now);
    IndexIsComplete(before, tags);
    ghost var from := |registry.requested|;
    var policies := [SevenDayGrace];
    assert SevenDayGrace in policies && IsRetention(SevenDayGrace);
    assert EvaluationDue(Ok(rows), Ok(policies));
    hide EvaluationDue, IsRetention, HoldsLockOf, RetainedIndex, UntaggedChild, AcquireLock, SetPreview, RunInvariant, IsEvaluation, ItemsFollow, Reports, UniqueDigests, AllLimitsPresent, IndexAndChild, Closed, Decide,
         ValidatePolicy, Recorded, InventoryStore.OnlyMarks, MayStart, ExpiresNow, WoundUp, ApprovedDigests,
         Distribution.Reliable, LifecycleStore.Reliable, AuditRecorder.Reliable, Distribution.NeverRefuses,
         AllRowsGone, FullyJournaled, PartlyJournaled, OnlyThisRun, Created;
    ItemsAreSorted(request.items);
    var started, latest, final;
    ghost var moments;
    outcome, started, latest, final, moments :=
      Execute(registry, store, audit, request, Ok(rows), Ok(policies), now, glob);
    ghost var scope := Scope(rows, before, ApprovedDigests(request.items, latest), from, registry.NeverRefuses());
    IndexLosesItsEntry(request.items, outcome, latest, moments, scope, final, registry.documents, tags,
                       registry.requested, registry.presentWhen, now, glob);
  }
}
