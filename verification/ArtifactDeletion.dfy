/**
 Deleting one artifact on request: the deletion a person reviewed has to be the deletion a
 fresh preview finds, and then the same engine as in a lifecycle run carries it out.
 */
module ArtifactDeletion {
  import opened Foundation
  import opened ManifestGraph
  import opened Registry
  import opened Inventory
  import opened Policies
  import opened InventoryStore
  import DeletionPlan
  import opened DeletionTree

  datatype Status = Running | Completed | Failed

  /** The deletion records and the inventory tables; any write may fail, and then changes nothing. */
  class DeletionStore {
    const faults: nat -> bool
    var calls: nat
    var status: Option<Status>
    var tables: Tables
    /** Every row that was asked to be marked, in order, and whether the write went through. */
    ghost var marks: seq<Mark>

    ghost predicate Reliable() {
      forall n :: !faults(n)
    }

    method Attempt() returns (ok: bool)
      modifies this`calls
      ensures ok == !faults(old(calls)) && calls == old(calls) + 1
      ensures Reliable() ==> ok
    {
      ok := !faults(calls);
      calls := calls + 1;
    }

    method CreateArtifactDeletion() returns (ok: bool)
      modifies this`calls, this`status
      ensures status == if ok then Some(Running) else old(status)
      ensures ok == !faults(old(calls))
      ensures Reliable() ==> ok
    {
      ok := Attempt();
      if ok {
        status := Some(Running);
      }
    }

    method CompleteArtifactDeletion(to: Status) returns (ok: bool)
      requires status.Some?
      modifies this`calls, this`status
      ensures status == if ok then Some(to) else old(status)
      ensures ok == !faults(old(calls))
      ensures Reliable() ==> ok
    {
      ok := Attempt();
      if ok {
        status := Some(to);
      }
    }

    method MarkManifestDeleted(digest: Digest, now: int) returns (ok: bool)
      modifies this`calls, this`tables, this`marks
      ensures tables == if ok then MarkDeleted(old(tables), digest, now) else old(tables)
      ensures marks == old(marks) + [Mark(digest, ok)]
      ensures ok == !faults(old(calls))
      ensures Reliable() ==> ok
    {
      ok := Attempt();
      marks := marks + [Mark(digest, ok)];
      if ok {
        tables := MarkDeleted(tables, digest, now);
      }
    }

    /** Marks the rows of what was deleted; a failing write either stops this or is ignored. */
    method MarkAll(deleted: seq<Digest>, stopOnError: bool, now: int) returns (ok: bool)
      modifies this`calls, this`tables, this`marks
      ensures Reliable() ==> ok
      ensures old(marks) <= marks && Follows(marks[|old(marks)|..], deleted, stopOnError)
      ensures ok <==> AllWritten(marks[|old(marks)|..])
      ensures forall m :: m in marks[|old(marks)|..] && m.written ==> RowGone(tables, m.digest)
      ensures ok ==> forall d :: d in deleted ==> RowGone(tables, d)
      ensures OnlyMarks(old(tables), tables, Elements(deleted))
    {
      hide MarkDeleted, RowGone, Reliable;
      ok := true;
      ghost var log: seq<Mark> := [];
      for i := 0 to |deleted|
        invariant Reliable() ==> ok
        invariant marks == old(marks) + log && (stopOnError ==> ok)
        invariant |log| == i && (ok <==> AllWritten(log)) && forall j :: 0 <= j < i ==> log[j].digest == deleted[j]
        invariant forall m :: m in log && m.written ==> RowGone(tables, m.digest)
        invariant OnlyMarks(old(tables), tables, Elements(deleted))
      {
        assert deleted[i] in deleted;
        MarkDeletedMarks(tables, deleted[i], now);
        var marked := MarkManifestDeleted(deleted[i], now);
        log := log + [Mark(deleted[i], marked)];
        assert marks[|old(marks)|..] == log;
        if !marked {
          ok := false;
          assert !log[i].written;
          if stopOnError {
            return;
          }
        }
      }
      assert marks[|old(marks)|..] == log;
      forall d | ok && d in deleted
        ensures RowGone(tables, d)
      {
        var i :| 0 <= i < |deleted| && deleted[i] == d;
        assert log[i] in log;
      }
    }
  }

  datatype Mark = Mark(digest: Digest, written: bool)

  ghost predicate AllWritten(log: seq<Mark>) {
    forall m :: m in log ==> m.written
  }

  /** The writes are for what was deleted, in this order: for all of it, or up to the first one that fails. */
  ghost predicate Follows(log: seq<Mark>, deleted: seq<Digest>, stopOnError: bool) {
    && |log| <= |deleted|
    && (forall i :: 0 <= i < |log| ==> log[i].digest == deleted[i])
    && (stopOnError ==> forall i :: 0 <= i < |log| - 1 ==> log[i].written)
    && (|log| < |deleted| ==> stopOnError && log != [] && !log[|log| - 1].written)
  }

  ghost predicate Asked(log: seq<Mark>, digest: Digest) {
    exists m :: m in log && m.digest == digest
  }

  /**
   What is asked of the tables once a deletion ended: only rows of what is gone are to be marked, and each
   write that goes through marks its row. After a deletion that did not take everything, every row of what is
   gone is tried; after a complete one, the rows up to the first write that fails.
   */
  ghost predicate MarksWhatWent(log: seq<Mark>, gone: set<Digest>, complete: bool, tables: Tables) {
    && (forall m :: m in log ==> m.digest in gone && (m.written ==> RowGone(tables, m.digest)))
    && (!complete ==> forall d :: d in gone ==> Asked(log, d))
    && (complete ==> forall i :: 0 <= i < |log| - 1 ==> log[i].written)
    && (complete && AllWritten(log) ==> forall d :: d in gone ==> Asked(log, d))
  }

  lemma NothingAsked(target: Digest, children: seq<Digest>, tables: Tables)
    ensures MarksWhatWent([], {}, false, tables) && {} != {target} + Elements(children)
  {
    assert target in {target} + Elements(children);
  }

  lemma FollowingMarks(log: seq<Mark>, deleted: seq<Digest>, gone: set<Digest>, complete: bool, tables: Tables)
    requires Follows(log, deleted, complete) && Elements(deleted) == gone
    requires forall m :: m in log && m.written ==> RowGone(tables, m.digest)
    ensures MarksWhatWent(log, gone, complete, tables)
  {
    hide RowGone;
    forall m | m in log
      ensures m.digest in gone
    {
      var i :| 0 <= i < |log| && log[i] == m;
      assert deleted[i] in deleted;
    }
    if |log| == |deleted| {
      forall d | d in gone
        ensures Asked(log, d)
      {
        var i :| 0 <= i < |deleted| && deleted[i] == d;
        assert log[i] in log;
      }
    } else {
      assert log[|log| - 1] in log;
    }
  }

  /** A beginning of a list without repetitions is all of it exactly when it has the same elements. */
  lemma WholePrefix(deleted: seq<Digest>, all: seq<Digest>)
    requires deleted <= all && Distinct(all)
    ensures deleted == all <==> Elements(deleted) == Elements(all)
  {
    if deleted != all {
      assert all[|deleted|] in Elements(all);
      forall i | 0 <= i < |deleted|
        ensures deleted[i] != all[|deleted|]
      {
        assert deleted[i] == all[i];
      }
    }
  }

  lemma MarksFollow(log: seq<Mark>, deleted: seq<Digest>, target: Digest, children: seq<Digest>, gone: set<Digest>,
                    tables: Tables)
    requires deleted <= [target] + children && Distinct(children) && target !in children
    requires Follows(log, deleted, deleted == [target] + children) && Elements(deleted) == gone
    requires forall m :: m in log && m.written ==> RowGone(tables, m.digest)
    ensures MarksWhatWent(log, gone, gone == {target} + Elements(children), tables)
  {
    hide RowGone, Follows, MarksWhatWent;
    assert Elements([target] + children) == {target} + Elements(children);
    WholePrefix(deleted, [target] + children);
    FollowingMarks(log, deleted, gone, deleted == [target] + children, tables);
  }

  // ----- the preview

  datatype Preview = Preview(digest: Digest, affectedTags: seq<Tag>, blocked: bool, childDigests: seq<Digest>)

  /** The tags a deletion takes away. */
  ghost predicate NamesExactly(documents: map<Digest, Document>, tags: map<Tag, Digest>, digest: Digest,
                               affected: seq<Tag>) {
    forall t :: t in affected <==> t in tags && tags[t] == digest && digest in documents
  }

  /** A policy protects one of the tags from deletion. */
  ghost predicate IsProtected(policies: seq<Policy>, affected: seq<Tag>, glob: Glob) {
    exists p, t :: p in policies && t in affected && Forbids(p, t, glob)
  }

  /** Some tag of the digest may not be deleted. */
  ghost predicate Guarded(settings: Settings, tags: map<Tag, Digest>, digest: Digest) {
    exists p, t :: p in settings.policies && t in tags && tags[t] == digest && Forbids(p, t, settings.glob)
  }

  /** A reason is asked for and missing. */
  ghost predicate LacksReason(settings: Settings, request: Request) {
    request.blankReason && exists p :: p in settings.policies && AsksForReason(p)
  }

  /** Whether a preview can be made at all. */
  ghost predicate CanPreview(settings: Settings, request: Request, documents: map<Digest, Document>,
                             tags: map<Tag, Digest>) {
    && var root := Resolve(documents, tags, request.reference);
    && root.Some? && CanFetch(documents, tags, root.value) && !Guarded(settings, tags, root.value)
    && !LacksReason(settings, request)
  }

  /** What a preview promises about the registry it was made on. */
  ghost predicate Describes(preview: Preview, inventory: seq<Manifest>, documents: map<Digest, Document>,
                            tags: map<Tag, Digest>,
                            reference: Reference) {
    && Resolve(documents, tags, reference) == Some(preview.digest)
    && NamesExactly(documents, tags, preview.digest, preview.affectedTags)
    && preview.childDigests == DeletionPlan.Plan(inventory, preview.digest)
    && (preview.blocked <==> documents[preview.digest].subject != NoDigest || exists r :: Referrer(documents, preview.digest, r))
  }

  datatype Request = Request(
    reference: Reference, blankReason: bool, expectedDigest: Digest, expectedTags: seq<Tag>, expectedChildDigests: seq<Digest>)

  datatype Settings = Settings(policies: seq<Policy>, glob: Glob)

  method AffectedTags(registry: Distribution, digest: Digest) returns (result: Result<seq<Tag>>)
    modifies registry`calls
    ensures result.Ok? ==> Distinct(result.value) && NamesExactly(registry.documents, registry.tags, digest, result.value)
    ensures registry.Reliable() ==> result.Ok?
  {
    var tags := registry.ListRepositoryTags();
    if tags.Err? {
      return Err;
    }
    var affected: seq<Tag> := [];
    for i := 0 to |tags.value|
      invariant Distinct(affected)
      invariant forall t :: t in affected <==> t in tags.value[..i] && registry.tags[t] == digest
    {
      assert tags.value[i] in tags.value;
      var resolved := registry.ResolveManifest(ByTag(tags.value[i]));
      if resolved.Err? {
        return Err;
      }
      if resolved.value == Some(digest) {
        affected := affected + [tags.value[i]];
      }
    }
    assert tags.value[..|tags.value|] == tags.value;
    return Ok(affected);
  }

  method MakePreview(registry: Distribution, settings: Settings, request: Request, reconciled: Result<seq<Manifest>>)
    returns (result: Result<Preview>)
    requires registry.Valid()
    modifies registry`calls
    ensures result.Ok? ==>
              && reconciled.Ok?
              && Describes(result.value, reconciled.value, registry.documents, registry.tags, request.reference)
              && !IsProtected(settings.policies, result.value.affectedTags, settings.glob)
              && !LacksReason(settings, request)
              && Distinct(result.value.affectedTags)
              && !Guarded(settings, registry.tags, result.value.digest)
    ensures registry.Reliable() ==>
              (result.Ok? <==> reconciled.Ok? && CanPreview(settings, request, registry.documents, registry.tags))
  {
    if reconciled.Err? {
      return Err;
    }
    var resolved := registry.ResolveManifest(request.reference);
    if resolved.Err? || resolved.value.None? {
      return Err;
    }
    var digest := resolved.value.value;
    var affected := AffectedTags(registry, digest);
    if affected.Err? {
      return Err;
    }
    var allowed := EvaluateDeletion(settings.policies, affected.value, request.blankReason, settings.glob);
    if !allowed {
      return Err;
    }
    var metadata := registry.FetchManifest(ByDigest(digest));
    if metadata.Err? {
      return Err;
    }
    var referrers := registry.ListReferrers(digest);
    if referrers.Err? {
      return Err;
    }
    if |referrers.value| > 0 {
      assert Referrer(registry.documents, digest, referrers.value[0]);
    }
    var blocked := metadata.value.subject != NoDigest || |referrers.value| > 0;
    var children := DeletionPlan.DeletionChildDigests(digest, reconciled.value);
    return Ok(Preview(digest, affected.value, blocked, children));
  }

  // ----- the deletion

  /** The deletion that was reviewed is the one a fresh preview of this registry finds. */
  ghost predicate Reviewed(request: Request, settings: Settings, inventory: seq<Manifest>,
                           documents: map<Digest, Document>,
                           tags: map<Tag, Digest>) {
    && request.expectedDigest != NoDigest
    && Resolve(documents, tags, request.reference) == Some(request.expectedDigest)
    && NamesExactly(documents, tags, request.expectedDigest, request.expectedTags)
    && SameEntries(request.expectedChildDigests, DeletionPlan.Plan(inventory, request.expectedDigest))
    && documents[request.expectedDigest].subject == NoDigest
    && (forall r :: !Referrer(documents, request.expectedDigest, r))
    && !IsProtected(settings.policies, request.expectedTags, settings.glob)
  }

  /** The comparisons `Execute` makes with a fresh preview decide whether the deletion was reviewed. */
  lemma ReviewMatches(preview: Preview, request: Request, settings: Settings, inventory: seq<Manifest>,
                      documents: map<Digest, Document>, tags: map<Tag, Digest>)
    requires Describes(preview, inventory, documents, tags, request.reference)
    requires !IsProtected(settings.policies, preview.affectedTags, settings.glob)
    ensures Matches(preview, request) ==> Reviewed(request, settings, inventory, documents, tags)
    ensures Matches(preview, request) && Distinct(preview.affectedTags) ==> Distinct(request.expectedTags)
    ensures Distinct(request.expectedTags) && Distinct(preview.affectedTags) ==>
              Reviewed(request, settings, inventory, documents, tags) ==> Matches(preview, request)
  {
    assert forall t :: t in request.expectedTags <==> t in Elements(request.expectedTags);
    assert forall t :: t in preview.affectedTags <==> t in Elements(preview.affectedTags);
    if Matches(preview, request) {
      SameElements(request.expectedTags, preview.affectedTags);
      if Distinct(preview.affectedTags) {
        DistinctOfSameEntries(request.expectedTags, preview.affectedTags);
      }
    }
    if Reviewed(request, settings, inventory, documents, tags)
       && Distinct(request.expectedTags) && Distinct(preview.affectedTags) {
      DistinctSameEntries(request.expectedTags, preview.affectedTags);
    }
  }

  /** A fresh preview shows what was reviewed, and nothing stands in the way. */
  ghost predicate Matches(preview: Preview, request: Request) {
    && request.expectedDigest != NoDigest && request.expectedDigest == preview.digest
    && SameEntries(request.expectedTags, preview.affectedTags)
    && SameEntries(request.expectedChildDigests, preview.childDigests)
    && !preview.blocked
  }

  /** What a deletion on request leaves as it was, however it ended. */
  ghost predicate OnlyReviewed(request: Request, before: map<Digest, Document>, after: map<Digest, Document>,
                               tags: map<Tag, Digest>) {
    && Shrinks(before, after)
    && before.Keys - after.Keys <= {request.expectedDigest} + Elements(request.expectedChildDigests)
    && (forall t :: t in tags && tags[t] in before && t !in request.expectedTags ==> tags[t] in after)
    && (forall p :: p in after && after[p].subject in before ==> after[p].subject in after)
    && KeepsTaggedTrees(before, after, tags, {request.expectedDigest})
  }

  lemma ReviewedIsKept(request: Request, settings: Settings, inventory: seq<Manifest>, current: seq<Manifest>,
                       before: map<Digest, Document>, after: map<Digest, Document>, tags: map<Tag, Digest>)
    requires Reviewed(request, settings, inventory, before, tags)
    requires Safe(current, before, after, tags, request.expectedDigest, DeletionPlan.Plan(inventory, request.expectedDigest))
    ensures OnlyReviewed(request, before, after, tags)
  {
    SameElements(request.expectedChildDigests, DeletionPlan.Plan(inventory, request.expectedDigest));
    hide DeletionPlan.Plan, Covers, IsProtected, KeepsReferences, KeepsTaggedTrees;
    forall t | t in tags && tags[t] in before && t !in request.expectedTags
      ensures tags[t] in after
    {
      assert tags[t] != request.expectedDigest;
    }
    forall p | p in after && after[p].subject in before
      ensures after[p].subject in after
    {
      assert before[p] == after[p];
      assert !Referrer(before, request.expectedDigest, p);
    }
  }

  /**
   Executes a reviewed deletion. `reconciled` is the inventory the fresh preview reconciles,
   `listed` the rows read again afterwards.
   */
  method Execute(registry: Distribution, store: DeletionStore, settings: Settings, request: Request,
                 reconciled: Result<seq<Manifest>>, listed: Result<seq<Manifest>>, audited: bool, completedAt: int)
    returns (ok: bool, created: bool)
    requires registry.Valid()
    modifies registry, store
    ensures registry.Valid() && registry.tags == old(registry.tags)
    // Nothing is requested unless it was reviewed, and nothing beyond what was reviewed.
    ensures registry.requested != old(registry.requested) ==>
              && reconciled.Ok?
              && Reviewed(request, settings, reconciled.value, old(registry.documents), registry.tags)
              && !LacksReason(settings, request)
    // Nothing happens to an artifact one of whose tags is protected.
    ensures (exists t :: t in registry.tags && Guarded(settings, registry.tags, registry.tags[t])
                         && Resolve(old(registry.documents), registry.tags, request.reference) == Some(registry.tags[t])) ==>
              !ok && !created && registry.requested == old(registry.requested)
              && registry.documents == old(registry.documents) && store.status == old(store.status)
              && store.tables == old(store.tables)
    ensures OnlyReviewed(request, old(registry.documents), registry.documents, registry.tags) ||
            registry.documents == old(registry.documents)
    // Reference closure, as far as the engine gives it.
    ensures listed.Ok? && Covers(listed.value, old(registry.documents)) ==>
              KeepsReferences(old(registry.documents), registry.documents, request.expectedDigest)
    // Success takes away everything that was reviewed, and all rows know it.
    ensures ok ==>
              && created
              && registry.documents ==
                 old(registry.documents) - ({request.expectedDigest} + Elements(request.expectedChildDigests))
              && forall d :: d in {request.expectedDigest} + Elements(request.expectedChildDigests) ==>
                               RowGone(store.tables, d)
    // Only rows of what is gone are marked, and all of them when the writes go through and no reply is lost.
    ensures OnlyMarks(old(store.tables), store.tables, old(registry.documents).Keys - registry.documents.Keys)
    ensures store.Reliable() && registry.KeepsReplies() ==>
              forall d :: d in old(registry.documents) && d !in registry.documents ==> RowGone(store.tables, d)
    // The record ends in the state the caller is told, when the writes go through.
    ensures created && store.Reliable() ==> store.status == Some(if ok then Completed else Failed)
    // What was asked of the tables: everything after an incomplete deletion, up to a failing write after a
    // complete one.
    ensures old(store.marks) <= store.marks
    ensures registry.KeepsReplies() ==>
              var gone := old(registry.documents).Keys - registry.documents.Keys;
              MarksWhatWent(store.marks[|old(store.marks)|..], gone,
                            gone == {request.expectedDigest} + Elements(request.expectedChildDigests), store.tables)
    // Without failing requests and writes, it goes through exactly when it was reviewed, can still be previewed,
    // and every review along the way passes.
    ensures registry.Reliable() && store.Reliable() && reconciled.Ok? && listed.Ok? ==>
              (ok <==>
               && audited && Distinct(request.expectedTags)
               && CanPreview(settings, request, old(registry.documents), registry.tags)
               && Reviewed(request, settings, reconciled.value, old(registry.documents), registry.tags)
               && Passable(listed.value, old(registry.documents), registry.tags, request.expectedDigest,
                           DeletionPlan.Plan(reconciled.value, request.expectedDigest)))
    ensures ok ==> reconciled.Ok? && listed.Ok?
    ensures !created ==> store.status == old(store.status)
    ensures !created || !audited ==> registry.requested == old(registry.requested) && !ok
  {
    hide Safe, Covers, KeepsReferences, Reviewed, OnlyReviewed, DeletionPlan.Plan, IsProtected, InOrder, Passable, Accounted,
         RowGone, OnlyMarks, Traced, Stopped, GetsTo, Requests, Cleared, Distribution.Reliable, Distribution.KeepsReplies,
         DeletionStore.Reliable, KeepsTaggedTrees, CanPreview, Describes, MarksWhatWent, Follows, AllWritten;
    NothingMarked(store.tables);
    NothingAsked(request.expectedDigest, request.expectedChildDigests, store.tables);
    assert store.marks[|store.marks|..] == [];
    assert registry.documents.Keys - registry.documents.Keys == {};
    ok, created := false, false;
    NothingLost(registry.documents, request.expectedDigest);
    var preview := MakePreview(registry, settings, request, reconciled);
    if preview.Err? {
      return;
    }
    ReviewMatches(preview.value, request, settings, reconciled.value, registry.documents, registry.tags);
    if request.expectedDigest == NoDigest || request.expectedDigest != preview.value.digest {
      return;
    }
    if !SameEntries(request.expectedTags, preview.value.affectedTags) {
      return;
    }
    if !SameEntries(request.expectedChildDigests, preview.value.childDigests) {
      return;
    }
    if preview.value.blocked || listed.Err? {
      return;
    }
    created := store.CreateArtifactDeletion();
    if !created {
      return;
    }
    if !audited {
      var _ := store.CompleteArtifactDeletion(Failed);
      return;
    }
    ghost var before := registry.documents;
    var deleted, done := DeleteManifestTree(registry, preview.value.digest, preview.value.childDigests, listed.value);
    ReviewedIsKept(request, settings, reconciled.value, listed.value, before, registry.documents, registry.tags);
    SafeKeepsReferences(listed.value, before, registry.documents, registry.tags, request.expectedDigest,
                        preview.value.childDigests);
    SameElements(request.expectedChildDigests, preview.value.childDigests);
    NothingMarked(store.tables);
    DeletionPlan.PlanIsGreatest(reconciled.value, preview.value.digest);
    ghost var tables, gone := store.tables, before.Keys - registry.documents.Keys;
    if !done {
      var _ := store.MarkAll(deleted, false, completedAt);
      if registry.KeepsReplies() {
        MarksFollow(store.marks[|old(store.marks)|..], deleted, preview.value.digest, preview.value.childDigests, gone,
                    store.tables);
      }
      OnlyMarksMore(tables, tables, store.tables, {}, Elements(deleted), gone);
      var _ := store.CompleteArtifactDeletion(Failed);
      return;
    }
    assert Elements(deleted) == {request.expectedDigest} + Elements(request.expectedChildDigests);
    var marked := store.MarkAll(deleted, true, completedAt);
    MarksFollow(store.marks[|old(store.marks)|..], deleted, preview.value.digest, preview.value.childDigests, gone,
                store.tables);
    OnlyMarksMore(tables, tables, store.tables, {}, Elements(deleted), gone);
    if !marked {
      var _ := store.CompleteArtifactDeletion(Failed);
      return;
    }
    ok := store.CompleteArtifactDeletion(Completed);
  }

  /** Such a policy has no say in a deletion by hand. */
  ghost predicate Harmless(policy: Policy) {
    || !policy.enabled
    || (policy.kind == TagProtection && !policy.preventDeletion)
    || (policy.kind == ManualDeletion && !policy.requireReason)
    || (policy.kind != TagProtection && policy.kind != ManualDeletion)
  }

  /** Adding it changes neither which previews can be made nor which deletions count as reviewed. */
  lemma HarmlessPolicyChangesNothing(settings: Settings, policy: Policy, request: Request, inventory: seq<Manifest>,
                                     documents: map<Digest, Document>, tags: map<Tag, Digest>)
    requires Harmless(policy)
    ensures var more := settings.(policies := settings.policies + [policy]);
            && (CanPreview(more, request, documents, tags) <==> CanPreview(settings, request, documents, tags))
            && (Reviewed(request, more, inventory, documents, tags) <==>
                Reviewed(request, settings, inventory, documents, tags))
  {
    hide CanFetch, DeletionPlan.Plan, NamesExactly;
    var more := settings.policies + [policy];
    assert forall p :: p in more <==> p in settings.policies || p == policy;
    assert forall t :: !Forbids(policy, t, settings.glob);
    assert !AsksForReason(policy);
  }

  lemma NothingLost(documents: map<Digest, Document>, target: Digest)
    ensures KeepsReferences(documents, documents, target)
  {
  }

  lemma SafeKeepsReferences(inventory: seq<Manifest>, before: map<Digest, Document>, after: map<Digest, Document>,
                            tags: map<Tag, Digest>, target: Digest, children: seq<Digest>)
    requires Safe(inventory, before, after, tags, target, children)
    ensures Covers(inventory, before) ==> KeepsReferences(before, after, target)
  {
  }

  /**
   No review looks at the entries of other manifests: after a successful deletion every index
   has all its entries if and only if none listed the deleted artifact.
   */
  lemma ClosureAfterDeletion(inventory: seq<Manifest>, before: map<Digest, Document>, after: map<Digest, Document>,
                             target: Digest, rank: Digest -> nat)
    requires Closed(before) && Acyclic(inventory, before, rank) && target in before
    requires after == before - ({target} + Elements(DeletionPlan.Plan(inventory, target)))
    requires KeepsReferences(before, after, target)
    ensures Closed(after) <==> !Referenced(before, target)
  {
    if Closed(after) && Referenced(before, target) {
      var p :| p in before && p != target && target in References(before[p]);
      if p !in after {
        ChildrenDoNotReferBack(inventory, before, rank, target, p);
      }
    }
  }
}
