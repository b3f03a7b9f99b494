/**
 Deleting a manifest and its planned children (`deleteManifestTree`): the target goes first,
 and every child is checked again against live tags, live indexes and referrers right before
 it goes.
 */
module DeletionTree {
  import opened Foundation
  import opened ManifestGraph
  import opened Registry
  import opened Inventory
  import DeletionPlan

  // ----- what a run of the engine may and may not change

  /** A live row that lists everything the present manifest refers to. */
  ghost predicate RowFor(manifest: Manifest, digest: Digest, document: Document) {
    manifest.digest == digest && Live(manifest) && References(document) <= Elements(manifest.platforms)
  }

  /** Every present manifest has such a row. */
  ghost predicate Covers(inventory: seq<Manifest>, documents: map<Digest, Document>) {
    forall d :: d in documents ==> exists m :: m in inventory && RowFor(m, d, documents[d])
  }

  ghost predicate Shrinks(before: map<Digest, Document>, after: map<Digest, Document>) {
    forall d :: d in after ==> d in before && after[d] == before[d]
  }

  /** The target goes first, and nothing but the target and the planned children goes at all. */
  ghost predicate TargetFirst(before: map<Digest, Document>, after: map<Digest, Document>, target: Digest,
                              children: seq<Digest>) {
    && Shrinks(before, after)
    && before.Keys - after.Keys <= {target} + Elements(children)
    && (before.Keys != after.Keys ==> target !in after)
  }

  /** Tags that do not name the target resolve as before. */
  ghost predicate KeepsTags(before: map<Digest, Document>, after: map<Digest, Document>, tags: map<Tag, Digest>,
                            target: Digest) {
    forall t :: t in tags && tags[t] in before && tags[t] != target ==> tags[t] in after
  }

  /** No surviving index loses an entry other than the target. */
  ghost predicate KeepsReferences(before: map<Digest, Document>, after: map<Digest, Document>, target: Digest) {
    forall p, c :: p in after && c in References(after[p]) && c in before && c != target ==> c in after
  }

  /** No child that goes is a referrer, and no surviving referrer loses a subject other than the target. */
  ghost predicate KeepsSubjects(before: map<Digest, Document>, after: map<Digest, Document>, target: Digest) {
    && (forall c :: c in before && c !in after && c != target ==> before[c].subject == NoDigest)
    && (forall p :: p in after && after[p].subject in before && after[p].subject != target ==> after[p].subject in after)
  }

  // ----- when an index reaches a child

  /** Some node of the tree is one of the digests. */
  predicate MentionsAny(tree: Metadata, digests: set<Digest>)
    decreases tree
  {
    tree.digest in digests || exists i | 0 <= i < |tree.children| :: MentionsAny(tree.children[i], digests)
  }

  /** Whatever a tag leads to without meeting the target is left whole. */
  ghost predicate KeepsTaggedTrees(before: map<Digest, Document>, after: map<Digest, Document>, tags: map<Tag, Digest>,
                                   gone: set<Digest>) {
    forall t, tree :: t in tags && IsUnfolding(GraphOf(before, tags), ByDigest(tags[t]), tree)
                      && !MentionsAny(tree, gone) ==>
                        IsUnfolding(GraphOf(after, tags), ByDigest(tags[t]), tree)
  }

  /** A tree that survives the removal of digests it does not mention. */
  lemma {:induction false} TreeSurvives(documents: map<Digest, Document>, tags: map<Tag, Digest>, root: Digest,
                                        tree: Metadata, gone: set<Digest>)
    requires Addressed(documents)
    requires IsUnfolding(GraphOf(documents, tags), ByDigest(root), tree) && !MentionsAny(tree, gone)
    ensures IsUnfolding(GraphOf(documents - gone, tags), ByDigest(root), tree)
    decreases tree
  {
    var document := documents[root];
    assert document.digest == root && tree.digest == root;
    forall i | 0 <= i < |tree.children|
      ensures IsUnfolding(GraphOf(documents - gone, tags), ByDigest(document.manifests[i].digest), tree.children[i])
    {
      TreeSurvives(documents, tags, document.manifests[i].digest, tree.children[i], gone);
    }
  }

  function MetadataReferencesAnyChild(metadata: Metadata, children: set<Digest>): bool
    decreases metadata
  {
    || (exists i | 0 <= i < |metadata.platforms| ::
          metadata.platforms[i].digest != metadata.digest && metadata.platforms[i].digest in children)
    || (exists i | 0 <= i < |metadata.children| :: MetadataReferencesAnyChild(metadata.children[i], children))
  }

  /** The search for a child finds every mention below the root. */
  lemma {:induction false} SearchIsComplete(documents: map<Digest, Document>, tags: map<Tag, Digest>, root: Digest,
                                            tree: Metadata, children: set<Digest>)
    requires Addressed(documents) && root !in children
    requires IsUnfolding(GraphOf(documents, tags), ByDigest(root), tree) && !MetadataReferencesAnyChild(tree, children)
    ensures !MentionsAny(tree, children)
    decreases tree
  {
    var document := documents[root];
    assert document.digest == root && tree.digest == root;
    forall i | 0 <= i < |tree.children|
      ensures !MentionsAny(tree.children[i], children)
    {
      assert tree.platforms[i].digest == document.manifests[i].digest;
      SearchIsComplete(documents, tags, document.manifests[i].digest, tree.children[i], children);
    }
  }

  /** A direct entry of an index shows up in its fetched metadata. */
  lemma DirectReferenceFound(documents: map<Digest, Document>, tags: map<Tag, Digest>, root: Digest,
                             metadata: Metadata, children: set<Digest>)
    requires root in documents && documents[root].digest == root && root !in children
    requires IsUnfolding(GraphOf(documents, tags), ByDigest(root), metadata)
    requires References(documents[root]) * children != {}
    ensures MetadataReferencesAnyChild(metadata, children)
  {
    var i :| 0 <= i < |documents[root].manifests| && documents[root].manifests[i].digest in children;
    assert metadata.platforms[i].digest == documents[root].manifests[i].digest;
  }

  method ResolveLiveTagDigests(registry: Distribution) returns (result: Result<map<Tag, Digest>>)
    modifies registry`calls
    ensures result.Ok? ==>
              forall t :: t in result.value <==> t in registry.tags && registry.tags[t] in registry.documents
    ensures result.Ok? ==> forall t :: t in result.value ==> result.value[t] == registry.tags[t]
    ensures registry.Reliable() ==> result.Ok?
  {
    var listed := registry.ListRepositoryTags();
    if listed.Err? {
      return Err;
    }
    var resolved: map<Tag, Digest> := map[];
    for i := 0 to |listed.value|
      invariant forall t :: t in resolved <==> t in listed.value[..i]
      invariant forall t :: t in resolved ==> t in registry.tags && resolved[t] == registry.tags[t]
    {
      var tag := listed.value[i];
      var digest := registry.ResolveManifest(ByTag(tag));
      if digest.Err? {
        return Err;
      }
      if digest.value.Some? {
        resolved := resolved[tag := digest.value.value];
      }
    }
    assert listed.value[..|listed.value|] == listed.value;
    return Ok(resolved);
  }

  // ----- revalidation

  /** What a passed revalidation says about the children. */
  ghost predicate Cleared(inventory: seq<Manifest>, documents: map<Digest, Document>, tags: map<Tag, Digest>,
                          target: Digest, children: set<Digest>) {
    && NoTagAt(documents, tags, children)
    && NoTagLeadsTo(documents, tags, target, children)
    && NoSubjectsOrReferrers(documents, children)
    && forall p, m :: p in documents && p != target && p !in children && m in inventory && RowFor(m, p, documents[p]) ==>
                        References(documents[p]) * children == {}
  }

  ghost predicate NoTagAt(documents: map<Digest, Document>, tags: map<Tag, Digest>, children: set<Digest>) {
    forall t :: t in tags && tags[t] in documents ==> tags[t] !in children
  }

  /** No live tag, other than those at the target, leads to one of the children at any depth. */
  ghost predicate NoTagLeadsTo(documents: map<Digest, Document>, tags: map<Tag, Digest>, target: Digest,
                               children: set<Digest>) {
    forall t :: t in tags && tags[t] in documents && tags[t] != target ==> NothingLeadsTo(documents, tags, tags[t], children)
  }

  ghost predicate NoSubjectsOrReferrers(documents: map<Digest, Document>, children: set<Digest>) {
    forall c :: c in children ==>
                  c in documents && documents[c].subject == NoDigest && forall r :: !Referrer(documents, c, r)
  }

  /** A present manifest that a review reads because it has a live tag, or because its row lists a child. */
  ghost predicate Consulted(inventory: seq<Manifest>, documents: map<Digest, Document>, tags: map<Tag, Digest>,
                            target: Digest, children: set<Digest>, digest: Digest) {
    && digest in documents && digest != target
    && ((exists t :: t in tags && tags[t] == digest) || RowRoot(inventory, target, children, digest))
  }

  ghost predicate RowRoot(inventory: seq<Manifest>, target: Digest, children: set<Digest>, digest: Digest) {
    exists m :: m in inventory && m.digest == digest && IsExternalRoot(m, target, children)
  }

  /** The manifest can be read, and no child lies below it. */
  ghost predicate RootPasses(documents: map<Digest, Document>, tags: map<Tag, Digest>, children: set<Digest>,
                             root: Digest) {
    CanFetch(documents, tags, root) && NothingLeadsTo(documents, tags, root, children)
  }

  ghost predicate ChildrenPass(documents: map<Digest, Document>, tags: map<Tag, Digest>, children: set<Digest>) {
    NoSubjectsOrReferrers(documents, children) && forall c :: c in children ==> CanFetch(documents, tags, c)
  }

  /** Exactly when a review passes, unless a request fails. Without children there is nothing to review. */
  ghost predicate ReviewPasses(inventory: seq<Manifest>, documents: map<Digest, Document>, tags: map<Tag, Digest>,
                               target: Digest, children: set<Digest>) {
    || children == {}
    || (&& NoTagAt(documents, tags, children)
        && ChildrenPass(documents, tags, children)
        && forall p :: Consulted(inventory, documents, tags, target, children, p) ==>
                         RootPasses(documents, tags, children, p))
  }

  /** A passed review clears the children. */
  lemma PassedIsCleared(inventory: seq<Manifest>, documents: map<Digest, Document>, tags: map<Tag, Digest>,
                        target: Digest, children: set<Digest>)
    requires Addressed(documents) && ReviewPasses(inventory, documents, tags, target, children)
    ensures children != {} ==> Cleared(inventory, documents, tags, target, children)
  {
    hide CanFetch, NothingLeadsTo;
    if children != {} {
      forall t | t in tags && tags[t] in documents && tags[t] != target
        ensures NothingLeadsTo(documents, tags, tags[t], children)
      {
        assert Consulted(inventory, documents, tags, target, children, tags[t]);
      }
      forall p, m | && p in documents && p != target && p !in children
                    && m in inventory && RowFor(m, p, documents[p])
        ensures References(documents[p]) * children == {}
      {
        CoveredIsUnlisted(inventory, documents, tags, target, children, p, m);
      }
    }
  }

  /** No covered manifest lists a child whose review passes. */
  lemma CoveredIsUnlisted(inventory: seq<Manifest>, documents: map<Digest, Document>, tags: map<Tag, Digest>,
                          target: Digest, children: set<Digest>, p: Digest, m: Manifest)
    requires Addressed(documents) && ReviewPasses(inventory, documents, tags, target, children)
    requires p in documents && p != target && p !in children && m in inventory && RowFor(m, p, documents[p])
    ensures References(documents[p]) * children == {}
  {
    if c :| c in References(documents[p]) * children {
      assert c in m.platforms;
      assert IsExternalRoot(m, target, children);
      assert RowRoot(inventory, target, children, p);
      assert Consulted(inventory, documents, tags, target, children, p);
      ReadIsUnlisted(documents, tags, children, p);
    }
  }

  lemma ReadIsUnlisted(documents: map<Digest, Document>, tags: map<Tag, Digest>, children: set<Digest>, p: Digest)
    requires Addressed(documents) && p in documents && p !in children && RootPasses(documents, tags, children, p)
    ensures References(documents[p]) * children == {}
  {
    hide HeightAtMost, Nodes, References;
    var tree :| Fetchable(GraphOf(documents, tags), ByDigest(p), tree);
    TreeOfFetched(GraphOf(documents, tags), ByDigest(p), tree);
    hide Fetchable, IsUnfolding;
    if References(documents[p]) * children != {} {
      DirectReferenceFound(documents, tags, p, tree, children);
    }
  }

  /**
   A registry in which everything can be read and nothing outside leads to the children passes every
   review of them.
   */
  ghost predicate Clearable(documents: map<Digest, Document>, tags: map<Tag, Digest>, target: Digest,
                            children: set<Digest>) {
    && NoTagAt(documents, tags, children)
    && NoSubjectsOrReferrers(documents, children)
    && AllFetchable(documents, tags)
    && forall p :: p in documents && p != target && p !in children ==> NothingLeadsTo(documents, tags, p, children)
  }

  lemma ClearablePasses(inventory: seq<Manifest>, documents: map<Digest, Document>, tags: map<Tag, Digest>,
                        target: Digest, children: set<Digest>)
    requires Clearable(documents, tags, target, children)
    ensures ReviewPasses(inventory, documents, tags, target, children)
  {
    hide CanFetch, NothingLeadsTo, NoSubjectsOrReferrers;
    forall c | c in children
      ensures CanFetch(documents, tags, c)
    {
      SubjectsArePresent(documents, children, c);
    }
    forall p | Consulted(inventory, documents, tags, target, children, p)
      ensures RootPasses(documents, tags, children, p)
    {
      assert p !in children;
    }
  }

  lemma SubjectsArePresent(documents: map<Digest, Document>, children: set<Digest>, c: Digest)
    requires NoSubjectsOrReferrers(documents, children) && c in children
    ensures c in documents
  {
  }

  ghost predicate AllFetchable(documents: map<Digest, Document>, tags: map<Tag, Digest>) {
    forall p :: p in documents ==> CanFetch(documents, tags, p)
  }

  /** The tree below `root` holds none of the children. */
  ghost predicate NothingLeadsTo(documents: map<Digest, Document>, tags: map<Tag, Digest>, root: Digest,
                                 children: set<Digest>) {
    forall tree :: IsUnfolding(GraphOf(documents, tags), ByDigest(root), tree) ==> !MetadataReferencesAnyChild(tree, children)
  }

  method ExternalTagRoots(target: Digest, childSet: set<Digest>, liveTags: map<Tag, Digest>)
    returns (ok: bool, roots: set<Digest>)
    ensures ok <==> forall t :: t in liveTags ==> liveTags[t] !in childSet
    ensures ok ==> forall d :: d in roots <==> d != target && exists t :: t in liveTags && liveTags[t] == d
    ensures ok ==> forall d :: d in roots ==> d !in childSet
  {
    roots := {};
    var pending := liveTags.Keys;
    while pending != {}
      invariant pending <= liveTags.Keys
      invariant forall t :: t in liveTags.Keys - pending ==> liveTags[t] !in childSet
      invariant forall d :: d in roots <==>
                              d != target && exists t :: t in liveTags && t !in pending && liveTags[t] == d
    {
      var tag :| tag in pending;
      pending := pending - {tag};
      if liveTags[tag] in childSet {
        return false, roots;
      }
      if liveTags[tag] != target {
        roots := roots + {liveTags[tag]};
      }
    }
    ok := true;
  }

  predicate ManifestReferencesAnyChild(manifest: Manifest, children: set<Digest>) {
    exists d | d in manifest.platforms :: d in children
  }

  predicate IsExternalRoot(manifest: Manifest, target: Digest, children: set<Digest>) {
    && Live(manifest) && manifest.digest != target && manifest.digest !in children
    && ManifestReferencesAnyChild(manifest, children)
  }

  method ExternalRowRoots(target: Digest, childSet: set<Digest>, inventory: seq<Manifest>, tagRoots: set<Digest>)
    returns (roots: set<Digest>)
    requires forall d :: d in tagRoots ==> d != target && d !in childSet
    ensures forall d :: d in roots ==> d != target && d !in childSet
    ensures forall d :: d in roots <==> d in tagRoots || RowRoot(inventory, target, childSet, d)
  {
    roots := tagRoots;
    for i := 0 to |inventory|
      invariant forall d :: d in roots <==> d in tagRoots || RowRoot(inventory[..i], target, childSet, d)
    {
      var manifest := inventory[i];
      OneMoreRow(inventory, i, target, childSet);
      if manifest.digest == target || !Live(manifest) || manifest.digest in childSet {
        continue;
      }
      if ManifestReferencesAnyChild(manifest, childSet) {
        roots := roots + {manifest.digest};
      }
    }
    assert inventory[..|inventory|] == inventory;
  }

  lemma OneMoreRow(inventory: seq<Manifest>, i: nat, target: Digest, children: set<Digest>)
    requires i < |inventory|
    ensures forall d :: RowRoot(inventory[..i + 1], target, children, d) <==>
                        || RowRoot(inventory[..i], target, children, d)
                        || (inventory[i].digest == d && IsExternalRoot(inventory[i], target, children))
  {
    hide IsExternalRoot;
    assert inventory[..i + 1] == inventory[..i] + [inventory[i]];
  }

  /** There is only one tree to look at. */
  lemma OneTreeDecides(documents: map<Digest, Document>, tags: map<Tag, Digest>, root: Digest, tree: Metadata,
                       children: set<Digest>)
    requires Addressed(documents) && root !in children
    requires IsUnfolding(GraphOf(documents, tags), ByDigest(root), tree) && !MetadataReferencesAnyChild(tree, children)
    ensures NothingLeadsTo(documents, tags, root, children) && References(documents[root]) * children == {}
  {
    forall other | IsUnfolding(GraphOf(documents, tags), ByDigest(root), other)
      ensures other == tree
    {
      UnfoldingUnique(GraphOf(documents, tags), ByDigest(root), other, tree);
    }
    if References(documents[root]) * children != {} {
      DirectReferenceFound(documents, tags, root, tree, children);
    }
  }

  method CheckExternalRoots(registry: Distribution, childSet: set<Digest>, roots: set<Digest>) returns (ok: bool)
    requires registry.Valid()
    requires forall d :: d in roots ==> d !in childSet
    modifies registry`calls
    ensures ok ==> forall d :: d in roots && d in registry.documents ==>
                                 RootPasses(registry.documents, registry.tags, childSet, d)
    ensures registry.Reliable() && !ok ==>
              exists d :: d in roots && d in registry.documents &&
                          !RootPasses(registry.documents, registry.tags, childSet, d)
  {
    var pending := roots;
    while pending != {}
      invariant pending <= roots
      invariant forall d :: d in roots - pending && d in registry.documents ==>
                              RootPasses(registry.documents, registry.tags, childSet, d)
    {
      var root :| root in pending;
      pending := pending - {root};
      var resolved := registry.ResolveManifest(ByDigest(root));
      if resolved.Err? {
        return false;
      }
      if resolved.value != Some(root) {
        continue;
      }
      var metadata := registry.FetchManifest(ByDigest(root));
      if metadata.Err? {
        assert registry.Reliable() ==> !CanFetch(registry.documents, registry.tags, root);
        return false;
      }
      if MetadataReferencesAnyChild(metadata.value, childSet) {
        assert !NothingLeadsTo(registry.documents, registry.tags, root, childSet);
        return false;
      }
      OneTreeDecides(registry.documents, registry.tags, root, metadata.value, childSet);
    }
    ok := true;
  }

  method CheckChildren(registry: Distribution, children: seq<Digest>) returns (ok: bool)
    requires registry.Valid()
    modifies registry`calls
    ensures ok ==> ChildrenPass(registry.documents, registry.tags, Elements(children))
    ensures registry.Reliable() && !ok ==> !ChildrenPass(registry.documents, registry.tags, Elements(children))
  {
    for i := 0 to |children|
      invariant ChildrenPass(registry.documents, registry.tags, Elements(children[..i]))
    {
      var metadata := registry.FetchManifest(ByDigest(children[i]));
      assert children[i] in Elements(children);
      if metadata.Err? {
        assert registry.Reliable() ==> !CanFetch(registry.documents, registry.tags, children[i]);
        return false;
      }
      if metadata.value.subject != NoDigest {
        return false;
      }
      var referrers := registry.ListReferrers(children[i]);
      if referrers.Err? {
        return false;
      }
      if |referrers.value| > 0 {
        assert Referrer(registry.documents, children[i], referrers.value[0]);
        return false;
      }
    }
    assert children[..|children|] == children;
    ok := true;
  }

  method RevalidateDeletionChildren(registry: Distribution, target: Digest, children: seq<Digest>,
                                    inventory: seq<Manifest>, liveTags: map<Tag, Digest>)
    returns (ok: bool)
    requires registry.Valid()
    requires forall t :: t in liveTags <==> t in registry.tags && registry.tags[t] in registry.documents
    requires forall t :: t in liveTags ==> liveTags[t] == registry.tags[t]
    modifies registry`calls
    ensures ok ==> ReviewPasses(inventory, registry.documents, registry.tags, target, Elements(children))
    ensures registry.Reliable() ==>
              (ok <==> ReviewPasses(inventory, registry.documents, registry.tags, target, Elements(children)))
  {
    hide RootPasses, ChildrenPass, RowRoot;
    if children == [] {
      return true;
    }
    var childSet := Elements(children);
    assert children[0] in childSet;
    var roots;
    ok, roots := ExternalTagRoots(target, childSet, liveTags);
    if !ok {
      return;
    }
    roots := ExternalRowRoots(target, childSet, inventory, roots);
    assert forall p :: p in registry.documents ==>
                         (p in roots <==> Consulted(inventory, registry.documents, registry.tags, target, childSet, p));
    ok := CheckExternalRoots(registry, childSet, roots);
    if !ok {
      return;
    }
    ok := CheckChildren(registry, children);
  }

  // ----- the engine

  /** Everything a run keeps, whether it succeeded or stopped anywhere on the way. */
  ghost predicate Safe(inventory: seq<Manifest>, before: map<Digest, Document>, after: map<Digest, Document>,
                       tags: map<Tag, Digest>, target: Digest, children: seq<Digest>) {
    && TargetFirst(before, after, target, children)
    && KeepsTags(before, after, tags, target)
    && KeepsTaggedTrees(before, after, tags, {target})
    && KeepsSubjects(before, after, target)
    && (Covers(inventory, before) ==> KeepsReferences(before, after, target))
  }

  /** No manifest left at the time a child went still listed that child. */
  ghost predicate InOrder(before: map<Digest, Document>, target: Digest, children: seq<Digest>, n: nat) {
    forall i, p :: 0 <= i < n <= |children| && p in before && p != target && p !in children[..i + 1] ==>
                     children[i] !in References(before[p])
  }

  lemma RemoveTarget(inventory: seq<Manifest>, before: map<Digest, Document>,
                     tags: map<Tag, Digest>, target: Digest, children: seq<Digest>)
    requires Addressed(before)
    ensures Safe(inventory, before, before, tags, target, children)
    ensures Safe(inventory, before, before - {target}, tags, target, children)
    ensures InOrder(before, target, children, 0)
  {
    TreesWithoutTarget(before, tags, target);
    hide KeepsTaggedTrees;
  }

  lemma TreesWithoutTarget(before: map<Digest, Document>, tags: map<Tag, Digest>, target: Digest)
    requires Addressed(before)
    ensures KeepsTaggedTrees(before, before, tags, {target})
    ensures KeepsTaggedTrees(before, before - {target}, tags, {target})
  {
    hide IsUnfolding, MentionsAny;
    forall t, tree | t in tags && IsUnfolding(GraphOf(before, tags), ByDigest(tags[t]), tree)
                     && !MentionsAny(tree, {target})
      ensures IsUnfolding(GraphOf(before - {target}, tags), ByDigest(tags[t]), tree)
    {
      TreeSurvives(before, tags, tags[t], tree, {target});
    }
  }

  /** A cleared child is in no tree of a live tag, so all those trees survive it. */
  lemma TreesWithoutChild(before: map<Digest, Document>, present: map<Digest, Document>, tags: map<Tag, Digest>,
                          target: Digest, child: Digest)
    requires Addressed(present) && target !in present && KeepsTaggedTrees(before, present, tags, {target})
    requires NoTagAt(present, tags, {child}) && NoTagLeadsTo(present, tags, target, {child})
    ensures KeepsTaggedTrees(before, present - {child}, tags, {target})
  {
    hide MentionsAny;
    forall t, tree | t in tags && IsUnfolding(GraphOf(before, tags), ByDigest(tags[t]), tree)
                     && !MentionsAny(tree, {target})
      ensures IsUnfolding(GraphOf(present - {child}, tags), ByDigest(tags[t]), tree)
    {
      assert IsUnfolding(GraphOf(present, tags), ByDigest(tags[t]), tree);
      assert ByDigest(tags[t]) in GraphOf(present, tags);
      hide IsUnfolding;
      SearchIsComplete(present, tags, tags[t], tree, {child});
      TreeSurvives(present, tags, tags[t], tree, {child});
    }
  }

  /** Removing one more child that was just cleared keeps everything that was kept so far. */
  lemma RemoveChild(inventory: seq<Manifest>, before: map<Digest, Document>, present: map<Digest, Document>,
                    tags: map<Tag, Digest>, target: Digest, children: seq<Digest>, child: Digest)
    requires Addressed(before) && Addressed(present) && Safe(inventory, before, present, tags, target, children)
    requires child in children && target !in present
    requires Cleared(inventory, present, tags, target, {child})
    ensures child in present && Safe(inventory, before, present - {child}, tags, target, children)
    ensures Covers(inventory, before) ==>
              forall p :: p in present && p != child ==> child !in References(before[p])
  {
    TreesWithoutChild(before, present, tags, target, child);
    ChildKeepsRest(before, present, tags, target, children, child);
    hide KeepsTaggedTrees, NoTagLeadsTo, KeepsTags, KeepsSubjects, TargetFirst, NoTagAt;
    if Covers(inventory, before) {
      forall p | p in present && p != child
        ensures child !in References(before[p])
      {
        var m :| m in inventory && RowFor(m, p, before[p]);
        assert present[p] == before[p] && RowFor(m, p, present[p]);
        assert References(present[p]) * {child} == {};
        assert child !in References(present[p]) * {child};
      }
    }
  }

  /** What removing a cleared child leaves to tags and referrers. */
  lemma ChildKeepsRest(before: map<Digest, Document>, present: map<Digest, Document>, tags: map<Tag, Digest>,
                       target: Digest, children: seq<Digest>, child: Digest)
    requires TargetFirst(before, present, target, children) && child in children && target !in present
    requires KeepsTags(before, present, tags, target) && KeepsSubjects(before, present, target)
    requires NoTagAt(present, tags, {child}) && NoSubjectsOrReferrers(present, {child})
    ensures child in present && TargetFirst(before, present - {child}, target, children)
    ensures KeepsTags(before, present - {child}, tags, target) && KeepsSubjects(before, present - {child}, target)
    ensures Addressed(before) ==> Addressed(present)
    ensures forall p :: p in present ==> present[p] == before[p]
  {
    var after := present - {child};
    assert child in present && before[child].subject == NoDigest;
    forall t | t in tags && tags[t] in before && tags[t] != target
      ensures tags[t] in after
    {
      assert tags[t] in present;
    }
    forall p | p in after && after[p].subject in before && after[p].subject != target
      ensures after[p].subject in after
    {
      assert present[p] == before[p] && after[p] == before[p];
      assert !Referrer(present, child, p);
    }
  }

  /** The first `n` planned digests are gone and nothing else changed. */
  ghost predicate Progress(inventory: seq<Manifest>, before: map<Digest, Document>, present: map<Digest, Document>,
                           tags: map<Tag, Digest>, target: Digest, children: seq<Digest>, n: nat)
    requires n <= 1 + |children|
  {
    var deleted := ([target] + children)[..n];
    && Addressed(before)
    && Distinct(deleted)
    && Elements(deleted) <= before.Keys
    && present == before - Elements(deleted)
    && Safe(inventory, before, present, tags, target, children)
    && (Covers(inventory, before) && n > 0 ==> InOrder(before, target, children, n - 1))
  }

  lemma Advance(inventory: seq<Manifest>, before: map<Digest, Document>, present: map<Digest, Document>,
                tags: map<Tag, Digest>, target: Digest, children: seq<Digest>, n: nat)
    requires n <= |children| && Progress(inventory, before, present, tags, target, children, n)
    requires var digest := ([target] + children)[n];
             if n == 0 then digest in present else Cleared(inventory, present, tags, target, {digest})
    ensures var digest := ([target] + children)[n];
            digest in present && Progress(inventory, before, present - {digest}, tags, target, children, n + 1)
  {
    hide Safe, Cleared, Covers;
    var digests := [target] + children;
    var digest := digests[n];
    assert digests[..n + 1] == digests[..n] + [digest];
    assert Elements(digests[..n + 1]) == Elements(digests[..n]) + {digest};
    if n == 0 {
      RemoveTarget(inventory, before, tags, target, children);
      assert present == before;
    } else {
      assert digests[..n][0] == target;
      RemoveChild(inventory, before, present, tags, target, children, digest);
      NextInOrder(before, target, children, n, digests[..n]);
    }
    assert digest !in digests[..n];
    assert present - {digest} == before - Elements(digests[..n + 1]);
  }

  lemma Start(inventory: seq<Manifest>, before: map<Digest, Document>,
              tags: map<Tag, Digest>, target: Digest, children: seq<Digest>)
    requires Addressed(before)
    ensures Progress(inventory, before, before, tags, target, children, 0)
  {
    RemoveTarget(inventory, before, tags, target, children);
  }

  lemma Consequences(inventory: seq<Manifest>, before: map<Digest, Document>, present: map<Digest, Document>,
                     tags: map<Tag, Digest>, target: Digest, children: seq<Digest>, n: nat)
    requires n <= 1 + |children| && Progress(inventory, before, present, tags, target, children, n)
    ensures var deleted := ([target] + children)[..n];
            && Distinct(deleted)
            && Elements(deleted) <= before.Keys - present.Keys
            && present == before - Elements(deleted)
            && Shrinks(before, present)
            && Safe(inventory, before, present, tags, target, children)
            && (n > 0 ==> target in before && (Covers(inventory, before) ==> InOrder(before, target, children, n - 1)))
  {
    hide Safe, Covers, InOrder;
    if n > 0 {
      assert ([target] + children)[..n][0] == target;
    }
  }

  /** Nothing disappears without having been requested. */
  ghost predicate Accounted(before: map<Digest, Document>, documents: map<Digest, Document>, requested: seq<Digest>,
                            from: nat) {
    from <= |requested| && before.Keys - documents.Keys <= Elements(requested[from..])
  }

  lemma AccountOne(before: map<Digest, Document>, present: map<Digest, Document>, requested: seq<Digest>, from: nat,
                   digest: Digest)
    requires Accounted(before, present, requested, from)
    ensures Accounted(before, present, requested + [digest], from)
    ensures Accounted(before, present - {digest}, requested + [digest], from)
  {
    assert (requested + [digest])[from..] == requested[from..] + [digest];
    assert Elements((requested + [digest])[from..]) == Elements(requested[from..]) + {digest};
  }

  /** One review: read the live tags, then revalidate. */
  method Review(registry: Distribution, target: Digest, children: seq<Digest>, inventory: seq<Manifest>)
    returns (ok: bool)
    requires registry.Valid()
    modifies registry`calls
    ensures ok ==> ReviewPasses(inventory, registry.documents, registry.tags, target, Elements(children))
    ensures registry.Reliable() ==>
              (ok <==> ReviewPasses(inventory, registry.documents, registry.tags, target, Elements(children)))
    ensures ok && children != [] ==>
              Cleared(inventory, registry.documents, registry.tags, target, Elements(children))
  {
    hide Cleared, ReviewPasses;
    var live := ResolveLiveTagDigests(registry);
    if live.Err? {
      return false;
    }
    ok := RevalidateDeletionChildren(registry, target, children, inventory, live.value);
    if ok && children != [] {
      assert children[0] in Elements(children);
      PassedIsCleared(inventory, registry.documents, registry.tags, target, Elements(children));
    }
  }

  /** Every review along the way would pass if no request failed. */
  ghost predicate Passable(inventory: seq<Manifest>, before: map<Digest, Document>, tags: map<Tag, Digest>,
                           target: Digest, children: seq<Digest>) {
    && target in before
    && ReviewPasses(inventory, before, tags, target, Elements(children))
    && forall n :: 0 < n <= |children| ==> PassableAt(inventory, before, tags, target, children, n)
  }

  ghost predicate PassableAt(inventory: seq<Manifest>, before: map<Digest, Document>, tags: map<Tag, Digest>,
                             target: Digest, children: seq<Digest>, n: nat)
    requires 0 < n <= |children|
  {
    ReviewPasses(inventory, before - ({target} + Elements(children[..n - 1])), tags, target, {children[n - 1]})
  }

  /** Why a run without failing requests stops before digest number `n`: the review of what is left does not pass. */
  ghost predicate Stopped(inventory: seq<Manifest>, before: map<Digest, Document>, tags: map<Tag, Digest>,
                          target: Digest, children: seq<Digest>, n: nat) {
    if n == 0 then !(target in before && ReviewPasses(inventory, before, tags, target, Elements(children)))
    else n <= |children| && !PassableAt(inventory, before, tags, target, children, n)
  }

  /** It is stopped before none of the first `n` digests. */
  ghost predicate GetsTo(inventory: seq<Manifest>, before: map<Digest, Document>, tags: map<Tag, Digest>,
                         target: Digest, children: seq<Digest>, n: nat) {
    forall k :: 0 <= k < n ==> !Stopped(inventory, before, tags, target, children, k)
  }

  /** Such a run goes through exactly when it is stopped nowhere. */
  lemma PassableIsNeverStopped(inventory: seq<Manifest>, before: map<Digest, Document>, tags: map<Tag, Digest>,
                               target: Digest, children: seq<Digest>)
    ensures Passable(inventory, before, tags, target, children) <==>
            GetsTo(inventory, before, tags, target, children, 1 + |children|)
    ensures !Stopped(inventory, before, tags, target, children, 1 + |children|)
  {
    hide PassableAt, ReviewPasses;
    if GetsTo(inventory, before, tags, target, children, 1 + |children|) {
      assert !Stopped(inventory, before, tags, target, children, 0);
      forall n | 0 < n <= |children|
        ensures PassableAt(inventory, before, tags, target, children, n)
      {
        assert !Stopped(inventory, before, tags, target, children, n);
      }
    }
  }

  lemma StartsAtTarget(inventory: seq<Manifest>, before: map<Digest, Document>, tags: map<Tag, Digest>, target: Digest,
                       children: seq<Digest>)
    ensures GetsTo(inventory, before, tags, target, children, 0)
  {
  }

  /** One more round: the run gets past digest number `n`, or stops there and is not passable. */
  lemma OneRound(inventory: seq<Manifest>, before: map<Digest, Document>, tags: map<Tag, Digest>, target: Digest,
                 children: seq<Digest>, n: nat)
    requires n <= |children| && GetsTo(inventory, before, tags, target, children, n)
    ensures Stopped(inventory, before, tags, target, children, n) <==>
            !if n == 0 then target in before && ReviewPasses(inventory, before, tags, target, Elements(children))
             else PassableAt(inventory, before, tags, target, children, n)
    ensures Stopped(inventory, before, tags, target, children, n) ==>
              !Passable(inventory, before, tags, target, children)
    ensures !Stopped(inventory, before, tags, target, children, n) ==>
              GetsTo(inventory, before, tags, target, children, n + 1)
  {
    PassableIsNeverStopped(inventory, before, tags, target, children);
    hide Passable, PassableAt, ReviewPasses;
  }

  /**
   Every request of this run was for something present, on a registry that only shrinks. When no
   deletion is refused, what was requested is gone from then on.
   */
  ghost predicate Traced(before: map<Digest, Document>, documents: map<Digest, Document>, requested: seq<Digest>,
                         presentWhen: seq<map<Digest, Document>>, from: nat, certain: bool) {
    && from <= |requested| == |presentWhen|
    && Shrinks(before, documents)
    && (forall k :: from <= k < |requested| ==>
                      && requested[k] in presentWhen[k]
                      && Shrinks(before, presentWhen[k]) && Shrinks(presentWhen[k], documents)
                      && (certain ==> requested[k] !in documents))
    && (forall j, k :: from <= j < k < |requested| ==>
                         && Shrinks(presentWhen[j], presentWhen[k])
                         && (certain ==> requested[j] !in presentWhen[k]))
  }

  lemma TraceOne(before: map<Digest, Document>, present: map<Digest, Document>, after: map<Digest, Document>,
                 requested: seq<Digest>, presentWhen: seq<map<Digest, Document>>, from: nat, certain: bool,
                 digest: Digest)
    requires Traced(before, present, requested, presentWhen, from, certain) && digest in present
    requires after == present - {digest} || (after == present && !certain)
    ensures Traced(before, after, requested + [digest], presentWhen + [present], from, certain)
  {
  }

  lemma TraceMore(before: map<Digest, Document>, middle: map<Digest, Document>, after: map<Digest, Document>,
                  requested: seq<Digest>, later: seq<Digest>, presentWhen: seq<map<Digest, Document>>,
                  laterPresent: seq<map<Digest, Document>>, from: nat, certain: bool)
    requires Traced(before, middle, requested, presentWhen, from, certain)
    requires Traced(middle, after, later, laterPresent, |requested|, certain)
    requires requested <= later && presentWhen <= laterPresent
    ensures Traced(before, after, later, laterPresent, from, certain)
  {
    forall k | from <= k < |requested|
      ensures later[k] == requested[k] && laterPresent[k] == presentWhen[k]
    {
    }
  }

  /** No digest is deleted twice: only a refused request can be made again. */
  lemma RequestedOnce(before: map<Digest, Document>, documents: map<Digest, Document>, requested: seq<Digest>,
                      presentWhen: seq<map<Digest, Document>>, from: nat, j: nat, k: nat)
    requires Traced(before, documents, requested, presentWhen, from, true) && from <= j < k < |requested|
    ensures requested[j] != requested[k]
  {
  }

  /**
   Deletes one planned digest: a child is reviewed once more, and nothing is requested for what
   has changed in between. A digest that is gone does not count as an error unless it is the target.
   */
  method DeleteOne(registry: Distribution, target: Digest, children: seq<Digest>, index: nat, inventory: seq<Manifest>,
                   ghost before: map<Digest, Document>, ghost from: nat)
    returns (done: bool)
    requires registry.Valid() && index <= |children|
    requires Progress(inventory, before, registry.documents, registry.tags, target, children, index)
    requires Accounted(before, registry.documents, registry.requested, from)
    requires Traced(before, registry.documents, registry.requested, registry.presentWhen, from, registry.NeverRefuses())
    modifies registry
    ensures registry.Valid() && registry.tags == old(registry.tags)
    ensures Safe(inventory, before, registry.documents, registry.tags, target, children)
    ensures Accounted(before, registry.documents, registry.requested, from)
    ensures Traced(before, registry.documents, registry.requested, registry.presentWhen, from, registry.NeverRefuses())
    ensures Elements(([target] + children)[..index]) <= before.Keys - registry.documents.Keys
    ensures (registry.requested == old(registry.requested) && registry.presentWhen == old(registry.presentWhen)) ||
            (registry.requested == old(registry.requested) + [([target] + children)[index]] &&
             registry.presentWhen == old(registry.presentWhen) + [old(registry.documents)])
    ensures done ==>
              && Progress(inventory, before, registry.documents, registry.tags, target, children, index + 1)
              && registry.requested == old(registry.requested) + [([target] + children)[index]]
    ensures !done && registry.KeepsReplies() ==> registry.documents == old(registry.documents)
    ensures done ==> if index == 0 then target in before
                     else PassableAt(inventory, before, registry.tags, target, children, index)
    ensures !done && registry.Reliable() ==>
              !if index == 0 then target in before
               else PassableAt(inventory, before, registry.tags, target, children, index)
  {
    hide Safe, Cleared, ReviewPasses, Distribution.Reliable, Distribution.KeepsReplies, Distribution.NeverRefuses, Covers,
         InOrder, Progress, Distinct, Accounted, Traced;
    var digest := ([target] + children)[index];
    Consequences(inventory, before, registry.documents, registry.tags, target, children, index);
    if index > 0 {
      assert Elements([digest]) == {digest};
      LeftBefore(target, children, index);
      var cleared := Review(registry, target, [digest], inventory);
      if !cleared {
        return false;
      }
      Advance(inventory, before, registry.documents, registry.tags, target, children, index);
    }
    var resolved := registry.ResolveManifest(ByDigest(digest));
    if resolved.Err? {
      return false;
    }
    if resolved.value != Some(digest) {
      if index == 0 {
        return false;
      }
      // A child that is gone is skipped, but its revalidation has just fetched it.
      assert false;
    }
    Advance(inventory, before, registry.documents, registry.tags, target, children, index);
    Consequences(inventory, before, registry.documents - {digest}, registry.tags, target, children, index + 1);
    AccountOne(before, registry.documents, registry.requested, from, digest);
    ghost var present, requested, presentWhen := registry.documents, registry.requested, registry.presentWhen;
    done := registry.DeleteManifest(digest);
    TraceOne(before, present, registry.documents, requested, presentWhen, from, registry.NeverRefuses(), digest);
  }

  /** What is gone before digest number `index`. */
  lemma LeftBefore(target: Digest, children: seq<Digest>, index: nat)
    requires 0 < index <= |children|
    ensures Elements(([target] + children)[..index]) == {target} + Elements(children[..index - 1])
  {
    assert ([target] + children)[..index] == [target] + children[..index - 1];
  }

  /** What was requested are some of the first digests, in their order. */
  ghost predicate Requests(requested: seq<Digest>, presentWhen: seq<map<Digest, Document>>, later: seq<Digest>,
                           laterPresent: seq<map<Digest, Document>>, digests: seq<Digest>) {
    requested <= later <= requested + digests && presentWhen <= laterPresent
  }

  /** What holds after `n` digests were deleted. */
  ghost predicate RoundsDone(inventory: seq<Manifest>, before: map<Digest, Document>, documents: map<Digest, Document>,
                             tags: map<Tag, Digest>, target: Digest, children: seq<Digest>, requested: seq<Digest>,
                             presentWhen: seq<map<Digest, Document>>, later: seq<Digest>,
                             laterPresent: seq<map<Digest, Document>>, n: nat) {
    && n <= 1 + |children| && later == requested + ([target] + children)[..n]
    && Requests(requested, presentWhen, later, laterPresent, [target] + children)
    && Progress(inventory, before, documents, tags, target, children, n)
    && GetsTo(inventory, before, tags, target, children, n)
  }

  /** The next digest goes, or is requested in vain, or is not even requested. */
  lemma NextRound(inventory: seq<Manifest>, before: map<Digest, Document>, documents: map<Digest, Document>,
                  after: map<Digest, Document>, tags: map<Tag, Digest>, target: Digest, children: seq<Digest>,
                  requested: seq<Digest>, presentWhen: seq<map<Digest, Document>>, later: seq<Digest>,
                  laterPresent: seq<map<Digest, Document>>, n: nat)
    requires n <= |children|
    requires RoundsDone(inventory, before, documents, tags, target, children, requested, presentWhen, later, laterPresent, n)
    ensures var all, next := [target] + children, ([target] + children)[n];
            && Requests(requested, presentWhen, later + [next], laterPresent + [documents], all)
            && (Progress(inventory, before, after, tags, target, children, n + 1)
                && !Stopped(inventory, before, tags, target, children, n) ==>
                  RoundsDone(inventory, before, after, tags, target, children, requested, presentWhen, later + [next],
                             laterPresent + [documents], n + 1))
  {
    hide Progress, Stopped, Requests;
    var all := [target] + children;
    assert later + [all[n]] == requested + all[..n + 1];
    OneMoreRequest(requested, presentWhen, later, laterPresent, all, n, documents);
  }

  lemma OneMoreRequest(requested: seq<Digest>, presentWhen: seq<map<Digest, Document>>, now: seq<Digest>,
                       nowPresent: seq<map<Digest, Document>>, digests: seq<Digest>, n: nat,
                       present: map<Digest, Document>)
    requires n < |digests| && now == requested + digests[..n]
    requires Requests(requested, presentWhen, now, nowPresent, digests)
    ensures Requests(requested, presentWhen, now + [digests[n]], nowPresent + [present], digests)
  {
    assert now + [digests[n]] == requested + digests[..n + 1];
    assert digests == digests[..n + 1] + digests[n + 1..];
  }

  lemma NoRounds(inventory: seq<Manifest>, before: map<Digest, Document>, tags: map<Tag, Digest>, target: Digest,
                 children: seq<Digest>, requested: seq<Digest>, presentWhen: seq<map<Digest, Document>>)
    requires Addressed(before) && |presentWhen| == |requested|
    ensures RoundsDone(inventory, before, before, tags, target, children, requested, presentWhen, requested, presentWhen, 0)
  {
    hide Progress, GetsTo;
    Unchanged(before, requested, presentWhen, [target] + children, true);
    Start(inventory, before, tags, target, children);
    StartsAtTarget(inventory, before, tags, target, children);
  }

  lemma RoundFacts(inventory: seq<Manifest>, before: map<Digest, Document>, documents: map<Digest, Document>,
                   tags: map<Tag, Digest>, target: Digest, children: seq<Digest>, requested: seq<Digest>,
                   presentWhen: seq<map<Digest, Document>>, later: seq<Digest>,
                   laterPresent: seq<map<Digest, Document>>, n: nat)
    requires RoundsDone(inventory, before, documents, tags, target, children, requested, presentWhen, later, laterPresent, n)
    ensures n <= 1 + |children| && Requests(requested, presentWhen, later, laterPresent, [target] + children)
    ensures Progress(inventory, before, documents, tags, target, children, n)
    ensures GetsTo(inventory, before, tags, target, children, n)
    ensures var deleted := ([target] + children)[..n];
            && Distinct(deleted) && Elements(deleted) <= before.Keys - documents.Keys
            && documents == before - Elements(deleted)
            && Safe(inventory, before, documents, tags, target, children)
            && (n > 0 ==> target in before && (Covers(inventory, before) ==> InOrder(before, target, children, n - 1)))
  {
    hide Progress, GetsTo, Requests, Safe, Covers, InOrder, Distinct;
    Consequences(inventory, before, documents, tags, target, children, n);
  }

  /** The loop of the engine: one digest after the other, until one cannot be deleted. */
  method DeleteAll(registry: Distribution, target: Digest, children: seq<Digest>, inventory: seq<Manifest>,
                   digests: seq<Digest>)
    returns (deleted: seq<Digest>, ok: bool)
    requires registry.Valid() && digests == [target] + children
    requires ReviewPasses(inventory, registry.documents, registry.tags, target, Elements(children))
    modifies registry
    ensures registry.Valid() && registry.tags == old(registry.tags)
    ensures Safe(inventory, old(registry.documents), registry.documents, registry.tags, target, children)
    ensures Requests(old(registry.requested), old(registry.presentWhen), registry.requested, registry.presentWhen,
                     digests)
    ensures Traced(old(registry.documents), registry.documents, registry.requested, registry.presentWhen,
                   |old(registry.requested)|, registry.NeverRefuses())
    ensures Accounted(old(registry.documents), registry.documents, registry.requested, |old(registry.requested)|)
    ensures |deleted| <= |digests| && deleted == digests[..|deleted|] && (ok <==> |deleted| == |digests|)
    ensures Distinct(deleted) && Elements(deleted) <= old(registry.documents).Keys - registry.documents.Keys
    ensures ok || registry.KeepsReplies() ==> registry.documents == old(registry.documents) - Elements(deleted)
    ensures deleted != [] ==> target in old(registry.documents)
    ensures deleted != [] && Covers(inventory, old(registry.documents)) ==>
              InOrder(old(registry.documents), target, children, |deleted| - 1)
    ensures GetsTo(inventory, old(registry.documents), registry.tags, target, children, |deleted|)
    ensures registry.Reliable() ==>
              (ok <==> !Stopped(inventory, old(registry.documents), registry.tags, target, children, |deleted|))
  {
    hide Safe, Cleared, ReviewPasses, PassableAt, Passable, GetsTo, Stopped, Distribution.Reliable,
         Distribution.KeepsReplies, Distribution.NeverRefuses, Covers, InOrder, Progress, Distinct, Accounted, Traced,
         Requests, RoundsDone, Addressed, Elements;
    ghost var before, tags, from := registry.documents, registry.tags, |registry.requested|;
    ghost var earlier, earlierPresent := registry.requested, registry.presentWhen;
    Unchanged(before, earlier, earlierPresent, digests, registry.NeverRefuses());
    PassableIsNeverStopped(inventory, before, tags, target, children);
    NoRounds(inventory, before, tags, target, children, earlier, earlierPresent);
    deleted, ok := [], false;
    for index := 0 to |digests|
      invariant registry.Valid() && registry.tags == tags
      invariant deleted == digests[..index]
      invariant RoundsDone(inventory, before, registry.documents, tags, target, children, earlier, earlierPresent,
                           registry.requested, registry.presentWhen, index)
      invariant Traced(before, registry.documents, registry.requested, registry.presentWhen, from,
                       registry.NeverRefuses())
      invariant Accounted(before, registry.documents, registry.requested, from)
    {
      RoundFacts(inventory, before, registry.documents, tags, target, children, earlier, earlierPresent,
                 registry.requested, registry.presentWhen, index);
      OneRound(inventory, before, tags, target, children, index);
      ghost var documents, later, laterPresent := registry.documents, registry.requested, registry.presentWhen;
      var done := DeleteOne(registry, target, children, index, inventory, before, from);
      NextRound(inventory, before, documents, registry.documents, tags, target, children, earlier, earlierPresent, later,
                laterPresent, index);
      if !done {
        return;
      }
      deleted := deleted + [digests[index]];
    }
    RoundFacts(inventory, before, registry.documents, tags, target, children, earlier, earlierPresent,
               registry.requested, registry.presentWhen, |digests|);
    ok := true;
  }

  lemma Unchanged(before: map<Digest, Document>, requested: seq<Digest>, presentWhen: seq<map<Digest, Document>>,
                  digests: seq<Digest>, certain: bool)
    requires |presentWhen| == |requested|
    ensures Accounted(before, before, requested, |requested|)
    ensures Traced(before, before, requested, presentWhen, |requested|, certain)
    ensures Requests(requested, presentWhen, requested, presentWhen, digests)
  {
  }

  method DeleteManifestTree(registry: Distribution, target: Digest, children: seq<Digest>, inventory: seq<Manifest>)
    returns (deleted: seq<Digest>, ok: bool)
    requires registry.Valid()
    modifies registry
    ensures registry.Valid() && registry.tags == old(registry.tags)
    ensures Safe(inventory, old(registry.documents), registry.documents, registry.tags, target, children)
    // What is requested, and on what.
    ensures Requests(old(registry.requested), old(registry.presentWhen), registry.requested, registry.presentWhen,
                     [target] + children)
    ensures Traced(old(registry.documents), registry.documents, registry.requested, registry.presentWhen,
                   |old(registry.requested)|, registry.NeverRefuses())
    ensures Accounted(old(registry.documents), registry.documents, registry.requested, |old(registry.requested)|)
    ensures registry.requested != old(registry.requested) && children != [] ==>
              Cleared(inventory, old(registry.documents), registry.tags, target, Elements(children))
    // What is reported as deleted.
    ensures Distinct(deleted) && deleted <= [target] + children && (ok <==> deleted == [target] + children)
    ensures Elements(deleted) <= old(registry.documents).Keys - registry.documents.Keys
    ensures ok || registry.KeepsReplies() ==> registry.documents == old(registry.documents) - Elements(deleted)
    ensures deleted != [] ==> target in old(registry.documents)
    ensures deleted != [] && Covers(inventory, old(registry.documents)) ==>
              InOrder(old(registry.documents), target, children, |deleted| - 1)
    // When it stops.
    ensures GetsTo(inventory, old(registry.documents), registry.tags, target, children, |deleted|)
    ensures ok ==> Passable(inventory, old(registry.documents), registry.tags, target, children)
    ensures registry.Reliable() ==>
              && (ok <==> Passable(inventory, old(registry.documents), registry.tags, target, children))
              && (ok <==> !Stopped(inventory, old(registry.documents), registry.tags, target, children, |deleted|))
  {
    hide Safe, Cleared, ReviewPasses, PassableAt, Passable, GetsTo, Stopped, Distribution.Reliable,
         Distribution.KeepsReplies, Distribution.NeverRefuses, Covers, InOrder, Progress, Distinct, Accounted, Traced,
         Requests;
    Start(inventory, registry.documents, registry.tags, target, children);
    Consequences(inventory, registry.documents, registry.documents, registry.tags, target, children, 0);
    Unchanged(registry.documents, registry.requested, registry.presentWhen, [target] + children,
              registry.NeverRefuses());
    PassableIsNeverStopped(inventory, registry.documents, registry.tags, target, children);
    StartsAtTarget(inventory, registry.documents, registry.tags, target, children);
    OneRound(inventory, registry.documents, registry.tags, target, children, 0);
    deleted, ok := [], false;
    var cleared := Review(registry, target, children, inventory);
    if !cleared {
      return;
    }
    ghost var before := registry.documents;
    var digests := [target] + children;
    deleted, ok := DeleteAll(registry, target, children, inventory, digests);
    assert digests[..|digests|] == digests;
    if registry.Reliable() && !ok {
      OneRound(inventory, before, registry.tags, target, children, |deleted|);
    }
  }

  // ----- what the guarantees add up to

  /** Every entry of every present index is present. */
  ghost predicate Closed(documents: map<Digest, Document>) {
    forall p, c :: p in documents && c in References(documents[p]) ==> c in documents
  }

  ghost predicate Referenced(documents: map<Digest, Document>, digest: Digest) {
    exists p :: p in documents && p != digest && digest in References(documents[p])
  }

  /** Content addressing: no manifest lies below itself. `rank` witnesses it. */
  ghost predicate Acyclic(inventory: seq<Manifest>, documents: map<Digest, Document>, rank: Digest -> nat) {
    && (forall p, c :: p in documents && c in References(documents[p]) ==> rank(c) < rank(p))
    && (forall p, c :: DeletionPlan.Edge(inventory, p, c) ==> rank(c) < rank(p))
  }

  lemma {:induction false} ReachableRank(inventory: seq<Manifest>, documents: map<Digest, Document>,
                                         rank: Digest -> nat, path: seq<Digest>)
    requires Acyclic(inventory, documents, rank) && DeletionPlan.IsPath(inventory, path)
    ensures rank(path[|path| - 1]) <= rank(path[0])
    ensures path[|path| - 1] != path[0] ==> rank(path[|path| - 1]) < rank(path[0])
    decreases |path|
  {
    if |path| > 1 {
      ReachableRank(inventory, documents, rank, path[..|path| - 1]);
      assert DeletionPlan.Edge(inventory, path[|path| - 2], path[|path| - 1]);
    }
  }

  /** A planned child never lists the target. */
  lemma ChildrenDoNotReferBack(inventory: seq<Manifest>, documents: map<Digest, Document>, rank: Digest -> nat,
                               target: Digest, child: Digest)
    requires Acyclic(inventory, documents, rank) && child in documents
    requires child in DeletionPlan.Plan(inventory, target)
    ensures target !in References(documents[child])
  {
    DeletionPlan.PlanIsGreatest(inventory, target);
    assert child in Elements(DeletionPlan.Plan(inventory, target));
    var path :| DeletionPlan.IsPath(inventory, path) && path[0] == target && path[|path| - 1] == child;
    ReachableRank(inventory, documents, rank, path);
  }

  /**
   Reference closure, exactly: however the run ended, every index still has all its entries
   if and only if the target is still there or no other manifest listed it to begin with.
   */
  lemma ClosureExactly(inventory: seq<Manifest>, before: map<Digest, Document>, after: map<Digest, Document>,
                       tags: map<Tag, Digest>, target: Digest, rank: Digest -> nat)
    requires Closed(before) && Covers(inventory, before) && Acyclic(inventory, before, rank)
    requires Safe(inventory, before, after, tags, target, DeletionPlan.Plan(inventory, target))
    requires target in before
    ensures Closed(after) <==> target in after || !Referenced(before, target)
  {
    var children := DeletionPlan.Plan(inventory, target);
    if Closed(after) && Referenced(before, target) {
      var p :| p in before && p != target && target in References(before[p]);
      if p !in after {
        assert p in before.Keys - after.Keys;
        ChildrenDoNotReferBack(inventory, before, rank, target, p);
      }
    }
  }

  // ----- when a run without failing requests succeeds

  /** An inventory that agrees with the registry row by row. */
  ghost predicate Exact(inventory: seq<Manifest>, documents: map<Digest, Document>, tags: map<Tag, Digest>) {
    && UniqueDigests(inventory)
    && Covers(inventory, documents)
    && forall m :: m in inventory && Live(m) ==>
                     && m.digest in documents
                     && documents[m.digest].subject == m.subject
                     && (m.tags == [] ==> forall t :: t in tags ==> tags[t] != m.digest)
  }

  /** Inside a part of the registry that refers only to itself and not to `children`, no index leads to one. */
  lemma {:induction false} NoMention(documents: map<Digest, Document>, tags: map<Tag, Digest>, inside: set<Digest>,
                                     children: set<Digest>, digest: Digest, tree: Metadata)
    requires digest in inside && inside <= documents.Keys
    requires forall q :: q in documents ==> documents[q].digest == q
    requires forall q, c :: q in inside && c in References(documents[q]) ==> c in inside && c !in children
    requires IsUnfolding(GraphOf(documents, tags), ByDigest(digest), tree)
    ensures !MetadataReferencesAnyChild(tree, children)
    decreases tree
  {
    var document := documents[digest];
    forall i | 0 <= i < |document.manifests|
      ensures document.manifests[i].digest in inside && document.manifests[i].digest !in children
      ensures !MetadataReferencesAnyChild(tree.children[i], children)
    {
      assert document.manifests[i].digest in References(document);
      NoMention(documents, tags, inside, children, document.manifests[i].digest, tree.children[i]);
    }
  }

  lemma NothingLeadsOut(documents: map<Digest, Document>, tags: map<Tag, Digest>, inside: set<Digest>,
                        children: set<Digest>, digest: Digest)
    requires digest in inside && inside <= documents.Keys
    requires forall q :: q in documents ==> documents[q].digest == q
    requires forall q, c :: q in inside && c in References(documents[q]) ==> c in inside && c !in children
    ensures NothingLeadsTo(documents, tags, digest, children)
  {
    forall tree | IsUnfolding(GraphOf(documents, tags), ByDigest(digest), tree)
      ensures !MetadataReferencesAnyChild(tree, children)
    {
      NoMention(documents, tags, inside, children, digest, tree);
    }
  }

  /** An unfolding survives the removal of manifests that nothing left refers to. */
  lemma {:induction false} UnfoldingSurvives(before: map<Digest, Document>, after: map<Digest, Document>,
                                             tags: map<Tag, Digest>,
                                             digest: Digest, tree: Metadata)
    requires Shrinks(before, after) && Closed(after) && digest in after
    requires IsUnfolding(GraphOf(before, tags), ByDigest(digest), tree)
    ensures IsUnfolding(GraphOf(after, tags), ByDigest(digest), tree)
    decreases tree
  {
    var document := after[digest];
    forall i | 0 <= i < |tree.children|
      ensures IsUnfolding(GraphOf(after, tags), ByDigest(document.manifests[i].digest), tree.children[i])
    {
      assert document.manifests[i].digest in References(document);
      UnfoldingSurvives(before, after, tags, document.manifests[i].digest, tree.children[i]);
    }
  }

  /** The settled registry the success theorem is about. */
  ghost predicate Settled(inventory: seq<Manifest>, documents: map<Digest, Document>, tags: map<Tag, Digest>,
                          target: Digest) {
    && (forall d :: d in documents ==> documents[d].digest == d)
    && Exact(inventory, documents, tags)
    && AllFetchable(documents, tags)
    && Closed(documents)
    && target in documents
    && !Referenced(documents, target)
    && (forall d :: d in documents ==> d !in References(documents[d]))
  }

  /** What the plan says about its members, in terms of the registry. */
  lemma PlannedChild(inventory: seq<Manifest>, documents: map<Digest, Document>, tags: map<Tag, Digest>,
                     target: Digest, child: Digest)
    requires Exact(inventory, documents, tags) && child in DeletionPlan.Plan(inventory, target)
    ensures child != target && child in documents && documents[child].subject == NoDigest
    ensures forall t :: t in tags ==> tags[t] != child
    ensures forall r :: !Referrer(documents, child, r)
    ensures forall p :: p in documents && p != target && p !in DeletionPlan.Plan(inventory, target) ==>
                          child !in References(documents[p])
  {
    var plan := DeletionPlan.Plan(inventory, target);
    DeletionPlan.PlanIsGreatest(inventory, target);
    assert child in Elements(plan);
    assert DeletionPlan.Unneeded(child, Elements(plan) + {target}, inventory);
    var row := Find(inventory, child).value;
    forall p | p in documents && p != target && p !in plan
      ensures child !in References(documents[p])
    {
      var m :| m in inventory && RowFor(m, p, documents[p]);
      assert m.digest !in Elements(plan) + {target};
    }
  }

  /** Members of the plan, alone or together, carry no tag, subject or referrer. */
  lemma PlanIsPlain(inventory: seq<Manifest>, documents: map<Digest, Document>, present: map<Digest, Document>,
                    tags: map<Tag, Digest>, target: Digest, children: set<Digest>)
    requires Exact(inventory, documents, tags) && Shrinks(documents, present)
    requires children <= Elements(DeletionPlan.Plan(inventory, target)) && children <= present.Keys
    ensures NoTagAt(present, tags, children) && NoSubjectsOrReferrers(present, children)
  {
    hide Exact;
    forall c | c in children
      ensures present[c].subject == NoDigest && (forall r :: !Referrer(present, c, r))
      ensures forall t :: t in tags ==> tags[t] != c
    {
      PlannedChild(inventory, documents, tags, target, c);
      assert forall r :: Referrer(present, c, r) ==> Referrer(documents, c, r);
    }
  }

  lemma PlanIsPresent(inventory: seq<Manifest>, documents: map<Digest, Document>, tags: map<Tag, Digest>,
                      target: Digest)
    requires Settled(inventory, documents, tags, target)
    ensures Elements(DeletionPlan.Plan(inventory, target)) <= documents.Keys
    ensures var outside := documents.Keys - Elements(DeletionPlan.Plan(inventory, target)) - {target};
            forall q, c :: q in outside && c in References(documents[q]) ==> c in outside
  {
    hide Exact, DeletionPlan.Plan, AllFetchable, References;
    var plan := DeletionPlan.Plan(inventory, target);
    forall c | c in plan
      ensures c in documents
      ensures forall p :: p in documents && p != target && p !in plan ==> c !in References(documents[p])
    {
      PlannedChild(inventory, documents, tags, target, c);
    }
    var outside := documents.Keys - Elements(plan) - {target};
    forall q, c | q in outside && c in References(documents[q])
      ensures c in outside
    {
      assert c in documents && c !in plan;
    }
  }

  lemma WholePlanPasses(inventory: seq<Manifest>, documents: map<Digest, Document>, tags: map<Tag, Digest>,
                        target: Digest)
    requires Settled(inventory, documents, tags, target)
    ensures ReviewPasses(inventory, documents, tags, target, Elements(DeletionPlan.Plan(inventory, target)))
  {
    var children := Elements(DeletionPlan.Plan(inventory, target));
    PlanIsPresent(inventory, documents, tags, target);
    hide Exact, NoTagAt, NoSubjectsOrReferrers, NothingLeadsTo, AllFetchable, DeletionPlan.Plan, References, Elements, Closed;
    PlanIsPlain(inventory, documents, documents, tags, target, children);
    NothingOutsideLeadsIn(documents, tags, target, children, documents.Keys - children - {target});
    ClearablePasses(inventory, documents, tags, target, children);
  }

  lemma NothingOutsideLeadsIn(documents: map<Digest, Document>, tags: map<Tag, Digest>, target: Digest,
                              children: set<Digest>,
                              outside: set<Digest>)
    requires forall q :: q in documents ==> documents[q].digest == q
    requires outside == documents.Keys - children - {target}
    requires forall q, c :: q in outside && c in References(documents[q]) ==> c in outside
    ensures forall p :: p in documents && p != target && p !in children ==> NothingLeadsTo(documents, tags, p, children)
  {
    hide NothingLeadsTo, References;
    assert outside !! children;
    assert forall q, c :: q in outside && c in References(documents[q]) ==> c in outside && c !in children;
    forall p | p in outside
      ensures NothingLeadsTo(documents, tags, p, children)
    {
      NothingLeadsOut(documents, tags, outside, children, p);
    }
  }

  /** A part of the registry that refers only to itself can be fetched like the whole. */
  lemma StillFetchable(documents: map<Digest, Document>, present: map<Digest, Document>, tags: map<Tag, Digest>)
    requires AllFetchable(documents, tags) && Shrinks(documents, present) && Closed(present)
    ensures AllFetchable(present, tags)
  {
    hide IsUnfolding, HeightAtMost, Nodes;
    forall p | p in present
      ensures CanFetch(present, tags, p)
    {
      var tree :| Fetchable(GraphOf(documents, tags), ByDigest(p), tree);
      UnfoldingSurvives(documents, present, tags, p, tree);
      assert Fetchable(GraphOf(present, tags), ByDigest(p), tree);
    }
  }

  /** What is left after a removal can be cleared of a child that it does not refer to. */
  lemma LeftoverPasses(documents: map<Digest, Document>, present: map<Digest, Document>, tags: map<Tag, Digest>,
                       target: Digest, child: Digest)
    requires forall d :: d in documents ==> documents[d].digest == d
    requires AllFetchable(documents, tags) && Shrinks(documents, present)
    requires NoTagAt(present, tags, {child}) && NoSubjectsOrReferrers(present, {child})
    requires forall q, c :: q in present && c in References(present[q]) ==> c in present && c != child
    ensures Clearable(present, tags, target, {child})
  {
    StillFetchable(documents, present, tags);
    hide NoTagAt, NoSubjectsOrReferrers, NothingLeadsTo, AllFetchable;
    forall p | p in present
      ensures NothingLeadsTo(present, tags, p, {child})
    {
      NothingLeadsOut(present, tags, present.Keys, {child}, p);
    }
  }

  /** What the engine has left before child `n` goes refers neither to what is gone nor to that child. */
  lemma GoneIsUnreferenced(documents: map<Digest, Document>, target: Digest, plan: seq<Digest>, n: nat,
                           present: map<Digest, Document>)
    requires 0 < n <= |plan| && InOrder(documents, target, plan, n) && Distinct(plan)
    requires Closed(documents) && !Referenced(documents, target)
    requires forall d :: d in documents ==> d !in References(documents[d])
    requires target !in plan && Elements(plan) <= documents.Keys
    requires present == documents - ({target} + Elements(plan[..n - 1]))
    ensures plan[n - 1] in present
    ensures forall q, c :: q in present && c in References(present[q]) ==> c in present && c != plan[n - 1]
  {
    assert plan[n - 1] in Elements(plan);
    forall q, c | q in present && c in References(present[q])
      ensures c in present && c != plan[n - 1]
    {
      assert c in documents && c != target && c != q;
      forall i | 0 <= i < n
        ensures c != plan[i]
      {
        NotListedYet(documents, target, plan, n, q, i);
      }
      var gone := plan[..n - 1];
      forall d | d in gone
        ensures d != c
      {
        var i :| 0 <= i < |gone| && gone[i] == d;
        assert plan[i] == d;
      }
    }
  }

  lemma InOrderAt(before: map<Digest, Document>, target: Digest, children: seq<Digest>, n: nat, i: nat, p: Digest)
    requires i < n <= |children| && InOrder(before, target, children, n)
    requires p in before && p != target && p !in children[..i + 1]
    ensures children[i] !in References(before[p])
  {
    hide References;
  }

  lemma NotAmongMore(plan: seq<Digest>, n: nat, i: nat, q: Digest)
    requires i < n <= |plan| && q !in plan[..n - 1] && q != plan[i]
    ensures q !in plan[..i + 1]
  {
    var gone, listed := plan[..n - 1], plan[..i + 1];
    forall k | 0 <= k < |listed|
      ensures listed[k] != q
    {
      assert k < i ==> gone[k] == plan[k];
    }
    assert q !in listed;
  }

  /** What is left before child `n` goes lists none of the first `n` children, except for that child itself. */
  lemma NotListedYet(documents: map<Digest, Document>, target: Digest, plan: seq<Digest>, n: nat, q: Digest, i: nat)
    requires i < n <= |plan| && InOrder(documents, target, plan, n)
    requires q in documents && q != target && q !in plan[..n - 1]
    ensures plan[i] in References(documents[q]) ==> q == plan[i]
  {
    hide *;
    if q != plan[i] {
      NotAmongMore(plan, n, i, q);
      InOrderAt(documents, target, plan, n, i, q);
    }
  }

  lemma OneChildPasses(inventory: seq<Manifest>, documents: map<Digest, Document>, tags: map<Tag, Digest>,
                       target: Digest,
                       plan: seq<Digest>, n: nat)
    requires Settled(inventory, documents, tags, target) && plan == DeletionPlan.Plan(inventory, target)
    requires Distinct(plan) && target !in plan && Elements(plan) <= documents.Keys
    requires 0 < n <= |plan| && InOrder(documents, target, plan, n)
    ensures PassableAt(inventory, documents, tags, target, plan, n)
  {
    hide DeletionPlan.Plan, Exact, AllFetchable, Clearable, NoTagAt, NoSubjectsOrReferrers, InOrder, Closed, Referenced, Distinct;
    var present := documents - ({target} + Elements(plan[..n - 1]));
    GoneIsUnreferenced(documents, target, plan, n, present);
    assert plan[n - 1] in Elements(plan);
    PlanIsPlain(inventory, documents, present, tags, target, {plan[n - 1]});
    LeftoverPasses(documents, present, tags, target, plan[n - 1]);
    ClearablePasses(inventory, present, tags, target, {plan[n - 1]});
  }

  lemma TreeOfFetched(graph: Graph, reference: Reference, tree: Metadata)
    requires Fetchable(graph, reference, tree)
    ensures IsUnfolding(graph, reference, tree)
  {
  }

  /** In a covered registry, reviews that all pass mean that the children are in order. */
  lemma PassableIsInOrder(inventory: seq<Manifest>, documents: map<Digest, Document>, tags: map<Tag, Digest>,
                          target: Digest, children: seq<Digest>)
    requires Addressed(documents) && Covers(inventory, documents)
    requires forall n :: 0 < n <= |children| ==> PassableAt(inventory, documents, tags, target, children, n)
    ensures InOrder(documents, target, children, |children|)
  {
    hide ReviewPasses, References;
    forall i, p | 0 <= i < |children| && p in documents && p != target && p !in children[..i + 1]
      ensures children[i] !in References(documents[p])
    {
      var present := documents - ({target} + Elements(children[..i]));
      assert PassableAt(inventory, documents, tags, target, children, i + 1);
      assert children[..i + 1] == children[..i] + [children[i]];
      assert p in present && present[p] == documents[p];
      var m :| m in inventory && RowFor(m, p, documents[p]);
      CoveredIsUnlisted(inventory, present, tags, target, {children[i]}, p, m);
      assert children[i] !in References(present[p]) * {children[i]};
    }
  }

  /**
   In a settled registry every review along the way passes if and only if the plan lists no child
   before an index that still holds it.
   */
  lemma SucceedsExactly(inventory: seq<Manifest>, documents: map<Digest, Document>, tags: map<Tag, Digest>,
                        target: Digest)
    requires Settled(inventory, documents, tags, target)
    ensures var plan := DeletionPlan.Plan(inventory, target);
            InOrder(documents, target, plan, |plan|) <==> Passable(inventory, documents, tags, target, plan)
  {
    var plan := DeletionPlan.Plan(inventory, target);
    WholePlanPasses(inventory, documents, tags, target);
    if InOrder(documents, target, plan, |plan|) {
      forall n | 0 < n <= |plan|
        ensures PassableAt(inventory, documents, tags, target, plan, n)
      {
        InOrderPrefix(documents, target, plan, n);
        NextPasses(inventory, documents, tags, target, n);
      }
    } else if Passable(inventory, documents, tags, target, plan) {
      PassableIsInOrder(inventory, documents, tags, target, plan);
    }
  }

  lemma InOrderPrefix(documents: map<Digest, Document>, target: Digest, children: seq<Digest>, n: nat)
    requires n <= |children| && InOrder(documents, target, children, |children|)
    ensures InOrder(documents, target, children, n)
  {
    hide References;
  }

  /** With the first `n` children in order, the review of child `n` passes. */
  lemma NextPasses(inventory: seq<Manifest>, documents: map<Digest, Document>, tags: map<Tag, Digest>, target: Digest,
                   n: nat)
    requires Settled(inventory, documents, tags, target) && 0 < n <= |DeletionPlan.Plan(inventory, target)|
    requires InOrder(documents, target, DeletionPlan.Plan(inventory, target), n)
    ensures PassableAt(inventory, documents, tags, target, DeletionPlan.Plan(inventory, target), n)
  {
    DeletionPlan.PlanIsGreatest(inventory, target);
    hide Settled, DeletionPlan.Plan, InOrder, Distinct, PassableAt, ReviewPasses, DeletionPlan.SelfContained;
    PlanIsPresent(inventory, documents, tags, target);
    OneChildPasses(inventory, documents, tags, target, DeletionPlan.Plan(inventory, target), n);
  }

  /** A run in a settled registry stops only at a child that something left still lists. */
  lemma StopsOutOfOrder(inventory: seq<Manifest>, documents: map<Digest, Document>, tags: map<Tag, Digest>,
                        target: Digest, n: nat)
    requires Settled(inventory, documents, tags, target)
    requires Stopped(inventory, documents, tags, target, DeletionPlan.Plan(inventory, target), n)
    ensures 0 < n <= |DeletionPlan.Plan(inventory, target)|
    ensures !InOrder(documents, target, DeletionPlan.Plan(inventory, target), n)
  {
    WholePlanPasses(inventory, documents, tags, target);
    hide DeletionPlan.Plan, InOrder, PassableAt, ReviewPasses, Exact, AllFetchable, Closed, Referenced;
    if n > 0 && InOrder(documents, target, DeletionPlan.Plan(inventory, target), n) {
      NextPasses(inventory, documents, tags, target, n);
    }
  }

  /**
   Deleting in a settled, reliable registry: success is exactly the order condition. A run that
   stops has deleted the target and the plan up to, but not including, the first child out of order.
   */
  method DeleteSettled(registry: Distribution, target: Digest, inventory: seq<Manifest>)
    returns (deleted: seq<Digest>, ok: bool)
    requires registry.Valid() && registry.Reliable()
    requires Settled(inventory, registry.documents, registry.tags, target)
    modifies registry
    ensures ok <==> InOrder(old(registry.documents), target, DeletionPlan.Plan(inventory, target),
                            |DeletionPlan.Plan(inventory, target)|)
    ensures registry.documents == old(registry.documents) - Elements(deleted)
    ensures 0 < |deleted| <= 1 + |DeletionPlan.Plan(inventory, target)|
    ensures deleted == [target] + DeletionPlan.Plan(inventory, target)[..|deleted| - 1]
    ensures ok ==> deleted == [target] + DeletionPlan.Plan(inventory, target)
    ensures !ok ==>
              && 0 < |deleted| <= |DeletionPlan.Plan(inventory, target)|
              && InOrder(old(registry.documents), target, DeletionPlan.Plan(inventory, target), |deleted| - 1)
              && !InOrder(old(registry.documents), target, DeletionPlan.Plan(inventory, target), |deleted|)
  {
    ghost var before, tags := registry.documents, registry.tags;
    assert Covers(inventory, before);
    hide DeletionPlan.Plan, Settled, InOrder, Passable, Stopped, Safe, Cleared, Covers, Traced, Accounted, Distinct;
    SucceedsExactly(inventory, before, tags, target);
    var children := DeletionPlan.DeletionChildDigests(target, inventory);
    deleted, ok := DeleteManifestTree(registry, target, children, inventory);
    if !ok {
      StopsOutOfOrder(inventory, before, tags, target, |deleted|);
      if InOrder(before, target, children, |children|) {
        assert false;
      }
    }
    PrefixOfPlan(target, children, deleted);
  }

  lemma PrefixOfPlan(target: Digest, children: seq<Digest>, deleted: seq<Digest>)
    requires deleted != [] && deleted <= [target] + children
    ensures deleted == [target] + children[..|deleted| - 1]
  {
  }

  lemma NextInOrder(before: map<Digest, Document>, target: Digest, children: seq<Digest>, index: nat,
                    deleted: seq<Digest>)
    requires 0 < index <= |children| && deleted == ([target] + children)[..index]
    ensures InOrder(before, target, children, index - 1) &&
            (forall p :: p in before && p !in deleted && p != children[index - 1] ==>
                           children[index - 1] !in References(before[p])) ==>
              InOrder(before, target, children, index)
  {
    assert deleted == [target] + children[..index - 1];
    assert children[..index] == children[..index - 1] + [children[index - 1]];
  }

  // ----- a plan whose order is too early

  predicate Lists(document: Document, digest: Digest, entries: seq<Digest>) {
    && document.digest == digest && document.subject == NoDigest && !document.config.Unreadable?
    && |document.manifests| == |entries| && forall i | 0 <= i < |entries| :: document.manifests[i].digest == entries[i]
  }

  predicate PlainRow(row: Manifest, digest: Digest, entries: seq<Digest>) {
    row.digest == digest && row.platforms == entries && row.subject == NoDigest && Live(row)
  }

  /** A tagged index 1 that lists 2 and the index 3, which lists 2 as well. */
  predicate SharedRows(rows: seq<Manifest>) {
    && |rows| == 3 && PlainRow(rows[0], 1, [2, 3]) && PlainRow(rows[1], 2, [2]) && PlainRow(rows[2], 3, [2])
    && rows[1].tags == [] && rows[2].tags == [] && rows[0].tags != []
  }

  predicate SharedDocuments(documents: map<Digest, Document>) {
    && documents.Keys == {1, 2, 3}
    && Lists(documents[1], 1, [2, 3]) && Lists(documents[2], 2, []) && Lists(documents[3], 3, [2])
  }

  lemma SharedChildren(rows: seq<Manifest>)
    requires SharedRows(rows)
    ensures DeletionPlan.Children(rows, 1) == [2, 3] && DeletionPlan.Children(rows, 2) == [2]
    ensures DeletionPlan.Children(rows, 3) == [2]
    ensures forall d :: Find(rows, d) ==
                        if d == 1 then Some(rows[0])
                        else if d == 2 then Some(rows[1])
                        else if d == 3 then Some(rows[2])
                        else None
  {
    hide Live;
    assert rows[..2][..1] == [rows[0]] && rows[..1][..0] == [];
  }

  lemma SharedOrder(rows: seq<Manifest>)
    requires SharedRows(rows)
    ensures DeletionPlan.BfsOrder(rows, 1) == [1, 2, 3]
  {
    SharedChildren(rows);
    var universe := DeletionPlan.Universe(rows, 1);
    assert rows[0] in rows && 2 in rows[0].platforms && 3 in rows[0].platforms;
    assert 2 in universe && 3 in universe;
    hide SharedRows, DeletionPlan.Children, DeletionPlan.Universe;
    assert [2, 3][..1] == [2] && [2][..0] == [];
    assert DeletionPlan.AppendNew([1], 1, []) == [1];
    assert DeletionPlan.AppendNew([1], 1, [2]) == [1, 2];
    assert DeletionPlan.AppendNew([1], 1, [2, 3]) == [1, 2, 3];
    assert DeletionPlan.AppendNew([1, 2, 3], 3, []) == [1, 2, 3];
    assert DeletionPlan.AppendNew([1, 2, 3], 3, [2]) == [1, 2, 3];
    assert DeletionPlan.AppendNew([1, 2, 3], 2, []) == [1, 2, 3];
    assert DeletionPlan.AppendNew([1, 2, 3], 2, [2]) == [1, 2, 3];
    assert DeletionPlan.BfsFrom(rows, 1, [1, 2, 3], 3) == [1, 2, 3];
    assert DeletionPlan.BfsFrom(rows, 1, [1, 2, 3], 2) == [1, 2, 3];
    assert DeletionPlan.BfsFrom(rows, 1, [1, 2, 3], 1) == [1, 2, 3];
  }

  lemma SharedIsSelfContained(rows: seq<Manifest>)
    requires SharedRows(rows)
    ensures DeletionPlan.SelfContained(rows, 1, {2, 3})
  {
    SharedOrder(rows);
    SharedChildren(rows);
    DeletionPlan.BfsIsReachability(rows, 1);
    hide DeletionPlan.BfsOrder, DeletionPlan.Reachable;
    assert forall m :: m in rows ==> m == rows[0] || m == rows[1] || m == rows[2];
  }

  lemma SelectedPair(chosen: set<Digest>)
    requires {2, 3} <= chosen
    ensures DeletionPlan.Selected([2, 3], chosen) == [2, 3]
  {
    assert [2, 3][..1] == [2] && [2][..0] == [];
    assert DeletionPlan.Selected([], chosen) == [];
    assert DeletionPlan.Selected([2], chosen) == [2];
  }

  lemma SharedPlan(rows: seq<Manifest>)
    requires SharedRows(rows)
    ensures DeletionPlan.Plan(rows, 1) == [2, 3]
  {
    hide SharedRows, DeletionPlan.BfsOrder, DeletionPlan.LargestSelfContained, DeletionPlan.SelfContained, DeletionPlan.Selected;
    SharedOrder(rows);
    SharedIsSelfContained(rows);
    DeletionPlan.LargestIsGreatest(rows, 1);
    SelectedPair(DeletionPlan.LargestSelfContained(rows, 1));
    assert [1, 2, 3][1..] == [2, 3];
  }

  lemma LeafTree(graph: Graph, digest: Digest, height: nat)
    requires ByDigest(digest) in graph && Lists(graph[ByDigest(digest)], digest, [])
    ensures var tree := Node(graph[ByDigest(digest)], []);
            IsUnfolding(graph, ByDigest(digest), tree) && Nodes(tree) == 1 && HeightAtMost(tree, height)
  {
  }

  lemma SharedTrees(documents: map<Digest, Document>, tags: map<Tag, Digest>)
    requires SharedDocuments(documents)
    ensures AllFetchable(documents, tags)
  {
    var graph := GraphOf(documents, tags);
    var leaf := Node(documents[2], []);
    var inner := Node(documents[3], [leaf]);
    var outer := Node(documents[1], [leaf, inner]);
    LeafTree(graph, 2, 31);
    LeafTree(graph, 2, 32);
    hide NodePlatforms;
    assert ForestNodes([]) == 0 && [leaf][..0] == [] && [leaf, inner][..1] == [leaf];
    assert ForestNodes([leaf]) == 1 && Nodes(inner) == 2 && ForestNodes([leaf, inner]) == 3 && Nodes(outer) == 4;
    assert HeightAtMost(leaf, 30) by {
      LeafTree(graph, 2, 30);
    }
    assert HeightAtMost(inner, 31) && HeightAtMost(inner, 32) && HeightAtMost(outer, 32);
    assert IsUnfolding(graph, ByDigest(3), inner);
    assert IsUnfolding(graph, ByDigest(1), outer);
    hide *;
    assert Fetchable(graph, ByDigest(2), leaf) && Fetchable(graph, ByDigest(3), inner) && Fetchable(graph, ByDigest(1), outer);
  }

  lemma SharedReferences(documents: map<Digest, Document>)
    requires SharedDocuments(documents)
    ensures References(documents[1]) == {2, 3} && References(documents[2]) == {} && References(documents[3]) == {2}
  {
    assert documents[1].manifests[0].digest == 2 && documents[1].manifests[1].digest == 3;
    assert documents[3].manifests[0].digest == 2;
  }

  lemma SharedIsExact(rows: seq<Manifest>, documents: map<Digest, Document>, tags: map<Tag, Digest>)
    requires SharedRows(rows) && SharedDocuments(documents) && forall t :: t in tags ==> tags[t] == 1
    ensures Exact(rows, documents, tags)
  {
    SharedReferences(documents);
    hide References;
    assert rows[0].platforms[0] == 2 && rows[0].platforms[1] == 3 && rows[2].platforms[0] == 2;
    assert RowFor(rows[0], 1, documents[1]) && RowFor(rows[1], 2, documents[2]) && RowFor(rows[2], 3, documents[3]);
    assert rows[0] in rows && rows[1] in rows && rows[2] in rows;
  }

  lemma SharedTooEarly(documents: map<Digest, Document>)
    requires documents.Keys == {1, 2, 3}
    requires References(documents[1]) == {2, 3} && References(documents[2]) == {} && References(documents[3]) == {2}
    ensures !InOrder(documents, 1, [2, 3], 1) && !InOrder(documents, 1, [2, 3], 2) && InOrder(documents, 1, [3, 2], 2)
    ensures Closed(documents) && !Referenced(documents, 1)
  {
    hide References;
    var early, late := [2, 3], [3, 2];
    assert early[..1] == [2] && late[..1] == [3] && late[..2] == late;
    assert early[0] in References(documents[3]) && 3 !in early[..0 + 1];
    forall i, p | 0 <= i < 2 && p in documents && p != 1 && p !in late[..i + 1]
      ensures late[i] !in References(documents[p])
    {
      assert i == 0 ==> p == 2;
    }
  }

  lemma SharedIsSettled(rows: seq<Manifest>, documents: map<Digest, Document>, tags: map<Tag, Digest>)
    requires SharedRows(rows) && SharedDocuments(documents) && forall t :: t in tags ==> tags[t] == 1
    ensures Settled(rows, documents, tags, 1)
  {
    hide AllFetchable, Exact, References, SharedRows, Closed, Referenced, InOrder;
    SharedTrees(documents, tags);
    SharedReferences(documents);
    SharedIsExact(rows, documents, tags);
    SharedTooEarly(documents);
  }

  /**
   Breadth-first order can list a shared child before an index that still holds it. In such a
   settled registry the run deletes the target and then stops, although no request fails; the
   opposite order would have gone through.
   */
  lemma SharedChildTooEarly(rows: seq<Manifest>, documents: map<Digest, Document>, tags: map<Tag, Digest>)
    requires SharedRows(rows) && SharedDocuments(documents) && forall t :: t in tags ==> tags[t] == 1
    ensures Settled(rows, documents, tags, 1)
    ensures DeletionPlan.Plan(rows, 1) == [2, 3]
    ensures !InOrder(documents, 1, [2, 3], 1) && !InOrder(documents, 1, [2, 3], 2) && InOrder(documents, 1, [3, 2], 2)
  {
    assert documents.Keys == {1, 2, 3};
    SharedIsSettled(rows, documents, tags);
    hide *;
    SharedPlan(rows);
    SharedReferences(documents);
    SharedTooEarly(documents);
  }

  /** The run itself: the target goes, both children stay, and the caller is told of a failure. */
  method DeleteShared(registry: Distribution, rows: seq<Manifest>) returns (deleted: seq<Digest>, ok: bool)
    requires registry.Valid() && registry.Reliable()
    requires SharedRows(rows) && SharedDocuments(registry.documents)
    requires forall t :: t in registry.tags ==> registry.tags[t] == 1
    modifies registry
    ensures !ok && deleted == [1] && registry.documents == old(registry.documents) - {1}
  {
    ghost var before := registry.documents;
    SharedChildTooEarly(rows, before, registry.tags);
    hide *;
    deleted, ok := DeleteSettled(registry, 1, rows);
    StopsAtFirst(before, 1, [2, 3], |deleted| - 1);
    OnlyTarget(1, [2, 3], deleted);
  }

  lemma StopsAtFirst(documents: map<Digest, Document>, target: Digest, children: seq<Digest>, n: nat)
    requires n <= |children| && InOrder(documents, target, children, n) && !InOrder(documents, target, children, 1)
    ensures n == 0
  {
    hide References;
  }

  lemma OnlyTarget(target: Digest, children: seq<Digest>, deleted: seq<Digest>)
    requires |deleted| == 1 && deleted == [target] + children[..0]
    ensures deleted == [target] && Elements(deleted) == {target}
  {
  }
}
