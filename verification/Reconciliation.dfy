/**
 Reconciling the inventory with the registry (`Reconcile`): every live tag, every known digest
 that is still there, everything below them and every referrer is observed, then recorded in
 one transaction.
 */
module Reconciliation {
  import opened Foundation
  import opened ManifestGraph
  import opened Registry
  import opened Inventory
  import opened InventoryStore
  import DeletionTree

  const MissingManifestProbeInterval := 3600

  // ----- what is to be seen

  /** One step the reconciliation follows: to an index entry, or to a referrer. */
  ghost predicate Step(documents: map<Digest, Document>, from: Digest, to: Digest) {
    && from in documents && to in documents
    && (to in References(documents[from]) || documents[to].subject == from)
  }

  ghost predicate IsTrail(documents: map<Digest, Document>, seeds: set<Digest>, trail: seq<Digest>) {
    trail != [] &&
    if |trail| == 1 then trail[0] in seeds && trail[0] in documents
    else
      IsTrail(documents, seeds, trail[..|trail| - 1]) && Step(documents, trail[|trail| - 2], trail[|trail| - 1])
  }

  /** `digest` is a seed, or is found from one through entries and referrers. */
  ghost predicate Found(documents: map<Digest, Document>, seeds: set<Digest>, digest: Digest) {
    exists trail :: IsTrail(documents, seeds, trail) && trail[|trail| - 1] == digest
  }

  lemma SeedIsFound(documents: map<Digest, Document>, seeds: set<Digest>, digest: Digest)
    requires digest in seeds && digest in documents
    ensures Found(documents, seeds, digest)
  {
    assert IsTrail(documents, seeds, [digest]);
  }

  lemma StepIsFound(documents: map<Digest, Document>, seeds: set<Digest>, from: Digest, to: Digest)
    requires Found(documents, seeds, from) && Step(documents, from, to)
    ensures Found(documents, seeds, to)
  {
    var trail :| IsTrail(documents, seeds, trail) && trail[|trail| - 1] == from;
    assert (trail + [to])[..|trail|] == trail;
    assert IsTrail(documents, seeds, trail + [to]);
  }

  /** Whatever contains the seeds and is closed under the steps contains everything found. */
  lemma {:induction false} FoundIsLeast(documents: map<Digest, Document>, seeds: set<Digest>, trail: seq<Digest>,
                                        closed: set<Digest>)
    requires IsTrail(documents, seeds, trail) && seeds * documents.Keys <= closed
    requires forall a, b :: a in closed && Step(documents, a, b) ==> b in closed
    ensures trail[|trail| - 1] in closed
    decreases |trail|
  {
    if |trail| > 1 {
      FoundIsLeast(documents, seeds, trail[..|trail| - 1], closed);
    }
  }

  // ----- one metadata tree

  function ObservationOf(metadata: Metadata, tag: Option<Tag>): Observation {
    Observation(metadata.digest, metadata.subject,
                seq(|metadata.platforms|, i requires 0 <= i < |metadata.platforms| => metadata.platforms[i].digest),
                tag, None)
  }

  /** The observations of a tree, parent first; only the root carries the tag. */
  function CollectMetadataTree(metadata: Metadata, tag: Option<Tag>): Result<seq<Observation>>
    decreases metadata, 1
  {
    if metadata.digest == NoDigest then Err
    else
      var below := CollectForest(metadata.children);
      if below.Err? then Err else Ok([ObservationOf(metadata, tag)] + below.value)
  }

  function CollectForest(trees: seq<Metadata>): Result<seq<Observation>>
    decreases trees, 0
  {
    if trees == [] then Ok([])
    else
      var front := CollectForest(trees[..|trees| - 1]);
      var last := CollectMetadataTree(trees[|trees| - 1], None);
      if front.Err? || last.Err? then Err else Ok(front.value + last.value)
  }

  ghost predicate Observed(observations: seq<Observation>, digest: Digest) {
    exists i :: 0 <= i < |observations| && observations[i].digest == digest
  }

  /** The observations of a tree: its root first, all present, closed under entries, untagged below the root. */
  ghost predicate CoversTree(documents: map<Digest, Document>, seeds: set<Digest>, root: Digest, tag: Option<Tag>,
                             observations: seq<Observation>) {
    && observations != [] && observations[0].digest == root && observations[0].tag == tag
    && CoversForest(documents, seeds, observations)
    && forall i :: 0 < i < |observations| ==> observations[i].tag.None?
  }

  /** The observation says what the manifest says: its subject and all of its entries. */
  ghost predicate Agrees(observation: Observation, document: Document) {
    observation.pushedAt.None? && observation.subject == document.subject && References(document) <= Elements(observation.platforms)
  }

  ghost predicate CoversForest(documents: map<Digest, Document>, seeds: set<Digest>, observations: seq<Observation>) {
    forall i :: 0 <= i < |observations| ==>
                  && Found(documents, seeds, observations[i].digest)
                  && observations[i].digest in documents
                  && Agrees(observations[i], documents[observations[i].digest])
                  && forall c :: c in References(documents[observations[i].digest]) ==> Observed(observations, c)
  }

  lemma CoversConcat(documents: map<Digest, Document>, seeds: set<Digest>, left: seq<Observation>,
                     right: seq<Observation>)
    requires CoversForest(documents, seeds, left) && CoversForest(documents, seeds, right)
    ensures CoversForest(documents, seeds, left + right)
  {
    var both := left + right;
    forall d | Observed(left, d) || Observed(right, d)
      ensures Observed(both, d)
    {
      if Observed(left, d) {
        var i :| 0 <= i < |left| && left[i].digest == d;
        assert both[i].digest == d;
      } else {
        var i :| 0 <= i < |right| && right[i].digest == d;
        assert both[|left| + i].digest == d;
      }
    }
  }

  lemma UnfoldingOf(documents: map<Digest, Document>, tags: map<Tag, Digest>, reference: Reference, tree: Metadata)
    requires IsUnfolding(GraphOf(documents, tags), reference, tree)
    ensures Resolve(documents, tags, reference).Some? && Resolve(documents, tags, reference).value in documents
    ensures var document := documents[Resolve(documents, tags, reference).value];
            && tree.digest == document.digest && tree.subject == document.subject
            && |tree.children| == |document.manifests|
            && forall i :: 0 <= i < |tree.children| ==>
                             IsUnfolding(GraphOf(documents, tags), ByDigest(document.manifests[i].digest), tree.children[i])
    ensures forall tag :: Agrees(ObservationOf(tree, tag), documents[Resolve(documents, tags, reference).value])
  {
    var document := documents[Resolve(documents, tags, reference).value];
    assert forall tag :: ObservationOf(tree, tag).pushedAt.None?;
    forall tag, c | c in References(document)
      ensures c in ObservationOf(tree, tag).platforms
    {
      var i :| 0 <= i < |document.manifests| && document.manifests[i].digest == c;
      assert tree.platforms[i].digest == c;
      assert ObservationOf(tree, tag).platforms[i] == c;
    }
  }

  lemma RootOnTop(documents: map<Digest, Document>, seeds: set<Digest>, root: Digest, tag: Option<Tag>,
                  top: Observation, below: seq<Observation>)
    requires root in documents && Found(documents, seeds, root) && top.digest == root && top.tag == tag
    requires Agrees(top, documents[root])
    requires CoversForest(documents, seeds, below) && forall i :: 0 <= i < |below| ==> below[i].tag.None?
    requires forall c :: c in References(documents[root]) ==> Observed(below, c)
    ensures CoversTree(documents, seeds, root, tag, [top] + below)
  {
    var all := [top] + below;
    assert forall i :: 0 <= i < |below| ==> all[i + 1] == below[i];
    forall d | Observed(below, d)
      ensures Observed(all, d)
    {
      var i :| 0 <= i < |below| && below[i].digest == d;
      assert all[i + 1].digest == d;
    }
  }

  lemma {:induction false} TreeIsCovered(documents: map<Digest, Document>, tags: map<Tag, Digest>, seeds: set<Digest>,
                                         reference: Reference, tree: Metadata, tag: Option<Tag>)
    requires forall d :: d in documents ==> documents[d].digest == d
    requires IsUnfolding(GraphOf(documents, tags), reference, tree)
    requires Found(documents, seeds, Resolve(documents, tags, reference).value)
    requires CollectMetadataTree(tree, tag).Ok?
    ensures CoversTree(documents, seeds, Resolve(documents, tags, reference).value, tag, CollectMetadataTree(tree, tag).value)
    decreases tree, 1, 0
  {
    var root := Resolve(documents, tags, reference).value;
    var document := documents[root];
    UnfoldingOf(documents, tags, reference, tree);
    hide IsUnfolding, CoversForest, Found, GraphOf, IsTrail;
    assert CollectForest(tree.children).Ok?;
    var below := CollectForest(tree.children).value;
    assert tree.children[..|tree.children|] == tree.children;
    ForestIsCovered(documents, tags, seeds, document, tree.children, |tree.children|);
    forall c | c in References(document)
      ensures Observed(below, c)
    {
      var i :| 0 <= i < |document.manifests| && document.manifests[i].digest == c;
    }
    RootOnTop(documents, seeds, root, tag, ObservationOf(tree, tag), below);
  }

  lemma {:induction false} ForestIsCovered(documents: map<Digest, Document>, tags: map<Tag, Digest>, seeds: set<Digest>,
                                           document: Document, trees: seq<Metadata>, n: nat)
    requires forall d :: d in documents ==> documents[d].digest == d
    requires document.digest in documents && documents[document.digest] == document
    requires Found(documents, seeds, document.digest)
    requires n <= |trees| == |document.manifests|
    requires forall i :: 0 <= i < n ==>
                           IsUnfolding(GraphOf(documents, tags), ByDigest(document.manifests[i].digest), trees[i])
    requires CollectForest(trees[..n]).Ok?
    ensures CoversForest(documents, seeds, CollectForest(trees[..n]).value)
    ensures forall i :: 0 <= i < n ==> Observed(CollectForest(trees[..n]).value, document.manifests[i].digest)
    ensures forall i :: 0 <= i < |CollectForest(trees[..n]).value| ==> CollectForest(trees[..n]).value[i].tag.None?
    decreases trees, 0, n
  {
    if n > 0 {
      var child := document.manifests[n - 1].digest;
      assert trees[..n][..n - 1] == trees[..n - 1];
      assert trees[..n][n - 1] == trees[n - 1];
      ForestIsCovered(documents, tags, seeds, document, trees, n - 1);
      assert child in References(document);
      StepIsFound(documents, seeds, document.digest, child);
      TreeIsCovered(documents, tags, seeds, ByDigest(child), trees[n - 1], None);
      var front := CollectForest(trees[..n - 1]).value;
      var last := CollectMetadataTree(trees[n - 1], None).value;
      assert CollectForest(trees[..n]).value == front + last;
      hide *;
      ForestGrows(documents, seeds, document, front, last, n);
    }
  }

  lemma ForestGrows(documents: map<Digest, Document>, seeds: set<Digest>, document: Document,
                    front: seq<Observation>, last: seq<Observation>, n: nat)
    requires 0 < n <= |document.manifests|
    requires CoversForest(documents, seeds, front) && forall i :: 0 <= i < |front| ==> front[i].tag.None?
    requires forall i :: 0 <= i < n - 1 ==> Observed(front, document.manifests[i].digest)
    requires CoversTree(documents, seeds, document.manifests[n - 1].digest, None, last)
    ensures CoversForest(documents, seeds, front + last)
    ensures forall i :: 0 <= i < n ==> Observed(front + last, document.manifests[i].digest)
    ensures forall i :: 0 <= i < |front + last| ==> (front + last)[i].tag.None?
  {
    hide CoversForest, Observed;
    CoversConcat(documents, seeds, front, last);
    ForestObserves(document, front, last, n);
  }

  lemma ForestObserves(document: Document, front: seq<Observation>, last: seq<Observation>, n: nat)
    requires 0 < n <= |document.manifests| && last != [] && last[0].digest == document.manifests[n - 1].digest
    requires forall i :: 0 <= i < n - 1 ==> Observed(front, document.manifests[i].digest)
    ensures forall i :: 0 <= i < n ==> Observed(front + last, document.manifests[i].digest)
  {
    forall i | 0 <= i < n
      ensures Observed(front + last, document.manifests[i].digest)
    {
      if i < n - 1 {
        var k :| 0 <= k < |front| && front[k].digest == document.manifests[i].digest;
        assert (front + last)[k].digest == document.manifests[i].digest;
      } else {
        assert (front + last)[|front|].digest == document.manifests[i].digest;
      }
    }
  }

  // ----- the worklist

  datatype Worklist = Worklist(seen: seq<Digest>, digests: set<Digest>, observations: seq<Observation>)

  const Empty := Worklist([], {}, [])

  ghost predicate Sound(documents: map<Digest, Document>, seeds: set<Digest>, work: Worklist) {
    && Distinct(work.seen)
    && work.digests == Elements(work.seen)
    && work.digests <= documents.Keys
    && CoversForest(documents, seeds, work.observations)
    && forall d :: d in work.digests <==> Observed(work.observations, d)
  }

  /** The tagged observations name live tags and what they resolve to, and the tags listed so far are covered. */
  ghost predicate TagsCovered(documents: map<Digest, Document>, tags: map<Tag, Digest>, listed: seq<Tag>,
                              observations: seq<Observation>) {
    && (forall i :: 0 <= i < |observations| && observations[i].tag.Some? ==>
                      var tag := observations[i].tag.value;
                      tag in tags && tags[tag] in documents && observations[i].digest == tags[tag])
    && forall t :: t in listed ==> exists i :: 0 <= i < |observations| && observations[i].tag == Some(t)
  }

  lemma SoundHolds(documents: map<Digest, Document>, seeds: set<Digest>, work: Worklist)
    requires Sound(documents, seeds, work)
    ensures forall d :: d in work.digests ==> Found(documents, seeds, d) && d in documents
    ensures forall d, c :: d in work.digests && c in References(documents[d]) ==> c in work.digests
    ensures |work.seen| <= |documents|
    ensures forall i :: 0 <= i < |work.observations| ==>
                          && work.observations[i].digest in documents
                          && Agrees(work.observations[i], documents[work.observations[i].digest])
    ensures forall i :: 0 <= i < |work.observations| ==> work.observations[i].digest in work.digests
  {
    forall i | 0 <= i < |work.observations|
      ensures work.observations[i].digest in work.digests
    {
      assert Observed(work.observations, work.observations[i].digest);
    }
    DistinctBound(work.seen, documents.Keys);
    forall d | d in work.digests
      ensures Found(documents, seeds, d) && forall c :: c in References(documents[d]) ==> c in work.digests
    {
      var i :| 0 <= i < |work.observations| && work.observations[i].digest == d;
    }
  }

  lemma ObservedConcat(left: seq<Observation>, right: seq<Observation>, d: Digest)
    ensures Observed(left + right, d) <==> Observed(left, d) || Observed(right, d)
  {
    var both := left + right;
    if Observed(left, d) {
      var i :| 0 <= i < |left| && left[i].digest == d;
      assert both[i].digest == d;
    } else if Observed(right, d) {
      var i :| 0 <= i < |right| && right[i].digest == d;
      assert both[|left| + i].digest == d;
    }
  }

  lemma TagsCoveredConcat(documents: map<Digest, Document>, tags: map<Tag, Digest>, listed: seq<Tag>,
                          observations: seq<Observation>, seeds: set<Digest>, root: Digest, tag: Option<Tag>,
                          more: seq<Observation>)
    requires TagsCovered(documents, tags, listed, observations) && CoversTree(documents, seeds, root, tag, more)
    requires tag.Some? ==> tag.value in tags && tags[tag.value] == root
    ensures TagsCovered(documents, tags, listed + (if tag.Some? then [tag.value] else []), observations + more)
  {
    var all := observations + more;
    forall t | t in listed + (if tag.Some? then [tag.value] else [])
      ensures exists i :: 0 <= i < |all| && all[i].tag == Some(t)
    {
      if t in listed {
        var i :| 0 <= i < |observations| && observations[i].tag == Some(t);
        assert all[i].tag == Some(t);
      } else {
        assert all[|observations|].tag == Some(t);
      }
    }
  }

  /** Adds the observations of one tree and the digests that were not seen before. */
  method AddTree(ghost documents: map<Digest, Document>, ghost seeds: set<Digest>, ghost root: Digest,
                 ghost tag: Option<Tag>,
                 work: Worklist, more: seq<Observation>)
    returns (grown: Worklist)
    requires Sound(documents, seeds, work) && CoversTree(documents, seeds, root, tag, more)
    ensures Sound(documents, seeds, grown) && work.seen <= grown.seen && root in grown.digests
    ensures grown.observations == work.observations + more
  {
    var seen, digests := work.seen, work.digests;
    for i := 0 to |more|
      invariant Distinct(seen) && digests == Elements(seen) && digests <= documents.Keys && work.seen <= seen
      invariant forall d :: d in digests <==> d in work.digests || Observed(more[..i], d)
    {
      assert more[..i + 1] == more[..i] + [more[i]];
      forall d
        ensures Observed(more[..i + 1], d) <==> Observed(more[..i], d) || d == more[i].digest
      {
        ObservedConcat(more[..i], [more[i]], d);
        assert Observed([more[i]], d) <==> [more[i]][0].digest == d;
      }
      if more[i].digest !in digests {
        digests := digests + {more[i].digest};
        seen := seen + [more[i].digest];
      }
    }
    assert more[..|more|] == more;
    grown := Worklist(seen, digests, work.observations + more);
    CoversConcat(documents, seeds, work.observations, more);
    forall d
      ensures Observed(grown.observations, d) <==> d in digests
    {
      ObservedConcat(work.observations, more, d);
    }
    assert more[0].digest == root;
    assert Observed(more, root);
  }

  // ----- the service

  predicate ProbeDue(probes: map<Digest, int>, digest: Digest, now: int) {
    !(digest in probes && now - probes[digest] < MissingManifestProbeInterval)
  }

  /** A known row the reconciliation asks the registry about: missing ones only when a probe is due. */
  predicate WillProbe(manifest: Manifest, probes: map<Digest, int>, now: int) {
    !manifest.state.Deleted? && (manifest.state.Missing? ==> ProbeDue(probes, manifest.digest, now))
  }

  /** Where a reconciliation starts: what live tags name, and the probed known digests that are there. */
  ghost function Seeds(documents: map<Digest, Document>, tags: map<Tag, Digest>, known: seq<Manifest>,
                       probes: map<Digest, int>, now: int): set<Digest> {
    (set t | t in tags && tags[t] in documents :: tags[t]) +
    (set m | m in known && m.digest in documents && WillProbe(m, probes, now) :: m.digest)
  }

  predicate SameProbe(before: map<Digest, int>, after: map<Digest, int>, d: Digest) {
    (d in after <==> d in before) && (d in after ==> after[d] == before[d])
  }

  class InventoryService {
    var missingProbes: map<Digest, int>

    method ShouldProbeMissing(digest: Digest, now: int) returns (due: bool)
      modifies this
      ensures due == ProbeDue(old(missingProbes), digest, now)
      ensures missingProbes == if due then old(missingProbes)[digest := now] else old(missingProbes)
    {
      if digest in missingProbes && now - missingProbes[digest] < MissingManifestProbeInterval {
        return false;
      }
      missingProbes := missingProbes[digest := now];
      due := true;
    }

    method ClearMissingProbe(digest: Digest)
      modifies this
      ensures missingProbes == old(missingProbes) - {digest}
    {
      missingProbes := missingProbes - {digest};
    }

    method ClearMissingProbes(digests: seq<Observation>)
      modifies this
      ensures forall d :: !Observed(digests, d) ==> SameProbe(old(missingProbes), missingProbes, d)
      ensures forall d :: Observed(digests, d) ==> d !in missingProbes
      ensures missingProbes.Keys <= old(missingProbes).Keys
    {
      for i := 0 to |digests|
        invariant forall d :: !Observed(digests, d) ==> SameProbe(old(missingProbes), missingProbes, d)
        invariant missingProbes.Keys <= old(missingProbes).Keys
        invariant forall k :: 0 <= k < i ==> digests[k].digest !in missingProbes
      {
        assert Observed(digests, digests[i].digest);
        ClearMissingProbe(digests[i].digest);
      }
    }
  }

  /** Every manifest the reconciliation meets can be fetched. */
  ghost predicate AllFoundFetchable(documents: map<Digest, Document>, tags: map<Tag, Digest>, seeds: set<Digest>) {
    NoDigest !in documents && forall d :: Found(documents, seeds, d) ==> CanFetch(documents, tags, d)
  }

  /** Collecting the tree of stored manifests does not fail. */
  lemma {:induction false} StoredTreeIsCollected(documents: map<Digest, Document>, tags: map<Tag, Digest>,
                                                 reference: Reference, tree: Metadata, tag: Option<Tag>)
    requires Addressed(documents) && NoDigest !in documents
    requires IsUnfolding(GraphOf(documents, tags), reference, tree)
    ensures CollectMetadataTree(tree, tag).Ok?
    decreases tree, 1, 0
  {
    UnfoldingOf(documents, tags, reference, tree);
    StoredForestIsCollected(documents, tags, documents[Resolve(documents, tags, reference).value], tree.children,
                            |tree.children|);
    assert tree.children[..|tree.children|] == tree.children;
  }

  lemma {:induction false} StoredForestIsCollected(documents: map<Digest, Document>, tags: map<Tag, Digest>,
                                                   document: Document, trees: seq<Metadata>, n: nat)
    requires Addressed(documents) && NoDigest !in documents && n <= |trees| == |document.manifests|
    requires forall i :: 0 <= i < n ==>
                           IsUnfolding(GraphOf(documents, tags), ByDigest(document.manifests[i].digest), trees[i])
    ensures CollectForest(trees[..n]).Ok?
    decreases trees, 0, n
  {
    if n > 0 {
      hide IsUnfolding, GraphOf;
      StoredForestIsCollected(documents, tags, document, trees, n - 1);
      StoredTreeIsCollected(documents, tags, ByDigest(document.manifests[n - 1].digest), trees[n - 1], None);
      assert trees[..n][..n - 1] == trees[..n - 1] && trees[..n][n - 1] == trees[n - 1];
    }
  }

  lemma TreeOfFetchable(graph: Graph, reference: Reference, tree: Metadata)
    requires Fetchable(graph, reference, tree)
    ensures IsUnfolding(graph, reference, tree)
  {
  }

  /** Fetches one reference and adds its tree. */
  method ObserveReference(registry: Distribution, ghost seeds: set<Digest>, reference: Reference, tag: Option<Tag>,
                          work: Worklist)
    returns (ok: bool, grown: Worklist, more: seq<Observation>)
    requires registry.Valid() && Sound(registry.documents, seeds, work)
    requires var root := Resolve(registry.documents, registry.tags, reference);
             root.Some? ==> Found(registry.documents, seeds, root.value)
    modifies registry`calls
    ensures ok ==>
              && Resolve(registry.documents, registry.tags, reference).Some?
              && CoversTree(registry.documents, seeds, Resolve(registry.documents, registry.tags, reference).value, tag, more)
              && Sound(registry.documents, seeds, grown) && work.seen <= grown.seen
              && Resolve(registry.documents, registry.tags, reference).value in grown.digests
              && grown.observations == work.observations + more
    ensures registry.Reliable() && AllFoundFetchable(registry.documents, registry.tags, seeds) ==>
              (Resolve(registry.documents, registry.tags, reference).Some? ==> ok)
  {
    hide Sound, CoversTree, Found, Fetchable, CanFetch;
    ok, grown, more := false, work, [];
    var metadata := registry.FetchManifest(reference);
    if AllFoundFetchable(registry.documents, registry.tags, seeds)
       && Resolve(registry.documents, registry.tags, reference).Some? {
      FetchableByReference(registry.documents, registry.tags, reference);
    }
    if metadata.Err? {
      return;
    }
    TreeOfFetchable(GraphOf(registry.documents, registry.tags), reference, metadata.value);
    if NoDigest !in registry.documents {
      StoredTreeIsCollected(registry.documents, registry.tags, reference, metadata.value, tag);
    }
    var collected := CollectMetadataTree(metadata.value, tag);
    if collected.Err? {
      return;
    }
    TreeIsCovered(registry.documents, registry.tags, seeds, reference, metadata.value, tag);
    more := collected.value;
    grown := AddTree(registry.documents, seeds, Resolve(registry.documents, registry.tags, reference).value, tag, work,
                     more);
    ok := true;
  }

  /** One live tag: its tree is added, and its digests are no longer counted as missing. */
  method ObserveTag(registry: Distribution, service: InventoryService, ghost seeds: set<Digest>, tag: Tag,
                    start: Worklist, ghost listed: seq<Tag>)
    returns (ok: bool, work: Worklist)
    requires registry.Valid() && Sound(registry.documents, seeds, start)
    requires tag in registry.tags && registry.tags[tag] in registry.documents && registry.tags[tag] in seeds
    requires TagsCovered(registry.documents, registry.tags, listed, start.observations)
    modifies registry`calls, service
    ensures ok ==>
              && Sound(registry.documents, seeds, work) && start.digests <= work.digests
              && TagsCovered(registry.documents, registry.tags, listed + [tag], work.observations)
              && registry.tags[tag] in work.digests
              && (forall d :: d !in work.digests ==> SameProbe(old(service.missingProbes), service.missingProbes, d))
              && (forall d :: d in work.digests && d !in start.digests ==> d !in service.missingProbes)
    ensures service.missingProbes.Keys <= old(service.missingProbes).Keys
    ensures registry.Reliable() && AllFoundFetchable(registry.documents, registry.tags, seeds) ==> ok
  {
    hide Sound, TagsCovered, SameProbe, CoversTree, CoversForest, IsTrail, AllFoundFetchable;
    SeedIsFound(registry.documents, seeds, registry.tags[tag]);
    var more;
    ok, work, more := ObserveReference(registry, seeds, ByTag(tag), Some(tag), start);
    if ok {
      TagsCoveredConcat(registry.documents, registry.tags, listed, start.observations, seeds, registry.tags[tag],
                        Some(tag), more);
      MoreIsSeen(registry.documents, seeds, start, work, more);
      service.ClearMissingProbes(more);
    }
  }

  method ObserveTags(registry: Distribution, service: InventoryService, ghost seeds: set<Digest>)
    returns (ok: bool, work: Worklist, listed: seq<Tag>)
    requires registry.Valid()
    requires forall t :: t in registry.tags && registry.tags[t] in registry.documents ==> registry.tags[t] in seeds
    modifies registry`calls, service
    ensures ok ==>
              && Sound(registry.documents, seeds, work)
              && TagsCovered(registry.documents, registry.tags, listed, work.observations)
              && (forall t :: t in listed <==> t in registry.tags && registry.tags[t] in registry.documents)
              && (forall t :: t in listed ==> registry.tags[t] in work.digests)
    ensures ok ==> forall d :: d !in work.digests ==> SameProbe(old(service.missingProbes), service.missingProbes, d)
    ensures ok ==> forall d :: d in work.digests ==> d !in service.missingProbes
    ensures registry.Reliable() && AllFoundFetchable(registry.documents, registry.tags, seeds) ==> ok
  {
    ok, work, listed := false, Empty, [];
    var tags := registry.ListRepositoryTags();
    if tags.Err? {
      return;
    }
    listed := tags.value;
    NothingSeen(registry.documents, registry.tags, seeds, service.missingProbes);
    hide Sound, TagsCovered, SameProbe, AllFoundFetchable;
    for i := 0 to |listed|
      invariant Sound(registry.documents, seeds, work)
      invariant TagsCovered(registry.documents, registry.tags, listed[..i], work.observations)
      invariant forall t :: t in listed[..i] ==> registry.tags[t] in work.digests
      invariant forall d :: d !in work.digests ==> SameProbe(old(service.missingProbes), service.missingProbes, d)
      invariant forall d :: d in work.digests ==> d !in service.missingProbes
    {
      assert listed[i] in listed;
      assert listed[..i + 1] == listed[..i] + [listed[i]];
      ghost var before, probes := work.digests, service.missingProbes;
      ok, work := ObserveTag(registry, service, seeds, listed[i], work, listed[..i]);
      if !ok {
        return;
      }
      ProbesOfSeen(old(service.missingProbes), probes, service.missingProbes, before, work.digests);
    }
    assert listed[..|listed|] == listed;
    ok := true;
  }

  lemma NothingSeen(documents: map<Digest, Document>, tags: map<Tag, Digest>, seeds: set<Digest>,
                    probes: map<Digest, int>)
    ensures Sound(documents, seeds, Empty) && TagsCovered(documents, tags, [], Empty.observations)
    ensures forall d :: SameProbe(probes, probes, d)
  {
  }

  lemma ProbesOfSeen(start: map<Digest, int>, before: map<Digest, int>, after: map<Digest, int>,
                     seen: set<Digest>, grown: set<Digest>)
    requires seen <= grown
    requires forall d :: d !in seen ==> SameProbe(start, before, d)
    requires forall d :: d !in grown ==> SameProbe(before, after, d)
    ensures forall d :: d !in grown ==> SameProbe(start, after, d)
  {
    forall d | d !in grown
      ensures SameProbe(start, after, d)
    {
      assert SameProbe(start, before, d) && SameProbe(before, after, d);
    }
  }

  lemma MoreIsSeen(documents: map<Digest, Document>, seeds: set<Digest>, work: Worklist, grown: Worklist,
                   more: seq<Observation>)
    requires Sound(documents, seeds, grown) && grown.observations == work.observations + more
    requires work.seen <= grown.seen && Sound(documents, seeds, work)
    ensures forall d :: Observed(more, d) ==> d in grown.digests
    ensures forall d :: d in grown.digests && d !in work.digests ==> Observed(more, d)
    ensures work.digests <= grown.digests
  {
    forall d | Observed(more, d)
      ensures d in grown.digests
    {
      ObservedConcat(work.observations, more, d);
    }
  }

  /** The probe time of every row still to be looked at is the one from the start. */
  ghost predicate ProbesUntouched(known: seq<Manifest>, from: nat, digests: set<Digest>, start: map<Digest, int>,
                                  probes: map<Digest, int>) {
    forall k :: from <= k < |known| && known[k].digest !in digests ==>
                  (known[k].digest in probes <==> known[k].digest in start) &&
                  (known[k].digest in probes ==> probes[known[k].digest] == start[known[k].digest])
  }

  /** A row that is asked about is forgotten when it is there or the answer is missing; a missing row is noted. */
  function ProbesAfter(manifest: Manifest, probes: map<Digest, int>, now: int, seen: set<Digest>,
                       documents: map<Digest, Document>, ok: bool): map<Digest, int> {
    if !WillProbe(manifest, probes, now) || manifest.digest in seen then probes
    else if !ok || manifest.digest in documents then probes - {manifest.digest}
    else if manifest.state.Missing? then probes[manifest.digest := now]
    else probes
  }

  /** The probe of a missing row after it was due, or as it was. */
  ghost predicate ProbeNoted(before: map<Digest, int>, after: map<Digest, int>, d: Digest, now: int) {
    if ProbeDue(before, d, now) then d in after && after[d] == now else SameProbe(before, after, d)
  }

  /** Rows that are missing and stay so are not asked about again before the interval is over. */
  ghost predicate ProbesNoted(known: seq<Manifest>, documents: map<Digest, Document>, before: map<Digest, int>,
                              after: map<Digest, int>, now: int) {
    forall m :: m in known && m.state.Missing? && m.digest !in documents ==> ProbeNoted(before, after, m.digest, now)
  }

  /** One known row: asked about unless it is deleted, already seen, or missing without a due probe. */
  method ObserveRow(registry: Distribution, service: InventoryService, ghost seeds: set<Digest>, manifest: Manifest,
                    now: int,
                    start: Worklist, ghost listed: seq<Tag>)
    returns (ok: bool, work: Worklist)
    requires registry.Valid() && Sound(registry.documents, seeds, start)
    requires TagsCovered(registry.documents, registry.tags, listed, start.observations)
    requires manifest.digest in registry.documents ==> manifest.digest in start.digests || manifest.digest in seeds ||
                                                         !WillProbe(manifest, service.missingProbes, now)
    modifies registry`calls, service
    ensures service.missingProbes ==
            ProbesAfter(manifest, old(service.missingProbes), now, start.digests, registry.documents, ok)
    ensures ok ==>
              && Sound(registry.documents, seeds, work) && start.digests <= work.digests
              && TagsCovered(registry.documents, registry.tags, listed, work.observations)
              && (manifest.digest in registry.documents && WillProbe(manifest, old(service.missingProbes), now) ==>
                    manifest.digest in work.digests)
    ensures registry.Reliable() && AllFoundFetchable(registry.documents, registry.tags, seeds) ==> ok
  {
    hide Sound, TagsCovered, CoversTree, CoversForest, IsTrail, AllFoundFetchable;
    ok, work := true, start;
    if manifest.state.Deleted? || manifest.digest in start.digests {
      return;
    }
    if manifest.state.Missing? {
      var due := service.ShouldProbeMissing(manifest.digest, now);
      if !due {
        return;
      }
    }
    ok := false;
    var resolved := registry.ResolveManifest(ByDigest(manifest.digest));
    if resolved.Err? {
      service.ClearMissingProbe(manifest.digest);
      return;
    }
    if resolved.value != Some(manifest.digest) {
      ok := true;
      return;
    }
    service.ClearMissingProbe(manifest.digest);
    SeedIsFound(registry.documents, seeds, manifest.digest);
    var more;
    ok, work, more := ObserveReference(registry, seeds, ByDigest(manifest.digest), None, start);
    if ok {
      TagsCoveredConcat(registry.documents, registry.tags, listed, start.observations, seeds, manifest.digest, None,
                        more);
      assert listed + [] == listed;
      MoreIsSeen(registry.documents, seeds, start, work, more);
    }
  }

  lemma NoneNoted(documents: map<Digest, Document>, start: map<Digest, int>, probes: map<Digest, int>, now: int)
    ensures ProbesNoted([], documents, start, probes, now)
  {
  }

  lemma RowIsNoted(known: seq<Manifest>, i: nat, documents: map<Digest, Document>, start: map<Digest, int>,
                   probes: map<Digest, int>, digests: set<Digest>, now: int)
    requires UniqueDigests(known) && i < |known| && digests <= documents.Keys
    requires ProbesUntouched(known, i, digests, start, probes)
    requires ProbesNoted(known[..i], documents, start, probes, now)
    ensures ProbesNoted(known[..i + 1], documents, start, ProbesAfter(known[i], probes, now, digests, documents, true),
                        now)
  {
    var after := ProbesAfter(known[i], probes, now, digests, documents, true);
    forall m | m in known[..i + 1] && m.state.Missing? && m.digest !in documents
      ensures ProbeNoted(start, after, m.digest, now)
    {
      if m in known[..i] {
        var k :| 0 <= k < i && known[k] == m;
        assert ProbeNoted(start, probes, m.digest, now);
      } else {
        assert m == known[i];
      }
    }
  }

  /** A row that was not seen is decided by its probe from the start. */
  lemma SameDecision(known: seq<Manifest>, i: nat, start: map<Digest, int>, probes: map<Digest, int>,
                     digests: set<Digest>, now: int)
    requires i < |known| && ProbesUntouched(known, i, digests, start, probes) && known[i].digest !in digests
    ensures WillProbe(known[i], start, now) <==> WillProbe(known[i], probes, now)
  {
  }

  /** Handling one row touches no probe of a later row, and none of a digest already seen. */
  lemma RowLeavesRest(known: seq<Manifest>, i: nat, documents: map<Digest, Document>, start: map<Digest, int>,
                      probes: map<Digest, int>, digests: set<Digest>, grown: set<Digest>, now: int, ok: bool)
    requires UniqueDigests(known) && i < |known| && digests <= grown
    requires ProbesUntouched(known, i, digests, start, probes)
    ensures var after := ProbesAfter(known[i], probes, now, digests, documents, ok);
            && ProbesUntouched(known, i + 1, grown, start, after)
            && forall d :: d in digests ==> SameProbe(probes, after, d)
  {
  }

  method ObserveKnown(registry: Distribution, service: InventoryService, ghost seeds: set<Digest>, known: seq<Manifest>,
                      ghost probes: map<Digest, int>, now: int, start: Worklist, ghost listed: seq<Tag>)
    returns (ok: bool, work: Worklist)
    requires registry.Valid() && UniqueDigests(known)
    requires Sound(registry.documents, seeds, start)
    requires TagsCovered(registry.documents, registry.tags, listed, start.observations)
    requires ProbesUntouched(known, 0, start.digests, probes, service.missingProbes)
    requires forall m :: m in known && m.digest in registry.documents && WillProbe(m, probes, now) ==> m.digest in seeds
    modifies registry`calls, service
    ensures ok ==>
              && Sound(registry.documents, seeds, work) && start.digests <= work.digests
              && TagsCovered(registry.documents, registry.tags, listed, work.observations)
              && (forall m :: m in known && m.digest in registry.documents && WillProbe(m, probes, now) ==>
                                m.digest in work.digests)
              && ProbesNoted(known, registry.documents, probes, service.missingProbes, now)
    ensures forall d :: d in start.digests ==> SameProbe(old(service.missingProbes), service.missingProbes, d)
    ensures registry.Reliable() && AllFoundFetchable(registry.documents, registry.tags, seeds) ==> ok
  {
    hide Sound, TagsCovered, AllFoundFetchable, ProbesNoted, ProbesUntouched, ProbesAfter, WillProbe;
    ok, work := true, start;
    NoneNoted(registry.documents, probes, service.missingProbes, now);
    for i := 0 to |known|
      invariant ok && Sound(registry.documents, seeds, work) && start.digests <= work.digests
      invariant TagsCovered(registry.documents, registry.tags, listed, work.observations)
      invariant ProbesUntouched(known, i, work.digests, probes, service.missingProbes)
      invariant ProbesNoted(known[..i], registry.documents, probes, service.missingProbes, now)
      invariant forall d :: d in start.digests ==> SameProbe(old(service.missingProbes), service.missingProbes, d)
      invariant forall m :: m in known[..i] && m.digest in registry.documents && WillProbe(m, probes, now) ==>
                              m.digest in work.digests
    {
      var manifest := known[i];
      assert manifest in known;
      assert known[..i + 1] == known[..i] + [manifest];
      ghost var before, digests := service.missingProbes, work.digests;
      SoundHolds(registry.documents, seeds, work);
      if manifest.digest !in digests {
        SameDecision(known, i, probes, before, digests, now);
      }
      ok, work := ObserveRow(registry, service, seeds, manifest, now, work, listed);
      RowLeavesRest(known, i, registry.documents, probes, before, digests, digests + work.digests, now, ok);
      if !ok {
        return;
      }
      assert digests + work.digests == work.digests;
      RowIsNoted(known, i, registry.documents, probes, before, digests, now);
    }
    assert known[..|known|] == known;
  }

  /** Follows the referrers of everything seen, including what this adds; the registry being finite, it ends. */
  method ObserveReferrers(registry: Distribution, ghost seeds: set<Digest>, start: Worklist, ghost listed: seq<Tag>)
    returns (ok: bool, work: Worklist)
    requires registry.Valid() && Sound(registry.documents, seeds, start)
    requires TagsCovered(registry.documents, registry.tags, listed, start.observations)
    modifies registry`calls
    ensures ok ==>
              && Sound(registry.documents, seeds, work) && start.digests <= work.digests
              && TagsCovered(registry.documents, registry.tags, listed, work.observations)
              && forall d, r :: d in work.digests && Referrer(registry.documents, d, r) ==> r in work.digests
    ensures registry.Reliable() && AllFoundFetchable(registry.documents, registry.tags, seeds) ==> ok
  {
    hide Agrees, TagsCovered, IsTrail, AllFoundFetchable;
    ok, work := false, start;
    var i := 0;
    SoundHolds(registry.documents, seeds, work);
    while i < |work.seen|
      invariant Sound(registry.documents, seeds, work) && start.digests <= work.digests
      invariant TagsCovered(registry.documents, registry.tags, listed, work.observations)
      invariant i <= |work.seen| <= |registry.documents|
      invariant forall k, r :: 0 <= k < i && Referrer(registry.documents, work.seen[k], r) ==> r in work.digests
      decreases |registry.documents| - i
    {
      var subject := work.seen[i];
      ghost var before := work;
      var referrers := registry.ListReferrers(subject);
      if referrers.Err? {
        return;
      }
      SoundHolds(registry.documents, seeds, work);
      assert subject in work.digests;
      ok, work := ObserveEach(registry, seeds, subject, referrers.value, work, listed);
      if !ok {
        return;
      }
      ok := false;
      SoundHolds(registry.documents, seeds, work);
      i := i + 1;
    }
    forall d, r | d in work.digests && Referrer(registry.documents, d, r)
      ensures r in work.digests
    {
      assert d in Elements(work.seen);
      var k :| 0 <= k < |work.seen| && work.seen[k] == d;
    }
    ok := true;
  }

  method ObserveEach(registry: Distribution, ghost seeds: set<Digest>, ghost subject: Digest, referrers: seq<Digest>,
                     start: Worklist,
                     ghost listed: seq<Tag>)
    returns (ok: bool, work: Worklist)
    requires registry.Valid() && Sound(registry.documents, seeds, start)
    requires TagsCovered(registry.documents, registry.tags, listed, start.observations)
    requires Found(registry.documents, seeds, subject) && subject in registry.documents
    requires forall r :: r in referrers ==> Referrer(registry.documents, subject, r)
    modifies registry`calls
    ensures ok ==>
              && Sound(registry.documents, seeds, work) && start.seen <= work.seen && start.digests <= work.digests
              && TagsCovered(registry.documents, registry.tags, listed, work.observations)
              && forall r :: r in referrers ==> r in work.digests && r != NoDigest
    ensures registry.Reliable() && AllFoundFetchable(registry.documents, registry.tags, seeds) ==> ok
  {
    ok, work := false, start;
    for k := 0 to |referrers|
      invariant Sound(registry.documents, seeds, work) && start.seen <= work.seen && start.digests <= work.digests
      invariant TagsCovered(registry.documents, registry.tags, listed, work.observations)
      invariant forall j :: 0 <= j < k ==> referrers[j] in work.digests && referrers[j] != NoDigest
    {
      hide Sound, TagsCovered, CoversTree, CoversForest, IsTrail;
      var referrer := referrers[k];
      assert referrer in referrers && referrer in registry.documents;
      if referrer == NoDigest {
        assert !AllFoundFetchable(registry.documents, registry.tags, seeds);
        return;
      }
      StepIsFound(registry.documents, seeds, subject, referrer);
      var done, grown, more := ObserveReference(registry, seeds, ByDigest(referrer), None, work);
      if !done {
        return;
      }
      TagsCoveredConcat(registry.documents, registry.tags, listed, work.observations, seeds, referrer, None, more);
      assert listed + [] == listed;
      MoreIsSeen(registry.documents, seeds, work, grown, more);
      work := grown;
    }
    ok := true;
  }

  /**
   A successful reconciliation sees exactly what is found from its seeds, each digest once,
   and its observations account for exactly those digests and for every live tag.
   */
  method Reconcile(registry: Distribution, service: InventoryService, known: seq<Manifest>, now: int)
    returns (ok: bool, work: Worklist, listed: seq<Tag>)
    requires registry.Valid() && UniqueDigests(known)
    modifies registry`calls, service
    ensures ok ==>
              var seeds := Seeds(registry.documents, registry.tags, known, old(service.missingProbes), now);
              && Distinct(work.seen)
              && (forall d :: d in work.seen <==> Found(registry.documents, seeds, d))
              && (forall d :: d in work.seen <==> Observed(work.observations, d))
              && TagsCovered(registry.documents, registry.tags, listed, work.observations)
              && (forall t :: t in listed <==> t in registry.tags && registry.tags[t] in registry.documents)
              && (forall i :: 0 <= i < |work.observations| ==>
                                && work.observations[i].digest in registry.documents
                                && Agrees(work.observations[i], registry.documents[work.observations[i].digest]))
    ensures ok ==> ProbesNoted(known, registry.documents, old(service.missingProbes), service.missingProbes, now)
    ensures ok ==> forall t :: t in listed ==> registry.tags[t] !in service.missingProbes
    ensures registry.Reliable()
            && AllFoundFetchable(registry.documents, registry.tags,
                                 Seeds(registry.documents, registry.tags, known, old(service.missingProbes), now)) ==>
              ok
  {
    hide AllFoundFetchable, Agrees, TagsCovered, Sound, IsTrail, Found;
    ghost var seeds := Seeds(registry.documents, registry.tags, known, service.missingProbes, now);
    ghost var probes := service.missingProbes;
    ok, work, listed := ObserveTags(registry, service, seeds);
    if !ok {
      return;
    }
    ok, work := ObserveKnown(registry, service, seeds, known, probes, now, work, listed);
    if !ok {
      return;
    }
    ok, work := ObserveReferrers(registry, seeds, work, listed);
    if !ok {
      return;
    }
    SoundHolds(registry.documents, seeds, work);
    SeenIsFound(registry.documents, seeds, work);
  }

  lemma SeenIsFound(documents: map<Digest, Document>, seeds: set<Digest>, work: Worklist)
    requires Sound(documents, seeds, work) && seeds * documents.Keys <= work.digests
    requires forall d, r :: d in work.digests && Referrer(documents, d, r) ==> r in work.digests
    ensures forall d :: d in work.seen <==> Found(documents, seeds, d)
    ensures forall d :: d in work.seen <==> d in work.digests
    ensures Distinct(work.seen) && forall d :: d in work.seen <==> Observed(work.observations, d)
  {
    SoundHolds(documents, seeds, work);
    assert forall d :: d in work.seen <==> d in Elements(work.seen);
    forall a, b | a in work.digests && Step(documents, a, b)
      ensures b in work.digests
    {
      assert documents[b].subject == a ==> Referrer(documents, a, b);
    }
    forall d | Found(documents, seeds, d)
      ensures d in work.digests
    {
      var trail :| IsTrail(documents, seeds, trail) && trail[|trail| - 1] == d;
      FoundIsLeast(documents, seeds, trail, work.digests);
    }
  }

  // ----- recorded in one transaction

  lemma ObservesTheRegistry(documents: map<Digest, Document>, tags: map<Tag, Digest>, seeds: set<Digest>,
                            work: Worklist, listed: seq<Tag>)
    requires TagsCovered(documents, tags, listed, work.observations)
    requires forall t :: t in listed <==> t in tags && tags[t] in documents
    requires forall d :: d in work.seen <==> Observed(work.observations, d)
    ensures Observes(work.observations, Elements(listed), Elements(work.seen), LiveTags(documents, tags))
  {
    assert Elements(listed) == LiveTags(documents, tags).Keys;
    forall i | 0 <= i < |work.observations|
      ensures work.observations[i].digest in Elements(work.seen)
    {
      assert Observed(work.observations, work.observations[i].digest);
    }
    forall d | d in Elements(work.seen)
      ensures exists i :: 0 <= i < |work.observations| && work.observations[i].digest == d
    {
      assert Observed(work.observations, d);
    }
  }

  function LiveTags(documents: map<Digest, Document>, tags: map<Tag, Digest>): map<Tag, Digest> {
    map t | t in tags && tags[t] in documents :: tags[t]
  }

  lemma OneMoreRow(known: seq<Manifest>, manifest: Manifest)
    requires UniqueDigests(known) && forall m :: m in known ==> m.digest != manifest.digest
    ensures UniqueDigests(known + [manifest])
    ensures forall d :: Find(known + [manifest], d).Some? <==> d == manifest.digest || Find(known, d).Some?
  {
    assert forall k :: 0 <= k < |known| ==> known[k] in known;
    assert (known + [manifest])[..|known|] == known;
  }

  /** An inventory entry is what the tables say about its digest. */
  predicate Lists(tables: Tables, manifest: Manifest) {
    && manifest.digest in tables.rows
    && var row := tables.rows[manifest.digest];
    && manifest.state == row.state && manifest.platforms == row.platforms && manifest.subject == row.subject
    && manifest.firstSeenAt == row.firstSeenAt && manifest.lastPushedAt == row.lastPushedAt
    && manifest.untaggedAt == row.untaggedAt
    && (forall t | t in manifest.tags :: PointsAt(tables.tags, t, manifest.digest))
    && (forall t | t in tables.tags && PointsAt(tables.tags, t, manifest.digest) :: t in manifest.tags)
  }

  /** The inventory rows as the service reads them. */
  method ListManifestInventory(store: Store) returns (known: seq<Manifest>)
    ensures UniqueDigests(known)
    ensures forall m :: m in known ==> Lists(store.Contents(), m)
    ensures forall d :: d in store.rows ==> Find(known, d).Some?
  {
    known := [];
    var pending := store.rows.Keys;
    while pending != {}
      invariant pending <= store.rows.Keys && UniqueDigests(known)
      invariant forall m :: m in known ==> m.digest in store.rows.Keys - pending && Lists(store.Contents(), m)
      invariant forall d :: d in store.rows.Keys - pending ==> Find(known, d).Some?
    {
      var digest :| digest in pending;
      pending := pending - {digest};
      var row := store.rows[digest];
      var tags := set t | t in store.tags && PointsAt(store.tags, t, digest);
      var names := Names(tags);
      var manifest := Manifest(digest, row.platforms, names, row.subject, row.state, row.firstSeenAt, row.lastPushedAt,
                               row.untaggedAt);
      assert forall t :: t in names <==> t in Elements(names);
      OneMoreRow(known, manifest);
      known := known + [manifest];
    }
  }

  method Names(tags: set<Tag>) returns (names: seq<Tag>)
    ensures Elements(names) == tags
  {
    names := [];
    var pending := tags;
    while pending != {}
      invariant pending <= tags && Elements(names) == tags - pending
    {
      var tag :| tag in pending;
      pending := pending - {tag};
      ghost var before := names;
      names := names + [tag];
      assert Elements(names) == Elements(before) + {tag};
    }
  }

  /** What a reconciliation leaves in the tables about everything it found. */
  ghost predicate Describing(tables: Tables, documents: map<Digest, Document>, seeds: set<Digest>) {
    forall d :: Found(documents, seeds, d) ==>
                  && d in documents && d in tables.rows && tables.rows[d].deletedAt.None?
                  && Describes(tables.rows[d], documents[d].subject, References(documents[d]))
  }

  lemma ObservationsDescribe(tables: Tables, observations: seq<Observation>, seenTags: set<Tag>,
                             seenDigests: set<Digest>,
                             documents: map<Digest, Document>, seeds: set<Digest>, now: int)
    requires forall i :: 0 <= i < |observations| ==>
                           observations[i].digest in documents && Agrees(observations[i], documents[observations[i].digest])
    requires forall d :: Found(documents, seeds, d) ==> Observed(observations, d)
    ensures forall d :: Found(documents, seeds, d) ==>
                          && d in documents && d in Complete(UpsertAll(tables, observations, now), seenTags, seenDigests, now).rows
                          && Describes(Complete(UpsertAll(tables, observations, now), seenTags, seenDigests, now).rows[d],
                                       documents[d].subject, References(documents[d]))
  {
    hide Found, References, DetachedTags;
    var middle := UpsertAll(tables, observations, now);
    AfterAgreeingObservations(tables, observations, now,
                              d => if d in documents then documents[d].subject else NoDigest,
                              d => if d in documents then References(documents[d]) else {});
    hide UpsertAll;
    forall d | Found(documents, seeds, d)
      ensures d in documents && d in middle.rows
      ensures Describes(middle.rows[d], documents[d].subject, References(documents[d]))
    {
      assert Observed(observations, d);
      var i :| 0 <= i < |observations| && observations[i].digest == d;
      assert observations[i].digest in documents;
    }
  }

  /**
   A reconciliation that finds everything present gives an inventory that agrees with the registry
   row by row: what the deletion engine relies on.
   */
  lemma ReconciledIsExact(tables: Tables, inventory: seq<Manifest>, documents: map<Digest, Document>,
                          tags: map<Tag, Digest>, seeds: set<Digest>)
    requires Consistent(tables) && Describing(tables, documents, seeds)
    requires UniqueDigests(inventory) && forall m :: m in inventory ==> Lists(tables, m)
    requires forall d :: d in tables.rows ==> Find(inventory, d).Some?
    requires RowsAgree(tables, documents, tags, seeds)
    requires forall d :: d in documents ==> Found(documents, seeds, d)
    ensures DeletionTree.Exact(inventory, documents, tags)
  {
    hide Found;
    forall d | d in documents
      ensures exists m :: m in inventory && DeletionTree.RowFor(m, d, documents[d])
    {
      assert Found(documents, seeds, d);
      var m := Find(inventory, d).value;
      assert Lists(tables, m);
      assert DeletionTree.RowFor(m, d, documents[d]);
    }
    forall m | m in inventory && Live(m)
      ensures m.digest in documents && documents[m.digest].subject == m.subject
      ensures m.tags == [] ==> forall t :: t in tags ==> tags[t] != m.digest
    {
      assert Lists(tables, m);
      LiveRowIsFound(tables, m, documents, tags, seeds);
    }
  }

  lemma LiveRowIsFound(tables: Tables, m: Manifest, documents: map<Digest, Document>, tags: map<Tag, Digest>,
                       seeds: set<Digest>)
    requires Consistent(tables) && Describing(tables, documents, seeds) && Lists(tables, m) && Live(m)
    requires tables.rows[m.digest].deletedAt.None? ==>
               RowAgreesWith(tables.rows[m.digest], m.digest, documents, tags, seeds)
    ensures m.digest in documents && documents[m.digest].subject == m.subject
    ensures m.tags == [] ==> forall t :: t in tags ==> tags[t] != m.digest
  {
    hide Found;
    assert RowFits(tables, m.digest);
    if m.tags == [] {
      assert !Attached(tables.tags, m.digest);
      forall t | t in tags
        ensures tags[t] != m.digest
      {
        if tags[t] in documents {
          LiveTagNames(documents, tags, t);
        }
      }
    }
  }

  lemma LiveTagNames(documents: map<Digest, Document>, tags: map<Tag, Digest>, t: Tag)
    requires t in tags && tags[t] in documents
    ensures Named(LiveTags(documents, tags), tags[t])
  {
    assert LiveTags(documents, tags)[t] == tags[t];
  }

  /** What the state of a row that is not deleted says about the registry. */
  ghost predicate RowAgreesWith(row: Row, d: Digest, documents: map<Digest, Document>, tags: map<Tag, Digest>,
                                seeds: set<Digest>) {
    && (row.state.Active? <==> Named(LiveTags(documents, tags), d))
    && (row.state.Active? ==> Found(documents, seeds, d))
    && (row.state.Untagged? <==> Found(documents, seeds, d) && !Named(LiveTags(documents, tags), d))
    && (row.state.Missing? <==> !Found(documents, seeds, d))
  }

  lemma AgreesWithRegistry(row: Row, d: Digest, documents: map<Digest, Document>, tags: map<Tag, Digest>,
                           seeds: set<Digest>, seenDigests: set<Digest>)
    requires RowAgrees(row, d, seenDigests, LiveTags(documents, tags))
    requires forall d :: d in seenDigests <==> Found(documents, seeds, d)
    requires forall t :: t in tags && tags[t] in documents ==> tags[t] in seeds
    ensures RowAgreesWith(row, d, documents, tags, seeds)
  {
    if Named(LiveTags(documents, tags), d) {
      var t :| t in LiveTags(documents, tags) && LiveTags(documents, tags)[t] == d;
      SeedIsFound(documents, seeds, d);
    }
  }

  /**
   A whole reconciliation: when it succeeds, every row that is not deleted is active, untagged
   or missing as the registry says, and what was found is described by its row; when everything
   present was found, the inventory it returns is exact. When it fails, the tables are as before.
   It succeeds whenever no request fails and everything it meets can be fetched.
   */
  method ReconcileRepository(registry: Distribution, service: InventoryService, store: Store, now: int)
    returns (ok: bool, inventory: seq<Manifest>, ghost seeds: set<Digest>)
    requires registry.Valid() && Consistent(store.Contents())
    modifies registry`calls, service, store
    ensures Consistent(store.Contents())
    ensures !ok ==> store.Contents() == old(store.Contents())
    ensures seeds == TableSeeds(old(store.Contents()), registry.documents, registry.tags, old(service.missingProbes),
                                now)
    ensures forall d :: d in registry.tags.Values && d in registry.documents ==> d in seeds
    ensures ok ==> Describing(store.Contents(), registry.documents, seeds)
    ensures ok ==> RowsAgree(store.Contents(), registry.documents, registry.tags, seeds)
    ensures ok ==> TimesFit(old(store.Contents()), store.Contents(), now)
    ensures ok ==> UniqueDigests(inventory) && forall m :: m in inventory ==> Lists(store.Contents(), m)
    ensures ok ==> forall d :: d in store.rows ==> Find(inventory, d).Some?
    ensures ok && (forall d :: d in registry.documents ==> Found(registry.documents, seeds, d)) ==>
              DeletionTree.Exact(inventory, registry.documents, registry.tags)
    ensures registry.Reliable() && AllFoundFetchable(registry.documents, registry.tags, seeds) ==> ok
  {
    var known := ListManifestInventory(store);
    inventory := known;
    seeds := Seeds(registry.documents, registry.tags, known, service.missingProbes, now);
    TagsAreSeeds(registry.documents, registry.tags, seeds, known, service.missingProbes, now);
    SeedsOfTables(store.Contents(), known, registry.documents, registry.tags, service.missingProbes, now);
    var work, listed;
    hide Lists, Seeds, TableSeeds, ProbesNoted, AllFoundFetchable, Agrees, TagsCovered, Found, UniqueDigests, RowsAgree,
         Describing, TimesFit, Consistent, UpsertAll, InventoryStore.Complete, DeletionTree.Exact;
    ok, work, listed := Reconcile(registry, service, known, now);
    if ok {
      WhatIsRecorded(store.Contents(), work, listed, registry.documents, registry.tags, seeds, now);
      store.ReconcileManifestObservations(work.observations, Elements(listed), Elements(work.seen), now);
      inventory := ListManifestInventory(store);
      if forall d :: d in registry.documents ==> Found(registry.documents, seeds, d) {
        ReconciledIsExact(store.Contents(), inventory, registry.documents, registry.tags, seeds);
      }
    }
  }

  /** Every row that is not deleted says about the registry what it should. */
  ghost predicate RowsAgree(tables: Tables, documents: map<Digest, Document>, tags: map<Tag, Digest>,
                            seeds: set<Digest>) {
    forall d :: d in tables.rows && tables.rows[d].deletedAt.None? ==>
                  RowAgreesWith(tables.rows[d], d, documents, tags, seeds)
  }

  /** The times of all rows stay or begin now, and a row that lost its last tag is untagged since now. */
  ghost predicate TimesFit(before: Tables, after: Tables, now: int) {
    && before.rows.Keys <= after.rows.Keys
    && (forall d :: d in after.rows ==> Ages(before, after, d, None, now))
    && (forall d :: d in after.rows && after.rows[d].state.Untagged?
                    && (d in before.rows ==> before.rows[d].state.Active?) ==>
                      after.rows[d].untaggedAt == Some(now))
  }

  /** What one transaction makes of the observations of a reconciliation. */
  lemma WhatIsRecorded(tables: Tables, work: Worklist, listed: seq<Tag>, documents: map<Digest, Document>,
                       tags: map<Tag, Digest>, seeds: set<Digest>, now: int)
    requires Consistent(tables) && TagsCovered(documents, tags, listed, work.observations)
    requires forall t :: t in listed <==> t in tags && tags[t] in documents
    requires forall t :: t in tags && tags[t] in documents ==> tags[t] in seeds
    requires forall d :: d in work.seen <==> Found(documents, seeds, d)
    requires forall d :: d in work.seen <==> Observed(work.observations, d)
    requires forall i :: 0 <= i < |work.observations| ==>
                           && work.observations[i].digest in documents
                           && Agrees(work.observations[i], documents[work.observations[i].digest])
    ensures var after := Complete(UpsertAll(tables, work.observations, now), Elements(listed), Elements(work.seen), now);
            && Consistent(after) && Describing(after, documents, seeds) && RowsAgree(after, documents, tags, seeds)
            && TimesFit(tables, after, now)
  {
    var seenTags, seen := Elements(listed), Elements(work.seen);
    ObservesTheRegistry(documents, tags, seeds, work, listed);
    ReconciliationAgrees(tables, work.observations, seenTags, seen, LiveTags(documents, tags), now);
    ObservationsDescribe(tables, work.observations, seenTags, seen, documents, seeds, now);
    SeenElements(work.seen, documents, seeds);
    NoPushes(work.observations, documents);
    TimesAre(tables, work.observations, seenTags, seen, now);
    hide Agrees, TagsCovered, Found, RowAgrees, RowAgreesWith, Describing, Consistent, UpsertAll, TimesFit,
         InventoryStore.Complete, Observes, LiveTags;
    var after := Complete(UpsertAll(tables, work.observations, now), seenTags, seen, now);
    DescribesFound(after, documents, seeds, seen);
    forall d | d in after.rows && after.rows[d].deletedAt.None?
      ensures RowAgreesWith(after.rows[d], d, documents, tags, seeds)
    {
      AgreesWithRegistry(after.rows[d], d, documents, tags, seeds, seen);
    }
  }

  lemma NoPushes(observations: seq<Observation>, documents: map<Digest, Document>)
    requires forall i :: 0 <= i < |observations| ==>
                           && observations[i].digest in documents
                           && Agrees(observations[i], documents[observations[i].digest])
    ensures forall i :: 0 <= i < |observations| ==> observations[i].pushedAt.None?
  {
  }

  lemma TimesAre(tables: Tables, observations: seq<Observation>, seenTags: set<Tag>, seen: set<Digest>, now: int)
    requires Consistent(tables) && forall i :: 0 <= i < |observations| ==> observations[i].pushedAt.None?
    requires Consistent(Complete(UpsertAll(tables, observations, now), seenTags, seen, now))
    ensures TimesFit(tables, Complete(UpsertAll(tables, observations, now), seenTags, seen, now), now)
  {
    ReconciliationAges(tables, observations, seenTags, seen, now);
    hide Consistent, UpsertAll, InventoryStore.Complete, Ages;
    var after := Complete(UpsertAll(tables, observations, now), seenTags, seen, now);
    forall d | d in after.rows && after.rows[d].state.Untagged? && (d in tables.rows ==> tables.rows[d].state.Active?)
      ensures after.rows[d].untaggedAt == Some(now)
    {
      LostTagBeginsNow(tables, after, d, now);
    }
  }

  /** Where a reconciliation starts, in terms of the tables it finds. */
  ghost function TableSeeds(tables: Tables, documents: map<Digest, Document>, tags: map<Tag, Digest>,
                            probes: map<Digest, int>, now: int): set<Digest> {
    (set t | t in tags && tags[t] in documents :: tags[t]) +
    (set d | d in tables.rows && d in documents && RowProbed(tables.rows[d].state, d, probes, now))
  }

  predicate RowProbed(state: State, d: Digest, probes: map<Digest, int>, now: int) {
    !state.Deleted? && (state.Missing? ==> ProbeDue(probes, d, now))
  }

  lemma SeedsOfTables(tables: Tables, known: seq<Manifest>, documents: map<Digest, Document>, tags: map<Tag, Digest>,
                      probes: map<Digest, int>, now: int)
    requires forall m :: m in known ==> Lists(tables, m)
    requires forall d :: d in tables.rows ==> Find(known, d).Some?
    ensures Seeds(documents, tags, known, probes, now) == TableSeeds(tables, documents, tags, probes, now)
  {
    forall d | d in tables.rows && d in documents && RowProbed(tables.rows[d].state, d, probes, now)
      ensures d in Seeds(documents, tags, known, probes, now)
    {
      var m := Find(known, d).value;
      assert m in known && Lists(tables, m);
    }
  }

  lemma TagsAreSeeds(documents: map<Digest, Document>, tags: map<Tag, Digest>, seeds: set<Digest>, known: seq<Manifest>,
                     probes: map<Digest, int>, now: int)
    requires seeds == Seeds(documents, tags, known, probes, now)
    ensures forall t :: t in tags && tags[t] in documents ==> tags[t] in seeds
    ensures forall d :: d in tags.Values && d in documents ==> d in seeds
  {
  }

  lemma SeenElements(seen: seq<Digest>, documents: map<Digest, Document>, seeds: set<Digest>)
    requires forall d :: d in seen <==> Found(documents, seeds, d)
    ensures forall d :: d in Elements(seen) <==> Found(documents, seeds, d)
  {
  }

  lemma DescribesFound(tables: Tables, documents: map<Digest, Document>, seeds: set<Digest>, seen: set<Digest>)
    requires forall d :: d in seen <==> Found(documents, seeds, d)
    requires seen <= tables.rows.Keys && forall d :: d in seen ==> tables.rows[d].deletedAt.None?
    requires forall d :: Found(documents, seeds, d) ==>
                           && d in documents && d in tables.rows
                           && Describes(tables.rows[d], documents[d].subject, References(documents[d]))
    ensures Describing(tables, documents, seeds)
  {
    hide Found;
  }
}
