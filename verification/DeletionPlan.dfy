/**
 Which child manifests may be deleted together with an image index
 (`deletionChildDigests`): a breadth-first closure of the index, pruned to a fixpoint.
 */
module DeletionPlan {
  import opened Foundation
  import opened Inventory

  // ----- what the children of a manifest are

  function Children(inventory: seq<Manifest>, digest: Digest): seq<Digest> {
    match Find(inventory, digest)
    case None => []
    case Some(manifest) => manifest.platforms
  }

  ghost predicate Edge(inventory: seq<Manifest>, parent: Digest, child: Digest) {
    child in Children(inventory, parent) && child != NoDigest && child != parent
  }

  ghost predicate IsPath(inventory: seq<Manifest>, path: seq<Digest>) {
    path != [] && forall k :: 0 < k < |path| ==> Edge(inventory, path[k - 1], path[k])
  }

  ghost predicate Reachable(inventory: seq<Manifest>, source: Digest, digest: Digest) {
    exists path :: IsPath(inventory, path) && path[0] == source && path[|path| - 1] == digest
  }

  lemma ReachableStep(inventory: seq<Manifest>, source: Digest, parent: Digest, child: Digest)
    requires Reachable(inventory, source, parent) && Edge(inventory, parent, child)
    ensures Reachable(inventory, source, child)
  {
    var path :| IsPath(inventory, path) && path[0] == source && path[|path| - 1] == parent;
    assert IsPath(inventory, path + [child]);
  }

  // ----- breadth-first order

  /** Every digest a walk from `source` can meet. */
  function Universe(inventory: seq<Manifest>, source: Digest): set<Digest> {
    {source} + set m, d | m in inventory && d in m.platforms :: d
  }

  function AppendNew(ordered: seq<Digest>, parent: Digest, platforms: seq<Digest>): (r: seq<Digest>)
    ensures ordered <= r
    ensures forall d :: d in r <==> d in ordered || (d in platforms && d != NoDigest && d != parent)
    ensures Distinct(ordered) ==> Distinct(r)
  {
    if platforms == [] then ordered
    else
      var before := AppendNew(ordered, parent, platforms[..|platforms| - 1]);
      var last := platforms[|platforms| - 1];
      if last == NoDigest || last == parent || last in before then before else before + [last]
  }

  function BfsFrom(inventory: seq<Manifest>, source: Digest, ordered: seq<Digest>, index: nat): seq<Digest>
    requires Distinct(ordered) && Elements(ordered) <= Universe(inventory, source) && index <= |ordered|
    decreases |Universe(inventory, source)| - index
  {
    if index == |ordered| then ordered
    else
      DistinctBound(ordered, Universe(inventory, source));
      BfsFrom(inventory, source,
              AppendNew(ordered, ordered[index], Children(inventory, ordered[index])), index + 1)
  }

  /** The digests reachable from `source`, nearest first, in the order the rows list them. */
  function BfsOrder(inventory: seq<Manifest>, source: Digest): seq<Digest> {
    BfsFrom(inventory, source, [source], 0)
  }

  ghost predicate Explored(inventory: seq<Manifest>, source: Digest, ordered: seq<Digest>, index: nat) {
    && index <= |ordered|
    && Distinct(ordered)
    && [source] <= ordered
    && (forall d :: d in ordered ==> Reachable(inventory, source, d))
    && (forall i, d :: 0 <= i < index && Edge(inventory, ordered[i], d) ==> d in ordered)
  }

  lemma {:induction false} ExploreOne(inventory: seq<Manifest>, source: Digest, ordered: seq<Digest>, index: nat)
    requires Explored(inventory, source, ordered, index) && index < |ordered|
    ensures Explored(inventory, source,
                     AppendNew(ordered, ordered[index], Children(inventory, ordered[index])), index + 1)
  {
    var parent := ordered[index];
    var grown := AppendNew(ordered, parent, Children(inventory, parent));
    forall d | d in grown
      ensures Reachable(inventory, source, d)
    {
      if d !in ordered {
        ReachableStep(inventory, source, parent, d);
      }
    }
  }

  lemma StaysInUniverse(inventory: seq<Manifest>, source: Digest, ordered: seq<Digest>, parent: Digest)
    requires Elements(ordered) <= Universe(inventory, source)
    ensures Elements(AppendNew(ordered, parent, Children(inventory, parent))) <= Universe(inventory, source)
  {
  }

  lemma {:induction false} BfsExplores(inventory: seq<Manifest>, source: Digest, ordered: seq<Digest>, index: nat)
    requires Explored(inventory, source, ordered, index) && Elements(ordered) <= Universe(inventory, source)
    ensures var all := BfsFrom(inventory, source, ordered, index);
            Explored(inventory, source, all, |all|)
    decreases |Universe(inventory, source)| - index
  {
    if index < |ordered| {
      DistinctBound(ordered, Universe(inventory, source));
      ExploreOne(inventory, source, ordered, index);
      StaysInUniverse(inventory, source, ordered, ordered[index]);
      hide Explored, AppendNew, Children, Universe;
      BfsExplores(inventory, source,
                  AppendNew(ordered, ordered[index], Children(inventory, ordered[index])), index + 1);
    }
  }

  /** The breadth-first order lists every reachable digest exactly once, the source first. */
  lemma BfsIsReachability(inventory: seq<Manifest>, source: Digest)
    ensures Distinct(BfsOrder(inventory, source)) && [source] <= BfsOrder(inventory, source)
    ensures forall d :: d in BfsOrder(inventory, source) <==> Reachable(inventory, source, d)
  {
    var all := BfsOrder(inventory, source);
    assert IsPath(inventory, [source]);
    assert Reachable(inventory, source, source);
    assert Explored(inventory, source, [source], 0);
    BfsExplores(inventory, source, [source], 0);
    forall d | Reachable(inventory, source, d)
      ensures d in all
    {
      var path :| IsPath(inventory, path) && path[0] == source && path[|path| - 1] == d;
      var k := 0;
      while k < |path| - 1
        invariant 0 <= k < |path| && path[k] in all
      {
        assert Edge(inventory, path[k], path[k + 1]);
        k := k + 1;
      }
    }
  }

  // ----- which of them may go

  predicate HasExternalManifestReference(digest: Digest, deletionSet: set<Digest>, inventory: seq<Manifest>) {
    exists m | m in inventory ::
      Live(m) && (m.subject == digest || (m.digest !in deletionSet && digest in m.platforms))
  }

  /** `digest` is a live, untagged plain manifest that nothing outside `deletionSet` refers to. */
  predicate Unneeded(digest: Digest, deletionSet: set<Digest>, inventory: seq<Manifest>) {
    && var row := Find(inventory, digest);
    && row.Some?
    && Live(row.value)
    && row.value.tags == []
    && row.value.subject == NoDigest
    && !HasExternalManifestReference(digest, deletionSet, inventory)
  }

  /** A set of descendants that may be deleted together with `target`. */
  ghost predicate SelfContained(inventory: seq<Manifest>, target: Digest, members: set<Digest>) {
    forall d :: d in members ==>
                  && d != target
                  && Reachable(inventory, target, d)
                  && Unneeded(d, members + {target}, inventory)
  }

  /** Every descendant that belongs to some self-contained set. */
  ghost function LargestSelfContained(inventory: seq<Manifest>, target: Digest): set<Digest> {
    set d | d in BfsOrder(inventory, target) && exists members :: d in members && SelfContained(inventory, target, members)
  }

  /** The union of all self-contained sets is self-contained, so it is the greatest one. */
  lemma LargestIsGreatest(inventory: seq<Manifest>, target: Digest)
    ensures SelfContained(inventory, target, LargestSelfContained(inventory, target))
    ensures forall members :: SelfContained(inventory, target, members) ==>
                                members <= LargestSelfContained(inventory, target)
  {
    BfsIsReachability(inventory, target);
    var largest := LargestSelfContained(inventory, target);
    forall members | SelfContained(inventory, target, members)
      ensures members <= largest
    {
    }
    forall d | d in largest
      ensures d != target && Reachable(inventory, target, d) && Unneeded(d, largest + {target}, inventory)
    {
      var members :| d in members && SelfContained(inventory, target, members);
      UnneededGrows(d, members + {target}, largest + {target}, inventory);
    }
  }

  /** Deleting more never makes a manifest needed. */
  lemma UnneededGrows(digest: Digest, fewer: set<Digest>, more: set<Digest>, inventory: seq<Manifest>)
    requires fewer <= more && Unneeded(digest, fewer, inventory)
    ensures Unneeded(digest, more, inventory)
  {
  }

  function Selected(ordered: seq<Digest>, chosen: set<Digest>): (r: seq<Digest>)
    ensures forall d :: d in r <==> d in ordered && d in chosen
    ensures Distinct(ordered) ==> Distinct(r)
  {
    if ordered == [] then []
    else
      var front := Selected(ordered[..|ordered| - 1], chosen);
      if ordered[|ordered| - 1] in chosen then front + [ordered[|ordered| - 1]] else front
  }

  /** The plan: the greatest self-contained set, in breadth-first order. */
  ghost function Plan(inventory: seq<Manifest>, target: Digest): seq<Digest> {
    var ordered := BfsOrder(inventory, target);
    Selected(if ordered == [] then [] else ordered[1..], LargestSelfContained(inventory, target))
  }

  /** What a plan promises, with both halves of "greatest". */
  lemma PlanIsGreatest(inventory: seq<Manifest>, target: Digest)
    ensures Distinct(Plan(inventory, target)) && target !in Plan(inventory, target)
    ensures SelfContained(inventory, target, Elements(Plan(inventory, target)))
    ensures forall members :: SelfContained(inventory, target, members) ==>
                                members <= Elements(Plan(inventory, target))
  {
    var ordered := BfsOrder(inventory, target);
    BfsIsReachability(inventory, target);
    LargestIsGreatest(inventory, target);
    assert Distinct(ordered[1..]);
    assert forall d :: d in ordered ==> d == ordered[0] || d in ordered[1..];
    assert Elements(Plan(inventory, target)) == LargestSelfContained(inventory, target);
  }

  /**
   The pruning loop removes digests in whatever order the map yields them, and still arrives
   at the one plan: the result is a function of the inventory and the target.
   */
  method DeletionChildDigests(target: Digest, inventory: seq<Manifest>) returns (result: seq<Digest>)
    ensures result == Plan(inventory, target)
  {
    var byDigest := IndexByDigest(inventory);
    var ordered, closure := Descendants(target, inventory, byDigest);
    BfsIsReachability(inventory, target);
    assert ordered[0] == target && target !in ordered[1..];
    assert Plan(inventory, target) == Selected(ordered[1..], LargestSelfContained(inventory, target));
    closure := Prune(target, inventory, ordered, byDigest, closure);
    hide *;
    result := Kept(ordered[1..], closure);
    SelectedIgnoresAbsent(ordered[1..], closure, target);
  }

  /** What is left of the list after pruning, in its order. */
  method Kept(ordered: seq<Digest>, closure: set<Digest>) returns (result: seq<Digest>)
    ensures result == Selected(ordered, closure)
  {
    result := [];
    for i := 0 to |ordered|
      invariant result == Selected(ordered[..i], closure)
    {
      assert ordered[..i + 1][..i] == ordered[..i];
      if ordered[i] in closure {
        result := result + [ordered[i]];
      }
    }
    assert ordered[..|ordered|] == ordered;
  }

  /** The growing phase: breadth-first order as a list, and the same digests as a set. */
  method Descendants(target: Digest, inventory: seq<Manifest>, byDigest: map<Digest, Manifest>)
    returns (ordered: seq<Digest>, closure: set<Digest>)
    requires forall d :: d in byDigest <==> Find(inventory, d).Some?
    requires forall d :: d in byDigest ==> byDigest[d] == Find(inventory, d).value
    ensures ordered == BfsOrder(inventory, target) && closure == Elements(ordered)
  {
    ordered := [target];
    closure := {target};
    var index := 0;
    ghost var universe := Universe(inventory, target);
    while index < |ordered|
      invariant index <= |ordered| && closure == Elements(ordered) <= universe && Distinct(ordered)
      invariant BfsFrom(inventory, target, ordered, index) == BfsOrder(inventory, target)
      decreases |universe| - index
    {
      DistinctBound(ordered, universe);
      var digest := ordered[index];
      if digest in byDigest {
        ordered, closure := AppendPlatforms(byDigest[digest], ordered, closure);
      }
      index := index + 1;
    }
  }

  method AppendPlatforms(manifest: Manifest, before: seq<Digest>, seen: set<Digest>)
    returns (ordered: seq<Digest>, closure: set<Digest>)
    requires seen == Elements(before)
    ensures ordered == AppendNew(before, manifest.digest, manifest.platforms) && closure == Elements(ordered)
  {
    ordered, closure := before, seen;
    for i := 0 to |manifest.platforms|
      invariant ordered == AppendNew(before, manifest.digest, manifest.platforms[..i])
      invariant closure == Elements(ordered)
    {
      assert manifest.platforms[..i + 1][..i] == manifest.platforms[..i];
      var platform := manifest.platforms[i];
      if platform == NoDigest || platform == manifest.digest {
        continue;
      }
      if platform in closure {
        continue;
      }
      closure := closure + {platform};
      ordered := ordered + [platform];
    }
    assert manifest.platforms[..|manifest.platforms|] == manifest.platforms;
  }

  lemma {:induction false} SelectedIgnoresAbsent(ordered: seq<Digest>, chosen: set<Digest>, absent: Digest)
    requires absent !in ordered
    ensures Selected(ordered, chosen) == Selected(ordered, chosen - {absent})
  {
    if ordered != [] {
      SelectedIgnoresAbsent(ordered[..|ordered| - 1], chosen, absent);
    }
  }

  method Prune(target: Digest, inventory: seq<Manifest>, ghost ordered: seq<Digest>,
               byDigest: map<Digest, Manifest>, all: set<Digest>)
    returns (closure: set<Digest>)
    requires ordered == BfsOrder(inventory, target) && all == Elements(ordered) && target in all
    requires forall d :: d in byDigest <==> Find(inventory, d).Some?
    requires forall d :: d in byDigest ==> byDigest[d] == Find(inventory, d).value
    ensures target in closure && closure - {target} == LargestSelfContained(inventory, target)
  {
    LargestIsGreatest(inventory, target);
    ghost var largest := LargestSelfContained(inventory, target);
    closure := all;
    var changed := true;
    while changed
      invariant largest + {target} <= closure <= all
      invariant !changed ==> forall d :: d in closure - {target} ==> Unneeded(d, closure, inventory)
      decreases closure, changed
    {
      changed := false;
      var pending := closure;
      ghost var before := closure;
      while pending != {}
        invariant largest + {target} <= closure <= before && pending <= closure
        invariant changed <==> closure != before
        invariant !changed ==> forall d :: d in closure - pending - {target} ==> Unneeded(d, closure, inventory)
      {
        var digest :| digest in pending;
        pending := pending - {digest};
        if digest == target {
          continue;
        }
        if digest !in byDigest || !Live(byDigest[digest]) {
          closure := closure - {digest};
          changed := true;
          continue;
        }
        var manifest := byDigest[digest];
        if |manifest.tags| > 0 || manifest.subject != NoDigest ||
           HasExternalManifestReference(digest, closure, inventory) {
          if digest in largest {
            UnneededGrows(digest, largest + {target}, closure, inventory);
            assert false;
          }
          closure := closure - {digest};
          changed := true;
        }
      }
    }
    BfsIsReachability(inventory, target);
    assert (closure - {target}) + {target} == closure;
    assert SelfContained(inventory, target, closure - {target});
  }
}
