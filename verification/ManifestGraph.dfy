/**
 Reading a manifest graph from Distribution: the bounded recursive unfolding of an image
 index (`fetchManifestTree`) and the sizes derived from it.
 */
module ManifestGraph {
  import opened Foundation

  const MaxManifestTraversalDepth := 32
  const MaxManifestTraversalNodes := 512

  /** What a manifest URL may name. */
  datatype Reference = ByTag(tag: Tag) | ByDigest(digest: Digest)

  datatype PlatformName = PlatformName(os: string, architecture: string, variant: string)

  const NoPlatform := PlatformName("", "", "")

  datatype Platform = Platform(name: PlatformName, digest: Digest, compressedSize: int)

  /** One entry of the `manifests` list of an image index. */
  datatype Descriptor = Descriptor(name: PlatformName, digest: Digest)

  /** What reading the config blob of a leaf manifest yields. */
  datatype ConfigBlob = NotAnImage | Image(name: PlatformName) | Unreadable

  datatype Document = Document(
    digest: Digest, subject: Digest, manifestSize: int,
    configSize: int, layerSizes: seq<int>, config: ConfigBlob,
    manifests: seq<Descriptor>)

  datatype Metadata = Metadata(
    digest: Digest, subject: Digest, manifestSize: int,
    platforms: seq<Platform>, children: seq<Metadata>)

  /** The answers a quiescent registry gives; a missing key is a request that fails. */
  type Graph = map<Reference, Document>

  // ----- sizes

  function PositiveSum(sizes: seq<int>): int {
    if sizes == [] then 0
    else PositiveSum(sizes[..|sizes| - 1]) + (if sizes[|sizes| - 1] > 0 then sizes[|sizes| - 1] else 0)
  }

  function ContentSize(document: Document): int {
    document.configSize + PositiveSum(document.layerSizes)
  }

  function PlatformSum(platforms: seq<Platform>): int {
    if platforms == [] then 0
    else PlatformSum(platforms[..|platforms| - 1]) + platforms[|platforms| - 1].compressedSize
  }

  method CompressedContentSize(document: Document) returns (total: int)
    ensures total == ContentSize(document)
  {
    total := document.configSize;
    for i := 0 to |document.layerSizes|
      invariant total == document.configSize + PositiveSum(document.layerSizes[..i])
    {
      assert document.layerSizes[..i + 1][..i] == document.layerSizes[..i];
      if document.layerSizes[i] > 0 {
        total := total + document.layerSizes[i];
      }
    }
    assert document.layerSizes[..|document.layerSizes|] == document.layerSizes;
  }

  method LogicalCompressedSize(metadata: Metadata) returns (total: int)
    ensures total == PlatformSum(metadata.platforms)
  {
    total := 0;
    for i := 0 to |metadata.platforms|
      invariant total == PlatformSum(metadata.platforms[..i])
    {
      assert metadata.platforms[..i + 1][..i] == metadata.platforms[..i];
      total := total + metadata.platforms[i].compressedSize;
    }
    assert metadata.platforms[..|metadata.platforms|] == metadata.platforms;
  }

  // ----- what one node of the tree looks like

  /** The platform row of an index entry; an unnamed entry inherits the name of a child with a single platform. */
  function ChildPlatform(descriptor: Descriptor, child: Metadata): Platform {
    var name :=
      if descriptor.name.os == "" && descriptor.name.architecture == "" && |child.platforms| == 1
      then child.platforms[0].name else descriptor.name;
    Platform(name, descriptor.digest, PlatformSum(child.platforms))
  }

  /** The single self-referencing row of a leaf. */
  function LeafPlatform(document: Document): Platform {
    Platform(if document.config.Image? then document.config.name else NoPlatform,
             document.digest, ContentSize(document))
  }

  function ChildPlatforms(descriptors: seq<Descriptor>, children: seq<Metadata>): (rows: seq<Platform>)
    requires |descriptors| == |children|
    ensures |rows| == |children|
    ensures forall i :: 0 <= i < |rows| ==> rows[i] == ChildPlatform(descriptors[i], children[i])
  {
    seq(|children|, i requires 0 <= i < |children| => ChildPlatform(descriptors[i], children[i]))
  }

  function NodePlatforms(document: Document, children: seq<Metadata>): seq<Platform>
    requires |document.manifests| == |children|
  {
    if document.manifests == [] then [LeafPlatform(document)]
    else ChildPlatforms(document.manifests, children)
  }

  function Node(document: Document, children: seq<Metadata>): Metadata
    requires |document.manifests| == |children|
  {
    Metadata(document.digest, document.subject, document.manifestSize,
             NodePlatforms(document, children), children)
  }

  // ----- the unfolding, stated without reference to the traversal

  /** `tree` is the complete unfolding of `reference`: every node is the one its document describes. */
  ghost predicate IsUnfolding(graph: Graph, reference: Reference, tree: Metadata)
    decreases tree
  {
    && reference in graph
    && var document := graph[reference];
    && (document.manifests == [] ==> !document.config.Unreadable?)
    && |tree.children| == |document.manifests|
    && tree == Node(document, tree.children)
    && forall i :: 0 <= i < |tree.children| ==>
                     IsUnfolding(graph, ByDigest(document.manifests[i].digest), tree.children[i])
  }

  function Nodes(tree: Metadata): nat {
    1 + ForestNodes(tree.children)
  }

  function ForestNodes(trees: seq<Metadata>): nat {
    if trees == [] then 0 else ForestNodes(trees[..|trees| - 1]) + Nodes(trees[|trees| - 1])
  }

  ghost predicate HeightAtMost(tree: Metadata, limit: int) {
    0 <= limit && forall i :: 0 <= i < |tree.children| ==> HeightAtMost(tree.children[i], limit - 1)
  }

  /** What a reader of the registry gets: the unfolding, when it fits the two limits. */
  ghost predicate Fetchable(graph: Graph, reference: Reference, tree: Metadata) {
    && IsUnfolding(graph, reference, tree)
    && HeightAtMost(tree, MaxManifestTraversalDepth)
    && Nodes(tree) <= MaxManifestTraversalNodes
  }

  /** A reference has at most one unfolding. */
  lemma {:induction false} UnfoldingUnique(graph: Graph, reference: Reference, left: Metadata, right: Metadata)
    requires IsUnfolding(graph, reference, left) && IsUnfolding(graph, reference, right)
    ensures left == right
    decreases left
  {
    forall i | 0 <= i < |left.children|
      ensures left.children[i] == right.children[i]
    {
      UnfoldingUnique(graph, ByDigest(graph[reference].manifests[i].digest), left.children[i], right.children[i]);
    }
    assert left.children == right.children;
  }

  lemma ExtendForest(trees: seq<Metadata>, tree: Metadata)
    ensures ForestNodes(trees + [tree]) == ForestNodes(trees) + Nodes(tree)
  {
    assert (trees + [tree])[..|trees|] == trees;
  }

  lemma ForestContains(trees: seq<Metadata>, i: nat)
    requires i < |trees|
    ensures Nodes(trees[i]) <= ForestNodes(trees)
  {
    if i < |trees| - 1 {
      ForestContains(trees[..|trees| - 1], i);
    }
  }

  lemma ForestPrefix(trees: seq<Metadata>, n: nat)
    requires n <= |trees|
    ensures ForestNodes(trees[..n]) <= ForestNodes(trees)
  {
    if n < |trees| {
      assert trees[..|trees| - 1][..n] == trees[..n];
      ForestPrefix(trees[..|trees| - 1], n);
    } else {
      assert trees[..n] == trees;
    }
  }

  /** `wanted` is the reference of some node of the unfolding of `reference`. */
  ghost predicate Mentions(graph: Graph, reference: Reference, tree: Metadata, wanted: Reference)
    requires IsUnfolding(graph, reference, tree)
    decreases tree
  {
    || wanted == reference
    || exists i :: 0 <= i < |tree.children| &&
                   Mentions(graph, ByDigest(graph[reference].manifests[i].digest), tree.children[i], wanted)
  }

  /** Whatever an unfolding mentions has an unfolding of its own that is no larger. */
  lemma {:induction false} MentionedUnfolds(graph: Graph, reference: Reference, tree: Metadata, wanted: Reference)
    returns (inner: Metadata)
    requires IsUnfolding(graph, reference, tree) && Mentions(graph, reference, tree, wanted)
    ensures IsUnfolding(graph, wanted, inner) && Nodes(inner) <= Nodes(tree)
    decreases tree
  {
    if wanted == reference {
      inner := tree;
    } else {
      var i :| 0 <= i < |tree.children| &&
               Mentions(graph, ByDigest(graph[reference].manifests[i].digest), tree.children[i], wanted);
      inner := MentionedUnfolds(graph, ByDigest(graph[reference].manifests[i].digest), tree.children[i], wanted);
      ForestContains(tree.children, i);
    }
  }

  /** Below a node with a finite unfolding, that node's own reference never comes up again. */
  lemma NoCycle(graph: Graph, reference: Reference, tree: Metadata, i: nat)
    requires IsUnfolding(graph, reference, tree) && i < |tree.children|
    ensures !Mentions(graph, ByDigest(graph[reference].manifests[i].digest), tree.children[i], reference)
  {
    var child := ByDigest(graph[reference].manifests[i].digest);
    if Mentions(graph, child, tree.children[i], reference) {
      var inner := MentionedUnfolds(graph, child, tree.children[i], reference);
      UnfoldingUnique(graph, reference, inner, tree);
      ForestContains(tree.children, i);
      assert false;
    }
  }

  // ----- the traversal

  class Traversal {
    var visiting: set<Reference>
    var depth: nat
    var nodes: nat

    constructor ()
      ensures visiting == {} && depth == 0 && nodes == 0
    {
      visiting, depth, nodes := {}, 0, 0;
    }
  }

  /** `tree` is an unfolding that still fits below a traversal that is `depth` deep and has read `nodes` manifests. */
  ghost predicate Fits(graph: Graph, reference: Reference, tree: Metadata, depth: nat, nodes: nat) {
    && IsUnfolding(graph, reference, tree)
    && HeightAtMost(tree, MaxManifestTraversalDepth - depth)
    && nodes + Nodes(tree) <= MaxManifestTraversalNodes
  }

  /** An unfolding of `reference` that runs into a reference that is being visited. */
  ghost predicate Blocked(graph: Graph, reference: Reference, tree: Metadata, visiting: set<Reference>)
    requires IsUnfolding(graph, reference, tree)
  {
    exists a :: a in visiting && Mentions(graph, reference, tree, a)
  }

  /** No unfolding of `reference` still fits, except by running into a reference that is being visited. */
  ghost predicate NoneFits(graph: Graph, reference: Reference, depth: nat, nodes: nat, visiting: set<Reference>) {
    forall tree :: Fits(graph, reference, tree, depth, nodes) ==> Blocked(graph, reference, tree, visiting)
  }

  /** `read` unfolds the first entries of the index `reference`. */
  ghost predicate UnfoldsPrefix(graph: Graph, document: Document, read: seq<Metadata>) {
    && |read| <= |document.manifests|
    && forall j :: 0 <= j < |read| ==> IsUnfolding(graph, ByDigest(document.manifests[j].digest), read[j])
  }

  ghost predicate AllWithin(trees: seq<Metadata>, limit: int) {
    forall j :: 0 <= j < |trees| ==> HeightAtMost(trees[j], limit)
  }

  lemma PrefixIsRead(graph: Graph, reference: Reference, tree: Metadata, read: seq<Metadata>)
    requires IsUnfolding(graph, reference, tree) && UnfoldsPrefix(graph, graph[reference], read)
    ensures read == tree.children[..|read|]
  {
    forall j | 0 <= j < |read|
      ensures read[j] == tree.children[j]
    {
      UnfoldingUnique(graph, ByDigest(graph[reference].manifests[j].digest), read[j], tree.children[j]);
    }
  }

  lemma NextChildFits(graph: Graph, reference: Reference, tree: Metadata, depth: nat, nodes: nat, i: nat)
    requires Fits(graph, reference, tree, depth, nodes) && i < |tree.children|
    ensures Fits(graph, ByDigest(graph[reference].manifests[i].digest), tree.children[i],
                 depth + 1, nodes + 1 + ForestNodes(tree.children[..i]))
  {
    assert tree.children[..i + 1][..i] == tree.children[..i];
    ForestPrefix(tree.children, i + 1);
  }

  /** Once a child was refused, the index above it has no fitting unfolding either. */
  lemma RefusedChild(graph: Graph, reference: Reference, depth: nat, nodes: nat,
                     visiting: set<Reference>, read: seq<Metadata>)
    requires reference in graph && UnfoldsPrefix(graph, graph[reference], read)
    requires |read| < |graph[reference].manifests|
    requires NoneFits(graph, ByDigest(graph[reference].manifests[|read|].digest),
                      depth + 1, nodes + 1 + ForestNodes(read), visiting + {reference})
    ensures NoneFits(graph, reference, depth, nodes, visiting)
  {
    forall tree | Fits(graph, reference, tree, depth, nodes)
      ensures Blocked(graph, reference, tree, visiting)
    {
      var i := |read|;
      PrefixIsRead(graph, reference, tree, read);
      NextChildFits(graph, reference, tree, depth, nodes, i);
      BlockedAbove(graph, reference, tree, i, visiting);
    }
  }

  lemma BlockedAbove(graph: Graph, reference: Reference, tree: Metadata, i: nat, visiting: set<Reference>)
    requires IsUnfolding(graph, reference, tree) && i < |tree.children|
    requires Blocked(graph, ByDigest(graph[reference].manifests[i].digest), tree.children[i], visiting + {reference})
    ensures Blocked(graph, reference, tree, visiting)
  {
    NoCycle(graph, reference, tree, i);
    var a :| a in visiting + {reference} &&
             Mentions(graph, ByDigest(graph[reference].manifests[i].digest), tree.children[i], a);
    assert a in visiting && Mentions(graph, reference, tree, a);
  }

  /** A completed node is an unfolding that fits. */
  lemma CompletedNode(graph: Graph, reference: Reference, children: seq<Metadata>, depth: nat, nodes: nat)
    requires reference in graph && UnfoldsPrefix(graph, graph[reference], children)
    requires |children| == |graph[reference].manifests|
    requires graph[reference].manifests == [] ==> !graph[reference].config.Unreadable?
    requires depth <= MaxManifestTraversalDepth && AllWithin(children, MaxManifestTraversalDepth - depth - 1)
    requires nodes + 1 + ForestNodes(children) <= MaxManifestTraversalNodes
    ensures Fits(graph, reference, Node(graph[reference], children), depth, nodes)
  {
  }

  /** Nothing fits a reference that is refused outright. */
  lemma RefusedReference(graph: Graph, reference: Reference, depth: nat, nodes: nat, visiting: set<Reference>)
    requires || depth > MaxManifestTraversalDepth || nodes >= MaxManifestTraversalNodes
             || reference in visiting || reference !in graph
             || (graph[reference].manifests == [] && graph[reference].config.Unreadable?)
    ensures NoneFits(graph, reference, depth, nodes, visiting)
  {
    forall tree | Fits(graph, reference, tree, depth, nodes)
      ensures Blocked(graph, reference, tree, visiting)
    {
      assert Mentions(graph, reference, tree, reference);
    }
  }

  method FetchManifestTree(graph: Graph, reference: Reference, traversal: Traversal)
    returns (result: Result<Metadata>)
    modifies traversal
    ensures traversal.visiting == old(traversal.visiting) && traversal.depth == old(traversal.depth)
    ensures old(traversal.nodes) <= traversal.nodes
    ensures old(traversal.nodes) <= MaxManifestTraversalNodes ==> traversal.nodes <= MaxManifestTraversalNodes
    ensures result.Ok? ==>
              && Fits(graph, reference, result.value, old(traversal.depth), old(traversal.nodes))
              && traversal.nodes == old(traversal.nodes) + Nodes(result.value)
    ensures result.Err? ==>
              NoneFits(graph, reference, old(traversal.depth), old(traversal.nodes), old(traversal.visiting))
    decreases MaxManifestTraversalDepth + 1 - traversal.depth
  {
    ghost var depth, nodes, visiting := traversal.depth, traversal.nodes, traversal.visiting;
    if traversal.depth > MaxManifestTraversalDepth {
      RefusedReference(graph, reference, depth, nodes, visiting);
      return Err;
    }
    if traversal.nodes >= MaxManifestTraversalNodes {
      RefusedReference(graph, reference, depth, nodes, visiting);
      return Err;
    }
    if reference in traversal.visiting {
      RefusedReference(graph, reference, depth, nodes, visiting);
      return Err;
    }
    traversal.nodes := traversal.nodes + 1;
    traversal.visiting := traversal.visiting + {reference};
    result := FetchVisited(graph, reference, traversal, nodes, visiting);
    traversal.visiting := traversal.visiting - {reference};
  }

  /** The body of the traversal while `reference` is marked as being visited. */
  method FetchVisited(graph: Graph, reference: Reference, traversal: Traversal,
                      ghost nodes: nat, ghost visiting: set<Reference>)
    returns (result: Result<Metadata>)
    requires traversal.depth <= MaxManifestTraversalDepth
    requires traversal.nodes == nodes + 1 <= MaxManifestTraversalNodes
    requires traversal.visiting == visiting + {reference}
    modifies traversal
    ensures traversal.visiting == old(traversal.visiting) && traversal.depth == old(traversal.depth)
    ensures old(traversal.nodes) <= traversal.nodes <= MaxManifestTraversalNodes
    ensures result.Ok? ==>
              && Fits(graph, reference, result.value, traversal.depth, nodes)
              && traversal.nodes == nodes + Nodes(result.value)
    ensures result.Err? ==> NoneFits(graph, reference, traversal.depth, nodes, visiting)
    decreases MaxManifestTraversalDepth + 1 - traversal.depth, 2
  {
    hide IsUnfolding, HeightAtMost, Mentions, NoneFits;
    if reference !in graph {
      RefusedReference(graph, reference, traversal.depth, nodes, visiting);
      return Err;
    }
    var document := graph[reference];
    var read := FetchChildren(graph, reference, traversal, nodes, visiting);
    if read.Err? {
      return Err;
    }
    var platforms, children := read.value.0, read.value.1;
    if document.manifests == [] {
      if document.config.Unreadable? {
        RefusedReference(graph, reference, traversal.depth, nodes, visiting);
        return Err;
      }
      var size := CompressedContentSize(document);
      platforms := [Platform(if document.config.Image? then document.config.name else NoPlatform,
                             document.digest, size)];
    }
    CompletedNode(graph, reference, children, traversal.depth, nodes);
    var tree := Metadata(document.digest, document.subject, document.manifestSize, platforms, children);
    return Ok(tree);
  }

  lemma NothingRead(graph: Graph, document: Document, depth: nat, nodes: nat)
    requires nodes + 1 <= MaxManifestTraversalNodes
    ensures ReadSoFar(graph, document, [], depth, nodes, nodes + 1) && RowsFor(document, [], [])
  {
  }

  lemma PrefixGrows(graph: Graph, document: Document, read: seq<Metadata>, child: Metadata)
    requires UnfoldsPrefix(graph, document, read) && |read| < |document.manifests|
    requires IsUnfolding(graph, ByDigest(document.manifests[|read|].digest), child)
    ensures UnfoldsPrefix(graph, document, read + [child])
  {
    hide IsUnfolding;
    var more := read + [child];
    forall j | 0 <= j < |more|
      ensures IsUnfolding(graph, ByDigest(document.manifests[j].digest), more[j])
    {
      assert j < |read| ==> more[j] == read[j];
    }
  }

  lemma WithinGrows(read: seq<Metadata>, child: Metadata, limit: int)
    requires AllWithin(read, limit) && HeightAtMost(child, limit)
    ensures AllWithin(read + [child], limit)
  {
    hide HeightAtMost;
    var more := read + [child];
    forall j | 0 <= j < |more|
      ensures HeightAtMost(more[j], limit)
    {
      assert j < |read| ==> more[j] == read[j];
    }
  }

  /** One more child that fits keeps what is known about the children read so far. */
  lemma OneMoreChild(graph: Graph, document: Document, read: seq<Metadata>, child: Metadata, depth: nat, nodes: nat)
    requires UnfoldsPrefix(graph, document, read) && AllWithin(read, MaxManifestTraversalDepth - depth - 1)
    requires |read| < |document.manifests|
    requires Fits(graph, ByDigest(document.manifests[|read|].digest), child, depth + 1, nodes + 1 + ForestNodes(read))
    ensures UnfoldsPrefix(graph, document, read + [child])
    ensures AllWithin(read + [child], MaxManifestTraversalDepth - depth - 1)
    ensures ForestNodes(read + [child]) == ForestNodes(read) + Nodes(child)
    ensures nodes + 1 + ForestNodes(read + [child]) <= MaxManifestTraversalNodes
  {
    hide UnfoldsPrefix, AllWithin, IsUnfolding, HeightAtMost, Nodes, ForestNodes;
    ExtendForest(read, child);
    PrefixGrows(graph, document, read, child);
    WithinGrows(read, child, MaxManifestTraversalDepth - depth - 1);
  }

  /** `rows` are the platform rows of the children read so far. */
  ghost predicate RowsFor(document: Document, read: seq<Metadata>, rows: seq<Platform>) {
    && |rows| == |read| <= |document.manifests|
    && forall j :: 0 <= j < |rows| ==> rows[j] == ChildPlatform(document.manifests[j], read[j])
  }

  lemma OneMoreRow(document: Document, read: seq<Metadata>, rows: seq<Platform>, child: Metadata)
    requires RowsFor(document, read, rows) && |read| < |document.manifests|
    ensures RowsFor(document, read + [child], rows + [ChildPlatform(document.manifests[|read|], child)])
  {
  }

  lemma AllRows(document: Document, read: seq<Metadata>, rows: seq<Platform>)
    requires RowsFor(document, read, rows) && |read| == |document.manifests|
    ensures rows == ChildPlatforms(document.manifests, read)
  {
  }

  /** The row of one entry: its own platform name, or the single one its child has, and the child's size. */
  method ChildRow(descriptor: Descriptor, child: Metadata) returns (row: Platform)
    ensures row == ChildPlatform(descriptor, child)
  {
    var size := LogicalCompressedSize(child);
    var name := descriptor.name;
    if name.os == "" && name.architecture == "" && |child.platforms| == 1 {
      name := child.platforms[0].name;
    }
    row := Platform(name, descriptor.digest, size);
  }

  /** What is known after some entries of an index have been read. */
  ghost predicate ReadSoFar(graph: Graph, document: Document, read: seq<Metadata>, depth: nat, nodes: nat, count: nat) {
    && UnfoldsPrefix(graph, document, read)
    && AllWithin(read, MaxManifestTraversalDepth - depth - 1)
    && count == nodes + 1 + ForestNodes(read) <= MaxManifestTraversalNodes
  }

  /** Reads the next entry of an index, one level down. */
  method FetchChild(graph: Graph, reference: Reference, traversal: Traversal, ghost read: seq<Metadata>, next: nat,
                    ghost nodes: nat, ghost visiting: set<Reference>)
    returns (result: Result<Metadata>)
    requires reference in graph && next == |read| < |graph[reference].manifests|
    requires ReadSoFar(graph, graph[reference], read, traversal.depth, nodes, traversal.nodes)
    requires traversal.depth <= MaxManifestTraversalDepth && traversal.visiting == visiting + {reference}
    modifies traversal
    ensures traversal.visiting == old(traversal.visiting) && traversal.depth == old(traversal.depth)
    ensures old(traversal.nodes) <= traversal.nodes <= MaxManifestTraversalNodes
    ensures result.Ok? ==>
              ReadSoFar(graph, graph[reference], read + [result.value], traversal.depth, nodes, traversal.nodes)
    ensures result.Err? ==> NoneFits(graph, reference, traversal.depth, nodes, visiting)
    decreases MaxManifestTraversalDepth + 1 - traversal.depth, 0
  {
    hide UnfoldsPrefix, AllWithin, ForestNodes, Fits, NoneFits;
    var document := graph[reference];
    traversal.depth := traversal.depth + 1;
    result := FetchManifestTree(graph, ByDigest(document.manifests[next].digest), traversal);
    traversal.depth := traversal.depth - 1;
    if result.Err? {
      RefusedChild(graph, reference, traversal.depth, nodes, visiting, read);
    } else {
      OneMoreChild(graph, document, read, result.value, traversal.depth, nodes);
    }
  }

  /** Reads the entries of an index one after the other, with the platform row of each. */
  method FetchChildren(graph: Graph, reference: Reference, traversal: Traversal, ghost nodes: nat,
                       ghost visiting: set<Reference>)
    returns (result: Result<(seq<Platform>, seq<Metadata>)>)
    requires reference in graph && traversal.depth <= MaxManifestTraversalDepth
    requires traversal.nodes == nodes + 1 <= MaxManifestTraversalNodes
    requires traversal.visiting == visiting + {reference}
    modifies traversal
    ensures traversal.visiting == old(traversal.visiting) && traversal.depth == old(traversal.depth)
    ensures old(traversal.nodes) <= traversal.nodes <= MaxManifestTraversalNodes
    ensures result.Ok? ==>
              && |result.value.1| == |graph[reference].manifests|
              && result.value.0 == ChildPlatforms(graph[reference].manifests, result.value.1)
              && ReadSoFar(graph, graph[reference], result.value.1, traversal.depth, nodes, traversal.nodes)
    ensures result.Err? ==> NoneFits(graph, reference, traversal.depth, nodes, visiting)
    decreases MaxManifestTraversalDepth + 1 - traversal.depth, 1
  {
    NothingRead(graph, graph[reference], traversal.depth, nodes);
    hide *;
    var document := graph[reference];
    var platforms: seq<Platform> := [];
    var children: seq<Metadata> := [];
    for i := 0 to |document.manifests|
      invariant |children| == i && RowsFor(document, children, platforms)
      invariant traversal.visiting == visiting + {reference} && traversal.depth == old(traversal.depth)
      invariant old(traversal.nodes) <= traversal.nodes <= MaxManifestTraversalNodes
      invariant ReadSoFar(graph, document, children, traversal.depth, nodes, traversal.nodes)
    {
      var child := FetchChild(graph, reference, traversal, children, i, nodes, visiting);
      if child.Err? {
        return Err;
      }
      OneMoreRow(document, children, platforms, child.value);
      var row := ChildRow(document.manifests[i], child.value);
      platforms := platforms + [row];
      children := children + [child.value];
    }
    AllRows(document, children, platforms);
    return Ok((platforms, children));
  }

  /** A fetch succeeds exactly when the reference has an unfolding within both limits, and returns it. */
  method FetchManifest(graph: Graph, reference: Reference) returns (result: Result<Metadata>)
    ensures result.Ok? ==> Fetchable(graph, reference, result.value)
    ensures result.Err? ==> forall tree :: !Fetchable(graph, reference, tree)
  {
    var traversal := new Traversal();
    result := FetchManifestTree(graph, reference, traversal);
    assert forall tree :: Fetchable(graph, reference, tree) == Fits(graph, reference, tree, 0, 0);
  }

  // ----- content of the leaves

  function LeafContent(graph: Graph, reference: Reference, tree: Metadata): int
    requires IsUnfolding(graph, reference, tree)
    decreases tree, 1, 0
  {
    if graph[reference].manifests == [] then ContentSize(graph[reference])
    else ForestContent(graph, reference, tree, |tree.children|)
  }

  function ForestContent(graph: Graph, reference: Reference, tree: Metadata, n: nat): int
    requires IsUnfolding(graph, reference, tree) && n <= |tree.children|
    decreases tree, 0, n
  {
    if n == 0 then 0
    else ForestContent(graph, reference, tree, n - 1)
         + LeafContent(graph, ByDigest(graph[reference].manifests[n - 1].digest), tree.children[n - 1])
  }

  lemma {:induction false} ForestStep(graph: Graph, reference: Reference, tree: Metadata, n: nat)
    requires IsUnfolding(graph, reference, tree) && 0 < n <= |tree.children|
    ensures ForestContent(graph, reference, tree, n) ==
            ForestContent(graph, reference, tree, n - 1)
            + LeafContent(graph, ByDigest(graph[reference].manifests[n - 1].digest), tree.children[n - 1])
  {
    hide LeafContent;
  }

  lemma SumStep(platforms: seq<Platform>, n: nat)
    requires 0 < n <= |platforms|
    ensures PlatformSum(platforms[..n]) == PlatformSum(platforms[..n - 1]) + platforms[n - 1].compressedSize
  {
    assert platforms[..n][..n - 1] == platforms[..n - 1];
  }

  lemma {:induction false} PlatformPrefix(graph: Graph, reference: Reference, tree: Metadata, n: nat)
    requires IsUnfolding(graph, reference, tree) && graph[reference].manifests != [] && n <= |tree.children|
    ensures n <= |tree.platforms| && PlatformSum(tree.platforms[..n]) == ForestContent(graph, reference, tree, n)
    decreases tree, 0, n
  {
    hide IsUnfolding, LeafContent;
    RowsOfEntries(graph, reference, tree);
    if n > 0 {
      PlatformPrefix(graph, reference, tree, n - 1);
      ForestStep(graph, reference, tree, n);
      EntryUnfolds(graph, reference, tree, n - 1);
      hide PlatformSum, ForestContent;
      SumStep(tree.platforms, n);
      SizeIsLeafContent(graph, ByDigest(graph[reference].manifests[n - 1].digest), tree.children[n - 1]);
    }
  }

  lemma RowsOfEntries(graph: Graph, reference: Reference, tree: Metadata)
    requires IsUnfolding(graph, reference, tree) && graph[reference].manifests != []
    ensures reference in graph && |tree.platforms| == |tree.children| == |graph[reference].manifests|
  {
  }

  /** Each entry of an index has its own unfolding, and its row carries that unfolding's size. */
  lemma EntryUnfolds(graph: Graph, reference: Reference, tree: Metadata, i: nat)
    requires IsUnfolding(graph, reference, tree) && graph[reference].manifests != [] && i < |tree.children|
    ensures |tree.platforms| == |tree.children| == |graph[reference].manifests|
    ensures IsUnfolding(graph, ByDigest(graph[reference].manifests[i].digest), tree.children[i])
    ensures tree.children[i] < tree
    ensures tree.platforms[i].compressedSize == PlatformSum(tree.children[i].platforms)
  {
  }

  /** The logical size of a tree is the content of its leaves, counted once for every occurrence. */
  lemma {:induction false} SizeIsLeafContent(graph: Graph, reference: Reference, tree: Metadata)
    requires IsUnfolding(graph, reference, tree)
    ensures PlatformSum(tree.platforms) == LeafContent(graph, reference, tree)
    decreases tree, 1, 0
  {
    if graph[reference].manifests != [] {
      PlatformPrefix(graph, reference, tree, |tree.children|);
      assert tree.platforms[..|tree.children|] == tree.platforms;
    } else {
      assert tree.platforms[..0] == [];
      assert PlatformSum(tree.platforms) == PlatformSum([]) + tree.platforms[0].compressedSize;
    }
  }

  // ----- the rows of a tree, in terms of the documents

  /** A manifest without entries has one row: its own digest, the platform of its image configuration, and a size. */
  lemma LeafRow(graph: Graph, reference: Reference, tree: Metadata)
    requires IsUnfolding(graph, reference, tree) && graph[reference].manifests == []
    ensures var document, rows := graph[reference], tree.platforms;
            && |rows| == 1 && rows[0].digest == document.digest == tree.digest
            && rows[0].name == (if document.config.Image? then document.config.name else NoPlatform)
            && (document.layerSizes == [] ==> rows[0].compressedSize == document.configSize)
  {
  }

  /** Each layer adds its size to that, unless the size is negative. */
  lemma LayerAddsItsSize(graph: Graph, more: Graph, reference: Reference, tree: Metadata, grown: Metadata, layer: int)
    requires IsUnfolding(graph, reference, tree) && graph[reference].manifests == []
    requires IsUnfolding(more, reference, grown)
    requires more[reference] == graph[reference].(layerSizes := graph[reference].layerSizes + [layer])
    ensures |tree.platforms| == |grown.platforms| == 1
    ensures grown.platforms[0].compressedSize ==
            tree.platforms[0].compressedSize + (if layer > 0 then layer else 0)
  {
    var layers := more[reference].layerSizes;
    assert layers[..|layers| - 1] == graph[reference].layerSizes;
  }

  /** An index has a row for each entry: its digest, its own platform or else its child's, and the child's size. */
  lemma IndexRows(graph: Graph, reference: Reference, tree: Metadata, i: nat)
    requires IsUnfolding(graph, reference, tree) && i < |graph[reference].manifests|
    ensures |tree.platforms| == |tree.children| == |graph[reference].manifests|
    ensures var entry, row, child := graph[reference].manifests[i], tree.platforms[i], tree.children[i];
            && row.digest == entry.digest
            && row.name == (if entry.name.os == "" && entry.name.architecture == "" && |child.platforms| == 1
                            then child.platforms[0].name else entry.name)
            && (|child.platforms| == 1 ==> row.compressedSize == child.platforms[0].compressedSize)
  {
    var child := tree.children[i];
    if |child.platforms| == 1 {
      assert child.platforms[..0] == [];
      assert PlatformSum(child.platforms) == PlatformSum([]) + child.platforms[0].compressedSize;
    }
  }

  ghost predicate Links(graph: Graph, parent: Reference, child: Reference) {
    && parent in graph
    && exists i :: 0 <= i < |graph[parent].manifests| && ByDigest(graph[parent].manifests[i].digest) == child
  }

  /** `path` follows descriptor links from its first reference to its last. */
  ghost predicate IsWalk(graph: Graph, path: seq<Reference>) {
    path != [] && (|path| > 1 ==> Links(graph, path[0], path[1]) && IsWalk(graph, path[1..]))
  }

  lemma {:induction false} WalkIsMentioned(graph: Graph, path: seq<Reference>, tree: Metadata) returns (i: nat)
    requires IsWalk(graph, path) && |path| > 1 && IsUnfolding(graph, path[0], tree)
    ensures i < |tree.children|
    ensures Mentions(graph, ByDigest(graph[path[0]].manifests[i].digest), tree.children[i], path[|path| - 1])
    decreases |path|
  {
    i :| 0 <= i < |graph[path[0]].manifests| && ByDigest(graph[path[0]].manifests[i].digest) == path[1];
    if |path| > 2 {
      var j := WalkIsMentioned(graph, path[1..], tree.children[i]);
    }
  }

  /** A reference that lies on a cycle is refused: no tree is an answer for it. */
  lemma CyclicIsRefused(graph: Graph, cycle: seq<Reference>, tree: Metadata)
    requires IsWalk(graph, cycle) && |cycle| > 1 && cycle[0] == cycle[|cycle| - 1]
    ensures !Fetchable(graph, cycle[0], tree)
  {
    if Fetchable(graph, cycle[0], tree) {
      var i := WalkIsMentioned(graph, cycle, tree);
      NoCycle(graph, cycle[0], tree, i);
      assert false;
    }
  }
}
