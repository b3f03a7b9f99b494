/** The rows of the manifest inventory, as the deletion and retention code reads them. */
module Inventory {
  import opened Foundation

  datatype State = Active | Untagged | Missing | Deleted

  datatype Manifest = Manifest(
    digest: Digest, platforms: seq<Digest>, tags: seq<Tag>, subject: Digest, state: State,
    firstSeenAt: int, lastPushedAt: Option<int>, untaggedAt: Option<int>)

  predicate Live(manifest: Manifest) {
    !manifest.state.Deleted? && !manifest.state.Missing?
  }

  /** At most one row per digest, which the inventory table enforces. */
  ghost predicate UniqueDigests(inventory: seq<Manifest>) {
    forall i, j :: 0 <= i < j < |inventory| ==> inventory[i].digest != inventory[j].digest
  }

  /** The row a digest-indexed map built from the rows holds: the last one. */
  function Find(inventory: seq<Manifest>, digest: Digest): (row: Option<Manifest>)
    ensures row.Some? ==> row.value in inventory && row.value.digest == digest
    ensures row.None? ==> forall m :: m in inventory ==> m.digest != digest
  {
    if inventory == [] then None
    else if inventory[|inventory| - 1].digest == digest then Some(inventory[|inventory| - 1])
    else Find(inventory[..|inventory| - 1], digest)
  }

  method IndexByDigest(inventory: seq<Manifest>) returns (byDigest: map<Digest, Manifest>)
    ensures forall d :: d in byDigest <==> Find(inventory, d).Some?
    ensures forall d :: d in byDigest ==> byDigest[d] == Find(inventory, d).value
  {
    byDigest := map[];
    for i := 0 to |inventory|
      invariant forall d :: d in byDigest <==> Find(inventory[..i], d).Some?
      invariant forall d :: d in byDigest ==> byDigest[d] == Find(inventory[..i], d).value
    {
      assert inventory[..i + 1][..i] == inventory[..i];
      byDigest := byDigest[inventory[i].digest := inventory[i]];
    }
    assert inventory[..|inventory|] == inventory;
  }

  /** With unique digests, looking a row up by its digest finds that row. */
  lemma FindsRow(inventory: seq<Manifest>, manifest: Manifest)
    requires UniqueDigests(inventory) && manifest in inventory
    ensures Find(inventory, manifest.digest) == Some(manifest)
  {
    var row := Find(inventory, manifest.digest).value;
    var i :| 0 <= i < |inventory| && inventory[i] == row;
    var j :| 0 <= j < |inventory| && inventory[j] == manifest;
  }
}
