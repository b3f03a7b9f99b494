/**
 The Distribution registry as its clients see it: present manifests, tags that may dangle,
 and requests any of which may fail, including a deletion whose reply is lost.
 */
module Registry {
  import opened Foundation
  import opened ManifestGraph

  datatype Fault = NoFault | Refused | LostReply

  /** The digests an image index lists. */
  function References(document: Document): set<Digest> {
    set i | 0 <= i < |document.manifests| :: document.manifests[i].digest
  }

  function Resolve(documents: map<Digest, Document>, tags: map<Tag, Digest>, reference: Reference): Option<Digest> {
    match reference
    case ByTag(tag) => if tag in tags && tags[tag] in documents then Some(tags[tag]) else None
    case ByDigest(digest) => if digest in documents then Some(digest) else None
  }

  /** The manifest graph the present manifests form. */
  function GraphOf(documents: map<Digest, Document>, tags: map<Tag, Digest>): (graph: Graph)
    ensures forall r :: r in graph <==> Resolve(documents, tags, r).Some?
    ensures forall r :: r in graph ==> graph[r] == documents[Resolve(documents, tags, r).value]
  {
    var references := (set d | d in documents :: ByDigest(d)) + (set t | t in tags :: ByTag(t));
    map r | r in references && Resolve(documents, tags, r).Some? :: documents[Resolve(documents, tags, r).value]
  }

  /** Manifests are stored under their own digests. */
  ghost predicate Addressed(documents: map<Digest, Document>) {
    forall d :: d in documents ==> documents[d].digest == d
  }

  ghost predicate CanFetch(documents: map<Digest, Document>, tags: map<Tag, Digest>, digest: Digest) {
    exists tree :: Fetchable(GraphOf(documents, tags), ByDigest(digest), tree)
  }

  /** What can be fetched by digest can be fetched under any reference that resolves to it. */
  lemma FetchableByReference(documents: map<Digest, Document>, tags: map<Tag, Digest>, reference: Reference)
    requires var root := Resolve(documents, tags, reference); root.Some? && CanFetch(documents, tags, root.value)
    ensures exists tree :: Fetchable(GraphOf(documents, tags), reference, tree)
  {
    var root := Resolve(documents, tags, reference).value;
    hide HeightAtMost, Nodes;
    var tree :| Fetchable(GraphOf(documents, tags), ByDigest(root), tree);
    assert Fetchable(GraphOf(documents, tags), reference, tree);
  }

  ghost predicate Referrer(documents: map<Digest, Document>, subject: Digest, referrer: Digest) {
    referrer in documents && documents[referrer].subject == subject
  }

  class Distribution {
    const faults: nat -> Fault
    var calls: nat
    var documents: map<Digest, Document>
    var tags: map<Tag, Digest>
    /** Every digest a deletion was requested for, in order. */
    ghost var requested: seq<Digest>
    /** What was present when each of these requests was made. */
    ghost var presentWhen: seq<map<Digest, Document>>

    ghost predicate Valid()
      reads this
    {
      Addressed(documents) && |presentWhen| == |requested|
    }

    /** No deletion takes effect without the client learning so. */
    ghost predicate KeepsReplies() {
      forall n :: faults(n) != LostReply
    }

    /** Every deletion takes effect, whether or not the client learns so. */
    ghost predicate NeverRefuses() {
      forall n :: faults(n) != Refused
    }

    ghost predicate Reliable() {
      forall n :: faults(n) == NoFault
    }

    /** The tags that resolve to a present manifest; dangling tag links are left out. */
    method ListRepositoryTags() returns (result: Result<seq<Tag>>)
      modifies this`calls
      ensures result.Ok? ==> Distinct(result.value) && forall t :: t in result.value <==> t in tags && tags[t] in documents
      ensures calls == old(calls) + 1 && (faults(old(calls)) != NoFault ==> result.Err?)
      ensures Reliable() ==> result.Ok?
    {
      var fault := faults(calls);
      calls := calls + 1;
      if fault != NoFault {
        return Err;
      }
      var pending := set t | t in tags && tags[t] in documents;
      ghost var all := pending;
      var listed: seq<Tag> := [];
      while pending != {}
        invariant pending <= all && Elements(listed) == all - pending && Distinct(listed)
      {
        var tag :| tag in pending;
        assert tag !in Elements(listed);
        pending := pending - {tag};
        ghost var before := listed;
        listed := listed + [tag];
        assert Elements(listed) == Elements(before) + {tag};
      }
      assert forall t :: t in listed <==> t in Elements(listed);
      return Ok(listed);
    }

    method ResolveManifest(reference: Reference) returns (result: Result<Option<Digest>>)
      modifies this`calls
      ensures result.Ok? ==> result.value == Resolve(documents, tags, reference)
      ensures calls == old(calls) + 1 && (faults(old(calls)) != NoFault ==> result.Err?)
      ensures Reliable() ==> result.Ok?
    {
      var fault := faults(calls);
      calls := calls + 1;
      return if fault != NoFault then Err else Ok(Resolve(documents, tags, reference));
    }

    method FetchManifest(reference: Reference) returns (result: Result<Metadata>)
      modifies this`calls
      ensures result.Ok? ==> Fetchable(GraphOf(documents, tags), reference, result.value)
      ensures calls == old(calls) + 1 && (faults(old(calls)) != NoFault ==> result.Err?)
      ensures Reliable() && result.Err? ==> forall tree :: !Fetchable(GraphOf(documents, tags), reference, tree)
    {
      var fault := faults(calls);
      calls := calls + 1;
      if fault != NoFault {
        return Err;
      }
      result := ManifestGraph.FetchManifest(GraphOf(documents, tags), reference);
    }

    method ListReferrers(digest: Digest) returns (result: Result<seq<Digest>>)
      modifies this`calls
      ensures result.Ok? ==> forall r :: r in result.value <==> Referrer(documents, digest, r)
      ensures calls == old(calls) + 1 && (faults(old(calls)) != NoFault ==> result.Err?)
      ensures Reliable() ==> result.Ok?
    {
      var fault := faults(calls);
      calls := calls + 1;
      if fault != NoFault {
        return Err;
      }
      var pending := set r | r in documents && documents[r].subject == digest;
      ghost var all := pending;
      var listed: seq<Digest> := [];
      while pending != {}
        invariant pending <= all && Elements(listed) == all - pending
      {
        var referrer :| referrer in pending;
        pending := pending - {referrer};
        ghost var before := listed;
        listed := listed + [referrer];
        assert Elements(listed) == Elements(before) + {referrer};
      }
      assert forall r :: r in listed <==> r in Elements(listed);
      return Ok(listed);
    }

    /**
     A refused deletion changes nothing, one whose reply is lost has taken effect, and deleting what
     is not there succeeds.
     */
    method DeleteManifest(digest: Digest) returns (ok: bool)
      requires Valid()
      modifies this
      ensures Valid() && tags == old(tags) && requested == old(requested) + [digest]
      ensures presentWhen == old(presentWhen) + [old(documents)]
      ensures documents == old(documents) || documents == old(documents) - {digest}
      ensures ok || NeverRefuses() ==> documents == old(documents) - {digest}
      ensures !ok && KeepsReplies() ==> documents == old(documents)
      ensures calls == old(calls) + 1 && (faults(old(calls)) != NoFault ==> !ok)
      ensures Reliable() ==> ok
    {
      var fault := faults(calls);
      calls := calls + 1;
      requested, presentWhen := requested + [digest], presentWhen + [documents];
      if fault == Refused {
        return false;
      }
      documents := documents - {digest};
      return fault == NoFault;
    }
  }
}
