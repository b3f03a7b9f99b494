/**
 The inventory tables: manifest and tag rows, the transactions that record observations, a
 reconciliation and a deletion, and what every sequence of them keeps.
 */
module InventoryStore {
  import opened Foundation
  import opened Inventory

  datatype Row = Row(
    state: State, subject: Digest, platforms: seq<Digest>,
    firstSeenAt: int, lastPushedAt: Option<int>, lastSeenAt: int,
    untaggedAt: Option<int>, deletedAt: Option<int>)

  datatype TagRow = TagRow(digest: Digest, firstSeenAt: int, lastMovedAt: int, lastSeenAt: int, detachedAt: Option<int>)

  datatype Observation = Observation(
    digest: Digest, subject: Digest, platforms: seq<Digest>, tag: Option<Tag>, pushedAt: Option<int>)

  datatype Tables = Tables(rows: map<Digest, Row>, tags: map<Tag, TagRow>)

  // ----- the specification of each transaction

  predicate PointsAt(tags: map<Tag, TagRow>, tag: Tag, digest: Digest) {
    tag in tags && tags[tag].digest == digest && tags[tag].detachedAt.None?
  }

  predicate Attached(tags: map<Tag, TagRow>, digest: Digest) {
    exists t | t in tags :: PointsAt(tags, t, digest)
  }

  function Refreshed(row: Row, attached: bool, now: int): Row {
    if attached then row.(state := Active, untaggedAt := None)
    else if row.deletedAt.Some? then row
    else row.(state := Untagged, untaggedAt := if row.untaggedAt.Some? then row.untaggedAt else Some(now))
  }

  function Refresh(tables: Tables, digest: Digest, now: int): Tables {
    if digest !in tables.rows then tables
    else tables.(rows := tables.rows[digest := Refreshed(tables.rows[digest], Attached(tables.tags, digest), now)])
  }

  function ObservedRow(tables: Tables, seen: Observation, now: int): Row {
    if seen.digest in tables.rows then
      var row := tables.rows[seen.digest];
      row.(subject := seen.subject, platforms := seen.platforms, lastSeenAt := now, deletedAt := None,
           lastPushedAt := if seen.pushedAt.Some? then seen.pushedAt else row.lastPushedAt)
    else
      Row(Untagged, seen.subject, seen.platforms, now, seen.pushedAt, now, Some(now), None)
  }

  function MovedTag(tables: Tables, seen: Observation, tag: Tag, now: int): TagRow {
    if tag in tables.tags then
      var row := tables.tags[tag];
      TagRow(seen.digest, row.firstSeenAt, if row.digest != seen.digest then now else row.lastMovedAt, now, None)
    else
      TagRow(seen.digest, now, now, now, None)
  }

  function Upsert(tables: Tables, seen: Observation, now: int): Tables {
    var recorded := tables.(rows := tables.rows[seen.digest := ObservedRow(tables, seen, now)]);
    match seen.tag
    case None => Refresh(recorded, seen.digest, now)
    case Some(tag) =>
      var moved := recorded.(tags := recorded.tags[tag := MovedTag(tables, seen, tag, now)]);
      var left := if tag in tables.tags && tables.tags[tag].digest != seen.digest
                  then Refresh(moved, tables.tags[tag].digest, now) else moved;
      left.(rows := left.rows[seen.digest := left.rows[seen.digest].(state := Active, untaggedAt := None)])
  }

  function UpsertAll(tables: Tables, observations: seq<Observation>, now: int): Tables {
    if observations == [] then tables
    else Upsert(UpsertAll(tables, observations[..|observations| - 1], now), observations[|observations| - 1], now)
  }

  predicate Vanished(tags: map<Tag, TagRow>, tag: Tag, seenTags: set<Tag>) {
    tag in tags && tags[tag].detachedAt.None? && tag !in seenTags
  }

  function DetachedTags(tags: map<Tag, TagRow>, seenTags: set<Tag>, now: int): map<Tag, TagRow> {
    map t | t in tags ::
      if Vanished(tags, t, seenTags) then tags[t].(detachedAt := Some(now), lastSeenAt := now) else tags[t]
  }

  function Affected(tags: map<Tag, TagRow>, seenTags: set<Tag>): set<Digest> {
    set t | t in tags && Vanished(tags, t, seenTags) :: tags[t].digest
  }

  function ReconciledRow(row: Row, affected: bool, attached: bool, seen: bool, now: int): Row {
    var refreshed := if affected then Refreshed(row, attached, now) else row;
    if refreshed.deletedAt.None? && !seen then refreshed.(state := Missing) else refreshed
  }

  function Complete(tables: Tables, seenTags: set<Tag>, seenDigests: set<Digest>, now: int): Tables {
    var tags := DetachedTags(tables.tags, seenTags, now);
    var affected := Affected(tables.tags, seenTags);
    Tables(map d | d in tables.rows ::
             ReconciledRow(tables.rows[d], d in affected, Attached(tags, d), d in seenDigests, now),
           tags)
  }

  function MarkDeleted(tables: Tables, digest: Digest, now: int): Tables {
    if digest !in tables.rows then tables
    else Tables(tables.rows[digest := tables.rows[digest].(state := Deleted, deletedAt := Some(now))],
                map t | t in tables.tags ::
                  if PointsAt(tables.tags, t, digest) then tables.tags[t].(detachedAt := Some(now)) else tables.tags[t])
  }

  /** The row of a digest, if there is one, says that its manifest is deleted, and no tag is attached to it. */
  ghost predicate RowGone(tables: Tables, digest: Digest) {
    digest in tables.rows ==>
      && tables.rows[digest].state.Deleted? && tables.rows[digest].deletedAt.Some?
      && !Attached(tables.tags, digest)
  }

  /** No row but those of the digests changed, and rows that said so before still say that they are deleted. */
  ghost predicate OnlyMarks(before: Tables, after: Tables, digests: set<Digest>) {
    && after.rows.Keys == before.rows.Keys
    && (forall d :: d in before.rows && d !in digests ==> after.rows[d] == before.rows[d])
    && (forall d :: RowGone(before, d) ==> RowGone(after, d))
    && after.tags.Keys == before.tags.Keys
    && (forall t :: t in before.tags ==> OnlyDetaches(before.tags[t], after.tags[t], digests))
  }

  /** A tag row stays as it is, or its tag is detached from one of the digests. */
  ghost predicate OnlyDetaches(before: TagRow, after: TagRow, digests: set<Digest>) {
    || after == before
    || (before.digest in digests && after.detachedAt.Some? && after == before.(detachedAt := after.detachedAt))
  }

  lemma MarkDeletedMarks(tables: Tables, digest: Digest, now: int)
    ensures RowGone(MarkDeleted(tables, digest, now), digest)
    ensures OnlyMarks(tables, MarkDeleted(tables, digest, now), {digest})
  {
  }

  lemma NothingMarked(tables: Tables)
    ensures OnlyMarks(tables, tables, {})
  {
  }

  lemma OnlyMarksMore(before: Tables, middle: Tables, after: Tables, first: set<Digest>, more: set<Digest>,
                      digests: set<Digest>)
    requires OnlyMarks(before, middle, first) && OnlyMarks(middle, after, more) && first + more <= digests
    ensures OnlyMarks(before, after, digests)
  {
    hide RowGone;
  }

  // ----- the store

  class Store {
    var rows: map<Digest, Row>
    var tags: map<Tag, TagRow>

    function Contents(): Tables
      reads this
    {
      Tables(rows, tags)
    }

    method RefreshManifestState(digest: Digest, now: int)
      modifies this`rows
      ensures Contents() == Refresh(old(Contents()), digest, now)
    {
      if digest in rows {
        var active := exists t | t in tags :: PointsAt(tags, t, digest);
        if active {
          rows := rows[digest := rows[digest].(state := Active, untaggedAt := None)];
        } else if rows[digest].deletedAt.None? {
          rows := rows[digest := rows[digest].(
            state := Untagged,
            untaggedAt := if rows[digest].untaggedAt.Some? then rows[digest].untaggedAt else Some(now))];
        } else {
          assert rows == rows[digest := rows[digest]];
        }
      }
    }

    method UpsertManifestObservation(seen: Observation, now: int)
      modifies this
      ensures Contents() == Upsert(old(Contents()), seen, now)
    {
      ghost var before := Contents();
      rows := rows[seen.digest := ObservedRow(Contents(), seen, now)];
      if seen.tag.Some? {
        var tag := seen.tag.value;
        var oldDigest := if tag in tags then Some(tags[tag].digest) else None;
        tags := tags[tag := MovedTag(Tables(rows, tags), seen, tag, now)];
        if oldDigest.Some? && oldDigest.value != seen.digest {
          RefreshManifestState(oldDigest.value, now);
        }
        rows := rows[seen.digest := rows[seen.digest].(state := Active, untaggedAt := None)];
      } else {
        RefreshManifestState(seen.digest, now);
      }
    }

    method UpsertManifestObservations(observations: seq<Observation>, now: int)
      modifies this
      ensures Contents() == UpsertAll(old(Contents()), observations, now)
    {
      for i := 0 to |observations|
        invariant Contents() == UpsertAll(old(Contents()), observations[..i], now)
      {
        assert observations[..i + 1][..i] == observations[..i];
        UpsertManifestObservation(observations[i], now);
      }
      assert observations[..|observations|] == observations;
    }

    method DetachVanishedTags(seenTags: set<Tag>, now: int) returns (affected: set<Digest>)
      modifies this`tags
      ensures tags == DetachedTags(old(tags), seenTags, now)
      ensures affected == Affected(old(tags), seenTags)
    {
      ghost var before := tags;
      var pending := set t | t in tags && tags[t].detachedAt.None?;
      ghost var all := pending;
      affected := {};
      while pending != {}
        invariant pending <= all && tags.Keys == before.Keys
        invariant forall t :: t in before ==>
                                tags[t] == if Vanished(before, t, seenTags) && t !in pending
                                           then before[t].(detachedAt := Some(now), lastSeenAt := now) else before[t]
        invariant affected == set t | t in all - pending && t !in seenTags :: before[t].digest
      {
        var tag :| tag in pending;
        pending := pending - {tag};
        ghost var known := affected;
        if tag in seenTags {
          assert affected == set t | t in all - pending && t !in seenTags :: before[t].digest;
          continue;
        }
        affected := affected + {tags[tag].digest};
        tags := tags[tag := tags[tag].(detachedAt := Some(now), lastSeenAt := now)];
        assert affected == set t | t in all - pending && t !in seenTags :: before[t].digest;
      }
      assert affected == Affected(before, seenTags);
    }

    method RefreshAll(affected: set<Digest>, now: int)
      modifies this`rows
      ensures rows.Keys == old(rows).Keys
      ensures forall d :: d in rows ==>
                            rows[d] == if d in affected then Refreshed(old(rows)[d], Attached(tags, d), now) else old(rows)[d]
    {
      var pending := affected;
      while pending != {}
        invariant pending <= affected && rows.Keys == old(rows).Keys
        invariant forall d :: d in rows ==>
                                rows[d] == if d in affected - pending then Refreshed(old(rows)[d], Attached(tags, d), now)
                                           else old(rows)[d]
      {
        var digest :| digest in pending;
        pending := pending - {digest};
        RefreshManifestState(digest, now);
      }
    }

    method MarkMissing(seenDigests: set<Digest>)
      modifies this`rows
      ensures rows.Keys == old(rows).Keys
      ensures forall d :: d in rows ==>
                            rows[d] == if old(rows)[d].deletedAt.None? && d !in seenDigests
                                       then old(rows)[d].(state := Missing) else old(rows)[d]
    {
      var pending := set d | d in rows && rows[d].deletedAt.None?;
      while pending != {}
        invariant pending <= old(rows).Keys && rows.Keys == old(rows).Keys
        invariant forall d :: d in pending ==> old(rows)[d].deletedAt.None?
        invariant forall d :: d in rows ==>
                                rows[d] == if old(rows)[d].deletedAt.None? && d !in seenDigests && d !in pending
                                           then old(rows)[d].(state := Missing) else old(rows)[d]
      {
        var digest :| digest in pending;
        pending := pending - {digest};
        if digest in seenDigests {
          continue;
        }
        rows := rows[digest := rows[digest].(state := Missing)];
      }
    }

    method CompleteInventoryReconciliation(seenTags: set<Tag>, seenDigests: set<Digest>, now: int)
      modifies this
      ensures Contents() == Complete(old(Contents()), seenTags, seenDigests, now)
    {
      var affected := DetachVanishedTags(seenTags, now);
      RefreshAll(affected, now);
      MarkMissing(seenDigests);
      assert rows == Complete(old(Contents()), seenTags, seenDigests, now).rows;
    }

    method ReconcileManifestObservations(observations: seq<Observation>, seenTags: set<Tag>, seenDigests: set<Digest>,
                                         now: int)
      modifies this
      ensures Contents() == Complete(UpsertAll(old(Contents()), observations, now), seenTags, seenDigests, now)
    {
      UpsertManifestObservations(observations, now);
      CompleteInventoryReconciliation(seenTags, seenDigests, now);
    }

    method MarkManifestDeleted(digest: Digest, now: int)
      modifies this
      ensures Contents() == MarkDeleted(old(Contents()), digest, now)
    {
      if digest in rows {
        tags := map t | t in tags :: if PointsAt(tags, t, digest) then tags[t].(detachedAt := Some(now)) else tags[t];
        rows := rows[digest := rows[digest].(state := Deleted, deletedAt := Some(now))];
      }
    }
  }

  // ----- the invariant of the tables

  ghost predicate RowFits(tables: Tables, d: Digest)
    requires d in tables.rows
  {
    var row := tables.rows[d];
    && (row.state.Active? <==> Attached(tables.tags, d))
    && (row.state.Deleted? <==> row.deletedAt.Some?)
    && (row.state.Active? ==> row.untaggedAt.None?)
    && (row.state.Untagged? || row.state.Missing? ==> row.untaggedAt.Some?)
  }

  ghost predicate Consistent(tables: Tables) {
    && (forall t :: t in tables.tags ==> tables.tags[t].digest in tables.rows)
    && (forall d :: d in tables.rows ==> RowFits(tables, d))
  }

  /** Moving one tag changes what is attached only at the two digests involved. */
  lemma AttachmentAfterMove(tags: map<Tag, TagRow>, tag: Tag, row: TagRow, d: Digest)
    requires row.detachedAt.None?
    ensures Attached(tags[tag := row], row.digest)
    ensures d != row.digest && !(tag in tags && tags[tag].digest == d) ==>
              (Attached(tags[tag := row], d) <==> Attached(tags, d))
  {
    assert PointsAt(tags[tag := row], tag, row.digest);
    forall t | t in tags && t != tag
      ensures PointsAt(tags[tag := row], t, d) <==> PointsAt(tags, t, d)
    {
    }
  }

  lemma UpsertKeepsConsistent(tables: Tables, seen: Observation, now: int)
    requires Consistent(tables)
    ensures Consistent(Upsert(tables, seen, now))
  {
    var after := Upsert(tables, seen, now);
    forall d | d in after.rows
      ensures RowFits(after, d)
    {
      assert d in tables.rows ==> RowFits(tables, d);
      if seen.tag.Some? {
        var tag := seen.tag.value;
        AttachmentAfterMove(tables.tags, tag, MovedTag(tables, seen, tag, now), d);
      }
    }
  }

  lemma {:induction false} UpsertAllKeepsConsistent(tables: Tables, observations: seq<Observation>, now: int)
    requires Consistent(tables)
    ensures Consistent(UpsertAll(tables, observations, now))
  {
    if observations != [] {
      var front := observations[..|observations| - 1];
      UpsertAllKeepsConsistent(tables, front, now);
      UpsertKeepsConsistent(UpsertAll(tables, front, now), observations[|observations| - 1], now);
    }
  }

  lemma MarkDeletedKeepsConsistent(tables: Tables, digest: Digest, now: int)
    requires Consistent(tables)
    ensures Consistent(MarkDeleted(tables, digest, now))
  {
    var after := MarkDeleted(tables, digest, now);
    forall d | d in after.rows
      ensures RowFits(after, d)
    {
      assert RowFits(tables, d);
      AttachmentAfterDeletion(tables, digest, now, d);
    }
  }

  lemma AttachmentAfterDeletion(tables: Tables, digest: Digest, now: int, d: Digest)
    ensures var after := MarkDeleted(tables, digest, now);
            digest in tables.rows ==> (Attached(after.tags, d) <==> d != digest && Attached(tables.tags, d))
  {
    var after := MarkDeleted(tables, digest, now);
    if digest in tables.rows {
      forall t | t in tables.tags
        ensures PointsAt(after.tags, t, d) <==> d != digest && PointsAt(tables.tags, t, d)
      {
      }
    }
  }

  /** After a reconciliation, a digest stays attached exactly through tags that were seen. */
  lemma AttachmentAfterComplete(tables: Tables, seenTags: set<Tag>, now: int, d: Digest)
    ensures var tags := DetachedTags(tables.tags, seenTags, now);
            && (Attached(tags, d) <==> exists t :: t in seenTags && PointsAt(tables.tags, t, d))
            && (Attached(tags, d) ==> Attached(tables.tags, d))
            && (d !in Affected(tables.tags, seenTags) ==> (Attached(tags, d) <==> Attached(tables.tags, d)))
  {
    var tags := DetachedTags(tables.tags, seenTags, now);
    forall t | t in tables.tags
      ensures PointsAt(tags, t, d) <==> t in seenTags && PointsAt(tables.tags, t, d)
      ensures PointsAt(tables.tags, t, d) && t !in seenTags ==> d in Affected(tables.tags, seenTags)
    {
      assert PointsAt(tables.tags, t, d) && t !in seenTags ==> Vanished(tables.tags, t, seenTags);
    }
  }

  /** Every seen tag that is attached points at a digest that was seen. */
  ghost predicate SeenTagsPointAtSeen(tables: Tables, seenTags: set<Tag>, seenDigests: set<Digest>) {
    forall t, d :: t in seenTags && PointsAt(tables.tags, t, d) ==> d in seenDigests
  }

  /** A reconciliation keeps the invariant exactly when no seen tag points at an unseen digest. */
  lemma CompleteKeepsConsistentExactly(tables: Tables, seenTags: set<Tag>, seenDigests: set<Digest>, now: int)
    requires Consistent(tables)
    ensures Consistent(Complete(tables, seenTags, seenDigests, now)) <==> SeenTagsPointAtSeen(tables, seenTags, seenDigests)
  {
    var after := Complete(tables, seenTags, seenDigests, now);
    if SeenTagsPointAtSeen(tables, seenTags, seenDigests) {
      forall d | d in after.rows
        ensures RowFits(after, d)
      {
        assert RowFits(tables, d);
        AttachmentAfterComplete(tables, seenTags, now, d);
      }
    } else {
      var t, d :| t in seenTags && PointsAt(tables.tags, t, d) && d !in seenDigests;
      AttachmentAfterComplete(tables, seenTags, now, d);
      assert RowFits(tables, d);
      assert !RowFits(after, d);
    }
  }

  // ----- what a reconciliation leaves behind

  /** The observations agree with what the registry resolves each tag to, and cover every seen tag. */
  ghost predicate Observes(observations: seq<Observation>, seenTags: set<Tag>, seenDigests: set<Digest>,
                           resolve: map<Tag, Digest>) {
    && seenTags == resolve.Keys
    && (forall i :: 0 <= i < |observations| ==>
                      && observations[i].digest in seenDigests
                      && (observations[i].tag.Some? ==>
                            observations[i].tag.value in resolve && observations[i].digest == resolve[observations[i].tag.value]))
    && (forall t :: t in seenTags ==> exists i :: 0 <= i < |observations| && observations[i].tag == Some(t))
    && (forall d :: d in seenDigests ==> exists i :: 0 <= i < |observations| && observations[i].digest == d)
  }

  ghost predicate ObservationsFit(observations: seq<Observation>, resolve: map<Tag, Digest>) {
    forall i :: 0 <= i < |observations| && observations[i].tag.Some? ==>
                  observations[i].tag.value in resolve && observations[i].digest == resolve[observations[i].tag.value]
  }

  ghost predicate JustSeen(row: Row) {
    row.deletedAt.None? && !row.state.Missing?
  }

  /** After the observations, observed rows are not deleted, observed tags resolve, and nothing else was undeleted. */
  lemma {:induction false} AfterObservations(tables: Tables, observations: seq<Observation>, now: int,
                                             resolve: map<Tag, Digest>)
    requires ObservationsFit(observations, resolve)
    ensures var after := UpsertAll(tables, observations, now);
            && (forall i :: 0 <= i < |observations| ==>
                              observations[i].digest in after.rows && JustSeen(after.rows[observations[i].digest]))
            && (forall i :: 0 <= i < |observations| && observations[i].tag.Some? ==>
                              PointsAt(after.tags, observations[i].tag.value, observations[i].digest))
  {
    if observations != [] {
      var n := |observations| - 1;
      var front := observations[..n];
      assert forall i :: 0 <= i < n ==> front[i] == observations[i];
      AfterObservations(tables, front, now, resolve);
      var middle := UpsertAll(tables, front, now);
      assert UpsertAll(tables, observations, now) == Upsert(middle, observations[n], now);
      UpsertSees(middle, observations[n], now);
      hide Upsert, UpsertAll, JustSeen;
      forall i | 0 <= i <= n
        ensures var after := Upsert(middle, observations[n], now);
                && observations[i].digest in after.rows && JustSeen(after.rows[observations[i].digest])
                && (observations[i].tag.Some? ==>
                      PointsAt(after.tags, observations[i].tag.value, observations[i].digest))
      {
        assert i < n ==> front[i] == observations[i];
      }
    }
  }

  /** An observation is seen afterwards; what was seen before stays so, and so do all tags but its own. */
  lemma UpsertSees(tables: Tables, seen: Observation, now: int)
    ensures var after := Upsert(tables, seen, now);
            && seen.digest in after.rows && JustSeen(after.rows[seen.digest])
            && (forall d :: d in tables.rows && JustSeen(tables.rows[d]) ==> d in after.rows && JustSeen(after.rows[d]))
            && (seen.tag.Some? ==> PointsAt(after.tags, seen.tag.value, seen.digest))
            && (forall t: Tag, d: Digest :: PointsAt(tables.tags, t, d) && seen.tag != Some(t) ==> PointsAt(after.tags, t, d))
  {
  }

  /** A row says about its manifest what was observed. */
  ghost predicate Describes(row: Row, subject: Digest, entries: set<Digest>) {
    row.subject == subject && entries <= Elements(row.platforms)
  }

  /** When all observations of a digest agree, its row describes the manifest afterwards. */
  lemma {:induction false} AfterAgreeingObservations(tables: Tables, observations: seq<Observation>, now: int,
                                                     subjectOf: Digest -> Digest, entriesOf: Digest -> set<Digest>)
    requires forall i :: 0 <= i < |observations| ==>
                           && observations[i].subject == subjectOf(observations[i].digest)
                           && entriesOf(observations[i].digest) <= Elements(observations[i].platforms)
    ensures var after := UpsertAll(tables, observations, now);
            forall i :: 0 <= i < |observations| ==>
                          var d := observations[i].digest;
                          d in after.rows && Describes(after.rows[d], subjectOf(d), entriesOf(d))
  {
    if observations != [] {
      var n := |observations| - 1;
      var front := observations[..n];
      assert forall i :: 0 <= i < n ==> front[i] == observations[i];
      AfterAgreeingObservations(tables, front, now, subjectOf, entriesOf);
      var middle := UpsertAll(tables, front, now);
      assert UpsertAll(tables, observations, now) == Upsert(middle, observations[n], now);
      UpsertKeepsDescriptions(middle, observations[n], now);
      hide Upsert, UpsertAll, Elements;
      forall i | 0 <= i <= n
        ensures var d := observations[i].digest;
                var after := Upsert(middle, observations[n], now);
                d in after.rows && Describes(after.rows[d], subjectOf(d), entriesOf(d))
      {
        assert i < n ==> front[i] == observations[i];
      }
    }
  }

  lemma UpsertKeepsDescriptions(tables: Tables, seen: Observation, now: int)
    ensures var after := Upsert(tables, seen, now);
            && after.rows.Keys == tables.rows.Keys + {seen.digest}
            && after.rows[seen.digest].subject == seen.subject && after.rows[seen.digest].platforms == seen.platforms
            && forall d :: d in tables.rows && d != seen.digest ==>
                             && after.rows[d].subject == tables.rows[d].subject
                             && after.rows[d].platforms == tables.rows[d].platforms
  {
  }

  ghost predicate Named(resolve: map<Tag, Digest>, digest: Digest) {
    exists t :: t in resolve && resolve[t] == digest
  }

  /** What the state of a row that is not deleted says about the registry. */
  ghost predicate RowAgrees(row: Row, digest: Digest, seenDigests: set<Digest>, resolve: map<Tag, Digest>) {
    && (row.state.Active? <==> Named(resolve, digest))
    && (row.state.Untagged? <==> digest in seenDigests && !Named(resolve, digest))
    && (row.state.Missing? <==> digest !in seenDigests)
  }

  lemma CompletedRowAgrees(middle: Tables, seenTags: set<Tag>, seenDigests: set<Digest>, resolve: map<Tag, Digest>,
                           now: int, d: Digest)
    requires Consistent(middle) && seenTags == resolve.Keys && d in middle.rows
    requires forall t :: t in seenTags ==> PointsAt(middle.tags, t, resolve[t]) && resolve[t] in seenDigests
    requires d in seenDigests ==> JustSeen(middle.rows[d])
    ensures var row := Complete(middle, seenTags, seenDigests, now).rows[d];
            && (d in seenDigests ==> row.deletedAt.None?)
            && (row.deletedAt.None? ==> RowAgrees(row, d, seenDigests, resolve))
  {
    AttachmentAfterComplete(middle, seenTags, now, d);
    assert RowFits(middle, d);
    assert Named(resolve, d) <==> Attached(DetachedTags(middle.tags, seenTags, now), d);
  }

  /**
   A reconciliation makes the tables agree with the registry: a row that is not deleted is
   active exactly when some live tag resolves to it, untagged when it was seen without one,
   and missing when it was not seen.
   */
  lemma ReconciliationAgrees(tables: Tables, observations: seq<Observation>, seenTags: set<Tag>,
                             seenDigests: set<Digest>,
                             resolve: map<Tag, Digest>, now: int)
    requires Consistent(tables) && Observes(observations, seenTags, seenDigests, resolve)
    ensures var after := Complete(UpsertAll(tables, observations, now), seenTags, seenDigests, now);
            && Consistent(after)
            && seenDigests <= after.rows.Keys
            && (forall d :: d in seenDigests ==> after.rows[d].deletedAt.None?)
            && (forall d :: d in after.rows && after.rows[d].deletedAt.None? ==> RowAgrees(after.rows[d], d, seenDigests, resolve))
  {
    var middle := UpsertAll(tables, observations, now);
    UpsertAllKeepsConsistent(tables, observations, now);
    AfterObservations(tables, observations, now, resolve);
    forall t | t in seenTags
      ensures PointsAt(middle.tags, t, resolve[t]) && resolve[t] in seenDigests
    {
      var i :| 0 <= i < |observations| && observations[i].tag == Some(t);
    }
    CompleteKeepsConsistentExactly(middle, seenTags, seenDigests, now);
    hide Consistent, RowAgrees, ReconciledRow, DetachedTags;
    forall d | d in middle.rows
      ensures var row := Complete(middle, seenTags, seenDigests, now).rows[d];
              && (d in seenDigests ==> row.deletedAt.None?)
              && (row.deletedAt.None? ==> RowAgrees(row, d, seenDigests, resolve))
    {
      CompletedRowAgrees(middle, seenTags, seenDigests, resolve, now, d);
    }
  }

  // ----- every sequence of transactions

  datatype Op =
    | Observe(seen: Observation, now: int)
    | Reconcile(seenTags: set<Tag>, seenDigests: set<Digest>, now: int)
    | Delete(digest: Digest, now: int)

  function Apply(tables: Tables, op: Op): Tables {
    match op
    case Observe(seen, now) => Upsert(tables, seen, now)
    case Reconcile(seenTags, seenDigests, now) => Complete(tables, seenTags, seenDigests, now)
    case Delete(digest, now) => MarkDeleted(tables, digest, now)
  }

  /** `states` are the tables before and after each operation; every reconciliation saw what its tags point at. */
  ghost predicate IsHistory(states: seq<Tables>, ops: seq<Op>) {
    && |states| == |ops| + 1
    && states[0] == Tables(map[], map[])
    && forall i :: 0 <= i < |ops| ==>
                     && states[i + 1] == Apply(states[i], ops[i])
                     && (ops[i].Reconcile? ==> SeenTagsPointAtSeen(states[i], ops[i].seenTags, ops[i].seenDigests))
  }

  lemma {:induction false} HistoryIsConsistent(states: seq<Tables>, ops: seq<Op>, n: nat)
    requires IsHistory(states, ops) && n < |states|
    ensures Consistent(states[n])
    decreases n
  {
    if n > 0 {
      HistoryIsConsistent(states, ops, n - 1);
      match ops[n - 1] {
        case Observe(seen, now) => UpsertKeepsConsistent(states[n - 1], seen, now);
        case Reconcile(seenTags, seenDigests, now) => CompleteKeepsConsistentExactly(states[n - 1], seenTags, seenDigests, now);
        case Delete(digest, now) => MarkDeletedKeepsConsistent(states[n - 1], digest, now);
      }
    }
  }

  /** One operation leaves the untagged time of a row alone that carries no tag before and after it. */
  lemma UntaggedTimeStays(tables: Tables, op: Op, d: Digest)
    requires Consistent(tables) && Consistent(Apply(tables, op))
    requires d in tables.rows && tables.rows[d].untaggedAt.Some?
    requires !Attached(Apply(tables, op).tags, d)
    ensures d in Apply(tables, op).rows && Apply(tables, op).rows[d].untaggedAt == tables.rows[d].untaggedAt
  {
    var after := Apply(tables, op);
    assert RowFits(after, d);
    if op.Observe? && op.seen.tag.Some? {
      AttachmentAfterMove(tables.tags, op.seen.tag.value, MovedTag(tables, op.seen, op.seen.tag.value, op.now), d);
    }
  }

  /** While a row stays continuously without a tag, its untagged time never moves. */
  lemma {:induction false} UntaggedTimeNeverMoves(states: seq<Tables>, ops: seq<Op>, m: nat, n: nat, d: Digest)
    requires IsHistory(states, ops) && m <= n < |states|
    requires d in states[m].rows && states[m].rows[d].untaggedAt.Some?
    requires forall k :: m <= k <= n ==> !Attached(states[k].tags, d)
    ensures d in states[n].rows && states[n].rows[d].untaggedAt == states[m].rows[d].untaggedAt
    decreases n
  {
    if m < n {
      UntaggedTimeNeverMoves(states, ops, m, n - 1, d);
      HistoryIsConsistent(states, ops, n - 1);
      HistoryIsConsistent(states, ops, n);
      assert states[n] == Apply(states[n - 1], ops[n - 1]);
      UntaggedTimeStays(states[n - 1], ops[n - 1], d);
    }
  }

  /**
   The same rule reaches across a deletion: a manifest that is deleted and pushed again without a
   tag gets a fresh untagged time if and only if it had none when it was deleted. One that was
   untagged or missing is untagged since before its deletion.
   */
  lemma PushedAgainIsUntaggedSinceBefore(tables: Tables, seen: Observation, deletedAt: int, pushedAt: int)
    requires Consistent(tables) && seen.tag.None? && seen.digest in tables.rows
    ensures var row := tables.rows[seen.digest];
            var after := Upsert(MarkDeleted(tables, seen.digest, deletedAt), seen, pushedAt).rows[seen.digest];
            && after.state.Untagged?
            && after.untaggedAt == (if row.untaggedAt.Some? then row.untaggedAt else Some(pushedAt))
            && (row.state.Untagged? || row.state.Missing? ==> after.untaggedAt == row.untaggedAt)
            && (row.state.Active? ==> after.untaggedAt == Some(pushedAt))
  {
    MarkDeletedKeepsConsistent(tables, seen.digest, deletedAt);
    AttachmentAfterDeletion(tables, seen.digest, deletedAt, seen.digest);
    assert RowFits(tables, seen.digest);
  }

  // ----- what becomes of the times

  /**
   A known row keeps the time it was first seen, takes the time of a push over, and its untagged time
   stays, ends, or begins now. A row that is new was first seen now.
   */
  ghost predicate Ages(before: Tables, after: Tables, d: Digest, push: Option<int>, now: int)
    requires d in after.rows
  {
    var row := after.rows[d];
    if d in before.rows then
      var known := before.rows[d];
      && row.firstSeenAt == known.firstSeenAt
      && row.lastPushedAt == (if push.Some? then push else known.lastPushedAt)
      && (row.untaggedAt == known.untaggedAt || row.untaggedAt == None || row.untaggedAt == Some(now))
    else
      && row.firstSeenAt == now && row.lastPushedAt == push
      && (row.untaggedAt == None || row.untaggedAt == Some(now))
  }

  lemma ObservationAges(tables: Tables, seen: Observation, now: int)
    ensures var after := Upsert(tables, seen, now);
            && tables.rows.Keys <= after.rows.Keys
            && forall d :: d in after.rows ==> Ages(tables, after, d, if d == seen.digest then seen.pushedAt else None, now)
  {
  }

  lemma {:induction false} ObservationsAge(tables: Tables, observations: seq<Observation>, now: int)
    requires forall i :: 0 <= i < |observations| ==> observations[i].pushedAt.None?
    ensures var after := UpsertAll(tables, observations, now);
            && tables.rows.Keys <= after.rows.Keys
            && forall d :: d in after.rows ==> Ages(tables, after, d, None, now)
  {
    if observations != [] {
      var n := |observations| - 1;
      ObservationsAge(tables, observations[..n], now);
      ObservationAges(UpsertAll(tables, observations[..n], now), observations[n], now);
      hide Upsert;
      var middle, after := UpsertAll(tables, observations[..n], now), UpsertAll(tables, observations, now);
      forall d | d in after.rows
        ensures Ages(tables, after, d, None, now)
      {
        assert d in middle.rows ==> Ages(tables, middle, d, None, now);
        assert Ages(middle, after, d, None, now);
      }
    }
  }

  /** Over a whole reconciliation, whose observations carry no push. */
  lemma ReconciliationAges(tables: Tables, observations: seq<Observation>, seenTags: set<Tag>,
                           seenDigests: set<Digest>, now: int)
    requires forall i :: 0 <= i < |observations| ==> observations[i].pushedAt.None?
    ensures var after := Complete(UpsertAll(tables, observations, now), seenTags, seenDigests, now);
            && tables.rows.Keys <= after.rows.Keys
            && forall d :: d in after.rows ==> Ages(tables, after, d, None, now)
  {
    ObservationsAge(tables, observations, now);
    hide UpsertAll, Attached;
    var middle := UpsertAll(tables, observations, now);
    var after := Complete(middle, seenTags, seenDigests, now);
    forall d | d in after.rows
      ensures Ages(tables, after, d, None, now)
    {
      assert Ages(tables, middle, d, None, now);
    }
  }

  /** A row that had a tag before the reconciliation, or is new, and has none afterwards is untagged since now. */
  lemma LostTagBeginsNow(before: Tables, after: Tables, d: Digest, now: int)
    requires Consistent(before) && Consistent(after)
    requires d in after.rows && Ages(before, after, d, None, now)
    requires after.rows[d].state.Untagged? && (d in before.rows ==> before.rows[d].state.Active?)
    ensures after.rows[d].untaggedAt == Some(now)
  {
    assert RowFits(after, d);
    assert d in before.rows ==> RowFits(before, d);
  }
}
