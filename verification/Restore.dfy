/**
 Restoring a backup set: staging, promotion by renames with an undo log, and what is left
 behind when a step fails.
 */
module Restore {
  import opened Foundation
  import opened Archive
  import opened BackupSet
  import opened ChecksumFile

  const TargetCount := 3

  const StagingName: Name := ".grom-restore-staging"
  const MarkerName: Name := ".grom-restore.json"
  const MarkerMode: Mode := 0x1A4

  /** A name at the top of one of the three targets. */
  type Place = (nat, Name)

  /** How the promotion ended: by itself, undone, or with some of its undoing failed. */
  datatype Promotion = Promoted | Undone | Stuck

  /** What a restore has come to. */
  datatype Outcome =
    | Restored(manifest: BackupManifest)
      /** Nothing was touched. */
    | Refused
      /** A staging directory could not be created. */
    | NotStaged
      /** Failed, with every promoted entry moved back. */
    | Failed
      /** Failed, and so did a step of the undoing: the targets are dirty. */
    | Dirty

  // ----- file systems

  /** Everything in a directory, without the directory itself. */
  function Inner(fs: FileSystem): FileSystem {
    fs - {[]}
  }

  function TopNames(fs: FileSystem): set<Name> {
    set path | path in fs && path != [] :: path[0]
  }

  function StagedNow(staging: Option<FileSystem>): FileSystem {
    if staging.None? then map[] else staging.value
  }

  // ----- staging

  /** The component of the manifest that goes to target `i`: a PostgreSQL dump shifts the later ones. */
  function ComponentIndex(database: Database, i: nat): nat {
    if database.Postgres? && i > 0 then i + 1 else i
  }

  function ExtractComponent(codec: Codec, directory: BackupDirectory, component: Component): Result<FileSystem> {
    if component.file !in directory then Err
    else
      var entries := codec.untar(directory[component.file]);
      if entries.Err? then Err
      else if Measure(component.entryCount, component.contentBytes) != Measure(|entries.value|, ContentBytes(entries.value))
      then Err
      else ExtractAll(EmptyStaging, {}, entries.value)
  }

  /** The tree that was backed up for target `i`. */
  function SourceOf(sources: Sources, i: nat): Tree {
    if i == 0 then sources.gromData else if i == 1 then sources.signingCerts else sources.registryData
  }

  /**
   Extracting a created set gives back, for each target, exactly the tree it was created from,
   for both database kinds.
   */
  lemma StagedIsSource(codec: Codec, options: Options, sources: Sources, directory: BackupDirectory, i: nat)
    requires i < TargetCount && Reliable(codec) && Creatable(codec, options, sources)
    requires Stored(codec, sources, DatabaseOf(options), directory)
    requires SourceOf(sources, i).Dir? && DistinctNames(SourceOf(sources, i))
    ensures ComponentIndex(DatabaseOf(options), i) < |ManifestFor(codec, options, sources).components|
    ensures var component := ManifestFor(codec, options, sources).components[ComponentIndex(DatabaseOf(options), i)];
            ExtractComponent(codec, directory, component) == Ok(Flatten([], SourceOf(sources, i)))
  {
    var database := DatabaseOf(options);
    var name := if i == 0 then GromData else if i == 1 then SigningCerts else RegistryData;
    var tree := SourceOf(sources, i);
    assert Expected(database)[ComponentIndex(database, i)] == name;
    assert name in Expected(database) && SourceFits(sources, name);
    RoundTrip(tree.mode, tree.kids);
  }

  /** What extraction has to yield for target `i`. */
  function Extracted(codec: Codec, directory: BackupDirectory, m: BackupManifest, i: nat): Result<FileSystem> {
    if ComponentIndex(m.database, i) >= |m.components| then Err
    else ExtractComponent(codec, directory, m.components[ComponentIndex(m.database, i)])
  }

  /** The contents a restored target has to have: the first one also gets the restore marker. */
  function Wanted(codec: Codec, directory: BackupDirectory, m: BackupManifest, marker: string, i: nat): FileSystem
    requires Extracted(codec, directory, m, i).Ok?
  {
    var fs := Extracted(codec, directory, m, i).value;
    if i == 0 then fs[[MarkerName] := FileNode(MarkerMode, marker)] else fs
  }

  ghost predicate HasFile(fs: FileSystem, name: Name) {
    [name] in fs && fs[[name]].FileNode?
  }

  /** The files without which a restored installation cannot start. */
  ghost predicate Complete(database: Database, gromData: FileSystem, signingCerts: FileSystem) {
    && (database.Sqlite? ==> HasFile(gromData, "grom.db"))
    && HasFile(signingCerts, "signing-key.pem") && HasFile(signingCerts, "signing-cert.pem") && HasFile(signingCerts, "jwks.json")
  }

  /** The set's archives extract, leave the marker's name free and hold the required files. */
  ghost predicate Stageable(codec: Codec, directory: BackupDirectory, m: BackupManifest, marker: string) {
    && (forall i: nat :: i < TargetCount ==> Extracted(codec, directory, m, i).Ok?)
    && [MarkerName] !in Extracted(codec, directory, m, 0).value
    && Complete(m.database, Wanted(codec, directory, m, marker, 0), Wanted(codec, directory, m, marker, 1))
  }

  lemma StagedIsComplete(codec: Codec, directory: BackupDirectory, m: BackupManifest, marker: string)
    requires Stageable(codec, directory, m, marker)
    ensures var wanted := AllWanted(codec, directory, m, marker); Complete(m.database, wanted[0], wanted[1])
  {
    hide Extracted, Wanted;
  }

  /** What a set has to be like for a restore without failing operations to go through. */
  ghost predicate Restorable(codec: Codec, directory: BackupDirectory, m: BackupManifest, marker: string) {
    Stageable(codec, directory, m, marker) && NotReserved(AllWanted(codec, directory, m, marker), TargetCount)
  }

  ghost predicate LeftStaging(staging: seq<Option<FileSystem>>, made: nat) {
    |staging| == TargetCount && forall i :: 0 <= i < TargetCount ==> staging[i] == if i < made then Some(EmptyStaging) else None
  }

  /** An intact set holds its configuration file and determines its manifest. */
  /** The files a restore takes as they are. */
  predicate HasFiles(directory: BackupDirectory, m: BackupManifest) {
    && ComponentFile(DistributionConfig) in directory
    && (m.database.Postgres? ==> ComponentFile(PostgresDump) in directory)
  }

  lemma IntactFacts(codec: Codec, directory: BackupDirectory, m: BackupManifest)
    requires Intact(codec, directory, m)
    ensures HasFiles(directory, m)
    ensures forall other :: Intact(codec, directory, other) ==> other == m
  {
    hide ReadBack, ExpectedHashes, Declared, ValidVersion, ValidProfile, ValidHash;
    var last := m.components[|m.components| - 1];
    assert ValidComponent(last, Expected(m.database)[|m.components| - 1]);
    assert last in m.components && ComponentIntact(codec, directory, last);
    if m.database.Postgres? {
      assert ValidComponent(m.components[1], Expected(m.database)[1]);
      assert m.components[1] in m.components && ComponentIntact(codec, directory, m.components[1]);
    }
    forall other | Intact(codec, directory, other)
      ensures other == m
    {
      assert Ok(other) == Ok(m);
    }
  }

  ghost function AllWanted(codec: Codec, directory: BackupDirectory, m: BackupManifest,
                           marker: string): (all: seq<FileSystem>)
    requires Stageable(codec, directory, m, marker)
    ensures |all| == TargetCount
    ensures forall i: nat :: i < TargetCount ==> all[i] == Wanted(codec, directory, m, marker, i)
  {
    [Wanted(codec, directory, m, marker, 0), Wanted(codec, directory, m, marker, 1), Wanted(codec, directory, m, marker, 2)]
  }

  /** `wanted` is what the manifest of this intact set says the targets have to become. */
  ghost predicate Contents(codec: Codec, directory: BackupDirectory, m: BackupManifest, marker: string,
                           wanted: seq<FileSystem>) {
    && Intact(codec, directory, m) && Stageable(codec, directory, m, marker)
    && wanted == AllWanted(codec, directory, m, marker)
  }

  lemma {:induction false} MkdirAllKeeps(fs: FileSystem, path: Path, mode: Mode)
    ensures MkdirAll(fs, path, mode).Ok? ==> fs.Keys <= MkdirAll(fs, path, mode).value.Keys
    decreases |path|
  {
    if path != [] {
      MkdirAllKeeps(fs, path[..|path| - 1], mode);
    }
  }

  /** Extraction removes nothing. */
  lemma {:induction false} ExtractAllKeeps(fs: FileSystem, seen: set<Path>, entries: seq<Entry>)
    ensures ExtractAll(fs, seen, entries).Ok? ==> fs.Keys <= ExtractAll(fs, seen, entries).value.Keys
    decreases |entries|
  {
    if entries != [] {
      var entry := entries[0];
      if entry.DirEntry? {
        MkdirAllKeeps(fs, entry.path, Masked(entry.mode));
      } else if entry.FileEntry? && entry.path != [] {
        MkdirAllKeeps(fs, entry.path[..|entry.path| - 1], 0x1C0);
      }
      var one := ExtractOne(fs, seen, entry);
      if one.Ok? {
        ExtractAllKeeps(one.value, seen + {entry.path}, entries[1..]);
      }
    }
  }

  // ----- what the moves keep

  /** What the first targets have to get. */
  ghost function Upto(extracted: seq<FileSystem>, n: nat): set<Place>
    requires n <= |extracted|
    decreases n
  {
    if n == 0 then {} else Upto(extracted, n - 1) + PlacesOf(n - 1, TopNames(extracted[n - 1]))
  }

  ghost function PlacesOf(i: nat, names: set<Name>): set<Place> {
    set name | name in names :: (i, name)
  }

  /** No entry of the first targets is called like the staging directory. */
  ghost predicate NotReserved(extracted: seq<FileSystem>, n: nat)
    requires n <= |extracted|
  {
    forall i :: 0 <= i < n ==> StagingName !in TopNames(extracted[i])
  }

  lemma UptoNext(extracted: seq<FileSystem>, n: nat)
    requires n < |extracted|
    ensures Upto(extracted, n + 1) == Upto(extracted, n) + PlacesOf(n, TopNames(extracted[n]))
  {
  }

  lemma {:induction false} UptoHolds(extracted: seq<FileSystem>, n: nat)
    requires n <= |extracted|
    ensures forall i: nat, name :: (i, name) in Upto(extracted, n) <==> i < n && name in TopNames(extracted[i])
  {
    if n > 0 {
      UptoHolds(extracted, n - 1);
    }
  }

  /** The entries a rename of one name moves. */
  function Lifted(fs: FileSystem, name: Name): FileSystem {
    map path | path in fs && path != [] && path[0] == name :: fs[path]
  }

  /** An extracted entry is at exactly one of its two paths: the target for `there`, else staging. */
  predicate OnePlace(target: FileSystem, staged: FileSystem, extracted: FileSystem, there: bool, path: Path) {
    if path !in extracted then path !in target && path !in staged
    else if there then path in target && target[path] == extracted[path] && path !in staged
    else path in staged && staged[path] == extracted[path] && path !in target
  }

  /** Target and staging share the extracted entries between them, the given places being at the target. */
  ghost predicate Split(target: FileSystem, staged: FileSystem, extracted: FileSystem, i: nat, places: set<Place>) {
    forall path :: path != [] ==> OnePlace(target, staged, extracted, (i, path[0]) in places, path)
  }

  lemma MovedOut(target: FileSystem, staged: FileSystem, extracted: FileSystem, i: nat, places: set<Place>, name: Name)
    requires Split(target, staged, extracted, i, places) && (i, name) !in places
    ensures Split(target + Lifted(staged, name), staged - Lifted(staged, name).Keys, extracted, i, places + {(i, name)})
  {
    forall path | path != []
      ensures OnePlace(target + Lifted(staged, name), staged - Lifted(staged, name).Keys, extracted,
                       (i, path[0]) in places + {(i, name)}, path)
    {
      assert OnePlace(target, staged, extracted, (i, path[0]) in places, path);
    }
  }

  lemma MovedBack(target: FileSystem, staged: FileSystem, extracted: FileSystem, i: nat, places: set<Place>, name: Name)
    requires Split(target, staged, extracted, i, places) && (i, name) in places
    ensures Split(target - Lifted(target, name).Keys, staged + Lifted(target, name), extracted, i, places - {(i, name)})
  {
    forall path | path != []
      ensures OnePlace(target - Lifted(target, name).Keys, staged + Lifted(target, name), extracted,
                       (i, path[0]) in places - {(i, name)}, path)
    {
      assert OnePlace(target, staged, extracted, (i, path[0]) in places, path);
    }
  }

  /** Moves at another target change nothing here. */
  lemma OtherTarget(target: FileSystem, staged: FileSystem, extracted: FileSystem, i: nat, places: set<Place>,
                    more: set<Place>)
    requires Split(target, staged, extracted, i, places)
    requires forall name :: (i, name) in places <==> (i, name) in more
    ensures Split(target, staged, extracted, i, more)
  {
    forall path | path != []
      ensures OnePlace(target, staged, extracted, (i, path[0]) in more, path)
    {
      assert OnePlace(target, staged, extracted, (i, path[0]) in places, path);
    }
  }

  lemma NothingMoved(target: FileSystem, staged: FileSystem, extracted: FileSystem, i: nat, places: set<Place>)
    requires Split(target, staged, extracted, i, places) && places == {}
    ensures target.Keys <= {[]} && Inner(staged) == Inner(extracted)
  {
    forall path: Path | path != []
      ensures path !in target && (path in staged <==> path in extracted)
      ensures (path in staged ==> staged[path] == extracted[path])
    {
      assert OnePlace(target, staged, extracted, (i, path[0]) in places, path);
    }
  }

  lemma EverythingMoved(target: FileSystem, staged: FileSystem, extracted: FileSystem, i: nat, places: set<Place>)
    requires Split(target, staged, extracted, i, places)
    requires forall name :: name in TopNames(extracted) ==> (i, name) in places
    ensures Inner(target) == Inner(extracted) && staged.Keys <= {[]}
  {
    forall path: Path | path != []
      ensures path !in staged && (path in target <==> path in extracted)
      ensures (path in target ==> target[path] == extracted[path])
    {
      assert path in extracted ==> path[0] in TopNames(extracted);
      assert OnePlace(target, staged, extracted, (i, path[0]) in places, path);
    }
  }

  /** The root of a staging directory is none of the entries. */
  lemma RootIsNoEntry(target: FileSystem, staged: FileSystem, same: FileSystem, extracted: FileSystem, i: nat,
                      places: set<Place>)
    requires Split(target, staged, extracted, i, places) && Inner(staged) == Inner(same)
    ensures Split(target, same, extracted, i, places)
  {
    forall path | path != []
      ensures OnePlace(target, same, extracted, (i, path[0]) in places, path)
    {
      assert OnePlace(target, staged, extracted, (i, path[0]) in places, path);
      assert path in staged <==> path in Inner(staged);
      assert path in same <==> path in Inner(same);
    }
  }

  lemma LastElement(promoted: seq<Place>, n: nat)
    requires n < |promoted| && Distinct(promoted)
    ensures Elements(promoted[..n + 1]) == Elements(promoted[..n]) + {promoted[n]}
    ensures promoted[n] !in Elements(promoted[..n])
    ensures promoted[n] in Elements(promoted)
  {
  }

  /** Before the first entry of a target has moved, its staging holds all of them. */
  lemma AllStillStaged(target: FileSystem, staged: FileSystem, extracted: FileSystem, i: nat, places: set<Place>)
    requires Split(target, staged, extracted, i, places) && forall place :: place in places ==> place.0 != i
    ensures TopNames(staged) == TopNames(extracted)
  {
    OtherTarget(target, staged, extracted, i, places, {});
    NothingMoved(target, staged, extracted, i, {});
    hide Split;
    forall path | path != []
      ensures path in staged <==> path in extracted
    {
      assert path in Inner(staged) <==> path in Inner(extracted);
    }
  }

  lemma NoPlaces(i: nat)
    ensures PlacesOf(i, {}) == {}
  {
  }

  lemma NotYetMoved(promoted: seq<Place>, i: nat, names: set<Name>, name: Name)
    requires name !in names && forall place :: place in promoted ==> place.0 < i
    ensures (i, name) !in Elements(promoted) + PlacesOf(i, names)
    ensures PlacesOf(i, names + {name}) == PlacesOf(i, names) + {(i, name)}
  {
  }

  lemma OneMoreElement(log: seq<Place>, place: Place)
    requires Distinct(log) && place !in Elements(log)
    ensures Distinct(log + [place]) && Elements(log + [place]) == Elements(log) + {place}
  {
    forall k | 0 <= k < |log|
      ensures log[k] != place
    {
      assert log[k] in log;
    }
  }

  lemma NothingStaged(target: FileSystem, staged: FileSystem, extracted: seq<FileSystem>, i: nat)
    requires i < |extracted| && Split(target, staged, extracted[i], i, Upto(extracted, |extracted|))
    ensures Inner(target) == Inner(extracted[i]) && staged.Keys <= {[]}
  {
    UptoHolds(extracted, |extracted|);
    hide Split, TopNames, Upto;
    EverythingMoved(target, staged, extracted[i], i, Upto(extracted, |extracted|));
  }

  // ----- the host

  /** One run of the database restore: the dump, the configuration in place at that time, and whether it was loaded. */
  datatype Load = Load(dump: string, config: Option<string>, loaded: bool)

  /** The file systems a restore works on. Any single operation may fail, and then changes nothing. */
  class Host {
    /** Whether operation number `t` on the file systems fails. */
    const faulty: nat -> bool
    var clock: nat
    /** Whether run number `n` of the database restore fails. It then changes nothing. */
    const refusesLoad: nat -> bool
    /** Every run of the database restore so far. */
    var loads: seq<Load>
    /** The three targets, without their staging directories. */
    var targets: seq<FileSystem>
    var staging: seq<Option<FileSystem>>
    var config: Option<string>
    var configStaging: Option<string>
    /** Whether a clean-up step failed: its errors are ignored. */
    ghost var cleanupFailed: bool

    ghost predicate Valid()
      reads `targets, `staging
    {
      && |targets| == TargetCount && |staging| == TargetCount
      && (forall i :: 0 <= i < TargetCount ==> [] in targets[i])
      && (forall i :: 0 <= i < TargetCount && staging[i].Some? ==> [] in staging[i].value)
    }

    /** No operation fails from now on. */
    ghost predicate Steady()
      reads `clock
    {
      forall t :: t >= clock ==> !faulty(t)
    }

    /** No operation failed since. */
    ghost predicate Smooth(since: nat)
      reads `clock
    {
      forall t :: since <= t < clock ==> !faulty(t)
    }

    /** The next run of the database restore succeeds. */
    ghost predicate WillLoad()
      reads `loads
    {
      !refusesLoad(|loads|)
    }

    constructor (faulty: nat -> bool, refusesLoad: nat -> bool, targets: seq<FileSystem>, config: Option<string>)
      requires |targets| == TargetCount && forall i :: 0 <= i < TargetCount ==> [] in targets[i]
      ensures Valid() && this.faulty == faulty && this.targets == targets && this.config == config
      ensures staging == [None, None, None] && configStaging == None && !cleanupFailed
      ensures this.refusesLoad == refusesLoad && loads == []
    {
      this.faulty, clock := faulty, 0;
      this.refusesLoad, loads := refusesLoad, [];
      this.targets, staging := targets, [None, None, None];
      this.config, configStaging, cleanupFailed := config, None, false;
    }

    method Attempt() returns (ok: bool)
      modifies `clock
      ensures clock == old(clock) + 1 && ok == !faulty(old(clock))
    {
      ok := !faulty(clock);
      clock := clock + 1;
    }

    /** Loads a dump into the database, in one transaction. */
    method LoadDump(dump: string) returns (ok: bool)
      modifies `loads
      ensures loads == old(loads) + [Load(dump, config, ok)] && (ok <==> old(WillLoad()))
    {
      ok := !refusesLoad(|loads|);
      loads := loads + [Load(dump, config, ok)];
    }

    /** The directories themselves, which no rename touches. */
    ghost predicate RootsAre(roots: seq<Node>)
      requires Valid()
      reads `targets, `staging
    {
      |roots| == TargetCount && forall i :: 0 <= i < TargetCount ==> targets[i][[]] == roots[i]
    }

    // ----- preparation

    /** Creates the three staging directories. What a refused one leaves behind stays there. */
    method CreateStaging() returns (ok: bool, ghost made: nat)
      requires Valid() && staging == [None, None, None]
      modifies `clock, `staging
      ensures Valid() && clock >= old(clock) && made <= TargetCount
      ensures forall i :: 0 <= i < TargetCount ==> staging[i] == if i < made then Some(EmptyStaging) else None
      ensures ok <==> made == TargetCount
      ensures old(Steady()) ==> ok
      ensures ok ==> Smooth(old(clock))
    {
      made := 0;
      for i := 0 to TargetCount
        invariant Smooth(old(clock))
        invariant Valid() && clock >= old(clock) && made == i
        invariant forall j :: 0 <= j < TargetCount ==> staging[j] == if j < i then Some(EmptyStaging) else None
      {
        ok := Attempt();
        if !ok {
          return;
        }
        staging := staging[i := Some(EmptyStaging)];
        made := i + 1;
      }
      ok := true;
    }

    /** Extracts the component of every target into its staging directory. */
    method ExtractComponents(codec: Codec, directory: BackupDirectory, m: BackupManifest) returns (ok: bool)
      requires Valid() && AllStaged()
      modifies `clock, `staging
      ensures Valid() && AllStaged() && clock >= old(clock)
      ensures ok ==> forall i: nat :: i < TargetCount ==> Extracted(codec, directory, m, i) == Ok(staging[i].value)
      ensures old(Steady()) && (forall i: nat :: i < TargetCount ==> Extracted(codec, directory, m, i).Ok?) ==> ok
      ensures ok ==> Smooth(old(clock))
    {
      for i := 0 to TargetCount
        invariant Smooth(old(clock))
        invariant Valid() && AllStaged() && clock >= old(clock)
        invariant forall j: nat :: j < i ==> Extracted(codec, directory, m, j) == Ok(staging[j].value)
      {
        ghost var expected := Extracted(codec, directory, m, i);
        var index := ComponentIndex(m.database, i);
        if index >= |m.components| || m.components[index].file !in directory {
          return false;
        }
        var component := m.components[index];
        ok := Attempt();
        var entries := codec.untar(directory[component.file]);
        if !ok || entries.Err? {
          return false;
        }
        var extracted := ExtractArchive(entries.value, Measure(component.entryCount, component.contentBytes));
        assert extracted == expected;
        if extracted.Err? {
          return false;
        }
        ExtractAllKeeps(EmptyStaging, {}, entries.value);
        hide ExtractAll;
        staging := staging[i := Some(extracted.value)];
      }
      ok := true;
    }

    /** Writes the marker next to the restored data; a restored entry of that name is in the way. */
    method WriteMarker(marker: string) returns (ok: bool)
      requires Valid() && AllStaged()
      modifies `clock, `staging
      ensures Valid() && AllStaged() && clock > old(clock)
      ensures ok ==> [MarkerName] !in old(staging[0].value)
      ensures staging == if ok then old(staging)[0 := Some(old(staging[0].value)[[MarkerName] := FileNode(MarkerMode, marker)])]
                         else old(staging)
      ensures old(Steady()) && [MarkerName] !in old(staging[0].value) ==> ok
      ensures ok ==> Smooth(old(clock))
    {
      ok := Attempt();
      ok := ok && [MarkerName] !in staging[0].value;
      if ok {
        staging := staging[0 := Some(staging[0].value[[MarkerName] := FileNode(MarkerMode, marker)])];
      }
    }

    /** Writes the configuration beside its target, where nothing may be yet. */
    method StageConfig(content: string) returns (ok: bool)
      modifies `clock, `configStaging
      ensures clock > old(clock) && (ok ==> old(configStaging).None?)
      ensures configStaging == if ok then Some(content) else old(configStaging)
      ensures old(Steady()) && old(configStaging).None? ==> ok
      ensures ok ==> Smooth(old(clock)) && clock == old(clock) + 2
    {
      ok := Attempt();
      if !ok || configStaging.Some? {
        return false;
      }
      ok := Attempt();
      if ok {
        configStaging := Some(content);
      }
    }

    /** Looks for the files an installation cannot do without. */
    method CheckContents(database: Database) returns (ok: bool)
      requires Valid() && AllStaged()
      ensures ok <==> Complete(database, staging[0].value, staging[1].value)
    {
      if database == Sqlite && !(["grom.db"] in staging[0].value && staging[0].value[["grom.db"]].FileNode?) {
        return false;
      }
      var names := ["signing-key.pem", "signing-cert.pem", "jwks.json"];
      for i := 0 to |names|
        invariant forall j :: 0 <= j < i ==> HasFile(staging[1].value, names[j])
      {
        if [names[i]] !in staging[1].value || !staging[1].value[[names[i]]].FileNode? {
          return false;
        }
      }
      ghost var found := staging[1].value;
      assert HasFile(found, names[0]) && HasFile(found, names[1]) && HasFile(found, names[2]);
      return true;
    }

    /** Gives each target the permissions its staging directory was restored with. */
    method ApplyMetadata() returns (ok: bool)
      requires Valid() && AllStaged()
      modifies `clock, `targets
      ensures Valid() && clock >= old(clock)
      ensures forall i :: 0 <= i < TargetCount ==> targets[i].Keys == old(targets[i]).Keys
      ensures ok ==> forall i :: 0 <= i < TargetCount ==> targets[i][[]] == staging[i].value[[]]
      ensures old(Steady()) ==> ok
      ensures ok ==> Smooth(old(clock))
    {
      for i := 0 to TargetCount
        invariant Smooth(old(clock))
        invariant Valid() && clock >= old(clock)
        invariant forall j :: 0 <= j < TargetCount ==> targets[j].Keys == old(targets[j]).Keys
        invariant forall j :: 0 <= j < i ==> targets[j][[]] == staging[j].value[[]]
      {
        ok := Attempt();
        if !ok {
          return;
        }
        targets := targets[i := targets[i][[] := staging[i].value[[]]]];
      }
      ok := true;
    }

    ghost predicate TargetsEmpty()
      requires |targets| == TargetCount
      reads `targets
    {
      forall i :: 0 <= i < TargetCount ==> targets[i].Keys == {[]}
    }

    /** Every target's contents are in its staging directory, ready to be moved. */
    ghost predicate Ready(wanted: seq<FileSystem>, content: string)
      requires |wanted| == TargetCount
      reads `targets, `staging, `configStaging
    {
      && Valid() && TargetsEmpty() && configStaging == Some(content)
      && forall i :: 0 <= i < TargetCount ==> staging[i] == Some(wanted[i]) && targets[i][[]] == wanted[i][[]]
    }

    /** Fills the staging directories and checks what is in them. */
    method Stage(codec: Codec, directory: BackupDirectory, m: BackupManifest, marker: string)
      returns (ok: bool, configStaged: bool)
      requires Valid() && AllStaged() && TargetsEmpty() && ComponentFile(DistributionConfig) in directory
      modifies `clock, `targets, `staging, `configStaging
      ensures Valid() && AllStaged() && TargetsEmpty() && clock >= old(clock)
      ensures configStaged ==> old(configStaging).None?
      ensures !configStaged ==> configStaging == old(configStaging)
      ensures ok ==> configStaged && Stageable(codec, directory, m, marker)
      ensures ok ==> Ready(AllWanted(codec, directory, m, marker), directory[ComponentFile(DistributionConfig)])
      ensures old(Steady()) && Stageable(codec, directory, m, marker) && old(configStaging).None? ==> ok
      ensures ok ==> Smooth(old(clock))
    {
      configStaged := false;
      hide ExtractComponent;
      ok := ExtractComponents(codec, directory, m);
      if !ok {
        return;
      }
      ok := WriteMarker(marker);
      if !ok {
        return;
      }
      ok := StageConfig(directory[ComponentFile(DistributionConfig)]);
      if !ok {
        return;
      }
      configStaged := true;
      ok := CheckContents(m.database);
      if !ok {
        return;
      }
      ok := ApplyMetadata();
    }

    /** Removes what staging left behind. Failures are ignored. */
    method CleanUp(configStaged: bool)
      requires Valid()
      modifies `clock, `staging, `configStaging, `cleanupFailed
      ensures Valid() && clock >= old(clock)
      ensures !cleanupFailed ==> staging == [None, None, None] && (configStaged ==> configStaging.None?)
      ensures !configStaged ==> configStaging == old(configStaging)
      ensures old(Steady()) ==> !cleanupFailed
    {
      cleanupFailed := false;
      var ok: bool;
      if configStaged {
        ok := Attempt();
        if ok {
          configStaging := None;
        }
        cleanupFailed := !ok;
      }
      for i := 0 to TargetCount
        invariant Valid() && clock >= old(clock)
        invariant !cleanupFailed ==> (configStaged ==> configStaging.None?) && forall j :: 0 <= j < i ==> staging[j].None?
        invariant !configStaged ==> configStaging == old(configStaging)
        invariant old(Steady()) ==> !cleanupFailed
      {
        ok := Attempt();
        if ok {
          staging := staging[i := None];
        }
        cleanupFailed := cleanupFailed || !ok;
      }
    }

    // ----- renames

    ghost predicate At(extracted: seq<FileSystem>, there: set<Place>)
      requires |extracted| == TargetCount
      reads `targets, `staging
    {
      && Valid()
      && forall i: nat :: i < TargetCount ==> Split(targets[i], StagedNow(staging[i]), extracted[i], i, there)
    }

    /** Promotes one entry. A name that is the staging directory's own cannot be moved onto it. */
    method MoveOut(i: nat, name: Name, ghost extracted: seq<FileSystem>, ghost there: set<Place>,
                   ghost roots: seq<Node>)
      returns (ok: bool)
      requires |extracted| == TargetCount && i < TargetCount && At(extracted, there) && staging[i].Some?
      requires (i, name) !in there && RootsAre(roots)
      modifies `clock, `targets, `staging
      ensures Valid() && RootsAre(roots)
      ensures At(extracted, if ok then there + {(i, name)} else there)
      ensures forall j :: 0 <= j < TargetCount ==> staging[j].Some? == old(staging[j].Some?)
      ensures clock > old(clock) && (ok ==> name != StagingName) && (old(Steady()) && name != StagingName ==> ok)
      ensures ok ==> Smooth(old(clock))
    {
      ok := Attempt();
      ok := ok && name != StagingName;
      if ok {
        var moved := Lifted(staging[i].value, name);
        MovedOut(targets[i], staging[i].value, extracted[i], i, there, name);
        forall j: nat | j < TargetCount && j != i
          ensures Split(targets[j], StagedNow(staging[j]), extracted[j], j, there + {(i, name)})
        {
          OtherTarget(targets[j], StagedNow(staging[j]), extracted[j], j, there, there + {(i, name)});
        }
        hide Split, Lifted;
        targets := targets[i := targets[i] + moved];
        staging := staging[i := Some(staging[i].value - moved.Keys)];
      }
    }

    /** Creates a staging directory that is missing; one that is there stays as it is. */
    method EnsureStaging(i: nat, ghost extracted: seq<FileSystem>, ghost there: set<Place>) returns (ok: bool)
      requires |extracted| == TargetCount && i < TargetCount && At(extracted, there)
      modifies `clock, `staging
      ensures At(extracted, there) && clock > old(clock)
      ensures (ok ==> staging[i].Some?) && (old(Steady()) ==> ok)
      ensures ok ==> Smooth(old(clock))
    {
      ok := Attempt();
      if ok && staging[i].None? {
        RootIsNoEntry(targets[i], map[], EmptyStaging, extracted[i], i, there);
        hide Split;
        staging := staging[i := Some(EmptyStaging)];
      }
    }

    /** Moves one promoted entry back to where it was staged. */
    method MoveBack(i: nat, name: Name, ghost extracted: seq<FileSystem>, ghost there: set<Place>) returns (ok: bool)
      requires |extracted| == TargetCount && i < TargetCount && At(extracted, there) && (i, name) in there
      modifies `clock, `targets, `staging
      ensures At(extracted, if ok then there - {(i, name)} else there)
      ensures clock > old(clock) && (old(Steady()) ==> ok)
      ensures ok ==> Smooth(old(clock))
    {
      ok := EnsureStaging(i, extracted, there);
      if !ok {
        return;
      }
      ok := Attempt();
      if ok {
        var moved := Lifted(targets[i], name);
        MovedBack(targets[i], staging[i].value, extracted[i], i, there, name);
        forall j: nat | j < TargetCount && j != i
          ensures Split(targets[j], StagedNow(staging[j]), extracted[j], j, there - {(i, name)})
        {
          OtherTarget(targets[j], StagedNow(staging[j]), extracted[j], j, there, there - {(i, name)});
        }
        hide Split, Lifted;
        staging := staging[i := Some(staging[i].value + moved)];
        targets := targets[i := targets[i] - moved.Keys];
      }
    }

    /** The configuration is at exactly one of its two paths. */
    ghost predicate ConfigAt(content: string, promoted: bool)
      reads `config, `configStaging
    {
      && config == (if promoted then Some(content) else None)
      && configStaging == (if promoted then None else Some(content))
    }

    /**
     Undoes a promotion: the configuration first, then the entries, the last one promoted first.
     A step that fails is skipped.
     */
    method RollBack(promoted: seq<Place>, configPromoted: bool, ghost extracted: seq<FileSystem>, ghost content: string)
      returns (clean: bool, ghost left: set<Place>, ghost configLeft: bool)
      requires |extracted| == TargetCount && Distinct(promoted)
      requires forall place :: place in promoted ==> place.0 < TargetCount
      requires At(extracted, Elements(promoted)) && ConfigAt(content, configPromoted)
      modifies `clock, `targets, `staging, `config, `configStaging
      ensures At(extracted, left) && left <= Elements(promoted) && ConfigAt(content, configLeft)
      ensures clean ==> left == {} && !configLeft
      ensures old(Steady()) ==> clean
      ensures clock >= old(clock)
      ensures clean ==> Smooth(old(clock))
    {
      clean, left, configLeft := true, Elements(promoted), configPromoted;
      if configPromoted {
        clean := Attempt();
        if clean {
          config, configStaging, configLeft := None, config, false;
        }
      }
      var n := |promoted|;
      while n > 0
        invariant clean ==> Smooth(old(clock))
        invariant 0 <= n <= |promoted| && clock >= old(clock)
        invariant At(extracted, left) && ConfigAt(content, configLeft)
        invariant Elements(promoted[..n]) <= left <= Elements(promoted)
        invariant clean ==> left == Elements(promoted[..n]) && !configLeft
        invariant old(Steady()) ==> clean
      {
        n := n - 1;
        hide At;
        LastElement(promoted, n);
        var moved := MoveBack(promoted[n].0, promoted[n].1, extracted, left);
        if moved {
          left := left - {promoted[n]};
        } else {
          clean := false;
        }
      }
    }

    ghost predicate AllStaged()
      requires |staging| == TargetCount
      reads `staging
    {
      forall j :: 0 <= j < TargetCount ==> staging[j].Some?
    }

    lemma StillStaged(i: nat, promoted: seq<Place>, extracted: seq<FileSystem>)
      requires |extracted| == TargetCount && i < TargetCount && At(extracted, Elements(promoted)) && AllStaged()
      requires forall place :: place in promoted ==> place.0 < i
      ensures TopNames(staging[i].value) == TopNames(extracted[i])
    {
      hide Split, TopNames;
      AllStillStaged(targets[i], staging[i].value, extracted[i], i, Elements(promoted));
    }

    /** Promotes every entry of one target, logging each move. */
    method PromoteTarget(i: nat, promoted: seq<Place>, ghost extracted: seq<FileSystem>, ghost roots: seq<Node>)
      returns (ok: bool, log: seq<Place>)
      requires Valid() && |extracted| == TargetCount && i < TargetCount && At(extracted, Elements(promoted)) && AllStaged()
      requires RootsAre(roots)
      requires Distinct(promoted) && forall place :: place in promoted ==> place.0 < i
      modifies `clock, `targets, `staging
      ensures Valid() && At(extracted, Elements(log)) && AllStaged() && RootsAre(roots)
      ensures Distinct(log) && forall place :: place in log ==> place.0 <= i
      ensures ok ==> Elements(log) == Elements(promoted) + PlacesOf(i, TopNames(extracted[i]))
      ensures ok ==> StagingName !in TopNames(extracted[i])
      ensures old(Steady()) && StagingName !in TopNames(extracted[i]) ==> ok
      ensures clock > old(clock)
      ensures ok ==> Smooth(old(clock))
    {
      hide TopNames, Split, At, RootsAre, PlacesOf, Elements, Distinct;
      log := promoted;
      ok := Attempt();
      if !ok {
        return;
      }
      var pending := TopNames(staging[i].value);
      StillStaged(i, promoted, extracted);
      ghost var names := pending;
      NoPlaces(i);
      assert names - pending == {};
      while pending != {}
        invariant Valid() && Smooth(old(clock))
        invariant pending <= names && At(extracted, Elements(log)) && AllStaged() && RootsAre(roots)
        invariant clock > old(clock)
        invariant Distinct(log) && forall place :: place in log ==> place.0 <= i
        invariant Elements(log) == Elements(promoted) + PlacesOf(i, names - pending)
        invariant StagingName !in names - pending
      {
        var name :| name in pending;
        NotYetMoved(promoted, i, names - pending, name);
        ok := MoveOut(i, name, extracted, Elements(log), roots);
        if !ok {
          return;
        }
        OneMoreElement(log, (i, name));
        log := log + [(i, name)];
        assert names - (pending - {name}) == names - pending + {name};
        pending := pending - {name};
      }
      assert names - pending == names;
    }

    /** Removes the staging directories, which have to be empty. */
    method RemoveStaging(ghost extracted: seq<FileSystem>, ghost there: set<Place>) returns (ok: bool)
      requires |extracted| == TargetCount && At(extracted, there) && AllStaged()
      requires forall j :: 0 <= j < TargetCount ==> staging[j].value.Keys <= {[]}
      modifies `clock, `staging
      ensures At(extracted, there) && clock >= old(clock)
      ensures ok ==> staging == [None, None, None]
      ensures old(Steady()) ==> ok
      ensures ok ==> Smooth(old(clock))
    {
      hide Split;
      for i := 0 to TargetCount
        invariant Smooth(old(clock))
        invariant At(extracted, there) && clock >= old(clock)
        invariant forall j :: 0 <= j < i ==> staging[j].None?
        invariant forall j :: i <= j < TargetCount ==> staging[j].Some? && staging[j].value.Keys <= {[]}
      {
        ok := Attempt();
        if !ok {
          return;
        }
        RootIsNoEntry(targets[i], staging[i].value, map[], extracted[i], i, there);
        staging := staging[i := None];
      }
      ok := true;
    }

    /** Promotes all targets in turn. */
    method PromoteTargets(ghost extracted: seq<FileSystem>, ghost roots: seq<Node>) returns (ok: bool, log: seq<Place>)
      requires |extracted| == TargetCount && At(extracted, {}) && AllStaged() && RootsAre(roots)
      modifies `clock, `targets, `staging
      ensures Valid() && At(extracted, Elements(log)) && AllStaged() && RootsAre(roots) && clock >= old(clock)
      ensures Distinct(log) && forall place :: place in log ==> place.0 < TargetCount
      ensures ok ==> Elements(log) == Upto(extracted, TargetCount) && NotReserved(extracted, TargetCount)
      ensures old(Steady()) && NotReserved(extracted, TargetCount) ==> ok
      ensures ok ==> Smooth(old(clock))
    {
      log := [];
      assert Elements(log) == {} == Upto(extracted, 0) && Distinct(log) && Valid();
      hide At, Upto, Split, TopNames, PlacesOf, Elements, Distinct, RootsAre;
      for i := 0 to TargetCount
        invariant Smooth(old(clock))
        invariant Valid() && At(extracted, Elements(log)) && AllStaged() && RootsAre(roots) && clock >= old(clock)
        invariant Distinct(log) && forall place :: place in log ==> place.0 < i
        invariant Elements(log) == Upto(extracted, i) && NotReserved(extracted, i)
      {
        UptoNext(extracted, i);
        ok, log := PromoteTarget(i, log, extracted, roots);
        if !ok {
          return;
        }
      }
      ok := true;
    }

    /** What a restore makes the database do: nothing without a dump. */
    static function LoadsOf(dump: Option<string>, content: string, loaded: bool): seq<Load> {
      if dump.Some? then [Load(dump.value, Some(content), loaded)] else []
    }

    /**
     Promotes everything or undoes what it promoted. `left` says which entries are at their targets
     in the end, and `configLeft` whether the configuration is. A dump is loaded once the configuration
     is in place; what was loaded stays loaded even if something fails after that.
     */
    method Promote(dump: Option<string>, ghost extracted: seq<FileSystem>, ghost content: string,
                   ghost roots: seq<Node>)
      returns (promotion: Promotion, ghost left: set<Place>, ghost configLeft: bool)
      requires |extracted| == TargetCount && At(extracted, {}) && AllStaged() && ConfigAt(content, false)
      requires RootsAre(roots)
      modifies `clock, `targets, `staging, `config, `configStaging, `loads
      ensures Valid() && At(extracted, left) && ConfigAt(content, configLeft) && clock >= old(clock)
      ensures promotion.Promoted? ==> left == Upto(extracted, TargetCount) && configLeft
      ensures promotion.Promoted? ==> staging == [None, None, None] && RootsAre(roots) && NotReserved(extracted, TargetCount)
      ensures promotion.Undone? ==> left == {} && !configLeft
      ensures old(Steady()) ==> !promotion.Stuck?
      ensures loads == old(loads) || loads == old(loads) + LoadsOf(dump, content, old(WillLoad()))
      ensures promotion.Promoted? ==> loads == old(loads) + LoadsOf(dump, content, true)
      ensures old(Steady()) && NotReserved(extracted, TargetCount) ==>
                && (promotion.Promoted? <==> dump.None? || old(WillLoad()))
                && loads == old(loads) + LoadsOf(dump, content, old(WillLoad()))
      ensures promotion.Promoted? ==> Smooth(old(clock))
    {
      hide Split, Upto, Elements, Distinct, TopNames, PlacesOf, NotReserved;
      var ok, log := PromoteTargets(extracted, roots);
      var configPromoted := false;
      if ok {
        ok := Attempt();
        if ok {
          config, configStaging, configPromoted := configStaging, None, true;
          if dump.Some? {
            ok := LoadDump(dump.value);
          }
        }
      }
      if ok {
        forall i: nat | i < TargetCount
          ensures staging[i].value.Keys <= {[]}
        {
          NothingStaged(targets[i], staging[i].value, extracted, i);
        }
        ok := RemoveStaging(extracted, Elements(log));
      }
      if ok {
        return Promoted, Elements(log), true;
      }
      var clean;
      clean, left, configLeft := RollBack(log, configPromoted, extracted, content);
      promotion := if clean then Undone else Stuck;
    }

    /** The targets hold the backed-up contents and nothing of the restore is left. */
    ghost predicate Holds(wanted: seq<FileSystem>, content: string)
      requires |wanted| == TargetCount
      reads `targets, `staging, `config, `configStaging
    {
      && targets == wanted && staging == [None, None, None]
      && config == Some(content) && configStaging.None?
    }

    lemma ReadyToMove(wanted: seq<FileSystem>, content: string)
      requires |wanted| == TargetCount && Ready(wanted, content) && config.None?
      ensures At(wanted, {}) && AllStaged() && ConfigAt(content, false)
      ensures RootsAre([targets[0][[]], targets[1][[]], targets[2][[]]])
      ensures forall i :: 0 <= i < TargetCount ==> [] in wanted[i] && wanted[i][[]] == targets[i][[]]
    {
      forall i: nat, path: Path | i < TargetCount && path != []
        ensures OnePlace(targets[i], StagedNow(staging[i]), wanted[i], (i, path[0]) in {}, path)
      {
      }
      var none: set<Place> := {};
      forall i: nat | i < TargetCount
        ensures Split(targets[i], StagedNow(staging[i]), wanted[i], i, none)
      {
      }
    }

    /** With everything promoted, each target is what it had to become. */
    lemma AllPromoted(wanted: seq<FileSystem>, roots: seq<Node>)
      requires |wanted| == TargetCount && At(wanted, Upto(wanted, TargetCount)) && RootsAre(roots)
      requires |roots| == TargetCount
      requires forall i :: 0 <= i < TargetCount ==> [] in wanted[i] && roots[i] == wanted[i][[]]
      ensures targets == wanted
    {
      hide Upto, Split;
      forall i: nat | i < TargetCount
        ensures targets[i] == wanted[i]
      {
        NothingStaged(targets[i], StagedNow(staging[i]), wanted, i);
        SameDirectory(targets[i], wanted[i]);
      }
    }

    lemma NonePromoted(wanted: seq<FileSystem>)
      requires |wanted| == TargetCount && At(wanted, {})
      ensures TargetsEmpty()
    {
      hide Split;
      forall i: nat | i < TargetCount
        ensures targets[i].Keys == {[]}
      {
        NothingMoved(targets[i], StagedNow(staging[i]), wanted[i], i, {});
      }
    }

    /** Whether the command line and the targets allow the restore to begin. */
    ghost predicate Admitted(m: BackupManifest, version: string, hasDatabaseUrl: bool)
      requires Valid()
      reads `targets, `staging, `config
    {
      && version != "" && m.gromVersion == version && (m.database.Postgres? ==> hasDatabaseUrl)
      && TargetsEmpty() && staging == [None, None, None] && config.None?
    }

    /** The checks before anything is touched; every target has to be an empty directory. */
    method MayBegin(m: BackupManifest, version: string, hasDatabaseUrl: bool) returns (ok: bool)
      requires Valid()
      ensures ok <==> Admitted(m, version, hasDatabaseUrl)
    {
      if version == "" || m.gromVersion != version {
        return false;
      }
      if m.database.Postgres? && !hasDatabaseUrl {
        return false;
      }
      for i := 0 to TargetCount
        invariant forall j :: 0 <= j < i ==> targets[j].Keys == {[]} && staging[j].None?
      {
        if targets[i].Keys != {[]} || staging[i].Some? {
          return false;
        }
      }
      return config.None?;
    }

    static function DumpOf(directory: BackupDirectory, m: BackupManifest): Option<string>
      requires m.database.Postgres? ==> ComponentFile(PostgresDump) in directory
    {
      if m.database.Postgres? then Some(directory[ComponentFile(PostgresDump)]) else None
    }

    /** The database restore of a set: its dump, with its configuration in place; a SQLite set has none. */
    static function SetLoads(directory: BackupDirectory, m: BackupManifest, loaded: bool): seq<Load>
      requires ComponentFile(DistributionConfig) in directory
      requires m.database.Postgres? ==> ComponentFile(PostgresDump) in directory
    {
      if m.database.Postgres?
      then [Load(directory[ComponentFile(PostgresDump)], Some(directory[ComponentFile(DistributionConfig)]), loaded)]
      else []
    }

    /** The restore from the moment its staging directories are there. */
    method StageAndPromote(codec: Codec, directory: BackupDirectory, m: BackupManifest, marker: string)
      returns (outcome: Outcome, ghost wanted: seq<FileSystem>, ghost left: set<Place>, ghost configLeft: bool)
      requires Valid() && AllStaged() && TargetsEmpty() && config.None?
      requires ComponentFile(DistributionConfig) in directory
      requires m.database.Postgres? ==> ComponentFile(PostgresDump) in directory
      modifies `clock, `targets, `staging, `config, `configStaging, `cleanupFailed, `loads
      ensures Valid() && |wanted| == TargetCount
      ensures outcome.Failed? || outcome.Dirty? || outcome == Restored(m)
      ensures outcome.Failed? ==> TargetsEmpty() && config.None?
      ensures outcome.Failed? && !cleanupFailed ==> staging == [None, None, None] && configStaging == old(configStaging)
      ensures outcome.Dirty? ==>
                && old(configStaging).None?
                && Stageable(codec, directory, m, marker) && wanted == AllWanted(codec, directory, m, marker)
                && At(wanted, left) && ConfigAt(directory[ComponentFile(DistributionConfig)], configLeft)
      ensures outcome.Restored? ==>
                && Restorable(codec, directory, m, marker)
                && Holds(AllWanted(codec, directory, m, marker), directory[ComponentFile(DistributionConfig)])
      ensures loads == old(loads) || loads == old(loads) + SetLoads(directory, m, old(WillLoad()))
      ensures outcome.Restored? ==> loads == old(loads) + SetLoads(directory, m, true)
      ensures old(Steady()) ==>
                if Restorable(codec, directory, m, marker) && old(configStaging).None?
                   && (m.database.Postgres? ==> old(WillLoad())) then outcome.Restored?
                else outcome.Failed? && !cleanupFailed
      ensures outcome.Restored? ==> Smooth(old(clock))
      ensures outcome.Restored? ==> Complete(m.database, targets[0], targets[1])
    {
      hide Stageable, NotReserved, AllWanted, Ready, At, Upto, Extracted, Wanted, RootsAre;
      outcome, wanted, left, configLeft := Failed, [map[], map[], map[]], {}, false;
      var ok, configStaged := Stage(codec, directory, m, marker);
      if !ok {
        CleanUp(configStaged);
        return;
      }
      wanted := AllWanted(codec, directory, m, marker);
      var content := directory[ComponentFile(DistributionConfig)];
      ReadyToMove(wanted, content);
      ghost var roots := [targets[0][[]], targets[1][[]], targets[2][[]]];
      var promotion;
      promotion, left, configLeft := Promote(DumpOf(directory, m), wanted, content, roots);
      match promotion {
        case Promoted =>
          AllPromoted(wanted, roots);
          StagedIsComplete(codec, directory, m, marker);
          outcome := Restored(m);
        case Undone =>
          NonePromoted(wanted);
          CleanUp(true);
        case Stuck =>
          outcome := Dirty;
      }
    }

    /**
     Restores a backup set. It ends with the targets holding the backed-up contents, or with
     every target empty again, or, when undoing failed, with every entry in exactly one place.
     */
    method Restore(codec: Codec, directory: BackupDirectory, version: string, hasDatabaseUrl: bool, marker: string)
      returns (outcome: Outcome, ghost wanted: seq<FileSystem>, ghost left: set<Place>, ghost configLeft: bool)
      requires Valid()
      modifies `clock, `targets, `staging, `config, `configStaging, `cleanupFailed, `loads
      ensures Valid() && |wanted| == TargetCount
      ensures outcome.Refused? || outcome.NotStaged? ==> loads == old(loads)
      ensures loads == old(loads) ||
              exists m :: Intact(codec, directory, m) && HasFiles(directory, m) && m.database.Postgres?
                          && loads == old(loads) + SetLoads(directory, m, old(WillLoad()))
      ensures outcome.Restored? ==>
                HasFiles(directory, outcome.manifest) && loads == old(loads) + SetLoads(directory, outcome.manifest, true)
      ensures outcome.Refused? ==>
                targets == old(targets) && staging == old(staging) && config == old(config) && configStaging == old(configStaging)
      ensures outcome.Refused? <==> forall m :: Intact(codec, directory, m) ==> !old(Admitted(m, version, hasDatabaseUrl))
      ensures outcome.NotStaged? ==>
                && targets == old(targets) && config.None? && configStaging == old(configStaging)
                && exists made: nat :: made < TargetCount && LeftStaging(staging, made)
      ensures outcome.Failed? ==> TargetsEmpty() && config.None?
      ensures outcome.Failed? && !cleanupFailed ==> staging == [None, None, None] && configStaging == old(configStaging)
      ensures outcome.Dirty? ==>
                && old(configStaging).None? && ComponentFile(DistributionConfig) in directory
                && (exists m :: Contents(codec, directory, m, marker, wanted))
                && At(wanted, left) && ConfigAt(directory[ComponentFile(DistributionConfig)], configLeft)
      ensures outcome.Restored? ==>
                && Intact(codec, directory, outcome.manifest) && Restorable(codec, directory, outcome.manifest, marker)
                && ComponentFile(DistributionConfig) in directory
                && Holds(AllWanted(codec, directory, outcome.manifest, marker), directory[ComponentFile(DistributionConfig)])
      ensures forall m :: old(Steady()) && Intact(codec, directory, m) && old(Admitted(m, version, hasDatabaseUrl)) ==>
                            if Restorable(codec, directory, m, marker) && old(configStaging).None?
                               && (m.database.Postgres? ==> old(WillLoad())) then outcome == Restored(m)
                            else outcome.Failed? && !cleanupFailed
      ensures outcome.Restored? ==> Smooth(old(clock))
      ensures outcome.Restored? ==> Complete(outcome.manifest.database, targets[0], targets[1])
    {
      hide Intact, Restorable, Holds, AllWanted, At, ConfigAt;
      outcome, wanted, left, configLeft := Refused, [map[], map[], map[]], {}, false;
      var inspection := Inspect(codec, directory);
      if inspection.Err? {
        return;
      }
      var m := inspection.value;
      IntactFacts(codec, directory, m);
      var ok := MayBegin(m, version, hasDatabaseUrl);
      if !ok {
        return;
      }
      ghost var made;
      ok, made := CreateStaging();
      assert LeftStaging(staging, made);
      if !ok {
        outcome := NotStaged;
        return;
      }
      outcome, wanted, left, configLeft := StageAndPromote(codec, directory, m, marker);
      assert outcome.Dirty? ==> Contents(codec, directory, m, marker, wanted);
    }
  }

  lemma SameDirectory(left: FileSystem, right: FileSystem)
    requires [] in left && [] in right && left[[]] == right[[]] && Inner(left) == Inner(right)
    ensures left == right
  {
    forall path | path != []
      ensures (path in left <==> path in right) && (path in left ==> left[path] == right[path])
    {
      assert path in left <==> path in Inner(left);
      assert path in right <==> path in Inner(right);
      assert path in left ==> Inner(left)[path] == left[path];
    }
  }

  // ----- restoring what was created

  /** What target `i` has to hold after the restore: its source, plus the marker in the first one. */
  function SourceContents(sources: Sources, marker: string, i: nat): FileSystem {
    var fs := Flatten([], SourceOf(sources, i));
    if i == 0 then fs[[MarkerName] := FileNode(MarkerMode, marker)] else fs
  }

  /** The sources hold the files an installation needs and none with a name the restore reserves. */
  ghost predicate SourcesRestorable(database: Database, sources: Sources, marker: string) {
    && [MarkerName] !in Flatten([], sources.gromData)
    && Complete(database, SourceContents(sources, marker, 0), SourceContents(sources, marker, 1))
    && forall i: nat :: i < TargetCount ==> StagingName !in TopNames(SourceContents(sources, marker, i))
  }

  ghost predicate SourcesAreDirectories(sources: Sources) {
    forall i: nat :: i < TargetCount ==> SourceOf(sources, i).Dir? && DistinctNames(SourceOf(sources, i))
  }

  /** A created set can be restored exactly when its sources were restorable, and to their contents. */
  lemma CreatedIsRestorable(codec: Codec, options: Options, sources: Sources, directory: BackupDirectory,
                            marker: string)
    requires Reliable(codec) && Creatable(codec, options, sources) && SourcesAreDirectories(sources)
    requires Stored(codec, sources, DatabaseOf(options), directory)
    ensures var m := ManifestFor(codec, options, sources);
            && (Restorable(codec, directory, m, marker) <==> SourcesRestorable(DatabaseOf(options), sources, marker))
            && (Restorable(codec, directory, m, marker) ==>
                  AllWanted(codec, directory, m, marker) ==
                  [SourceContents(sources, marker, 0), SourceContents(sources, marker, 1), SourceContents(sources, marker, 2)])
    ensures ComponentFile(DistributionConfig) in directory
    ensures directory[ComponentFile(DistributionConfig)] == sources.config
    ensures DatabaseOf(options).Postgres? ==>
              ComponentFile(PostgresDump) in directory && directory[ComponentFile(PostgresDump)] == sources.dump
  {
    var m := ManifestFor(codec, options, sources);
    assert DistributionConfig in Expected(DatabaseOf(options));
    assert DatabaseOf(options).Postgres? ==> PostgresDump in Expected(DatabaseOf(options));
    assert m.database == DatabaseOf(options);
    hide Creatable, Stored, ManifestFor, ExtractComponent, Flatten, DatabaseOf, Complete, TopNames, DistinctNames;
    forall i: nat | i < TargetCount
      ensures Extracted(codec, directory, m, i) == Ok(Flatten([], SourceOf(sources, i)))
      ensures Wanted(codec, directory, m, marker, i) == SourceContents(sources, marker, i)
    {
      StagedIsSource(codec, options, sources, directory, i);
    }
    hide Extracted, Wanted, SourceContents;
    assert Stageable(codec, directory, m, marker) ==> forall i: nat :: i < TargetCount ==>
        AllWanted(codec, directory, m, marker)[i] == SourceContents(sources, marker, i);
  }

  /**
   Backing up and restoring is the identity on contents, for both database kinds: every target
   gets its own source, whatever the other components are, and a PostgreSQL database is loaded once
   with the dump that was backed up. On a host whose operations do not fail it succeeds exactly for
   restorable sources.
   */
  method BackUpAndRestore(codec: Codec, options: Options, sources: Sources, host: Host, hasDatabaseUrl: bool,
                          marker: string)
    returns (outcome: Outcome)
    requires Reliable(codec) && Creatable(codec, options, sources) && SourcesAreDirectories(sources) && host.Valid()
    modifies host
    ensures outcome.Restored? ==> SourcesRestorable(DatabaseOf(options), sources, marker)
    ensures outcome.Restored? ==>
              host.Holds([SourceContents(sources, marker, 0), SourceContents(sources, marker, 1), SourceContents(sources, marker, 2)],
                         sources.config)
    ensures outcome.Restored? ==>
              host.loads == old(host.loads) + if DatabaseOf(options).Postgres?
                                              then [Load(sources.dump, Some(sources.config), true)] else []
    ensures DatabaseOf(options).Sqlite? ==> host.loads == old(host.loads)
    ensures old(host.Steady() && host.Admitted(ManifestFor(codec, options, sources), options.gromVersion, hasDatabaseUrl)
                && host.configStaging.None? && (DatabaseOf(options).Postgres? ==> host.WillLoad())) ==>
              (outcome.Restored? <==> SourcesRestorable(DatabaseOf(options), sources, marker))
  {
    assert ManifestFor(codec, options, sources).database == DatabaseOf(options);
    hide Creatable, Stored, ManifestFor, Intact, Restorable, SourcesRestorable, AllWanted, SourceContents, SourcesAreDirectories;
    var created := Create(codec, options, sources);
    CreatedIsRestorable(codec, options, sources, created.value.0, marker);
    ghost var wanted, left, configLeft;
    outcome, wanted, left, configLeft := host.Restore(codec, created.value.0, options.gromVersion, hasDatabaseUrl,
                                                      marker);
    IntactFacts(codec, created.value.0, created.value.1);
  }
}
