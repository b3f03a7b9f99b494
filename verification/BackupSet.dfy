/**
 Creating a backup set, inspecting it, and extracting its components into staging: which
 source ends up where for both database kinds, and why a created set always passes inspection.
 */
module BackupSet {
  import opened Foundation
  import opened Archive
  import opened ChecksumFile

  const MaxConfigSize := 16 * 0x10_0000
  const MaxDatabaseBackupSize := 16 * 0x4000_0000

  datatype ComponentName = GromData | PostgresDump | SigningCerts | RegistryData | DistributionConfig

  datatype Kind = TarArchive | PlainFile

  datatype Component = Component(
    name: ComponentName, file: FileName, kind: Kind, bytes: nat, sha256: string, entryCount: nat, contentBytes: nat)

  datatype BackupManifest = BackupManifest(
    formatVersion: int, consistency: string, gromVersion: string, database: Database, deploymentProfile: string,
    components: seq<Component>)

  datatype Database = Sqlite | Postgres | OtherDatabase

  const RequiredComponents := [GromData, SigningCerts, RegistryData, DistributionConfig]

  const PostgresRequiredComponents := [GromData, PostgresDump, SigningCerts, RegistryData, DistributionConfig]

  function Expected(database: Database): seq<ComponentName> {
    if database.Postgres? then PostgresRequiredComponents else RequiredComponents
  }

  /** The files of a backup set. What they are called is left to the codec. */
  datatype FileName = ManifestFile | ChecksumsFile | CompletionMarker | ComponentFile(component: ComponentName)

  function KindOf(name: ComponentName): Kind {
    if name.PostgresDump? || name.DistributionConfig? then PlainFile else TarArchive
  }

  function MaxSizeOf(name: ComponentName): nat {
    if name.PostgresDump? then MaxDatabaseBackupSize else MaxConfigSize
  }

  /** The libraries a backup set relies on: hashing, manifest encoding and archive layout. */
  datatype Codec = Codec(
    hash: string -> string, text: FileName -> string,
    encode: BackupManifest -> string, decode: string -> Result<BackupManifest>,
    tar: seq<Entry> -> string, untar: string -> Result<seq<Entry>>)

  ghost predicate Reliable(codec: Codec) {
    && (forall content :: ValidHash(codec.hash(content)))
    && (forall file :: PayloadName(codec.text(file)) && |codec.text(file)| <= 64)
    && (forall f, g :: codec.text(f) == codec.text(g) ==> f == g)
    && (forall m :: codec.decode(codec.encode(m)) == Ok(m))
    && (forall entries :: codec.untar(codec.tar(entries)) == Ok(entries))
  }

  /** The files of one backup directory. */
  type BackupDirectory = map<FileName, string>

  // ----- what a manifest has to satisfy

  ghost predicate ValidProfile(profile: string) {
    profile == "development" || profile == "permissive" || profile == "strict"
  }

  ghost predicate IsSpace(c: char) {
    c == ' ' || '\t' <= c <= '\r'
  }

  ghost predicate ValidVersion(version: string) {
    (exists c :: c in version && !IsSpace(c)) && |version| <= 128
  }

  ghost predicate ValidComponent(component: Component, expected: ComponentName) {
    && component.name == expected && component.file == ComponentFile(expected) && component.kind == KindOf(expected)
    && ValidHash(component.sha256)
    && (component.kind.PlainFile? ==>
          && component.entryCount == 1 && component.contentBytes == component.bytes
          && component.bytes <= MaxSizeOf(component.name))
  }

  ghost predicate ValidManifest(m: BackupManifest) {
    && (m.formatVersion == 1 || m.formatVersion == 2 || m.formatVersion == 3)
    && (m.formatVersion == 1 ==> m.consistency == "offline")
    && (m.formatVersion == 2 || m.formatVersion == 3 ==> m.consistency == "quiesced")
    && !m.database.OtherDatabase?
    && (m.database.Postgres? <==> m.formatVersion == 3)
    && ValidVersion(m.gromVersion) && ValidProfile(m.deploymentProfile)
    && |m.components| == |Expected(m.database)|
    && forall i | 0 <= i < |m.components| :: ValidComponent(m.components[i], Expected(m.database)[i])
  }

  method ValidateManifestMetadata(version: string, profile: string) returns (ok: bool)
    ensures ok <==> ValidVersion(version) && ValidProfile(profile)
  {
    var blank := true;
    for i := 0 to |version|
      invariant blank <==> forall j :: 0 <= j < i ==> IsSpace(version[j])
    {
      blank := blank && (version[i] == ' ' || '\t' <= version[i] <= '\r');
    }
    if blank || |version| > 128 {
      return false;
    }
    return profile in ["development", "permissive", "strict"];
  }

  /** A manifest is accepted if it has one of the three formats and declares exactly the components of its database. */
  method ValidateManifest(m: BackupManifest) returns (ok: bool)
    ensures ok <==> ValidManifest(m)
  {
    hide ValidVersion, ValidProfile;
    if m.formatVersion < 1 || m.formatVersion > 3 {
      return false;
    }
    if m.consistency != (if m.formatVersion == 1 then "offline" else "quiesced") {
      return false;
    }
    if m.database.OtherDatabase? || (m.database == Postgres) != (m.formatVersion == 3) {
      return false;
    }
    ok := ValidateManifestMetadata(m.gromVersion, m.deploymentProfile);
    if !ok {
      return;
    }
    var expected := if m.database == Postgres then PostgresRequiredComponents else RequiredComponents;
    if |m.components| != |expected| {
      return false;
    }
    for i := 0 to |expected|
      invariant forall j :: 0 <= j < i ==> ValidComponent(m.components[j], expected[j])
    {
      ok := ValidateComponent(m.components[i], expected[i]);
      if !ok {
        return;
      }
    }
    return true;
  }

  method ValidateComponent(component: Component, expected: ComponentName) returns (ok: bool)
    ensures ok <==> ValidComponent(component, expected)
  {
    if component.name != expected || component.file != ComponentFile(expected) || component.kind != KindOf(expected) {
      return false;
    }
    if |component.sha256| != HashLength || !IsLowerHex(component.sha256) {
      return false;
    }
    var maxSize := MaxConfigSize;
    if component.name.PostgresDump? {
      maxSize := MaxDatabaseBackupSize;
    }
    if component.kind.PlainFile?
       && (component.entryCount != 1 || component.contentBytes != component.bytes || component.bytes > maxSize) {
      return false;
    }
    return true;
  }

  // ----- inspection

  function ExpectedHashes(codec: Codec, directory: BackupDirectory, m: BackupManifest): map<string, string>
    requires ManifestFile in directory
  {
    AddHashes(codec, map[codec.text(ManifestFile) := codec.hash(directory[ManifestFile])], m.components)
  }

  function AddHashes(codec: Codec, hashes: map<string, string>, components: seq<Component>): map<string, string> {
    if components == [] then hashes
    else
      var last := components[|components| - 1];
      AddHashes(codec, hashes, components[..|components| - 1])[codec.text(last.file) := last.sha256]
  }

  ghost predicate ComponentIntact(codec: Codec, directory: BackupDirectory, component: Component) {
    && component.file in directory
    && |directory[component.file]| == component.bytes
    && codec.hash(directory[component.file]) == component.sha256
  }

  ghost predicate Declared(m: BackupManifest, file: FileName) {
    file == ManifestFile || file == ChecksumsFile || file == CompletionMarker || exists c | c in m.components :: c.file == file
  }

  /** The set is complete and unchanged, and declares exactly what it holds. */
  ghost predicate Intact(codec: Codec, directory: BackupDirectory, m: BackupManifest) {
    && CompletionMarker in directory && directory[CompletionMarker] == ""
    && ManifestFile in directory && |directory[ManifestFile]| <= MaxManifestSize
    && codec.decode(directory[ManifestFile]) == Ok(m)
    && ValidManifest(m)
    && (forall c | c in m.components :: ComponentIntact(codec, directory, c))
    && (forall file | file in directory :: Declared(m, file))
    && ChecksumsFile in directory
    && ReadBack(directory[ChecksumsFile]) == Ok(ExpectedHashes(codec, directory, m))
  }

  method InspectComponent(codec: Codec, directory: BackupDirectory, component: Component) returns (ok: bool)
    ensures ok <==> ComponentIntact(codec, directory, component)
  {
    if component.file !in directory {
      return false;
    }
    if |directory[component.file]| != component.bytes {
      return false;
    }
    return codec.hash(directory[component.file]) == component.sha256;
  }

  method Inspect(codec: Codec, directory: BackupDirectory) returns (result: Result<BackupManifest>)
    ensures result.Ok? ==> Intact(codec, directory, result.value)
    ensures result.Err? ==> forall m :: !Intact(codec, directory, m)
  {
    hide ValidManifest, ComponentIntact, ReadBack;
    if CompletionMarker !in directory || directory[CompletionMarker] != "" {
      return Err;
    }
    if ManifestFile !in directory || |directory[ManifestFile]| > MaxManifestSize {
      return Err;
    }
    var decoded := codec.decode(directory[ManifestFile]);
    if decoded.Err? {
      return Err;
    }
    var m := decoded.value;
    var valid := ValidateManifest(m);
    if !valid {
      return Err;
    }
    var allowed := {ManifestFile, ChecksumsFile, CompletionMarker};
    var expectedHashes := map[codec.text(ManifestFile) := codec.hash(directory[ManifestFile])];
    for i := 0 to |m.components|
      invariant forall c :: c in m.components[..i] ==> ComponentIntact(codec, directory, c)
      invariant forall file :: file in allowed <==>
                                 file == ManifestFile || file == ChecksumsFile || file == CompletionMarker ||
                                 exists c :: c in m.components[..i] && c.file == file
      invariant expectedHashes ==
                AddHashes(codec, map[codec.text(ManifestFile) := codec.hash(directory[ManifestFile])], m.components[..i])
    {
      var component := m.components[i];
      assert m.components[..i + 1] == m.components[..i] + [component];
      assert m.components[..i + 1][..i] == m.components[..i];
      allowed := allowed + {component.file};
      expectedHashes := expectedHashes[codec.text(component.file) := component.sha256];
      var intact := InspectComponent(codec, directory, component);
      if !intact {
        assert component in m.components;
        return Err;
      }
    }
    assert m.components[..|m.components|] == m.components;
    if !(directory.Keys <= allowed) {
      assert exists file :: file in directory && !Declared(m, file);
      return Err;
    }
    if ChecksumsFile !in directory {
      return Err;
    }
    var sums := ReadChecksumFile(directory[ChecksumsFile]);
    if sums.Err? {
      return Err;
    }
    if |sums.value| != |expectedHashes| {
      return Err;
    }
    if exists name | name in expectedHashes :: !(name in sums.value && sums.value[name] == expectedHashes[name]) {
      return Err;
    }
    EqualMaps(sums.value, expectedHashes);
    return Ok(m);
  }

  /** As many entries, and every expected one present with its value: the maps are the same. */
  lemma EqualMaps(sums: map<string, string>, expected: map<string, string>)
    requires |sums| == |expected|
    requires forall name :: name in expected ==> name in sums && sums[name] == expected[name]
    ensures sums == expected
  {
    assert |sums.Keys| == |sums| && |expected.Keys| == |expected|;
    SubsetCardinality(expected.Keys, sums.Keys);
  }

  // ----- what inspection finds

  /** The checksum of the manifest is not overwritten by those of the components. */
  lemma {:induction false} ManifestHashStays(codec: Codec, hashes: map<string, string>, components: seq<Component>)
    requires Reliable(codec) && codec.text(ManifestFile) in hashes
    requires forall c :: c in components ==> c.file != ManifestFile
    ensures var all := AddHashes(codec, hashes, components);
            codec.text(ManifestFile) in all && all[codec.text(ManifestFile)] == hashes[codec.text(ManifestFile)]
    decreases |components|
  {
    if components != [] {
      ManifestHashStays(codec, hashes, components[..|components| - 1]);
      assert components[|components| - 1] in components;
    }
  }

  lemma ManifestHashIsExpected(codec: Codec, directory: BackupDirectory, m: BackupManifest)
    requires Reliable(codec) && ManifestFile in directory && ValidManifest(m)
    ensures var all := ExpectedHashes(codec, directory, m);
            codec.text(ManifestFile) in all && all[codec.text(ManifestFile)] == codec.hash(directory[ManifestFile])
  {
    forall c | c in m.components
      ensures c.file != ManifestFile
    {
      var i :| 0 <= i < |m.components| && m.components[i] == c;
      assert ValidComponent(c, Expected(m.database)[i]);
    }
    hide ValidManifest;
    ManifestHashStays(codec, map[codec.text(ManifestFile) := codec.hash(directory[ManifestFile])], m.components);
  }

  ghost predicate SameBut(directory: BackupDirectory, changed: BackupDirectory, file: FileName) {
    forall f :: f != file ==> (f in changed <==> f in directory) && (f in changed ==> changed[f] == directory[f])
  }

  /** One file other than the checksums is missing, new, or has a content with another hash. */
  ghost predicate Tampered(codec: Codec, directory: BackupDirectory, changed: BackupDirectory, file: FileName) {
    && file != ChecksumsFile && SameBut(directory, changed, file)
    && (file in directory || file in changed)
    && (file in directory && file in changed ==> codec.hash(changed[file]) != codec.hash(directory[file]))
  }

  lemma ManifestHashesAgree(codec: Codec, directory: BackupDirectory, changed: BackupDirectory, m: BackupManifest,
                            other: BackupManifest)
    requires Reliable(codec) && Intact(codec, directory, m) && Intact(codec, changed, other)
    requires changed[ChecksumsFile] == directory[ChecksumsFile]
    ensures codec.hash(changed[ManifestFile]) == codec.hash(directory[ManifestFile])
  {
    ManifestHashIsExpected(codec, directory, m);
    ManifestHashIsExpected(codec, changed, other);
  }

  lemma ComponentsAgree(codec: Codec, directory: BackupDirectory, changed: BackupDirectory, m: BackupManifest,
                        file: FileName)
    requires Intact(codec, directory, m) && Intact(codec, changed, m)
    requires file in directory && file != ManifestFile && file != ChecksumsFile
    ensures file in changed && codec.hash(changed[file]) == codec.hash(directory[file])
  {
    hide ValidManifest, ReadBack, ExpectedHashes;
    assert Declared(m, file);
    if file != CompletionMarker {
      var c :| c in m.components && c.file == file;
      assert ComponentIntact(codec, directory, c) && ComponentIntact(codec, changed, c);
    }
  }

  /**
   Two intact sets that differ in one file at most, which is not the checksums, have the same hash
   for that file too.
   */
  lemma IntactSetsAgree(codec: Codec, directory: BackupDirectory, changed: BackupDirectory, m: BackupManifest,
                        file: FileName, other: BackupManifest)
    requires Reliable(codec) && Intact(codec, directory, m) && Intact(codec, changed, other)
    requires file in directory && file != ChecksumsFile && SameBut(directory, changed, file)
    ensures file in changed && codec.hash(changed[file]) == codec.hash(directory[file])
  {
    hide ValidManifest, ReadBack, ExpectedHashes, ComponentIntact, Declared;
    if file == ManifestFile {
      ManifestHashesAgree(codec, directory, changed, m, other);
    } else {
      assert Ok(other) == Ok(m);
      ComponentsAgree(codec, directory, changed, m, file);
    }
  }

  /** No manifest makes a set pass inspection in which one file of an intact set was tampered with. */
  lemma TamperingIsFound(codec: Codec, directory: BackupDirectory, changed: BackupDirectory, m: BackupManifest,
                         file: FileName, other: BackupManifest)
    requires Reliable(codec) && Intact(codec, directory, m) && Tampered(codec, directory, changed, file)
    ensures !Intact(codec, changed, other)
  {
    hide Intact;
    if Intact(codec, changed, other) {
      if file in directory {
        IntactSetsAgree(codec, directory, changed, m, file, other);
      } else {
        IntactSetsAgree(codec, changed, directory, other, file, m);
      }
    }
  }

  // ----- creation

  datatype Sources = Sources(gromData: Tree, signingCerts: Tree, registryData: Tree, config: string, dump: string)

  /** An empty database option means SQLite, an empty consistency means offline. */
  datatype Options = Options(consistency: string, database: Option<Database>, gromVersion: string, deploymentProfile: string)

  function DatabaseOf(options: Options): Database {
    if options.database.None? then Sqlite else options.database.value
  }

  /** What the options have to be for the finished manifest to be accepted. */
  ghost predicate Acceptable(options: Options) {
    && ValidVersion(options.gromVersion) && ValidProfile(options.deploymentProfile)
    && !DatabaseOf(options).OtherDatabase?
    && (options.consistency == "quiesced" ||
        (DatabaseOf(options).Sqlite? && (options.consistency == "" || options.consistency == "offline")))
  }

  function TreeOf(sources: Sources, name: ComponentName): Tree {
    match name
    case GromData => sources.gromData
    case SigningCerts => sources.signingCerts
    case _ => sources.registryData
  }

  function ContentOf(sources: Sources, name: ComponentName): string {
    if name.PostgresDump? then sources.dump else sources.config
  }

  ghost predicate SourceFits(sources: Sources, name: ComponentName) {
    match KindOf(name)
    case TarArchive => Archivable([], TreeOf(sources, name))
    case PlainFile => |ContentOf(sources, name)| <= MaxSizeOf(name)
  }

  ghost predicate SourcesFit(sources: Sources, names: seq<ComponentName>) {
    forall name | name in names :: SourceFits(sources, name)
  }

  /** What is stored for one component. */
  function Payload(codec: Codec, sources: Sources, name: ComponentName): string {
    match KindOf(name)
    case TarArchive => codec.tar(Entries([], TreeOf(sources, name)))
    case PlainFile => ContentOf(sources, name)
  }

  function ComponentFor(codec: Codec, sources: Sources, name: ComponentName): Component {
    var payload := Payload(codec, sources, name);
    var measure :=
      match KindOf(name)
      case TarArchive => var entries := Entries([], TreeOf(sources, name)); Measure(|entries|, ContentBytes(entries))
      case PlainFile => Measure(1, |payload|);
    Component(name, ComponentFile(name), KindOf(name), |payload|, codec.hash(payload), measure.entries, measure.contentBytes)
  }

  /** Archives a directory or copies a regular file. */
  method StoreComponent(codec: Codec, sources: Sources, name: ComponentName)
    returns (result: Result<(string, Component)>)
    ensures result.Ok? <==> SourceFits(sources, name)
    ensures result.Ok? ==> result.value == (Payload(codec, sources, name), ComponentFor(codec, sources, name))
  {
    match KindOf(name) {
      case TarArchive =>
        var written := WriteArchive(TreeOf(sources, name));
        if written.Err? {
          return Err;
        }
        var payload := codec.tar(written.value.0);
        var measure := written.value.1;
        return Ok((payload, Component(name, ComponentFile(name), TarArchive, |payload|, codec.hash(payload),
                                      measure.entries, measure.contentBytes)));
      case PlainFile =>
        var content := ContentOf(sources, name);
        if |content| > MaxSizeOf(name) {
          return Err;
        }
        return Ok((content, Component(name, ComponentFile(name), PlainFile, |content|, codec.hash(content), 1, |content|)));
    }
  }

  /** The order in which the components are written: a PostgreSQL dump before everything else. */
  function WriteOrder(database: Database): (order: seq<nat>)
    ensures |order| == |Expected(database)| && Distinct(order)
    ensures forall i :: 0 <= i < |order| ==> order[i] < |Expected(database)|
    ensures forall i: nat :: i < |order| ==> i in order
  {
    if database.Postgres? then [1, 0, 2, 3, 4] else [0, 1, 2, 3]
  }

  /** The components written so far are in their places of the manifest and in their files. */
  ghost predicate Placed(codec: Codec, sources: Sources, expected: seq<ComponentName>, written: seq<nat>,
                         components: seq<Component>, directory: BackupDirectory)
    requires |components| == |expected| && forall k :: k in written ==> k < |expected|
  {
    && (forall k :: k in written ==>
                      && components[k] == ComponentFor(codec, sources, expected[k])
                      && ComponentFile(expected[k]) in directory
                      && directory[ComponentFile(expected[k])] == Payload(codec, sources, expected[k]))
    && (forall file :: file in directory ==> exists k :: k in written && file == ComponentFile(expected[k]))
  }

  lemma ExpectedIsDistinct(database: Database)
    ensures Distinct(Expected(database)) && 4 <= |Expected(database)| <= 5
  {
  }

  lemma OneMorePlaced(codec: Codec, sources: Sources, database: Database, written: seq<nat>, k: nat,
                      known: seq<Component>, components: seq<Component>, before: BackupDirectory, directory: BackupDirectory)
    requires |known| == |components| == |Expected(database)| && k < |known| && k !in written
    requires forall j :: j in written ==> j < |Expected(database)|
    requires Placed(codec, sources, Expected(database), written, known, before)
    requires components == known[k := ComponentFor(codec, sources, Expected(database)[k])]
    requires directory == before[ComponentFile(Expected(database)[k]) := Payload(codec, sources, Expected(database)[k])]
    ensures Placed(codec, sources, Expected(database), written + [k], components, directory)
  {
    ExpectedIsDistinct(database);
    hide ComponentFor, Payload, Expected;
    var expected := Expected(database);
    forall j | j in written + [k]
      ensures components[j] == ComponentFor(codec, sources, expected[j])
      ensures ComponentFile(expected[j]) in directory
      ensures directory[ComponentFile(expected[j])] == Payload(codec, sources, expected[j])
    {
      assert j in written ==> expected[j] != expected[k];
    }
    forall file | file in directory
      ensures exists j :: j in written + [k] && file == ComponentFile(expected[j])
    {
      if file != ComponentFile(expected[k]) {
        var j :| j in written && file == ComponentFile(expected[j]);
        assert j in written + [k];
      } else {
        assert k in written + [k];
      }
    }
  }

  method PlaceComponents(codec: Codec, database: Database, sources: Sources, components: array<Component>)
    returns (ok: bool, directory: BackupDirectory)
    requires components.Length == |Expected(database)|
    modifies components
    ensures ok <==> SourcesFit(sources, Expected(database))
    ensures ok ==> Placed(codec, sources, Expected(database), WriteOrder(database), components[..], directory)
  {
    hide ComponentFor, Payload, Expected, WriteOrder, SourceFits;
    var expected := Expected(database);
    var order := WriteOrder(database);
    directory := map[];
    for i := 0 to |order|
      invariant forall k :: k in order[..i] ==> SourceFits(sources, expected[k])
      invariant Placed(codec, sources, expected, order[..i], components[..], directory)
    {
      var k := order[i];
      assert order[..i + 1] == order[..i] + [k];
      var stored := StoreComponent(codec, sources, expected[k]);
      if stored.Err? {
        assert expected[k] in expected;
        return false, directory;
      }
      ghost var before, known := directory, components[..];
      directory := directory[ComponentFile(expected[k]) := stored.value.0];
      components[k] := stored.value.1;
      OneMorePlaced(codec, sources, database, order[..i], k, known, components[..], before, directory);
    }
    assert order[..|order|] == order;
    forall name | name in expected
      ensures SourceFits(sources, name)
    {
      var k: nat :| k < |expected| && expected[k] == name;
      assert k in order;
    }
    ok := true;
  }

  /** The format version and consistency the manifest gets from the options. */
  function ConsistencyOf(options: Options): string {
    if options.consistency == "" then "offline" else options.consistency
  }

  function FormatVersionOf(options: Options): int {
    if DatabaseOf(options).Postgres? then 3 else if ConsistencyOf(options) == "quiesced" then 2 else 1
  }

  function ManifestFor(codec: Codec, options: Options, sources: Sources): BackupManifest {
    var expected := Expected(DatabaseOf(options));
    BackupManifest(FormatVersionOf(options), ConsistencyOf(options), options.gromVersion, DatabaseOf(options),
                   options.deploymentProfile,
                   seq(|expected|, i requires 0 <= i < |expected| => ComponentFor(codec, sources, expected[i])))
  }

  /** The manifest is valid exactly for acceptable options: PostgreSQL needs a quiesced backup. */
  lemma ManifestIsValidExactly(codec: Codec, options: Options, sources: Sources)
    requires Reliable(codec) && SourcesFit(sources, Expected(DatabaseOf(options)))
    ensures ValidManifest(ManifestFor(codec, options, sources)) <==> Acceptable(options)
  {
    var m := ManifestFor(codec, options, sources);
    var expected := Expected(DatabaseOf(options));
    forall i | 0 <= i < |expected|
      ensures ValidComponent(m.components[i], expected[i])
    {
      assert expected[i] in expected;
      assert SourceFits(sources, expected[i]);
      var payload := Payload(codec, sources, expected[i]);
      assert ValidHash(codec.hash(payload));
    }
    assert "quiesced" != "offline" && "quiesced" != "" by {
      assert |"quiesced"| == 8 && |"offline"| == 7;
    }
  }

  /** The options and sources a backup set can be made of. */
  ghost predicate Creatable(codec: Codec, options: Options, sources: Sources) {
    && Acceptable(options) && SourcesFit(sources, Expected(DatabaseOf(options)))
    && |codec.encode(ManifestFor(codec, options, sources))| <= MaxManifestSize
  }

  /** Every component file holds what its source stands for. */
  ghost predicate Stored(codec: Codec, sources: Sources, database: Database, directory: BackupDirectory) {
    forall name | name in Expected(database) ::
      ComponentFile(name) in directory && directory[ComponentFile(name)] == Payload(codec, sources, name)
  }

  function Hashes(codec: Codec, m: BackupManifest): map<string, string> {
    AddHashes(codec, map[codec.text(ManifestFile) := codec.hash(codec.encode(m))], m.components)
  }

  lemma {:induction false} HashesArePrintable(codec: Codec, hashes: map<string, string>, components: seq<Component>)
    requires Reliable(codec) && forall c :: c in components ==> ValidHash(c.sha256)
    requires forall name :: name in hashes ==> PayloadName(name) && |name| <= 64 && ValidHash(hashes[name])
    ensures var all := AddHashes(codec, hashes, components);
            && |all| <= |hashes| + |components|
            && forall name :: name in all ==> PayloadName(name) && |name| <= 64 && ValidHash(all[name])
  {
    hide PayloadName, ValidHash;
    if components != [] {
      HashesArePrintable(codec, hashes, components[..|components| - 1]);
    }
  }

  lemma {:induction false} PrintIsShort(names: seq<string>, hashes: map<string, string>)
    requires forall name :: name in names ==> name in hashes && |name| <= 64 && ValidHash(hashes[name])
    ensures |Print(names, hashes)| <= 131 * |names|
  {
    if names != [] {
      PrintIsShort(names[1..], hashes);
    }
  }

  /** The checksum file of a new set reads back as the hashes it was printed from. */
  lemma SumsReadBack(codec: Codec, m: BackupManifest, names: seq<string>)
    requires Reliable(codec) && |m.components| <= 5 && forall c :: c in m.components ==> ValidHash(c.sha256)
    requires Distinct(names) && Elements(names) == Hashes(codec, m).Keys
    ensures forall name :: name in names ==> name in Hashes(codec, m)
    ensures ReadBack(Print(names, Hashes(codec, m))) == Ok(Hashes(codec, m))
  {
    hide PayloadName, ValidHash, Print, ReadBack, AddHashes;
    var hashes := Hashes(codec, m);
    HashesArePrintable(codec, map[codec.text(ManifestFile) := codec.hash(codec.encode(m))], m.components);
    assert forall name :: name in names ==> name in Elements(names);
    PrintIsShort(names, hashes);
    DistinctCardinality(names);
    assert |hashes.Keys| == |hashes|;
    PrintedIsReadBack(names, hashes);
  }

  lemma PlacedIsStored(codec: Codec, options: Options, sources: Sources, components: seq<Component>,
                       directory: BackupDirectory)
    requires |components| == |Expected(DatabaseOf(options))|
    requires Placed(codec, sources, Expected(DatabaseOf(options)), WriteOrder(DatabaseOf(options)), components, directory)
    ensures components == ManifestFor(codec, options, sources).components
    ensures Stored(codec, sources, DatabaseOf(options), directory)
    ensures forall file :: file in directory ==> file.ComponentFile? && file.component in Expected(DatabaseOf(options))
  {
    hide ComponentFor, Payload, Expected, WriteOrder;
    var database := DatabaseOf(options);
    var expected := Expected(database);
    forall k | 0 <= k < |components|
      ensures components[k] == ComponentFor(codec, sources, expected[k])
    {
      assert k in WriteOrder(database);
    }
    forall name | name in expected
      ensures ComponentFile(name) in directory && directory[ComponentFile(name)] == Payload(codec, sources, name)
    {
      var k: nat :| k < |expected| && expected[k] == name;
      assert k in WriteOrder(database);
    }
  }

  /** What a finished directory holds beside the components. */
  ghost predicate Finished(codec: Codec, m: BackupManifest, names: seq<string>, placed: BackupDirectory,
                           directory: BackupDirectory) {
    && Distinct(names) && Elements(names) == Hashes(codec, m).Keys
    && (forall name :: name in names ==> name in Hashes(codec, m))
    && directory == placed[ManifestFile := codec.encode(m)][ChecksumsFile := Print(names, Hashes(codec, m))][CompletionMarker := ""]
  }

  lemma ComponentIsIntact(codec: Codec, sources: Sources, name: ComponentName, directory: BackupDirectory)
    requires ComponentFile(name) in directory && directory[ComponentFile(name)] == Payload(codec, sources, name)
    ensures ComponentIntact(codec, directory, ComponentFor(codec, sources, name))
  {
    hide Payload;
  }

  lemma CreatedComponents(codec: Codec, options: Options, sources: Sources, placed: BackupDirectory,
                          directory: BackupDirectory)
    requires Stored(codec, sources, DatabaseOf(options), placed)
    requires forall name :: ComponentFile(name) in placed ==>
                              ComponentFile(name) in directory && directory[ComponentFile(name)] == placed[ComponentFile(name)]
    ensures forall c :: c in ManifestFor(codec, options, sources).components ==> ComponentIntact(codec, directory, c)
    ensures forall name :: name in Expected(DatabaseOf(options)) ==>
                             exists c :: c in ManifestFor(codec, options, sources).components && c.file == ComponentFile(name)
  {
    hide Payload, Expected, ComponentIntact, ComponentFor, DatabaseOf;
    var components := ManifestFor(codec, options, sources).components;
    var expected := Expected(DatabaseOf(options));
    forall c | c in components
      ensures ComponentIntact(codec, directory, c)
    {
      var k: nat :| k < |expected| && c == ComponentFor(codec, sources, expected[k]);
      assert expected[k] in expected;
      ComponentIsIntact(codec, sources, expected[k], directory);
    }
    forall name | name in expected
      ensures exists c :: c in components && c.file == ComponentFile(name)
    {
      var k: nat :| k < |expected| && expected[k] == name;
      FileOfComponent(codec, sources, name);
      assert components[k] in components && components[k].file == ComponentFile(name);
    }
  }

  lemma FileOfComponent(codec: Codec, sources: Sources, name: ComponentName)
    ensures ComponentFor(codec, sources, name).file == ComponentFile(name)
  {
  }

  lemma ValidHashes(m: BackupManifest)
    requires ValidManifest(m)
    ensures |m.components| <= 5 && forall c :: c in m.components ==> ValidHash(c.sha256)
  {
    forall c | c in m.components
      ensures ValidHash(c.sha256)
    {
      var i :| 0 <= i < |m.components| && m.components[i] == c;
      assert ValidComponent(m.components[i], Expected(m.database)[i]);
    }
  }

  lemma FinishedIsIntact(codec: Codec, m: BackupManifest, names: seq<string>, placed: BackupDirectory,
                         directory: BackupDirectory)
    requires Reliable(codec) && ValidManifest(m) && |codec.encode(m)| <= MaxManifestSize
    requires Finished(codec, m, names, placed, directory)
    requires forall c :: c in m.components ==> ComponentIntact(codec, directory, c)
    requires forall file :: file in placed ==> exists c :: c in m.components && c.file == file
    ensures Intact(codec, directory, m)
  {
    hide ValidManifest, ComponentIntact, ReadBack, Print, AddHashes, ValidHash, PayloadName;
    ValidHashes(m);
    SumsReadBack(codec, m, names);
  }

  lemma CreatedIsIntact(codec: Codec, options: Options, sources: Sources, names: seq<string>, placed: BackupDirectory,
                        directory: BackupDirectory)
    requires Reliable(codec) && Creatable(codec, options, sources)
    requires Stored(codec, sources, DatabaseOf(options), placed)
    requires forall file :: file in placed ==> file.ComponentFile? && file.component in Expected(DatabaseOf(options))
    requires Finished(codec, ManifestFor(codec, options, sources), names, placed, directory)
    ensures Intact(codec, directory, ManifestFor(codec, options, sources))
  {
    ManifestIsValidExactly(codec, options, sources);
    hide Reliable, Expected, DatabaseOf, ManifestFor, ValidManifest, Print, AddHashes, Intact, Stored, Acceptable,
         SourcesFit, Hashes;
    CreatedComponents(codec, options, sources, placed, directory);
    FinishedIsIntact(codec, ManifestFor(codec, options, sources), names, placed, directory);
  }

  /** The inspection of a finished set accepts it unless its manifest is too large. */
  lemma InspectionDecides(codec: Codec, options: Options, sources: Sources, names: seq<string>, placed: BackupDirectory,
                          directory: BackupDirectory, inspection: Result<BackupManifest>)
    requires Reliable(codec) && Acceptable(options) && SourcesFit(sources, Expected(DatabaseOf(options)))
    requires Stored(codec, sources, DatabaseOf(options), placed)
    requires forall file :: file in placed ==> file.ComponentFile? && file.component in Expected(DatabaseOf(options))
    requires Finished(codec, ManifestFor(codec, options, sources), names, placed, directory)
    requires inspection.Ok? ==> Intact(codec, directory, inspection.value)
    requires inspection.Err? ==> forall m :: !Intact(codec, directory, m)
    ensures inspection.Ok? <==> Creatable(codec, options, sources)
    ensures inspection.Ok? ==> inspection.value == ManifestFor(codec, options, sources)
    ensures Stored(codec, sources, DatabaseOf(options), directory)
  {
    hide Expected, DatabaseOf, ManifestFor, ValidManifest, Print, AddHashes, Acceptable, SourcesFit, Payload, ReadBack, Hashes,
         ComponentIntact, ExpectedHashes, Declared;
    if Creatable(codec, options, sources) {
      CreatedIsIntact(codec, options, sources, names, placed, directory);
    }
  }

  /** The hashes the checksum file has to hold. */
  method PayloadHashes(codec: Codec, m: BackupManifest, raw: string) returns (hashes: map<string, string>)
    requires raw == codec.encode(m)
    ensures hashes == Hashes(codec, m)
  {
    hashes := map[codec.text(ManifestFile) := codec.hash(raw)];
    for i := 0 to |m.components|
      invariant hashes == AddHashes(codec, map[codec.text(ManifestFile) := codec.hash(raw)], m.components[..i])
    {
      assert m.components[..i + 1][..i] == m.components[..i];
      hashes := hashes[codec.text(m.components[i].file) := m.components[i].sha256];
    }
    assert m.components[..|m.components|] == m.components;
  }

  const Blank := Component(GromData, ManifestFile, PlainFile, 0, "", 0, 0)

  /** Adds the manifest, the checksums and the completion marker to the stored components, and inspects the result. */
  method Finish(codec: Codec, m: BackupManifest, placed: BackupDirectory)
    returns (directory: BackupDirectory, inspection: Result<BackupManifest>, ghost names: seq<string>)
    ensures Finished(codec, m, names, placed, directory)
    ensures inspection.Ok? ==> Intact(codec, directory, inspection.value)
    ensures inspection.Err? ==> forall other :: !Intact(codec, directory, other)
  {
    hide Intact, AddHashes, Print, Distinct;
    directory := placed[ManifestFile := codec.encode(m)];
    var hashes := PayloadHashes(codec, m, directory[ManifestFile]);
    var sums;
    sums, names := PrintChecksums(hashes);
    directory := directory[ChecksumsFile := sums][CompletionMarker := ""];
    inspection := Inspect(codec, directory);
  }

  /** Makes the manifest for components that are in their places; it has to be valid. */
  method Describe(codec: Codec, options: Options, components: seq<Component>, ghost sources: Sources)
    returns (result: Result<BackupManifest>)
    requires Reliable(codec) && SourcesFit(sources, Expected(DatabaseOf(options)))
    requires components == ManifestFor(codec, options, sources).components
    ensures result == if Acceptable(options) then Ok(ManifestFor(codec, options, sources)) else Err
  {
    ManifestIsValidExactly(codec, options, sources);
    hide Reliable, Expected, ValidManifest, Acceptable, SourcesFit, ComponentFor;
    var m := BackupManifest(FormatVersionOf(options), ConsistencyOf(options), options.gromVersion, DatabaseOf(options),
                            options.deploymentProfile, components);
    assert m == ManifestFor(codec, options, sources);
    var valid := ValidateManifest(m);
    if !valid {
      return Err;
    }
    return Ok(m);
  }

  /**
   Creates a backup set. It fails only for unacceptable options, sources that do not fit or an
   oversized manifest: the inspection of the finished set never does.
   */
  method Create(codec: Codec, options: Options, sources: Sources)
    returns (result: Result<(BackupDirectory, BackupManifest)>)
    requires Reliable(codec)
    ensures result.Ok? <==> Creatable(codec, options, sources)
    ensures result.Ok? ==>
              && result.value.1 == ManifestFor(codec, options, sources)
              && Intact(codec, result.value.0, result.value.1)
              && Stored(codec, sources, DatabaseOf(options), result.value.0)
    ensures result.Ok? && options.database.None? ==> result.value.1.database == Sqlite
  {
    var valid := ValidateManifestMetadata(options.gromVersion, options.deploymentProfile);
    if !valid {
      return Err;
    }
    var database := DatabaseOf(options);
    if database.OtherDatabase? {
      return Err;
    }
    hide Reliable, Expected, Placed, Intact, Stored, Acceptable, SourcesFit, ValidVersion, ValidProfile, WriteOrder, ManifestFor,
         Finished;
    var components := new Component[|Expected(database)|](_ => Blank);
    var ok, placed := PlaceComponents(codec, database, sources, components);
    if !ok {
      return Err;
    }
    PlacedIsStored(codec, options, sources, components[..], placed);
    var m := Describe(codec, options, components[..], sources);
    if m.Err? {
      return Err;
    }
    ghost var names;
    var directory, inspection;
    directory, inspection, names := Finish(codec, m.value, placed);
    InspectionDecides(codec, options, sources, names, placed, directory, inspection);
    if inspection.Err? {
      return Err;
    }
    return Ok((directory, m.value));
  }
}
