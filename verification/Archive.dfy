/** Writing a directory tree into a component archive and extracting it again. */
module Archive {
  import opened Foundation

  type Name = string
  type Path = seq<Name>
  type Mode = bv12
  /** Contents are sequences of characters that stand for bytes. */
  type Byte = char

  const MaxArchivePath := 4096

  /** Owner and group permissions, octal 770. */
  const SafeRestoreModeMask: Mode := 0x1F8

  datatype Tree =
    | File(mode: Mode, content: seq<Byte>)
    | Dir(mode: Mode, kids: seq<Kid>)
    | Symlink
    | Special

  /** One entry of a directory. */
  datatype Kid = Kid(name: Name, tree: Tree)

  datatype Entry = DirEntry(path: Path, mode: Mode) | FileEntry(path: Path, mode: Mode, content: seq<Byte>) | OtherEntry(path: Path)

  datatype Node = DirNode(mode: Mode) | FileNode(mode: Mode, content: seq<Byte>)

  type FileSystem = map<Path, Node>

  datatype Measure = Measure(entries: nat, contentBytes: nat)

  // ----- paths

  /** The length of a path as it is written: components joined by slashes, a dot for the root. */
  function TextLength(path: Path): nat {
    if path == [] then 1
    else if |path| == 1 then |path[0]|
    else TextLength(path[..|path| - 1]) + 1 + |path[|path| - 1]|
  }

  predicate ProperName(name: Name) {
    name != "" && name != "." && name != ".." && '/' !in name
  }

  predicate ValidatePath(path: Path) {
    TextLength(path) <= MaxArchivePath && forall name | name in path :: ProperName(name)
  }

  /** A path as it is written. */
  ghost function Text(path: Path): string {
    if path == [] then "." else if |path| == 1 then path[0] else Text(path[..|path| - 1]) + "/" + path[|path| - 1]
  }

  /** A path is accepted up to 4096 characters, if no name in it leads elsewhere. */
  lemma AcceptedPaths(path: Path)
    ensures ValidatePath(path) <==> |Text(path)| <= 4096 && forall name :: name in path ==> PlainName(name)
  {
    TextIsMeasured(path);
  }

  lemma {:induction false} TextIsMeasured(path: Path)
    ensures TextLength(path) == |Text(path)|
  {
    if |path| > 1 {
      TextIsMeasured(path[..|path| - 1]);
    }
  }

  // ----- writing

  function Entries(path: Path, tree: Tree): seq<Entry>
    decreases tree, 1
  {
    match tree
    case File(mode, content) => [FileEntry(path, mode, content)]
    case Dir(mode, kids) => [DirEntry(path, mode)] + KidEntries(path, kids)
    case _ => [OtherEntry(path)]
  }

  function KidEntries(path: Path, kids: seq<Kid>): seq<Entry>
    decreases kids, 0
  {
    if kids == [] then []
    else Entries(path + [kids[0].name], kids[0].tree) + KidEntries(path, kids[1..])
  }

  /** What the walk accepts: regular files and directories under paths that can be archived. */
  predicate Archivable(path: Path, tree: Tree)
    decreases tree, 1
  {
    ValidatePath(path) && (tree.File? || (tree.Dir? && KidsArchivable(path, tree.kids)))
  }

  predicate KidsArchivable(path: Path, kids: seq<Kid>)
    decreases kids, 0
  {
    kids == [] || (Archivable(path + [kids[0].name], kids[0].tree) && KidsArchivable(path, kids[1..]))
  }

  function ContentBytes(entries: seq<Entry>): nat {
    if entries == [] then 0
    else ContentBytes(entries[..|entries| - 1]) +
         (if entries[|entries| - 1].FileEntry? then |entries[|entries| - 1].content| else 0)
  }

  lemma {:induction false} ContentBytesConcat(left: seq<Entry>, right: seq<Entry>)
    ensures ContentBytes(left + right) == ContentBytes(left) + ContentBytes(right)
  {
    if right == [] {
      assert left + right == left;
    } else {
      ContentBytesConcat(left, right[..|right| - 1]);
      assert (left + right)[..|left + right| - 1] == left + right[..|right| - 1];
    }
  }

  lemma Append(before: seq<Entry>, one: seq<Entry>, more: seq<Entry>, middle: seq<Entry>, after: seq<Entry>)
    requires middle == before + one && after == middle + more
    ensures after == before + (one + more)
  {
  }

  class Writer {
    var written: seq<Entry>
    var entries: nat
    var contentBytes: nat

    constructor ()
      ensures written == [] && entries == 0 && contentBytes == 0
    {
      written, entries, contentBytes := [], 0, 0;
    }

    ghost predicate Counted()
      reads this
    {
      entries == |written| && contentBytes == ContentBytes(written)
    }

    /** Walks one subtree, a directory before what is in it. */
    method Walk(path: Path, tree: Tree) returns (ok: bool)
      requires Counted()
      modifies this
      ensures Counted()
      ensures ok <==> Archivable(path, tree)
      ensures ok ==> written == old(written) + Entries(path, tree)
      decreases tree, 1
    {
      if !ValidatePath(path) {
        return false;
      }
      match tree {
        case Symlink => return false;
        case Special => return false;
        case File(mode, content) =>
          ContentBytesConcat(written, [FileEntry(path, mode, content)]);
          written := written + [FileEntry(path, mode, content)];
          entries := entries + 1;
          contentBytes := contentBytes + |content|;
          assert [FileEntry(path, mode, content)][..0] == [];
          return true;
        case Dir(mode, kids) =>
          ContentBytesConcat(written, [DirEntry(path, mode)]);
          assert [DirEntry(path, mode)][..0] == [];
          written := written + [DirEntry(path, mode)];
          entries := entries + 1;
          ok := WalkKids(path, kids);
      }
    }

    method WalkKids(path: Path, kids: seq<Kid>) returns (ok: bool)
      requires Counted()
      modifies this
      ensures Counted()
      ensures ok <==> KidsArchivable(path, kids)
      ensures ok ==> written == old(written) + KidEntries(path, kids)
      decreases kids, 0
    {
      if kids == [] {
        return true;
      }
      ghost var before := written;
      ok := Walk(path + [kids[0].name], kids[0].tree);
      if ok {
        ghost var middle := written;
        ok := WalkKids(path, kids[1..]);
        if ok {
          Append(before, Entries(path + [kids[0].name], kids[0].tree), KidEntries(path, kids[1..]), middle, written);
        }
      }
    }
  }

  /** The archive of a tree and its measurements, or an error when something cannot be archived. */
  method WriteArchive(tree: Tree) returns (result: Result<(seq<Entry>, Measure)>)
    ensures result.Ok? <==> Archivable([], tree)
    ensures result.Ok? ==>
              && result.value.0 == Entries([], tree)
              && result.value.1 == Measure(|result.value.0|, ContentBytes(result.value.0))
  {
    var writer := new Writer();
    var ok := writer.Walk([], tree);
    if !ok {
      return Err;
    }
    return Ok((writer.written, Measure(writer.entries, writer.contentBytes)));
  }

  // ----- extracting

  function Masked(mode: Mode): Mode {
    mode & SafeRestoreModeMask
  }

  /** Creates the missing directories of a path; fails when a file is in the way. */
  function MkdirAll(fs: FileSystem, path: Path, mode: Mode): Result<FileSystem>
    decreases |path|
  {
    if path in fs then (if fs[path].DirNode? then Ok(fs) else Err)
    else if path == [] then Err
    else
      var above := MkdirAll(fs, path[..|path| - 1], mode);
      if above.Err? then Err else Ok(above.value[path := DirNode(mode)])
  }

  function ExtractOne(fs: FileSystem, seen: set<Path>, entry: Entry): Result<FileSystem> {
    if !ValidatePath(entry.path) || entry.path in seen then Err
    else
      match entry
      case DirEntry(path, mode) =>
        var made := MkdirAll(fs, path, Masked(mode));
        if made.Err? then Err else Ok(made.value[path := DirNode(Masked(mode))])
      case FileEntry(path, mode, content) =>
        if path == [] then Err
        else
          var made := MkdirAll(fs, path[..|path| - 1], 0x1C0);
          if made.Err? || path in made.value then Err
          else Ok(made.value[path := FileNode(Masked(mode), content)])
      case OtherEntry(path) => Err
  }

  function ExtractAll(fs: FileSystem, seen: set<Path>, entries: seq<Entry>): Result<FileSystem>
    decreases |entries|
  {
    if entries == [] then Ok(fs)
    else
      var one := ExtractOne(fs, seen, entries[0]);
      if one.Err? then Err else ExtractAll(one.value, seen + {entries[0].path}, entries[1..])
  }

  const EmptyStaging: FileSystem := map[[] := DirNode(0x1C0)]

  /** Extraction into a fresh staging directory, checked against the expected measurements. */
  method ExtractArchive(entries: seq<Entry>, expected: Measure) returns (result: Result<FileSystem>)
    ensures result == if expected == Measure(|entries|, ContentBytes(entries)) then ExtractAll(EmptyStaging, {}, entries) else Err
    ensures result.Ok? ==> SafeTree(result.value) && forall entry :: entry in entries ==> AsWritten(result.value, entry)
  {
    hide SafeTree, AsWritten;
    var fs := EmptyStaging;
    var seen: set<Path> := {};
    var count, contentBytes := 0, 0;
    for i := 0 to |entries|
      invariant ExtractAll(EmptyStaging, {}, entries) == ExtractAll(fs, seen, entries[i..])
      invariant count == i && contentBytes == ContentBytes(entries[..i])
    {
      assert entries[i..][1..] == entries[i + 1..];
      assert entries[..i + 1][..i] == entries[..i];
      var entry := entries[i];
      var one := ExtractOne(fs, seen, entry);
      if one.Err? {
        return Err;
      }
      seen := seen + {entry.path};
      fs := one.value;
      if entry.FileEntry? {
        contentBytes := contentBytes + |entry.content|;
      }
      count := count + 1;
    }
    assert entries[..|entries|] == entries;
    if count != expected.entries || contentBytes != expected.contentBytes {
      return Err;
    }
    StagingIsSafe();
    ExtractionIsSafe(EmptyStaging, {}, entries, fs);
    return Ok(fs);
  }

  // ----- what an extraction leaves

  ghost predicate PlainName(name: Name) {
    name != "" && name != "." && name != ".." && forall c :: c in name ==> c != '/'
  }

  /** The node has no permissions for others and no special bit, a path of plain names, and a directory to be in. */
  ghost predicate SafeAt(fs: FileSystem, path: Path)
    requires path in fs
  {
    && (forall name :: name in path ==> PlainName(name))
    && fs[path].mode & 0xE07 == 0
    && (path != [] ==> path[..|path| - 1] in fs && fs[path[..|path| - 1]].DirNode?)
  }

  /** Nothing in staging leads elsewhere or gives permissions to others. */
  ghost predicate SafeTree(fs: FileSystem) {
    forall path :: path in fs ==> SafeAt(fs, path)
  }

  /** One more node in a safe place, no directory becoming a file. */
  lemma SafeWith(fs: FileSystem, path: Path, node: Node)
    requires SafeTree(fs) && node.mode & 0xE07 == 0 && forall name :: name in path ==> PlainName(name)
    requires path != [] ==> path[..|path| - 1] in fs && fs[path[..|path| - 1]].DirNode?
    requires path in fs && fs[path].DirNode? ==> node.DirNode?
    ensures SafeTree(fs[path := node])
  {
    var after := fs[path := node];
    forall p | p in after
      ensures SafeAt(after, p)
    {
      assert p != path ==> SafeAt(fs, p);
    }
  }

  lemma {:induction false} MkdirAllIsSafe(fs: FileSystem, path: Path, mode: Mode, made: FileSystem)
    requires SafeTree(fs) && MkdirAll(fs, path, mode) == Ok(made) && mode & 0xE07 == 0
    requires forall name :: name in path ==> PlainName(name)
    ensures SafeTree(made) && path in made && made[path].DirNode?
    ensures forall p :: p in fs ==> p in made && made[p] == fs[p]
    ensures forall p :: p in made && p !in fs ==> made[p].DirNode?
    decreases |path|
  {
    if path !in fs {
      var above := MkdirAll(fs, path[..|path| - 1], mode).value;
      hide SafeTree;
      MkdirAllIsSafe(fs, path[..|path| - 1], mode, above);
      SafeWith(above, path, DirNode(mode));
    }
  }

  /** The entry is there as it was written: same kind and content, same owner and group permissions. */
  ghost predicate AsWritten(fs: FileSystem, entry: Entry) {
    && entry.path in fs
    && match entry
       case DirEntry(path, mode) => fs[path].DirNode? && fs[path].mode & 0x1F8 == mode & 0x1F8
       case FileEntry(path, mode, content) =>
         fs[path].FileNode? && fs[path].content == content && fs[path].mode & 0x1F8 == mode & 0x1F8
       case OtherEntry(_) => false
  }

  lemma MaskingKeeps(mode: Mode)
    ensures Masked(mode) & 0xE07 == 0 && Masked(mode) & 0x1F8 == mode & 0x1F8
  {
  }

  lemma PathsArePlain(path: Path)
    ensures ValidatePath(path) ==> forall name :: name in path ==> PlainName(name)
  {
  }

  lemma ExtractOneIsSafe(fs: FileSystem, seen: set<Path>, entry: Entry, after: FileSystem)
    requires SafeTree(fs) && ExtractOne(fs, seen, entry) == Ok(after)
    ensures SafeTree(after) && AsWritten(after, entry) && entry.path !in seen
    ensures forall p :: p in fs && (p != entry.path || fs[p].FileNode?) ==> p in after && after[p] == fs[p]
    ensures forall p :: p in after && after[p].FileNode? ==>
                          (p in fs && fs[p].FileNode?) || (entry.FileEntry? && p == entry.path)
  {
    PathsArePlain(entry.path);
    match entry {
      case DirEntry(path, mode) =>
        MaskingKeeps(mode);
        var made := MkdirAll(fs, path, Masked(mode)).value;
        MkdirAllIsSafe(fs, path, Masked(mode), made);
        assert path != [] ==> SafeAt(made, path);
        SafeWith(made, path, DirNode(Masked(mode)));
      case FileEntry(path, mode, content) =>
        MaskingKeeps(mode);
        var made := MkdirAll(fs, path[..|path| - 1], 0x1C0).value;
        MkdirAllIsSafe(fs, path[..|path| - 1], 0x1C0, made);
        SafeWith(made, path, FileNode(Masked(mode), content));
      case OtherEntry(_) =>
    }
  }

  /** What later entries leave alone. */
  ghost predicate Kept(fs: FileSystem, seen: set<Path>, after: FileSystem) {
    forall p :: p in fs && (p in seen || fs[p].FileNode?) ==> p in after && after[p] == fs[p]
  }

  /**
   Whatever an archive says, extracting it stays inside staging and gives no permission to others; if it
   succeeds, every entry is there as it was written.
   */
  lemma {:induction false} ExtractionIsSafe(fs: FileSystem, seen: set<Path>, entries: seq<Entry>, after: FileSystem)
    requires SafeTree(fs) && ExtractAll(fs, seen, entries) == Ok(after)
    ensures SafeTree(after) && Kept(fs, seen, after)
    ensures forall entry :: entry in entries ==> AsWritten(after, entry)
    decreases |entries|
  {
    if entries != [] {
      var one := ExtractOne(fs, seen, entries[0]).value;
      ExtractOneIsSafe(fs, seen, entries[0], one);
      ExtractionIsSafe(one, seen + {entries[0].path}, entries[1..], after);
      hide SafeTree, ExtractOne, ExtractAll, AsWritten;
      StaysAsWritten(one, seen + {entries[0].path}, after, entries[0]);
    }
  }

  lemma StaysAsWritten(fs: FileSystem, seen: set<Path>, after: FileSystem, entry: Entry)
    requires Kept(fs, seen, after) && AsWritten(fs, entry) && entry.path in seen
    ensures AsWritten(after, entry)
  {
  }

  /** Each entry has its own path, and no file is there that is no entry. */
  lemma {:induction false} ExtractsNothingElse(fs: FileSystem, seen: set<Path>, entries: seq<Entry>, after: FileSystem)
    requires SafeTree(fs) && ExtractAll(fs, seen, entries) == Ok(after)
    ensures forall i :: 0 <= i < |entries| ==> entries[i].path !in seen
    ensures forall i, j :: 0 <= i < j < |entries| ==> entries[i].path != entries[j].path
    ensures forall p :: p in after && after[p].FileNode? && !(p in fs && fs[p].FileNode?) ==>
                          exists entry :: entry in entries && entry.FileEntry? && entry.path == p
    decreases |entries|
  {
    if entries != [] {
      var one, rest := ExtractOne(fs, seen, entries[0]).value, entries[1..];
      ExtractOneIsSafe(fs, seen, entries[0], one);
      ExtractsNothingElse(one, seen + {entries[0].path}, rest, after);
      hide SafeTree, ExtractOne, ExtractAll;
      assert forall i :: 0 < i < |entries| ==> entries[i] == rest[i - 1];
      forall p | p in after && after[p].FileNode? && !(p in fs && fs[p].FileNode?)
        ensures exists entry :: entry in entries && entry.FileEntry? && entry.path == p
      {
        if p in one && one[p].FileNode? {
          assert entries[0] in entries;
        } else {
          var entry :| entry in rest && entry.FileEntry? && entry.path == p;
          assert entry in entries;
        }
      }
    }
  }

  lemma StagingIsSafe()
    ensures SafeTree(EmptyStaging)
  {
  }

  // ----- the round trip

  /** The files and directories a tree stands for, with the modes a restore sets. */
  function Flatten(path: Path, tree: Tree): FileSystem
    decreases tree, 1
  {
    match tree
    case File(mode, content) => map[path := FileNode(Masked(mode), content)]
    case Dir(mode, kids) => map[path := DirNode(Masked(mode))] + FlattenKids(path, kids)
    case _ => map[]
  }

  function FlattenKids(path: Path, kids: seq<Kid>): FileSystem
    decreases kids, 0
  {
    if kids == [] then map[] else Flatten(path + [kids[0].name], kids[0].tree) + FlattenKids(path, kids[1..])
  }

  /** No two entries of a directory share a name. */
  predicate DistinctNames(tree: Tree)
    decreases tree, 1
  {
    tree.Dir? ==> DistinctKids(tree.kids)
  }

  predicate DistinctKids(kids: seq<Kid>)
    decreases kids, 0
  {
    kids != [] ==>
      && (forall k | k in kids[1..] :: k.name != kids[0].name)
      && DistinctNames(kids[0].tree) && DistinctKids(kids[1..])
  }

  ghost predicate NothingBelow(paths: set<Path>, path: Path) {
    forall p :: p in paths ==> !(path <= p)
  }

  /** Everything a subtree stands for lies at or below its path. */
  lemma {:induction false} FlattenIsBelow(path: Path, tree: Tree)
    ensures forall p :: p in Flatten(path, tree) ==> path <= p
    decreases tree, 1
  {
    if tree.Dir? {
      FlattenKidsIsBelow(path, tree.kids);
    }
  }

  ghost predicate BelowSome(path: Path, kids: seq<Kid>, p: Path) {
    exists i :: 0 <= i < |kids| && path + [kids[i].name] <= p
  }

  lemma {:induction false} FlattenKidsIsBelow(path: Path, kids: seq<Kid>)
    ensures forall p :: p in FlattenKids(path, kids) ==> path <= p && BelowSome(path, kids, p)
    decreases kids, 0
  {
    if kids != [] {
      FlattenIsBelow(path + [kids[0].name], kids[0].tree);
      FlattenKidsIsBelow(path, kids[1..]);
      forall p | p in FlattenKids(path, kids)
        ensures path <= p && BelowSome(path, kids, p)
      {
        if p in Flatten(path + [kids[0].name], kids[0].tree) {
          assert path + [kids[0].name] <= p;
        } else {
          assert p in FlattenKids(path, kids[1..]);
          assert BelowSome(path, kids[1..], p);
          var i :| 0 <= i < |kids[1..]| && path + [kids[1..][i].name] <= p;
          assert path + [kids[i + 1].name] <= p;
        }
      }
    }
  }

  /** Paths under different names of one directory are never below each other. */
  lemma NamesSeparate(path: Path, left: Name, right: Name, p: Path)
    requires path + [left] <= p && path + [right] <= p
    ensures left == right
  {
    assert p[|path|] == left;
    assert p[|path|] == right;
  }

  ghost predicate ParentReady(fs: FileSystem, path: Path) {
    path != [] ==> path[..|path| - 1] in fs && fs[path[..|path| - 1]].DirNode?
  }

  /** A directory entry in a free place is created and nothing else changes. */
  lemma ExtractDirEntry(fs: FileSystem, seen: set<Path>, path: Path, mode: Mode, more: seq<Entry>)
    requires ValidatePath(path) && path != [] && ParentReady(fs, path) && path !in fs && path !in seen
    ensures ExtractAll(fs, seen, [DirEntry(path, mode)] + more) ==
            ExtractAll(fs[path := DirNode(Masked(mode))], seen + {path}, more)
  {
    var all := [DirEntry(path, mode)] + more;
    var made := fs[path := DirNode(Masked(mode))];
    assert all[0] == DirEntry(path, mode) && all[1..] == more;
    assert MkdirAll(fs, path[..|path| - 1], Masked(mode)) == Ok(fs);
    assert MkdirAll(fs, path, Masked(mode)) == Ok(made);
    assert made[path := DirNode(Masked(mode))] == made;
    assert ExtractOne(fs, seen, all[0]) == Ok(made);
  }

  lemma ExtractFileEntry(fs: FileSystem, seen: set<Path>, path: Path, mode: Mode, content: seq<Byte>, more: seq<Entry>)
    requires ValidatePath(path) && path != [] && ParentReady(fs, path) && path !in fs && path !in seen
    ensures ExtractAll(fs, seen, [FileEntry(path, mode, content)] + more) ==
            ExtractAll(fs[path := FileNode(Masked(mode), content)], seen + {path}, more)
  {
    var all := [FileEntry(path, mode, content)] + more;
    assert all[0] == FileEntry(path, mode, content) && all[1..] == more;
    assert MkdirAll(fs, path[..|path| - 1], 0x1C0) == Ok(fs);
  }

  /**
   Extracting the entries of one subtree adds exactly what the subtree stands for, when its
   parent directory is there and nothing is there below its path.
   */
  lemma {:induction false} ExtractSubtree(fs: FileSystem, seen: set<Path>, path: Path, tree: Tree, rest: seq<Entry>)
    requires Archivable(path, tree) && DistinctNames(tree) && path != []
    requires ParentReady(fs, path) && NothingBelow(fs.Keys, path) && NothingBelow(seen, path)
    ensures ExtractAll(fs, seen, Entries(path, tree) + rest) ==
            ExtractAll(fs + Flatten(path, tree), seen + Flatten(path, tree).Keys, rest)
    decreases tree, 1
  {
    if tree.File? {
      FileSums(fs, seen, path, tree);
      ExtractFileEntry(fs, seen, path, tree.mode, tree.content, rest);
    } else {
      var kids := tree.kids;
      var made := fs[path := DirNode(Masked(tree.mode))];
      DirSums(fs, seen, path, tree, rest);
      ExtractDirEntry(fs, seen, path, tree.mode, KidEntries(path, kids) + rest);
      RoomForKids(fs, seen, path, kids, made);
      hide Flatten, FlattenKids, KidEntries, ExtractAll, NothingBelow, Room, ParentReady, Masked, ValidatePath;
      ExtractKids(made, seen + {path}, path, kids, rest);
    }
  }

  lemma FileSums(fs: FileSystem, seen: set<Path>, path: Path, tree: Tree)
    requires tree.File? && NothingBelow(fs.Keys, path) && NothingBelow(seen, path)
    ensures path !in fs && path !in seen
    ensures fs + Flatten(path, tree) == fs[path := FileNode(Masked(tree.mode), tree.content)]
    ensures Flatten(path, tree).Keys == {path}
    ensures Entries(path, tree) == [FileEntry(path, tree.mode, tree.content)]
  {
  }

  lemma DirSums(fs: FileSystem, seen: set<Path>, path: Path, tree: Tree, rest: seq<Entry>)
    requires tree.Dir? && NothingBelow(fs.Keys, path) && NothingBelow(seen, path)
    ensures path !in fs && path !in seen
    ensures Entries(path, tree) + rest == [DirEntry(path, tree.mode)] + (KidEntries(path, tree.kids) + rest)
    ensures fs[path := DirNode(Masked(tree.mode))] + FlattenKids(path, tree.kids) == fs + Flatten(path, tree)
    ensures seen + {path} + FlattenKids(path, tree.kids).Keys == seen + Flatten(path, tree).Keys
  {
    var root, below := map[path := DirNode(Masked(tree.mode))], FlattenKids(path, tree.kids);
    assert Flatten(path, tree) == root + below;
    DirEntries(path, tree, rest);
    hide *;
    MapSums(fs, root, below);
    AddedRoot(fs, path, root[path]);
  }

  lemma DirEntries(path: Path, tree: Tree, rest: seq<Entry>)
    requires tree.Dir?
    ensures Entries(path, tree) + rest == [DirEntry(path, tree.mode)] + (KidEntries(path, tree.kids) + rest)
  {
  }

  lemma AddedRoot(fs: FileSystem, path: Path, node: Node)
    ensures fs[path := node] == fs + map[path := node]
  {
  }

  lemma RoomForKids(fs: FileSystem, seen: set<Path>, path: Path, kids: seq<Kid>, made: FileSystem)
    requires NothingBelow(fs.Keys, path) && NothingBelow(seen, path) && made.Keys == fs.Keys + {path}
    ensures forall i :: 0 <= i < |kids| ==> Room(made, seen + {path}, path, kids[i].name)
  {
    forall i, p | 0 <= i < |kids| && p in made.Keys + seen + {path}
      ensures !(path + [kids[i].name] <= p)
    {
      assert path + [kids[i].name] <= p ==> path <= p;
    }
  }

  /** Nothing is at or below the place of one name. */
  ghost predicate Room(fs: FileSystem, seen: set<Path>, path: Path, name: Name) {
    NothingBelow(fs.Keys, path + [name]) && NothingBelow(seen, path + [name])
  }

  lemma {:induction false} ExtractKids(fs: FileSystem, seen: set<Path>, path: Path, kids: seq<Kid>, rest: seq<Entry>)
    requires KidsArchivable(path, kids) && DistinctKids(kids)
    requires path in fs && fs[path].DirNode?
    requires forall i :: 0 <= i < |kids| ==> Room(fs, seen, path, kids[i].name)
    ensures ExtractAll(fs, seen, KidEntries(path, kids) + rest) ==
            ExtractAll(fs + FlattenKids(path, kids), seen + FlattenKids(path, kids).Keys, rest)
    decreases kids, 0
  {
    if kids == [] {
      assert [] + rest == rest;
      assert fs + FlattenKids(path, kids) == fs;
      assert seen + FlattenKids(path, kids).Keys == seen;
    } else {
      var below := path + [kids[0].name];
      var one := Flatten(below, kids[0].tree);
      var more := KidEntries(path, kids[1..]) + rest;
      KidFacts(fs, seen, path, kids);
      KidSums(fs, seen, path, kids, rest);
      OtherKidsUntouched(fs, seen, path, kids);
      hide *;
      ExtractSubtree(fs, seen, below, kids[0].tree, more);
      ExtractKids(fs + one, seen + one.Keys, path, kids[1..], rest);
    }
  }

  lemma KidFacts(fs: FileSystem, seen: set<Path>, path: Path, kids: seq<Kid>)
    requires KidsArchivable(path, kids) && DistinctKids(kids) && kids != []
    requires path in fs && fs[path].DirNode? && Room(fs, seen, path, kids[0].name)
    ensures KidsArchivable(path, kids[1..]) && DistinctKids(kids[1..])
    ensures var below := path + [kids[0].name];
            && below != [] && Archivable(below, kids[0].tree) && DistinctNames(kids[0].tree) && ParentReady(fs, below)
            && NothingBelow(fs.Keys, below) && NothingBelow(seen, below)
  {
    var below := path + [kids[0].name];
    assert below[..|below| - 1] == path;
  }

  lemma MapSums(fs: FileSystem, one: FileSystem, others: FileSystem)
    ensures fs + (one + others) == fs + one + others
  {
  }

  lemma EntriesOfKids(path: Path, kids: seq<Kid>, rest: seq<Entry>)
    requires kids != []
    ensures KidEntries(path, kids) + rest ==
            Entries(path + [kids[0].name], kids[0].tree) + (KidEntries(path, kids[1..]) + rest)
  {
    var one, others := Entries(path + [kids[0].name], kids[0].tree), KidEntries(path, kids[1..]);
    assert KidEntries(path, kids) == one + others;
    hide *;
    assert (one + others) + rest == one + (others + rest);
  }

  lemma KidSums(fs: FileSystem, seen: set<Path>, path: Path, kids: seq<Kid>, rest: seq<Entry>)
    requires kids != []
    ensures var below := path + [kids[0].name];
            var one := Flatten(below, kids[0].tree);
            var others := FlattenKids(path, kids[1..]);
            && KidEntries(path, kids) + rest == Entries(below, kids[0].tree) + (KidEntries(path, kids[1..]) + rest)
            && fs + FlattenKids(path, kids) == fs + one + others
            && seen + FlattenKids(path, kids).Keys == seen + one.Keys + others.Keys
  {
    var one := Flatten(path + [kids[0].name], kids[0].tree);
    var others := FlattenKids(path, kids[1..]);
    assert FlattenKids(path, kids) == one + others;
    hide *;
    EntriesOfKids(path, kids, rest);
    MapSums(fs, one, others);
  }

  lemma OtherKidsUntouched(fs: FileSystem, seen: set<Path>, path: Path, kids: seq<Kid>)
    requires kids != [] && DistinctKids(kids) && path in fs && fs[path].DirNode?
    requires forall i :: 0 <= i < |kids| ==> Room(fs, seen, path, kids[i].name)
    ensures var one := Flatten(path + [kids[0].name], kids[0].tree);
            && path in fs + one && (fs + one)[path].DirNode?
            && forall i :: 0 <= i < |kids[1..]| ==> Room(fs + one, seen + one.Keys, path, kids[1..][i].name)
  {
    var below := path + [kids[0].name];
    var one := Flatten(below, kids[0].tree);
    FlattenIsBelow(below, kids[0].tree);
    assert path !in one by {
      assert |below| > |path|;
    }
    forall i, p | 0 <= i < |kids[1..]| && p in one
      ensures !(path + [kids[1..][i].name] <= p)
    {
      assert kids[1..][i] in kids[1..];
      if path + [kids[1..][i].name] <= p {
        NamesSeparate(path, kids[0].name, kids[1..][i].name, p);
      }
    }
    forall i | 0 <= i < |kids[1..]|
      ensures Room(fs + one, seen + one.Keys, path, kids[1..][i].name)
    {
      assert kids[1..][i] == kids[i + 1];
      assert Room(fs, seen, path, kids[i + 1].name);
    }
  }

  /**
   Extracting what was written is the identity on contents: the same files and directories,
   their modes restricted to owner and group, and measurements that match.
   */
  lemma RoundTrip(mode: Mode, kids: seq<Kid>)
    requires Archivable([], Dir(mode, kids)) && DistinctNames(Dir(mode, kids))
    ensures ExtractAll(EmptyStaging, {}, Entries([], Dir(mode, kids))) == Ok(Flatten([], Dir(mode, kids)))
  {
    var tree := Dir(mode, kids);
    var all := Entries([], tree);
    var root := map[[] := DirNode(Masked(mode))];
    assert EmptyStaging[[] := DirNode(Masked(mode))] == root;
    assert ExtractOne(EmptyStaging, {}, all[0]) == Ok(root);
    assert all[1..] == KidEntries([], kids);
    assert forall i :: 0 <= i < |kids| ==> Room(root, {} + {[]}, [], kids[i].name);
    ExtractKids(root, {} + {[]}, [], kids, []);
    assert KidEntries([], kids) + [] == KidEntries([], kids);
  }

  /** Backing a tree up and extracting it, as the methods do it. */
  method WriteAndExtract(mode: Mode, kids: seq<Kid>) returns (result: Result<FileSystem>)
    requires DistinctNames(Dir(mode, kids))
    ensures result == if Archivable([], Dir(mode, kids)) then Ok(Flatten([], Dir(mode, kids))) else Err
  {
    var written := WriteArchive(Dir(mode, kids));
    if written.Err? {
      return Err;
    }
    RoundTrip(mode, kids);
    result := ExtractArchive(written.value.0, written.value.1);
  }
}
