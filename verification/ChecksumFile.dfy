/** The SHA256SUMS file of a backup set: printing it and reading it back. */
module ChecksumFile {
  import opened Foundation

  const MaxManifestSize := 0x10_0000
  const MaxLineSize := 0x1_0000
  const HashLength := 64

  predicate IsLowerHex(value: string) {
    forall c | c in value :: '0' <= c <= '9' || 'a' <= c <= 'f'
  }

  predicate ValidHash(hash: string) {
    |hash| == HashLength && IsLowerHex(hash)
  }

  // ----- printing

  function Line(hash: string, name: string): string {
    hash + "  " + name
  }

  function Print(names: seq<string>, hashes: map<string, string>): string
    requires forall name :: name in names ==> name in hashes
  {
    if names == [] then "" else Line(hashes[names[0]], names[0]) + "\n" + Print(names[1..], hashes)
  }

  /** The names of a map in some order; the file is the same up to the order of its lines. */
  method Names(hashes: map<string, string>) returns (names: seq<string>)
    ensures Distinct(names) && Elements(names) == hashes.Keys
  {
    names := [];
    var pending := hashes.Keys;
    while pending != {}
      invariant pending <= hashes.Keys && Distinct(names) && Elements(names) == hashes.Keys - pending
    {
      var name :| name in pending;
      pending := pending - {name};
      ghost var before := names;
      assert name !in Elements(before);
      names := names + [name];
      assert Elements(names) == Elements(before) + {name};
    }
  }

  lemma {:induction false} PrintConcat(left: seq<string>, right: seq<string>, hashes: map<string, string>)
    requires forall name :: name in left + right ==> name in hashes
    ensures (forall name :: name in left ==> name in hashes) && (forall name :: name in right ==> name in hashes)
    ensures Print(left + right, hashes) == Print(left, hashes) + Print(right, hashes)
  {
    hide Line;
    assert forall name :: name in left || name in right ==> name in left + right;
    if left == [] {
      assert left + right == right;
    } else {
      assert (left + right)[1..] == left[1..] + right;
      PrintConcat(left[1..], right, hashes);
      var line, front, back := Line(hashes[left[0]], left[0]) + "\n", Print(left[1..], hashes), Print(right, hashes);
      assert Print(left + right, hashes) == line + (front + back);
      assert line + (front + back) == (line + front) + back;
    }
  }

  method PrintChecksums(hashes: map<string, string>) returns (content: string, names: seq<string>)
    ensures Distinct(names) && Elements(names) == hashes.Keys
    ensures (forall name :: name in names ==> name in hashes) && content == Print(names, hashes)
  {
    names := Names(hashes);
    assert forall name :: name in names ==> name in Elements(names);
    content := "";
    for i := 0 to |names|
      invariant content == Print(names[..i], hashes)
    {
      assert names[..i + 1] == names[..i] + [names[i]];
      PrintConcat(names[..i], [names[i]], hashes);
      content := content + Line(hashes[names[i]], names[i]) + "\n";
    }
    assert names[..|names|] == names;
  }

  // ----- reading

  function NewlineAt(text: string): (i: nat)
    ensures i <= |text|
    ensures i < |text| ==> text[i] == '\n'
    ensures forall k :: 0 <= k < i ==> text[k] != '\n'
  {
    if text == "" || text[0] == '\n' then 0 else 1 + NewlineAt(text[1..])
  }

  function DropReturn(line: string): string {
    if line != "" && line[|line| - 1] == '\r' then line[..|line| - 1] else line
  }

  /** The lines a scanner yields, without their ends; `Err` is a line that does not fit its buffer. */
  function Scan(text: string): Result<seq<string>> {
    if text == "" then Ok([])
    else
      var i := NewlineAt(text);
      if i >= MaxLineSize then Err
      else
        var rest := if i == |text| then Ok([]) else Scan(text[i + 1..]);
        if rest.Err? then Err else Ok([DropReturn(text[..i])] + rest.value)
  }

  predicate ValidLine(line: string) {
    && |line| >= HashLength + 3 && line[HashLength..HashLength + 2] == "  "
    && IsLowerHex(line[..HashLength])
    && '/' !in line[HashLength + 2..] && '\\' !in line[HashLength + 2..]
  }

  function Parse(lines: seq<string>, known: map<string, string>): Result<map<string, string>>
    decreases |lines|
  {
    if lines == [] then Ok(known)
    else if !ValidLine(lines[0]) || lines[0][HashLength + 2..] in known then Err
    else Parse(lines[1..], known[lines[0][HashLength + 2..] := lines[0][..HashLength]])
  }

  function Limited(content: string): string {
    if |content| > MaxManifestSize + 1 then content[..MaxManifestSize + 1] else content
  }

  function ReadBack(content: string): Result<map<string, string>> {
    var lines := Scan(Limited(content));
    if lines.Err? then Err else Parse(lines.value, map[])
  }

  method ReadChecksumFile(content: string) returns (result: Result<map<string, string>>)
    ensures result == ReadBack(content)
  {
    var lines := Scan(Limited(content));
    if lines.Err? {
      return Err;
    }
    var known: map<string, string> := map[];
    for i := 0 to |lines.value|
      invariant Parse(lines.value, map[]) == Parse(lines.value[i..], known)
    {
      var line := lines.value[i];
      assert lines.value[i..][1..] == lines.value[i + 1..];
      if |line| < HashLength + 3 || line[HashLength..HashLength + 2] != "  " {
        return Err;
      }
      var hash, name := line[..HashLength], line[HashLength + 2..];
      if !IsLowerHex(hash) || name == "" || '/' in name || '\\' in name {
        return Err;
      }
      if name in known {
        return Err;
      }
      known := known[name := hash];
    }
    return Ok(known);
  }

  // ----- what reading ignores, and what it refuses

  lemma FirstNewline(line: string, rest: string)
    requires '\n' !in line
    ensures NewlineAt(line + "\n" + rest) == |line|
  {
    var text := line + "\n" + rest;
    assert text[|line|] == '\n';
    forall k | 0 <= k < |line|
      ensures text[k] != '\n'
    {
      assert text[k] == line[k];
    }
  }

  /** A line is read if and only if it has less than the maximal length, whatever its end. */
  lemma LinesAreRead(line: string, rest: string)
    requires '\n' !in line
    ensures Scan(line + "\n" + rest) ==
            if |line| >= MaxLineSize || Scan(rest).Err? then Err else Ok([DropReturn(line)] + Scan(rest).value)
  {
    var text := line + "\n" + rest;
    FirstNewline(line, rest);
    assert text[..|line|] == line && text[|line| + 1..] == rest;
  }

  /** A carriage return before the end of a line is not part of it. */
  lemma ReturnsAreIgnored(line: string, rest: string)
    requires '\n' !in line && |line| + 1 < MaxLineSize && (line == "" || line[|line| - 1] != '\r')
    ensures Scan(line + "\r" + "\n" + rest) == Scan(line + "\n" + rest)
  {
    hide Scan;
    var longer := line + "\r";
    assert longer[..|longer| - 1] == line;
    assert DropReturn(longer) == line == DropReturn(line);
    hide DropReturn;
    LinesAreRead(line, rest);
    LinesAreRead(longer, rest);
  }

  /** Nothing behind the size limit is looked at. */
  lemma OnlyBeginningIsRead(content: string, more: string)
    requires |content| == MaxManifestSize + 1
    ensures ReadBack(content + more) == ReadBack(content)
  {
    assert (content + more)[..|content|] == content;
    assert more == "" ==> content + more == content;
    assert Limited(content + more) == content == Limited(content);
  }

  // ----- the round trip

  /** A name that survives being written on a line of its own. */
  predicate PayloadName(name: string) {
    && name != "" && |name| < MaxLineSize - HashLength - 2
    && '/' !in name && '\\' !in name && '\n' !in name && name[|name| - 1] != '\r'
  }

  lemma LineHasNoEnd(hash: string, name: string)
    requires ValidHash(hash) && PayloadName(name)
    ensures '\n' !in Line(hash, name) && Line(hash, name) != "" && DropReturn(Line(hash, name)) == Line(hash, name)
    ensures |Line(hash, name)| < MaxLineSize
  {
    var line := Line(hash, name);
    forall k | 0 <= k < |line|
      ensures line[k] != '\n'
    {
      if k < HashLength {
        assert line[k] == hash[k] && hash[k] in hash;
      } else if k >= HashLength + 2 {
        assert line[k] == name[k - HashLength - 2] && name[k - HashLength - 2] in name;
      }
    }
    assert line[|line| - 1] == name[|name| - 1];
  }

  lemma ScanLine(hash: string, name: string, rest: string)
    requires ValidHash(hash) && PayloadName(name) && Scan(rest).Ok?
    ensures Scan(Line(hash, name) + "\n" + rest) == Ok([Line(hash, name)] + Scan(rest).value)
  {
    var line := Line(hash, name);
    var text := line + "\n" + rest;
    LineHasNoEnd(hash, name);
    hide Line, ValidHash, PayloadName, NewlineAt, DropReturn;
    assert forall k :: 0 <= k < |line| ==> text[k] == line[k] && line[k] in line;
    assert text[|line|] == '\n';
    assert NewlineAt(text) == |line|;
    assert text[..|line|] == line && text[|line| + 1..] == rest;
  }

  lemma LineParts(hash: string, name: string)
    requires ValidHash(hash) && PayloadName(name)
    ensures var line := Line(hash, name);
            ValidLine(line) && line[..HashLength] == hash && line[HashLength + 2..] == name
  {
    assert Line(hash, name)[..HashLength] == hash;
    assert Line(hash, name)[HashLength + 2..] == name;
  }

  lemma {:induction false} ScanPrinted(names: seq<string>, hashes: map<string, string>)
    requires forall name :: name in names ==> name in hashes && PayloadName(name) && ValidHash(hashes[name])
    ensures Scan(Print(names, hashes)).Ok? && |Scan(Print(names, hashes)).value| == |names|
    ensures forall i :: 0 <= i < |names| ==> Scan(Print(names, hashes)).value[i] == Line(hashes[names[i]], names[i])
  {
    if names != [] {
      ScanPrinted(names[1..], hashes);
      ScanLine(hashes[names[0]], names[0], Print(names[1..], hashes));
    }
  }

  /** The map a reader builds up from the printed lines. */
  ghost function Entered(names: seq<string>, hashes: map<string, string>, known: map<string, string>)
    : map<string, string>
    requires forall name :: name in names ==> name in hashes
    decreases |names|
  {
    if names == [] then known else Entered(names[1..], hashes, known[names[0] := hashes[names[0]]])
  }

  lemma {:induction false} EnteredHolds(names: seq<string>, hashes: map<string, string>, known: map<string, string>)
    requires forall name :: name in names ==> name in hashes
    ensures var all := Entered(names, hashes, known);
            && all.Keys == known.Keys + Elements(names)
            && forall name :: name in all ==> all[name] == if name in names then hashes[name] else known[name]
    decreases |names|
  {
    if names != [] {
      EnteredHolds(names[1..], hashes, known[names[0] := hashes[names[0]]]);
      assert names == [names[0]] + names[1..];
    }
  }

  lemma EnteredIsAll(names: seq<string>, hashes: map<string, string>)
    requires (forall name :: name in names ==> name in hashes) && Elements(names) == hashes.Keys
    ensures Entered(names, hashes, map[]) == hashes
  {
    EnteredHolds(names, hashes, map[]);
    assert forall name :: name in hashes ==> name in Elements(names);
  }

  lemma {:induction false} ParsePrinted(names: seq<string>, lines: seq<string>, hashes: map<string, string>,
                                        known: map<string, string>)
    requires Distinct(names) && |lines| == |names|
    requires forall name :: name in names ==> name in hashes && name !in known && PayloadName(name) && ValidHash(hashes[name])
    requires forall i :: 0 <= i < |names| ==> lines[i] == Line(hashes[names[i]], names[i])
    ensures Parse(lines, known) == Ok(Entered(names, hashes, known))
    decreases |names|
  {
    if names != [] {
      LineParts(hashes[names[0]], names[0]);
      hide PayloadName, ValidHash, ValidLine, Line;
      forall name | name in names[1..]
        ensures name != names[0]
      {
        var i :| 0 <= i < |names[1..]| && names[1..][i] == name;
        assert names[i + 1] == name;
      }
      ParsePrinted(names[1..], lines[1..], hashes, known[names[0] := hashes[names[0]]]);
    }
  }

  /**
   Reading back what was printed returns the map, in whatever order its lines were written, for
   every map from payload names to hashes that fits the size limit.
   */
  lemma PrintedIsReadBack(names: seq<string>, hashes: map<string, string>)
    requires Distinct(names) && Elements(names) == hashes.Keys
    requires forall name :: name in hashes ==> PayloadName(name) && ValidHash(hashes[name])
    requires (forall name :: name in names ==> name in hashes) && |Print(names, hashes)| <= MaxManifestSize + 1
    ensures ReadBack(Print(names, hashes)) == Ok(hashes)
  {
    assert forall name :: name in names ==> name in Elements(names);
    hide Parse, Scan, Print, PayloadName, ValidHash, Distinct;
    ScanPrinted(names, hashes);
    ParsePrinted(names, Scan(Print(names, hashes)).value, hashes, map[]);
    EnteredIsAll(names, hashes);
  }
}
