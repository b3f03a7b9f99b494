/** Walking the paginated referrers index of a subject until no `next` link is left. */
module ReferrerPages {
  import opened Foundation

  /** The path of one page request. */
  type Path = nat

  datatype Response = Page(manifests: seq<Digest>, next: Option<Path>) | NotFound | Failed

  /** What Distribution answers to each page request. */
  type Responses = Path -> Response

  /** Where the walk stands after `paths`: the first page, or what the last page links to. */
  ghost function Next(responses: Responses, first: Path, paths: seq<Path>): Option<Path> {
    if paths == [] then Some(first)
    else if responses(paths[|paths| - 1]).Page? then responses(paths[|paths| - 1]).next
    else None
  }

  /** `paths` are the pages read so far: each one is a page, and the one before it links to it. */
  ghost predicate IsPrefix(responses: Responses, first: Path, paths: seq<Path>) {
    paths == [] ||
    var front := paths[..|paths| - 1];
    var last := paths[|paths| - 1];
    IsPrefix(responses, first, front) && responses(last).Page? && Next(responses, first, front) == Some(last)
  }

  /** `paths` is the whole index: the walk from `first` through them has nowhere left to go. */
  ghost predicate IsComplete(responses: Responses, first: Path, paths: seq<Path>) {
    IsPrefix(responses, first, paths) && Next(responses, first, paths) == None
  }

  ghost function Contents(responses: Responses, paths: seq<Path>): seq<Digest> {
    if paths == [] then []
    else
      Contents(responses, paths[..|paths| - 1]) +
      (if responses(paths[|paths| - 1]).Page? then responses(paths[|paths| - 1]).manifests else [])
  }

  /** Of two walks from the same page, the shorter is the beginning of the longer. */
  lemma {:induction false} WalksAgree(responses: Responses, first: Path, short: seq<Path>, long: seq<Path>)
    requires IsPrefix(responses, first, short) && IsPrefix(responses, first, long) && |short| <= |long|
    ensures short <= long
    decreases |short| + |long|
  {
    if |short| < |long| {
      WalksAgree(responses, first, short, long[..|long| - 1]);
    } else if short != [] {
      WalksAgree(responses, first, short[..|short| - 1], long[..|long| - 1]);
    }
  }

  /** The walked pages are the beginning of any complete index. */
  lemma PrefixOfComplete(responses: Responses, first: Path, walked: seq<Path>, paths: seq<Path>)
    requires IsPrefix(responses, first, walked) && IsComplete(responses, first, paths)
    ensures walked <= paths
  {
    if |walked| <= |paths| {
      WalksAgree(responses, first, walked, paths);
    } else {
      WalksAgree(responses, first, paths, walked);
      NextOfPrefix(responses, first, walked, paths);
      assert false;
    }
  }

  /** Inside a walk, the page after any beginning of it is the next page of the walk. */
  lemma {:induction false} NextOfPrefix(responses: Responses, first: Path, paths: seq<Path>, front: seq<Path>)
    requires IsPrefix(responses, first, paths) && front <= paths && |front| < |paths|
    ensures Next(responses, first, front) == Some(paths[|front|])
    decreases |paths|
  {
    if |front| < |paths| - 1 {
      NextOfPrefix(responses, first, paths[..|paths| - 1], front);
    } else {
      assert front == paths[..|paths| - 1];
    }
  }

  /** The rest of a walk is a walk from its own first page. */
  lemma {:induction false} SuffixIsPrefix(responses: Responses, first: Path, paths: seq<Path>, i: nat)
    requires IsPrefix(responses, first, paths) && i < |paths|
    ensures IsPrefix(responses, paths[i], paths[i..])
    decreases |paths|
  {
    var rest := paths[i..];
    if i < |paths| - 1 {
      SuffixIsPrefix(responses, first, paths[..|paths| - 1], i);
      assert paths[..|paths| - 1][i..] == rest[..|rest| - 1];
    } else {
      assert rest[..|rest| - 1] == [];
      assert IsPrefix(responses, paths[i], rest[..|rest| - 1]);
    }
    assert rest[|rest| - 1] == paths[|paths| - 1];
  }

  /** An index that ends never links back to a page of its own. */
  lemma CompleteIsDistinct(responses: Responses, first: Path, paths: seq<Path>, i: nat, j: nat)
    requires IsComplete(responses, first, paths) && i < j < |paths|
    ensures paths[i] != paths[j]
  {
    if paths[i] == paths[j] {
      SuffixIsPrefix(responses, first, paths, i);
      SuffixIsPrefix(responses, first, paths, j);
      PrefixOfComplete(responses, paths[i], paths[i..], paths[j..]);
      assert false;
    }
  }

  /**
   The answer is the whole index or an error: the descriptors are returned exactly when the
   links from the first page end, a missing first page means no referrers, and a link that
   points back or a page that fails later is an error rather than a partial answer.
   `universe` is the finite set of paths the registry hands out.
   */
  method ListReferrers(responses: Responses, first: Path, ghost universe: set<Path>)
    returns (result: Result<seq<Digest>>, ghost walked: seq<Path>)
    requires first in universe
    requires forall p :: p in universe && responses(p).Page? && responses(p).next.Some? ==>
                           responses(p).next.value in universe
    ensures responses(first) == NotFound ==> result == Ok([])
    ensures responses(first) != NotFound && result.Ok? ==>
              IsComplete(responses, first, walked) && result.value == Contents(responses, walked)
    ensures result.Err? ==> forall paths :: !IsComplete(responses, first, paths)
  {
    hide Distinct, Contents;
    EmptyWalk(responses, first);
    var descriptors: seq<Digest> := [];
    var next := Some(first);
    var visited: set<Path> := {};
    var completedPages := 0;
    walked := [];
    while next.Some?
      invariant IsPrefix(responses, first, walked) && Distinct(walked)
      invariant walked != [] ==> responses(first).Page?
      invariant visited == Elements(walked) <= universe
      invariant completedPages == |walked|
      invariant next == Next(responses, first, walked)
      invariant next.Some? ==> next.value in universe
      invariant descriptors == Contents(responses, walked)
      decreases universe - visited, next.Some?
    {
      var path := next.value;
      if path in visited {
        LinksBack(responses, first, walked, path);
        return Err, walked;
      }
      visited := visited + {path};
      var response := responses(path);
      match response {
        case NotFound =>
          if completedPages == 0 {
            return Ok([]), walked;
          }
          Broken(responses, first, walked, path);
          return Err, walked;
        case Failed =>
          Broken(responses, first, walked, path);
          return Err, walked;
        case Page(manifests, follow) =>
          completedPages := completedPages + 1;
          descriptors := descriptors + manifests;
          AnotherPage(responses, first, walked, path);
          walked := walked + [path];
          next := follow;
      }
    }
    result := Ok(descriptors);
  }

  lemma EmptyWalk(responses: Responses, first: Path)
    ensures IsPrefix(responses, first, []) && Distinct<Path>([]) && Contents(responses, []) == []
  {
  }

  lemma AnotherPage(responses: Responses, first: Path, walked: seq<Path>, path: Path)
    requires IsPrefix(responses, first, walked) && Distinct(walked) && path !in walked
    requires responses(path).Page? && Next(responses, first, walked) == Some(path)
    ensures IsPrefix(responses, first, walked + [path]) && Distinct(walked + [path])
    ensures Elements(walked + [path]) == Elements(walked) + {path}
    ensures Contents(responses, walked + [path]) == Contents(responses, walked) + responses(path).manifests
  {
    assert (walked + [path])[..|walked|] == walked;
  }

  lemma LinksBack(responses: Responses, first: Path, walked: seq<Path>, path: Path)
    requires IsPrefix(responses, first, walked) && path in walked
    requires Next(responses, first, walked) == Some(path)
    ensures forall paths :: !IsComplete(responses, first, paths)
  {
    forall paths | IsComplete(responses, first, paths)
      ensures false
    {
      PrefixOfComplete(responses, first, walked, paths);
      NextIsThere(responses, first, walked, paths);
      var i :| 0 <= i < |walked| && walked[i] == path;
      CompleteIsDistinct(responses, first, paths, i, |walked|);
    }
  }

  /** A complete index goes on where the walk would. */
  lemma NextIsThere(responses: Responses, first: Path, walked: seq<Path>, paths: seq<Path>)
    requires IsComplete(responses, first, paths) && walked <= paths
    requires Next(responses, first, walked).Some?
    ensures |walked| < |paths| && paths[|walked|] == Next(responses, first, walked).value
  {
    if |walked| < |paths| {
      NextOfPrefix(responses, first, paths, walked);
    }
  }

  lemma {:induction false} PagesAnswered(responses: Responses, first: Path, paths: seq<Path>, k: nat)
    requires IsPrefix(responses, first, paths) && k < |paths|
    ensures responses(paths[k]).Page?
    decreases |paths|
  {
    if k < |paths| - 1 {
      PagesAnswered(responses, first, paths[..|paths| - 1], k);
    }
  }

  lemma Broken(responses: Responses, first: Path, walked: seq<Path>, path: Path)
    requires IsPrefix(responses, first, walked) && !responses(path).Page?
    requires Next(responses, first, walked) == Some(path)
    ensures forall paths :: !IsComplete(responses, first, paths)
  {
    forall paths | IsComplete(responses, first, paths)
      ensures false
    {
      PrefixOfComplete(responses, first, walked, paths);
      NextIsThere(responses, first, walked, paths);
      PagesAnswered(responses, first, paths, |walked|);
    }
  }
}
