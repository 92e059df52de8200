/**
 * The two rules of the Electron main process (main.js): which executable the
 * `find-and-run-exe` handler launches from a game's folder listing, and how a
 * `file:` request URL is turned into a path.
 */
module Launcher {
  import opened Wrappers
  import opened Text
  import opened Seqs

  const ExeSuffix := ".exe"
  /** Names that mark the main executable, most significant first. */
  const PriorityNames: seq<string> := ["game", "start", "launcher", "main"]
  const NoExeError := "Nenhum arquivo executável (.exe) encontrado"
  const FileScheme := "file:///"

  /** The value the handler returns when it has found and started an executable. */
  datatype Launched = Launched(success: bool, exeName: string)

  /** `file.toLowerCase().endsWith('.exe')`. */
  predicate IsExe(file: string)
  {
    EndsWith(Lower(file), ExeSuffix)
  }

  /** The executables of a directory listing, in listing order. */
  function ExeFiles(files: seq<string>): (r: seq<string>)
    ensures forall f :: f in r <==> f in files && IsExe(f)
    ensures forall f :: multiset(r)[f] == if IsExe(f) then multiset(files)[f] else 0
  {
    FilterCount(files, IsExe);
    Filter(files, IsExe)
  }

  /** The executables of two listings put together are those of the first followed by those of the second. */
  lemma ExeFilesAppend(a: seq<string>, b: seq<string>)
    ensures ExeFiles(a + b) == ExeFiles(a) + ExeFiles(b)
  {
    FilterAppend(a, b, IsExe);
  }

  /** The first executable is the first entry of the listing that is an executable. */
  lemma ExeFilesHead(files: seq<string>)
    requires ExeFiles(files) != []
    ensures exists i :: 0 <= i < |files| && files[i] == ExeFiles(files)[0] && IsExe(files[i]) &&
                        (forall j :: 0 <= j < i ==> !IsExe(files[j]))
  {
    FilterFirst(files, IsExe);
  }

  /** `exe.toLowerCase().includes(name)`. */
  predicate Mentions(exe: string, name: string)
  {
    Contains(Lower(exe), name)
  }

  /** The search of `find` from index `k` on: the first index at or after `k` whose name mentions `name`. */
  function FindMentioningFrom(exes: seq<string>, name: string, k: nat): (r: Option<nat>)
    ensures r.Some? ==> k <= r.value < |exes| && Mentions(exes[r.value], name)
    ensures forall j :: k <= j < |exes| && (r.None? || j < r.value) ==> !Mentions(exes[j], name)
    decreases |exes| - k
  {
    if k >= |exes| then None
    else if Mentions(exes[k], name) then Some(k)
    else FindMentioningFrom(exes, name, k + 1)
  }

  /** `exes.find(exe => exe.toLowerCase().includes(name))`, as the index of the element found. */
  function FindMentioning(exes: seq<string>, name: string): (r: Option<nat>)
    ensures r.Some? ==> FirstMentioning(exes, name, r.value)
    ensures r.None? ==> NoneMention(exes, name)
  {
    FindMentioningFrom(exes, name, 0)
  }

  ghost predicate NoneMention(exes: seq<string>, name: string)
  {
    forall j :: 0 <= j < |exes| ==> !Mentions(exes[j], name)
  }

  /** Index `i` holds the first executable whose name mentions `name`. */
  ghost predicate FirstMentioning(exes: seq<string>, name: string, i: int)
  {
    0 <= i < |exes| && Mentions(exes[i], name) && forall j :: 0 <= j < i ==> !Mentions(exes[j], name)
  }

  /** Name `k` of `names` is the most significant one that some executable mentions. */
  ghost predicate IsWinningName(exes: seq<string>, names: seq<string>, k: int)
  {
    0 <= k < |names| && !NoneMention(exes, names[k])
    && forall q :: 0 <= q < k ==> NoneMention(exes, names[q])
  }

  /**
   * The rule for the main executable, for the priority list `names`: the
   * first executable that mentions the most significant name any executable
   * mentions, or the first executable when none mentions any.
   */
  ghost predicate IsMainExe(exes: seq<string>, names: seq<string>, e: string)
  {
    && |exes| > 0
    && e in exes
    && ((forall k :: 0 <= k < |names| ==> NoneMention(exes, names[k])) ==> e == exes[0])
    && (forall k, i :: IsWinningName(exes, names, k) && FirstMentioning(exes, names[k], i) ==> e == exes[i])
  }

  /** The first name of `names` that some executable mentions, or `|names|` when there is none. */
  lemma FirstMentionedName(exes: seq<string>, names: seq<string>) returns (k: int)
    ensures 0 <= k <= |names|
    ensures forall q :: 0 <= q < k ==> NoneMention(exes, names[q])
    ensures k < |names| ==> IsWinningName(exes, names, k)
  {
    k := 0;
    while k < |names| && NoneMention(exes, names[k])
      invariant 0 <= k <= |names|
      invariant forall q :: 0 <= q < k ==> NoneMention(exes, names[q])
    {
      k := k + 1;
    }
  }

  /** The rule names exactly one executable. */
  lemma MainExeUnique(exes: seq<string>, names: seq<string>, a: string, b: string)
    requires IsMainExe(exes, names, a) && IsMainExe(exes, names, b)
    ensures a == b
  {
    var k := FirstMentionedName(exes, names);
    if k < |names| {
      var i := FindMentioning(exes, names[k]).value;
      assert a == exes[i] && b == exes[i];
    }
  }

  /** The selection loop of `find-and-run-exe`: start from the first executable and take the first match of the first priority name that has one. */
  method PickMainExe(exeFiles: seq<string>) returns (mainExe: string)
    requires |exeFiles| > 0
    ensures IsMainExe(exeFiles, PriorityNames, mainExe)
  {
    mainExe := exeFiles[0];
    for k := 0 to |PriorityNames|
      invariant mainExe == exeFiles[0]
      invariant forall q :: 0 <= q < k ==> NoneMention(exeFiles, PriorityNames[q])
    {
      var found := FindMentioning(exeFiles, PriorityNames[k]);
      if found.Some? {
        assert IsWinningName(exeFiles, PriorityNames, k);
        forall k', i | IsWinningName(exeFiles, PriorityNames, k') && FirstMentioning(exeFiles, PriorityNames[k'], i)
          ensures i == found.value
        {
          assert k' == k;
        }
        mainExe := exeFiles[found.value];
        break;
      }
    }
  }

  /**
   * The `find-and-run-exe` handler on a folder listing: the error when the
   * folder holds no executable, otherwise the executable it starts.  Starting
   * the process is not modelled.
   */
  method FindAndRunExe(files: seq<string>) returns (r: Result<Launched, string>)
    ensures r.Err? <==> ExeFiles(files) == []
    ensures r.Err? ==> r.error == NoExeError
    ensures r.Ok? ==> r.value.success && IsMainExe(ExeFiles(files), PriorityNames, r.value.exeName)
    ensures r.Ok? ==> r.value.exeName in files && IsExe(r.value.exeName)
  {
    var exeFiles := ExeFiles(files);
    if |exeFiles| == 0 {
      return Err(NoExeError);
    }
    var mainExe := PickMainExe(exeFiles);
    return Ok(Launched(true, mainExe));
  }

  /**
   * The path the `file:` protocol handler starts from: the URL with its first
   * "file:///" removed, cut before the first '?'.
   */
  function InterceptedPath(url: string): (r: string)
    ensures forall i :: 0 <= i < |r| ==> r[i] != '?'
    ensures StartsWith(ReplaceFirst(url, FileScheme, ""), r)
    ensures var t := ReplaceFirst(url, FileScheme, ""); |r| < |t| ==> t[|r|] == '?'
  {
    var t := ReplaceFirst(url, FileScheme, "");
    var pieces := Split(t, "?");
    SplitShape(t, "?");
    SplitPiecesFree(t, "?");
    NotContainsChar(pieces[0], '?');
    if |pieces| > 1 then
      assert t[..|pieces[0] + "?"|] == pieces[0] + "?";
      assert t[..|pieces[0]|] == pieces[0];
      pieces[0]
    else
      pieces[0]
  }

  /** A file URL built from a path and a query string is rewritten back to that path. */
  lemma InterceptedPathOfFileUrl(path: string, query: string)
    requires !Contains(path, "?")
    ensures InterceptedPath(FileScheme + path + "?" + query) == path
  {
    var url := FileScheme + path + "?" + query;
    assert url[..|FileScheme|] == FileScheme;
    var t := path + "?" + query;
    assert ReplaceFirst(url, FileScheme, "") == t by {
      assert url[|FileScheme|..] == t;
    }
    NotContainsChar(path, '?');
    assert OccursAt(t, "?", |path|) by {
      assert t[|path|..|path| + 1] == "?";
    }
    var idx := IndexOf(t, "?");
    assert idx.Some?;
    assert idx == Some(|path|);
    assert t[..|path|] == path;
  }
}
