/** The game path resolver: given the library roots read from the manifest,
    probes each library for the game's install directory and returns the
    first one that exists.

    Whether a directory exists is a question about the file system at the
    moment of the call, so it is a parameter `pathExists` here. The resolver
    also returns the sequence of paths it asked about (`probes`), which is
    how "no probe happens" and "probing stops at the first hit" are stated. */
module GamePath {
  import opened Wrappers
  import LibraryFolders

  /** Windows path separators: `\` is written, `/` is also accepted. */
  const Sep: char := '\\'
  const AltSep: char := '/'

  const SteamApps: string := "steamapps"
  const Common: string := "common"
  const GameFolder: string := "ELDEN RING"

  /** What follows a library root in every candidate path. */
  const GameSubpath: string := SteamApps + [Sep] + Common + [Sep] + GameFolder

  predicate IsSep(c: char)
  {
    c == Sep || c == AltSep
  }

  /** A path component with no separator and no drive colon, such as the
      three constant names joined below. */
  predicate PlainName(name: string)
  {
    |name| > 0 && forall k :: 0 <= k < |name| ==> !IsSep(name[k]) && name[k] != ':'
  }

  /** `dir` is a bare drive such as `D:`: Windows joins a name onto it
      without a separator (`D:steamapps`, relative to that drive's current
      directory). */
  predicate BareDrive(dir: string)
  {
    |dir| == 2 && dir[1] == ':' && !IsSep(dir[0])
  }

  /** A separator goes between `dir` and a following name unless `dir` is
      empty, already ends in a separator, or is a bare drive. */
  predicate NeedsSep(dir: string)
  {
    |dir| > 0 && !IsSep(dir[|dir| - 1]) && !BareDrive(dir)
  }

  /** `os.path.join(dir, name)` under Windows path rules for a plain name. */
  function Join(dir: string, name: string): (r: string)
    requires PlainName(name)
    ensures |r| == |dir| + |name| + (if NeedsSep(dir) then 1 else 0)
    ensures r[..|dir|] == dir && r[|r| - |name|..] == name
    ensures NeedsSep(dir) ==> r[|dir|] == Sep
  {
    if NeedsSep(dir) then dir + [Sep] + name else dir + name
  }

  /** The path `os.path.join(lib, "steamapps", "common", "ELDEN RING")`
      names; `CandidateIsJoin` shows it is that join. */
  function Candidate(lib: string): (c: string)
  {
    if NeedsSep(lib) then lib + [Sep] + GameSubpath else lib + GameSubpath
  }

  /** The candidate is the three-part join the source writes: the library
      root, a separator exactly when the root needs one, and then
      `steamapps\common\ELDEN RING`. */
  lemma CandidateIsJoin(lib: string)
    ensures Candidate(lib) == Join(Join(Join(lib, SteamApps), Common), GameFolder)
    ensures lib <= Candidate(lib)
  {
    var root := if NeedsSep(lib) then lib + [Sep] else lib;
    var a := Join(lib, SteamApps);
    assert a == root + SteamApps;
    assert NeedsSep(a) by {
      assert a[|a| - 1] == SteamApps[|SteamApps| - 1];
    }
    var b := Join(a, Common);
    assert b == root + (SteamApps + [Sep] + Common);
    assert NeedsSep(b) by {
      assert b[|b| - 1] == Common[|Common| - 1];
    }
    assert Join(b, GameFolder) == root + (SteamApps + [Sep] + Common + [Sep] + GameFolder);
  }

  /** The outcome of the search: the game path if one was found, and the
      candidate paths whose existence was asked, in order. */
  datatype Resolution = Resolution(found: Option<string>, probes: seq<string>)

  /** `libs[k]` holds the game. */
  predicate Holds(libs: seq<string>, pathExists: string -> bool, k: int)
  {
    0 <= k < |libs| && pathExists(Candidate(libs[k]))
  }

  /** The `for` loop of `find_game_path`: probe the candidate of each
      library in order and stop at the first that exists. */
  function Probe(libs: seq<string>, pathExists: string -> bool): (r: Resolution)
    ensures ProbeOutcome(libs, pathExists, r)
    decreases |libs|
  {
    if |libs| == 0 then Resolution(None, [])
    else
      var c := Candidate(libs[0]);
      if pathExists(c) then Resolution(Some(c), [c])
      else
        var rest := Probe(libs[1..], pathExists);
        ProbeMissThen(libs, pathExists, rest);
        Resolution(rest.found, [c] + rest.probes)
  }

  /** What `Probe` promises of its result, for `libs` and `pathExists`. */
  predicate ProbeOutcome(libs: seq<string>, pathExists: string -> bool, r: Resolution)
  {
    && |r.probes| <= |libs|
    && (forall j :: 0 <= j < |r.probes| ==> r.probes[j] == Candidate(libs[j]))
    && (forall j :: 0 <= j < |r.probes| - 1 ==> !pathExists(r.probes[j]))
    && (r.found.Some? ==> 0 < |r.probes| && r.found.value == r.probes[|r.probes| - 1]
                          && pathExists(r.found.value))
    && (r.found.None? ==> |r.probes| == |libs| && forall j :: 0 <= j < |libs| ==> !pathExists(r.probes[j]))
  }

  /** A miss on the first library puts its candidate in front of the
      search of the rest. */
  lemma ProbeMissThen(libs: seq<string>, pathExists: string -> bool, rest: Resolution)
    requires 0 < |libs| && !pathExists(Candidate(libs[0]))
    requires ProbeOutcome(libs[1..], pathExists, rest)
    ensures ProbeOutcome(libs, pathExists, Resolution(rest.found, [Candidate(libs[0])] + rest.probes))
  {
    var probes := [Candidate(libs[0])] + rest.probes;
    forall j | 1 <= j < |probes|
      ensures probes[j] == rest.probes[j - 1] && libs[j] == libs[1..][j - 1]
    {
    }
  }

  /** `find_game_path` after the manifest has been parsed: an empty library
      list is reported without probing anything; otherwise the result is
      the first library, in manifest order, that holds the game. */
  function FindGamePath(libs: seq<string>, pathExists: string -> bool): (r: Resolution)
    ensures |libs| == 0 ==> r == Resolution(None, [])
    ensures |r.probes| <= |libs|
    ensures r.found.None? ==> |r.probes| == |libs|
    ensures r.found.Some? <==> exists k :: Holds(libs, pathExists, k)
    ensures r.found.Some? ==> exists k :: Holds(libs, pathExists, k) && r.found.value == Candidate(libs[k])
                                          && forall j :: 0 <= j < k ==> !Holds(libs, pathExists, j)
    ensures forall j :: 0 <= j < |r.probes| ==> r.probes[j] == Candidate(libs[j])
  {
    if |libs| == 0 then Resolution(None, [])
    else
      var r := Probe(libs, pathExists);
      assert r.found.Some? ==> Holds(libs, pathExists, |r.probes| - 1);
      r
  }

  /** The whole of `find_game_path`: read the manifest (absent when it is
      missing or unreadable), then search its libraries. */
  function FindGamePathFromManifest(manifest: Option<string>, pathExists: string -> bool): (r: Resolution)
    ensures manifest.None? ==> r == Resolution(None, [])
  {
    FindGamePath(LibraryFolders.ParseLibraryFolders(manifest), pathExists)
  }

  /** First match wins: if library `k` holds the game and none before it
      does, the result is library `k`'s candidate, after probing exactly
      libraries `0` to `k`. */
  lemma FirstHitWins(libs: seq<string>, pathExists: string -> bool, k: nat)
    requires Holds(libs, pathExists, k)
    requires forall j :: 0 <= j < k ==> !Holds(libs, pathExists, j)
    ensures FindGamePath(libs, pathExists).found == Some(Candidate(libs[k]))
    ensures |FindGamePath(libs, pathExists).probes| == k + 1
  {
    var r := FindGamePath(libs, pathExists);
    assert r == Probe(libs, pathExists);
    assert Holds(libs, pathExists, |r.probes| - 1);
  }

  /** Libraries listed after the one that holds the game change nothing:
      they are never probed. */
  lemma LibrariesAfterHitIgnored(libs: seq<string>, more: seq<string>, pathExists: string -> bool)
    requires FindGamePath(libs, pathExists).found.Some?
    ensures FindGamePath(libs + more, pathExists) == FindGamePath(libs, pathExists)
  {
    ProbeAfterHit(libs, more, pathExists);
  }

  lemma {:induction false} ProbeAfterHit(libs: seq<string>, more: seq<string>, pathExists: string -> bool)
    requires Probe(libs, pathExists).found.Some?
    ensures 0 < |libs| && Probe(libs + more, pathExists) == Probe(libs, pathExists)
    decreases |libs|
  {
    assert 0 < |libs|;
    var c := Candidate(libs[0]);
    AppendFirst(libs, more);
    if !pathExists(c) {
      ProbeAfterHit(libs[1..], more, pathExists);
      var rest := Probe(libs[1..], pathExists);
      assert Probe(libs, pathExists) == Resolution(rest.found, [c] + rest.probes);
      assert Probe(libs + more, pathExists) == Resolution(rest.found, [c] + rest.probes);
    }
  }

  /** Libraries none of which hold the game only add their probes in front
      of the search of the libraries that follow. */
  lemma {:induction false} LibrariesWithoutGameSkipped(libs: seq<string>, more: seq<string>, pathExists: string -> bool)
    requires forall j :: 0 <= j < |libs| ==> !Holds(libs, pathExists, j)
    ensures Probe(libs + more, pathExists).found == Probe(more, pathExists).found
    ensures Probe(libs + more, pathExists).probes == Probe(libs, pathExists).probes + Probe(more, pathExists).probes
    decreases |libs|
  {
    if |libs| > 0 {
      assert !Holds(libs, pathExists, 0);
      AppendFirst(libs, more);
      assert forall j :: 0 <= j < |libs| - 1 ==> Holds(libs[1..], pathExists, j) == Holds(libs, pathExists, j + 1);
      LibrariesWithoutGameSkipped(libs[1..], more, pathExists);
      var c := Candidate(libs[0]);
      var whole, rest := Probe(libs + more, pathExists), Probe(libs[1..] + more, pathExists);
      assert whole == Resolution(rest.found, [c] + rest.probes);
      var own := Probe(libs[1..], pathExists);
      assert Probe(libs, pathExists) == Resolution(own.found, [c] + own.probes);
      assert rest.probes == own.probes + Probe(more, pathExists).probes;
      AppendAssoc([c], own.probes, Probe(more, pathExists).probes);
    } else {
      assert libs + more == more;
    }
  }

  lemma AppendAssoc<T>(a: seq<T>, b: seq<T>, c: seq<T>)
    ensures a + (b + c) == a + b + c
  {
  }

  lemma AppendFirst<T>(a: seq<T>, b: seq<T>)
    requires 0 < |a|
    ensures (a + b)[0] == a[0] && (a + b)[1..] == a[1..] + b
  {
  }
}
