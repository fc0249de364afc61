/** A two-library installation: libraries on drives
    `D:` and `E:`, with the game installed only under the second. Library
    paths are kept exactly as the manifest writes them, so each backslash
    of the directory name appears doubled. */
module Scenario {
  import opened Wrappers
  import opened LibraryFolders
  import opened GamePath

  const LibD: string := "D:\\\\SteamLib"
  const LibE: string := "E:\\\\SteamLib2"

  /** `"1" { "path" "D:\\SteamLib" } "2" { "path" "E:\\SteamLib2" }` */
  function SampleEntries(): (es: seq<Entry>)
    ensures forall k :: 0 <= k < |es| ==> WellFormedEntry(es[k])
  {
    assert All("1", Digit) by { assert InClass("1"[0], Digit); }
    assert All("2", Digit) by { assert InClass("2"[0], Digit); }
    assert All(" ", Space) by { assert InClass(" "[0], Space); }
    [Entry("1", " ", " ", " ", LibD, " } "), Entry("2", " ", " ", " ", LibE, " }")]
  }

  /** Only the second library's game directory exists. */
  predicate OnlyOnE(path: string)
  {
    path == Candidate(LibE)
  }

  lemma SampleLibraries()
    ensures ParseLibraryFolders(Some(ManifestText(SampleEntries()))) == [LibD, LibE]
  {
    ManifestOfEntries(SampleEntries());
  }

  lemma SampleCandidates()
    ensures Candidate(LibE) == "E:\\\\SteamLib2\\steamapps\\common\\ELDEN RING"
    ensures !OnlyOnE(Candidate(LibD)) && OnlyOnE(Candidate(LibE))
  {
    assert NeedsSep(LibD) && NeedsSep(LibE);
    assert Candidate(LibD)[0] == 'D' && Candidate(LibE)[0] == 'E';
  }

  /** The first library is probed and missed, the second is probed and
      holds the game. */
  lemma SampleGamePath()
    ensures FindGamePathFromManifest(Some(ManifestText(SampleEntries())), OnlyOnE)
            == Resolution(Some("E:\\\\SteamLib2\\steamapps\\common\\ELDEN RING"),
                          [Candidate(LibD), "E:\\\\SteamLib2\\steamapps\\common\\ELDEN RING"])
  {
    SampleLibraries();
    SampleCandidates();
    var libs := [LibD, LibE];
    assert Probe(libs[1..], OnlyOnE) == Resolution(Some(Candidate(LibE)), [Candidate(LibE)]);
  }
}
