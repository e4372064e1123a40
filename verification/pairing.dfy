/** The name pairing of bin/add_subtitles.py and bin/match_transcripts.py:
    datasets, subtitle files and transcripts found under folders are keyed
    by a name taken from their paths, and matched on equal keys. The file
    system becomes two parameters: which paths are folders, and what a
    recursive glob under a folder finds. */
module Pairing {

  import opened Wrappers
  import opened Seqs
  import opened Dicts
  import opened Paths

  /** `d[NameKey(p)] = p` for each path in turn; the first path without a
      `_` raises `ValueError`. */
  function KeyMap(paths: seq<string>): (r: Result<Dict<string, string>>)
    ensures r.Err? <==> exists p :: p in paths && '_' !in p
    ensures r.Err? ==> r.error.ValueError?
    decreases |paths|
  {
    if |paths| == 0 then Ok([])
    else
      var init := paths[..|paths| - 1];
      var last := paths[|paths| - 1];
      assert paths == init + [last];
      var d :- KeyMap(init);
      var key :- NameKey(last);
      Ok(Set(d, key, last))
  }

  /** The last of `paths` whose key is `k`: the one a dict keeps. */
  function LastWithKey(paths: seq<string>, k: string): (r: Option<string>)
    ensures r.Some? ==> r.value in paths && NameKey(r.value) == Ok(k)
    ensures r.None? ==> forall p :: p in paths ==> NameKey(p) != Ok(k)
    decreases |paths|
  {
    if |paths| == 0 then None
    else if NameKey(paths[|paths| - 1]) == Ok(k) then Some(paths[|paths| - 1])
    else LastWithKey(paths[..|paths| - 1], k)
  }

  /** Looking a key up in the map gives the last path with that key, and
      the map is a dict (no key twice). */
  lemma {:induction false} KeyMapGet(paths: seq<string>, k: string)
    requires forall p :: p in paths ==> '_' in p
    ensures Get(KeyMap(paths).value, k) == LastWithKey(paths, k)
    ensures Distinct(KeyMap(paths).value)
    decreases |paths|
  {
    if |paths| > 0 {
      var init := paths[..|paths| - 1];
      var last := paths[|paths| - 1];
      assert KeyMap(init).Ok? && NameKey(last).Ok?;
      KeyMapGet(init, k);
      var d := KeyMap(init).value;
      var key := NameKey(last).value;
      assert KeyMap(paths).value == Set(d, key, last);
      SetGet(d, key, last, k);
      SetDistinct(d, key, last);
    }
  }

  /** Every entry of the key map is one of the paths, stored under its own key. */
  lemma KeyMapEntry(paths: seq<string>, i: nat)
    requires forall p :: p in paths ==> '_' in p
    ensures i < |KeyMap(paths).value| ==>
              && KeyMap(paths).value[i].1 in paths
              && NameKey(KeyMap(paths).value[i].1) == Ok(KeyMap(paths).value[i].0)
  {
    if i < |KeyMap(paths).value| {
      var d := KeyMap(paths).value;
      KeyMapGet(paths, d[i].0);
      GetEntry(d, d[i].0, d[i].1);
    }
  }

  /** Each dataset, in the dataset map's order, either paired with the
      subtitle file of the same key or listed as having none. */
  function PairByKey(datasets: Dict<string, string>, subtitles: Dict<string, string>)
    : (r: (seq<(string, string)>, seq<string>))
    ensures |r.0| + |r.1| == |datasets|
    decreases |datasets|
  {
    if |datasets| == 0 then ([], [])
    else
      var prev := PairByKey(datasets[..|datasets| - 1], subtitles);
      var (name, dataset) := datasets[|datasets| - 1];
      match Get(subtitles, name)
      case Some(subtitle) => (prev.0 + [(dataset, subtitle)], prev.1)
      case None => (prev.0, prev.1 + [dataset])
  }

  /** Every dataset lands in a list: paired with the subtitle stored under
      its key when there is one, listed as unpaired otherwise. With
      `|found| + |none| == |datasets|`, each lands in exactly one. */
  lemma {:induction false} PairByKeyComplete(datasets: Dict<string, string>, subtitles: Dict<string, string>, i: nat)
    requires i < |datasets|
    ensures var (found, none) := PairByKey(datasets, subtitles);
            match Get(subtitles, datasets[i].0)
            case Some(subtitle) => (datasets[i].1, subtitle) in found
            case None => datasets[i].1 in none
    decreases |datasets|
  {
    var n := |datasets| - 1;
    if i < n {
      PairByKeyComplete(datasets[..n], subtitles, i);
    }
  }

  /** Nothing but the datasets is paired: a pair holds a dataset and the
      subtitle stored under its key. */
  lemma {:induction false} PairedSound(datasets: Dict<string, string>, subtitles: Dict<string, string>, k: nat)
    requires k < |PairByKey(datasets, subtitles).0|
    ensures exists i :: 0 <= i < |datasets| && Get(subtitles, datasets[i].0).Some?
              && PairByKey(datasets, subtitles).0[k] == (datasets[i].1, Get(subtitles, datasets[i].0).value)
    decreases |datasets|
  {
    var n := |datasets| - 1;
    var init := datasets[..n];
    var prev := PairByKey(init, subtitles).0;
    if k < |prev| {
      PairedSound(init, subtitles, k);
      var i :| 0 <= i < |init| && Get(subtitles, init[i].0).Some?
               && prev[k] == (init[i].1, Get(subtitles, init[i].0).value);
      assert datasets[i] == init[i];
    } else {
      assert Get(subtitles, datasets[n].0).Some?;
    }
  }

  /** An unpaired entry is a dataset whose key has no subtitle. */
  lemma {:induction false} UnpairedSound(datasets: Dict<string, string>, subtitles: Dict<string, string>, k: nat)
    requires k < |PairByKey(datasets, subtitles).1|
    ensures exists i :: 0 <= i < |datasets| && Get(subtitles, datasets[i].0).None?
              && PairByKey(datasets, subtitles).1[k] == datasets[i].1
    decreases |datasets|
  {
    var n := |datasets| - 1;
    var init := datasets[..n];
    var prev := PairByKey(init, subtitles).1;
    if k < |prev| {
      UnpairedSound(init, subtitles, k);
      var i :| 0 <= i < |init| && Get(subtitles, init[i].0).None? && prev[k] == init[i].1;
      assert datasets[i] == init[i];
    } else {
      assert Get(subtitles, datasets[n].0).None?;
    }
  }

  /** The paths a recursive glob finds under each argument folder, in
      argument order. */
  function Discover(folders: seq<string>, glob: string -> seq<string>): seq<string> {
    if |folders| == 0 then [] else Discover(folders[..|folders| - 1], glob) + glob(folders[|folders| - 1])
  }

  /** `main` of bin/add_subtitles.py up to the pairs it will process: every
      argument must be a folder; its `.h5` datasets and `.srt` subtitles are
      keyed and paired. Returns the pairs and the datasets without subtitles. */
  function AddSubtitlesPairs(arguments: seq<string>, isDir: string -> bool,
                             globH5: string -> seq<string>, globSrt: string -> seq<string>)
    : (r: Result<(seq<(string, string)>, seq<string>)>)
    ensures (exists a :: a in arguments && !isDir(a)) ==> r.Err? && r.error.ValueError?
    ensures r.Ok? <==>
              && (forall a :: a in arguments ==> isDir(a))
              && (forall p :: p in Discover(arguments, globH5) ==> '_' in p)
              && (forall p :: p in Discover(arguments, globSrt) ==> '_' in p)
    ensures r.Ok? ==> r.value == PairByKey(KeyMap(Discover(arguments, globH5)).value,
                                           KeyMap(Discover(arguments, globSrt)).value)
  {
    if exists a :: a in arguments && !isDir(a) then Err(ValueError("Not a directory"))
    else
      var datasets :- KeyMap(Discover(arguments, globH5));
      var subtitles :- KeyMap(Discover(arguments, globSrt));
      Ok(PairByKey(datasets, subtitles))
  }

  /** A returned pair is a discovered dataset with the last discovered
      subtitle file of the same key, and a dataset returned as unpaired has
      no subtitle file with its key. */
  lemma AddSubtitlesPairsSound(arguments: seq<string>, isDir: string -> bool,
                               globH5: string -> seq<string>, globSrt: string -> seq<string>, k: nat)
    requires forall a :: a in arguments ==> isDir(a)
    requires forall p :: p in Discover(arguments, globH5) ==> '_' in p
    requires forall p :: p in Discover(arguments, globSrt) ==> '_' in p
    ensures var (found, _) := AddSubtitlesPairs(arguments, isDir, globH5, globSrt).value;
            k < |found| ==>
              && found[k].0 in Discover(arguments, globH5) && NameKey(found[k].0).Ok?
              && LastWithKey(Discover(arguments, globSrt), NameKey(found[k].0).value) == Some(found[k].1)
    ensures var (_, none) := AddSubtitlesPairs(arguments, isDir, globH5, globSrt).value;
            k < |none| ==>
              && none[k] in Discover(arguments, globH5) && NameKey(none[k]).Ok?
              && forall p :: p in Discover(arguments, globSrt) ==> NameKey(p) != NameKey(none[k])
  {
    var h5, srt := Discover(arguments, globH5), Discover(arguments, globSrt);
    PairedOfPaths(h5, srt, k);
    UnpairedOfPaths(h5, srt, k);
  }

  /** A pair of the two key maps is a path of `h5` with the last path of
      `srt` that has the same key. */
  lemma PairedOfPaths(h5: seq<string>, srt: seq<string>, k: nat)
    requires forall p :: p in h5 ==> '_' in p
    requires forall p :: p in srt ==> '_' in p
    ensures var found := PairByKey(KeyMap(h5).value, KeyMap(srt).value).0;
            k < |found| ==>
              && found[k].0 in h5 && NameKey(found[k].0).Ok?
              && LastWithKey(srt, NameKey(found[k].0).value) == Some(found[k].1)
  {
    var datasets, subtitles := KeyMap(h5).value, KeyMap(srt).value;
    var found := PairByKey(datasets, subtitles).0;
    if k < |found| {
      PairedSound(datasets, subtitles, k);
      var i :| 0 <= i < |datasets| && Get(subtitles, datasets[i].0).Some?
               && found[k] == (datasets[i].1, Get(subtitles, datasets[i].0).value);
      KeyMapEntry(h5, i);
      KeyMapGet(srt, datasets[i].0);
    }
  }

  /** An unpaired entry of the two key maps is a path of `h5` whose key no
      path of `srt` has. */
  lemma UnpairedOfPaths(h5: seq<string>, srt: seq<string>, k: nat)
    requires forall p :: p in h5 ==> '_' in p
    requires forall p :: p in srt ==> '_' in p
    ensures var none := PairByKey(KeyMap(h5).value, KeyMap(srt).value).1;
            k < |none| ==>
              && none[k] in h5 && NameKey(none[k]).Ok?
              && forall p :: p in srt ==> NameKey(p) != NameKey(none[k])
  {
    var datasets, subtitles := KeyMap(h5).value, KeyMap(srt).value;
    var none := PairByKey(datasets, subtitles).1;
    if k < |none| {
      UnpairedSound(datasets, subtitles, k);
      var i :| 0 <= i < |datasets| && Get(subtitles, datasets[i].0).None? && none[k] == datasets[i].1;
      KeyMapEntry(h5, i);
      KeyMapGet(srt, datasets[i].0);
    }
  }

  /** For each transcript, in the transcript map's order, the dataset
      stored under the same key, when there is one. */
  function MatchByKey(transcripts: Dict<string, string>, datasets: Dict<string, string>): (matched: seq<string>)
    ensures |matched| <= |transcripts|
    decreases |transcripts|
  {
    if |transcripts| == 0 then []
    else
      var prev := MatchByKey(transcripts[..|transcripts| - 1], datasets);
      match Get(datasets, transcripts[|transcripts| - 1].0)
      case Some(dataset) => prev + [dataset]
      case None => prev
  }

  /** Only discovered datasets are reported, and each transcript whose key
      names a dataset has that dataset reported. */
  lemma {:induction false} MatchByKeySound(transcripts: Dict<string, string>, datasets: Dict<string, string>)
    ensures forall m :: m in MatchByKey(transcripts, datasets) ==> m in Values(datasets)
    ensures forall i :: 0 <= i < |transcripts| && Get(datasets, transcripts[i].0).Some? ==>
              Get(datasets, transcripts[i].0).value in MatchByKey(transcripts, datasets)
    decreases |transcripts|
  {
    if |transcripts| > 0 {
      var init := transcripts[..|transcripts| - 1];
      MatchByKeySound(init, datasets);
      forall m | m in MatchByKey(transcripts, datasets) ensures m in Values(datasets) {
        if m !in MatchByKey(init, datasets) {
          var e := Get(datasets, transcripts[|transcripts| - 1].0).value;
          assert (transcripts[|transcripts| - 1].0, e) in datasets;
          var j :| 0 <= j < |datasets| && datasets[j] == (transcripts[|transcripts| - 1].0, e);
          assert Values(datasets)[j] == m;
        }
      }
      assert forall i :: 0 <= i < |init| ==> transcripts[i] == init[i];
    }
  }

  /** `main` of bin/match_transcripts.py up to what it prints: the dataset
      argument must be a folder, a transcript argument that is not a folder
      contributes no transcripts. */
  function MatchTranscripts(transcriptsFolder: string, datasetFolder: string, isDir: string -> bool,
                            globH5: string -> seq<string>, globJson: string -> seq<string>)
    : (r: Result<seq<string>>)
    ensures !isDir(datasetFolder) ==> r.Err? && r.error.ValueError?
    ensures isDir(datasetFolder) && !isDir(transcriptsFolder) && (forall p :: p in globH5(datasetFolder) ==> '_' in p)
            ==> r == Ok([])
    ensures r.Ok? <==> && isDir(datasetFolder) && (forall p :: p in globH5(datasetFolder) ==> '_' in p)
                       && (isDir(transcriptsFolder) ==> forall p :: p in globJson(transcriptsFolder) ==> '_' in p)
    ensures r.Ok? ==> forall m :: m in r.value ==> m in globH5(datasetFolder)
  {
    if !isDir(datasetFolder) then Err(ValueError("Not a directory"))
    else
      var transcriptPaths := if isDir(transcriptsFolder) then globJson(transcriptsFolder) else [];
      var datasets :- KeyMap(globH5(datasetFolder));
      var transcripts :- KeyMap(transcriptPaths);
      MatchByKeySound(transcripts, datasets);
      KeyMapValues(globH5(datasetFolder));
      Ok(MatchByKey(transcripts, datasets))
  }

  /** The values of the key map are paths it was built from. */
  lemma KeyMapValues(paths: seq<string>)
    requires forall p :: p in paths ==> '_' in p
    ensures forall m :: m in Values(KeyMap(paths).value) ==> m in paths
  {
    var d := KeyMap(paths).value;
    forall m | m in Values(d) ensures m in paths {
      var i :| 0 <= i < |d| && Values(d)[i] == m;
      KeyMapEntry(paths, i);
    }
  }
}
