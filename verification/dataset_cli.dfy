/** `main` of bin/make_multimodal_dataset.py up to the jobs it starts: the
    inputs are either a CSV index of videos or video files given together
    with their subtitle files. Reading the CSV becomes a parameter that maps
    its path to its rows. */
module DatasetCli {

  import opened Wrappers
  import opened Seqs
  import opened Dicts

  /** One `make_dataset(video_file, subtitles_file)` call. */
  datatype Job = Job(video: string, subtitles: string)

  /** The inputs split by whether they name a `.srt` file: videos first,
      subtitles second, each in input order. */
  function SplitFiles(inputs: seq<string>): (r: (seq<string>, seq<string>))
    ensures |r.0| + |r.1| == |inputs|
    decreases |inputs|
  {
    if |inputs| == 0 then ([], [])
    else
      var prev := SplitFiles(inputs[..|inputs| - 1]);
      var file := inputs[|inputs| - 1];
      if Contains(file, ".srt") then (prev.0, prev.1 + [file]) else (prev.0 + [file], prev.1)
  }

  /** The two lists keep the input order, the subtitles are exactly the
      inputs naming `.srt`, and the videos exactly the others. */
  lemma {:induction false} SplitFilesPartition(inputs: seq<string>)
    ensures var (videos, subtitles) := SplitFiles(inputs);
            && IsSubsequence(videos, inputs) && IsSubsequence(subtitles, inputs)
            && (forall f :: f in subtitles <==> f in inputs && Contains(f, ".srt"))
            && (forall f :: f in videos <==> f in inputs && !Contains(f, ".srt"))
    decreases |inputs|
  {
    if |inputs| > 0 {
      var init := inputs[..|inputs| - 1];
      var file := inputs[|inputs| - 1];
      SplitFilesPartition(init);
      var (v, s) := SplitFiles(init);
      assert inputs == init + [file];
      SnocSubsequence(v, init, file);
      SnocSubsequence(s, init, file);
    }
  }

  /** Pairs the k-th video with the k-th subtitle file. */
  function Zip(videos: seq<string>, subtitles: seq<string>): (jobs: seq<Job>)
    requires |videos| == |subtitles|
    ensures |jobs| == |videos|
    ensures forall k :: 0 <= k < |jobs| ==> jobs[k] == Job(videos[k], subtitles[k])
  {
    seq(|videos|, k requires 0 <= k < |videos| => Job(videos[k], subtitles[k]))
  }

  /** The job for one CSV row, from its `mp4` and `srt` columns; a row
      missing either column raises `KeyError`. */
  function RowJob(row: Dict<string, string>): (r: Result<Job>)
  {
    match (Get(row, "mp4"), Get(row, "srt"))
    case (None, _) => Err(KeyError("mp4"))
    case (_, None) => Err(KeyError("srt"))
    case (Some(video), Some(subtitles)) => Ok(Job(video, subtitles))
  }

  /** One job per CSV row, in row order; the first bad row's error otherwise. */
  function RowJobs(rows: seq<Dict<string, string>>): (r: Result<seq<Job>>)
    ensures r.Ok? <==> forall k :: 0 <= k < |rows| ==> RowJob(rows[k]).Ok?
    ensures r.Err? ==> r.error.KeyError?
    ensures r.Ok? ==> |r.value| == |rows| && forall k :: 0 <= k < |rows| ==> Ok(r.value[k]) == RowJob(rows[k])
    decreases |rows|
  {
    if |rows| == 0 then Ok([])
    else
      var init := rows[..|rows| - 1];
      assert forall k :: 0 <= k < |init| ==> init[k] == rows[k];
      var prev :- RowJobs(init);
      var job :- RowJob(rows[|rows| - 1]);
      Ok(prev + [job])
  }

  /** A row yields a job exactly when it has both columns, and the job
      carries their values. */
  lemma RowJobColumns(row: Dict<string, string>, video: string, subtitles: string)
    requires Distinct(row)
    ensures RowJob(row) == Ok(Job(video, subtitles)) <==> ("mp4", video) in row && ("srt", subtitles) in row
  {
    GetEntry(row, "mp4", video);
    GetEntry(row, "srt", subtitles);
  }

  /** The jobs `main` starts for its inputs (argparse guarantees at least one). */
  function Jobs(inputs: seq<string>, csvRows: string -> seq<Dict<string, string>>): (r: Result<seq<Job>>)
    requires |inputs| > 0
    ensures !Contains(inputs[0], ".csv") ==>
              var (videos, subtitles) := SplitFiles(inputs);
              && (r.Err? <==> |videos| == 0 || |videos| != |subtitles|)
              && (r.Err? ==> r.error.ValueError?)
              && (r.Ok? ==> |r.value| == |videos|)
              && (r.Ok? ==> forall k :: 0 <= k < |videos| ==> r.value[k] == Job(videos[k], subtitles[k]))
  {
    if Contains(inputs[0], ".csv") then RowJobs(csvRows(inputs[0]))
    else
      var (videos, subtitles) := SplitFiles(inputs);
      assert !Contains(inputs[0], ".csv");
      if |videos| == 0 || |videos| != |subtitles| then
        Err(ValueError("Input files is not valid. The same number of video files as subtitles must be supplied"))
      else Ok(Zip(videos, subtitles))
  }
}
