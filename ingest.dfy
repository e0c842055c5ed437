/**
 * The ingestion rule: which dropped or picked files are accepted (app.js:78, app.js:83)
 * and which record each accepted file becomes (app.js:90-97).
 */
module Ingest {
  import opened Wrappers
  import opened Seqs
  import opened Text
  import opened Records
  import opened Gallery

  /** A browser `File`: its name, its media type, and its content. */
  datatype File = File(name: string, mimeType: string, content: Blob)

  /** `f.type.startsWith('video/')`. */
  predicate IsVideo(f: File)
  {
    IsPrefix("video/", f.mimeType)
  }

  /** The files a drop or a picker selection passes on to `handleFiles`, in their original order. */
  function AcceptedFiles(files: seq<File>): (r: seq<File>)
    ensures forall k :: 0 <= k < |r| ==> r[k] in files && IsVideo(r[k])
    ensures forall k :: 0 <= k < |files| && IsVideo(files[k]) ==> files[k] in r
    ensures IsSubsequence(r, files)
    ensures r == [] <==> forall k :: 0 <= k < |files| ==> !IsVideo(files[k])
    ensures forall f :: multiset(r)[f] == if IsVideo(f) then multiset(files)[f] else 0
  {
    FilterIsSubsequence(files, IsVideo);
    FilterCount(files, IsVideo);
    Filter(files, IsVideo)
  }

  /** `prompt(...) || f.name`: a cancelled (`null`) or empty answer falls back to the file name. */
  function Title(answer: Option<string>, name: string): (t: string)
    ensures answer.Some? && answer.value != "" ==> t == answer.value
    ensures answer.None? || answer.value == "" ==> t == name
    ensures t == "" ==> name == ""
  {
    if answer.Some? && answer.value != "" then answer.value else name
  }

  /** The object `addVideo` stores for file `f`, once the store has assigned it `id`. */
  function NewRecord(f: File, answer: Option<string>, id: nat, created: int): VideoRecord
  {
    VideoRecord(id, f.content, Some(f.name), Some(Title(answer, f.name)), created)
  }

  /** The records a batch adds, with ids handed out consecutively from `first`. */
  function Ingested(files: seq<File>, answers: seq<Option<string>>, times: seq<int>, first: nat): (rs: seq<VideoRecord>)
    requires |answers| == |files| && |times| == |files|
    ensures |rs| == |files|
  {
    seq(|files|, i requires 0 <= i < |files| => NewRecord(files[i], answers[i], first + i, times[i]))
  }

  lemma IngestedPrefix(files: seq<File>, answers: seq<Option<string>>, times: seq<int>, first: nat, i: nat)
    requires |answers| == |files| && |times| == |files| && i < |files|
    ensures Ingested(files[..i + 1], answers[..i + 1], times[..i + 1], first)
            == Ingested(files[..i], answers[..i], times[..i], first) + [NewRecord(files[i], answers[i], first + i, times[i])]
  {
  }
}
