/** `Downloader.resume_download`: reuse a complete final file or a complete
    `.temp` file, otherwise continue the `.temp` file from the chunk its size
    reaches and finalise it when the sizes match. */
module Resume {
  import opened Common
  import opened PathTool

  /** The default `chunk_size`, 1 MiB. */
  const DefaultChunkSize: nat := 1048576

  /** `f"{file_name}.temp"` */
  function TempPath(fileName: string): string {
    fileName + ".temp"
  }

  /** `compare_size` taken as a condition: present and not 0. */
  predicate Truthy(compareSize: Option<int>) {
    compareSize.Some? && compareSize.value != 0
  }

  /** The total length of a run of chunks. */
  function Sum(chunks: seq<nat>): nat {
    if chunks == [] then 0 else Sum(chunks[..|chunks| - 1]) + chunks[|chunks| - 1]
  }

  lemma SumSnoc(chunks: seq<nat>, c: nat)
    ensures Sum(chunks + [c]) == Sum(chunks) + c
  {
    assert (chunks + [c])[..|chunks|] == chunks;
  }

  /** How a call ends: with the file already in place (nothing streamed),
      unable to open the temporary path (it is a directory), or after
      streaming from chunk `offset` up to `downloaded` bytes. */
  datatype Outcome = AlreadyComplete | OpenFailed | Streamed(offset: nat, downloaded: nat)

  /** The checks of the final file and the temporary file before
      streaming: the tree they leave, and whether the call already returns. */
  function Prepare(fs: map<string, Entry>, fileName: string, compareSize: Option<int>): (map<string, Entry>, bool) {
    var temp := TempPath(fileName);
    if fileName in fs && Truthy(compareSize) && CompareFileSize(GetFileSize(fs, fileName, ".temp"), compareSize.value) then
      (fs, true)
    else
      var fs1 := if fileName in fs && Truthy(compareSize) then AfterReplace(fs, fileName, temp) else fs;
      if temp in fs1 && Truthy(compareSize) then
        var local := GetFileSize(fs1, temp, ".temp");
        if CompareFileSize(local, compareSize.value) then (AfterReplace(fs1, temp, fileName), true)
        else if local > compareSize.value then (AfterDelete(fs1, temp), false)
        else (fs1, false)
      else (fs1, false)
  }

  /** The streaming part of `resume_download`, from the tree the checks
      left: open the temporary file (appending when it has bytes), request
      the stream from chunk `downloaded // chunk_size`, append every chunk,
      and finalise when no size is expected or the sizes match. */
  function Continue(fs1: map<string, Entry>, fileName: string, chunkSize: nat, compareSize: Option<int>,
                    stream: nat -> seq<nat>): (r: (map<string, Entry>, Outcome))
    requires chunkSize > 0
  {
    var temp := TempPath(fileName);
    var start := if temp in fs1 then fs1[temp].size else 0;
    if IsDir(fs1, temp) then (fs1, OpenFailed)
    else
      var offset := start / chunkSize;
      var total := start + Sum(stream(offset));
      var fs2 := fs1[temp := File(total)];
      if compareSize.None? || CompareFileSize(total, compareSize.value) then
        (AfterReplace(fs2, temp, fileName), Streamed(offset, total))
      else (fs2, Streamed(offset, total))
  }

  /** `resume_download`: the tree it leaves and how it ends, for a remote
      stream that yields `stream(k)` (chunk lengths) from chunk `k` on. */
  function Resume(fs: map<string, Entry>, fileName: string, chunkSize: nat, compareSize: Option<int>,
                  stream: nat -> seq<nat>): (r: (map<string, Entry>, Outcome))
    requires chunkSize > 0
  {
    var (fs1, done) := Prepare(fs, fileName, compareSize);
    if done then (fs1, AlreadyComplete)
    else Continue(fs1, fileName, chunkSize, compareSize, stream)
  }

  /** A final file of the expected size is returned as it is: nothing is
      streamed and nothing changes. */
  lemma CompleteFileKept(fs: map<string, Entry>, fileName: string, chunkSize: nat, cs: int, stream: nat -> seq<nat>)
    requires chunkSize > 0 && cs != 0
    requires fileName in fs && fs[fileName].size == cs
    ensures Resume(fs, fileName, chunkSize, Some(cs), stream) == (fs, AlreadyComplete)
  {
  }

  /** A final file of another size becomes the temporary file, and the
      download continues from it: from the chunk its size reaches, ending at
      its size plus everything streamed. */
  lemma IncompleteFileContinued(fs: map<string, Entry>, fileName: string, chunkSize: nat, cs: int, stream: nat -> seq<nat>)
    requires chunkSize > 0 && cs != 0
    requires IsFile(fs, fileName) && fs[fileName].size < cs
    requires !IsDir(fs, TempPath(fileName))
    ensures var size := fs[fileName].size;
            Resume(fs, fileName, chunkSize, Some(cs), stream).1
              == Streamed(size / chunkSize, size + Sum(stream(size / chunkSize)))
  {
    var temp := TempPath(fileName);
    assert temp != fileName by { assert |temp| == |fileName| + 5; }
    var fs1 := AfterReplace(fs, fileName, temp);
    assert temp in fs1 && fs1[temp] == fs[fileName];
  }

  /** A complete temporary file is moved to the final name and returned. */
  lemma CompleteTempFinalised(fs: map<string, Entry>, fileName: string, chunkSize: nat, cs: int, stream: nat -> seq<nat>)
    requires chunkSize > 0 && cs != 0
    requires fileName !in fs && IsFile(fs, TempPath(fileName)) && fs[TempPath(fileName)].size == cs
    ensures Resume(fs, fileName, chunkSize, Some(cs), stream) == (Renamed(fs, TempPath(fileName), fileName), AlreadyComplete)
  {
  }

  /** A temporary file larger than the expected size is deleted and the
      download restarts from chunk 0. */
  lemma OversizedTempRestarted(fs: map<string, Entry>, fileName: string, chunkSize: nat, cs: int, stream: nat -> seq<nat>)
    requires chunkSize > 0 && cs != 0
    requires fileName !in fs && IsFile(fs, TempPath(fileName)) && fs[TempPath(fileName)].size > cs
    ensures Resume(fs, fileName, chunkSize, Some(cs), stream).1 == Streamed(0, Sum(stream(0)))
  {
  }

  /** Whatever the stream yields, the temporary file ends at the size it
      started from plus the streamed bytes, and becomes the final file exactly
      when no size is expected or the sizes match. */
  lemma FinalisedOnlyWhenSizesMatch(fs: map<string, Entry>, fileName: string, chunkSize: nat, cs: Option<int>,
                                    stream: nat -> seq<nat>)
    requires chunkSize > 0
    requires fileName !in fs
    ensures var (tree, outcome) := Resume(fs, fileName, chunkSize, cs, stream);
            outcome.Streamed? ==>
              && outcome.offset * chunkSize <= outcome.downloaded
              && ((cs.None? || outcome.downloaded == cs.value) ==>
                    fileName in tree && tree[fileName] == File(outcome.downloaded) && TempPath(fileName) !in tree)
              && (!(cs.None? || outcome.downloaded == cs.value) ==>
                    fileName !in tree && TempPath(fileName) in tree && tree[TempPath(fileName)] == File(outcome.downloaded))
  {
    var temp := TempPath(fileName);
    assert temp != fileName by { assert |temp| == |fileName| + 5; }
    var (fs1, done) := Prepare(fs, fileName, cs);
    if !done && !IsDir(fs1, temp) {
      assert fileName !in fs1;
      var start := if temp in fs1 then fs1[temp].size else 0;
      var offset := start / chunkSize;
      assert offset * chunkSize <= start;
    }
  }

  /** The checks before streaming, on the file system. */
  method PrepareFiles(fs: FileSystem, fileName: string, compareSize: Option<int>) returns (done: bool)
    modifies fs
    ensures (fs.tree, done) == Prepare(old(fs.tree), fileName, compareSize)
  {
    var temp := TempPath(fileName);
    if fileName in fs.tree && Truthy(compareSize) {
      var local := GetFileSize(fs.tree, fileName, ".temp");
      if CompareFileSize(local, compareSize.value) {
        return true;
      }
      var _ := fs.SafeReplace(fileName, temp);
    }
    if temp in fs.tree && Truthy(compareSize) {
      var local := GetFileSize(fs.tree, temp, ".temp");
      if CompareFileSize(local, compareSize.value) {
        var _ := fs.SafeReplace(temp, fileName);
        return true;
      } else if local > compareSize.value {
        var _ := fs.SafeDelete(temp);
      }
    }
    done := false;
  }

  /** The streaming part, on the file system. */
  method ContinueDownload(fs: FileSystem, fileName: string, chunkSize: nat, compareSize: Option<int>,
                          stream: nat -> seq<nat>) returns (outcome: Outcome)
    requires chunkSize > 0
    modifies fs
    ensures (fs.tree, outcome) == Continue(old(fs.tree), fileName, chunkSize, compareSize, stream)
  {
    var temp := TempPath(fileName);
    ghost var fs1 := fs.tree;
    var downloaded: nat := if temp in fs.tree then fs.tree[temp].size else 0;
    var ok := fs.Open(temp, downloaded != 0);
    if !ok {
      return OpenFailed;
    }
    var skipChunks := downloaded / chunkSize;
    var chunks := stream(skipChunks);
    ghost var start := downloaded;
    var i := 0;
    while i < |chunks|
      invariant 0 <= i <= |chunks|
      invariant downloaded == start + Sum(chunks[..i])
      invariant fs.tree == fs1[temp := File(downloaded)]
    {
      fs.Write(temp, chunks[i]);
      SumSnoc(chunks[..i], chunks[i]);
      assert chunks[..i + 1] == chunks[..i] + [chunks[i]];
      downloaded := downloaded + chunks[i];
      i := i + 1;
    }
    assert chunks[..i] == chunks;
    if compareSize.None? || CompareFileSize(downloaded, compareSize.value) {
      var _ := fs.SafeReplace(temp, fileName);
    }
    outcome := Streamed(skipChunks, downloaded);
  }

  /** `resume_download` on the file system: returns `file_name` always, and
      leaves the tree `Resume` describes. */
  method ResumeDownload(fs: FileSystem, fileName: string, chunkSize: nat, compareSize: Option<int>,
                        stream: nat -> seq<nat>) returns (r: string, outcome: Outcome)
    requires chunkSize > 0
    modifies fs
    ensures r == fileName
    ensures (fs.tree, outcome) == Resume(old(fs.tree), fileName, chunkSize, compareSize, stream)
  {
    r := fileName;
    var done := PrepareFiles(fs, fileName, compareSize);
    if done {
      return r, AlreadyComplete;
    }
    outcome := ContinueDownload(fs, fileName, chunkSize, compareSize, stream);
  }
}
