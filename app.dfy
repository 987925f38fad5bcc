/** The application object: per-kind download statistics, the live task
    counter, the configured list of media kinds, and the naming of downloaded
    files (`DownloadFileName`, `get_temp_file_path`). */
module App {
  import opened Common
  import opened Telegram
  import opened PathTool

  // ---------------------------------------------------------------------
  // Statistics (update_download_status)
  // ---------------------------------------------------------------------

  /** One set of file names per media kind. */
  type Table = map<DownloadType, set<string>>

  predicate Total(t: Table) {
    forall k: DownloadType :: k in t
  }

  /** The statistics kept by the application, as a value. */
  datatype Stats = Stats(success: Table, failure: Table, skip: Table, currentTaskNum: int)

  predicate StatsValid(s: Stats) {
    Total(s.success) && Total(s.failure) && Total(s.skip)
  }

  /** No name is both a success and a failure of the same kind. */
  predicate Consistent(s: Stats)
    requires StatsValid(s)
  {
    forall k: DownloadType :: s.failure[k] * s.success[k] == {}
  }

  /** `update_download_status(t, status, name)` on the statistics. */
  function Record(s: Stats, t: DownloadType, status: DownloadStatus, name: string): (r: Stats)
    requires StatsValid(s)
    ensures StatsValid(r)
  {
    var s1 :=
      match status
      case Success => s.(success := s.success[t := s.success[t] + {name}])
      case Failure => s.(failure := s.failure[t := s.failure[t] + {name}])
      case Skip => s.(skip := s.skip[t := s.skip[t] + {name}])
      case Downloading => s.(currentTaskNum := s.currentTaskNum + 1);
    if s1.failure[t] != {} && s1.success[t] != {} then
      s1.(failure := s1.failure[t := s1.failure[t] - s1.success[t]])
    else s1
  }

  /** After any update, the failures of the updated kind exclude its
      successes; the other kinds keep whatever they had. */
  lemma RecordSeparates(s: Stats, t: DownloadType, status: DownloadStatus, name: string)
    requires StatsValid(s)
    ensures var r := Record(s, t, status, name);
            r.failure[t] * r.success[t] == {}
            && forall k :: k != t ==> r.success[k] == s.success[k] && r.failure[k] == s.failure[k] && r.skip[k] == s.skip[k]
  {
  }

  /** Each status touches only its own set; `Downloading` only counts. */
  lemma RecordEffect(s: Stats, t: DownloadType, status: DownloadStatus, name: string)
    requires StatsValid(s)
    ensures var r := Record(s, t, status, name);
            && (status == Success ==> r.success[t] == s.success[t] + {name} && r.skip[t] == s.skip[t]
                                      && name !in r.failure[t] && r.currentTaskNum == s.currentTaskNum)
            && (status == Failure ==> r.success[t] == s.success[t] && r.skip[t] == s.skip[t]
                                      && r.failure[t] == (s.failure[t] + {name}) - s.success[t]
                                      && r.currentTaskNum == s.currentTaskNum)
            && (status == Skip ==> r.success[t] == s.success[t] && r.skip[t] == s.skip[t] + {name}
                                   && r.failure[t] == s.failure[t] - s.success[t]
                                   && r.currentTaskNum == s.currentTaskNum)
            && (status == Downloading ==> r.success[t] == s.success[t] && r.skip[t] == s.skip[t]
                                          && r.failure[t] == s.failure[t] - s.success[t]
                                          && r.currentTaskNum == s.currentTaskNum + 1)
  {
  }

  /** Every update keeps the statistics consistent. */
  lemma RecordKeepsConsistent(s: Stats, t: DownloadType, status: DownloadStatus, name: string)
    requires StatsValid(s) && Consistent(s)
    ensures Consistent(Record(s, t, status, name))
  {
    RecordSeparates(s, t, status, name);
  }

  // ---------------------------------------------------------------------
  // check_download_type
  // ---------------------------------------------------------------------

  /** `l.remove(x)`: drops the first occurrence of `x`. */
  function RemoveFirst(l: seq<string>, x: string): (r: seq<string>)
    ensures x in l ==> |r| == |l| - 1
    ensures x !in l ==> r == l
    ensures multiset(r) == multiset(l) - multiset{x}
  {
    if l == [] then []
    else if l[0] == x then
      assert l == [l[0]] + l[1..];
      l[1..]
    else
      assert l == [l[0]] + l[1..];
      [l[0]] + RemoveFirst(l[1..], x)
  }

  /** The list left by `for x in l: if x not supported: l.remove(x)`, with the
      list iterator at index `i`: each removal shifts the next element under
      the iterator, which then skips it. */
  function IterRemove(l: seq<string>, i: nat): (r: seq<string>)
    ensures multiset(r) <= multiset(l)
    ensures forall x :: x in l && IsTypeName(x) ==> x in r
    decreases |l| - i
  {
    if i >= |l| then l
    else if IsTypeName(l[i]) then IterRemove(l, i + 1)
    else
      RemoveFirstKeeps(l, l[i]);
      IterRemove(RemoveFirst(l, l[i]), i + 1)
  }

  /** Removing `y` keeps every other entry. */
  lemma RemoveFirstKeeps(l: seq<string>, y: string)
    ensures multiset(RemoveFirst(l, y)) <= multiset(l)
    ensures forall x :: x in l && x != y ==> x in RemoveFirst(l, y)
  {
    forall x | x in l && x != y ensures x in RemoveFirst(l, y) {
      assert x in multiset(l);
      assert x in multiset(RemoveFirst(l, y));
    }
  }

  /** An empty list falls back to every supported kind. */
  function Settle(l: seq<string>): (r: seq<string>)
    ensures r != []
    ensures l != [] ==> r == l
  {
    if l == [] then AllTypeNames() else l
  }

  /** The supported names of `l`, in order. */
  function Supported(l: seq<string>): (r: seq<string>)
    ensures forall x :: x in r <==> x in l && IsTypeName(x)
    ensures |r| <= |l|
  {
    if l == [] then []
    else if IsTypeName(l[0]) then [l[0]] + Supported(l[1..])
    else Supported(l[1..])
  }

  /** As written, a list of two misspelt kinds keeps the second one: it is
      neither removed nor replaced by the defaults. */
  lemma AsWrittenKeepsUnsupported()
    ensures Settle(IterRemove(["videos", "photos"], 0)) == ["photos"]
    ensures !IsTypeName("photos")
  {
    assert !IsTypeName("videos") && !IsTypeName("photos");
    assert RemoveFirst(["videos", "photos"], "videos") == ["photos"];
    assert IterRemove(["videos", "photos"], 0) == IterRemove(["photos"], 1);
  }

  /** With every unsupported entry removed, the configured list is never
      empty and names supported kinds only. */
  lemma CheckedTypesSupported(l: seq<string>)
    ensures Settle(Supported(l)) != []
    ensures forall x :: x in Settle(Supported(l)) ==> IsTypeName(x)
    ensures forall x :: x in l && IsTypeName(x) ==> x in Settle(Supported(l))
  {
  }

  // ---------------------------------------------------------------------
  // The application object
  // ---------------------------------------------------------------------

  class Application {
    var success: Table
    var failure: Table
    var skip: Table
    var currentTaskNum: int
    /** The configured media kinds, `self.download_type`. */
    var downloadType: seq<string>
    /** The `download_type` entry last written to the configuration file. */
    var savedDownloadType: Option<seq<string>>
    const maxDownloadTask: int
    const maxDownloadRetries: int

    ghost predicate Valid()
      reads this`success, this`failure, this`skip, this`currentTaskNum
    {
      StatsValid(StatsOf())
    }

    function StatsOf(): Stats
      reads this`success, this`failure, this`skip, this`currentTaskNum
    {
      Stats(success, failure, skip, currentTaskNum)
    }

    /** `Application.__init__`: empty statistics, the configured kinds
        checked, no task running. */
    constructor (configured: seq<string>, maxTask: int, maxRetries: int)
      ensures Valid() && Consistent(StatsOf())
      ensures currentTaskNum == 0
      ensures downloadType == Settle(Supported(configured))
      ensures maxDownloadTask == maxTask && maxDownloadRetries == maxRetries
    {
      var none: Table := map[Video := {}, Photo := {}, Document := {}, Audio := {}, Voice := {}, Animation := {}];
      assert Total(none) by {
        forall k: DownloadType ensures k in none {
          match k {
            case Video => case Photo => case Document =>
            case Audio => case Voice => case Animation =>
          }
        }
      }
      success := none;
      failure := none;
      skip := none;
      downloadType := configured;
      savedDownloadType := None;
      maxDownloadTask := maxTask;
      maxDownloadRetries := maxRetries;
      currentTaskNum := 0;
      new;
      CheckDownloadType();
    }

    /** `update_download_status(t, status, name)` */
    method UpdateDownloadStatus(t: DownloadType, status: DownloadStatus, name: string)
      requires Valid()
      modifies this`success, this`failure, this`skip, this`currentTaskNum
      ensures Valid()
      ensures StatsOf() == Record(old(StatsOf()), t, status, name)
    {
      match status {
        case Success => success := success[t := success[t] + {name}];
        case Failure => failure := failure[t := failure[t] + {name}];
        case Skip => skip := skip[t := skip[t] + {name}];
        case Downloading => currentTaskNum := currentTaskNum + 1;
      }
      if failure[t] != {} && success[t] != {} {
        failure := failure[t := failure[t] - success[t]];
      }
    }

    /** `get_file_type(message, name, status)`: records the status under the
        last media kind the message carries and reports that kind. */
    method GetFileType(m: Message, name: string, status: DownloadStatus) returns (t: DownloadType)
      requires Valid() && LastMediaType(m).Some?
      modifies this`success, this`failure, this`skip, this`currentTaskNum
      ensures Valid()
      ensures t == LastMediaType(m).value
      ensures StatsOf() == Record(old(StatsOf()), t, status, name)
    {
      t := LastMediaType(m).value;
      UpdateDownloadStatus(t, status, name);
    }

    /** `check_download_type` as written: removing while iterating skips the
        entry after each removed one. */
    method CheckDownloadTypeAsWritten()
      modifies this`downloadType, this`savedDownloadType
      ensures downloadType == Settle(IterRemove(old(downloadType), 0))
      ensures savedDownloadType == if IterRemove(old(downloadType), 0) == [] then Some(AllTypeNames()) else old(savedDownloadType)
    {
      downloadType := RemoveWhileIterating(downloadType);
      if downloadType == [] {
        downloadType := AllTypeNames();
        savedDownloadType := Some(downloadType);
      }
    }

    /** `check_download_type` with every unsupported entry removed; an empty
        result is replaced by all kinds and saved. */
    method CheckDownloadType()
      modifies this`downloadType, this`savedDownloadType
      ensures downloadType == Settle(Supported(old(downloadType)))
      ensures savedDownloadType == if Supported(old(downloadType)) == [] then Some(AllTypeNames()) else old(savedDownloadType)
    {
      downloadType := KeepSupported(downloadType);
      if downloadType == [] {
        downloadType := AllTypeNames();
        savedDownloadType := Some(downloadType);
      }
    }
  }

  /** The loop of `check_download_type` as written, on the list `l`. */
  method RemoveWhileIterating(l: seq<string>) returns (r: seq<string>)
    ensures r == IterRemove(l, 0)
  {
    r := l;
    var i := 0;
    while i < |r|
      invariant IterRemove(r, i) == IterRemove(l, 0)
      decreases |r| - i
    {
      var x := r[i];
      i := i + 1;
      if !IsTypeName(x) {
        r := RemoveFirst(r, x);
      }
    }
  }

  /** The loop of `check_download_type` keeping each supported entry of
      `l`. */
  method KeepSupported(l: seq<string>) returns (kept: seq<string>)
    ensures kept == Supported(l)
  {
    kept := [];
    var i := 0;
    while i < |l|
      invariant 0 <= i <= |l|
      invariant Supported(l) == kept + Supported(l[i..])
    {
      SupportedStep(l, i, kept);
      if IsTypeName(l[i]) {
        kept := kept + [l[i]];
      }
      i := i + 1;
    }
    assert l[i..] == [];
  }

  /** One entry of the loop of `KeepSupported`. */
  lemma SupportedStep(l: seq<string>, i: nat, kept: seq<string>)
    requires i < |l|
    ensures kept + Supported(l[i..])
            == (if IsTypeName(l[i]) then kept + [l[i]] else kept) + Supported(l[i + 1..])
  {
    assert l[i..] == [l[i]] + l[i + 1..];
    assert l[i..][1..] == l[i + 1..];
  }

  // ---------------------------------------------------------------------
  // File names (DownloadFileName)
  // ---------------------------------------------------------------------

  /** The opaque `get_extension(file_id, mime_type, dot=False)`. */
  type ExtensionOf = (string, Option<string>) -> string

  /** `"{message.id} - "`, the head every generated name starts with. */
  function NameHead(m: Message): string {
    NatToString(m.id) + " - "
  }

  /** The title `get_video_filename` uses: `"None"` for a missing name or one
      starting with `video_` in any case, else the name without extension. */
  function VideoTitle(fileName: Option<string>): string {
    if fileName.None? || StartsWith(Lower(fileName.value), "video_") then "None"
    else SplitExt(fileName.value).0
  }

  /** `get_video_filename` */
  function GetVideoFilename(m: Message, dt: DownloadType, getExt: ExtensionOf): (r: string)
    requires dt in m.media
    ensures StartsWith(r, NameHead(m)) && StartsWith(r, NameHead(m) + VideoTitle(m.media[dt].fileName) + ".")
    ensures EndsWith(r, "." + getExt(m.media[dt].fileId, MimeOr(m.media[dt].mimeType, "video/mp4")))
  {
    var media := m.media[dt];
    var head := NameHead(m) + VideoTitle(media.fileName) + ".";
    var ext := getExt(media.fileId, MimeOr(media.mimeType, "video/mp4"));
    assert (head + ext)[..|head|] == head;
    assert (head + ext)[..|NameHead(m)|] == NameHead(m);
    assert (head + ext)[|head + ext| - |"." + ext|..] == "." + ext;
    head + ext
  }

  /** `get_photo_filename` */
  function GetPhotoFilename(m: Message, dt: DownloadType, getExt: ExtensionOf): (r: string)
    requires dt in m.media
    ensures StartsWith(r, NameHead(m)) && StartsWith(r, NameHead(m) + m.media[dt].fileUniqueId + ".")
    ensures dt == Photo ==> EndsWith(r, "." + getExt(m.media[dt].fileId, Some("image/jpg")))
    ensures dt == Document ==> EndsWith(r, "." + getExt(m.media[dt].fileId, MimeOr(m.media[dt].mimeType, "image/jpg")))
    ensures dt != Photo && dt != Document ==> EndsWith(r, ".unknown")
  {
    var media := m.media[dt];
    var ext :=
      if dt == Photo then getExt(media.fileId, Some("image/jpg"))
      else if dt == Document then getExt(media.fileId, MimeOr(media.mimeType, "image/jpg"))
      else "unknown";
    var head := NameHead(m) + media.fileUniqueId + ".";
    assert (head + ext)[..|head|] == head;
    assert (head + ext)[..|NameHead(m)|] == NameHead(m);
    assert (head + ext)[|head + ext| - |"." + ext|..] == "." + ext;
    head + ext
  }

  /** `get_filename`: the original name's full extension, or `get_extension`
      when that is missing or empty; `None` when the media object has no
      `mime_type` attribute (the exception is logged and swallowed). */
  function GetFilename(m: Message, dt: DownloadType, getExt: ExtensionOf): (r: Option<string>)
    requires dt in m.media
    ensures r.None? <==> m.media[dt].mimeType.NoMime?
    ensures r.Some? ==> StartsWith(r.value, NameHead(m) + m.media[dt].fileUniqueId + ".")
  {
    var media := m.media[dt];
    if media.mimeType.NoMime? then None
    else
      var origin :=
        if media.fileName.Some? && media.fileName.value != [] then ExtractFullExtension(media.fileName)
        else None;
      var ext :=
        if origin.None? || origin.value == [] then getExt(media.fileId, MimeOr(media.mimeType, ""))
        else origin.value;
      var head := NameHead(m) + media.fileUniqueId + ".";
      assert (head + ext)[..|head|] == head;
      Some(head + ext)
  }

  /** The fallback name `"{id} - {now}.unknown"`. */
  function TimestampName(m: Message, now: string): (r: string)
    ensures StartsWith(r, NameHead(m) + now) && EndsWith(r, ".unknown")
  {
    var head := NameHead(m) + now;
    assert (head + ".unknown")[..|head|] == head;
    assert (head + ".unknown")[|head| ..] == ".unknown";
    head + ".unknown"
  }

  /** `get_document_filename`: dispatch on the MIME type. A missing or `None`
      MIME type raises inside the `try` and yields the timestamp name; an
      empty one yields nothing (`None`). */
  function GetDocumentFilename(m: Message, dt: DownloadType, getExt: ExtensionOf, now: string): (r: Option<string>)
    requires dt in m.media
    ensures r.None? <==> m.media[dt].mimeType == Mime("")
    ensures r.Some? ==> StartsWith(r.value, NameHead(m)) || Some(r.value) == m.media[dt].fileName
    ensures !m.media[dt].mimeType.Mime? ==> r == Some(TimestampName(m, now))
    ensures m.media[dt].mimeType.Mime? && Contains(m.media[dt].mimeType.text, "video") ==>
              r == Some(GetVideoFilename(m, dt, getExt))
    ensures m.media[dt].mimeType.Mime? && !Contains(m.media[dt].mimeType.text, "video")
            && Contains(m.media[dt].mimeType.text, "image") ==>
              r == Some(GetPhotoFilename(m, dt, getExt))
  {
    var media := m.media[dt];
    match media.mimeType
    case NoMime => Some(TimestampName(m, now))
    case NullMime => Some(TimestampName(m, now))
    case Mime(mime) =>
      if Contains(mime, "video") then Some(GetVideoFilename(m, dt, getExt))
      else if Contains(mime, "image") then Some(GetPhotoFilename(m, dt, getExt))
      else if mime != [] then
        if media.fileName.Some? && media.fileName.value != [] && IsCompressedFile(media.fileName) then
          media.fileName
        else
          var r := GetFilename(m, dt, getExt);
          assert r.Some?;
          r
      else None
  }

  /** Directory for temporary files of a message: per chat when the chat id
      can be read. A directory without a trailing slash gives one. */
  function TempDirectory(m: Message, tempDirectory: string): (r: string)
    ensures m.chat.None? ==> r == tempDirectory
    ensures m.chat.Some? ==> StartsWith(r, tempDirectory) && EndsWith(r, IntToString(m.chat.value))
    ensures NoTrailingSlash(tempDirectory) ==> NoTrailingSlash(r)
  {
    if m.chat.Some? then
      var id := IntToString(m.chat.value);
      IntToStringHasNoSlash(m.chat.value);
      assert !StartsWith(id, "/") by { assert id[..1][0] == id[0]; }
      var r := JoinPath(tempDirectory, id);
      assert r[|r| - 1] == r[|r| - |id|..][|id| - 1];
      r
    else tempDirectory
  }

  /** A path that is empty or does not end in `/`. */
  predicate NoTrailingSlash(p: string) {
    p == [] || p[|p| - 1] != '/'
  }

  lemma IntToStringHasNoSlash(n: int)
    ensures forall i :: 0 <= i < |IntToString(n)| ==> IntToString(n)[i] != '/'
  {
    var d := NatToString(if n < 0 then -n else n);
    assert AllDigits(d);
    if n < 0 {
      assert IntToString(n) == "-" + d;
      assert forall i :: 1 <= i < |IntToString(n)| ==> IntToString(n)[i] == d[i - 1];
    }
  }

  /** Where `get_temp_file_path` stores a derived name: sanitised, placed
      in the chat's temporary directory, and truncated to 230 bytes. */
  function TempPathOf(m: Message, tempDirectory: string, name: string, normpath: string -> string): string {
    TruncateFilename(JoinPath(TempDirectory(m, tempDirectory), ValidateTitle(name)), 230, normpath)
  }

  /** `get_temp_file_path(message, dtype)`: the name derived for the kind,
      stored by `TempPathOf`. `None` stands for the exception
      `validate_title(None)` raises when the derivation yields `None`: an
      empty MIME type for a document, a missing one for an audio, voice or
      animation. */
  function GetTempFilePath(m: Message, dtype: Option<DownloadType>, tempDirectory: string,
                           getExt: ExtensionOf, now: string, normpath: string -> string): (r: Option<string>)
    requires dtype.Some? ==> dtype.value in m.media
    ensures dtype == Some(Video) ==> r == Some(TempPathOf(m, tempDirectory, GetVideoFilename(m, Video, getExt), normpath))
    ensures dtype == Some(Photo) ==> r == Some(TempPathOf(m, tempDirectory, GetPhotoFilename(m, Photo, getExt), normpath))
    ensures dtype == Some(Document) ==>
              && r.Some? == GetDocumentFilename(m, Document, getExt, now).Some?
              && (r.Some? ==> r.value == TempPathOf(m, tempDirectory, GetDocumentFilename(m, Document, getExt, now).value, normpath))
    ensures (dtype == Some(Audio) || dtype == Some(Voice) || dtype == Some(Animation)) ==>
              && r.Some? == GetFilename(m, dtype.value, getExt).Some?
              && (r.Some? ==> r.value == TempPathOf(m, tempDirectory, GetFilename(m, dtype.value, getExt).value, normpath))
    ensures dtype.None? ==> r == Some(TempPathOf(m, tempDirectory, TimestampName(m, now), normpath))
    ensures r.None? <==> (dtype == Some(Document) && m.media[Document].mimeType == Mime(""))
                         || ((dtype == Some(Audio) || dtype == Some(Voice) || dtype == Some(Animation))
                             && m.media[dtype.value].mimeType.NoMime?)
  {
    var name :=
      match dtype
      case Some(Video) => Some(GetVideoFilename(m, Video, getExt))
      case Some(Photo) => Some(GetPhotoFilename(m, Photo, getExt))
      case Some(Document) => GetDocumentFilename(m, Document, getExt, now)
      case Some(t) => GetFilename(m, t, getExt)
      case None => Some(TimestampName(m, now));
    if name.None? then None else Some(TempPathOf(m, tempDirectory, name.value, normpath))
  }

  /** The last component `truncate_filename` leaves of a plain name `v`:
      the stem cut to the byte budget, then the extension. */
  function CutName(v: string, limit: int): string {
    var stem := SplitExt(v);
    Utf8Prefix(stem.0, StemBudget(limit, ByteLen(stem.1), ByteLen(stem.0))) + stem.1
  }

  /** The cut name keeps the extension and a prefix of the stem, takes its
      characters from the name, fits the limit when the extension does, and
      is the whole name when that fits. */
  lemma CutNameShape(v: string, limit: int)
    ensures var ext := SplitExt(v).1;
            var c := CutName(v, limit);
            && EndsWith(c, ext) && StartsWith(v, c[..|c| - |ext|])
            && (forall i :: 0 <= i < |c| ==> c[i] in v)
            && (ByteLen(ext) <= limit ==> ByteLen(c) <= limit)
            && (ByteLen(v) <= limit ==> c == v)
  {
    var stem := SplitExt(v);
    var t := Utf8Prefix(stem.0, StemBudget(limit, ByteLen(stem.1), ByteLen(stem.0)));
    var c := t + stem.1;
    assert stem.0 == v[..|stem.0|];
    assert t == v[..|t|];
    assert c[|c| - |stem.1|..] == stem.1;
    assert c[..|c| - |stem.1|] == t;
    forall i | 0 <= i < |c| ensures c[i] in v {
      if i < |t| {
        assert c[i] == v[i];
      } else {
        assert c[i] == v[|stem.0| + i - |t|];
      }
    }
    ByteLenAppend(t, stem.1);
    if ByteLen(v) <= limit {
      ByteLenAppend(stem.0, stem.1);
      Utf8PrefixWhole(stem.0, StemBudget(limit, ByteLen(stem.1), ByteLen(stem.0)));
    }
  }

  /** Truncating a plain name joined to a directory, when `normpath` leaves
      the joined path as it is, cuts the name and keeps the directory. */
  lemma TruncateJoined(dir: string, v: string, limit: int, normpath: string -> string)
    requires NoTrailingSlash(dir) && '/' !in v
    requires normpath(JoinPath(dir, v)) == JoinPath(dir, v)
    ensures TruncateFilename(JoinPath(dir, v), limit, normpath) == JoinPath(dir, CutName(v, limit))
  {
    SplitJoin(dir, v);
  }

  /** Cutting a name free of forbidden characters leaves one free of
      them. */
  lemma CutNameSafe(v: string, limit: int)
    requires forall i :: 0 <= i < |v| ==> !Forbidden(v[i])
    ensures forall i :: 0 <= i < |CutName(v, limit)| ==> !Forbidden(CutName(v, limit)[i])
  {
    var c := CutName(v, limit);
    CutNameShape(v, limit);
    forall i | 0 <= i < |c| ensures !Forbidden(c[i]) {
      var j :| 0 <= j < |v| && v[j] == c[i];
    }
  }

  /** A name free of forbidden characters, truncated in a directory
      without trailing slash, stays in that directory. */
  lemma StoredSplit(dir: string, v: string, normpath: string -> string)
    requires NoTrailingSlash(dir)
    requires forall i :: 0 <= i < |v| ==> !Forbidden(v[i])
    requires normpath(JoinPath(dir, v)) == JoinPath(dir, v)
    ensures SplitPath(TruncateFilename(JoinPath(dir, v), 230, normpath)) == (dir, CutName(v, 230))
  {
    assert '/' !in v by {
      forall i | 0 <= i < |v| ensures v[i] != '/' { assert !Forbidden(v[i]); }
    }
    TruncateJoined(dir, v, 230, normpath);
    var c := CutName(v, 230);
    CutNameSafe(v, 230);
    assert '/' !in c by {
      forall i | 0 <= i < |c| ensures c[i] != '/' { assert !Forbidden(c[i]); }
    }
    SplitJoin(dir, c);
  }

  /** The stored path lies directly in the chat's temporary directory, and
      its last component holds no character `validate_title` forbids. That
      component is the sanitised name with its stem cut short: it keeps the
      extension, fits 230 bytes when the extension does, and is the whole
      sanitised name when that fits. `normpath` is taken to leave the joined
      path as it is, as it does for a normal directory and a plain name. */
  lemma TempPathShape(m: Message, tempDirectory: string, name: string, normpath: string -> string)
    requires NoTrailingSlash(tempDirectory)
    requires var p := JoinPath(TempDirectory(m, tempDirectory), ValidateTitle(name)); normpath(p) == p
    ensures var v := ValidateTitle(name);
            var ext := SplitExt(v).1;
            var parts := SplitPath(TempPathOf(m, tempDirectory, name, normpath));
            && parts.0 == TempDirectory(m, tempDirectory)
            && (forall i :: 0 <= i < |parts.1| ==> !Forbidden(parts.1[i]))
            && EndsWith(parts.1, ext) && StartsWith(v, parts.1[..|parts.1| - |ext|])
            && (ByteLen(ext) <= 230 ==> ByteLen(parts.1) <= 230)
            && (ByteLen(v) <= 230 ==> parts.1 == v)
  {
    ValidateTitleSafe(name);
    StoredSplit(TempDirectory(m, tempDirectory), ValidateTitle(name), normpath);
    CutNameSafe(ValidateTitle(name), 230);
    CutNameShape(ValidateTitle(name), 230);
  }

  // ---------------------------------------------------------------------
  // Reading a generated name back
  // ---------------------------------------------------------------------

  /** The leading run of decimal digits of `s`. */
  function LeadingDigits(s: string): (r: string)
    ensures |r| <= |s| && r == s[..|r|]
    ensures forall i :: 0 <= i < |r| ==> IsDigit(r[i])
  {
    if s != [] && IsDigit(s[0]) then [s[0]] + LeadingDigits(s[1..]) else []
  }

  lemma {:induction false} LeadingDigitsOf(d: string, rest: string)
    requires forall i :: 0 <= i < |d| ==> IsDigit(d[i])
    requires rest == [] || !IsDigit(rest[0])
    ensures LeadingDigits(d + rest) == d
  {
    if d != [] {
      assert (d + rest)[1..] == d[1..] + rest;
      LeadingDigitsOf(d[1..], rest);
    } else {
      assert d + rest == rest;
    }
  }

  /** The number a generated name starts with is the message id. */
  lemma IdReadBack(m: Message, rest: string)
    ensures DigitsValue(LeadingDigits(NameHead(m) + rest)) == m.id
  {
    var d := NatToString(m.id);
    assert NameHead(m) + rest == d + (" - " + rest);
    LeadingDigitsOf(d, " - " + rest);
    NatToStringRoundTrip(m.id);
  }

  /** A video saved under a plain title keeps the extension `get_extension`
      chose, and its title is `"None"` for default-named clips. */
  lemma VideoNameParts(m: Message, dt: DownloadType, getExt: ExtensionOf)
    requires dt in m.media
    requires var media := m.media[dt];
             var e := getExt(media.fileId, MimeOr(media.mimeType, "video/mp4"));
             '/' !in VideoTitle(media.fileName) && '.' !in e && '/' !in e
    ensures var media := m.media[dt];
            var e := getExt(media.fileId, MimeOr(media.mimeType, "video/mp4"));
            SplitExt(GetVideoFilename(m, dt, getExt)) == (NameHead(m) + VideoTitle(media.fileName), "." + e)
    ensures var n := m.media[dt].fileName;
            n.None? || StartsWith(Lower(n.value), "video_") ==> VideoTitle(n) == "None"
  {
    var media := m.media[dt];
    var e := getExt(media.fileId, MimeOr(media.mimeType, "video/mp4"));
    var root := NameHead(m) + VideoTitle(media.fileName);
    assert root[0] == NatToString(m.id)[0];
    assert IsDigit(root[0]);
    assert '/' !in root by {
      assert forall i :: 0 <= i < |NatToString(m.id)| ==> root[i] == NatToString(m.id)[i];
      assert forall i :: |NatToString(m.id)| <= i < |NameHead(m)| ==> root[i] in " - ";
    }
    SplitExtOf(root, e);
  }

  /** A document keeps a compressed original name verbatim. */
  lemma CompressedDocumentKeepsName(m: Message, dt: DownloadType, getExt: ExtensionOf, now: string)
    requires dt in m.media
    requires var media := m.media[dt];
             media.mimeType.Mime? && media.mimeType.text != []
             && !Contains(media.mimeType.text, "video") && !Contains(media.mimeType.text, "image")
             && media.fileName.Some? && media.fileName.value != [] && IsCompressedFile(media.fileName)
    ensures GetDocumentFilename(m, dt, getExt, now) == m.media[dt].fileName
  {
  }

  /** `get_filename` keeps the full extension of the original name when there
      is one. */
  lemma FilenameKeepsOriginalExtension(m: Message, dt: DownloadType, getExt: ExtensionOf)
    requires dt in m.media && !m.media[dt].mimeType.NoMime?
    requires var n := m.media[dt].fileName;
             n.Some? && n.value != [] && ExtractFullExtension(n).Some? && ExtractFullExtension(n).value != []
    ensures var n := m.media[dt].fileName;
            var e := ExtractFullExtension(n).value;
            GetFilename(m, dt, getExt) == Some(NameHead(m) + m.media[dt].fileUniqueId + "." + e)
            && EndsWith(Strip(n.value), "." + e)
  {
  }
}
