/** The download pipeline of `Downloader`: the per-item type gate and
    duplicate check of `__add_task`, the size check after a download, the
    success / retry / give-up completion callback with its task counter, and
    the result record of `create_download_task`. */
module Downloader {
  import opened Common
  import opened Telegram
  import opened PathTool
  import opened App
  import opened Task
  import opened Resume

  /** What a resolved link yields: one message, or the messages of an album
      or range. */
  datatype Items = One(m: Message) | Many(ms: seq<Message>)

  /** The `retry` argument: the id of the item to retry and the number of
      attempts made before this one. */
  datatype Retry = Retry(id: int, count: int)

  /** A retry the completion callback schedules:
      `create_download_task(message_ids=link, retry=...)`. */
  datatype RetryRequest = RetryRequest(link: string, retry: Retry)

  /** `get_media_meta(message, dtype)` without the display size. */
  datatype MediaMeta = MediaMeta(fileId: int, tempPath: string, serverSize: nat, fileName: string, saveDirectory: string)

  /** A download in flight, with the arguments its completion callback is
      bound to. */
  datatype Job = Job(message: Message, link: string, fileName: string, tempPath: string,
                     serverSize: nat, retryCount: int, fileId: int)

  /** What `__add_task` does with one message. */
  datatype Plan =
    | Raise                       // the file name cannot be derived: the exception propagates
    | Duplicate(meta: MediaMeta)  // the file is already in the save directory
    | Enqueue(meta: MediaMeta)    // a download is started
    | SkipNamed(name: string)     // not a configured kind; the error is filed under the name
    | SkipAll                     // not a configured kind and no name; filed under "all_member"

  /** How a finished download is handled. */
  datatype Verdict = Done | Again | GiveUp

  /** The branch `download_complete_callback` takes for a real download,
      from the local size it finds. */
  function JobVerdict(localSize: nat, serverSize: nat, retryCount: int, maxRetries: int): (v: Verdict)
    ensures v == Done <==> localSize == serverSize
    ensures v == Again <==> localSize != serverSize && retryCount < maxRetries
  {
    if CompareFileSize(localSize, serverSize) then Done
    else if retryCount < maxRetries then Again
    else GiveUp
  }

  /** The error filed when the retries are used up, with the trailing full
      stop removed. */
  function GiveUpError(maxRetries: int): string {
    "(达到最大重试次数:" + IntToString(maxRetries) + "次)"
  }

  /** The error filed for an item of a kind that is not configured. */
  const SkipError: string := "不支持或被忽略的类型(已取消)"

  /** Retry bookkeeping over a run of attempts: `sizes[k]` is the local size
      found after the attempt made with retry count `count + k`. The result
      is the verdict that ends the run and the number of attempts it took;
      `Again` when the sizes run out first. */
  function Attempts(sizes: seq<nat>, serverSize: nat, count: int, maxRetries: int): (Verdict, nat)
    decreases |sizes|
  {
    if sizes == [] then (Again, 0)
    else
      var v := JobVerdict(sizes[0], serverSize, count, maxRetries);
      if v == Again then
        var (w, n) := Attempts(sizes[1..], serverSize, count + 1, maxRetries);
        (w, n + 1)
      else (v, 1)
  }

  /** An item whose size never matches is given up after exactly
      `max_download_retries + 1` attempts. */
  lemma {:induction false} GiveUpAfterMaxRetries(sizes: seq<nat>, serverSize: nat, count: int, maxRetries: int)
    requires 0 <= count <= maxRetries
    requires |sizes| >= maxRetries + 1 - count
    requires forall k :: 0 <= k < |sizes| ==> sizes[k] != serverSize
    ensures Attempts(sizes, serverSize, count, maxRetries) == (GiveUp, (maxRetries + 1 - count) as nat)
  {
    if count < maxRetries {
      GiveUpAfterMaxRetries(sizes[1..], serverSize, count + 1, maxRetries);
    }
  }

  /** An item whose size first matches on attempt `k` (counting from 0) with
      `k <= max_download_retries` completes after `k + 1` attempts. */
  lemma {:induction false} DoneOnFirstMatch(sizes: seq<nat>, serverSize: nat, count: int, maxRetries: int, k: nat)
    requires 0 <= count && k < |sizes| && count + k <= maxRetries
    requires sizes[k] == serverSize
    requires forall j :: 0 <= j < k ==> sizes[j] != serverSize
    ensures Attempts(sizes, serverSize, count, maxRetries) == (Done, k + 1)
  {
    if k > 0 {
      DoneOnFirstMatch(sizes[1..], serverSize, count + 1, maxRetries, k - 1);
    }
  }

  /** The messages of a list `__add_task` goes on to: all of them on a first
      attempt; on a retry only the first whose id is the retried one. */
  function Selection(ms: seq<Message>, retry: Retry): seq<Message> {
    if retry.count == 0 || ms == [] then ms
    else if ms[0].id == retry.id then [ms[0]]
    else Selection(ms[1..], retry)
  }

  /** A retry processes at most one message: the first one carrying the
      retried id, and none when no message carries it. */
  lemma {:induction false} SelectionOnRetry(ms: seq<Message>, retry: Retry)
    requires retry.count != 0
    ensures |Selection(ms, retry)| <= 1
    ensures Selection(ms, retry) == [] <==> forall i :: 0 <= i < |ms| ==> ms[i].id != retry.id
    ensures Selection(ms, retry) != [] ==>
              exists i :: 0 <= i < |ms| && ms[i] == Selection(ms, retry)[0] && ms[i].id == retry.id
                          && forall j :: 0 <= j < i ==> ms[j].id != retry.id
  {
    if ms != [] && ms[0].id != retry.id {
      SelectionOnRetry(ms[1..], retry);
      var s := Selection(ms[1..], retry);
      assert forall i :: 1 <= i < |ms| ==> ms[i] == ms[1..][i - 1];
      if s != [] {
        var i :| 0 <= i < |ms[1..]| && ms[1..][i] == s[0] && ms[1..][i].id == retry.id
                 && forall j :: 0 <= j < i ==> ms[1..][j].id != retry.id;
        assert ms[i + 1] == s[0];
        assert forall j :: 0 <= j < i + 1 ==> ms[j].id != retry.id by {
          forall j | 0 <= j < i + 1 ensures ms[j].id != retry.id {
            if j > 0 { assert ms[j] == ms[1..][j - 1]; }
          }
        }
      }
    } else if ms != [] {
      assert ms[0] == Selection(ms, retry)[0];
    }
  }

  /** The loop of `__add_task` over a message list: the messages it hands
      on, with the early `break` after the retried one. */
  method SelectMessages(ms: seq<Message>, retry: Retry) returns (sel: seq<Message>)
    ensures sel == Selection(ms, retry)
    ensures retry.count == 0 ==> sel == ms
  {
    sel := [];
    var i := 0;
    while i < |ms|
      invariant 0 <= i <= |ms|
      invariant retry.count == 0 ==> sel == ms[..i]
      invariant retry.count != 0 ==> sel == [] && Selection(ms, retry) == Selection(ms[i..], retry)
    {
      if retry.count != 0 {
        if ms[i].id == retry.id {
          sel := [ms[i]];
          assert ms[i..][0] == ms[i];
          return;
        }
        assert ms[i..][1..] == ms[i + 1..];
      } else {
        sel := sel + [ms[i]];
        assert ms[..i + 1] == ms[..i] + [ms[i]];
      }
      i := i + 1;
    }
    assert ms[..i] == ms;
  }

  /** The result record of `create_download_task`. */
  datatype TaskResult = TaskResult(chatId: Option<int>, memberNum: int, linkType: Option<LinkType>,
                                   status: DownloadStatus, eCode: Option<map<string, string>>)

  /** What resolving a link gave: its kind, chat, messages and member count,
      or an exception: its text and the explanation the source pairs with
      its class. */
  datatype Resolution =
    | Resolved(linkType: LinkType, chat: int, items: Items, memberNum: int)
    | Raised(error: string, reason: string)

  /** The failure record: no chat, no members, the error under
      `"all_member"` and the explanation under `"error_msg"`. */
  function FailureResult(error: string, reason: string): (r: TaskResult)
    ensures r.status == Failure && r.chatId.None? && r.memberNum == 0 && r.linkType.None?
    ensures r.eCode.Some? && r.eCode.value.Keys == {"all_member", "error_msg"}
    ensures r.eCode.value["all_member"] == error && r.eCode.value["error_msg"] == reason
  {
    TaskResult(None, 0, None, Failure, Some(map["all_member" := error, "error_msg" := reason]))
  }

  /** The explanation paired with an exception no handler names. */
  const UnlistedError: string := "未收录到的错误"

  /** The job a started download is bound to. */
  function JobOf(m: Message, link: string, meta: MediaMeta, retryCount: int): Job {
    Job(m, link, meta.fileName, meta.tempPath, meta.serverSize, retryCount, meta.fileId)
  }

  /** The downloads `__add_task` starts for a run of messages and the
      branch it takes for each, in order. */
  function Started(ms: seq<Message>, plans: seq<Plan>, link: string, count: int): seq<Job>
    requires |plans| == |ms|
  {
    if ms == [] then []
    else
      Started(ms[..|ms| - 1], plans[..|ms| - 1], link, count) +
      (if plans[|ms| - 1].Enqueue? then [JobOf(ms[|ms| - 1], link, plans[|ms| - 1].meta, count)] else [])
  }

  /** `f` applied to every element of `s`, in order. */
  function MapSeq<A, B>(s: seq<A>, f: A -> B): (r: seq<B>)
    ensures |r| == |s| && forall k :: 0 <= k < |s| ==> r[k] == f(s[k])
  {
    seq(|s|, k requires 0 <= k < |s| => f(s[k]))
  }

  lemma MapSeqPrefix<A, B>(s: seq<A>, k: nat, f: A -> B)
    requires k <= |s|
    ensures MapSeq(s[..k], f) == MapSeq(s, f)[..k]
  {
  }

  lemma MapSeqStep<A, B>(s: seq<A>, i: nat, f: A -> B)
    requires i < |s|
    ensures MapSeq(s[..i + 1], f) == MapSeq(s[..i], f) + [f(s[i])]
  {
    assert MapSeq(s[..i + 1], f)[..i] == MapSeq(s[..i], f);
  }

  /** A plan that does not raise keeps a run free of raises. */
  lemma NoneRaisesStep(plans: seq<Plan>, plan: Plan)
    requires NoneRaises(plans) && !plan.Raise?
    ensures NoneRaises(plans + [plan])
  {
    forall k | 0 <= k < |plans| + 1
      ensures !(plans + [plan])[k].Raise?
    {
      if k < |plans| {
        assert (plans + [plan])[k] == plans[k];
      }
    }
  }

  /** One message further along the run adds its download, if its plan
      starts one. */
  lemma StartedStep(sel: seq<Message>, i: nat, plans: seq<Plan>, plan: Plan, link: string, count: int, before: seq<Job>)
    requires i < |sel| && |plans| == i
    ensures before + Started(sel[..i], plans, link, count)
              + (if plan.Enqueue? then [JobOf(sel[i], link, plan.meta, count)] else [])
            == before + Started(sel[..i + 1], plans + [plan], link, count)
  {
    assert sel[..i + 1][..i] == sel[..i] && (plans + [plan])[..i] == plans;
  }

  /** No message of the run makes `__add_task` raise. */
  predicate NoneRaises(plans: seq<Plan>) {
    forall i :: 0 <= i < |plans| ==> !plans[i].Raise?
  }

  /** `on_create_task` opening the record of a target, as the downloader
      uses it: the corrected hook, which zeroes the record on a first
      attempt and keeps it on a retry. */
  method OpenTask(r: Registry, t: Target, retryCount: int, canonMessage: Message -> string, canonLink: string -> string)
    returns (key: Key)
    modifies r
    ensures fresh(r.linkInfo.Values - old(r.linkInfo.Values))
    ensures key == TargetKey(t, canonMessage, canonLink) && key in r.linkInfo
    ensures retryCount > 0 && key in old(r.linkInfo) ==> r.View() == old(r.View())
    ensures !(retryCount > 0 && key in old(r.linkInfo)) ==> r.View()[key] == DefaultMeta()
    ensures r.completeLink == old(r.completeLink)
  {
    key := r.BeginCreateKeeping(t, retryCount, canonMessage, canonLink);
  }

  /** The two `DownloadTask.set` calls of `create_download_task`: the link
      type and the member count read back for the key. */
  method SetLinkMeta(r: Registry, key: Key, linkType: LinkType, memberNum: int)
    modifies r, r.linkInfo.Values
    ensures fresh(r.linkInfo.Values - old(r.linkInfo.Values))
    ensures key in r.linkInfo && old(r.linkInfo.Keys) <= r.linkInfo.Keys
    ensures r.View()[key].linkType == Some(linkType) && r.View()[key].memberNum == memberNum
    ensures r.completeLink == old(r.completeLink)
  {
    r.Set(key, LinkTypeField, LinkTypeValue(Some(linkType)));
    ghost var m1 := r.View()[key];
    assert m1 == Assign(WithDefault(old(r.View()), key)[key], LinkTypeField, LinkTypeValue(Some(linkType)));
    r.Set(key, MemberNumField, Num(memberNum));
    assert r.View()[key] == Assign(m1, MemberNumField, Num(memberNum));
    assert Read(r.View()[key], LinkTypeField) == Read(m1, LinkTypeField);
  }

  /** `on_create_task` filing a failed creation: the record's `error_msg`
      becomes the failure's `e_code`. */
  method RecordFailure(r: Registry, key: Key, eCode: map<string, string>)
    modifies r, r.linkInfo.Values
    ensures fresh(r.linkInfo.Values - old(r.linkInfo.Values))
    ensures key in r.linkInfo && r.View()[key].errorMsg == eCode
    ensures r.completeLink == old(r.completeLink)
  {
    r.EndCreate(key, Failure, eCode);
  }

  /** The messages `__add_task` handles: a single message, or from a list
      every message on a first attempt and only the retried one on a
      retry. */
  function Selected(items: Items, retry: Retry): seq<Message> {
    match items
    case One(m) => [m]
    case Many(ms) => Selection(ms, retry)
  }

  /** What `create_download_task` resolves its target to: a message is a
      single-member link in its own chat, and one without a chat raises; a
      link string is what resolving it gave. */
  function Resolve(t: Target, resolution: Resolution, raisedText: string): (r: Resolution)
    ensures t.ByMessage? ==> (r.Resolved? <==> t.m.chat.Some?)
    ensures t.ByMessage? && r.Resolved? ==> r.items == One(t.m) && r.memberNum == 1 && r.chat == t.m.chat.value
    ensures t.ByMessage? && r.Raised? ==> r.reason == UnlistedError
    ensures t.ByLink? ==> r == resolution
  {
    match t
    case ByMessage(m) =>
      if m.chat.Some? then Resolved(Single, m.chat.value, One(m), 1) else Raised(raisedText, UnlistedError)
    case ByLink(_) => resolution
  }

  /** `DownloadTask.set_error` as the downloader uses it: the error is
      readable for the link afterwards, and nothing else the downloader
      relies on changes. */
  method FileError(r: Registry, link: string, value: string, errKey: Option<string>)
    modifies r, r.linkInfo.Values
    ensures fresh(r.linkInfo.Values - old(r.linkInfo.Values))
    ensures Link(link) in r.linkInfo && old(r.linkInfo.Keys) <= r.linkInfo.Keys
    ensures ErrorKey(errKey) in r.View()[Link(link)].errorMsg && r.View()[Link(link)].errorMsg[ErrorKey(errKey)] == value
    ensures r.completeLink == old(r.completeLink)
  {
    r.SetError(Link(link), value, errKey);
  }

  /** The `on_complete` hook as the downloader uses it: a reported item is
      filed for its link, and `COMPLETE_LINK` only grows. */
  method FileCompletion(r: Registry, res: Option<(string, string)>)
    modifies r, r.linkInfo.Values
    ensures fresh(r.linkInfo.Values - old(r.linkInfo.Values))
    ensures old(r.linkInfo.Keys) <= r.linkInfo.Keys
    ensures res.None? ==> r.linkInfo == old(r.linkInfo)
    ensures res.Some? ==> Link(res.value.0) in r.linkInfo && res.value.1 in r.View()[Link(res.value.0)].fileName
    ensures old(r.completeLink) <= r.completeLink
  {
    r.OnComplete(res);
  }

  /** The downloader's own state and its collaborators. */
  class Downloader {
    const app: Application
    const registry: Registry
    const fs: FileSystem
    /** `bot_task_link` */
    var botTaskLink: set<string>
    /** `bot_task_link_canon`: the canonical keys of the links the bot took on. */
    var botTaskLinkCanon: set<string>
    /** Downloads started and not yet finished. */
    var inflight: seq<Job>
    /** Retries scheduled by the completion callback, in order. */
    var retries: seq<RetryRequest>

    /** `self.app.get_temp_file_path`, for a kind the message carries;
        the constructor binds it to `GetTempFilePath` with the
        application's temporary directory. */
    const tempPathOf: (Message, DownloadType) -> Option<string>
    /** `env_save_directory(message)` */
    const envSaveDirectory: Message -> string
    /** `canonical_link_message` and `canonical_link_str` */
    const canonMessage: Message -> string
    const canonLink: string -> string

    /** The statistics are well formed, the task counter counts exactly the
        downloads in flight, and each of them carries a media kind. */
    ghost predicate Valid()
      reads this`inflight, app`success, app`failure, app`skip, app`currentTaskNum
    {
      && app.Valid()
      && app.currentTaskNum == |inflight|
      && forall j :: j in inflight ==> LastMediaType(j.message).Some?
    }

    constructor (app: Application, registry: Registry, fs: FileSystem, getExt: ExtensionOf, now: string,
                 normpath: string -> string, tempDirectory: string, envSaveDirectory: Message -> string,
                 canonMessage: Message -> string, canonLink: string -> string)
      requires app.Valid() && app.currentTaskNum == 0
      ensures Valid()
      ensures this.app == app && this.registry == registry && this.fs == fs
      ensures botTaskLink == {} && botTaskLinkCanon == {} && inflight == [] && retries == []
      ensures forall m: Message, t: DownloadType :: t in m.media ==>
                tempPathOf(m, t) == GetTempFilePath(m, Some(t), tempDirectory, getExt, now, normpath)
    {
      this.app := app;
      this.registry := registry;
      this.fs := fs;
      this.tempPathOf := (m: Message, t: DownloadType) =>
        if t in m.media then GetTempFilePath(m, Some(t), tempDirectory, getExt, now, normpath) else None;
      this.envSaveDirectory := envSaveDirectory;
      this.canonMessage := canonMessage;
      this.canonLink := canonLink;
      botTaskLink := {};
      botTaskLinkCanon := {};
      inflight := [];
      retries := [];
    }

    /** `get_media_meta(message, dtype)`; `None` where it raises: no kind,
        or no file name can be derived. */
    function MediaMetaOf(m: Message, dtype: Option<DownloadType>): (r: Option<MediaMeta>)
      ensures r.Some? ==> dtype.Some? && dtype.value in m.media
      ensures r.Some? ==> r.value.fileName == SplitPath(r.value.tempPath).1 && '/' !in r.value.fileName
      ensures r.Some? ==> r.value.saveDirectory == JoinPath(envSaveDirectory(m), r.value.fileName)
    {
      if dtype.None? || dtype.value !in m.media then None
      else
        var temp := tempPathOf(m, dtype.value);
        if temp.None? then None
        else
          var name := SplitPath(temp.value).1;
          Some(MediaMeta(m.id, temp.value, m.media[dtype.value].fileSize, name, JoinPath(envSaveDirectory(m), name)))
    }

    /** The branch `__add_task` takes for one message: the type gate looks at
        the first kind the message carries only. */
    function PlanFor(m: Message, effective: seq<string>, tree: map<string, Entry>): (p: Plan)
      ensures (p.Enqueue? || p.Duplicate? || p.Raise?) <==>
                FirstMediaType(m).Some? && TypeName(FirstMediaType(m).value) in effective
      ensures p.Raise? <==> FirstMediaType(m).Some? && TypeName(FirstMediaType(m).value) in effective
                            && MediaMetaOf(m, FirstMediaType(m)).None?
      ensures p.Duplicate? || p.Enqueue? ==> MediaMetaOf(m, FirstMediaType(m)) == Some(p.meta)
      ensures p.Duplicate? ==> IsFileDuplicate(tree, p.meta.saveDirectory, p.meta.serverSize)
      ensures p.Enqueue? ==> !IsFileDuplicate(tree, p.meta.saveDirectory, p.meta.serverSize)
      ensures p.SkipNamed? ==> MediaMetaOf(m, FirstMediaType(m)).Some? && p.name != []
    {
      var valid := FirstMediaType(m);
      var meta := MediaMetaOf(m, valid);
      if valid.Some? && TypeName(valid.value) in effective then
        if meta.None? then Raise
        else if IsFileDuplicate(tree, meta.value.saveDirectory, meta.value.serverSize) then Duplicate(meta.value)
        else Enqueue(meta.value)
      else if meta.Some? && meta.value.fileName != [] then SkipNamed(meta.value.fileName)
      else SkipAll
    }

    /** The list the type gate consults: the per-call list when one is
        given, else the configured one. */
    function Effective(diy: seq<string>): seq<string>
      reads app`downloadType
    {
      if diy != [] then diy else app.downloadType
    }


    /** A file that was downloaded in full and moved into the save directory
        is what the duplicate check of a later attempt for the same message
        finds: that attempt completes without downloading again. */
    lemma DuplicateAfterSuccess(m: Message, tree: map<string, Entry>)
      requires MediaMetaOf(m, FirstMediaType(m)).Some?
      requires var meta := MediaMetaOf(m, FirstMediaType(m)).value;
               IsFile(tree, meta.tempPath) && tree[meta.tempPath].size == meta.serverSize
      requires var meta := MediaMetaOf(m, FirstMediaType(m)).value;
               !IsFile(tree, envSaveDirectory(m)) && meta.saveDirectory !in tree
               && meta.saveDirectory != envSaveDirectory(m)
      ensures var meta := MediaMetaOf(m, FirstMediaType(m)).value;
              IsFileDuplicate(AfterMove(tree, meta.tempPath, envSaveDirectory(m)), meta.saveDirectory, meta.serverSize)
    {
      var meta := MediaMetaOf(m, FirstMediaType(m)).value;
      var after := AfterMove(tree, meta.tempPath, envSaveDirectory(m));
      assert meta.saveDirectory == JoinPath(envSaveDirectory(m), SplitPath(meta.tempPath).1);
      assert after[meta.saveDirectory] == tree[meta.tempPath];
    }

    /** `__check_download_finish`: the download is complete when the local
        size (the file, else its `.temp` file) equals the server's; then the
        file is moved to the save directory. The outcome is recorded in the
        statistics under the temporary path. */
    method CheckDownloadFinish(m: Message, serverSize: nat, tempPath: string, saveDirectory: string, withMove: bool)
      returns (ok: bool)
      requires app.Valid() && LastMediaType(m).Some?
      modifies app`success, app`failure, app`skip, app`currentTaskNum, fs
      ensures ok <==> GetFileSize(old(fs.tree), tempPath, ".temp") == serverSize
      ensures fs.tree == if ok && withMove then AfterMove(old(fs.tree), tempPath, saveDirectory) else old(fs.tree)
      ensures app.Valid()
      ensures app.StatsOf() == Record(old(app.StatsOf()), LastMediaType(m).value, if ok then Success else Failure, tempPath)
    {
      var local := GetFileSize(fs.tree, tempPath, ".temp");
      if CompareFileSize(local, serverSize) {
        if withMove {
          var _ := fs.MoveToSaveDirectory(tempPath, saveDirectory);
        }
        var _ := app.GetFileType(m, tempPath, Success);
        return true;
      }
      var _ := app.GetFileType(m, tempPath, Failure);
      ok := false;
    }

    /** The verdict for a job, from the tree the download left. */
    function VerdictOf(tree: map<string, Entry>, job: Job): Verdict
    {
      JobVerdict(GetFileSize(tree, job.tempPath, ".temp"), job.serverSize, job.retryCount, app.maxDownloadRetries)
    }

    /** `download_complete_callback` for a real download, up to filing the
        error: the counter drops by one in every branch; a complete file is
        moved to the save directory and reported; otherwise a retry is
        scheduled while retries remain, and else the failure is recorded and
        the link leaves `bot_task_link`. */
    method SettleJob(job: Job) returns (res: Option<(string, string)>)
      requires app.Valid() && LastMediaType(job.message).Some?
      modifies this`retries, this`botTaskLink, app`success, app`failure, app`skip, app`currentTaskNum, fs
      ensures app.Valid()
      ensures app.currentTaskNum == old(app.currentTaskNum) - 1
      ensures var v := VerdictOf(old(fs.tree), job);
              var t := LastMediaType(job.message).value;
              var s1 := Record(old(app.StatsOf()).(currentTaskNum := old(app.currentTaskNum) - 1), t,
                               if v == Done then Success else Failure, job.tempPath);
              && app.StatsOf() == (if v == GiveUp then Record(s1, t, Failure, job.fileName) else s1)
              && res == (if v == Done then Some((job.link, job.fileName)) else None)
              && fs.tree == (if v == Done then AfterMove(old(fs.tree), job.tempPath, envSaveDirectory(job.message))
                             else old(fs.tree))
              && retries == old(retries) + (if v == Again then [RetryRequest(job.link, Retry(job.fileId, job.retryCount + 1))]
                                            else [])
              && botTaskLink == old(botTaskLink) - (if v == GiveUp then {job.link} else {})
    {
      app.currentTaskNum := app.currentTaskNum - 1;
      var ok := CheckDownloadFinish(job.message, job.serverSize, job.tempPath, envSaveDirectory(job.message), true);
      if ok {
        return Some((job.link, job.fileName));
      }
      if job.retryCount < app.maxDownloadRetries {
        retries := retries + [RetryRequest(job.link, Retry(job.fileId, job.retryCount + 1))];
      } else {
        var _ := app.GetFileType(job.message, job.fileName, Failure);
        botTaskLink := botTaskLink - {job.link};
      }
      res := None;
    }

    /** `download_complete_callback` for a real download: `SettleJob`, and
        on giving up the error `(达到最大重试次数:N次)` is filed under the
        file name. */
    method JobCallback(job: Job) returns (res: Option<(string, string)>)
      requires app.Valid() && LastMediaType(job.message).Some?
      modifies this`retries, this`botTaskLink, app`success, app`failure, app`skip, app`currentTaskNum, fs, registry, registry.linkInfo.Values
      ensures fresh(registry.linkInfo.Values - old(registry.linkInfo.Values))
      ensures app.Valid()
      ensures app.currentTaskNum == old(app.currentTaskNum) - 1
      ensures var v := VerdictOf(old(fs.tree), job);
              var t := LastMediaType(job.message).value;
              var s1 := Record(old(app.StatsOf()).(currentTaskNum := old(app.currentTaskNum) - 1), t,
                               if v == Done then Success else Failure, job.tempPath);
              && app.StatsOf() == (if v == GiveUp then Record(s1, t, Failure, job.fileName) else s1)
              && res == (if v == Done then Some((job.link, job.fileName)) else None)
              && fs.tree == (if v == Done then AfterMove(old(fs.tree), job.tempPath, envSaveDirectory(job.message))
                             else old(fs.tree))
              && retries == old(retries) + (if v == Again then [RetryRequest(job.link, Retry(job.fileId, job.retryCount + 1))]
                                            else [])
              && botTaskLink == old(botTaskLink) - (if v == GiveUp then {job.link} else {})
      ensures VerdictOf(old(fs.tree), job) == GiveUp ==>
                && Link(job.link) in registry.linkInfo
                && ErrorKey(Some(job.fileName)) in registry.View()[Link(job.link)].errorMsg
                && registry.View()[Link(job.link)].errorMsg[ErrorKey(Some(job.fileName))] == GiveUpError(app.maxDownloadRetries)
      ensures VerdictOf(old(fs.tree), job) != GiveUp ==> registry.linkInfo == old(registry.linkInfo)
      ensures registry.completeLink == old(registry.completeLink)
    {
      var v := VerdictOf(fs.tree, job);
      res := SettleJob(job);
      if v == GiveUp {
        FileError(registry, job.link, GiveUpError(app.maxDownloadRetries), Some(job.fileName));
      }
    }

    /** Takes download `i` out of the in-flight list and streams its file
        with `resume_download`, expecting the server's size. */
    method RunJob(i: nat, stream: nat -> seq<nat>) returns (job: Job, outcome: Outcome)
      requires i < |inflight|
      modifies this`inflight, fs
      ensures job == old(inflight[i]) && inflight == old(inflight[..i] + inflight[i + 1..])
      ensures (fs.tree, outcome) == Resume.Resume(old(fs.tree), job.tempPath, DefaultChunkSize, Some(job.serverSize), stream)
    {
      job := inflight[i];
      inflight := inflight[..i] + inflight[i + 1..];
      var _, o := ResumeDownload(fs, job.tempPath, DefaultChunkSize, Some(job.serverSize), stream);
      outcome := o;
    }

    /** One download finishing: it leaves the in-flight list, the file is
        streamed, and the callback runs under the `on_complete` hook. The
        counter keeps counting the downloads in flight; the item is filed
        for its link when its size matched, and `COMPLETE_LINK` only
        grows. */
    method Finish(i: nat, stream: nat -> seq<nat>) returns (outcome: Outcome)
      requires Valid() && i < |inflight|
      modifies this`inflight, this`retries, this`botTaskLink, app`success, app`failure, app`skip, app`currentTaskNum, fs, registry, registry.linkInfo.Values
      ensures Valid()
      ensures inflight == old(inflight[..i] + inflight[i + 1..])
      ensures app.currentTaskNum == old(app.currentTaskNum) - 1
      ensures var job := old(inflight[i]);
              var (tree, o) := Resume.Resume(old(fs.tree), job.tempPath, DefaultChunkSize, Some(job.serverSize), stream);
              && outcome == o
              && (GetFileSize(tree, job.tempPath, ".temp") == job.serverSize ==>
                    Link(job.link) in registry.linkInfo && job.fileName in registry.View()[Link(job.link)].fileName)
      ensures old(registry.completeLink) <= registry.completeLink
    {
      assert inflight[i] in inflight;
      var job;
      job, outcome := RunJob(i, stream);
      assert forall j :: j in inflight ==> j in old(inflight);
      CompleteJob(job);
    }

    /** The completion callback of a finished download under the
        `on_complete` hook: the counter drops by one, and an item whose size
        matched is filed for its link. */
    method CompleteJob(job: Job)
      requires app.Valid() && LastMediaType(job.message).Some?
      modifies this`retries, this`botTaskLink, app`success, app`failure, app`skip, app`currentTaskNum, fs, registry, registry.linkInfo.Values
      ensures app.Valid()
      ensures app.currentTaskNum == old(app.currentTaskNum) - 1
      ensures GetFileSize(old(fs.tree), job.tempPath, ".temp") == job.serverSize ==>
                Link(job.link) in registry.linkInfo && job.fileName in registry.View()[Link(job.link)].fileName
      ensures old(registry.completeLink) <= registry.completeLink
    {
      var res := JobCallback(job);
      assert app as object != registry && this as object != registry && app as object !in registry.linkInfo.Values && this as object !in registry.linkInfo.Values;
      FileCompletion(registry, res);
    }

    /** A message whose file is already in the save directory: the callback
        (`task_id` is `None`) runs at once under the `on_complete` hook, so
        the item is filed as completed for its link. */
    method CompleteDuplicate(m: Message, link: string, meta: MediaMeta, retryCount: int)
      requires Valid() && LastMediaType(m).Some?
      modifies app`success, app`failure, app`skip, app`currentTaskNum, registry, registry.linkInfo.Values
      ensures fresh(registry.linkInfo.Values - old(registry.linkInfo.Values))
      ensures Valid()
      ensures app.StatsOf() == if retryCount == 0 then Record(old(app.StatsOf()), LastMediaType(m).value, Skip, meta.fileName)
                               else old(app.StatsOf())
      ensures Link(link) in registry.linkInfo && meta.fileName in registry.View()[Link(link)].fileName
      ensures old(registry.completeLink) <= registry.completeLink
    {
      var res := DuplicateCallback(m, link, meta.fileName, retryCount);
      assert app as object != registry && this as object != registry && app as object !in registry.linkInfo.Values && this as object !in registry.linkInfo.Values;
      FileCompletion(registry, res);
    }

    /** The callback for a file found already downloaded (`task_id` is
        `None`): a skip is recorded on a first attempt only, the task counter
        is untouched, and the item is reported complete. */
    method DuplicateCallback(m: Message, link: string, fileName: string, retryCount: int)
      returns (res: Option<(string, string)>)
      requires app.Valid() && LastMediaType(m).Some?
      modifies app`success, app`failure, app`skip, app`currentTaskNum
      ensures res == Some((link, fileName))
      ensures app.Valid()
      ensures app.StatsOf() == if retryCount == 0 then Record(old(app.StatsOf()), LastMediaType(m).value, Skip, fileName)
                               else old(app.StatsOf())
      ensures app.currentTaskNum == old(app.currentTaskNum)
    {
      if retryCount == 0 {
        var _ := app.GetFileType(m, fileName, Skip);
      }
      res := Some((link, fileName));
    }

    /** A download started: the counter counts it (`get_file_type` with
        `DOWNLOADING`) and it joins the downloads in flight. */
    method StartJob(m: Message, link: string, meta: MediaMeta, retryCount: int)
      requires Valid() && LastMediaType(m).Some?
      modifies this`inflight, app`success, app`failure, app`skip, app`currentTaskNum
      ensures Valid()
      ensures inflight == old(inflight) + [JobOf(m, link, meta, retryCount)]
      ensures app.StatsOf() == Record(old(app.StatsOf()), LastMediaType(m).value, Downloading, meta.fileName)
    {
      var _ := app.GetFileType(m, meta.fileName, Downloading);
      inflight := inflight + [JobOf(m, link, meta, retryCount)];
    }

    /** A message of a kind that is not configured: a skip is recorded
        under its name when it has one, and the error is filed under that
        name, or under `"all_member"` without one. */
    method SkipItem(m: Message, link: string, name: Option<string>)
      requires Valid() && (name.Some? ==> LastMediaType(m).Some?)
      modifies app`success, app`failure, app`skip, app`currentTaskNum, registry, registry.linkInfo.Values
      ensures fresh(registry.linkInfo.Values - old(registry.linkInfo.Values))
      ensures Valid()
      ensures app.StatsOf() == if name.Some? then Record(old(app.StatsOf()), LastMediaType(m).value, Skip, name.value)
                               else old(app.StatsOf())
      ensures registry.completeLink == old(registry.completeLink)
      ensures Link(link) in registry.linkInfo
      ensures ErrorKey(name) in registry.View()[Link(link)].errorMsg
      ensures registry.View()[Link(link)].errorMsg[ErrorKey(name)] == SkipError
    {
      if name.Some? {
        var _ := app.GetFileType(m, name.value, Skip);
      }
      assert app as object != registry && this as object != registry && app as object !in registry.linkInfo.Values && this as object !in registry.linkInfo.Values;
      FileError(registry, link, SkipError, name);
    }

    /** `__add_task` for one message, against the configured kinds in
        effect. `ok` is `false` where the source raises, and then nothing
        has changed. */
    method AddOne(m: Message, link: string, count: int, effective: seq<string>) returns (ok: bool, plan: Plan)
      requires Valid()
      modifies this`inflight, app`success, app`failure, app`skip, app`currentTaskNum, registry, registry.linkInfo.Values
      ensures fresh(registry.linkInfo.Values - old(registry.linkInfo.Values))
      ensures Valid()
      ensures old(registry.completeLink) <= registry.completeLink
      ensures plan == PlanFor(m, effective, old(fs.tree))
      ensures ok <==> !plan.Raise?
      ensures inflight == old(inflight) + (if plan.Enqueue? then [JobOf(m, link, plan.meta, count)] else [])
      ensures plan.Raise? ==> app.StatsOf() == old(app.StatsOf()) && registry.linkInfo == old(registry.linkInfo)
      ensures !plan.Enqueue? ==> app.currentTaskNum == old(app.currentTaskNum)
    {
      plan := PlanFor(m, effective, fs.tree);
      KindEitherWay(m);
      if plan.Raise? {
        return false, plan;
      } else if plan.Enqueue? {
        StartJob(m, link, plan.meta, count);
      } else {
        HandleAtOnce(m, link, count, plan);
      }
      ok := true;
    }

    /** The branches of `__add_task` that start no download: a file already
        in the save directory completes at once, an unconfigured kind is
        skipped with its error filed. */
    method HandleAtOnce(m: Message, link: string, count: int, plan: Plan)
      requires Valid() && (plan.Duplicate? || plan.SkipNamed? || plan.SkipAll?)
      requires plan.Duplicate? || plan.SkipNamed? ==> LastMediaType(m).Some?
      modifies app`success, app`failure, app`skip, app`currentTaskNum, registry, registry.linkInfo.Values
      ensures fresh(registry.linkInfo.Values - old(registry.linkInfo.Values))
      ensures Valid()
      ensures old(registry.completeLink) <= registry.completeLink
      ensures app.currentTaskNum == old(app.currentTaskNum)
    {
      match plan {
        case Duplicate(meta) =>
          CompleteDuplicate(m, link, meta, count);
        case SkipNamed(name) =>
          SkipItem(m, link, Some(name));
        case SkipAll =>
          SkipItem(m, link, None);
      }
    }
    /** The branch `__add_task` takes for each message of a run. */
    function PlansOf(ms: seq<Message>, effective: seq<string>, tree: map<string, Entry>): (r: seq<Plan>)
      ensures |r| == |ms|
      ensures forall k :: 0 <= k < |ms| ==> r[k] == PlanFor(ms[k], effective, tree)
    {
      MapSeq(ms, m => PlanFor(m, effective, tree))
    }

    /** The plans of a prefix of a run are a prefix of its plans. */
    lemma PlansPrefix(ms: seq<Message>, k: nat, effective: seq<string>, tree: map<string, Entry>)
      requires k <= |ms|
      ensures PlansOf(ms[..k], effective, tree) == PlansOf(ms, effective, tree)[..k]
    {
      MapSeqPrefix(ms, k, m => PlanFor(m, effective, tree));
    }

    /** One message further along the run adds its plan. */
    lemma PlansStep(sel: seq<Message>, i: nat, effective: seq<string>, tree: map<string, Entry>)
      requires i < |sel|
      ensures PlansOf(sel[..i + 1], effective, tree) == PlansOf(sel[..i], effective, tree) + [PlanFor(sel[i], effective, tree)]
    {
      MapSeqStep(sel, i, m => PlanFor(m, effective, tree));
    }

    /** One turn of the loop of `__add_task`: message `i` of the run is
        handled, and its plan extends the plans so far. */
    method AddNext(sel: seq<Message>, i: nat, link: string, count: int, eff: seq<string>,
                   ghost plans: seq<Plan>, ghost before: seq<Job>)
      returns (ok: bool, ghost plans': seq<Plan>)
      requires Valid() && i < |sel|
      requires plans == PlansOf(sel[..i], eff, fs.tree)
      requires NoneRaises(plans) && inflight == before + Started(sel[..i], plans, link, count)
      modifies this`inflight, app`success, app`failure, app`skip, app`currentTaskNum, registry, registry.linkInfo.Values
      ensures fresh(registry.linkInfo.Values - old(registry.linkInfo.Values))
      ensures Valid()
      ensures old(registry.completeLink) <= registry.completeLink
      ensures plans' == PlansOf(sel[..i + 1], eff, fs.tree)
      ensures ok ==> NoneRaises(plans') && inflight == before + Started(sel[..i + 1], plans', link, count)
      ensures !ok ==> plans'[i].Raise?
    {
      var plan;
      ok, plan := AddOne(sel[i], link, count, eff);
      PlansStep(sel, i, eff, fs.tree);
      StartedStep(sel, i, plans, plan, link, count, before);
      if ok {
        NoneRaisesStep(plans, plan);
      }
      plans' := plans + [plan];
    }

    /** `__add_task` for a message or a list of them: the selected messages
        are handled in order until one raises. Without a raise, exactly the
        selected messages that are configured and not yet on disk join the
        downloads in flight, in order. */
    method AddTask(items: Items, link: string, retry: Retry, diy: seq<string>) returns (ok: bool)
      requires Valid()
      modifies this`inflight, app`success, app`failure, app`skip, app`currentTaskNum, registry, registry.linkInfo.Values
      ensures fresh(registry.linkInfo.Values - old(registry.linkInfo.Values))
      ensures Valid()
      ensures old(registry.completeLink) <= registry.completeLink
      ensures var sel := Selected(items, retry);
              var plans := PlansOf(sel, old(Effective(diy)), fs.tree);
              && (ok <==> NoneRaises(plans))
              && (ok ==> inflight == old(inflight) + Started(sel, plans, link, retry.count))
    {
      var sel: seq<Message>;
      match items {
        case One(m) =>
          sel := [m];
        case Many(ms) =>
          sel := SelectMessages(ms, retry);
      }
      ok := AddRun(sel, link, retry.count, Effective(diy));
    }

    /** The loop of `__add_task` over the selected messages, against the
        kinds in effect: it stops at the first message that raises. */
    method AddRun(sel: seq<Message>, link: string, count: int, eff: seq<string>) returns (ok: bool)
      requires Valid()
      modifies this`inflight, app`success, app`failure, app`skip, app`currentTaskNum, registry, registry.linkInfo.Values
      ensures fresh(registry.linkInfo.Values - old(registry.linkInfo.Values))
      ensures Valid()
      ensures old(registry.completeLink) <= registry.completeLink
      ensures ok <==> NoneRaises(PlansOf(sel, eff, fs.tree))
      ensures ok ==> inflight == old(inflight) + Started(sel, PlansOf(sel, eff, fs.tree), link, count)
    {
      ok := true;
      var i := 0;
      ghost var plans: seq<Plan> := [];
      while i < |sel| && ok
        invariant 0 <= i <= |sel|
        invariant Valid()
        invariant fresh(registry.linkInfo.Values - old(registry.linkInfo.Values))
        invariant old(registry.completeLink) <= registry.completeLink
        invariant plans == PlansOf(sel[..i], eff, fs.tree)
        invariant ok ==> NoneRaises(plans) && inflight == old(inflight) + Started(sel[..i], plans, link, count)
        invariant !ok ==> 0 < i && plans[i - 1].Raise?
      {
        ok, plans := AddNext(sel, i, link, count, eff, plans, old(inflight));
        i := i + 1;
      }
      if ok {
        assert sel[..i] == sel;
      } else {
        PlansPrefix(sel, i, eff, fs.tree);
      }
    }

    /** The body of `create_download_task` once the target is resolved:
        the kind and member count are filed and the messages added. */
    method AddResolved(key: Key, rv: Resolution, r: Retry, diy: seq<string>) returns (ok: bool)
      requires Valid() && rv.Resolved? && key.Link?
      modifies this`inflight, app`success, app`failure, app`skip, app`currentTaskNum, registry, registry.linkInfo.Values
      ensures fresh(registry.linkInfo.Values - old(registry.linkInfo.Values))
      ensures Valid()
      ensures old(registry.completeLink) <= registry.completeLink
      ensures ok <==> NoneRaises(PlansOf(Selected(rv.items, r), old(Effective(diy)), fs.tree))
    {
      SetLinkMeta(registry, key, rv.linkType, rv.memberNum);
      ok := AddTask(rv.items, key.link, r, diy);
    }

    /** `OpenTask` on this downloader's registry, stating only what
        `CreateDownloadTask` relies on. */
    method OpenRecord(t: Target, retryCount: int) returns (key: Key)
      modifies registry
      ensures fresh(registry.linkInfo.Values - old(registry.linkInfo.Values))
      ensures key == TargetKey(t, canonMessage, canonLink) && key in registry.linkInfo
      ensures registry.completeLink == old(registry.completeLink)
    {
      key := OpenTask(registry, t, retryCount, canonMessage, canonLink);
    }

    /** `create_download_task` under its `on_create_task` hook: the record
        of the target is opened, the target resolved, its kind and member
        count filed and its messages added. Success reports the chat, the
        member count and the kind as `DOWNLOADING`; an exception anywhere
        becomes a `FAILURE` with no chat, no members and the exception's
        text and explanation, and that `e_code` becomes the record's
        `error_msg`. A message of the run that raises does so in
        `validate_title(None)`, a `TypeError` no handler names, so its
        explanation is `UnlistedError`; `raisedText` is that exception's
        text, which the Python runtime words. */
    method CreateDownloadTask(t: Target, retry: Option<Retry>, withUpload: bool, diy: seq<string>,
                              resolution: Resolution, raisedText: string)
      returns (res: TaskResult)
      requires Valid()
      modifies this`inflight, app`success, app`failure, app`skip, app`currentTaskNum, registry, registry.linkInfo.Values
      ensures Valid()
      ensures old(registry.completeLink) <= registry.completeLink
      ensures res.status == Downloading || res.status == Failure
      ensures var rv := Resolve(t, resolution, raisedText);
              var r := if retry.Some? then retry.value else Retry(-1, 0);
              var eff := if withUpload then AllTypeNames() else if diy != [] then diy else old(app.downloadType);
              && (res.status == Downloading <==> rv.Resolved? && NoneRaises(PlansOf(Selected(rv.items, r), eff, fs.tree)))
              && (res.status == Downloading ==>
                    res == TaskResult(Some(rv.chat), rv.memberNum, Some(rv.linkType), Downloading, None))
              && (res.status == Failure ==>
                    && res == (if rv.Raised? then FailureResult(rv.error, rv.reason) else FailureResult(raisedText, UnlistedError))
                    && TargetKey(t, canonMessage, canonLink) in registry.linkInfo
                    && registry.View()[TargetKey(t, canonMessage, canonLink)].errorMsg == res.eCode.value)
    {
      var r := if retry.Some? then retry.value else Retry(-1, 0);
      var diy' := if withUpload then AllTypeNames() else diy;
      ghost var eff := Effective(diy');
      var key := OpenRecord(t, r.count);
      var rv := Resolve(t, resolution, raisedText);
      var ok := false;
      if rv.Resolved? {
        ok := AddResolved(key, rv, r, diy');
      }
      if ok {
        res := TaskResult(Some(rv.chat), rv.memberNum, Some(rv.linkType), Downloading, None);
      } else {
        res := if rv.Raised? then FailureResult(rv.error, rv.reason) else FailureResult(raisedText, UnlistedError);
        assert app as object != registry && this as object != registry && app as object !in registry.linkInfo.Values && this as object !in registry.linkInfo.Values;
        assert fs as object != registry && fs as object !in registry.linkInfo.Values;
        RecordFailure(registry, key, res.eCode.value);
      }
    }
  }
}
