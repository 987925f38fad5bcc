/** The task registry `DownloadTask`: one shared record per link key, the set
    of completed links and its history file; and the upload counterpart
    `UploadTask`. */
module Task {
  import opened Common
  import opened Telegram

  /** A registry key: a canonical link, or a message id used as an alias. */
  datatype Key = Link(link: string) | MessageId(id: int)

  /** The contents of one task record. */
  datatype Meta = Meta(
    linkType: Option<LinkType>,
    memberNum: int,
    completeNum: int,
    fileName: set<string>,
    errorMsg: map<string, string>)

  /** `_default_meta()` */
  function DefaultMeta(): Meta {
    Meta(None, 0, 0, {}, map[])
  }

  /** The fields `set` and `get` address by name. */
  datatype Field = LinkTypeField | MemberNumField | CompleteNumField | FileNameField | ErrorMsgField

  /** A field value. */
  datatype Value = LinkTypeValue(lt: Option<LinkType>) | Num(n: int) | Names(names: set<string>) | Errors(errs: map<string, string>)

  /** The value has the type the field holds. */
  predicate Fits(f: Field, v: Value) {
    match f
    case LinkTypeField => v.LinkTypeValue?
    case MemberNumField => v.Num?
    case CompleteNumField => v.Num?
    case FileNameField => v.Names?
    case ErrorMsgField => v.Errors?
  }

  /** `meta[key]` */
  function Read(m: Meta, f: Field): (r: Value)
    ensures Fits(f, r)
  {
    match f
    case LinkTypeField => LinkTypeValue(m.linkType)
    case MemberNumField => Num(m.memberNum)
    case CompleteNumField => Num(m.completeNum)
    case FileNameField => Names(m.fileName)
    case ErrorMsgField => Errors(m.errorMsg)
  }

  /** `meta[key] = value`: the named field reads back as the value, every
      other field is unchanged. */
  function Assign(m: Meta, f: Field, v: Value): (r: Meta)
    requires Fits(f, v)
    ensures Read(r, f) == v
    ensures forall g :: g != f ==> Read(r, g) == Read(m, g)
  {
    match f
    case LinkTypeField => m.(linkType := v.lt)
    case MemberNumField => m.(memberNum := v.n)
    case CompleteNumField => m.(completeNum := v.n)
    case FileNameField => m.(fileName := v.names)
    case ErrorMsgField => m.(errorMsg := v.errs)
  }

  /** The key `set_error` files an error under: the given one, or
      `"all_member"` when it is missing or empty. */
  function ErrorKey(key: Option<string>): (r: string)
    ensures key.Some? && key.value != [] ==> r == key.value
    ensures key.None? || key.value == [] ==> r == "all_member"
  {
    if key.Some? && key.value != [] then key.value else "all_member"
  }

  /** The record after `on_complete` filed `name`: the name joins the set
      and `complete_num` is recounted. */
  function Recorded(m: Meta, name: string): (r: Meta)
    ensures name in r.fileName && r.fileName == m.fileName + {name}
    ensures r.completeNum == |r.fileName|
    ensures r.memberNum == m.memberNum && r.linkType == m.linkType && r.errorMsg == m.errorMsg
  {
    var names := m.fileName + {name};
    m.(fileName := names, completeNum := |names|)
  }

  /** Every member of the link is accounted for. */
  predicate IsComplete(m: Meta) {
    m.memberNum == m.completeNum
  }

  /** A completed record has its errors cleared. */
  function Settled(m: Meta): Meta {
    if IsComplete(m) then m.(errorMsg := map[]) else m
  }

  /** Filing the same name twice is the same as filing it once. */
  lemma RecordedIdempotent(m: Meta, name: string)
    ensures Recorded(Recorded(m, name), name) == Recorded(m, name)
  {
  }

  /** The map `before` with a default record under `key` if it had none:
      what `setdefault(key, _default_meta())` leaves. */
  function WithDefault(before: map<Key, Meta>, key: Key): (r: map<Key, Meta>)
    ensures key in r && r.Keys == before.Keys + {key}
    ensures key in before ==> r == before
    ensures key !in before ==> r[key] == DefaultMeta()
  {
    if key in before then before else before[key := DefaultMeta()]
  }

  /** The elements of a loaded history list after canonicalisation. */
  function Normalized(items: seq<string>, canon: string -> string): set<string> {
    set i | 0 <= i < |items| :: canon(items[i])
  }

  /** `sorted(list(links))`: the history payload. */
  method SortedPayload(links: set<string>) returns (payload: seq<string>)
    ensures StrictlySorted(payload)
    ensures forall x :: x in payload <==> x in links
  {
    payload := [];
    var pending := links;
    while pending != {}
      invariant pending <= links
      invariant StrictlySorted(payload)
      invariant forall x :: x in payload <==> x in links && x !in pending
      decreases |pending|
    {
      var x :| x in pending;
      payload := Insert(payload, x);
      pending := pending - {x};
    }
  }

  /** The history file holds exactly one list for a given set of completed
      links. */
  lemma PayloadDetermined(p: seq<string>, q: seq<string>, links: set<string>)
    requires StrictlySorted(p) && forall x :: x in p <==> x in links
    requires StrictlySorted(q) && forall x :: x in q <==> x in links
    ensures p == q
  {
    SortedUnique(p, q);
  }

  /** Loading a saved history gives back the completed links, when the links
      are already in canonical form. */
  lemma HistoryRoundTrip(payload: seq<string>, links: set<string>, canon: string -> string)
    requires StrictlySorted(payload) && forall x :: x in payload <==> x in links
    requires forall x :: x in links ==> canon(x) == x
    ensures Normalized(payload, canon) == links
  {
    forall x | x in links
      ensures x in Normalized(payload, canon)
    {
      var i :| 0 <= i < |payload| && payload[i] == x;
      assert canon(payload[i]) == x;
    }
  }

  /** Every key whose record is the record of `key` reads `m` in `now`;
      every other key reads in `now` what it read in `before`. */
  predicate Shared(links: map<Key, TaskMeta>, now: map<Key, Meta>, before: map<Key, Meta>, key: Key, m: Meta)
    requires key in links
  {
    forall k :: k in links ==>
      k in now && k in before && now[k] == (if links[k] == links[key] then m else before[k])
  }

  /** Two updates of the same record, one after the other, are one update
      to the later value. */
  lemma SharedCompose(links: map<Key, TaskMeta>, v0: map<Key, Meta>, v1: map<Key, Meta>, v2: map<Key, Meta>,
                      key: Key, m1: Meta, m2: Meta)
    requires key in links
    requires Shared(links, v1, v0, key, m1) && Shared(links, v2, v1, key, m2)
    ensures Shared(links, v2, v0, key, m2)
  {
  }

  /** Where a new task came from: a message, or a link string. */
  datatype Target = ByMessage(m: Message) | ByLink(s: string)

  /** The registry key of a target, through the canonicalising functions. */
  function TargetKey(t: Target, canonMessage: Message -> string, canonLink: string -> string): Key {
    match t
    case ByMessage(m) => Link(canonMessage(m))
    case ByLink(s) => Link(canonLink(s))
  }

  /** One mutable task record; several keys may refer to the same one. */
  class TaskMeta {
    var linkType: Option<LinkType>
    var memberNum: int
    var completeNum: int
    var fileName: set<string>
    var errorMsg: map<string, string>

    function Value(): Meta
      reads this
    {
      Meta(linkType, memberNum, completeNum, fileName, errorMsg)
    }

    /** Overwrites every field of the record. */
    method Store(m: Meta)
      modifies this
      ensures Value() == m
    {
      linkType := m.linkType;
      memberNum := m.memberNum;
      completeNum := m.completeNum;
      fileName := m.fileName;
      errorMsg := m.errorMsg;
    }

    constructor (m: Meta)
      ensures Value() == m
    {
      linkType := m.linkType;
      memberNum := m.memberNum;
      completeNum := m.completeNum;
      fileName := m.fileName;
      errorMsg := m.errorMsg;
    }
  }

  /** `DownloadTask`'s class-level state. */
  class Registry {
    /** `LINK_INFO` */
    var linkInfo: map<Key, TaskMeta>
    /** `COMPLETE_LINK` */
    var completeLink: set<string>
    /** The `complete_links` list of the history file; `None` when there is
        no file or it holds no list. */
    var historyFile: Option<seq<string>>

    /** The record contents under every key. */
    function View(): (r: map<Key, Meta>)
      reads this`linkInfo, linkInfo.Values
      ensures r.Keys == linkInfo.Keys
    {
      map k | k in linkInfo :: linkInfo[k].Value()
    }

    /** Every key that refers to the record of `key` now reads `m`; every
        other key reads what it did in `before`. */
    ghost predicate Through(before: map<Key, Meta>, key: Key, m: Meta)
      requires key in linkInfo
      reads this`linkInfo, linkInfo.Values
    {
      Shared(linkInfo, View(), before, key, m)
    }

    /** The module-level `_load_history()` on a fresh registry. */
    constructor (history: Option<seq<string>>, canon: string -> string)
      ensures linkInfo == map[] && historyFile == history
      ensures completeLink == if history.Some? then Normalized(history.value, canon) else {}
    {
      linkInfo := map[];
      completeLink := {};
      historyFile := history;
      new;
      LoadHistory(canon);
    }

    /** `_load_history`: every listed link, canonicalised, joins
        `COMPLETE_LINK`. */
    method LoadHistory(canon: string -> string)
      modifies this
      ensures completeLink == old(completeLink) + if historyFile.Some? then Normalized(historyFile.value, canon) else {}
      ensures linkInfo == old(linkInfo) && historyFile == old(historyFile)
    {
      if historyFile.None? {
        return;
      }
      var items := historyFile.value;
      var normalized: seq<string> := [];
      var i := 0;
      while i < |items|
        invariant 0 <= i <= |items|
        invariant |normalized| == i
        invariant forall j :: 0 <= j < i ==> normalized[j] == canon(items[j])
      {
        normalized := normalized + [canon(items[i])];
        i := i + 1;
      }
      assert (set x | x in normalized) == Normalized(items, canon) by {
        forall x | x in normalized ensures x in Normalized(items, canon) {
          var j :| 0 <= j < |normalized| && normalized[j] == x;
          assert canon(items[j]) == x;
        }
      }
      completeLink := completeLink + set x | x in normalized;
    }

    /** `_save_history`: the file now lists `COMPLETE_LINK`, sorted and free
        of duplicates. */
    method SaveHistory()
      modifies this`historyFile
      ensures historyFile.Some? && StrictlySorted(historyFile.value)
      ensures forall x :: x in historyFile.value <==> x in completeLink
    {
      var payload := SortedPayload(completeLink);
      historyFile := Some(payload);
    }

    /** `LINK_INFO.setdefault(key, _default_meta())` */
    method SetDefault(key: Key) returns (meta: TaskMeta)
      modifies this
      ensures fresh(linkInfo.Values - old(linkInfo.Values))
      ensures key in linkInfo && meta == linkInfo[key]
      ensures linkInfo.Keys == old(linkInfo.Keys) + {key}
      ensures forall k :: k in old(linkInfo) ==> linkInfo[k] == old(linkInfo[k])
      ensures key !in old(linkInfo) ==> fresh(meta)
      ensures View() == WithDefault(old(View()), key)
      ensures completeLink == old(completeLink) && historyFile == old(historyFile)
    {
      if key in linkInfo {
        meta := linkInfo[key];
      } else {
        meta := new TaskMeta(DefaultMeta());
        linkInfo := linkInfo[key := meta];
      }
    }

    /** `DownloadTask.set(link, key, value)`: inserts a default record when
        the key is absent, then changes the one field, visibly through every
        alias of the record. */
    method Set(key: Key, f: Field, v: Value)
      requires Fits(f, v)
      modifies this, linkInfo.Values
      ensures fresh(linkInfo.Values - old(linkInfo.Values))
      ensures key in linkInfo && linkInfo.Keys == old(linkInfo.Keys) + {key}
      ensures forall k :: k in old(linkInfo) ==> linkInfo[k] == old(linkInfo[k])
      ensures Through(WithDefault(old(View()), key), key, Assign(WithDefault(old(View()), key)[key], f, v))
      ensures completeLink == old(completeLink) && historyFile == old(historyFile)
    {
      var meta := SetDefault(key);
      meta.Store(Assign(meta.Value(), f, v));
    }

    /** `DownloadTask.get(link, key)`: `None` for an absent key, which is
        not inserted. */
    function Get(key: Key, f: Field): (r: Option<Value>)
      reads this`linkInfo, linkInfo.Values
      ensures r.None? <==> key !in linkInfo
      ensures r.Some? ==> Fits(f, r.value) && r.value == Read(View()[key], f)
    {
      if key in linkInfo then Some(Read(linkInfo[key].Value(), f)) else None
    }

    /** `set_error(link, value, key)`: one entry of `error_msg` is written,
        under `"all_member"` when no key is given. */
    method SetError(key: Key, value: string, errKey: Option<string>)
      modifies this, linkInfo.Values
      ensures fresh(linkInfo.Values - old(linkInfo.Values))
      ensures key in linkInfo && linkInfo.Keys == old(linkInfo.Keys) + {key}
      ensures forall k :: k in old(linkInfo) ==> linkInfo[k] == old(linkInfo[k])
      ensures var before := WithDefault(old(View()), key)[key];
              Through(WithDefault(old(View()), key), key,
                      before.(errorMsg := before.errorMsg[ErrorKey(errKey) := value]))
      ensures ErrorKey(errKey) in View()[key].errorMsg && View()[key].errorMsg[ErrorKey(errKey)] == value
      ensures completeLink == old(completeLink) && historyFile == old(historyFile)
    {
      var meta := SetDefault(key);
      meta.errorMsg := meta.errorMsg[ErrorKey(errKey) := value];
    }

    /** `add_file_name(link, file_name)`: set insertion, so filing a name
        that is already there changes nothing. */
    method AddFileName(key: Key, name: string)
      modifies this, linkInfo.Values
      ensures fresh(linkInfo.Values - old(linkInfo.Values))
      ensures key in linkInfo && linkInfo.Keys == old(linkInfo.Keys) + {key}
      ensures forall k :: k in old(linkInfo) ==> linkInfo[k] == old(linkInfo[k])
      ensures var before := WithDefault(old(View()), key)[key];
              Through(WithDefault(old(View()), key), key, before.(fileName := before.fileName + {name}))
      ensures name in WithDefault(old(View()), key)[key].fileName ==> View() == WithDefault(old(View()), key)
      ensures completeLink == old(completeLink) && historyFile == old(historyFile)
    {
      ghost var before := WithDefault(old(View()), key);
      var meta := SetDefault(key);
      assert forall k :: k in linkInfo && linkInfo[k] == meta ==> before[k] == before[key];
      meta.fileName := meta.fileName + {name};
      if name in before[key].fileName {
        assert before[key].(fileName := before[key].fileName + {name}) == before[key];
        assert View() == before;
      }
    }

    /** `alias(alias_key, primary_key)`: the alias refers to the very record
        of the primary key; nothing happens when the primary key is absent. */
    method Alias(aliasKey: Key, primaryKey: Key)
      modifies this
      ensures fresh(linkInfo.Values - old(linkInfo.Values))
      ensures primaryKey !in old(linkInfo) ==> linkInfo == old(linkInfo)
      ensures primaryKey in old(linkInfo) ==> linkInfo == old(linkInfo)[aliasKey := old(linkInfo)[primaryKey]]
      ensures completeLink == old(completeLink) && historyFile == old(historyFile)
    {
      if primaryKey in linkInfo {
        linkInfo := linkInfo[aliasKey := linkInfo[primaryKey]];
      }
    }

    /** The first half of `on_create_task` as written: a fresh zeroed record
        replaces whatever the canonical key held, on every call, and a
        message's id becomes an alias of it. */
    method BeginCreate(t: Target, canonMessage: Message -> string, canonLink: string -> string) returns (key: Key)
      modifies this
      ensures fresh(linkInfo.Values - old(linkInfo.Values))
      ensures key == TargetKey(t, canonMessage, canonLink)
      ensures key in linkInfo && fresh(linkInfo[key]) && linkInfo[key].Value() == DefaultMeta()
      ensures t.ByLink? ==> linkInfo == old(linkInfo)[key := linkInfo[key]]
      ensures t.ByMessage? ==> linkInfo == old(linkInfo)[key := linkInfo[key]][MessageId(t.m.id) := linkInfo[key]]
      ensures completeLink == old(completeLink) && historyFile == old(historyFile)
    {
      key := TargetKey(t, canonMessage, canonLink);
      var meta := new TaskMeta(DefaultMeta());
      linkInfo := linkInfo[key := meta];
      if t.ByMessage? {
        Alias(MessageId(t.m.id), key);
      }
    }

    /** `on_create_task` keeping the record on a retry: a record is replaced
        only on a first attempt, so items filed before the retry still
        count. */
    method BeginCreateKeeping(t: Target, retryCount: int, canonMessage: Message -> string, canonLink: string -> string)
      returns (key: Key)
      modifies this
      ensures fresh(linkInfo.Values - old(linkInfo.Values))
      ensures key == TargetKey(t, canonMessage, canonLink)
      ensures key in linkInfo
      ensures retryCount > 0 && key in old(linkInfo) ==>
                linkInfo == old(linkInfo) && View() == old(View())
      ensures !(retryCount > 0 && key in old(linkInfo)) ==>
                fresh(linkInfo[key]) && linkInfo[key].Value() == DefaultMeta()
      ensures t.ByLink? ==> linkInfo.Keys == old(linkInfo.Keys) + {key}
      ensures forall k :: k in old(linkInfo) && k != key && (t.ByMessage? ==> k != MessageId(t.m.id)) ==>
                k in linkInfo && linkInfo[k] == old(linkInfo[k])
      ensures completeLink == old(completeLink) && historyFile == old(historyFile)
    {
      key := TargetKey(t, canonMessage, canonLink);
      if retryCount > 0 && key in linkInfo {
        return;
      }
      var meta := new TaskMeta(DefaultMeta());
      linkInfo := linkInfo[key := meta];
      if t.ByMessage? {
        Alias(MessageId(t.m.id), key);
      }
    }

    /** The second half of `on_create_task`: a failed creation stores its
        error record as `error_msg`. */
    method EndCreate(key: Key, status: DownloadStatus, eCode: map<string, string>)
      modifies this, linkInfo.Values
      ensures fresh(linkInfo.Values - old(linkInfo.Values))
      ensures status != Failure ==> linkInfo == old(linkInfo) && View() == old(View())
      ensures status == Failure ==>
                key in linkInfo && linkInfo.Keys == old(linkInfo.Keys) + {key}
                && Through(WithDefault(old(View()), key), key, WithDefault(old(View()), key)[key].(errorMsg := eCode))
      ensures status == Failure ==> View()[key].errorMsg == eCode
      ensures completeLink == old(completeLink) && historyFile == old(historyFile)
    {
      if status == Failure {
        Set(key, ErrorMsgField, Errors(eCode));
        assert View()[key] == Assign(WithDefault(old(View()), key)[key], ErrorMsgField, Errors(eCode));
      }
    }

    /** The loop of `on_complete` over `LINK_INFO.items()`: the record under
        `key` gets `complete_num` set to the size of its `file_name`. */
    method RecountComplete(key: Key)
      requires key in linkInfo
      modifies linkInfo.Values
      ensures var before := old(View())[key];
              Through(old(View()), key, before.(completeNum := |before.fileName|))
    {
      var meta := linkInfo[key];
      var keys := linkInfo.Keys;
      while keys != {}
        invariant keys <= linkInfo.Keys
        invariant key in keys ==> View() == old(View())
        invariant key !in keys ==> Through(old(View()), key, old(View())[key].(completeNum := |old(View())[key].fileName|))
        decreases |keys|
      {
        var k :| k in keys;
        if k == key {
          assert forall j :: j in linkInfo && linkInfo[j] == meta ==> old(View())[j] == old(View())[key];
          linkInfo[k].completeNum := |linkInfo[k].fileName|;
        }
        keys := keys - {k};
      }
    }

    /** The end of `on_complete`: when `member_num == complete_num` the
        record's errors are cleared, the link joins `COMPLETE_LINK` and the
        history is saved. */
    method CloseIfComplete(key: Key, link: string)
      requires key == Link(link) && key in linkInfo
      modifies this, linkInfo.Values
      ensures linkInfo == old(linkInfo)
      ensures Through(old(View()), key, Settled(old(View())[key]))
      ensures completeLink == old(completeLink) + (if IsComplete(old(View())[key]) then {link} else {})
      ensures IsComplete(old(View())[key]) ==>
                historyFile.Some? && StrictlySorted(historyFile.value)
                && forall x :: x in historyFile.value <==> x in completeLink
      ensures !IsComplete(old(View())[key]) ==> historyFile == old(historyFile)
    {
      var meta := linkInfo[key];
      if meta.memberNum == meta.completeNum {
        Set(key, ErrorMsgField, Errors(map[]));
        completeLink := completeLink + {link};
        SaveHistory();
      } else {
        assert Settled(old(View())[key]) == old(View())[key];
      }
    }

    /** `on_complete` applied to a callback result: `None` (the `(None,
        None)` result) changes nothing; otherwise the name is filed,
        `complete_num` recounted, and a link whose members are all accounted
        for has its errors cleared and joins `COMPLETE_LINK`, which is
        saved. */
    method OnComplete(res: Option<(string, string)>)
      modifies this, linkInfo.Values
      ensures fresh(linkInfo.Values - old(linkInfo.Values))
      ensures res.None? ==> linkInfo == old(linkInfo) && View() == old(View())
                            && completeLink == old(completeLink) && historyFile == old(historyFile)
      ensures res.Some? ==>
                var key := Link(res.value.0);
                var after := Recorded(WithDefault(old(View()), key)[key], res.value.1);
                && key in linkInfo && linkInfo.Keys == old(linkInfo.Keys) + {key}
                && (forall k :: k in old(linkInfo) ==> linkInfo[k] == old(linkInfo[k]))
                && Through(WithDefault(old(View()), key), key, Settled(after))
                && completeLink == old(completeLink) + (if IsComplete(after) then {res.value.0} else {})
                && (IsComplete(after) ==> historyFile.Some? && StrictlySorted(historyFile.value)
                                          && forall x :: x in historyFile.value <==> x in completeLink)
                && (!IsComplete(after) ==> historyFile == old(historyFile))
      ensures res.Some? ==> Link(res.value.0) in linkInfo && res.value.1 in View()[Link(res.value.0)].fileName
    {
      if res.None? {
        return;
      }
      var (link, name) := res.value;
      var key := Link(link);
      ghost var before := WithDefault(old(View()), key);
      AddFileName(key, name);
      ghost var v1 := View();
      RecountComplete(key);
      ghost var after := Recorded(before[key], name);
      SharedCompose(linkInfo, before, v1, View(), key, before[key].(fileName := before[key].fileName + {name}), after);
      ghost var v2 := View();
      CloseIfComplete(key, link);
      SharedCompose(linkInfo, before, v2, View(), key, after, Settled(after));
    }
  }

  /** Two keys that share a record see each other's updates: after
      `alias`, a value set through the alias is read through the primary
      key. */
  method AliasSharesRecord(primary: Key, alias: Key, n: int, canon: string -> string)
    returns (viaPrimary: Option<Value>, viaAlias: Option<Value>)
    ensures viaPrimary == Some(Num(n)) && viaAlias == Some(Num(n))
  {
    var r := new Registry(None, canon);
    r.Set(primary, MemberNumField, Num(0));
    r.Alias(alias, primary);
    r.Set(alias, MemberNumField, Num(n));
    viaPrimary := r.Get(primary, MemberNumField);
    viaAlias := r.Get(alias, MemberNumField);
  }

  /** Creating the task of a two-item album from its link, through `on_create_task`
      as written or keeping the record on a retry, on a registry that holds
      at most that link. */
  method CreateAlbum(r: Registry, l: string, retryCount: int, asWritten: bool,
                     canonMessage: Message -> string, canonLink: string -> string)
    requires r.linkInfo.Keys <= {Link(canonLink(l))}
    modifies r, r.linkInfo.Values
    ensures r.linkInfo.Keys == {Link(canonLink(l))}
    ensures fresh(r.linkInfo.Values - old(r.linkInfo.Values))
    ensures r.completeLink == old(r.completeLink)
    ensures asWritten || retryCount == 0 || Link(canonLink(l)) !in old(r.linkInfo) ==>
              r.View()[Link(canonLink(l))] == DefaultMeta().(memberNum := 2)
    ensures !asWritten && retryCount > 0 && Link(canonLink(l)) in old(r.linkInfo) ==>
              r.View()[Link(canonLink(l))] == old(r.View())[Link(canonLink(l))].(memberNum := 2)
  {
    if asWritten {
      var key := r.BeginCreate(ByLink(l), canonMessage, canonLink);
      SetMemberNum(r, key, 2);
    } else {
      CreateAlbumKeeping(r, l, retryCount, canonMessage, canonLink);
    }
  }

  /** `CreateAlbum` through `on_create_task` keeping the record on a retry. */
  method CreateAlbumKeeping(r: Registry, l: string, retryCount: int,
                            canonMessage: Message -> string, canonLink: string -> string)
    requires r.linkInfo.Keys <= {Link(canonLink(l))}
    modifies r, r.linkInfo.Values
    ensures r.linkInfo.Keys == {Link(canonLink(l))}
    ensures fresh(r.linkInfo.Values - old(r.linkInfo.Values))
    ensures r.completeLink == old(r.completeLink)
    ensures var key := Link(canonLink(l));
            var kept := retryCount > 0 && key in old(r.linkInfo);
            r.View()[key] == (if kept then old(r.View())[key] else DefaultMeta()).(memberNum := 2)
  {
    var key := r.BeginCreateKeeping(ByLink(l), retryCount, canonMessage, canonLink);
    SetMemberNum(r, key, 2);
  }

  /** `set(link, "member_num", n)` on a registry holding the one key. */
  method SetMemberNum(r: Registry, key: Key, n: int)
    requires r.linkInfo.Keys == {key}
    modifies r, r.linkInfo.Values
    ensures r.linkInfo.Keys == {key}
    ensures fresh(r.linkInfo.Values - old(r.linkInfo.Values))
    ensures r.completeLink == old(r.completeLink)
    ensures r.View()[key] == old(r.View())[key].(memberNum := n)
  {
    ghost var v := r.View();
    r.Set(key, MemberNumField, Num(n));
    assert r.View()[key] == Assign(v[key], MemberNumField, Num(n));
  }

  /** One item of that album downloaded and filed by `on_complete`. */
  method FileItem(r: Registry, link: string, name: string)
    requires r.linkInfo.Keys == {Link(link)}
    modifies r, r.linkInfo.Values
    ensures r.linkInfo.Keys == {Link(link)}
    ensures fresh(r.linkInfo.Values - old(r.linkInfo.Values))
    ensures var after := Recorded(old(r.View())[Link(link)], name);
            r.View()[Link(link)] == Settled(after)
            && r.completeLink == old(r.completeLink) + (if IsComplete(after) then {link} else {})
  {
    r.OnComplete(Some((link, name)));
  }

  /** A fresh registry holding a two-item album whose first item is filed
      and whose second is still missing. */
  method AlbumHalfDone(l: string, asWritten: bool, canonMessage: Message -> string, canonLink: string -> string)
    returns (r: Registry)
    ensures fresh(r) && fresh(r.linkInfo.Values)
    ensures r.linkInfo.Keys == {Link(canonLink(l))} && r.completeLink == {}
    ensures r.View()[Link(canonLink(l))] == Meta(None, 2, 1, {"a"}, map[])
  {
    r := new Registry(None, canonLink);
    CreateAlbum(r, l, 0, asWritten, canonMessage, canonLink);
    FileItem(r, canonLink(l), "a");
  }

  /** As written, a two-item album whose second item needed a retry never
      completes: the retry's `on_create_task` wipes the first item's
      record. */
  method RetryLosesAlbumProgressAsWritten(l: string, canonMessage: Message -> string, canonLink: string -> string)
    returns (complete: bool)
    requires canonLink(canonLink(l)) == canonLink(l)
    ensures !complete
  {
    var link := canonLink(l);
    var r := AlbumHalfDone(l, true, canonMessage, canonLink);
    // the second item fails its size check and is retried under the
    // canonical link
    CreateAlbum(r, link, 1, true, canonMessage, canonLink);
    FileItem(r, link, "b");
    assert r.View()[Link(link)].completeNum == 1;
    complete := link in r.completeLink;
  }

  /** With the record kept across the retry, the same album completes. */
  method RetryKeepsAlbumProgress(l: string, canonMessage: Message -> string, canonLink: string -> string)
    returns (complete: bool)
    requires canonLink(canonLink(l)) == canonLink(l)
    ensures complete
  {
    var link := canonLink(l);
    var r := AlbumHalfDone(l, false, canonMessage, canonLink);
    // the retry keeps the record
    CreateAlbum(r, link, 1, false, canonMessage, canonLink);
    FileItem(r, link, "b");
    assert {"a"} + {"b"} == {"a", "b"} && |{"a", "b"}| == 2;
    complete := link in r.completeLink;
  }

  // ---------------------------------------------------------------------
  // UploadTask
  // ---------------------------------------------------------------------

  /** A chat as the upload side names it: by user name or by id. */
  datatype ChatId = ChatName(name: string) | ChatNumber(number: int)

  /** One uploaded file's record. */
  datatype UploadMeta = UploadMeta(size: int, errorMsg: Option<string>)

  /** `UploadTask`'s class-level `CHAT_ID_INFO`. */
  class UploadRegistry {
    var chatIdInfo: map<ChatId, map<string, UploadMeta>>

    constructor ()
      ensures chatIdInfo == map[]
    {
      chatIdInfo := map[];
    }

    /** `UploadTask(chat_id, file_path, size, error_msg)`: creates the chat's
        table when needed and replaces the file's record. */
    method Register(chat: ChatId, path: string, size: int, errorMsg: Option<string>)
      modifies this
      ensures chat in chatIdInfo && path in chatIdInfo[chat]
      ensures chatIdInfo[chat][path] == UploadMeta(size, errorMsg)
      ensures chatIdInfo == old(chatIdInfo)[chat := (if chat in old(chatIdInfo) then old(chatIdInfo)[chat] else map[])[path := UploadMeta(size, errorMsg)]]
    {
      var files := if chat in chatIdInfo then chatIdInfo[chat] else map[];
      chatIdInfo := chatIdInfo[chat := files[path := UploadMeta(size, errorMsg)]];
    }

    /** `set_error_msg` as written: `ok` is false where the source raises
        (the chat is unknown); for a file not registered under the chat the
        error goes into a default record that is never stored. */
    method SetErrorMsgAsWritten(chat: ChatId, path: string, value: string) returns (ok: bool)
      modifies this
      ensures ok <==> chat in old(chatIdInfo)
      ensures ok && path in old(chatIdInfo)[chat] ==>
                chatIdInfo == old(chatIdInfo)[chat := old(chatIdInfo)[chat][path := old(chatIdInfo)[chat][path].(errorMsg := Some(value))]]
      ensures !ok || path !in old(chatIdInfo)[chat] ==> chatIdInfo == old(chatIdInfo)
    {
      if chat !in chatIdInfo {
        return false;
      }
      var files := chatIdInfo[chat];
      if path in files {
        chatIdInfo := chatIdInfo[chat := files[path := files[path].(errorMsg := Some(value))]];
      }
      ok := true;
    }

    /** `set_error_msg` storing the default record it builds: afterwards the
        file's record carries the error. `sizeOnDisk` is what
        `os.path.getsize` reports (0 when there is no such file). */
    method SetErrorMsg(chat: ChatId, path: string, value: string, sizeOnDisk: int) returns (ok: bool)
      modifies this
      ensures ok <==> chat in old(chatIdInfo)
      ensures ok ==> chat in chatIdInfo && path in chatIdInfo[chat] && chatIdInfo[chat][path].errorMsg == Some(value)
      ensures ok ==> var files := old(chatIdInfo)[chat];
                     var meta := if path in files then files[path] else UploadMeta(sizeOnDisk, None);
                     chatIdInfo == old(chatIdInfo)[chat := files[path := meta.(errorMsg := Some(value))]]
      ensures !ok ==> chatIdInfo == old(chatIdInfo)
    {
      if chat !in chatIdInfo {
        return false;
      }
      var files := chatIdInfo[chat];
      var meta := if path in files then files[path] else UploadMeta(sizeOnDisk, None);
      chatIdInfo := chatIdInfo[chat := files[path := meta.(errorMsg := Some(value))]];
      ok := true;
    }
  }

  /** As written, an upload failure for a file the chat has no record of is
      lost. */
  method UploadErrorLostAsWritten(chat: ChatId, path: string, value: string) returns (recorded: bool)
    ensures !recorded
  {
    var u := new UploadRegistry();
    u.Register(chat, "", 0, None);
    var ok := u.SetErrorMsgAsWritten(chat, path + "x", value);
    recorded := path + "x" in u.chatIdInfo[chat];
  }

  /** Storing the default record keeps the failure. */
  method UploadErrorKept(chat: ChatId, path: string, value: string) returns (recorded: bool)
    ensures recorded
  {
    var u := new UploadRegistry();
    u.Register(chat, "", 0, None);
    var ok := u.SetErrorMsg(chat, path + "x", value, 0);
    recorded := path + "x" in u.chatIdInfo[chat] && u.chatIdInfo[chat][path + "x"].errorMsg == Some(value);
  }
}
