/** The Telegram-side values the downloader inspects: media kinds, download
    statuses, link kinds, and the parts of a message and of its media object
    that the bookkeeping reads. */
module Telegram {
  import opened Common

  /** The supported media kinds, in the order `DownloadType()` enumerates them. */
  datatype DownloadType = Video | Photo | Document | Audio | Voice | Animation

  /** Outcome recorded for one item. */
  datatype DownloadStatus = Success | Failure | Skip | Downloading

  /** Kind of a download target as resolved from its link. */
  datatype LinkType = Single | Range | Album | UnknownLink

  /** The attribute name of each media kind, as used in configuration files and
      by `getattr(message, name)`. */
  function TypeName(t: DownloadType): (r: string)
    ensures |r| > 0
  {
    match t
    case Video => "video"
    case Photo => "photo"
    case Document => "document"
    case Audio => "audio"
    case Voice => "voice"
    case Animation => "animation"
  }

  function AllTypes(): seq<DownloadType> {
    [Video, Photo, Document, Audio, Voice, Animation]
  }

  /** `[_ for _ in DownloadType()]`: the list written to the configuration when
      no supported type is left. */
  function AllTypeNames(): seq<string> {
    ["video", "photo", "document", "audio", "voice", "animation"]
  }

  /** `name in DownloadType()` */
  predicate IsTypeName(name: string) {
    name in AllTypeNames()
  }

  /** Reading a configured name back as a media kind. */
  function TypeOfName(name: string): (r: Option<DownloadType>)
    ensures r.Some? <==> IsTypeName(name)
    ensures r.Some? ==> TypeName(r.value) == name
  {
    match name
    case "video" => Some(Video)
    case "photo" => Some(Photo)
    case "document" => Some(Document)
    case "audio" => Some(Audio)
    case "voice" => Some(Voice)
    case "animation" => Some(Animation)
    case _ => None
  }

  lemma TypeNameRoundTrip(t: DownloadType)
    ensures TypeOfName(TypeName(t)) == Some(t)
    ensures TypeName(t) in AllTypeNames()
  {
  }

  /** The three states of a media object's `mime_type` attribute: missing
      altogether, present but `None`, or a string. */
  datatype MimeAttr = NoMime | NullMime | Mime(text: string)

  /** One media object of a message (video, photo, document, ...). */
  datatype Media = Media(
    fileId: string,
    fileName: Option<string>,
    mimeType: MimeAttr,
    fileUniqueId: string,
    fileSize: nat)

  /** A message with at most one media object per kind; `chat` is `None` when
      the chat (or its id) cannot be read; `date` is the POSIX timestamp. */
  datatype Message = Message(
    id: nat,
    chat: Option<int>,
    date: real,
    text: Option<string>,
    caption: Option<string>,
    media: map<DownloadType, Media>)

  /** `getattr(obj, 'mime_type', default)` */
  function MimeOr(a: MimeAttr, default: string): (r: Option<string>)
    ensures a.NoMime? ==> r == Some(default)
    ensures a.NullMime? ==> r == None
    ensures a.Mime? ==> r == Some(a.text)
  {
    match a
    case NoMime => Some(default)
    case NullMime => None
    case Mime(s) => Some(s)
  }

  /** The first kind, in enumeration order, the message carries: the type gate
      of `__add_task`, `next(_ for _ in DownloadType() if getattr(message, _))`. */
  function FirstMediaType(m: Message): (r: Option<DownloadType>)
    ensures r.Some? ==> r.value in m.media
    ensures r.None? <==> forall t :: t !in m.media
  {
    assert forall t :: t in m.media ==> t in AllTypes() by {
      forall t | t in m.media ensures t in AllTypes() { CoveredByAllTypes(t); }
    }
    FirstIn(AllTypes(), m.media.Keys)
  }

  lemma CoveredByAllTypes(t: DownloadType)
    ensures t in AllTypes()
    ensures t in [Animation, Voice, Audio, Document, Photo, Video]
  {
    match t
    case Video => assert AllTypes()[0] == t;
    case Photo => assert AllTypes()[1] == t;
    case Document => assert AllTypes()[2] == t;
    case Audio => assert AllTypes()[3] == t;
    case Voice => assert AllTypes()[4] == t;
    case Animation => assert AllTypes()[5] == t;
  }

  function FirstIn(ts: seq<DownloadType>, present: set<DownloadType>): (r: Option<DownloadType>)
    ensures r.Some? ==> r.value in present && r.value in ts
    ensures r.Some? ==> forall i :: 0 <= i < |ts| && ts[i] in present ==> ts[i] == r.value || exists j :: 0 <= j < i && ts[j] == r.value
    ensures r.None? <==> forall i :: 0 <= i < |ts| ==> ts[i] !in present
  {
    if ts == [] then None
    else if ts[0] in present then Some(ts[0])
    else
      var r := FirstIn(ts[1..], present);
      assert forall i :: 1 <= i < |ts| ==> ts[i] == ts[1..][i - 1];
      r
  }

  /** A message carries a media kind by either reading, or by neither. */
  lemma KindEitherWay(m: Message)
    ensures FirstMediaType(m).Some? <==> LastMediaType(m).Some?
  {
  }

  /** The last kind, in enumeration order, the message carries: what
      `get_file_type` reports and records statistics under. */
  function LastMediaType(m: Message): (r: Option<DownloadType>)
    ensures r.Some? ==> r.value in m.media
    ensures r.None? <==> forall t :: t !in m.media
  {
    assert forall t :: t in m.media ==> t in [Animation, Voice, Audio, Document, Photo, Video] by {
      forall t | t in m.media ensures t in [Animation, Voice, Audio, Document, Photo, Video] {
        CoveredByAllTypes(t);
      }
    }
    FirstIn([Animation, Voice, Audio, Document, Photo, Video], m.media.Keys)
  }
}
