/** Path and file-name helpers of the downloader: POSIX `os.path` splitting
    and joining, title sanitising, byte-limited truncation, the extension and
    archive classifiers, and the file-system operations the download pipeline
    performs on an abstract tree of paths. */
module PathTool {
  import opened Common

  // ---------------------------------------------------------------------
  // os.path (POSIX flavour)
  // ---------------------------------------------------------------------

  /** `s.rfind(c)`: the last index holding `c`, or -1. */
  function RFind(s: string, c: char): (r: int)
    ensures -1 <= r < |s|
    ensures r >= 0 ==> s[r] == c
    ensures forall j :: r < j < |s| ==> s[j] != c
  {
    if s == [] then -1
    else if s[|s| - 1] == c then |s| - 1
    else RFind(s[..|s| - 1], c)
  }

  predicate AllSlashes(s: string) {
    forall i :: 0 <= i < |s| ==> s[i] == '/'
  }

  /** `s.rstrip('/')` */
  function RStripSlashes(s: string): (r: string)
    ensures |r| <= |s| && r == s[..|r|]
    ensures r == [] || r[|r| - 1] != '/'
    ensures forall i :: |r| <= i < |s| ==> s[i] == '/'
  {
    if |s| > 0 && s[|s| - 1] == '/' then RStripSlashes(s[..|s| - 1]) else s
  }

  /** `os.path.split(path)`: the directory part and the last component. The
      directory keeps no trailing slash unless it is made of slashes only. */
  function SplitPath(path: string): (r: (string, string))
    ensures '/' !in r.1
    ensures EndsWith(path, r.1)
    ensures StartsWith(path, r.0)
  {
    var i := RFind(path, '/') + 1;
    var head := path[..i];
    assert path[i..] == path[|path| - |path[i..]|..];
    (if head != [] && !AllSlashes(head) then RStripSlashes(head) else head, path[i..])
  }

  /** `os.path.join(a, b)` for two components. */
  function JoinPath(a: string, b: string): (r: string)
    ensures EndsWith(r, b)
    ensures StartsWith(b, "/") || StartsWith(r, a)
  {
    if StartsWith(b, "/") then b
    else if a == [] || EndsWith(a, "/") then a + b
    else a + "/" + b
  }

  /** Joining a directory (without trailing slash) with a plain name and
      splitting again gives the two parts back. */
  lemma SplitJoin(dir: string, name: string)
    requires '/' !in name
    requires dir == [] || dir[|dir| - 1] != '/'
    ensures SplitPath(JoinPath(dir, name)) == (dir, name)
  {
    if dir == [] {
      assert JoinPath(dir, name) == name;
      assert RFind(name, '/') == -1;
    } else {
      JoinPlain(dir, name);
      SplitAtSlash(dir, name);
    }
  }

  /** A plain name joins a directory without trailing slash after one
      slash. */
  lemma JoinPlain(dir: string, name: string)
    requires '/' !in name
    requires dir != [] && dir[|dir| - 1] != '/'
    ensures JoinPath(dir, name) == dir + "/" + name
  {
    assert !StartsWith(name, "/") by {
      if |name| > 0 { assert name[..1][0] == name[0]; }
    }
    assert !EndsWith(dir, "/") by {
      assert dir[|dir| - 1..][0] == dir[|dir| - 1];
    }
  }

  /** Splitting at the last slash, which follows a directory without
      trailing slash. */
  lemma SplitAtSlash(dir: string, name: string)
    requires '/' !in name
    requires dir != [] && dir[|dir| - 1] != '/'
    ensures SplitPath(dir + "/" + name) == (dir, name)
  {
    var p := dir + "/" + name;
    assert p[|dir|] == '/';
    assert forall j :: |dir| < j < |p| ==> p[j] == name[j - |dir| - 1];
    RFindLast(p, '/', |dir|);
    var head := p[..|dir| + 1];
    assert head == dir + "/";
    assert head[|dir| - 1] != '/';
    StripOneSlash(dir);
    assert p[|dir| + 1..] == name;
  }

  /** `rfind` finds a position holding `c` with no `c` after it. */
  lemma RFindLast(s: string, c: char, i: nat)
    requires i < |s| && s[i] == c
    requires forall j :: i < j < |s| ==> s[j] != c
    ensures RFind(s, c) == i
  {
  }

  /** `rstrip('/')` removes one trailing slash from a directory without
      one. */
  lemma StripOneSlash(dir: string)
    requires dir != [] && dir[|dir| - 1] != '/'
    ensures RStripSlashes(dir + "/") == dir
  {
    assert (dir + "/")[..|dir|] == dir;
  }

  /** `os.path.splitext(p)`: the extension starts at the last dot of the last
      component, provided something other than dots precedes it there. */
  function SplitExt(p: string): (r: (string, string))
    ensures r.0 + r.1 == p
    ensures r.1 == [] || (r.1[0] == '.' && '.' !in r.1[1..] && '/' !in r.1)
  {
    var sep := RFind(p, '/');
    var dot := RFind(p, '.');
    if dot > sep && exists k :: sep < k < dot && p[k] != '.' then
      assert forall j :: 0 <= j < |p[dot..]| ==> p[dot..][j] == p[dot + j];
      (p[..dot], p[dot..])
    else (p, [])
  }

  /** A plain root followed by a dot-free extension splits at that dot. */
  lemma SplitExtOf(root: string, e: string)
    requires |root| > 0 && root[0] != '.' && '/' !in root
    requires '.' !in e && '/' !in e
    ensures SplitExt(root + "." + e) == (root, "." + e)
  {
    var p := root + "." + e;
    assert p[|root|] == '.';
    assert forall j :: |root| < j < |p| ==> p[j] == e[j - |root| - 1];
    assert RFind(p, '.') == |root|;
    assert forall j :: 0 <= j < |p| ==> p[j] != '/';
    assert RFind(p, '/') == -1;
    assert p[0] != '.';
    assert p[..|root|] == root && p[|root|..] == "." + e;
  }

  // ---------------------------------------------------------------------
  // validate_title
  // ---------------------------------------------------------------------

  /** The characters a title may not contain: `/ \ : * ? " < > |` and newline. */
  predicate Forbidden(c: char) {
    c == '/' || c == '\\' || c == ':' || c == '*' || c == '?' || c == '"'
    || c == '<' || c == '>' || c == '|' || c == '\n'
  }

  /** `validate_title`: every forbidden character becomes `_`. */
  function ValidateTitle(title: string): (r: string)
    ensures |r| == |title|
    ensures forall i :: 0 <= i < |title| ==> r[i] == (if Forbidden(title[i]) then '_' else title[i])
  {
    if title == [] then []
    else [if Forbidden(title[0]) then '_' else title[0]] + ValidateTitle(title[1..])
  }

  /** A validated title holds no forbidden character, keeps every allowed one,
      and validating it again changes nothing. */
  lemma ValidateTitleSafe(title: string)
    ensures forall i :: 0 <= i < |title| ==> !Forbidden(ValidateTitle(title)[i])
    ensures forall i :: 0 <= i < |title| && !Forbidden(title[i]) ==> ValidateTitle(title)[i] == title[i]
    ensures ValidateTitle(ValidateTitle(title)) == ValidateTitle(title)
  {
    var v := ValidateTitle(title);
    assert !Forbidden('_');
    assert |ValidateTitle(v)| == |v|;
    forall i | 0 <= i < |v| ensures ValidateTitle(v)[i] == v[i] { }
  }

  // ---------------------------------------------------------------------
  // truncate_filename
  // ---------------------------------------------------------------------

  /** Bytes the UTF-8 encoding of one code point takes. */
  function Utf8Len(c: char): (r: nat)
    ensures 1 <= r <= 4
  {
    if c as int < 0x80 then 1
    else if c as int < 0x800 then 2
    else if c as int < 0x10000 then 3
    else 4
  }

  /** `len(s.encode('utf-8'))` */
  function ByteLen(s: string): nat {
    if s == [] then 0 else Utf8Len(s[0]) + ByteLen(s[1..])
  }

  /** `t` is the longest prefix of whole characters of `s` whose encoding
      fits in `n` bytes. */
  predicate LongestCut(s: string, n: nat, t: string) {
    |t| <= |s| && t == s[..|t|] && ByteLen(t) <= n
    && (|t| < |s| ==> ByteLen(s[..|t| + 1]) > n)
  }

  /** `s.encode()[:n].decode('utf-8', errors='ignore')` for `n >= 0`: the
      longest prefix of whole characters whose encoding fits in `n` bytes. */
  function Utf8Prefix(s: string, n: nat): (r: string)
    ensures LongestCut(s, n, r)
  {
    if s == [] then []
    else if Utf8Len(s[0]) > n then
      assert s[..1][1..] == [];
      []
    else
      var t := Utf8Prefix(s[1..], n - Utf8Len(s[0]));
      var r := [s[0]] + t;
      assert r[1..] == t;
      assert |r| < |s| ==> s[..|r| + 1][1..] == s[1..][..|t| + 1];
      r
  }

  /** The byte budget `s[:f_max]` leaves a stem of `stemBytes` bytes when
      `f_max = limit - extBytes`; a negative `f_max` counts from the end, as
      Python slicing does. */
  function StemBudget(limit: int, extBytes: nat, stemBytes: nat): (r: nat)
    ensures limit - extBytes >= 0 ==> r == limit - extBytes
    ensures limit - extBytes < 0 ==> r <= stemBytes
  {
    var fMax := limit - extBytes;
    if fMax >= 0 then fMax
    else if stemBytes + fMax >= 0 then stemBytes + fMax
    else 0
  }

  /** `truncate_filename(path, limit)`, with `os.path.normpath` given as
      `normpath`. The directory and the extension are kept; the stem is cut
      to the longest prefix of whole characters within the byte budget. */
  function TruncateFilename(path: string, limit: int, normpath: string -> string): (r: string)
    ensures var parts := SplitPath(normpath(path));
            var stem := SplitExt(parts.1);
            exists t :: LongestCut(stem.0, StemBudget(limit, ByteLen(stem.1), ByteLen(stem.0)), t)
              && r == JoinPath(parts.0, t + stem.1)
  {
    var parts := SplitPath(normpath(path));
    var stem := SplitExt(parts.1);
    var t := Utf8Prefix(stem.0, StemBudget(limit, ByteLen(stem.1), ByteLen(stem.0)));
    JoinPath(parts.0, t + stem.1)
  }

  /** Only one prefix is the longest that fits. */
  lemma LongestCutUnique(s: string, n: nat, t: string, u: string)
    requires LongestCut(s, n, t) && LongestCut(s, n, u)
    ensures t == u
  {
    if |t| < |u| {
      LongerCutFits(s, n, u, |t|);
      assert false;
    } else if |u| < |t| {
      LongerCutFits(s, n, t, |u|);
      assert false;
    }
  }

  /** Every prefix of a fitting cut fits too. */
  lemma LongerCutFits(s: string, n: nat, u: string, k: nat)
    requires LongestCut(s, n, u) && k < |u|
    ensures ByteLen(s[..k + 1]) <= n
  {
    PrefixByteLen(u, k + 1);
    assert u[..k + 1] == s[..k + 1];
  }

  /** A prefix takes no more bytes than the whole. */
  lemma {:induction false} PrefixByteLen(s: string, k: nat)
    requires k <= |s|
    ensures ByteLen(s[..k]) <= ByteLen(s)
  {
    if k > 0 {
      assert s[..k][1..] == s[1..][..k - 1];
      PrefixByteLen(s[1..], k - 1);
    }
  }

  lemma {:induction false} Utf8PrefixWhole(s: string, n: nat)
    requires ByteLen(s) <= n
    ensures Utf8Prefix(s, n) == s
  {
    if s != [] {
      Utf8PrefixWhole(s[1..], n - Utf8Len(s[0]));
    }
  }

  /** A name whose stem and extension already fit is only normalised. */
  lemma TruncateShortName(path: string, limit: int, normpath: string -> string)
    requires var stem := SplitExt(SplitPath(normpath(path)).1);
             ByteLen(stem.0) + ByteLen(stem.1) <= limit
    ensures var parts := SplitPath(normpath(path));
            TruncateFilename(path, limit, normpath) == JoinPath(parts.0, parts.1)
  {
    var parts := SplitPath(normpath(path));
    var stem := SplitExt(parts.1);
    Utf8PrefixWhole(stem.0, StemBudget(limit, ByteLen(stem.1), ByteLen(stem.0)));
  }

  lemma {:induction false} ByteLenAppend(a: string, b: string)
    ensures ByteLen(a + b) == ByteLen(a) + ByteLen(b)
  {
    if a == [] {
      assert a + b == b;
    } else {
      assert (a + b)[0] == a[0];
      assert (a + b)[1..] == a[1..] + b;
      ByteLenAppend(a[1..], b);
    }
  }

  /** With an extension of at most `limit` bytes, the truncated file name
      (stem and extension together) fits in `limit` bytes. */
  lemma TruncatedNameFits(path: string, limit: int, normpath: string -> string)
    requires ByteLen(SplitExt(SplitPath(normpath(path)).1).1) <= limit
    ensures var parts := SplitPath(normpath(path));
            var stem := SplitExt(parts.1);
            exists t :: TruncateFilename(path, limit, normpath) == JoinPath(parts.0, t + stem.1)
              && ByteLen(t + stem.1) <= limit
  {
    var parts := SplitPath(normpath(path));
    var stem := SplitExt(parts.1);
    var t := Utf8Prefix(stem.0, StemBudget(limit, ByteLen(stem.1), ByteLen(stem.0)));
    ByteLenAppend(t, stem.1);
  }

  // ---------------------------------------------------------------------
  // Suffix classifiers (extract_full_extension, is_compressed_file)
  // ---------------------------------------------------------------------

  /** A run of `[a-z0-9]` under case folding. */
  predicate AllAlnum(s: string) {
    |s| > 0 && forall i :: 0 <= i < |s| ==> IsDigit(s[i]) || 'a' <= LowerChar(s[i]) <= 'z'
  }

  /** `(7z|rar|zip|r\d+|z\d+|s\d+|t\d+)` on one dot-free, lower-cased piece. */
  predicate VolumeHead(t: string) {
    t == "7z" || t == "rar" || t == "zip" || OldVolume(t)
  }

  /** `(r\d+|z\d+|s\d+|t\d+)` */
  predicate OldVolume(t: string) {
    |t| >= 2 && (t[0] == 'r' || t[0] == 'z' || t[0] == 's' || t[0] == 't') && AllDigits(t[1..])
  }

  predicate ArchiveHead(t: string) {
    t == "tar" || t == "zip" || t == "7z" || t == "rar"
  }

  predicate ArchiveTail(t: string) {
    t == "gz" || t == "bz2" || t == "xz" || t == "zip" || t == "7z" || t == "rar"
  }

  predicate TarCompression(t: string) {
    t == "gz" || t == "bz2" || t == "xz"
  }

  /** The pieces of `s` between dots. */
  function Pieces(s: string): (r: seq<string>)
    ensures |r| >= 1
  {
    Split(s, '.')
  }

  /** First pattern, `\.(7z|rar|zip|r\d+|z\d+|s\d+|t\d+)\.\d+$`: the last two
      pieces, preceded by a dot. */
  predicate SplitVolume(p: seq<string>) {
    |p| >= 3 && VolumeHead(Lower(p[|p| - 2])) && AllDigits(p[|p| - 1])
  }

  /** Second pattern, `\.(tar|zip|7z|rar)(\.(gz|bz2|xz|zip|7z|rar))+$`, tried
      from the dot before piece `m`. */
  predicate ChainAt(p: seq<string>, m: int) {
    1 <= m < |p| - 1 && ArchiveHead(Lower(p[m]))
    && forall j :: m < j < |p| ==> ArchiveTail(Lower(p[j]))
  }

  /** The leftmost start of the second pattern, if any (`re.search`). */
  function ChainStart(p: seq<string>, m: nat): (r: Option<nat>)
    requires m >= 1
    ensures r.Some? ==> m <= r.value && ChainAt(p, r.value)
    ensures r.Some? ==> forall j :: m <= j < r.value ==> !ChainAt(p, j)
    ensures r.None? ==> forall j :: m <= j ==> !ChainAt(p, j)
    decreases |p| - m
  {
    if m >= |p| - 1 then None
    else if ChainAt(p, m) then Some(m)
    else ChainStart(p, m + 1)
  }

  /** Third pattern, `\.(tar\.(gz|bz2|xz)|[a-z0-9]+\.\d+)$`. */
  predicate TwoPart(p: seq<string>) {
    |p| >= 3
    && ((Lower(p[|p| - 2]) == "tar" && TarCompression(Lower(p[|p| - 1])))
        || (AllAlnum(p[|p| - 2]) && AllDigits(p[|p| - 1])))
  }

  /** `s.lstrip('.')` */
  function LStripDots(s: string): (r: string)
    ensures |r| <= |s| && r == s[|s| - |r|..]
    ensures r == [] || r[0] != '.'
  {
    if |s| > 0 && s[0] == '.' then LStripDots(s[1..]) else s
  }

  /** The three multi-part patterns, tried in order; each returns the matched
      suffix without its leading dot. */
  function MultiPartExtension(s: string): (r: Option<string>)
    ensures r.Some? ==> r.value != [] && r.value[0] != '.' && EndsWith(s, "." + r.value)
  {
    var p := Pieces(s);
    if SplitVolume(p) then
      PatternPieceNotEmpty(p[|p| - 2]);
      Some(LastPieces(s, p, |p| - 2))
    else
      var chain := ChainStart(p, 1);
      if chain.Some? then
        PatternPieceNotEmpty(p[chain.value]);
        Some(LastPieces(s, p, chain.value))
      else if TwoPart(p) then
        PatternPieceNotEmpty(p[|p| - 2]);
        Some(LastPieces(s, p, |p| - 2))
      else None
  }

  /** A piece that starts one of the patterns holds at least one character. */
  lemma PatternPieceNotEmpty(t: string)
    requires VolumeHead(Lower(t)) || ArchiveHead(Lower(t)) || Lower(t) == "tar" || AllAlnum(t)
    ensures t != []
  {
  }

  /** `os.path.splitext(s)[-1].lstrip('.')` when that extension is not empty. */
  function PlainExtension(s: string): (r: Option<string>)
    ensures r.None? <==> SplitExt(s).1 == []
    ensures r.Some? ==> (r.value == [] || r.value[0] != '.') && EndsWith(s, "." + r.value)
  {
    var ext := SplitExt(s).1;
    if ext == [] then None
    else
      assert LStripDots(ext) == ext[1..] by {
        assert ext[0] == '.';
        assert ext[1..] == [] || ext[1..][0] != '.';
      }
      assert "." + ext[1..] == ext;
      assert s == SplitExt(s).0 + ext;
      Some(LStripDots(ext))
  }

  /** `extract_full_extension(filename)`: archive volume and multi-part
      suffixes are returned whole, anything else falls back to the last
      `splitext` extension; the leading dot is dropped. */
  function ExtractFullExtension(filename: Option<string>): (r: Option<string>)
    ensures filename.None? || Strip(filename.value) == [] ==> r.None?
    ensures r.Some? ==> r.value == [] || r.value[0] != '.'
    ensures r.Some? ==> EndsWith(Strip(filename.value), "." + r.value)
    ensures filename.Some? && Strip(filename.value) != [] && MultiPartExtension(Strip(filename.value)).None? ==>
              r == PlainExtension(Strip(filename.value))
  {
    if filename.None? || filename.value == [] then None
    else
      var s := Strip(filename.value);
      if s == [] then None
      else
        var multi := MultiPartExtension(s);
        if multi.Some? then multi else PlainExtension(s)
  }

  /** The pieces from `m` on, glued back with dots: `match.group(0).lstrip('.')`
      when the match starts at the dot before piece `m`. */
  function LastPieces(s: string, p: seq<string>, m: nat): (r: string)
    requires p == Pieces(s) && 1 <= m < |p|
    requires p[m] != []
    ensures r == [] || r[0] != '.'
    ensures EndsWith(s, "." + r)
  {
    var r := Join(p[m..], '.');
    JoinSplit(s, '.');
    assert p == p[..m] + p[m..];
    JoinAppend(p[..m], p[m..], '.');
    assert s == Join(p[..m], '.') + "." + r;
    assert r[0] == p[m][0] by {
      if |p[m..]| > 1 { assert r == p[m] + ['.'] + Join(p[m + 1..], '.'); }
    }
    assert '.' !in p[m];
    r
  }

  /** The single archive extensions, lower case. */
  predicate SingleArchiveExt(t: string) {
    t in {"7z", "rar", "zip", "tar", "gz", "bz2", "xz", "arj", "cab", "lzh", "lzma", "tgz", "tbz2", "txz", "z"}
  }

  /** Archive suffix tests on the dot-separated pieces of a name. */
  predicate CompressedPieces(p: seq<string>) {
    var n := |p|;
    // \.(7z|rar|zip|tar|gz|bz2|xz|arj|cab|lzh|lzma|tgz|tbz2|txz|z|Z)$
    (n >= 2 && SingleArchiveExt(p[n - 1]))
    // \.(tar\.(gz|bz2|xz)|7z\.\d+|rar\.\d+|zip\.\d+)$
    || (n >= 3 && ((p[n - 2] == "tar" && TarCompression(p[n - 1]))
                   || (p[n - 2] in {"7z", "rar", "zip"} && AllDigits(p[n - 1]))))
    // \.(r\d+|z\d+|s\d+|t\d+)$
    || (n >= 2 && OldVolume(p[n - 1]))
  }

  /** `is_compressed_file(filename)`: a case-insensitive test of the suffix;
      Python's `$` also matches just before a final newline. */
  function IsCompressedFile(filename: Option<string>): (r: bool)
    ensures filename.None? || filename.value == [] ==> !r
  {
    if filename.None? || filename.value == [] then false
    else
      var s := Lower(filename.value);
      CompressedPieces(Pieces(s)) || (EndsWith(s, "\n") && CompressedPieces(Pieces(s[..|s| - 1])))
  }

  /** Upper and lower case spellings of a name are classified alike. */
  lemma CompressedIgnoresCase(name: string)
    ensures IsCompressedFile(Some(Lower(name))) == IsCompressedFile(Some(name))
  {
    LowerIdempotent(name);
  }

  /** The dot-free last piece of `x + "." + e` is `e`. */
  lemma {:induction false} LastPiece(x: string, e: string)
    requires '.' !in e
    ensures |Pieces(x + "." + e)| >= 2
    ensures Pieces(x + "." + e)[|Pieces(x + "." + e)| - 1] == e
  {
    var sx := Split(x, '.');
    var last := sx[|sx| - 1];
    SplitAppend(x, "." + e, '.');
    assert x + ("." + e) == x + "." + e;
    assert last + ("." + e) == last + ['.'] + e;
    SplitAtFirst(last, e, '.');
    SplitNoSeparator(e, '.');
    var whole := Split(x + "." + e, '.');
    assert whole == sx[..|sx| - 1] + ([last] + [e]);
    assert Pieces(x + "." + e) == whole;
  }

  lemma LowerAroundDot(stem: string, ext: string)
    ensures Lower(stem + "." + ext) == Lower(stem) + "." + Lower(ext)
  {
    LowerAppend(stem + ".", ext);
    LowerAppend(stem, ".");
  }

  /** Any name ending in one of the single archive extensions, in any case,
      is recognised. */
  lemma ArchiveExtensionRecognised(stem: string, ext: string)
    requires SingleArchiveExt(Lower(ext))
    ensures IsCompressedFile(Some(stem + "." + ext))
  {
    var e := Lower(ext);
    assert '.' !in e by {
      assert e[|e| - 1] != '.';
      assert forall i :: 0 <= i < |e| ==> e[i] != '.';
    }
    LowerAroundDot(stem, ext);
    LastPiece(Lower(stem), e);
    var p := Pieces(Lower(stem + "." + ext));
    assert |p| >= 2 && p[|p| - 1] == e;
    assert CompressedPieces(p);
  }

  // ---------------------------------------------------------------------
  // The file system
  // ---------------------------------------------------------------------

  /** What a path denotes; `size` is what `os.path.getsize` reports. */
  datatype Entry = File(size: nat) | Dir(size: nat)

  /** Failures the file operations report through their `e_code`. */
  datatype ErrorCode =
    | NotAFile(path: string)            // safe_replace: origin missing or not a file
    | ReplaceFailed(path: string)       // safe_replace: os.replace refused
    | SaveDirExists(path: string)       // move_to_save_directory: makedirs hit a file
    | NameConflict(name: string)        // move_to_save_directory: target name taken
    | MoveFailed(path: string)          // move_to_save_directory: nothing to move

  predicate IsFile(fs: map<string, Entry>, p: string) {
    p in fs && fs[p].File?
  }

  predicate IsDir(fs: map<string, Entry>, p: string) {
    p in fs && fs[p].Dir?
  }

  /** `compare_file_size` */
  predicate CompareFileSize(a: int, b: int) {
    a == b
  }

  /** `is_file_duplicate`: a non-directory entry of exactly the server size. */
  function IsFileDuplicate(fs: map<string, Entry>, path: string, serverSize: int): (r: bool)
    ensures r <==> IsFile(fs, path) && fs[path].size == serverSize
  {
    !IsDir(fs, path) && path in fs && CompareFileSize(fs[path].size, serverSize)
  }

  /** `get_file_size(path, temp_ext)`: the size of the path, else of its
      temporary twin, else 0. */
  function GetFileSize(fs: map<string, Entry>, path: string, tempExt: string): (r: nat)
    ensures path in fs ==> r == fs[path].size
    ensures path !in fs && path + tempExt in fs ==> r == fs[path + tempExt].size
    ensures path !in fs && path + tempExt !in fs ==> r == 0
  {
    if path in fs then fs[path].size
    else if path + tempExt in fs then fs[path + tempExt].size
    else 0
  }

  /** `os.replace(a, b)` on the tree. */
  function Renamed(fs: map<string, Entry>, a: string, b: string): (r: map<string, Entry>)
    requires a in fs
    ensures b in r && r[b] == fs[a]
    ensures a != b ==> a !in r
    ensures forall p :: p != a && p != b ==> (p in r <==> p in fs) && (p in r ==> r[p] == fs[p])
  {
    if a == b then fs else (fs - {a})[b := fs[a]]
  }

  /** `shutil.rmtree(p)` on the tree: `p` and everything below it. */
  function Pruned(fs: map<string, Entry>, p: string): (r: map<string, Entry>)
    ensures p !in r
    ensures forall q :: q in r <==> q in fs && q != p && !StartsWith(q, p + "/")
    ensures forall q :: q in r ==> r[q] == fs[q]
  {
    map q | q in fs && q != p && !StartsWith(q, p + "/") :: fs[q]
  }

  /** Finalising a complete temporary file does not change the size
      `get_file_size` reports for the final name. */
  lemma SizeStableUnderFinalise(fs: map<string, Entry>, path: string, tempExt: string)
    requires path !in fs && IsFile(fs, path + tempExt)
    ensures GetFileSize(Renamed(fs, path + tempExt, path), path, tempExt) == GetFileSize(fs, path, tempExt)
  {
  }

  /** A download whose temporary file has the server size, once moved into
      the save directory, is found as a duplicate under its final name. */
  lemma MovedFileIsDuplicate(fs: map<string, Entry>, temp: string, dest: string, serverSize: nat)
    requires IsFile(fs, temp) && fs[temp].size == serverSize
    ensures IsFileDuplicate(Renamed(fs, temp, dest), dest, serverSize)
  {
  }

  /** The tree `safe_replace(a, b)` leaves: `a` renamed to `b` when `a` is a
      file and `b` is not a different directory; unchanged otherwise. */
  function AfterReplace(fs: map<string, Entry>, a: string, b: string): (r: map<string, Entry>)
    ensures IsFile(fs, a) && !(IsDir(fs, b) && a != b) ==> b in r && r[b] == fs[a] && (a != b ==> a !in r)
    ensures !IsFile(fs, a) || (IsDir(fs, b) && a != b) ==> r == fs
    ensures forall p :: p != a && p != b ==> (p in r <==> p in fs) && (p in r ==> r[p] == fs[p])
  {
    if !IsFile(fs, a) || (IsDir(fs, b) && a != b) then fs else Renamed(fs, a, b)
  }

  /** The tree `safe_delete(p)` leaves. */
  function AfterDelete(fs: map<string, Entry>, p: string): (r: map<string, Entry>)
    ensures p !in r
    ensures forall q :: q != p && !StartsWith(q, p + "/") ==> (q in r <==> q in fs) && (q in r ==> r[q] == fs[q])
    ensures IsFile(fs, p) || p !in fs ==> r == fs - {p}
  {
    if IsDir(fs, p) then Pruned(fs, p) else fs - {p}
  }

  /** The tree after `os.makedirs(save_dir, exist_ok=True)` on a path that
      is not a file. */
  function MadeDir(fs: map<string, Entry>, saveDir: string): (r: map<string, Entry>)
    ensures saveDir in r && r.Keys == fs.Keys + {saveDir}
  {
    if saveDir in fs then fs else fs[saveDir := Dir(0)]
  }

  /** The tree after the file `temp` is moved to `dest`, unless `dest` is
      taken or there is no file to move. */
  function MovedTo(fs: map<string, Entry>, temp: string, dest: string): map<string, Entry> {
    if dest in fs || !IsFile(fs, temp) then fs else Renamed(fs, temp, dest)
  }

  /** The error that move reports, if any; `name` is the file's name. */
  function MoveToError(fs: map<string, Entry>, temp: string, dest: string, name: string): Option<ErrorCode> {
    if dest in fs then Some(NameConflict(name))
    else if !IsFile(fs, temp) then Some(MoveFailed(temp))
    else None
  }

  /** The tree `move_to_save_directory(temp, save_dir)` leaves: the save
      directory made when missing, then the file moved into it unless the
      name is taken or there is no file to move. */
  function AfterMove(fs: map<string, Entry>, temp: string, saveDir: string): (r: map<string, Entry>)
    ensures IsFile(fs, saveDir) ==> r == fs
    ensures !IsFile(fs, saveDir) && IsFile(fs, temp) && JoinPath(saveDir, SplitPath(temp).1) !in fs
            && JoinPath(saveDir, SplitPath(temp).1) != saveDir ==>
              var dest := JoinPath(saveDir, SplitPath(temp).1);
              dest in r && r[dest] == fs[temp] && (temp != dest ==> temp !in r)
  {
    if IsFile(fs, saveDir) then fs
    else MovedTo(MadeDir(fs, saveDir), temp, JoinPath(saveDir, SplitPath(temp).1))
  }

  /** The error `move_to_save_directory(temp, save_dir)` reports, if any. */
  function MoveError(fs: map<string, Entry>, temp: string, saveDir: string): Option<ErrorCode> {
    if IsFile(fs, saveDir) then Some(SaveDirExists(saveDir))
    else MoveToError(MadeDir(fs, saveDir), temp, JoinPath(saveDir, SplitPath(temp).1), SplitPath(temp).1)
  }

  /** A move reports an error exactly when the file is not moved: a file in
      the way of the save directory leaves everything as it was; a taken
      name or a missing file leaves only the made directory; otherwise the
      file is renamed into the directory. */
  lemma MoveOutcome(fs: map<string, Entry>, temp: string, saveDir: string)
    ensures IsFile(fs, saveDir) ==>
              MoveError(fs, temp, saveDir) == Some(SaveDirExists(saveDir)) && AfterMove(fs, temp, saveDir) == fs
    ensures !IsFile(fs, saveDir) ==>
              var made := if saveDir in fs then fs else fs[saveDir := Dir(0)];
              var dest := JoinPath(saveDir, SplitPath(temp).1);
              saveDir in made && IsDir(made, saveDir)
              && (MoveError(fs, temp, saveDir).Some? <==> AfterMove(fs, temp, saveDir) == made)
              && (MoveError(fs, temp, saveDir).None? ==> AfterMove(fs, temp, saveDir) == Renamed(made, temp, dest))
  {
    if !IsFile(fs, saveDir) {
      var made := if saveDir in fs then fs else fs[saveDir := Dir(0)];
      var dest := JoinPath(saveDir, SplitPath(temp).1);
      if MoveError(fs, temp, saveDir).None? {
        assert dest !in made && dest in AfterMove(fs, temp, saveDir);
      }
    }
  }

  /** The host file system, as a map from path to entry. Parent directories
      are not tracked: paths are compared as strings. */
  class FileSystem {
    var tree: map<string, Entry>

    constructor (init: map<string, Entry>)
      ensures tree == init
    {
      tree := init;
    }

    /** `safe_replace(origin, overwrite)` */
    method SafeReplace(origin: string, overwrite: string) returns (eCode: Option<ErrorCode>)
      modifies this
      ensures !IsFile(old(tree), origin) ==> eCode == Some(NotAFile(origin)) && tree == old(tree)
      ensures IsFile(old(tree), origin) && IsDir(old(tree), overwrite) && origin != overwrite ==>
                eCode == Some(ReplaceFailed(overwrite)) && tree == old(tree)
      ensures IsFile(old(tree), origin) && !(IsDir(old(tree), overwrite) && origin != overwrite) ==>
                eCode == None && tree == Renamed(old(tree), origin, overwrite)
      ensures tree == AfterReplace(old(tree), origin, overwrite)
    {
      if !IsFile(tree, origin) {
        return Some(NotAFile(origin));
      }
      if IsDir(tree, overwrite) && origin != overwrite {
        return Some(ReplaceFailed(overwrite));
      }
      tree := Renamed(tree, origin, overwrite);
      eCode := None;
    }

    /** `safe_delete(p)`: `Some(true)` once a directory tree or a file is
      removed, `None` (the function falls off its end) when nothing is there. */
    method SafeDelete(p: string) returns (r: Option<bool>)
      modifies this
      ensures IsDir(old(tree), p) ==> r == Some(true) && tree == Pruned(old(tree), p)
      ensures IsFile(old(tree), p) ==> r == Some(true) && tree == old(tree) - {p}
      ensures p !in old(tree) ==> r == None && tree == old(tree)
      ensures tree == AfterDelete(old(tree), p)
    {
      if IsDir(tree, p) {
        tree := Pruned(tree, p);
        r := Some(true);
      } else if IsFile(tree, p) {
        tree := tree - {p};
        r := Some(true);
      } else {
        r := None;
      }
    }

    /** `move_to_save_directory(temp, saveDir)` */
    method MoveToSaveDirectory(temp: string, saveDir: string) returns (eCode: Option<ErrorCode>)
      modifies this
      ensures eCode == MoveError(old(tree), temp, saveDir)
      ensures tree == AfterMove(old(tree), temp, saveDir)
    {
      if IsFile(tree, saveDir) {
        return Some(SaveDirExists(saveDir));
      }
      MakeDirs(saveDir);
      var name := SplitPath(temp).1;
      eCode := MoveTo(temp, JoinPath(saveDir, name), name);
    }

    /** `os.makedirs(save_dir, exist_ok=True)` on a path that is not a file. */
    method MakeDirs(saveDir: string)
      modifies this
      ensures tree == MadeDir(old(tree), saveDir)
    {
      if saveDir !in tree {
        tree := tree[saveDir := Dir(0)];
      }
    }

    /** `shutil.move(temp, dest)` unless `dest` is taken; `name` is the
        file's name. */
    method MoveTo(temp: string, dest: string, name: string) returns (eCode: Option<ErrorCode>)
      modifies this
      ensures eCode == MoveToError(old(tree), temp, dest, name)
      ensures tree == MovedTo(old(tree), temp, dest)
    {
      if dest in tree {
        return Some(NameConflict(name));
      }
      if !IsFile(tree, temp) {
        return Some(MoveFailed(temp));
      }
      tree := Renamed(tree, temp, dest);
      eCode := None;
    }

    /** `open(p, 'wb')` / `open(p, 'ab')`: truncate or keep, creating the file
      when absent; `false` when `p` is a directory and cannot be opened. */
    method Open(p: string, append: bool) returns (ok: bool)
      modifies this
      ensures ok <==> !IsDir(old(tree), p)
      ensures ok && (!append || p !in old(tree)) ==> tree == old(tree)[p := File(0)]
      ensures !ok || (append && p in old(tree)) ==> tree == old(tree)
    {
      if IsDir(tree, p) {
        return false;
      }
      if !append || p !in tree {
        tree := tree[p := File(0)];
      }
      ok := true;
    }

    /** `f.write(chunk)` on a file opened for writing. */
    method Write(p: string, n: nat)
      requires IsFile(tree, p)
      modifies this
      ensures tree == old(tree)[p := File(old(tree)[p].size + n)]
    {
      tree := tree[p := File(tree[p].size + n)];
    }
  }
}
