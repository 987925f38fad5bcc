/** The bot's link intake: the links a user sends (typed, or listed in a
    `.txt` file) are sorted into Telegram links and the rest, and links whose
    canonical key is already being downloaded or already complete are set
    aside before any task is created. */
module BotLinks {
  import opened Common
  import Downloader

  /** The prefix every accepted link starts with. */
  const StartContent: string := "https://t.me/"

  // ---------------------------------------------------------------------
  // Deduplication in get_download_link_from_bot
  // ---------------------------------------------------------------------

  /** `{canonical_link_str(l) for l in links}` */
  function CanonSet(links: seq<string>, canon: string -> string): set<string> {
    set l | l in links :: canon(l)
  }

  /** `{canonical_link_str(s): s for s in links}`: a later spelling of the
      same canonical key overwrites an earlier one. */
  function CanonMap(links: seq<string>, canon: string -> string): (m: map<string, string>)
    ensures m.Keys == CanonSet(links, canon)
    ensures forall c :: c in m ==> m[c] in links && canon(m[c]) == c
  {
    if links == [] then map[]
    else
      var n := |links|;
      var m := CanonMap(links[..n - 1], canon);
      assert CanonSet(links, canon) == CanonSet(links[..n - 1], canon) + {canon(links[n - 1])} by {
        assert links == links[..n - 1] + [links[n - 1]];
      }
      m[canon(links[n - 1]) := links[n - 1]]
  }

  /** The canonical keys of the request that are already taken on by the
      bot or already complete. */
  function Existed(rightCanon: set<string>, taskCanon: set<string>, complete: set<string>): set<string> {
    (set c | c in rightCanon && c in taskCanon) + (set c | c in rightCanon && c in complete)
  }

  /** What the dedup leaves: the links to go ahead with, their canonical
      keys, and the links reported as already present. */
  datatype Dedup = Dedup(right: set<string>, rightCanon: set<string>, exist: set<string>)

  /** The dedup as written: the existing keys are mapped back to a spelling
      through `canon_map`, which holds one spelling per key, and only that
      spelling is taken out of `right_link`. `right` is `right_link` in the
      order the set is iterated. */
  function DeduplicateAsWritten(right: seq<string>, taskCanon: set<string>, complete: set<string>,
                          canon: string -> string): Dedup
  {
    var rightCanon := CanonSet(right, canon);
    var existed := Existed(rightCanon, taskCanon, complete);
    var m := CanonMap(right, canon);
    var exist := set c | c in existed && c in m :: m[c];
    Dedup((set l | l in right) - exist, rightCanon - existed, exist)
  }

  /** What the dedup as written does guarantee: the remaining keys are
      neither taken on nor complete, the reported links come from the
      request and are exactly the links removed from it. */
  lemma DedupAsWrittenKeys(right: seq<string>, taskCanon: set<string>, complete: set<string>,
                           canon: string -> string)
    ensures var d := DeduplicateAsWritten(right, taskCanon, complete, canon);
            && d.rightCanon * (taskCanon + complete) == {}
            && d.exist <= (set l | l in right)
            && d.right + d.exist == (set l | l in right) && d.right * d.exist == {}
            && forall l :: l in d.exist ==> canon(l) in taskCanon + complete
  {
    var d := DeduplicateAsWritten(right, taskCanon, complete, canon);
    var m := CanonMap(right, canon);
    forall l | l in d.exist
      ensures l in right && canon(l) in taskCanon + complete
    {
      var c :| c in Existed(CanonSet(right, canon), taskCanon, complete) && c in m && m[c] == l;
    }
  }

  /** A Telegram link, for the examples below. */
  const Plain: string := "https://t.me/c/1/2"

  /** Any two spellings of one finished link, iterated in this order: the
      dedup as written reports the later one as present and still lets the
      earlier one through to be downloaded again. */
  lemma DedupAsWrittenKeepsSecondSpelling(a: string, b: string, canon: string -> string)
    requires a != b && canon(a) == canon(b)
    ensures var d := DeduplicateAsWritten([a, b], {}, {canon(a)}, canon);
            d.exist == {b} && a in d.right
  {
    var right := [a, b];
    var k := canon(a);
    assert CanonSet(right, canon) == {k} by {
      assert canon(right[0]) == k;
      forall c | c in CanonSet(right, canon)
        ensures c == k
      {
        var l :| l in right && canon(l) == c;
        assert l == a || l == b;
      }
    }
    var m := CanonMap(right, canon);
    assert right[..1] == [a] && [a][..0] == [];
    assert m == map[k := b];
    assert Existed({k}, {}, {k}) == {k};
  }

  /** The dedup as intended: every spelling whose canonical key is taken on
      or complete is set aside. */
  function Deduplicate(right: seq<string>, taskCanon: set<string>, complete: set<string>,
                 canon: string -> string): Dedup
  {
    var rightCanon := CanonSet(right, canon);
    var existed := Existed(rightCanon, taskCanon, complete);
    Dedup((set l | l in right && canon(l) !in existed),
          rightCanon - existed,
          (set l | l in right && canon(l) in existed))
  }

  /** The corrected dedup lets no link through whose key is taken on or
      complete, splits the request between the two outcomes, keeps the
      remaining keys in step with the remaining links, and reports every
      link the version as written reports. */
  lemma DedupSound(right: seq<string>, taskCanon: set<string>, complete: set<string>,
                   canon: string -> string)
    ensures var d := Deduplicate(right, taskCanon, complete, canon);
            && (forall l :: l in d.right ==> canon(l) !in taskCanon + complete)
            && (forall l :: l in d.exist ==> canon(l) in taskCanon + complete)
            && d.right + d.exist == (set l | l in right) && d.right * d.exist == {}
            && d.rightCanon == (set l | l in d.right :: canon(l))
            && DeduplicateAsWritten(right, taskCanon, complete, canon).exist <= d.exist
  {
    var d := Deduplicate(right, taskCanon, complete, canon);
    var existed := Existed(CanonSet(right, canon), taskCanon, complete);
    forall c | c in d.rightCanon
      ensures c in (set l | l in d.right :: canon(l))
    {
      var l :| l in right && canon(l) == c;
      assert l in d.right;
    }
    var m := CanonMap(right, canon);
    forall l | l in DeduplicateAsWritten(right, taskCanon, complete, canon).exist
      ensures l in d.exist
    {
      var c :| c in existed && c in m && m[c] == l;
    }
  }

  // ---------------------------------------------------------------------
  // __process_links
  // ---------------------------------------------------------------------

  /** What `__process_links` is given: one string (a link or the path of a
      `.txt` file of links) or a list of such arguments. */
  datatype LinkArg = Text(s: string) | Items(items: seq<LinkArg>)

  /** What it hands back: a non-empty set of links, `None`, or the end of
      the program through `sys.exit(0)`. */
  datatype Processed = Found(links: set<string>) | NotFound | Exit

  /** How a stripped line of a links file is treated. */
  datatype LineKind = Accepted | Skipped | Illegal

  /** A line starting with `https://t.me/` is a link; a blank line or a
      `#` comment is skipped; anything else is reported as illegal. */
  function ClassifyLine(line: string): (k: LineKind)
    ensures k == Accepted ==> StartsWith(line, StartContent)
    ensures k == Skipped ==> !StartsWith(line, StartContent) && (line == "" || line[0] == '#')
    ensures k == Illegal ==> line != "" && line[0] != '#' && !StartsWith(line, StartContent)
  {
    if StartsWith(line, StartContent) then Accepted
    else if line == "" || StartsWith(line, "#") then Skipped
    else Illegal
  }

  /** A comment line is never taken as a link, whatever follows the `#`. */
  lemma CommentNeverAccepted(rest: string)
    ensures ClassifyLine("#" + rest) == Skipped
  {
    assert ("#" + rest)[0] == '#' != StartContent[0];
  }

  /** The links a file of lines yields: each line stripped, the links kept. */
  function FileLinks(lines: seq<string>): (r: set<string>)
    ensures forall l :: l in r ==> StartsWith(l, StartContent)
  {
    if lines == [] then {}
    else FileLinks(lines[..|lines| - 1]) + LineLinks(lines[|lines| - 1])
  }

  /** The lines reported as illegal, in file order. */
  function IllegalLines(lines: seq<string>): seq<string> {
    if lines == [] then []
    else IllegalLines(lines[..|lines| - 1]) + LineIllegal(lines[|lines| - 1])
  }

  /** The links a single string yields: the accepted lines of the `.txt`
      file it names, or itself when it is a link. */
  function TextLinks(s: string, files: map<string, seq<string>>): (r: set<string>)
    ensures forall l :: l in r ==> StartsWith(l, StartContent)
  {
    if EndsWith(s, ".txt") && s in files then FileLinks(files[s])
    else if StartsWith(s, StartContent) then {s}
    else {}
  }

  /** The links a single string yields that came from a file; those are
      also recorded in `bot_task_link`. */
  function FromFile(s: string, files: map<string, seq<string>>): set<string> {
    if EndsWith(s, ".txt") && s in files then FileLinks(files[s]) else {}
  }

  /** All the links an argument yields, and those of them read from files. */
  function Gather(arg: LinkArg, files: map<string, seq<string>>): (r: (set<string>, set<string>))
    ensures r.1 <= r.0
    ensures forall l :: l in r.0 ==> StartsWith(l, StartContent)
    decreases arg, 1
  {
    match arg
    case Text(s) => (TextLinks(s, files), FromFile(s, files))
    case Items(_) => GatherItems(arg, 0, files)
  }

  function GatherItems(arg: LinkArg, i: nat, files: map<string, seq<string>>): (r: (set<string>, set<string>))
    requires arg.Items? && i <= |arg.items|
    ensures r.1 <= r.0
    ensures forall l :: l in r.0 ==> StartsWith(l, StartContent)
    decreases arg, 0, |arg.items| - i
  {
    if i == |arg.items| then ({}, {})
    else
      var h := Gather(arg.items[i], files);
      var t := GatherItems(arg, i + 1, files);
      (h.0 + t.0, h.1 + t.1)
  }

  /** The ending every call reaches once its links are known. */
  function Decide(links: set<string>, botToken: bool): Processed {
    if links != {} then Found(links)
    else if botToken then NotFound
    else Exit
  }

  /** `__process_links` as written: each element of a list goes through
      the whole function, so without a bot token an element that yields no
      link ends the program, even when the others do yield links. */
  function ProcessLinksAsWritten(arg: LinkArg, files: map<string, seq<string>>, botToken: bool): Processed
    decreases arg, 1
  {
    match arg
    case Text(s) => Decide(TextLinks(s, files), botToken)
    case Items(_) =>
      match ItemsAsWritten(arg, 0, files, botToken)
      case None => Exit
      case Some(links) => Decide(links, botToken)
  }

  /** The loop over a list as written; `None` where an element exits. */
  function ItemsAsWritten(arg: LinkArg, i: nat, files: map<string, seq<string>>, botToken: bool): Option<set<string>>
    requires arg.Items? && i <= |arg.items|
    decreases arg, 0, |arg.items| - i
  {
    if i == |arg.items| then Some({})
    else
      match ProcessLinksAsWritten(arg.items[i], files, botToken)
      case Exit => None
      case NotFound => ItemsAsWritten(arg, i + 1, files, botToken)
      case Found(l) =>
        match ItemsAsWritten(arg, i + 1, files, botToken)
        case None => None
        case Some(t) => Some(l + t)
  }

  /** With a bot token nothing exits, and the version as written yields
      exactly the links of the whole argument. */
  lemma {:induction false} AsWrittenWithToken(arg: LinkArg, files: map<string, seq<string>>)
    ensures ProcessLinksAsWritten(arg, files, true) == Decide(Gather(arg, files).0, true)
    decreases arg, 1
  {
    match arg
    case Text(_) =>
    case Items(_) => ItemsWithToken(arg, 0, files);
  }

  lemma {:induction false} ItemsWithToken(arg: LinkArg, i: nat, files: map<string, seq<string>>)
    requires arg.Items? && i <= |arg.items|
    ensures ItemsAsWritten(arg, i, files, true) == Some(GatherItems(arg, i, files).0)
    decreases arg, 0, |arg.items| - i
  {
    if i < |arg.items| {
      AsWrittenWithToken(arg.items[i], files);
      ItemsWithToken(arg, i + 1, files);
      var h := Gather(arg.items[i], files).0;
      var t := GatherItems(arg, i + 1, files).0;
      assert GatherItems(arg, i, files).0 == h + t;
      if h == {} {
        assert ProcessLinksAsWritten(arg.items[i], files, true) == NotFound;
        assert h + t == t;
      } else {
        assert ProcessLinksAsWritten(arg.items[i], files, true) == Found(h);
      }
    }
  }

  /** Without a bot token, a list holding one link and one word ends the
      program instead of returning the link. */
  lemma AsWrittenExitsOnOneBadItem()
    ensures var arg := Items([Text(Plain), Text("hello")]);
            ProcessLinksAsWritten(arg, map[], false) == Exit
            && Decide(Gather(arg, map[]).0, false) == Found({Plain})
  {
    var arg := Items([Text(Plain), Text("hello")]);
    assert !EndsWith(Plain, ".txt");
    assert StartsWith(Plain, StartContent);
    assert !StartsWith("hello", StartContent);
    assert ItemsAsWritten(arg, 2, map[], false) == Some({});
    assert ItemsAsWritten(arg, 1, map[], false) == None;
    assert GatherItems(arg, 2, map[]) == ({}, {});
    assert GatherItems(arg, 1, map[]).0 == {};
    assert GatherItems(arg, 0, map[]).0 == {Plain};
  }

  /** `set l | l in links :: canonical_link_str(l)` */
  function CanonOf(links: set<string>, canon: string -> string): set<string> {
    set l | l in links :: canon(l)
  }

  lemma CanonOfUnion(a: set<string>, b: set<string>, canon: string -> string)
    ensures CanonOf(a + b, canon) == CanonOf(a, canon) + CanonOf(b, canon)
  {
  }

  /** What one raw line of a file contributes to the links. */
  function LineLinks(raw: string): set<string> {
    var line := Strip(raw);
    if ClassifyLine(line) == Accepted then {line} else {}
  }

  /** What one raw line of a file contributes to the warnings. */
  function LineIllegal(raw: string): seq<string> {
    var line := Strip(raw);
    if ClassifyLine(line) == Illegal then [line] else []
  }

  lemma FileStep(lines: seq<string>, k: nat)
    requires k < |lines|
    ensures FileLinks(lines[..k + 1]) == FileLinks(lines[..k]) + LineLinks(lines[k])
    ensures IllegalLines(lines[..k + 1]) == IllegalLines(lines[..k]) + LineIllegal(lines[k])
  {
    assert lines[..k + 1][..k] == lines[..k];
  }

  /** `self.bot_task_link.add(link)` and the matching
      `self.bot_task_link_canon.add(canonical_link_str(link))`. */
  method TakeOn(d: Downloader.Downloader, link: string)
    modifies d`botTaskLink, d`botTaskLinkCanon
    ensures d.botTaskLink == old(d.botTaskLink) + {link}
    ensures d.botTaskLinkCanon == old(d.botTaskLinkCanon) + {d.canonLink(link)}
  {
    d.botTaskLink := d.botTaskLink + {link};
    d.botTaskLinkCanon := d.botTaskLinkCanon + {d.canonLink(link)};
  }

  /** The body of the loop over a file's lines: a link is kept and taken
      on, an illegal line reported, a blank or comment line passed over. */
  method ScanLine(d: Downloader.Downloader, raw: string) returns (found: set<string>, warned: seq<string>)
    modifies d`botTaskLink, d`botTaskLinkCanon
    ensures found == LineLinks(raw) && warned == LineIllegal(raw)
    ensures d.botTaskLink == old(d.botTaskLink) + found
    ensures d.botTaskLinkCanon == old(d.botTaskLinkCanon) + CanonOf(found, d.canonLink)
  {
    var line := Strip(raw);
    var kind := ClassifyLine(line);
    found, warned := {}, [];
    if kind == Accepted {
      found := {line};
      TakeOn(d, line);
    } else if kind == Illegal {
      warned := [line];
    }
  }

  /** The loop over the lines of a `.txt` file: every link is kept and
      recorded in `bot_task_link` (and its key in `bot_task_link_canon`),
      blank and comment lines are passed over, the rest reported. */
  method ScanFile(d: Downloader.Downloader, lines: seq<string>) returns (links: set<string>, illegal: seq<string>)
    modifies d`botTaskLink, d`botTaskLinkCanon
    ensures links == FileLinks(lines) && illegal == IllegalLines(lines)
    ensures d.botTaskLink == old(d.botTaskLink) + links
    ensures d.botTaskLinkCanon == old(d.botTaskLinkCanon) + CanonOf(links, d.canonLink)
  {
    links := {};
    illegal := [];
    var k := 0;
    while k < |lines|
      invariant 0 <= k <= |lines|
      invariant links == FileLinks(lines[..k]) && illegal == IllegalLines(lines[..k])
      invariant d.botTaskLink == old(d.botTaskLink) + links
      invariant d.botTaskLinkCanon == old(d.botTaskLinkCanon) + CanonOf(links, d.canonLink)
    {
      FileStep(lines, k);
      var found, warned := ScanLine(d, lines[k]);
      CanonOfUnion(links, found, d.canonLink);
      links := links + found;
      illegal := illegal + warned;
      k := k + 1;
    }
    assert lines[..k] == lines;
  }

  /** The links of one argument, list elements taken one after another;
      nothing here ends the program. */
  method Collect(d: Downloader.Downloader, arg: LinkArg, files: map<string, seq<string>>) returns (links: set<string>)
    modifies d`botTaskLink, d`botTaskLinkCanon
    ensures links == Gather(arg, files).0
    ensures d.botTaskLink == old(d.botTaskLink) + Gather(arg, files).1
    ensures d.botTaskLinkCanon == old(d.botTaskLinkCanon) + CanonOf(Gather(arg, files).1, d.canonLink)
    decreases arg, 1
  {
    match arg
    case Text(s) =>
      if EndsWith(s, ".txt") && s in files {
        var illegal;
        links, illegal := ScanFile(d, files[s]);
      } else if StartsWith(s, StartContent) {
        links := {s};
      } else {
        links := {};
      }
    case Items(xs) =>
      links := CollectItems(d, arg, files);
  }

  /** The loop over the elements of a list argument. */
  method CollectItems(d: Downloader.Downloader, arg: LinkArg, files: map<string, seq<string>>) returns (links: set<string>)
    requires arg.Items?
    modifies d`botTaskLink, d`botTaskLinkCanon
    ensures links == GatherItems(arg, 0, files).0
    ensures d.botTaskLink == old(d.botTaskLink) + GatherItems(arg, 0, files).1
    ensures d.botTaskLinkCanon == old(d.botTaskLinkCanon) + CanonOf(GatherItems(arg, 0, files).1, d.canonLink)
    decreases arg, 0
  {
    links := {};
    var i := 0;
    while i < |arg.items|
      invariant 0 <= i <= |arg.items|
      invariant links + GatherItems(arg, i, files).0 == GatherItems(arg, 0, files).0
      invariant d.botTaskLink + GatherItems(arg, i, files).1 == old(d.botTaskLink) + GatherItems(arg, 0, files).1
      invariant d.botTaskLinkCanon + CanonOf(GatherItems(arg, i, files).1, d.canonLink)
                == old(d.botTaskLinkCanon) + CanonOf(GatherItems(arg, 0, files).1, d.canonLink)
    {
      var h := Gather(arg.items[i], files);
      var t := GatherItems(arg, i + 1, files);
      CanonOfUnion(h.1, t.1, d.canonLink);
      ghost var before, taken, canons := links, d.botTaskLink, d.botTaskLinkCanon;
      var more := Collect(d, arg.items[i], files);
      links := links + more;
      UnionShift(before, h.0, t.0);
      UnionShift(taken, h.1, t.1);
      UnionShift(canons, CanonOf(h.1, d.canonLink), CanonOf(t.1, d.canonLink));
      i := i + 1;
    }
  }

  /** Moving one part of a union across. */
  lemma UnionShift<T>(a: set<T>, x: set<T>, y: set<T>)
    ensures a + (x + y) == (a + x) + y
  {
  }

  /** `__process_links` as intended: the links of the whole argument, then
      `None` or the exit only when there are none at all. The file links are
      recorded in `bot_task_link` on the way. */
  method ProcessLinks(d: Downloader.Downloader, arg: LinkArg, files: map<string, seq<string>>, botToken: bool)
    returns (r: Processed)
    modifies d`botTaskLink, d`botTaskLinkCanon
    ensures r == Decide(Gather(arg, files).0, botToken)
    ensures d.botTaskLink == old(d.botTaskLink) + Gather(arg, files).1
    ensures d.botTaskLinkCanon == old(d.botTaskLinkCanon) + CanonOf(Gather(arg, files).1, d.canonLink)
  {
    var links := Collect(d, arg, files);
    if links != {} {
      r := Found(links);
    } else if !botToken {
      r := Exit;
    } else {
      r := NotFound;
    }
  }

  /** Whatever the argument, the links handed back are Telegram links, and
      with a bot token the result is the one the version as written gives. */
  lemma ProcessedLinks(arg: LinkArg, files: map<string, seq<string>>, botToken: bool)
    ensures Decide(Gather(arg, files).0, botToken).Found? ==>
              forall l :: l in Decide(Gather(arg, files).0, botToken).links ==> StartsWith(l, StartContent)
    ensures botToken ==> ProcessLinksAsWritten(arg, files, botToken) == Decide(Gather(arg, files).0, botToken)
  {
    if botToken {
      AsWrittenWithToken(arg, files);
    }
  }
}
