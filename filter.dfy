/** The message filters of `download_chat`: date range, media type and
    keywords. */
module Filter {
  import opened Common
  import opened Telegram

  /** A bound is in force when it is set and not zero (Python truthiness). */
  predicate BoundSet(b: Option<real>) {
    b.Some? && b.value != 0.0
  }

  /** `Filter.date_range(message, start_date, end_date)` */
  function DateRange(m: Message, startDate: Option<real>, endDate: Option<real>): (r: bool)
    ensures r <==> (BoundSet(startDate) ==> startDate.value <= m.date)
                   && (BoundSet(endDate) ==> m.date <= endDate.value)
  {
    if BoundSet(startDate) && BoundSet(endDate) then startDate.value <= m.date <= endDate.value
    else if BoundSet(startDate) then startDate.value <= m.date
    else if BoundSet(endDate) then m.date <= endDate.value
    else true
  }

  /** Without bounds every message passes; a bound of 0 is no bound. */
  lemma DateRangeUnbounded(m: Message, startDate: Option<real>, endDate: Option<real>)
    requires startDate == None || startDate == Some(0.0)
    requires endDate == None || endDate == Some(0.0)
    ensures DateRange(m, startDate, endDate)
  {
  }

  /** Both bounds are inclusive. */
  lemma DateRangeInclusive(m: Message, lo: real, hi: real)
    requires lo != 0.0 && hi != 0.0 && lo <= hi
    ensures DateRange(m.(date := lo), Some(lo), Some(hi))
    ensures DateRange(m.(date := hi), Some(lo), Some(hi))
  {
  }

  /** `Filter.dtype(message, download_type)`: the configured table, in its
      iteration order, is scanned for an enabled kind the message carries. */
  method Dtype(m: Message, table: seq<(DownloadType, bool)>) returns (r: bool)
    ensures r <==> exists i :: 0 <= i < |table| && table[i].1 && table[i].0 in m.media
  {
    var hits: seq<bool> := [];
    var i := 0;
    while i < |table|
      invariant 0 <= i <= |table|
      invariant (true in hits) <==> exists j :: 0 <= j < i && table[j].1 && table[j].0 in m.media
    {
      var (kind, status) := table[i];
      if kind in m.media && status {
        hits := hits + [true];
      }
      hits := hits + [false];
      i := i + 1;
    }
    r := true in hits;
  }

  /** `f"{text} {caption}".lower()` with missing parts read as empty. */
  function FullText(m: Message): string {
    var text := if m.text.Some? then m.text.value else "";
    var caption := if m.caption.Some? then m.caption.value else "";
    Lower(text + " " + caption)
  }

  /** A keyword that takes part in matching: present and not empty. */
  predicate Active(k: Option<string>) {
    k.Some? && k.value != []
  }

  /** The keyword as compared: lower-cased, then stripped. */
  function Needle(k: string): string {
    Strip(Lower(k))
  }

  /** `Filter.keywords(message, keywords)`: no list, or an empty one, lets
      every message through; otherwise some active keyword must occur in the
      text. */
  method Keywords(m: Message, keywords: Option<seq<Option<string>>>) returns (r: bool)
    ensures keywords.None? || keywords.value == [] ==> r
    ensures keywords.Some? && keywords.value != [] ==>
              (r <==> exists i :: 0 <= i < |keywords.value| && Active(keywords.value[i])
                                  && Contains(FullText(m), Needle(keywords.value[i].value)))
  {
    if keywords.None? || |keywords.value| == 0 {
      return true;
    }
    var ks := keywords.value;
    var full := FullText(m);
    var i := 0;
    while i < |ks|
      invariant 0 <= i <= |ks|
      invariant forall j :: 0 <= j < i && Active(ks[j]) ==> !Contains(full, Needle(ks[j].value))
    {
      var k := ks[i];
      if k.None? || k.value == [] {
        i := i + 1;
        continue;
      }
      if Contains(full, Needle(k.value)) {
        return true;
      }
      i := i + 1;
    }
    r := false;
  }

  /** A keyword made only of white space strips to nothing and so matches
      every message. */
  lemma BlankKeywordMatchesAll(m: Message, k: string)
    requires k != [] && forall i :: 0 <= i < |k| ==> IsSpace(k[i])
    ensures Contains(FullText(m), Needle(k))
  {
    var l := Lower(k);
    assert forall i :: 0 <= i < |l| ==> IsSpace(l[i]) by {
      forall i | 0 <= i < |l| ensures IsSpace(l[i]) {
        assert l[i] == LowerChar(k[i]);
      }
    }
    assert Strip(l) == [];
    assert StartsWith(FullText(m)[0..], []);
  }
}
