/** Small helpers shared by the whole model: an Option type and the pieces of
    Python's string library the downloader relies on (`startswith`, `split`,
    `strip`, `lower`, `in`, `str(int)`, string ordering), stated over
    `seq<char>`. */
module Common {

  datatype Option<+T> = None | Some(value: T)

  /** `s.startswith(p)` */
  predicate StartsWith(s: string, p: string) {
    |p| <= |s| && s[..|p|] == p
  }

  /** `s.endswith(p)` */
  predicate EndsWith(s: string, p: string) {
    |p| <= |s| && s[|s| - |p|..] == p
  }

  predicate IsDigit(c: char) {
    '0' <= c <= '9'
  }

  /** A non-empty run of decimal digits: the regular expression `\d+`. */
  predicate AllDigits(s: string) {
    |s| > 0 && forall i :: 0 <= i < |s| ==> IsDigit(s[i])
  }

  /** ASCII case folding, used for `str.lower()` and `re.IGNORECASE`. */
  function LowerChar(c: char): char {
    if 'A' <= c <= 'Z' then (c as int + 32) as char else c
  }

  function Lower(s: string): (r: string)
    ensures |r| == |s|
    ensures forall i :: 0 <= i < |s| ==> r[i] == LowerChar(s[i])
  {
    if s == [] then [] else [LowerChar(s[0])] + Lower(s[1..])
  }

  lemma LowerAppend(a: string, b: string)
    ensures Lower(a + b) == Lower(a) + Lower(b)
  {
    assert |Lower(a + b)| == |Lower(a) + Lower(b)|;
    forall i | 0 <= i < |a + b|
      ensures Lower(a + b)[i] == (Lower(a) + Lower(b))[i]
    {
      if i < |a| { assert (a + b)[i] == a[i]; } else { assert (a + b)[i] == b[i - |a|]; }
    }
  }

  /** The characters `str.isspace()` accepts (Python's `str.strip()` with no argument). */
  predicate IsSpace(c: char) {
    c == ' ' || ('\t' <= c <= '\r') || ('\U{1C}' <= c <= '\U{1F}') || c == '\U{85}' || c == '\U{A0}'
    || c == '\U{1680}' || ('\U{2000}' <= c <= '\U{200A}') || c == '\U{2028}' || c == '\U{2029}'
    || c == '\U{202F}' || c == '\U{205F}' || c == '\U{3000}'
  }

  function LStrip(s: string): (r: string)
    ensures |r| <= |s| && r == s[|s| - |r|..]
    ensures r == [] || !IsSpace(r[0])
    ensures forall i :: 0 <= i < |s| - |r| ==> IsSpace(s[i])
  {
    if |s| > 0 && IsSpace(s[0]) then LStrip(s[1..]) else s
  }

  function RStrip(s: string): (r: string)
    ensures |r| <= |s| && r == s[..|r|]
    ensures r == [] || !IsSpace(r[|r| - 1])
    ensures forall i :: |r| <= i < |s| ==> IsSpace(s[i])
  {
    if |s| > 0 && IsSpace(s[|s| - 1]) then RStrip(s[..|s| - 1]) else s
  }

  /** `s.strip()`: the result has no surrounding white space. */
  function Strip(s: string): (r: string)
    ensures r == [] || (!IsSpace(r[0]) && !IsSpace(r[|r| - 1]))
    ensures |r| <= |s|
  {
    RStrip(LStrip(s))
  }

  /** Every character `strip` keeps comes from its input. */
  lemma StripChars(s: string)
    ensures forall c :: c in Strip(s) ==> c in s
  {
    var l := LStrip(s);
    var r := RStrip(l);
    forall c | c in r
      ensures c in s
    {
      var k :| 0 <= k < |r| && r[k] == c;
      assert l[k] == c;
      assert s[|s| - |l| + k] == c;
    }
  }

  /** `s.split(c)`: always at least one piece, no piece holds the separator. */
  function Split(s: string, c: char): (r: seq<string>)
    ensures |r| >= 1
    ensures forall i :: 0 <= i < |r| ==> c !in r[i]
  {
    if |s| == 0 then [""]
    else
      var rest := Split(s[1..], c);
      if s[0] == c then [""] + rest else [[s[0]] + rest[0]] + rest[1..]
  }

  /** `c.join(parts)` */
  function Join(parts: seq<string>, c: char): string {
    if |parts| == 0 then ""
    else if |parts| == 1 then parts[0]
    else parts[0] + [c] + Join(parts[1..], c)
  }

  lemma {:induction false} JoinSplit(s: string, c: char)
    ensures Join(Split(s, c), c) == s
  {
    if |s| > 0 {
      JoinSplit(s[1..], c);
      var rest := Split(s[1..], c);
      if s[0] == c {
        assert Split(s, c) == [""] + rest;
        assert s == [c] + s[1..];
      } else {
        var r := Split(s, c);
        assert r == [[s[0]] + rest[0]] + rest[1..];
        if |rest| == 1 {
          assert r == [[s[0]] + rest[0]];
        } else {
          assert r[1..] == rest[1..];
          assert Join(rest, c) == rest[0] + [c] + Join(rest[1..], c);
        }
      }
    }
  }

  /** One step of `Split`: the first character either closes the first piece
      or joins it. */
  lemma SplitCons(h: char, t: string, c: char)
    ensures Split([h] + t, c) ==
            if h == c then [""] + Split(t, c) else [[h] + Split(t, c)[0]] + Split(t, c)[1..]
  {
    assert ([h] + t)[1..] == t;
  }

  /** Splitting a concatenation: the last piece of `x` is glued to `y`. */
  lemma {:induction false} SplitAppend(x: string, y: string, c: char)
    ensures var sx := Split(x, c);
            Split(x + y, c) == sx[..|sx| - 1] + Split(sx[|sx| - 1] + y, c)
  {
    if |x| == 0 {
      assert x + y == y;
    } else {
      var h, t := x[0], x[1..];
      assert x == [h] + t;
      assert x + y == [h] + (t + y);
      SplitAppend(t, y, c);
      SplitAppendStep(h, t, y, c);
    }
  }

  /** The inductive step of `SplitAppend`: prepending one character. */
  lemma SplitAppendStep(h: char, t: string, y: string, c: char)
    requires var st := Split(t, c);
             Split(t + y, c) == st[..|st| - 1] + Split(st[|st| - 1] + y, c)
    ensures var sx := Split([h] + t, c);
            Split([h] + t + y, c) == sx[..|sx| - 1] + Split(sx[|sx| - 1] + y, c)
  {
    assert [h] + t + y == [h] + (t + y);
    if h == c {
      SplitAppendSeparator(h, t, y, c);
    } else if |Split(t, c)| == 1 {
      SplitAppendOnePiece(h, t, y, c);
    } else {
      SplitAppendPieces(h, t, y, c);
    }
  }

  /** `SplitAppendStep` when the prepended character is the separator. */
  lemma SplitAppendSeparator(h: char, t: string, y: string, c: char)
    requires h == c
    requires var st := Split(t, c);
             Split(t + y, c) == st[..|st| - 1] + Split(st[|st| - 1] + y, c)
    ensures var sx := Split([h] + t, c);
            Split([h] + (t + y), c) == sx[..|sx| - 1] + Split(sx[|sx| - 1] + y, c)
  {
    var rest := Split(t, c);
    SplitCons(h, t, c);
    SplitCons(h, t + y, c);
    PrependPiece("", rest, Split(rest[|rest| - 1] + y, c));
  }

  /** `SplitAppendStep` when `t` holds no separator. */
  lemma SplitAppendOnePiece(h: char, t: string, y: string, c: char)
    requires h != c && |Split(t, c)| == 1
    requires var st := Split(t, c);
             Split(t + y, c) == st[..|st| - 1] + Split(st[|st| - 1] + y, c)
    ensures var sx := Split([h] + t, c);
            Split([h] + (t + y), c) == sx[..|sx| - 1] + Split(sx[|sx| - 1] + y, c)
  {
    var r0 := Split(t, c)[0];
    SplitCons(h, t, c);
    SplitCons(h, t + y, c);
    SplitCons(h, r0 + y, c);
    GlueOne([h], Split(t, c), Split(r0 + y, c), y);
  }

  /** `SplitAppendStep` when `t` holds a separator. */
  lemma SplitAppendPieces(h: char, t: string, y: string, c: char)
    requires h != c && |Split(t, c)| > 1
    requires var st := Split(t, c);
             Split(t + y, c) == st[..|st| - 1] + Split(st[|st| - 1] + y, c)
    ensures var sx := Split([h] + t, c);
            Split([h] + (t + y), c) == sx[..|sx| - 1] + Split(sx[|sx| - 1] + y, c)
  {
    var rest := Split(t, c);
    SplitCons(h, t, c);
    SplitCons(h, t + y, c);
    GlueFirst([h], rest, Split(rest[|rest| - 1] + y, c));
  }

  /** A new first piece in front of pieces whose last one is replaced. */
  lemma PrependPiece<T>(p: seq<T>, rest: seq<seq<T>>, tail: seq<seq<T>>)
    requires |rest| >= 1
    ensures var sx := [p] + rest;
            [p] + (rest[..|rest| - 1] + tail) == sx[..|sx| - 1] + tail && sx[|sx| - 1] == rest[|rest| - 1]
  {
    var sx := [p] + rest;
    assert sx[..|sx| - 1] == [p] + rest[..|rest| - 1];
  }

  /** Gluing `h` to the first of several pieces whose last one is replaced. */
  lemma GlueFirst<T>(h: seq<T>, rest: seq<seq<T>>, tail: seq<seq<T>>)
    requires |rest| > 1
    ensures var ry := rest[..|rest| - 1] + tail;
            var sx := [h + rest[0]] + rest[1..];
            |ry| > 0 && [h + ry[0]] + ry[1..] == sx[..|sx| - 1] + tail && sx[|sx| - 1] == rest[|rest| - 1]
  {
    var ry := rest[..|rest| - 1] + tail;
    var sx := [h + rest[0]] + rest[1..];
    assert ry[1..] == rest[1..|rest| - 1] + tail;
    assert sx[..|sx| - 1] == [h + rest[0]] + rest[1..|rest| - 1];
  }

  /** Gluing `h` to a single piece that is replaced. */
  lemma GlueOne<T>(h: seq<T>, rest: seq<seq<T>>, tail: seq<seq<T>>, y: seq<T>)
    requires |rest| == 1 && |tail| > 0
    ensures var ry := rest[..0] + tail;
            var sx := [h + rest[0]] + rest[1..];
            |ry| > 0 && ry == tail && sx[..|sx| - 1] == [] && sx[|sx| - 1] + y == h + (rest[0] + y)
  {
    var ry := rest[..0] + tail;
    assert ry == tail;
  }

  /** A text without the separator splits into itself. */
  lemma {:induction false} SplitNoSeparator(w: string, c: char)
    requires c !in w
    ensures Split(w, c) == [w]
  {
    if |w| > 0 {
      assert w == [w[0]] + w[1..];
      SplitNoSeparator(w[1..], c);
      SplitCons(w[0], w[1..], c);
    }
  }

  /** The first separator closes the first piece. */
  lemma {:induction false} SplitAtFirst(w: string, e: string, c: char)
    requires c !in w
    ensures Split(w + [c] + e, c) == [w] + Split(e, c)
  {
    if |w| == 0 {
      assert w + [c] + e == [c] + e;
      SplitCons(c, e, c);
    } else {
      assert w + [c] + e == [w[0]] + (w[1..] + [c] + e);
      SplitAtFirst(w[1..], e, c);
      SplitCons(w[0], w[1..] + [c] + e, c);
      assert [w[0]] + w[1..] == w;
    }
  }

  /** Joining two non-empty lists of pieces puts one separator between them. */
  lemma {:induction false} JoinAppend(a: seq<string>, b: seq<string>, c: char)
    requires |a| > 0 && |b| > 0
    ensures Join(a + b, c) == Join(a, c) + [c] + Join(b, c)
  {
    if |a| == 1 {
      assert (a + b)[1..] == b;
    } else {
      assert (a + b)[1..] == a[1..] + b;
      JoinAppend(a[1..], b, c);
    }
  }

  lemma LowerIdempotent(s: string)
    ensures Lower(Lower(s)) == Lower(s)
  {
  }

  /** Python's `k in t` for strings. */
  function Contains(t: string, k: string): (r: bool)
    ensures r <==> exists i :: 0 <= i <= |t| && StartsWith(t[i..], k)
    decreases |t|
  {
    if StartsWith(t, k) then
      assert StartsWith(t[0..], k);
      true
    else if |t| == 0 then false
    else
      var r := Contains(t[1..], k);
      if r then
        var i :| 0 <= i <= |t[1..]| && StartsWith(t[1..][i..], k);
        assert t[1..][i..] == t[i + 1..];
        true
      else
        assert forall i :: 1 <= i <= |t| ==> t[i..] == t[1..][i - 1..];
        false
  }

  function DigitChar(d: nat): char
    requires d < 10
  {
    ('0' as int + d) as char
  }

  /** `str(n)` for a non-negative integer. */
  function NatToString(n: nat): (r: string)
    ensures AllDigits(r)
  {
    if n < 10 then [DigitChar(n)] else NatToString(n / 10) + [DigitChar(n % 10)]
  }

  /** `str(n)` for any integer. */
  function IntToString(n: int): (r: string)
    ensures |r| > 0
  {
    if n < 0 then "-" + NatToString(-n) else NatToString(n)
  }

  /** Value of a run of digits, read left to right. */
  function DigitsValue(s: string): nat
    requires forall i :: 0 <= i < |s| ==> IsDigit(s[i])
  {
    if s == [] then 0
    else
      assert IsDigit(s[|s| - 1]);
      DigitsValue(s[..|s| - 1]) * 10 + (s[|s| - 1] as int - '0' as int)
  }

  lemma {:induction false} NatToStringRoundTrip(n: nat)
    ensures DigitsValue(NatToString(n)) == n
  {
    if n >= 10 {
      NatToStringRoundTrip(n / 10);
      var s := NatToString(n);
      assert s[..|s| - 1] == NatToString(n / 10);
    }
  }

  /** Python's `a < b` on `str`: lexicographic order on code points, a proper
      prefix coming first. */
  predicate Less(a: string, b: string) {
    if |a| == 0 then |b| > 0
    else if |b| == 0 then false
    else if a[0] != b[0] then a[0] < b[0]
    else Less(a[1..], b[1..])
  }

  lemma {:induction false} LessIrreflexive(a: string)
    ensures !Less(a, a)
  {
    if |a| > 0 { LessIrreflexive(a[1..]); }
  }

  lemma {:induction false} LessTransitive(a: string, b: string, c: string)
    requires Less(a, b) && Less(b, c)
    ensures Less(a, c)
  {
    if |a| > 0 && |b| > 0 && |c| > 0 && a[0] == b[0] && b[0] == c[0] {
      LessTransitive(a[1..], b[1..], c[1..]);
    }
  }

  lemma {:induction false} LessTotal(a: string, b: string)
    requires a != b
    ensures Less(a, b) || Less(b, a)
  {
    if |a| > 0 && |b| > 0 && a[0] == b[0] {
      assert a == [a[0]] + a[1..] && b == [b[0]] + b[1..];
      LessTotal(a[1..], b[1..]);
    }
  }

  lemma {:induction false} LessAsymmetric(a: string, b: string)
    requires Less(a, b)
    ensures !Less(b, a)
  {
    if |a| > 0 && |b| > 0 && a[0] == b[0] {
      LessAsymmetric(a[1..], b[1..]);
    }
  }

  /** Strictly increasing: sorted and free of duplicates. */
  predicate StrictlySorted(s: seq<string>) {
    forall i, j :: 0 <= i < j < |s| ==> Less(s[i], s[j])
  }

  /** Insert `x` into a strictly sorted list, keeping it strictly sorted. */
  function Insert(s: seq<string>, x: string): (r: seq<string>)
    requires StrictlySorted(s)
    ensures StrictlySorted(r)
    ensures forall y :: y in r <==> y in s || y == x
  {
    if s == [] then [x]
    else if x == s[0] then s
    else if Less(x, s[0]) then
      assert forall j :: 0 < j < |s| ==> Less(x, s[j]) by {
        forall j | 0 < j < |s| ensures Less(x, s[j]) { LessTransitive(x, s[0], s[j]); }
      }
      [x] + s
    else
      LessTotal(x, s[0]);
      var t := Insert(s[1..], x);
      assert forall y :: y in s <==> y == s[0] || y in s[1..];
      assert forall j :: 0 <= j < |t| ==> Less(s[0], t[j]) by {
        forall j | 0 <= j < |t| ensures Less(s[0], t[j]) {
          assert t[j] in t;
          assert t[j] in s[1..] || t[j] == x;
          if t[j] != x {
            var k :| 0 <= k < |s[1..]| && s[1..][k] == t[j];
            assert s[k + 1] == t[j];
          }
        }
      }
      [s[0]] + t
  }

  lemma HeadIn(s: seq<string>)
    requires s != []
    ensures s[0] in s
  {
  }

  /** A strictly sorted list is determined by its elements. */
  lemma {:induction false} SortedUnique(a: seq<string>, b: seq<string>)
    requires StrictlySorted(a) && StrictlySorted(b)
    requires forall x :: x in a <==> x in b
    ensures a == b
  {
    if a == [] {
      if b != [] {
        HeadIn(b);
        assert false;
      }
    } else {
      assert a[0] in b;
      assert b != [];
      if a[0] != b[0] {
        var j :| 0 <= j < |b| && b[j] == a[0];
        assert b[0] in b;
        var i :| 0 <= i < |a| && a[i] == b[0];
        assert Less(b[0], a[0]);
        assert Less(a[0], b[0]);
        LessAsymmetric(a[0], b[0]);
        assert false;
      }
      forall x
        ensures x in a[1..] <==> x in b[1..]
      {
        if x in a[1..] {
          var i :| 1 <= i < |a| && a[i] == x;
          assert Less(a[0], x);
          if x == b[0] { LessIrreflexive(x); }
          assert x in b;
          var j :| 0 <= j < |b| && b[j] == x;
          assert j != 0;
          assert b[1..][j - 1] == x;
        }
        if x in b[1..] {
          var j :| 1 <= j < |b| && b[j] == x;
          assert Less(b[0], x);
          if x == a[0] { LessIrreflexive(x); }
          assert x in a;
          var i :| 0 <= i < |a| && a[i] == x;
          assert i != 0;
          assert a[1..][i - 1] == x;
        }
      }
      SortedUnique(a[1..], b[1..]);
      assert a == [a[0]] + a[1..] && b == [b[0]] + b[1..];
    }
  }
}
