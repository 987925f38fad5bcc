/** The bot menu's settings guards: the media kinds to download, to forward
    and to take from a chat can each be switched on and off, but the last
    one switched on can never be switched off; and the date filter's step
    cycles through a fixed list. */
module BotSettings {
  import opened Common
  import App

  /** How a toggle ends: applied, or refused with the "at least one kind
      must stay selected" notice (the `ValueError` branch), or failed on a
      kind the dictionary does not hold (the generic `Exception` branch). */
  datatype Outcome = Toggled | AtLeastOneRequired | Failed

  // ---------------------------------------------------------------------
  // The download-type list (module/downloader.py:1143-1172)
  // ---------------------------------------------------------------------

  /** The list after `_toggle_download_type_button(kind)`; `None` where it
      raises because `kind` is the only entry. */
  function ToggledTypes(types: seq<string>, kind: string): Option<seq<string>> {
    if kind in types then
      if |types| == 1 then None else Some(App.RemoveFirst(types, kind))
    else Some(types + [kind])
  }

  /** The toggle is refused exactly when it would switch off the one kind
      left; whatever it yields is never empty. */
  lemma ToggledTypesNeverEmpty(types: seq<string>, kind: string)
    ensures ToggledTypes(types, kind).None? <==> types == [kind]
    ensures ToggledTypes(types, kind).Some? ==> |ToggledTypes(types, kind).value| >= 1
    ensures ToggledTypes(types, kind).Some? ==>
              (kind in ToggledTypes(types, kind).value <==> kind !in types || multiset(types)[kind] > 1)
  {
    if kind in types && |types| == 1 {
      assert types[0] == kind;
    }
    if ToggledTypes(types, kind).Some? && kind in types {
      var r := App.RemoveFirst(types, kind);
      assert multiset(r)[kind] == multiset(types)[kind] - 1;
    }
  }

  /** Switching a kind on and then off again gives the list back. */
  lemma ToggleOnOffRestores(types: seq<string>, kind: string)
    requires kind !in types && types != []
    ensures ToggledTypes(types, kind) == Some(types + [kind])
    ensures ToggledTypes(types + [kind], kind) == Some(types)
  {
    RemoveLast(types, kind);
  }

  lemma {:induction false} RemoveLast(types: seq<string>, kind: string)
    requires kind !in types
    ensures App.RemoveFirst(types + [kind], kind) == types
  {
    if types != [] {
      assert (types + [kind])[1..] == types[1..] + [kind];
      RemoveLast(types[1..], kind);
    }
  }

  /** Switching a kind listed once off and on again keeps the same kinds,
      the toggled one moved to the end. */
  lemma ToggleOffOnKeepsKinds(types: seq<string>, kind: string)
    requires |types| > 1 && multiset(types)[kind] == 1
    ensures var off := ToggledTypes(types, kind);
            off.Some? && ToggledTypes(off.value, kind).Some?
            && multiset(ToggledTypes(off.value, kind).value) == multiset(types)
            && ToggledTypes(off.value, kind).value == off.value + [kind]
  {
    assert kind in types;
    var off := App.RemoveFirst(types, kind);
    assert multiset(off)[kind] == 0;
    assert kind !in off;
    assert multiset(off + [kind]) == multiset(off) + multiset{kind};
  }

  /** The download-type toggle followed by the configuration save. */
  method ToggleDownloadType(app: App.Application, kind: string) returns (r: Outcome)
    modifies app`downloadType, app`savedDownloadType
    ensures r != Failed
    ensures r == AtLeastOneRequired <==> ToggledTypes(old(app.downloadType), kind).None?
    ensures r == AtLeastOneRequired ==>
              app.downloadType == old(app.downloadType) && app.savedDownloadType == old(app.savedDownloadType)
    ensures r == Toggled ==>
              app.downloadType == ToggledTypes(old(app.downloadType), kind).value
              && app.savedDownloadType == Some(app.downloadType)
    ensures |app.downloadType| >= 1
  {
    if kind in app.downloadType {
      if |app.downloadType| == 1 {
        r := AtLeastOneRequired;
        return;
      }
      app.downloadType := App.RemoveFirst(app.downloadType, kind);
    } else {
      app.downloadType := app.downloadType + [kind];
    }
    app.savedDownloadType := Some(app.downloadType);
    r := Toggled;
  }

  // ---------------------------------------------------------------------
  // The forward-type and per-chat type dictionaries
  // (module/downloader.py:1192-1203, 1482-1487)
  // ---------------------------------------------------------------------

  /** The kinds switched on. */
  function Enabled(flags: map<string, bool>): set<string> {
    set k | k in flags && flags[k]
  }

  /** `list(flags.values()).count(True)` */
  function CountOn(flags: map<string, bool>): nat {
    |Enabled(flags)|
  }

  /** The dictionary after flipping `kind` whose current setting reads
      `status`; `None` where that would switch off the one kind on. */
  function Flipped(flags: map<string, bool>, kind: string, status: bool): Option<map<string, bool>> {
    if CountOn(flags) == 1 && status then None else Some(flags[kind := !status])
  }

  /** Whatever the setting read for `kind`, a flip that goes through leaves
      at least one kind on, provided one was on before or the flip switches
      one on. */
  lemma FlipKeepsOneOn(flags: map<string, bool>, kind: string, status: bool)
    requires CountOn(flags) >= 1 || !status
    ensures Flipped(flags, kind, status).Some? ==> CountOn(Flipped(flags, kind, status).value) >= 1
  {
    if Flipped(flags, kind, status).Some? {
      var after := flags[kind := !status];
      if status {
        assert Enabled(flags) - {kind} <= Enabled(after);
        assert CountOn(flags) >= 2;
        CardMinusOne(Enabled(flags), kind);
        SubsetCard(Enabled(flags) - {kind}, Enabled(after));
      } else {
        assert kind in Enabled(after);
        MemberCard(Enabled(after), kind);
      }
    }
  }

  lemma MemberCard(s: set<string>, x: string)
    requires x in s
    ensures |s| >= 1
  {
    assert s == (s - {x}) + {x};
  }

  lemma CardMinusOne(s: set<string>, x: string)
    ensures |s - {x}| >= |s| - 1
  {
    if x in s {
      assert s == (s - {x}) + {x};
    } else {
      assert s - {x} == s;
    }
  }

  lemma SubsetCard(a: set<string>, b: set<string>)
    requires a <= b
    ensures |a| <= |b|
  {
    assert b == a + (b - a);
  }

  /** Flipping twice with the settings read from the dictionary restores it. */
  lemma FlipTwiceRestores(flags: map<string, bool>, kind: string)
    requires kind in flags && !flags[kind]
    ensures Flipped(flags, kind, false) == Some(flags[kind := true])
    ensures CountOn(flags[kind := true]) >= 1
    ensures Flipped(flags[kind := true], kind, true).Some? ==>
              Flipped(flags[kind := true], kind, true).value == flags
  {
    assert kind in Enabled(flags[kind := true]);
    MemberCard(Enabled(flags[kind := true]), kind);
    assert flags[kind := true][kind := false] == flags;
  }

  /** A `{kind: enabled}` dictionary the bot edits in place. */
  class Switches {
    var flags: map<string, bool>

    constructor (flags: map<string, bool>)
      ensures this.flags == flags
    {
      this.flags := flags;
    }

    /** `_toggle_forward_type_button(kind)`: `status` is the setting of
        `kind` as the configuration reads it, its stored value or the
        default. */
    method ToggleForward(kind: string, status: bool) returns (r: Outcome)
      modifies this
      ensures r != Failed
      ensures r == AtLeastOneRequired <==> Flipped(old(flags), kind, status).None?
      ensures r == AtLeastOneRequired ==> flags == old(flags)
      ensures r == Toggled ==> flags == Flipped(old(flags), kind, status).value
      ensures CountOn(old(flags)) >= 1 ==> CountOn(flags) >= 1
    {
      if CountOn(flags) >= 1 || !status {
        FlipKeepsOneOn(flags, kind, status);
      }
      if CountOn(flags) == 1 && status {
        r := AtLeastOneRequired;
        return;
      }
      flags := flags[kind := !status];
      r := Toggled;
    }

    /** `_toggle_dtype_filter_button(kind)` on the chat's `download_type`
        dictionary: the setting is read from the dictionary itself, and a
        kind it does not hold fails. After any call at least one kind is
        on, as long as one was before. */
    method ToggleChatType(kind: string) returns (r: Outcome)
      modifies this
      ensures r == Failed <==> kind !in old(flags)
      ensures r == AtLeastOneRequired <==> kind in old(flags) && Flipped(old(flags), kind, old(flags)[kind]).None?
      ensures r != Toggled ==> flags == old(flags)
      ensures r == Toggled ==> flags == old(flags)[kind := !old(flags)[kind]]
      ensures r == Toggled ==> CountOn(flags) >= 1
      ensures CountOn(old(flags)) >= 1 ==> CountOn(flags) >= 1
    {
      if kind !in flags {
        r := Failed;
        return;
      }
      var status := flags[kind];
      if status {
        assert kind in Enabled(flags);
        MemberCard(Enabled(flags), kind);
      }
      FlipKeepsOneOn(flags, kind, status);
      if CountOn(flags) == 1 && status {
        r := AtLeastOneRequired;
        return;
      }
      flags := flags[kind := !status];
      r := Toggled;
    }
  }

  // ---------------------------------------------------------------------
  // The date filter's step (module/downloader.py:1411-1418)
  // ---------------------------------------------------------------------

  const StepSequence: seq<int> := [1, 2, 5, 10, 15, 20]

  /** `steps.index(x)`: the first position of `x` from `k` on. */
  function IndexFrom(s: seq<int>, x: int, k: nat): (i: nat)
    requires k <= |s| && exists j :: k <= j < |s| && s[j] == x
    ensures k <= i < |s| && s[i] == x
    ensures forall j :: k <= j < i ==> s[j] != x
    decreases |s| - k
  {
    if s[k] == x then k else IndexFrom(s, x, k + 1)
  }

  /** No step is listed twice. */
  predicate Distinct(s: seq<int>) {
    forall j, k :: 0 <= j < k < |s| ==> s[j] != s[k]
  }

  /** The listed steps are all different. */
  lemma StepsDistinct()
    ensures Distinct(StepSequence)
  {
  }

  /** In a list without repeats, `index` finds the one position of each
      entry. */
  lemma IndexOfDistinct(s: seq<int>, k: nat)
    requires Distinct(s) && k < |s|
    ensures IndexFrom(s, s[k], 0) == k
  {
  }

  /** The step after `current` in the list `s`: `s[(s.index(current) + 1)
      % len(s)]`; `None` where `index` raises `ValueError` because `current`
      is not listed. */
  function NextIn(s: seq<int>, current: int): (r: Option<int>)
    ensures r.Some? <==> current in s
    ensures r.Some? ==> r.value in s
  {
    if current in s then
      Some(s[(IndexFrom(s, current, 0) + 1) % |s|])
    else None
  }

  /** One press of the step button: the step after `current` in 1, 2, 5,
      10, 15, 20, wrapping round. */
  function NextStep(current: int): (r: Option<int>)
    ensures r.Some? <==> current in StepSequence
  {
    NextIn(StepSequence, current)
  }

  /** A listed step moves to a different listed step; anything else is
      refused. */
  lemma NextStepMoves(current: int)
    requires current in StepSequence
    ensures NextStep(current).Some? && NextStep(current).value in StepSequence
    ensures NextStep(current).value != current
  {
    StepsDistinct();
    var i := IndexFrom(StepSequence, current, 0);
    NextInAt(StepSequence, i);
  }

  /** `n` presses of the step button, over the list `s`. */
  function PressesIn(s: seq<int>, current: int, n: nat): Option<int>
    decreases n
  {
    if n == 0 then Some(current)
    else match NextIn(s, current)
      case None => None
      case Some(next) => PressesIn(s, next, n - 1)
  }

  /** `n` presses of the step button. */
  function Presses(current: int, n: nat): Option<int> {
    PressesIn(StepSequence, current, n)
  }

  /** Position `k` of a list of length `m`, wrapped round once. */
  function Wrap(m: nat, k: nat): nat {
    if k >= m then k - m else k
  }

  /** One press moves the entry at position `i` to the next position. */
  lemma NextInAt(s: seq<int>, i: nat)
    requires Distinct(s) && i < |s|
    ensures NextIn(s, s[i]) == Some(s[Wrap(|s|, i + 1)])
  {
    IndexOfDistinct(s, i);
    assert (i + 1) % |s| == Wrap(|s|, i + 1);
  }

  /** After `n` presses, up to the length of the list, the entry at
      position `i` has advanced `n` places round the list. */
  lemma {:induction false} PressesFrom(s: seq<int>, i: nat, n: nat)
    requires Distinct(s) && i < |s| && n <= |s|
    ensures PressesIn(s, s[i], n) == Some(s[Wrap(|s|, i + n)])
    decreases n
  {
    if n > 0 {
      var j := Wrap(|s|, i + 1);
      NextInAt(s, i);
      PressesFrom(s, j, n - 1);
      assert Wrap(|s|, j + (n - 1)) == Wrap(|s|, i + n);
    }
  }

  /** Pressing as many times as the list is long brings an entry back to
      itself, and no fewer presses do. */
  lemma CycleIn(s: seq<int>, current: int)
    requires Distinct(s) && current in s
    ensures PressesIn(s, current, |s|) == Some(current)
    ensures forall n :: 0 < n < |s| ==> PressesIn(s, current, n) != Some(current)
  {
    var i := IndexFrom(s, current, 0);
    PressesFrom(s, i, |s|);
    forall n | 0 < n < |s|
      ensures PressesIn(s, current, n) != Some(current)
    {
      PressesFrom(s, i, n);
    }
  }

  /** Six presses bring any listed step back to itself, and no fewer do:
      the steps run 1, 2, 5, 10, 15, 20 and back to 1. */
  lemma StepCycle(current: int)
    requires current in StepSequence
    ensures Presses(current, 6) == Some(current)
    ensures forall n :: 0 < n < 6 ==> Presses(current, n) != Some(current)
  {
    StepsDistinct();
    CycleIn(StepSequence, current);
  }
}
