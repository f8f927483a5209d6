/**
  The build hook (ShaderStripperUtility): it runs the ordered chain of active
  strippers over every shader pass the editor compiles, counts the variants
  going in and coming out, and, with deep logs on, records which keyword
  names were seen and which survived.
 */
module StripperUtility {
  import opened ShaderTypes
  import opened Sequences

  const KEY_LOG: string := "ShaderStripperLogPath"
  const KEY_ENABLE: string := "ShaderStripperGlobalEnable"
  const KEY_DEEP_LOG: string := "ShaderStripperDeepLog"

  /** A stripper asset: its identity, its active flag and its serialized `_order`. */
  datatype Stripper = Stripper(id: nat, active: bool, order: int)

  /**
    What one stripper's Strip call does to a variant list: the keep mask it
    applies (an entry without a `true` at its index is removed).
   */
  type StripEffect = (Stripper, Shader, PassType, seq<CompilerData>) -> seq<bool>

  // ---------------------------------------------------------------------
  // Editor preferences

  /** The boolean and string values of EditorPrefs, by key. */
  class EditorPrefs {
    var bools: map<string, bool>
    var strings: map<string, string>

    constructor (bools: map<string, bool>, strings: map<string, string>)
      ensures this.bools == bools && this.strings == strings
    {
      this.bools := bools;
      this.strings := strings;
    }

    /** EditorPrefs.GetString: the empty string for a missing key. */
    function GetString(key: string): (r: string)
      reads this
      ensures key !in strings ==> r == ""
      ensures key in strings ==> r == strings[key]
    {
      if key in strings then strings[key] else ""
    }
  }

  /** The global enable flag: its stored value, or true when it was never stored. */
  function EnabledSetting(bools: map<string, bool>): bool {
    if KEY_ENABLE in bools then bools[KEY_ENABLE] else true
  }

  /** The preferences after GetEnabled: a missing flag is stored as true. */
  function EnabledStore(bools: map<string, bool>): map<string, bool> {
    if KEY_ENABLE in bools then bools else bools[KEY_ENABLE := true]
  }

  /** GetEnabled changes no other key, and asking twice gives the same answer. */
  lemma EnabledSettingIsStable(bools: map<string, bool>)
    ensures var stored := EnabledStore(bools);
            && KEY_ENABLE in stored
            && EnabledSetting(stored) == EnabledSetting(bools)
            && EnabledStore(stored) == stored
            && (forall k :: k != KEY_ENABLE ==> (k in stored <==> k in bools))
            && (forall k :: k != KEY_ENABLE && k in bools ==> stored[k] == bools[k])
  {
  }

  method GetEnabled(prefs: EditorPrefs) returns (enabled: bool)
    modifies prefs
    ensures enabled == EnabledSetting(old(prefs.bools))
    ensures prefs.bools == EnabledStore(old(prefs.bools))
    ensures prefs.strings == old(prefs.strings)
  {
    if KEY_ENABLE in prefs.bools {
      return prefs.bools[KEY_ENABLE];
    } else {
      prefs.bools := prefs.bools[KEY_ENABLE := true];
      return true;
    }
  }

  // ---------------------------------------------------------------------
  // Ordering the strippers

  predicate SortedByOrder(s: seq<Stripper>) {
    forall i :: 0 < i < |s| ==> s[i - 1].order <= s[i].order
  }

  /** Put x before the first entry whose order is not smaller. */
  function InsertByOrder(x: Stripper, s: seq<Stripper>): (r: seq<Stripper>)
    ensures multiset(r) == multiset(s) + multiset{x}
    ensures |r| == |s| + 1
  {
    if s == [] || x.order <= s[0].order then [x] + s
    else
      assert s == [s[0]] + s[1..];
      [s[0]] + InsertByOrder(x, s[1..])
  }

  /** Enumerable.OrderBy on `_order`: a stable sort. */
  function SortByOrder(s: seq<Stripper>): (r: seq<Stripper>)
    ensures multiset(r) == multiset(s)
    ensures |r| == |s|
  {
    if s == [] then []
    else
      assert s == [s[0]] + s[1..];
      InsertByOrder(s[0], SortByOrder(s[1..]))
  }

  lemma SortedTail(s: seq<Stripper>)
    requires s != [] && SortedByOrder(s)
    ensures SortedByOrder(s[1..])
  {
    forall i | 0 < i < |s[1..]| ensures s[1..][i - 1].order <= s[1..][i].order {
      assert s[1..][i - 1] == s[i] && s[1..][i] == s[i + 1];
    }
  }

  /** Inserting into an ordered list keeps it ordered, with x or the old head first. */
  lemma {:induction false} InsertByOrderSorted(x: Stripper, s: seq<Stripper>)
    requires SortedByOrder(s)
    ensures var r := InsertByOrder(x, s);
            && SortedByOrder(r)
            && (r[0] == x || (s != [] && r[0] == s[0]))
    decreases |s|
  {
    if s != [] && x.order > s[0].order {
      SortedTail(s);
      InsertByOrderSorted(x, s[1..]);
      var t := InsertByOrder(x, s[1..]);
      var r := [s[0]] + t;
      assert InsertByOrder(x, s) == r;
      assert t[0] == x || t[0] == s[1];
      forall i | 0 < i < |r| ensures r[i - 1].order <= r[i].order {
        if i > 1 {
          assert r[i - 1] == t[i - 2] && r[i] == t[i - 1];
        }
      }
    }
  }

  /** SortByOrder returns its input reordered by `_order`. */
  lemma {:induction false} SortByOrderSorted(s: seq<Stripper>)
    ensures multiset(SortByOrder(s)) == multiset(s)
    ensures SortedByOrder(SortByOrder(s))
    decreases |s|
  {
    if s != [] {
      SortByOrderSorted(s[1..]);
      InsertByOrderSorted(s[0], SortByOrder(s[1..]));
    }
  }

  /** The strippers with order k, in list order. */
  function WithOrder(s: seq<Stripper>, k: int): seq<Stripper> {
    if s == [] then []
    else (if s[0].order == k then [s[0]] else []) + WithOrder(s[1..], k)
  }

  lemma {:induction false} InsertByOrderStable(x: Stripper, s: seq<Stripper>, k: int)
    requires SortedByOrder(s)
    ensures WithOrder(InsertByOrder(x, s), k) == (if x.order == k then [x] else []) + WithOrder(s, k)
    decreases |s|
  {
    if s == [] || x.order <= s[0].order {
      assert ([x] + s)[1..] == s;
    } else {
      var t := InsertByOrder(x, s[1..]);
      var r := [s[0]] + t;
      assert InsertByOrder(x, s) == r;
      assert r[1..] == t;
      var h := if s[0].order == k then [s[0]] else [];
      assert WithOrder(r, k) == h + WithOrder(t, k);
      SortedTail(s);
      InsertByOrderStable(x, s[1..], k);
      assert WithOrder(s, k) == h + WithOrder(s[1..], k);
      if s[0].order == k {
        assert x.order != k;
      }
    }
  }

  /** Strippers sharing an order keep their relative positions. */
  lemma {:induction false} SortByOrderIsStable(s: seq<Stripper>, k: int)
    ensures WithOrder(SortByOrder(s), k) == WithOrder(s, k)
    decreases |s|
  {
    if s != [] {
      SortByOrderIsStable(s[1..], k);
      SortByOrderSorted(s[1..]);
      InsertByOrderStable(s[0], SortByOrder(s[1..]), k);
    }
  }

  /** A list already in order is left as it is. */
  lemma {:induction false} SortByOrderOfSorted(s: seq<Stripper>)
    requires SortedByOrder(s)
    ensures SortByOrder(s) == s
    decreases |s|
  {
    if s != [] {
      SortedTail(s);
      SortByOrderOfSorted(s[1..]);
      assert s == [s[0]] + s[1..];
    }
  }

  /** Each stripper's order replaced by its position. */
  function Renumbered(s: seq<Stripper>): (r: seq<Stripper>)
    ensures |r| == |s|
  {
    seq(|s|, i requires 0 <= i < |s| => s[i].(order := i))
  }

  /** The list SortSettings leaves behind. */
  function SortedSettings(s: seq<Stripper>): seq<Stripper> {
    Renumbered(SortByOrder(s))
  }

  /** Renumbering keeps every field but the order, which becomes the position. */
  lemma RenumberedProperties(t: seq<Stripper>)
    ensures var r := Renumbered(t);
            && (forall i :: 0 <= i < |r| ==> r[i].order == i && r[i].id == t[i].id && r[i].active == t[i].active)
            && SortedByOrder(r)
  {
  }

  /**
    SortSettings keeps the same strippers in a stable order of their previous
    `_order`, and a second call changes nothing.
   */
  lemma SortedSettingsIdempotent(s: seq<Stripper>)
    ensures SortedSettings(SortedSettings(s)) == SortedSettings(s)
  {
    var r := SortedSettings(s);
    RenumberedProperties(SortByOrder(s));
    SortByOrderOfSorted(r);
    assert SortedSettings(r) == Renumbered(r);
    RenumberedAtPositions(r);
  }

  lemma RenumberedAtPositions(r: seq<Stripper>)
    requires forall i :: 0 <= i < |r| ==> r[i].order == i
    ensures Renumbered(r) == r
  {
    var q := Renumbered(r);
    forall i | 0 <= i < |r| ensures q[i] == r[i] {
      assert q[i] == r[i].(order := i);
    }
  }

  // ---------------------------------------------------------------------
  // Running the chain

  /** The variants whose mask entry is true. */
  function Keep(items: seq<CompilerData>, mask: seq<bool>): seq<CompilerData> {
    if items == [] then []
    else if |mask| > 0 && mask[0] then [items[0]] + Keep(items[1..], mask[1..])
    else Keep(items[1..], if |mask| > 0 then mask[1..] else [])
  }

  lemma {:induction false} KeepIsSubsequence(items: seq<CompilerData>, mask: seq<bool>)
    ensures IsSubsequence(Keep(items, mask), items)
    decreases |items|
  {
    if items != [] {
      assert items == [items[0]] + items[1..];
      if |mask| > 0 && mask[0] {
        KeepIsSubsequence(items[1..], mask[1..]);
      } else {
        KeepIsSubsequence(items[1..], if |mask| > 0 then mask[1..] else []);
        SubsequenceCons(Keep(items, mask), items[0], items[1..]);
      }
    }
  }

  /**
    The surviving variants, the indices of the strippers whose Strip was
    called, and the list each of those calls left behind.
   */
  datatype ChainResult = ChainResult(items: seq<CompilerData>, invoked: seq<nat>, afters: seq<seq<CompilerData>>)

  /** The stripper loop of OnProcessShader, from stripper i on. */
  function Chain(strippers: seq<Stripper>, apply: StripEffect, shader: Shader, passType: PassType,
                 items: seq<CompilerData>, i: nat): ChainResult
    requires i <= |strippers|
    decreases |strippers| - i
  {
    if i == |strippers| then ChainResult(items, [], [])
    else if !strippers[i].active then Chain(strippers, apply, shader, passType, items, i + 1)
    else
      var next := Keep(items, apply(strippers[i], shader, passType, items));
      if |next| == 0 then ChainResult(next, [i], [next])
      else
        var rest := Chain(strippers, apply, shader, passType, next, i + 1);
        ChainResult(rest.items, [i] + rest.invoked, [next] + rest.afters)
  }

  /** Indices of the active strippers from i on. */
  function ActiveFrom(strippers: seq<Stripper>, i: nat): seq<nat>
    requires i <= |strippers|
    decreases |strippers| - i
  {
    if i == |strippers| then []
    else (if strippers[i].active then [i] else []) + ActiveFrom(strippers, i + 1)
  }

  /** The chain only removes variants, keeping the rest in order. */
  lemma {:induction false} ChainIsSubsequence(strippers: seq<Stripper>, apply: StripEffect, shader: Shader,
                                              passType: PassType, items: seq<CompilerData>, i: nat)
    requires i <= |strippers|
    ensures IsSubsequence(Chain(strippers, apply, shader, passType, items, i).items, items)
    decreases |strippers| - i
  {
    if i == |strippers| {
      SubsequenceOfSelf(items);
    } else if !strippers[i].active {
      ChainIsSubsequence(strippers, apply, shader, passType, items, i + 1);
    } else {
      var mask := apply(strippers[i], shader, passType, items);
      var next := Keep(items, mask);
      KeepIsSubsequence(items, mask);
      if |next| != 0 {
        ChainIsSubsequence(strippers, apply, shader, passType, next, i + 1);
        var rest := Chain(strippers, apply, shader, passType, next, i + 1);
        SubsequenceTransitive(rest.items, next, items);
      }
    }
  }

  /**
    The chain calls the active strippers in list order, skipping none,
    until one of them leaves the list empty; after that no stripper is called.
   */
  lemma {:induction false} ChainInvokesActiveInOrder(strippers: seq<Stripper>, apply: StripEffect, shader: Shader,
                                                     passType: PassType, items: seq<CompilerData>, i: nat)
    requires i <= |strippers|
    ensures var r := Chain(strippers, apply, shader, passType, items, i);
            && r.invoked <= ActiveFrom(strippers, i)
            && (r.items != [] ==> r.invoked == ActiveFrom(strippers, i))
            && (|r.invoked| < |ActiveFrom(strippers, i)| ==> r.items == [])
    decreases |strippers| - i
  {
    if i < |strippers| {
      var tail := ActiveFrom(strippers, i + 1);
      if !strippers[i].active {
        assert ActiveFrom(strippers, i) == tail;
        ChainInvokesActiveInOrder(strippers, apply, shader, passType, items, i + 1);
      } else {
        assert ActiveFrom(strippers, i) == [i] + tail;
        var next := Keep(items, apply(strippers[i], shader, passType, items));
        if |next| != 0 {
          ChainInvokesActiveInOrder(strippers, apply, shader, passType, next, i + 1);
        }
      }
    }
  }

  /**
    The chain stops at the first stripper that leaves the list empty: every
    call but the last leaves variants behind, each call strips the list the
    previous one left, and the result is what the last call left.
   */
  lemma {:induction false} ChainStopsOnceEmpty(strippers: seq<Stripper>, apply: StripEffect, shader: Shader,
                                               passType: PassType, items: seq<CompilerData>, i: nat)
    requires i <= |strippers|
    ensures var r := Chain(strippers, apply, shader, passType, items, i);
            && |r.afters| == |r.invoked|
            && (forall k :: 0 <= k < |r.invoked| ==> i <= r.invoked[k] < |strippers|)
            && (forall k :: 0 <= k < |r.invoked| - 1 ==> r.afters[k] != [])
            && (r.invoked == [] ==> r.items == items)
            && (r.invoked != [] ==> r.items == r.afters[|r.afters| - 1])
    decreases |strippers| - i
  {
    if i < |strippers| {
      if !strippers[i].active {
        ChainStopsOnceEmpty(strippers, apply, shader, passType, items, i + 1);
      } else {
        var next := Keep(items, apply(strippers[i], shader, passType, items));
        if |next| != 0 {
          ChainStopsOnceEmpty(strippers, apply, shader, passType, next, i + 1);
          var rest := Chain(strippers, apply, shader, passType, next, i + 1);
          var r := Chain(strippers, apply, shader, passType, items, i);
          assert r.invoked == [i] + rest.invoked && r.afters == [next] + rest.afters;
          assert forall k :: 0 < k < |r.invoked| ==> r.invoked[k] == rest.invoked[k - 1] && r.afters[k] == rest.afters[k - 1];
        }
      }
    }
  }

  /** Each call strips the list the previous call left, starting from the input. */
  lemma {:induction false} ChainEachCallStripsPrevious(strippers: seq<Stripper>, apply: StripEffect, shader: Shader,
                                                       passType: PassType, items: seq<CompilerData>, i: nat)
    requires i <= |strippers|
    ensures var r := Chain(strippers, apply, shader, passType, items, i);
            && |r.afters| == |r.invoked|
            && (forall k :: 0 <= k < |r.invoked| ==> i <= r.invoked[k] < |strippers|)
            && (r.invoked != [] ==> r.afters[0] == Keep(items, apply(strippers[r.invoked[0]], shader, passType, items)))
            && (forall k :: 0 < k < |r.invoked| ==>
                  r.afters[k] == Keep(r.afters[k - 1], apply(strippers[r.invoked[k]], shader, passType, r.afters[k - 1])))
    decreases |strippers| - i
  {
    ChainStopsOnceEmpty(strippers, apply, shader, passType, items, i);
    if i < |strippers| {
      if !strippers[i].active {
        ChainEachCallStripsPrevious(strippers, apply, shader, passType, items, i + 1);
      } else {
        var next := Keep(items, apply(strippers[i], shader, passType, items));
        if |next| != 0 {
          ChainEachCallStripsPrevious(strippers, apply, shader, passType, next, i + 1);
          var rest := Chain(strippers, apply, shader, passType, next, i + 1);
          var r := Chain(strippers, apply, shader, passType, items, i);
          assert r.invoked == [i] + rest.invoked && r.afters == [next] + rest.afters;
          assert forall k :: 0 < k < |r.invoked| ==> r.invoked[k] == rest.invoked[k - 1] && r.afters[k] == rest.afters[k - 1];
        }
      }
    }
  }

  lemma ChainOnlyRemoves(strippers: seq<Stripper>, apply: StripEffect, shader: Shader,
                         passType: PassType, items: seq<CompilerData>)
    ensures var r := Chain(strippers, apply, shader, passType, items, 0).items;
            |r| <= |items| && forall d :: d in r ==> d in items
  {
    var r := Chain(strippers, apply, shader, passType, items, 0).items;
    ChainIsSubsequence(strippers, apply, shader, passType, items, 0);
    SubsequenceShorter(r, items);
    SubsequenceMembers(r, items);
  }

  /** Calls each active stripper's Strip on the list in turn, stopping once it is empty. */
  method RunStrippers(strippers: seq<Stripper>, apply: StripEffect, shader: Shader, passType: PassType,
                      data: VariantList)
    returns (ghost invoked: seq<nat>, ghost afters: seq<seq<CompilerData>>)
    modifies data
    ensures data.items == Chain(strippers, apply, shader, passType, old(data.items), 0).items
    ensures invoked == Chain(strippers, apply, shader, passType, old(data.items), 0).invoked
    ensures afters == Chain(strippers, apply, shader, passType, old(data.items), 0).afters
  {
    ghost var orig := data.items;
    invoked := [];
    afters := [];
    var i := 0;
    while i < |strippers|
      invariant 0 <= i <= |strippers|
      invariant var tail := Chain(strippers, apply, shader, passType, data.items, i);
                Chain(strippers, apply, shader, passType, orig, 0) == ChainResult(tail.items, invoked + tail.invoked, afters + tail.afters)
    {
      var s := strippers[i];
      if !s.active {
        i := i + 1;
        continue;
      }
      var mask := apply(s, shader, passType, data.items);
      data.items := Keep(data.items, mask);
      invoked := invoked + [i];
      afters := afters + [data.items];
      if data.Count() == 0 {
        break;
      }
      i := i + 1;
    }
  }

  // ---------------------------------------------------------------------
  // Keyword logs

  /** ShaderLog.Add guarded by ShaderLog.Contains. */
  function AddAbsent(log: seq<string>, name: string): seq<string> {
    if name in log then log else log + [name]
  }

  /** Each name in turn, added when the log does not hold it yet. */
  function AddAllAbsent(log: seq<string>, names: seq<string>): (r: seq<string>)
    decreases |names|
  {
    if names == [] then log
    else AddAbsent(AddAllAbsent(log, names[..|names| - 1]), names[|names| - 1])
  }

  lemma {:induction false} AddAllAbsentAppend(log: seq<string>, a: seq<string>, b: seq<string>)
    ensures AddAllAbsent(log, a + b) == AddAllAbsent(AddAllAbsent(log, a), b)
    decreases |b|
  {
    if b == [] {
      assert a + b == a;
    } else {
      assert (a + b)[..|a + b| - 1] == a + b[..|b| - 1];
      AddAllAbsentAppend(log, a, b[..|b| - 1]);
    }
  }

  /**
    The log grows only at its end, never holds a name twice if it did not
    before, and afterwards holds exactly the old names and the new ones.
   */
  lemma {:induction false} AddAllAbsentProperties(log: seq<string>, names: seq<string>)
    ensures var r := AddAllAbsent(log, names);
            && log <= r
            && (NoDuplicates(log) ==> NoDuplicates(r))
            && (forall x :: x in r <==> x in log || x in names)
    decreases |names|
  {
    if names != [] {
      var init := names[..|names| - 1];
      AddAllAbsentProperties(log, init);
      assert names == init + [names[|names| - 1]];
    }
  }

  /** The log afterwards holds its old names and the added ones. */
  lemma AddAllAbsentCovers(log: seq<string>, names: seq<string>)
    ensures forall x :: x in log ==> x in AddAllAbsent(log, names)
    ensures forall x :: x in names ==> x in AddAllAbsent(log, names)
  {
    AddAllAbsentProperties(log, names);
  }

  /** A log and added names that lie inside `bound` give a log inside `bound`. */
  lemma AddAllAbsentWithin(log: seq<string>, names: seq<string>, bound: seq<string>)
    requires forall x :: x in log ==> x in bound
    requires forall x :: x in names ==> x in bound
    ensures forall x :: x in AddAllAbsent(log, names) ==> x in bound
  {
    AddAllAbsentProperties(log, names);
  }

  datatype NameKind = ShaderKeywords | PlatformKeywords

  function NamesOf(d: CompilerData, kind: NameKind): seq<string> {
    match kind
    case ShaderKeywords => d.keywords
    case PlatformKeywords => d.platformKeywords
  }

  /** The names of every variant, variant by variant. */
  function Flatten(items: seq<CompilerData>, kind: NameKind): seq<string>
    decreases |items|
  {
    if items == [] then []
    else Flatten(items[..|items| - 1], kind) + NamesOf(items[|items| - 1], kind)
  }

  lemma {:induction false} FlattenMembers(items: seq<CompilerData>, kind: NameKind)
    ensures forall x :: x in Flatten(items, kind) <==> exists d :: d in items && x in NamesOf(d, kind)
    decreases |items|
  {
    if items != [] {
      var init := items[..|items| - 1];
      FlattenMembers(init, kind);
      assert items == init + [items[|items| - 1]];
    }
  }

  /** Names of some of the variants are names of the variants. */
  lemma FlattenOfMembers(a: seq<CompilerData>, b: seq<CompilerData>, kind: NameKind)
    requires forall d :: d in a ==> d in b
    ensures forall x :: x in Flatten(a, kind) ==> x in Flatten(b, kind)
  {
    FlattenMembers(a, kind);
    FlattenMembers(b, kind);
  }

  /** The deep-log loop over the variants: every name is added unless the log holds it. */
  method RecordNames(log: seq<string>, items: seq<CompilerData>, kind: NameKind) returns (r: seq<string>)
    ensures r == AddAllAbsent(log, Flatten(items, kind))
  {
    r := log;
    var i := 0;
    while i < |items|
      invariant 0 <= i <= |items|
      invariant r == AddAllAbsent(log, Flatten(items[..i], kind))
    {
      var names := NamesOf(items[i], kind);
      assert items[..i + 1][..i] == items[..i];
      assert Flatten(items[..i + 1], kind) == Flatten(items[..i], kind) + names;
      AddAllAbsentAppend(log, Flatten(items[..i], kind), names);
      r := RecordVariantNames(r, names);
      i := i + 1;
    }
    assert items[..i] == items;
  }

  /** The inner loop of the deep log: the names of one variant. */
  method RecordVariantNames(log: seq<string>, names: seq<string>) returns (r: seq<string>)
    ensures r == AddAllAbsent(log, names)
  {
    r := log;
    var j := 0;
    while j < |names|
      invariant 0 <= j <= |names|
      invariant r == AddAllAbsent(log, names[..j])
    {
      assert names[..j + 1][..j] == names[..j];
      if names[j] !in r {
        r := r + [names[j]];
      }
      j := j + 1;
    }
    assert names[..j] == names;
  }

  /** The names of `all` that `kept` does not hold, in order. */
  function Difference(all: seq<string>, kept: seq<string>): seq<string>
    decreases |all|
  {
    if all == [] then []
    else Difference(all[..|all| - 1], kept) + (if all[|all| - 1] in kept then [] else [all[|all| - 1]])
  }

  lemma {:induction false} DifferenceProperties(all: seq<string>, kept: seq<string>)
    ensures var r := Difference(all, kept);
            && |r| <= |all|
            && (forall x :: x in r <==> x in all && x !in kept)
            && (NoDuplicates(all) ==> NoDuplicates(r))
    decreases |all|
  {
    if all != [] {
      var init := all[..|all| - 1];
      DifferenceProperties(init, kept);
      assert all == init + [all[|all| - 1]];
      if NoDuplicates(all) {
        assert NoDuplicates(init) by {
          forall i, j | 0 <= i < j < |init| ensures init[i] != init[j] {
            assert init[i] == all[i] && init[j] == all[j];
          }
        }
      }
    }
  }

  /** The loop of OnPostprocessBuild that lists the names never kept. */
  method StrippedNames(all: seq<string>, kept: seq<string>) returns (r: seq<string>)
    ensures r == Difference(all, kept)
  {
    r := [];
    var i := 0;
    while i < |all|
      invariant 0 <= i <= |all|
      invariant r == Difference(all[..i], kept)
    {
      assert all[..i + 1][..i] == all[..i];
      if all[i] !in kept {
        r := r + [all[i]];
      }
      i := i + 1;
    }
    assert all[..i] == all;
  }

  /** Kept names lie among all names, so the stripped and kept names split them. */
  lemma StrippedAndKeptPartitionAll(all: seq<string>, kept: seq<string>)
    requires forall x :: x in kept ==> x in all
    ensures forall x :: x in all <==> x in kept || x in Difference(all, kept)
    ensures forall x :: !(x in kept && x in Difference(all, kept))
  {
    DifferenceProperties(all, kept);
  }

  // ---------------------------------------------------------------------
  // The build hook

  /**
    An entry of the kept-shaders log: the header, one line per shader pass
    with survivors, and with deep logs one line per surviving variant.
   */
  datatype KeptLine = Header | Kept(shaderName: string, passType: PassType, variants: nat) | VariantDetail(variant: CompilerData)

  /** The deep-log lines for the surviving variants, one per variant in order. */
  function VariantDetails(survivors: seq<CompilerData>): seq<KeptLine> {
    seq(|survivors|, k requires 0 <= k < |survivors| => VariantDetail(survivors[k]))
  }

  /**
    Per call, the kept-shaders log gains nothing when no variant survives;
    otherwise one line naming the shader, pass and number of survivors,
    followed with deep logs by one detail line per survivor, in order.
   */
  lemma KeptLinesShape(shader: Shader, passType: PassType, survivors: seq<CompilerData>, deepLogs: bool)
    ensures var r := KeptLines(shader, passType, survivors, deepLogs);
            && (|survivors| == 0 <==> r == [])
            && (|survivors| > 0 ==> r[0] == Kept(shader.name, passType, |survivors|))
            && |r| == (if |survivors| == 0 then 0 else 1 + if deepLogs then |survivors| else 0)
            && (deepLogs ==> forall k :: 0 <= k < |survivors| ==> r[k + 1] == VariantDetail(survivors[k]))
  {
  }

  /** What one OnProcessShader appends to the kept-shaders log. */
  function KeptLines(shader: Shader, passType: PassType, survivors: seq<CompilerData>, deepLogs: bool): seq<KeptLine> {
    if |survivors| == 0 then []
    else [Kept(shader.name, passType, |survivors|)] + (if deepLogs then VariantDetails(survivors) else [])
  }

  /** What OnPostprocessBuild hands to the log writer. */
  datatype BuildSummary = BuildSummary(
    built: nat,
    stripped: int,
    keptLog: seq<KeptLine>,
    allKeywords: seq<string>,
    keptKeywords: seq<string>,
    allPlatformKeywords: seq<string>,
    keptPlatformKeywords: seq<string>,
    strippedKeywords: seq<string>,
    strippedPlatformKeywords: seq<string>)

  class StripperUtility {
    var strippers: seq<Stripper>
    var enabled: bool
    var deepLogs: bool
    var logPath: string
    var rawCount: nat
    var keptCount: nat
    var keptLog: seq<KeptLine>
    var allKeywords: seq<string>
    var keptKeywords: seq<string>
    var allPlatformKeywords: seq<string>
    var keptPlatformKeywords: seq<string>

    /**
      Kept variants never exceed raw ones, kept names are always among all
      names, and no name log holds a name twice.
     */
    predicate Valid()
      reads this
    {
      && keptCount <= rawCount
      && NoDuplicates(allKeywords) && NoDuplicates(keptKeywords)
      && NoDuplicates(allPlatformKeywords) && NoDuplicates(keptPlatformKeywords)
      && (forall x :: x in keptKeywords ==> x in allKeywords)
      && (forall x :: x in keptPlatformKeywords ==> x in allPlatformKeywords)
    }

    constructor (deepLogs: bool)
      ensures Valid()
      ensures this.deepLogs == deepLogs && !enabled && strippers == [] && logPath == ""
      ensures rawCount == 0 && keptCount == 0 && keptLog == []
      ensures allKeywords == [] && keptKeywords == [] && allPlatformKeywords == [] && keptPlatformKeywords == []
    {
      this.deepLogs := deepLogs;
      enabled := false;
      strippers := [];
      logPath := "";
      rawCount := 0;
      keptCount := 0;
      keptLog := [];
      allKeywords := [];
      keptKeywords := [];
      allPlatformKeywords := [];
      keptPlatformKeywords := [];
    }

    /** Orders the strippers by `_order` and renumbers them. */
    method SortSettings()
      requires Valid()
      modifies this
      ensures Valid()
      ensures strippers == SortedSettings(old(strippers))
      ensures enabled == old(enabled) && deepLogs == old(deepLogs) && logPath == old(logPath)
      ensures rawCount == old(rawCount) && keptCount == old(keptCount) && keptLog == old(keptLog)
      ensures allKeywords == old(allKeywords) && keptKeywords == old(keptKeywords)
      ensures allPlatformKeywords == old(allPlatformKeywords) && keptPlatformKeywords == old(keptPlatformKeywords)
    {
      var sorted := SortByOrder(strippers);
      ghost var s0 := sorted;
      var i := 0;
      while i < |sorted|
        invariant 0 <= i <= |sorted| && |sorted| == |s0|
        invariant forall k :: 0 <= k < i ==> sorted[k] == s0[k].(order := k)
        invariant forall k :: i <= k < |sorted| ==> sorted[k] == s0[k]
      {
        sorted := sorted[i := sorted[i].(order := i)];
        i := i + 1;
      }
      strippers := sorted;
    }

    /**
      `found` stands for the stripper assets that the asset database lists;
      initialising each active stripper is their own business.
     */
    method OnPreprocessBuild(prefs: EditorPrefs, found: seq<Stripper>)
      requires Valid()
      modifies this, prefs
      ensures Valid()
      ensures logPath == old(prefs.GetString(KEY_LOG))
      ensures enabled == EnabledSetting(old(prefs.bools))
      ensures prefs.bools == EnabledStore(old(prefs.bools)) && prefs.strings == old(prefs.strings)
      ensures enabled ==> keptLog == [Header] && strippers == SortedSettings(found)
      ensures !enabled ==> keptLog == old(keptLog) && strippers == old(strippers)
      ensures deepLogs == old(deepLogs) && rawCount == old(rawCount) && keptCount == old(keptCount)
      ensures allKeywords == old(allKeywords) && keptKeywords == old(keptKeywords)
      ensures allPlatformKeywords == old(allPlatformKeywords) && keptPlatformKeywords == old(keptPlatformKeywords)
    {
      logPath := prefs.GetString(KEY_LOG);
      var setting := GetEnabled(prefs);
      enabled := setting;
      assert Valid();
      if enabled {
        keptLog := [Header];
        strippers := found;
        SortSettings();
      }
    }

    /** The first half of OnProcessShader: count the variants and, with deep logs, record their names. */
    method RecordSeen(items: seq<CompilerData>)
      requires Valid()
      modifies this
      ensures Valid()
      ensures rawCount == old(rawCount) + |items|
      ensures allKeywords == SeenLog(old(allKeywords), items, ShaderKeywords, deepLogs)
      ensures allPlatformKeywords == SeenLog(old(allPlatformKeywords), items, PlatformKeywords, deepLogs)
      ensures deepLogs ==>
                (&& (forall x :: x in Flatten(items, ShaderKeywords) ==> x in allKeywords)
                 && (forall x :: x in Flatten(items, PlatformKeywords) ==> x in allPlatformKeywords))
      ensures keptCount == old(keptCount) && keptLog == old(keptLog)
      ensures keptKeywords == old(keptKeywords) && keptPlatformKeywords == old(keptPlatformKeywords)
      ensures strippers == old(strippers) && enabled == old(enabled) && deepLogs == old(deepLogs) && logPath == old(logPath)
    {
      rawCount := rawCount + |items|;
      if deepLogs {
        AddAllAbsentCovers(allKeywords, Flatten(items, ShaderKeywords));
        AddAllAbsentCovers(allPlatformKeywords, Flatten(items, PlatformKeywords));
        AddAllAbsentProperties(allKeywords, Flatten(items, ShaderKeywords));
        AddAllAbsentProperties(allPlatformKeywords, Flatten(items, PlatformKeywords));
        allKeywords := RecordNames(allKeywords, items, ShaderKeywords);
        allPlatformKeywords := RecordNames(allPlatformKeywords, items, PlatformKeywords);
      }
    }

    /** The second half of OnProcessShader: count and log what the strippers left. */
    method RecordKept(shader: Shader, passType: PassType, survivors: seq<CompilerData>)
      requires Valid() && keptCount + |survivors| <= rawCount
      requires deepLogs ==>
                 (&& (forall x :: x in Flatten(survivors, ShaderKeywords) ==> x in allKeywords)
                  && (forall x :: x in Flatten(survivors, PlatformKeywords) ==> x in allPlatformKeywords))
      modifies this
      ensures Valid()
      ensures keptCount == old(keptCount) + |survivors|
      ensures keptLog == old(keptLog) + KeptLines(shader, passType, survivors, deepLogs)
      ensures keptKeywords == KeptNamesLog(old(keptKeywords), survivors, ShaderKeywords, deepLogs)
      ensures keptPlatformKeywords == KeptNamesLog(old(keptPlatformKeywords), survivors, PlatformKeywords, deepLogs)
      ensures rawCount == old(rawCount)
      ensures allKeywords == old(allKeywords) && allPlatformKeywords == old(allPlatformKeywords)
      ensures strippers == old(strippers) && enabled == old(enabled) && deepLogs == old(deepLogs) && logPath == old(logPath)
    {
      if |survivors| > 0 {
        keptCount := keptCount + |survivors|;
        keptLog := keptLog + KeptLines(shader, passType, survivors, deepLogs);
        if deepLogs {
          var kept, keptPlatform := RecordKeptNames(keptKeywords, keptPlatformKeywords, survivors);
          AddAllAbsentWithin(keptKeywords, Flatten(survivors, ShaderKeywords), allKeywords);
          AddAllAbsentWithin(keptPlatformKeywords, Flatten(survivors, PlatformKeywords), allPlatformKeywords);
          AddAllAbsentProperties(keptKeywords, Flatten(survivors, ShaderKeywords));
          AddAllAbsentProperties(keptPlatformKeywords, Flatten(survivors, PlatformKeywords));
          keptKeywords, keptPlatformKeywords := kept, keptPlatform;
        }
      }
    }

    /** Strips one shader pass's variants and updates the counters and logs. */
    method OnProcessShader(shader: Shader, passType: PassType, data: VariantList, apply: StripEffect)
      returns (ghost invoked: seq<nat>, ghost afters: seq<seq<CompilerData>>)
      requires Valid()
      modifies this, data
      ensures Valid()
      ensures !enabled ==> unchanged(this, data) && invoked == [] && afters == []
      ensures enabled ==>
        var run := Chain(strippers, apply, shader, passType, old(data.items), 0);
        var kept := run.items;
        && data.items == kept
        && invoked == run.invoked && afters == run.afters
        && rawCount == old(rawCount) + |old(data.items)|
        && keptCount == old(keptCount) + |kept|
        && keptLog == old(keptLog) + KeptLines(shader, passType, kept, deepLogs)
        && allKeywords == SeenLog(old(allKeywords), old(data.items), ShaderKeywords, deepLogs)
        && allPlatformKeywords == SeenLog(old(allPlatformKeywords), old(data.items), PlatformKeywords, deepLogs)
        && keptKeywords == KeptNamesLog(old(keptKeywords), kept, ShaderKeywords, deepLogs)
        && keptPlatformKeywords == KeptNamesLog(old(keptPlatformKeywords), kept, PlatformKeywords, deepLogs)
      ensures strippers == old(strippers) && enabled == old(enabled) && deepLogs == old(deepLogs) && logPath == old(logPath)
    {
      if !enabled {
        return [], [];
      }
      var items := data.items;
      RecordSeen(items);
      invoked, afters := RunStrippers(strippers, apply, shader, passType, data);
      var survivors := data.items;
      ChainOnlyRemoves(strippers, apply, shader, passType, items);
      FlattenOfMembers(survivors, items, ShaderKeywords);
      FlattenOfMembers(survivors, items, PlatformKeywords);
      RecordKept(shader, passType, survivors);
    }

    /** The report OnPostprocessBuild writes, including the names no variant kept. */
    method Report() returns (summary: BuildSummary)
      ensures summary == BuildSummary(
                keptCount, rawCount - keptCount, keptLog,
                allKeywords, keptKeywords, allPlatformKeywords, keptPlatformKeywords,
                Difference(allKeywords, keptKeywords),
                Difference(allPlatformKeywords, keptPlatformKeywords))
    {
      var strippedKeywords := StrippedNames(allKeywords, keptKeywords);
      var strippedPlatformKeywords := StrippedNames(allPlatformKeywords, keptPlatformKeywords);
      summary := BuildSummary(
        keptCount, rawCount - keptCount, keptLog,
        allKeywords, keptKeywords, allPlatformKeywords, keptPlatformKeywords,
        strippedKeywords, strippedPlatformKeywords);
    }

    /**
      Reports the build and resets the per-build state; `rawCount` is not
      reset. Nothing happens while stripping is disabled.
     */
    method OnPostprocessBuild() returns (summary: Option<BuildSummary>)
      requires Valid()
      modifies this
      ensures Valid()
      ensures !old(enabled) ==> summary == None && unchanged(this)
      ensures old(enabled) ==>
        && summary == Some(BuildSummary(
             old(keptCount), old(rawCount) - old(keptCount), old(keptLog),
             old(allKeywords), old(keptKeywords), old(allPlatformKeywords), old(keptPlatformKeywords),
             Difference(old(allKeywords), old(keptKeywords)),
             Difference(old(allPlatformKeywords), old(keptPlatformKeywords))))
        && keptCount == 0 && keptLog == [] && rawCount == old(rawCount)
        && allKeywords == [] && keptKeywords == [] && allPlatformKeywords == [] && keptPlatformKeywords == []
        && strippers == old(strippers) && enabled && deepLogs == old(deepLogs) && logPath == old(logPath)
    {
      if !enabled {
        return None;
      }
      var report := Report();
      summary := Some(report);
      keptLog := [];
      keptCount := 0;
      allKeywords := [];
      keptKeywords := [];
      allPlatformKeywords := [];
      keptPlatformKeywords := [];
    }
  }

  /** Both kept-name logs after the deep-log loop over the survivors. */
  method RecordKeptNames(keptKeywords: seq<string>, keptPlatformKeywords: seq<string>, survivors: seq<CompilerData>)
    returns (kept: seq<string>, keptPlatform: seq<string>)
    ensures kept == AddAllAbsent(keptKeywords, Flatten(survivors, ShaderKeywords))
    ensures keptPlatform == AddAllAbsent(keptPlatformKeywords, Flatten(survivors, PlatformKeywords))
  {
    kept := RecordNames(keptKeywords, survivors, ShaderKeywords);
    keptPlatform := RecordNames(keptPlatformKeywords, survivors, PlatformKeywords);
  }

  /** An all-names log after OnProcessShader has seen `items`. */
  function SeenLog(log: seq<string>, items: seq<CompilerData>, kind: NameKind, deepLogs: bool): seq<string> {
    if deepLogs then AddAllAbsent(log, Flatten(items, kind)) else log
  }

  /** A kept-names log after OnProcessShader has kept `survivors`. */
  function KeptNamesLog(log: seq<string>, survivors: seq<CompilerData>, kind: NameKind, deepLogs: bool): seq<string> {
    if deepLogs && |survivors| > 0 then AddAllAbsent(log, Flatten(survivors, kind)) else log
  }

  /**
    Across one OnProcessShader, every name in the kept log stays in the
    corresponding all-names log: survivors are some of the variants the
    all-names log has already seen.
   */
  lemma KeptLogStaysInsideSeenLog(kept: seq<string>, all: seq<string>, survivors: seq<CompilerData>,
                                  items: seq<CompilerData>, kind: NameKind, deepLogs: bool)
    requires forall x :: x in kept ==> x in all
    requires forall d :: d in survivors ==> d in items
    ensures forall x :: x in KeptNamesLog(kept, survivors, kind, deepLogs) ==> x in SeenLog(all, items, kind, deepLogs)
  {
    if deepLogs {
      AddAllAbsentProperties(kept, Flatten(survivors, kind));
      AddAllAbsentProperties(all, Flatten(items, kind));
      FlattenOfMembers(survivors, items, kind);
    }
  }
}
