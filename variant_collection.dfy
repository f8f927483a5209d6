/**
  The whitelist stripper (ShaderStripperVariantCollection): it keeps only the
  compiled variants whose keyword set, minus the excluded keywords, equals a
  variant recorded in the whitelisted collections for the same shader and pass.
 */
module VariantCollection {
  import opened ShaderTypes
  import opened Sequences

  const VR_KEYWORDS: seq<string> := ["UNITY_SINGLE_PASS_STEREO", "STEREO_INSTANCING_ON", "STEREO_MULTIVIEW_ON"]
  const INSTANCING_KEYWORDS: seq<string> := ["INSTANCING_ON"]

  /** The GUID that Unity reports for built-in shaders. */
  const BUILTIN_GUID: string := "0000000000000000f000000000000000"

  /** Collected keyword lists by shader, then by pass type. */
  type Catalog = map<Shader, map<PassType, seq<seq<string>>>>

  // ---------------------------------------------------------------------
  // Excluded keywords

  /** The exclude list Initialize composes from the two options. */
  function ExcludeList(allowVrVariants: bool, allowInstancedVariants: bool): seq<string> {
    (if allowVrVariants then VR_KEYWORDS else []) + (if allowInstancedVariants then INSTANCING_KEYWORDS else [])
  }

  lemma ExcludeListContents(allowVrVariants: bool, allowInstancedVariants: bool)
    ensures var ex := ExcludeList(allowVrVariants, allowInstancedVariants);
            && |ex| == (if allowVrVariants then 3 else 0) + (if allowInstancedVariants then 1 else 0)
            && (allowVrVariants ==> ex[..3] == VR_KEYWORDS)
            && (allowInstancedVariants ==> ex[|ex| - 1] == "INSTANCING_ON")
            && forall x :: x in ex <==> (allowVrVariants && x in VR_KEYWORDS) || (allowInstancedVariants && x == "INSTANCING_ON")
  {
  }

  /** The incoming keywords with every excluded one left out, in order. */
  function DropExcluded(keywords: seq<string>, excludes: seq<string>): (r: seq<string>)
    ensures |r| <= |keywords|
  {
    if keywords == [] then []
    else if keywords[0] in excludes then DropExcluded(keywords[1..], excludes)
    else [keywords[0]] + DropExcluded(keywords[1..], excludes)
  }

  lemma {:induction false} DropExcludedAppend(a: seq<string>, b: seq<string>, excludes: seq<string>)
    ensures DropExcluded(a + b, excludes) == DropExcluded(a, excludes) + DropExcluded(b, excludes)
    decreases |a|
  {
    if a == [] {
      assert a + b == b;
    } else {
      assert (a + b)[0] == a[0];
      assert (a + b)[1..] == a[1..] + b;
      DropExcludedAppend(a[1..], b, excludes);
    }
  }

  lemma {:induction false} DropExcludedMembership(keywords: seq<string>, excludes: seq<string>)
    ensures forall x :: x in DropExcluded(keywords, excludes) <==> x in keywords && x !in excludes
    decreases |keywords|
  {
    if keywords != [] {
      assert keywords == [keywords[0]] + keywords[1..];
      DropExcludedMembership(keywords[1..], excludes);
    }
  }

  /** Each keyword that is not excluded keeps its multiplicity; excluded ones vanish. */
  lemma {:induction false} DropExcludedMultiplicity(keywords: seq<string>, excludes: seq<string>, x: string)
    ensures multiset(DropExcluded(keywords, excludes))[x] == if x in excludes then 0 else multiset(keywords)[x]
    decreases |keywords|
  {
    if keywords != [] {
      assert keywords == [keywords[0]] + keywords[1..];
      DropExcludedMultiplicity(keywords[1..], excludes, x);
    }
  }

  // ---------------------------------------------------------------------
  // Ordinal order of keywords

  /** string.CompareOrdinal(a, b) <= 0. */
  predicate OrdinalLessEq(a: string, b: string)
    decreases |a|
  {
    if a == [] then true
    else if b == [] then false
    else if a[0] != b[0] then a[0] < b[0]
    else OrdinalLessEq(a[1..], b[1..])
  }

  lemma {:induction false} OrdinalTotal(a: string, b: string)
    ensures OrdinalLessEq(a, b) || OrdinalLessEq(b, a)
    decreases |a|
  {
    if a != [] && b != [] && a[0] == b[0] {
      OrdinalTotal(a[1..], b[1..]);
    }
  }

  predicate SortedOrdinal(s: seq<string>) {
    forall i :: 0 < i < |s| ==> OrdinalLessEq(s[i - 1], s[i])
  }

  function InsertOrdinal(x: string, s: seq<string>): (r: seq<string>)
    ensures multiset(r) == multiset(s) + multiset{x}
    ensures |r| == |s| + 1
    ensures r[0] == x || (s != [] && r[0] == s[0])
    ensures SortedOrdinal(s) ==> SortedOrdinal(r)
  {
    if s == [] then [x]
    else if OrdinalLessEq(x, s[0]) then [x] + s
    else
      OrdinalTotal(x, s[0]);
      assert s == [s[0]] + s[1..];
      [s[0]] + InsertOrdinal(x, s[1..])
  }

  /** List.Sort with string.CompareOrdinal, as a function of the list. */
  function SortOrdinal(s: seq<string>): (r: seq<string>)
    ensures multiset(r) == multiset(s)
    ensures |r| == |s|
    ensures SortedOrdinal(r)
  {
    if s == [] then []
    else
      assert s == [s[0]] + s[1..];
      InsertOrdinal(s[0], SortOrdinal(s[1..]))
  }

  // ---------------------------------------------------------------------
  // Matching one variant

  /** Two keyword lists hold the same keywords with the same multiplicities. */
  predicate SameKeywords(a: seq<string>, b: seq<string>) {
    multiset(a) == multiset(b)
  }

  lemma KeywordCountMismatchNeverMatches(a: seq<string>, b: seq<string>)
    requires |a| != |b|
    ensures !SameKeywords(a, b)
  {
    assert |multiset(a)| == |a| && |multiset(b)| == |b|;
  }

  /** Some collected variant of the pass has the variant's non-excluded keywords. */
  predicate MatchesCollected(keywords: seq<string>, collectedPass: seq<seq<string>>, excludes: seq<string>) {
    exists c :: c in collectedPass && SameKeywords(DropExcluded(keywords, excludes), c)
  }

  /** The variants of `items` that match, in their original order. */
  function Survivors(items: seq<CompilerData>, collectedPass: seq<seq<string>>, excludes: seq<string>): seq<CompilerData> {
    if items == [] then []
    else if MatchesCollected(items[0].keywords, collectedPass, excludes) then
      [items[0]] + Survivors(items[1..], collectedPass, excludes)
    else Survivors(items[1..], collectedPass, excludes)
  }

  lemma {:induction false} SurvivorsAreMatchingSubsequence(items: seq<CompilerData>, collectedPass: seq<seq<string>>, excludes: seq<string>)
    ensures IsSubsequence(Survivors(items, collectedPass, excludes), items)
    ensures forall d :: d in Survivors(items, collectedPass, excludes) <==>
                          d in items && MatchesCollected(d.keywords, collectedPass, excludes)
    decreases |items|
  {
    if items != [] {
      var rest := Survivors(items[1..], collectedPass, excludes);
      SurvivorsAreMatchingSubsequence(items[1..], collectedPass, excludes);
      assert items == [items[0]] + items[1..];
      if MatchesCollected(items[0].keywords, collectedPass, excludes) {
        var r := [items[0]] + rest;
        assert r[1..] == rest;
      }
    }
  }

  /** Adding or removing an excluded keyword never changes whether a variant survives. */
  lemma ExcludedKeywordIsTransparent(a: seq<string>, b: seq<string>, k: string, collectedPass: seq<seq<string>>, excludes: seq<string>)
    requires k in excludes
    ensures MatchesCollected(a + [k] + b, collectedPass, excludes) == MatchesCollected(a + b, collectedPass, excludes)
  {
    DropExcludedAppend(a + [k], b, excludes);
    DropExcludedAppend(a, [k], excludes);
    DropExcludedAppend(a, b, excludes);
    assert DropExcluded([k], excludes) == [];
  }

  /** The order in which a variant lists its keywords never matters. */
  lemma KeywordOrderIsIrrelevant(a: seq<string>, b: seq<string>, collectedPass: seq<seq<string>>, excludes: seq<string>)
    requires multiset(a) == multiset(b)
    ensures MatchesCollected(a, collectedPass, excludes) == MatchesCollected(b, collectedPass, excludes)
  {
    forall x ensures multiset(DropExcluded(a, excludes))[x] == multiset(DropExcluded(b, excludes))[x] {
      DropExcludedMultiplicity(a, excludes, x);
      DropExcludedMultiplicity(b, excludes, x);
    }
    assert multiset(DropExcluded(a, excludes)) == multiset(DropExcluded(b, excludes));
  }

  /** The ordered keyword list of one variant, with the excluded keywords removed. */
  method FilterExcluded(keywords: seq<string>, excludes: seq<string>) returns (r: seq<string>)
    ensures r == DropExcluded(keywords, excludes)
  {
    r := [];
    var j := 0;
    while j < |keywords|
      invariant 0 <= j <= |keywords|
      invariant r + DropExcluded(keywords[j..], excludes) == DropExcluded(keywords, excludes)
    {
      var n := keywords[j];
      var add := true;
      if |excludes| > 0 && n in excludes {
        add := false;
      }
      assert keywords[j..] == [n] + keywords[j + 1..];
      if add {
        r := r + [n];
      }
      j := j + 1;
    }
  }

  /** Removing the next collected keyword from what is left of the requested ones. */
  lemma RemoveStep(requested: seq<string>, sorted: seq<string>, j: nat, toMatch: seq<string>)
    requires j < |sorted|
    requires multiset(sorted[..j]) <= multiset(requested)
    requires multiset(toMatch) == multiset(requested) - multiset(sorted[..j])
    requires sorted[j] in toMatch
    ensures multiset(sorted[..j + 1]) <= multiset(requested)
    ensures multiset(RemoveFirst(toMatch, sorted[j])) == multiset(requested) - multiset(sorted[..j + 1])
  {
    var k := sorted[j];
    assert sorted[..j + 1] == sorted[..j] + [k];
    var before := multiset(sorted[..j]);
    var after := multiset(sorted[..j + 1]);
    assert after == before + multiset{k};
    assert multiset(toMatch)[k] > 0;
    forall x
      ensures after[x] <= multiset(requested)[x]
      ensures multiset(RemoveFirst(toMatch, k))[x] == (multiset(requested) - after)[x]
    {
    }
  }

  /** A collected keyword with nothing left to remove it from rules the match out. */
  lemma MissingKeywordFails(requested: seq<string>, sorted: seq<string>, j: nat, toMatch: seq<string>)
    requires j < |sorted|
    requires multiset(toMatch) == multiset(requested) - multiset(sorted[..j])
    requires sorted[j] !in toMatch
    ensures multiset(requested) != multiset(sorted)
  {
    var k := sorted[j];
    assert sorted == sorted[..j] + [k] + sorted[j + 1..];
    assert multiset(sorted)[k] >= multiset(sorted[..j])[k] + 1;
    assert multiset(toMatch)[k] == 0;
  }

  /**
    The comparison of the requested keywords with one collected variant:
    a count mismatch fails at once; otherwise each keyword of the collected
    variant, in ordinal order, is removed from a copy of the requested list,
    and the variant matches when nothing is left.
   */
  method KeywordsMatch(requested: seq<string>, collected: seq<string>) returns (matched: bool)
    ensures matched <==> SameKeywords(requested, collected)
  {
    var toMatch := requested;
    if |toMatch| != |collected| {
      KeywordCountMismatchNeverMatches(requested, collected);
      return false;
    }
    if |toMatch| == 0 && |collected| == 0 {
      return true;
    }
    var sorted := SortOrdinal(collected);
    matched := RemoveEach(requested, sorted);
  }

  /**
    The removal loop of KeywordsMatch: each keyword of `sorted` in turn is
    removed from a copy of `requested`; a keyword with nothing left to
    remove it from fails the match.
   */
  method RemoveEach(requested: seq<string>, sorted: seq<string>) returns (matched: bool)
    requires |requested| == |sorted|
    ensures matched <==> multiset(requested) == multiset(sorted)
  {
    var toMatch := requested;
    var j := 0;
    while j < |sorted|
      invariant 0 <= j <= |sorted|
      invariant multiset(sorted[..j]) <= multiset(requested)
      invariant multiset(toMatch) == multiset(requested) - multiset(sorted[..j])
    {
      var k := sorted[j];
      if k !in toMatch {
        MissingKeywordFails(requested, sorted, j, toMatch);
        return false;
      }
      RemoveStep(requested, sorted, j, toMatch);
      toMatch := RemoveFirst(toMatch, k);
      j := j + 1;
    }
    assert sorted[..j] == sorted;
    FinishMatch(requested, sorted, toMatch);
    matched := |toMatch| == 0;
  }

  /** With equal lengths, nothing left over means the two multisets agree. */
  lemma FinishMatch(requested: seq<string>, sorted: seq<string>, toMatch: seq<string>)
    requires |requested| == |sorted|
    requires multiset(sorted) <= multiset(requested)
    requires multiset(toMatch) == multiset(requested) - multiset(sorted)
    ensures |toMatch| == 0 <==> multiset(requested) == multiset(sorted)
  {
    assert multiset(requested) == multiset(sorted) + multiset(toMatch);
    assert |multiset(requested)| == |multiset(sorted)| + |multiset(toMatch)|;
  }

  /** Whether some collected variant of the pass matches the requested keywords. */
  method AnyCollectedMatches(requested: seq<string>, collectedPass: seq<seq<string>>) returns (matched: bool)
    ensures matched <==> exists c :: c in collectedPass && SameKeywords(requested, c)
  {
    var j := 0;
    while j < |collectedPass|
      invariant 0 <= j <= |collectedPass|
      invariant forall q :: 0 <= q < j ==> !SameKeywords(requested, collectedPass[q])
    {
      matched := KeywordsMatch(requested, collectedPass[j]);
      if matched {
        return;
      }
      j := j + 1;
    }
    matched := false;
  }

  /** The test applied to one supplied variant: its filtered keywords against every collected variant. */
  method VariantMatches(keywords: seq<string>, collectedPass: seq<seq<string>>, excludes: seq<string>) returns (matched: bool)
    ensures matched == MatchesCollected(keywords, collectedPass, excludes)
  {
    var requested := FilterExcluded(keywords, excludes);
    matched := AnyCollectedMatches(requested, collectedPass);
  }

  /** One step of the backward walk: position i is kept or removed. */
  lemma KeepStep(orig: seq<CompilerData>, i: nat, items: seq<CompilerData>, matched: bool,
                 collectedPass: seq<seq<string>>, excludes: seq<string>)
    requires i < |orig|
    requires items == orig[..i + 1] + Survivors(orig[i + 1..], collectedPass, excludes)
    requires matched == MatchesCollected(orig[i].keywords, collectedPass, excludes)
    ensures i < |items| && items[i] == orig[i]
    ensures matched ==> items == orig[..i] + Survivors(orig[i..], collectedPass, excludes)
    ensures !matched ==> items[..i] + items[i + 1..] == orig[..i] + Survivors(orig[i..], collectedPass, excludes)
  {
    var tail := Survivors(orig[i + 1..], collectedPass, excludes);
    assert orig[i..][1..] == orig[i + 1..];
    assert orig[..i + 1] == orig[..i] + [orig[i]];
    assert items == orig[..i] + [orig[i]] + tail;
    if !matched {
      assert items[..i] == orig[..i];
      assert items[i + 1..] == tail;
    }
  }

  /**
    The backward walk over the supplied variants: each one that matches no
    collected variant of the pass is removed in place.
   */
  method KeepMatching(collectedPass: seq<seq<string>>, excludes: seq<string>, variantData: VariantList)
    modifies variantData
    ensures variantData.items == Survivors(old(variantData.items), collectedPass, excludes)
  {
    ghost var orig := variantData.items;
    var count: int := variantData.Count();
    var i := count - 1;
    while i >= 0
      invariant -1 <= i < count == |orig|
      invariant variantData.items == orig[..i + 1] + Survivors(orig[i + 1..], collectedPass, excludes)
    {
      KeepStep(orig, i, variantData.items, MatchesCollected(orig[i].keywords, collectedPass, excludes), collectedPass, excludes);
      var variantMatched := VariantMatches(variantData.items[i].keywords, collectedPass, excludes);
      if !variantMatched {
        variantData.RemoveAt(i);
      }
      i := i - 1;
    }
    assert orig[0..] == orig;
  }

  // ---------------------------------------------------------------------
  // The whole stripper

  /** Everything StripCustom reads: serialized settings and what Initialize built. */
  datatype StripState = StripState(
    valid: bool,
    stripHidden: bool,
    ignoreShadersByName: seq<string -> bool>,
    ignorePassTypes: seq<PassType>,
    builtinShadersWithNoKeywords: seq<int>,
    customShadersWithNoKeywords: seq<string>,
    excludes: seq<string>,
    variantsByShader: Catalog)

  /** Some ignore pattern (StringMatch.Evaluate) accepts the shader's name. */
  predicate NameIgnored(patterns: seq<string -> bool>, name: string) {
    exists k :: 0 <= k < |patterns| && patterns[k](name)
  }

  /** Registered in the collections with an empty variant list: by file id for built-in GUIDs, else by GUID. */
  predicate WhitelistedWithNoKeywords(st: StripState, shader: Shader) {
    if shader.guid == BUILTIN_GUID then shader.fileID in st.builtinShadersWithNoKeywords
    else shader.guid in st.customShadersWithNoKeywords
  }

  predicate IsHidden(name: string) {
    |name| >= 7 && name[..7] == "Hidden/"
  }

  /** The guards under which StripCustom returns before touching the list. */
  predicate KeepsEverything(st: StripState, shader: Shader, passType: PassType) {
    || !st.valid
    || shader.assetPath == ""
    || NameIgnored(st.ignoreShadersByName, shader.name)
    || passType in st.ignorePassTypes
    || WhitelistedWithNoKeywords(st, shader)
  }

  /** The variant list StripCustom leaves behind. */
  function Strip(st: StripState, shader: Shader, passType: PassType, items: seq<CompilerData>): seq<CompilerData> {
    if KeepsEverything(st, shader, passType) then items
    else if shader in st.variantsByShader then
      var byPass := st.variantsByShader[shader];
      if passType in byPass then Survivors(items, byPass[passType], st.excludes) else []
    else if st.stripHidden || !IsHidden(shader.name) then []
    else items
  }

  /** Without a usable whitelist nothing is stripped (fail open). */
  lemma StripFailsOpen(st: StripState, shader: Shader, passType: PassType, items: seq<CompilerData>)
    requires !st.valid
    ensures Strip(st, shader, passType, items) == items
  {
  }

  /** Built-in shaders, ignored names and passes, and no-keyword shaders are left alone. */
  lemma StripLeavesIgnoredAlone(st: StripState, shader: Shader, passType: PassType, items: seq<CompilerData>)
    requires || shader.assetPath == ""
             || NameIgnored(st.ignoreShadersByName, shader.name)
             || passType in st.ignorePassTypes
             || (shader.guid == BUILTIN_GUID && shader.fileID in st.builtinShadersWithNoKeywords)
             || (shader.guid != BUILTIN_GUID && shader.guid in st.customShadersWithNoKeywords)
    ensures Strip(st, shader, passType, items) == items
  {
  }

  /**
    When the shader and its pass are in the whitelist, the result is the
    subsequence of variants that match some collected variant.
   */
  lemma StripFoundPassKeepsExactlyMatches(st: StripState, shader: Shader, passType: PassType, items: seq<CompilerData>)
    requires !KeepsEverything(st, shader, passType)
    requires shader in st.variantsByShader && passType in st.variantsByShader[shader]
    ensures var r := Strip(st, shader, passType, items);
            var collected := st.variantsByShader[shader][passType];
            && IsSubsequence(r, items)
            && forall d :: d in r <==> d in items && MatchesCollected(d.keywords, collected, st.excludes)
  {
    SurvivorsAreMatchingSubsequence(items, st.variantsByShader[shader][passType], st.excludes);
  }

  /** A whitelisted shader whose pass was never collected loses all its variants. */
  lemma StripMissingPassClears(st: StripState, shader: Shader, passType: PassType, items: seq<CompilerData>)
    requires !KeepsEverything(st, shader, passType)
    requires shader in st.variantsByShader && passType !in st.variantsByShader[shader]
    ensures Strip(st, shader, passType, items) == []
  {
  }

  /** A shader missing from the whitelist is cleared, unless it is Hidden/ and Hidden shaders are spared. */
  lemma StripMissingShader(st: StripState, shader: Shader, passType: PassType, items: seq<CompilerData>)
    requires !KeepsEverything(st, shader, passType)
    requires shader !in st.variantsByShader
    ensures Strip(st, shader, passType, items) == if !st.stripHidden && IsHidden(shader.name) then items else []
  {
  }

  /** Stripping only ever removes variants. */
  lemma StripOnlyRemoves(st: StripState, shader: Shader, passType: PassType, items: seq<CompilerData>)
    ensures IsSubsequence(Strip(st, shader, passType, items), items)
  {
    SubsequenceOfSelf(items);
    if !KeepsEverything(st, shader, passType) && shader in st.variantsByShader
       && passType in st.variantsByShader[shader] {
      SurvivorsAreMatchingSubsequence(items, st.variantsByShader[shader][passType], st.excludes);
    }
  }

  /**
    A worked catalog: shader s, pass 0, one collected variant with keywords
    {A, B}; nothing excluded, no ignore lists, Hidden/ shaders spared.
   */
  function ScenarioState(s: Shader): StripState {
    StripState(true, false, [], [], [], [], [], map[s := map[0 := [["A", "B"]]]])
  }

  /** In the worked catalog, (s, 0, {B, A}) is kept: keyword order does not matter. */
  lemma ScenarioKeepsReordered(s: Shader, platform: ShaderCompilerPlatform)
    requires s.assetPath != "" && s.guid != BUILTIN_GUID
    ensures var ba := CompilerData(["B", "A"], platform, []);
            Strip(ScenarioState(s), s, 0, [ba]) == [ba]
  {
    var st := ScenarioState(s);
    var ba := CompilerData(["B", "A"], platform, []);
    assert !NameIgnored(st.ignoreShadersByName, s.name);
    assert !KeepsEverything(st, s, 0);
    assert DropExcluded(ba.keywords, []) == ["B", "A"];
    assert SameKeywords(["B", "A"], ["A", "B"]);
    assert MatchesCollected(ba.keywords, [["A", "B"]], []);
    assert [ba][1..] == [];
    assert Survivors([ba], [["A", "B"]], []) == [ba] + Survivors([], [["A", "B"]], []);
  }

  /** In the worked catalog, (s, 0, {A}) is stripped: a subset of the collected keywords is not enough. */
  lemma ScenarioStripsPartial(s: Shader, platform: ShaderCompilerPlatform)
    requires s.assetPath != "" && s.guid != BUILTIN_GUID
    ensures Strip(ScenarioState(s), s, 0, [CompilerData(["A"], platform, [])]) == []
  {
    var st := ScenarioState(s);
    var a := CompilerData(["A"], platform, []);
    assert !NameIgnored(st.ignoreShadersByName, s.name);
    assert !KeepsEverything(st, s, 0);
    assert DropExcluded(a.keywords, []) == ["A"];
    KeywordCountMismatchNeverMatches(["A"], ["A", "B"]);
    assert !MatchesCollected(a.keywords, [["A", "B"]], []);
    assert [a][1..] == [];
    assert st.variantsByShader[s][0] == [["A", "B"]];
    assert Survivors([a], [["A", "B"]], []) == Survivors([], [["A", "B"]], []);
  }

  /** In the worked catalog, every variant of pass 1 of s is stripped: the pass was never collected. */
  lemma ScenarioStripsOtherPass(s: Shader, items: seq<CompilerData>)
    requires s.assetPath != "" && s.guid != BUILTIN_GUID
    ensures Strip(ScenarioState(s), s, 1, items) == []
  {
    assert !NameIgnored(ScenarioState(s).ignoreShadersByName, s.name);
  }

  /** In the worked catalog, every variant of another shader t that is not Hidden/ is stripped. */
  lemma ScenarioStripsUncollectedShader(s: Shader, t: Shader, passType: PassType, items: seq<CompilerData>)
    requires s != t && t.assetPath != "" && t.guid != BUILTIN_GUID && !IsHidden(t.name)
    ensures Strip(ScenarioState(s), t, passType, items) == []
  {
    assert !NameIgnored(ScenarioState(s).ignoreShadersByName, t.name);
  }

  /** _tempExcludes: one list shared by every whitelist stripper. */
  class ExcludeBuffer {
    var keywords: seq<string>

    constructor ()
      ensures keywords == []
    {
      keywords := [];
    }
  }

  class VariantCollectionStripper {
    // serialized settings
    const stripHidden: bool
    const allowVrVariants: bool
    const allowInstancedVariants: bool
    const ignoreShadersByName: seq<string -> bool>
    const ignorePassTypes: seq<PassType>
    // the static exclude list, shared with the other instances
    const tempExcludes: ExcludeBuffer

    var builtinShadersWithNoKeywords: seq<int>
    var customShadersWithNoKeywords: seq<string>
    var valid: bool
    var variantsByShader: Catalog

    constructor (stripHidden: bool, allowVrVariants: bool, allowInstancedVariants: bool,
                 ignoreShadersByName: seq<string -> bool>, ignorePassTypes: seq<PassType>,
                 tempExcludes: ExcludeBuffer)
      ensures this.stripHidden == stripHidden && this.allowVrVariants == allowVrVariants
      ensures this.allowInstancedVariants == allowInstancedVariants
      ensures this.ignoreShadersByName == ignoreShadersByName && this.ignorePassTypes == ignorePassTypes
      ensures this.tempExcludes == tempExcludes
      ensures builtinShadersWithNoKeywords == [] && customShadersWithNoKeywords == []
      ensures !valid && variantsByShader == map[]
    {
      this.stripHidden := stripHidden;
      this.allowVrVariants := allowVrVariants;
      this.allowInstancedVariants := allowInstancedVariants;
      this.ignoreShadersByName := ignoreShadersByName;
      this.ignorePassTypes := ignorePassTypes;
      this.tempExcludes := tempExcludes;
      builtinShadersWithNoKeywords := [];
      customShadersWithNoKeywords := [];
      valid := false;
      variantsByShader := map[];
    }

    function State(): StripState
      reads this, tempExcludes
    {
      StripState(valid, stripHidden, ignoreShadersByName, ignorePassTypes,
                 builtinShadersWithNoKeywords, customShadersWithNoKeywords,
                 tempExcludes.keywords, variantsByShader)
    }

    /**
      `parsed` stands for what ParseShaderVariantCollections returns (None for
      null), together with the two no-keyword lists it fills in.
     */
    method Initialize(parsed: Option<Catalog>, builtinNoKeywords: seq<int>, customNoKeywords: seq<string>)
      modifies this, tempExcludes
      ensures tempExcludes.keywords == ExcludeList(allowVrVariants, allowInstancedVariants)
      ensures builtinShadersWithNoKeywords == builtinNoKeywords
      ensures customShadersWithNoKeywords == customNoKeywords
      ensures variantsByShader == if parsed.Some? then parsed.value else map[]
      ensures valid <==> parsed.Some? && |parsed.value| > 0
    {
      builtinShadersWithNoKeywords := [];
      customShadersWithNoKeywords := [];
      tempExcludes.keywords := [];
      if allowVrVariants {
        tempExcludes.keywords := tempExcludes.keywords + VR_KEYWORDS;
      }
      if allowInstancedVariants {
        tempExcludes.keywords := tempExcludes.keywords + INSTANCING_KEYWORDS;
      }
      builtinShadersWithNoKeywords := builtinNoKeywords;
      customShadersWithNoKeywords := customNoKeywords;
      variantsByShader := if parsed.Some? then parsed.value else map[];
      valid := parsed.Some? && |parsed.value| > 0;
    }

    method StripCustom(shader: Shader, passType: PassType, variantData: VariantList) returns (r: bool)
      modifies variantData
      ensures r
      ensures variantData.items == Strip(State(), shader, passType, old(variantData.items))
    {
      r := true;
      if !valid {
        return;
      }
      if shader.assetPath == "" {
        return;
      }
      var s := 0;
      while s < |ignoreShadersByName|
        invariant 0 <= s <= |ignoreShadersByName|
        invariant forall k :: 0 <= k < s ==> !ignoreShadersByName[k](shader.name)
      {
        if ignoreShadersByName[s](shader.name) {
          return;
        }
        s := s + 1;
      }
      if passType in ignorePassTypes {
        return;
      }
      var whitelistedWithNoKeywords := false;
      if shader.guid == BUILTIN_GUID {
        if shader.fileID in builtinShadersWithNoKeywords {
          whitelistedWithNoKeywords := true;
        }
      } else if shader.guid in customShadersWithNoKeywords {
        whitelistedWithNoKeywords := true;
      }
      if whitelistedWithNoKeywords {
        return;
      }
      assert !KeepsEverything(State(), shader, passType);

      if shader in variantsByShader {
        var collectedVariantsByPass := variantsByShader[shader];
        if passType in collectedVariantsByPass {
          KeepMatching(collectedVariantsByPass[passType], tempExcludes.keywords, variantData);
        } else {
          variantData.Clear();
        }
      } else {
        if stripHidden || !IsHidden(shader.name) {
          variantData.Clear();
        }
      }
    }
  }
}
