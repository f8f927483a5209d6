/**
  The line-oriented reader for the `key: value` lines of a serialized
  ShaderVariantCollection, and the equality test between two collected
  shader variants. Every reader works on one physical line at a time.
 */
module YamlHelper {
  import opened ShaderTypes
  import opened Sequences

  datatype Error = KeyNotFound(key: string, line: string) | NullReference

  datatype Result<T> = Ok(value: T) | Err(error: Error)

  // ---------------------------------------------------------------------
  // Variant equality

  /** A ShaderVariantCollection.ShaderVariant; `keywords` may be a null array. */
  datatype ShaderVariant = ShaderVariant(shader: Shader, passType: PassType, keywords: Option<seq<string>>)

  /** Every keyword of `b` occurs somewhere in `a`. */
  predicate AllOccurIn(b: seq<string>, a: seq<string>) {
    forall k :: 0 <= k < |b| ==> b[k] in a
  }

  /**
    What ShaderVariantsEqual computes: same shader, same pass, same null-ness,
    same number of keywords, and every keyword of b found among a's. When both
    keyword arrays are null the length test dereferences null.
   */
  function VariantsEqual(a: ShaderVariant, b: ShaderVariant): Result<bool> {
    if a.shader != b.shader || a.passType != b.passType then Ok(false)
    else if a.keywords.None? != b.keywords.None? then Ok(false)
    else if a.keywords.None? then Err(NullReference)
    else if |a.keywords.value| != |b.keywords.value| then Ok(false)
    else Ok(AllOccurIn(b.keywords.value, a.keywords.value))
  }

  method ShaderVariantsEqual(a: ShaderVariant, b: ShaderVariant) returns (r: Result<bool>)
    ensures r == VariantsEqual(a, b)
  {
    if a.shader != b.shader || a.passType != b.passType {
      return Ok(false);
    }
    if a.keywords.None? != b.keywords.None? {
      return Ok(false);
    }
    if a.keywords.None? {
      return Err(NullReference);
    }
    var bk := b.keywords.value;
    if |a.keywords.value| != |bk| {
      return Ok(false);
    }
    // the shared comparison buffer, refilled with a's keywords
    var compare := a.keywords.value;
    var i := 0;
    while i < |bk|
      invariant 0 <= i <= |bk|
      invariant forall k :: 0 <= k < i ==> bk[k] in compare
    {
      if bk[i] !in compare {
        return Ok(false);
      }
      i := i + 1;
    }
    return Ok(true);
  }

  /** Keyword lists that are permutations of each other always compare equal. */
  lemma {:induction false} VariantsEqualOfPermutation(a: ShaderVariant, b: ShaderVariant)
    requires a.shader == b.shader && a.passType == b.passType
    requires a.keywords.Some? && b.keywords.Some?
    requires multiset(a.keywords.value) == multiset(b.keywords.value)
    ensures VariantsEqual(a, b) == Ok(true)
  {
    var ak, bk := a.keywords.value, b.keywords.value;
    assert |ak| == |multiset(ak)| == |multiset(bk)| == |bk|;
    forall k | 0 <= k < |bk| ensures bk[k] in ak {
      assert bk[k] in multiset(bk);
    }
  }

  /** Permuting either keyword list never changes the outcome. */
  lemma {:induction false} VariantsEqualIgnoresOrder(a: ShaderVariant, b: ShaderVariant, a': ShaderVariant, b': ShaderVariant)
    requires a'.shader == a.shader && a'.passType == a.passType
    requires b'.shader == b.shader && b'.passType == b.passType
    requires a'.keywords.None? == a.keywords.None? && b'.keywords.None? == b.keywords.None?
    requires a.keywords.Some? ==> multiset(a'.keywords.value) == multiset(a.keywords.value)
    requires b.keywords.Some? ==> multiset(b'.keywords.value) == multiset(b.keywords.value)
    ensures VariantsEqual(a', b') == VariantsEqual(a, b)
  {
    if a.keywords.Some? && b.keywords.Some? {
      var ak, bk, ak', bk' := a.keywords.value, b.keywords.value, a'.keywords.value, b'.keywords.value;
      assert |ak| == |multiset(ak)| == |multiset(ak')| == |ak'|;
      assert |bk| == |multiset(bk)| == |multiset(bk')| == |bk'|;
      assert forall x :: x in ak <==> x in ak' by {
        forall x ensures x in ak <==> x in ak' {
          assert x in ak <==> x in multiset(ak);
          assert x in ak' <==> x in multiset(ak');
        }
      }
      assert forall x :: x in bk <==> x in bk' by {
        forall x ensures x in bk <==> x in bk' {
          assert x in bk <==> x in multiset(bk);
          assert x in bk' <==> x in multiset(bk');
        }
      }
      if AllOccurIn(bk, ak) {
        forall k | 0 <= k < |bk'| ensures bk'[k] in ak' {
          assert bk'[k] in bk;
        }
      } else {
        var k :| 0 <= k < |bk| && bk[k] !in ak;
        assert bk[k] in bk';
        var k' :| 0 <= k' < |bk'| && bk'[k'] == bk[k];
        assert !AllOccurIn(bk', ak');
      }
    }
  }

  /** Without duplicate keywords the test is exactly multiset equality. */
  lemma {:induction false} VariantsEqualExactWithoutDuplicates(a: ShaderVariant, b: ShaderVariant)
    requires a.shader == b.shader && a.passType == b.passType
    requires a.keywords.Some? && b.keywords.Some?
    requires NoDuplicates(a.keywords.value) && NoDuplicates(b.keywords.value)
    ensures VariantsEqual(a, b) == Ok(true) <==> multiset(a.keywords.value) == multiset(b.keywords.value)
  {
    var ak, bk := a.keywords.value, b.keywords.value;
    if multiset(ak) == multiset(bk) {
      VariantsEqualOfPermutation(a, b);
    }
    if VariantsEqual(a, b) == Ok(true) {
      assert Elements(bk) <= Elements(ak);
      ElementsOfDistinct(ak);
      ElementsOfDistinct(bk);
      SubsetOfSameSize(Elements(bk), Elements(ak));
      forall x ensures multiset(ak)[x] == multiset(bk)[x] {
        DistinctMultiplicity(ak, x);
        DistinctMultiplicity(bk, x);
        assert x in ak <==> x in Elements(ak);
        assert x in bk <==> x in Elements(bk);
      }
      assert multiset(ak) == multiset(bk);
    }
  }

  /**
    With a duplicated keyword the test is not symmetric and not multiset
    equality: ["A", "B"] accepts ["A", "A"], but not the other way round.
   */
  lemma VariantsEqualNotSymmetric(s: Shader, p: PassType)
    ensures VariantsEqual(ShaderVariant(s, p, Some(["A", "B"])), ShaderVariant(s, p, Some(["A", "A"]))) == Ok(true)
    ensures VariantsEqual(ShaderVariant(s, p, Some(["A", "A"])), ShaderVariant(s, p, Some(["A", "B"]))) == Ok(false)
  {
    var ab: seq<string> := ["A", "B"];
    assert ab[1] !in ["A", "A"];
  }

  // ---------------------------------------------------------------------
  // Indentation and list entries

  predicate IsIndentChar(c: char) {
    c == ' ' || c == '-'
  }

  /**
    Index of the first character that is neither a space nor a dash;
    0 when there is none (including the empty line).
   */
  method GetYamlIndent(line: string) returns (r: nat)
    ensures r <= |line|
    ensures (exists k :: 0 <= k < |line| && !IsIndentChar(line[k])) ==>
              r < |line| && !IsIndentChar(line[r]) && forall k :: 0 <= k < r ==> IsIndentChar(line[k])
    ensures (forall k :: 0 <= k < |line| ==> IsIndentChar(line[k])) ==> r == 0
  {
    var i := 0;
    while i < |line|
      invariant 0 <= i <= |line|
      invariant forall k :: 0 <= k < i ==> IsIndentChar(line[k])
    {
      if !IsIndentChar(line[i]) {
        return i;
      }
      i := i + 1;
    }
    return 0;
  }

  /** Position k holds a dash and everything before it is a space. */
  predicate DashAfterSpaces(line: string, k: int) {
    0 <= k < |line| && line[k] == '-' && forall j :: 0 <= j < k ==> line[j] == ' '
  }

  /** True iff the line is zero or more spaces followed by a dash. */
  method IsYamlLineNewEntry(line: string) returns (b: bool)
    ensures b <==> exists k :: DashAfterSpaces(line, k)
  {
    var i := 0;
    while i < |line|
      invariant 0 <= i <= |line|
      invariant forall j :: 0 <= j < i ==> line[j] == ' '
    {
      if line[i] == '-' {
        assert DashAfterSpaces(line, i);
        return true;
      }
      if line[i] != ' ' {
        assert forall k :: DashAfterSpaces(line, k) ==> k < i;
        return false;
      }
      i := i + 1;
    }
    return false;
  }

  // ---------------------------------------------------------------------
  // Locating `key:`

  /** `pat` occurs in `line` starting at index i. */
  predicate OccursAt(line: string, pat: string, i: int) {
    0 <= i && i + |pat| <= |line| && line[i..i + |pat|] == pat
  }

  /** String.IndexOf with ordinal comparison, searching from index `from`. */
  function IndexOfFrom(line: string, pat: string, from: nat): (r: int)
    ensures r == -1 || from <= r
    decreases |line| - from
  {
    if from + |pat| > |line| then -1
    else if line[from..from + |pat|] == pat then from
    else IndexOfFrom(line, pat, from + 1)
  }

  /** IndexOfFrom finds the first occurrence at or after `from`, and -1 means there is none. */
  lemma {:induction false} IndexOfFromFindsFirst(line: string, pat: string, from: nat)
    ensures var r := IndexOfFrom(line, pat, from);
            && (r == -1 || OccursAt(line, pat, r))
            && (r == -1 ==> forall j :: from <= j ==> !OccursAt(line, pat, j))
            && (r != -1 ==> forall j :: from <= j < r ==> !OccursAt(line, pat, j))
    decreases |line| - from
  {
    if from + |pat| <= |line| && line[from..from + |pat|] != pat {
      IndexOfFromFindsFirst(line, pat, from + 1);
    }
  }

  /**
    Index just past `key: ` (the colon and one more character) of the first
    `key:` in the line, or -1. The extra character is skipped whatever it is,
    so the result can be |line| + 1.
   */
  function GetIndexOfYamlValue(line: string, key: string): (r: int)
    ensures r == -1 || r >= |key| + 2
  {
    var i := IndexOfFrom(line, key + ":", 0);
    if i >= 0 then i + |key| + 2 else i
  }

  /**
    -1 exactly when `key:` does not occur; otherwise the first occurrence's
    index plus |key| + 2, which is at most |line| + 1.
   */
  lemma IndexOfYamlValueLocatesKey(line: string, key: string)
    ensures GetIndexOfYamlValue(line, key) == -1 <==> forall j :: !OccursAt(line, key + ":", j)
    ensures var r := GetIndexOfYamlValue(line, key);
            r >= 0 ==>
              && OccursAt(line, key + ":", r - |key| - 2)
              && (forall j :: 0 <= j < r - |key| - 2 ==> !OccursAt(line, key + ":", j))
              && r <= |line| + 1
  {
    IndexOfFromFindsFirst(line, key + ":", 0);
  }

  /** `key:` at the very end of a line puts the value index at |line| + 1. */
  lemma IndexOfYamlValuePastEnd()
    ensures GetIndexOfYamlValue("key:", "key") == 5
  {
    assert "key:"[0..4] == "key:";
  }

  /** A line has the key exactly when `key:` occurs somewhere in it. */
  function YamlLineHasKey(line: string, key: string): (r: bool)
    ensures r <==> exists j :: OccursAt(line, key + ":", j)
  {
    IndexOfYamlValueLocatesKey(line, key);
    GetIndexOfYamlValue(line, key) >= 0
  }

  /** The line from the value index on (empty when the index is past the end). */
  function ValueRest(line: string, i: nat): string {
    line[(if i < |line| then i else |line|)..]
  }

  // ---------------------------------------------------------------------
  // Scalar values

  predicate IsDelimiter(c: char) {
    c == ',' || c == ' '
  }

  /** Length of the longest prefix of t without a comma or a space. */
  function TokenLength(t: string): (n: nat)
    ensures n <= |t|
    ensures forall k :: 0 <= k < n ==> !IsDelimiter(t[k])
    ensures n < |t| ==> IsDelimiter(t[n])
  {
    if t == [] || IsDelimiter(t[0]) then 0 else 1 + TokenLength(t[1..])
  }

  /**
    GetValueFromYaml: "" when the key is absent, otherwise the maximal run of
    characters from the value index that holds no comma and no space.
   */
  function ValueFromYaml(line: string, key: string): (r: string)
    ensures !YamlLineHasKey(line, key) ==> r == ""
    ensures YamlLineHasKey(line, key) ==>
              var rest := ValueRest(line, GetIndexOfYamlValue(line, key));
              |r| <= |rest| && r == rest[..|r|]
              && (forall k :: 0 <= k < |r| ==> !IsDelimiter(r[k]))
              && (|r| == |rest| || IsDelimiter(rest[|r|]))
  {
    var i := GetIndexOfYamlValue(line, key);
    if i < 0 then ""
    else
      var rest := ValueRest(line, i);
      rest[..TokenLength(rest)]
  }

  method GetValueFromYaml(line: string, key: string) returns (r: string)
    ensures r == ValueFromYaml(line, key)
  {
    var i := GetIndexOfYamlValue(line, key);
    if i < 0 {
      return "";
    }
    ghost var rest := ValueRest(line, i);
    ghost var start := if i < |line| then i else |line|;
    var sb := "";
    while i < |line|
      invariant start <= i && start <= |line|
      invariant i <= |line| ==> sb == line[start..i]
      invariant i > |line| ==> sb == "" && start == |line|
      invariant forall k :: 0 <= k < |sb| ==> !IsDelimiter(sb[k])
    {
      var c := line[i];
      if c == ',' || c == ' ' {
        break;
      }
      assert line[start..i + 1] == line[start..i] + [c];
      sb := sb + [c];
      i := i + 1;
    }
    assert i <= |line| ==> rest == line[start..];
    assert i < |line| ==> IsDelimiter(line[i]) && rest[|sb|] == line[i];
    assert |sb| <= |rest| && sb == rest[..|sb|];
    assert |sb| == |rest| || IsDelimiter(rest[|sb|]);
    TokenLengthUnique(rest, |sb|);
    r := sb;
  }

  lemma {:induction false} TokenLengthUnique(t: string, n: nat)
    requires n <= |t|
    requires forall k :: 0 <= k < n ==> !IsDelimiter(t[k])
    requires n == |t| || IsDelimiter(t[n])
    ensures TokenLength(t) == n
  {
  }

  // ---------------------------------------------------------------------
  // List values

  /** Index of the first c in s, or |s|. */
  function FirstIndexOf(s: string, c: char): (n: nat)
    ensures n <= |s|
    ensures forall k :: 0 <= k < n ==> s[k] != c
    ensures n < |s| ==> s[n] == c
  {
    if s == [] || s[0] == c then 0 else 1 + FirstIndexOf(s[1..], c)
  }

  /** Splitting on a delimiter: runs of delimiters yield empty tokens. */
  function Split(p: string, d: char): (r: seq<string>)
    ensures |r| >= 1
    decreases |p|
  {
    if p == [] then [""]
    else
      var init := Split(p[..|p| - 1], d);
      var c := p[|p| - 1];
      if c == d then init + [""]
      else init[..|init| - 1] + [init[|init| - 1] + [c]]
  }

  /** The inverse of Split: tokens separated by single delimiters. */
  function Join(ts: seq<string>, d: char): string
    requires |ts| >= 1
    decreases |ts|
  {
    if |ts| == 1 then ts[0] else Join(ts[..|ts| - 1], d) + [d] + ts[|ts| - 1]
  }

  lemma {:induction false} JoinSplit(p: string, d: char)
    ensures Join(Split(p, d), d) == p
    decreases |p|
  {
    if p != [] {
      var q, c := p[..|p| - 1], p[|p| - 1];
      var init := Split(q, d);
      JoinSplit(q, d);
      assert p == q + [c];
      if c == d {
        JoinAppend(init, "", d);
      } else {
        JoinExtendLast(init, c, d);
      }
    }
  }

  lemma JoinAppend(ts: seq<string>, t: string, d: char)
    requires |ts| >= 1
    ensures Join(ts + [t], d) == Join(ts, d) + [d] + t
  {
    assert (ts + [t])[..|ts|] == ts;
  }

  /** Appending a character to the last token appends it to the joined text. */
  lemma JoinExtendLast(ts: seq<string>, c: char, d: char)
    requires |ts| >= 1
    ensures Join(ts[..|ts| - 1] + [ts[|ts| - 1] + [c]], d) == Join(ts, d) + [c]
  {
    var init := ts[..|ts| - 1];
    if |ts| > 1 {
      JoinAppend(init, ts[|ts| - 1] + [c], d);
      assert ts == init + [ts[|ts| - 1]];
      JoinAppend(init, ts[|ts| - 1], d);
    }
  }

  /** No token of a split contains the delimiter. */
  lemma {:induction false} SplitNoDelimiter(p: string, d: char)
    ensures forall t :: t in Split(p, d) ==> d !in t
    decreases |p|
  {
    if p != [] {
      SplitNoDelimiter(p[..|p| - 1], d);
    }
  }

  /** Every character of every token comes from the split text. */
  lemma {:induction false} SplitCharsFromInput(p: string, d: char)
    ensures forall t, c :: t in Split(p, d) && c in t ==> c in p
    decreases |p|
  {
    if p != [] {
      var q := p[..|p| - 1];
      SplitCharsFromInput(q, d);
      assert forall c :: c in q ==> c in p;
    }
  }

  /** A delimiter in the text splits it into the tokens of either side. */
  lemma {:induction false} SplitAround(a: string, b: string, d: char)
    ensures Split(a + [d] + b, d) == Split(a, d) + Split(b, d)
    decreases |b|
  {
    if b == [] {
      var p := a + [d];
      assert a + [d] + b == p;
      assert p[..|p| - 1] == a && p[|p| - 1] == d;
    } else {
      var b', c := b[..|b| - 1], b[|b| - 1];
      var p' := a + [d] + b';
      assert a + [d] + b == p' + [c];
      assert b == b' + [c];
      SplitAround(a, b', d);
      SplitSnocBoth(Split(a, d), p', b', c, d);
    }
  }

  /** One more character acts alike on two texts whose splits share a tail. */
  lemma SplitSnocBoth(sa: seq<string>, p: string, q: string, c: char, d: char)
    requires Split(p, d) == sa + Split(q, d)
    ensures Split(p + [c], d) == sa + Split(q + [c], d)
  {
    assert (p + [c])[..|p|] == p && (q + [c])[..|q|] == q;
    if c != d {
      ExtendLastToken(sa, Split(q, d), c);
    }
  }

  lemma ExtendLastToken(sa: seq<string>, sb: seq<string>, c: char)
    requires |sb| >= 1
    ensures var init := sa + sb;
            init[..|init| - 1] + [init[|init| - 1] + [c]] == sa + (sb[..|sb| - 1] + [sb[|sb| - 1] + [c]])
  {
    var init := sa + sb;
    assert init[..|init| - 1] == sa + sb[..|sb| - 1];
  }

  /** Two delimiters in a row produce an empty token between them. */
  lemma EmptyTokenBetweenDelimiters(a: string, b: string, d: char)
    ensures Split(a + [d, d] + b, d) == Split(a, d) + [""] + Split(b, d)
  {
    assert a + [d, d] + b == a + [d] + ([] + [d] + b);
    SplitAround(a, [] + [d] + b, d);
    SplitAround([], b, d);
  }

  lemma {:induction false} SplitOfToken(t: string, d: char)
    requires d !in t
    ensures Split(t, d) == [t]
    decreases |t|
  {
    if t != [] {
      var q := t[..|t| - 1];
      assert t == q + [t[|t| - 1]];
      SplitOfToken(q, d);
    }
  }

  /** Split undoes Join on delimiter-free tokens, so the two are inverses. */
  lemma {:induction false} SplitJoin(ts: seq<string>, d: char)
    requires |ts| >= 1
    requires forall k :: 0 <= k < |ts| ==> d !in ts[k]
    ensures Split(Join(ts, d), d) == ts
    decreases |ts|
  {
    var last := ts[|ts| - 1];
    SplitOfToken(last, d);
    if |ts| > 1 {
      var init := ts[..|ts| - 1];
      assert forall k :: 0 <= k < |init| ==> init[k] == ts[k];
      SplitJoin(init, d);
      var j := Join(init, d);
      assert Join(ts, d) == j + [d] + last;
      SplitAround(j, last, d);
      assert Split(Join(ts, d), d) == init + [last];
      assert ts == init + [last];
    }
  }

  /**
    What GetValuesFromYaml returns. The value text runs from the value index
    to the first comma; it is split on spaces. A comma ends the list after
    adding the token before it. Without a comma the trailing token is added
    only when it is non-empty and not in `exclude`; the tokens before it are
    never filtered.
   */
  function ValuesFromYaml(line: string, key: string, exclude: seq<string>): Result<seq<string>> {
    var i := GetIndexOfYamlValue(line, key);
    if i < 0 then Err(KeyNotFound(key, line))
    else
      var rest := ValueRest(line, i);
      var c := FirstIndexOf(rest, ',');
      var tokens := Split(rest[..c], ' ');
      if c < |rest| then Ok(tokens)
      else
        var last := tokens[|tokens| - 1];
        if last != "" && last !in exclude then Ok(tokens) else Ok(tokens[..|tokens| - 1])
  }

  method GetValuesFromYaml(line: string, key: string, exclude: seq<string>) returns (r: Result<seq<string>>)
    ensures r == ValuesFromYaml(line, key, exclude)
  {
    var i := GetIndexOfYamlValue(line, key);
    if i < 0 {
      return Err(KeyNotFound(key, line));
    }
    if i >= |line| {
      // the scan loop does not run; the empty token is not added
      ValuesAtEnd(line, key, exclude, [], "");
      return Ok([]);
    }
    ghost var rest := line[i..];
    assert rest == ValueRest(line, i);
    var result, sb, comma := ScanValues(line, i);
    if comma >= 0 {
      ValuesAtComma(line, key, exclude, rest, comma - i);
      return Ok(result + [sb]);
    }
    ValuesAtEnd(line, key, exclude, result, sb);
    if sb != "" && sb !in exclude {
      result := result + [sb];
    }
    return Ok(result);
  }

  /**
    The scan loop of GetValuesFromYaml from index `start`: spaces close
    tokens, and a comma (whose index is returned, else -1) ends the scan.
    `result` holds the closed tokens, `sb` the token being read.
   */
  method ScanValues(line: string, start: nat) returns (result: seq<string>, sb: string, comma: int)
    requires start < |line|
    ensures comma == -1 ==> ',' !in line[start..] && result + [sb] == Split(line[start..], ' ')
    ensures comma != -1 ==> start <= comma < |line|
                            && ValuesEndAt(line[start..], comma - start)
                            && result + [sb] == Split(line[start..][..comma - start], ' ')
  {
    ghost var s := line[start..];
    result, sb := [], "";
    var i := start;
    while i < |line|
      invariant start <= i <= |line|
      invariant ',' !in s[..i - start]
      invariant result + [sb] == Split(s[..i - start], ' ')
    {
      var c := line[i];
      assert c == s[i - start];
      if c == ',' {
        return result, sb, i;
      }
      assert s[..i + 1 - start] == s[..i - start] + [c];
      ScanStep(result, sb, s[..i - start], c);
      if c == ' ' {
        result := result + [sb];
        sb := "";
      } else {
        sb := sb + [c];
      }
      i := i + 1;
    }
    assert s[..i - start] == s;
    return result, sb, -1;
  }

  /** The first comma of `rest` is at index `c`. */
  predicate ValuesEndAt(rest: string, c: int) {
    0 <= c < |rest| && rest[c] == ',' && ',' !in rest[..c]
  }

  /** Without a comma the trailing token is kept only when non-empty and not excluded. */
  lemma ValuesAtEnd(line: string, key: string, exclude: seq<string>, result: seq<string>, sb: string)
    requires GetIndexOfYamlValue(line, key) >= 0
    requires ',' !in ValueRest(line, GetIndexOfYamlValue(line, key))
    requires Split(ValueRest(line, GetIndexOfYamlValue(line, key)), ' ') == result + [sb]
    ensures ValuesFromYaml(line, key, exclude) == Ok(if sb != "" && sb !in exclude then result + [sb] else result)
  {
    var rest := ValueRest(line, GetIndexOfYamlValue(line, key));
    assert FirstIndexOf(rest, ',') == |rest|;
    assert rest[..|rest|] == rest;
    assert (result + [sb])[..|result|] == result;
  }

  /** A comma at index c of the value text, its first, ends the list there. */
  lemma ValuesAtComma(line: string, key: string, exclude: seq<string>, rest: string, c: int)
    requires GetIndexOfYamlValue(line, key) >= 0
    requires rest == ValueRest(line, GetIndexOfYamlValue(line, key))
    requires ValuesEndAt(rest, c)
    ensures ValuesFromYaml(line, key, exclude) == Ok(Split(rest[..c], ' '))
  {
    FirstIndexOfFirst(rest, c);
  }

  lemma {:induction false} FirstIndexOfFirst(s: string, c: int)
    requires ValuesEndAt(s, c)
    ensures FirstIndexOf(s, ',') == c
  {
    if c > 0 {
      assert s[0] in s[..c];
      assert s[1..][..c - 1] == s[..c][1..];
      FirstIndexOfFirst(s[1..], c - 1);
    }
  }

  /**
    One step of the scan in GetValuesFromYaml: a space closes the current
    token, any other character extends it.
   */
  lemma ScanStep(result: seq<string>, sb: string, p: string, c: char)
    requires result + [sb] == Split(p, ' ')
    ensures c == ' ' ==> result + [sb] + [""] == Split(p + [c], ' ')
    ensures c != ' ' ==> result + [sb + [c]] == Split(p + [c], ' ')
  {
    assert (p + [c])[..|p|] == p;
    assert (result + [sb])[..|result|] == result;
  }

  /** The list reader fails exactly when the line lacks `key:`. */
  lemma ValuesFailIffKeyAbsent(line: string, key: string, exclude: seq<string>)
    ensures ValuesFromYaml(line, key, exclude).Err? <==> !YamlLineHasKey(line, key)
  {
  }

  /** No token returned holds a space or a comma. */
  lemma ValuesHaveNoDelimiters(line: string, key: string, exclude: seq<string>)
    ensures ValuesFromYaml(line, key, exclude).Ok? ==>
              forall t :: t in ValuesFromYaml(line, key, exclude).value ==> ' ' !in t && ',' !in t
  {
    var i := GetIndexOfYamlValue(line, key);
    if i >= 0 {
      var rest := ValueRest(line, i);
      var field := rest[..FirstIndexOf(rest, ',')];
      SplitNoDelimiter(field, ' ');
      SplitCharsFromInput(field, ' ');
      var ts := Split(field, ' ');
      assert forall t :: t in ts[..|ts| - 1] ==> t in ts;
    }
  }

  /**
    The tokens, joined by single spaces, give back the value text up to the
    first comma; only a trailing token that is empty or excluded is missing,
    and the tokens before it are returned even when they are in `exclude`.
   */
  lemma ValuesReassemble(line: string, key: string, exclude: seq<string>)
    requires YamlLineHasKey(line, key)
    ensures var rest := ValueRest(line, GetIndexOfYamlValue(line, key));
            var field := rest[..FirstIndexOf(rest, ',')];
            var ts := ValuesFromYaml(line, key, exclude).value;
            var all := Split(field, ' ');
            && Join(all, ' ') == field
            && (ts == all || (ts == all[..|all| - 1] && ',' !in rest && (all[|all| - 1] == "" || all[|all| - 1] in exclude)))
  {
    var rest := ValueRest(line, GetIndexOfYamlValue(line, key));
    JoinSplit(rest[..FirstIndexOf(rest, ',')], ' ');
  }

  lemma IndexOfFromHit(line: string, pat: string, from: nat)
    requires OccursAt(line, pat, from)
    ensures IndexOfFrom(line, pat, from) == from
  {
  }

  lemma {:induction false} FirstIndexOfAbsent(s: string, c: char)
    requires c !in s
    ensures FirstIndexOf(s, c) == |s|
    decreases |s|
  {
    if s != [] {
      assert s == [s[0]] + s[1..];
      FirstIndexOfAbsent(s[1..], c);
    }
  }

  /** How the sample line `keywords: A B` is taken apart. */
  lemma SampleLineTokens()
    ensures GetIndexOfYamlValue("keywords: A B", "keywords") == 10
    ensures var rest := ValueRest("keywords: A B", 10);
            && FirstIndexOf(rest, ',') == |rest| == 3
            && Split(rest[..3], ' ') == ["A", "B"]
  {
    var line := "keywords: A B";
    assert line[0..9] == "keywords" + ":";
    IndexOfFromHit(line, "keywords" + ":", 0);
    var rest := ValueRest(line, 10);
    assert rest == "A" + [' '] + "B";
    FirstIndexOfAbsent(rest, ',');
    assert rest[..3] == rest;
    SplitOfToken("A", ' ');
    SplitOfToken("B", ' ');
    SplitAround("A", "B", ' ');
  }

  /** `keywords: A B` with A and B both excluded: only the trailing B is dropped. */
  lemma ExcludeFiltersOnlyTrailingToken()
    ensures ValuesFromYaml("keywords: A B", "keywords", ["A", "B"]) == Ok(["A"])
  {
    SampleLineTokens();
    var ts: seq<string> := ["A", "B"];
    assert ts[..1] == ["A"];
  }

  // ---------------------------------------------------------------------
  // The list reader with every token filtered

  /** The tokens of ts that are not in `exclude`, in order. */
  function Without(ts: seq<string>, exclude: seq<string>): seq<string> {
    if ts == [] then []
    else (if ts[0] in exclude then [] else [ts[0]]) + Without(ts[1..], exclude)
  }

  lemma {:induction false} WithoutProperties(ts: seq<string>, exclude: seq<string>)
    ensures forall t :: t in Without(ts, exclude) <==> t in ts && t !in exclude
    ensures exclude == [] ==> Without(ts, exclude) == ts
    decreases |ts|
  {
    if ts != [] {
      WithoutProperties(ts[1..], exclude);
      assert ts == [ts[0]] + ts[1..];
    }
  }

  /** The value tokens of a line that holds the key, before any filtering. */
  function ValueTokens(line: string, key: string): (ts: seq<string>)
    requires GetIndexOfYamlValue(line, key) >= 0
    ensures |ts| >= 1
  {
    var rest := ValueRest(line, GetIndexOfYamlValue(line, key));
    Split(rest[..FirstIndexOf(rest, ',')], ' ')
  }

  /** The value text of a line that holds the key stops at a comma. */
  predicate CommaEnds(line: string, key: string)
    requires GetIndexOfYamlValue(line, key) >= 0
  {
    var rest := ValueRest(line, GetIndexOfYamlValue(line, key));
    FirstIndexOf(rest, ',') < |rest|
  }

  /**
    The tokens the corrected reader returns: every token not in `exclude`;
    without a comma the trailing token also needs to be non-empty.
   */
  function KeepUnexcluded(tokens: seq<string>, commaEnds: bool, exclude: seq<string>): seq<string>
    requires |tokens| >= 1
  {
    if commaEnds then Without(tokens, exclude)
    else
      var last := tokens[|tokens| - 1];
      Without(tokens[..|tokens| - 1], exclude) + (if last != "" && last !in exclude then [last] else [])
  }

  lemma KeepUnexcludedMembers(tokens: seq<string>, commaEnds: bool, exclude: seq<string>)
    requires |tokens| >= 1
    ensures forall t :: t in KeepUnexcluded(tokens, commaEnds, exclude) <==>
                          t in tokens && t !in exclude && (t == "" ==> commaEnds || t in tokens[..|tokens| - 1])
  {
    var init := tokens[..|tokens| - 1];
    if commaEnds {
      WithoutProperties(tokens, exclude);
    } else {
      WithoutProperties(init, exclude);
      assert tokens == init + [tokens[|tokens| - 1]];
    }
  }

  lemma KeepUnexcludedOfNothing(tokens: seq<string>, commaEnds: bool)
    requires |tokens| >= 1
    ensures KeepUnexcluded(tokens, commaEnds, []) ==
              if commaEnds || tokens[|tokens| - 1] != "" then tokens else tokens[..|tokens| - 1]
  {
    var init := tokens[..|tokens| - 1];
    if commaEnds {
      WithoutProperties(tokens, []);
    } else {
      WithoutProperties(init, []);
      assert tokens == init + [tokens[|tokens| - 1]];
    }
  }

  /**
    GetValuesFromYaml as evidently intended: the exclude test applied to
    every token added, not only to the one left over at the end of the line.
   */
  function ValuesFromYamlCorrected(line: string, key: string, exclude: seq<string>): Result<seq<string>> {
    if GetIndexOfYamlValue(line, key) < 0 then Err(KeyNotFound(key, line))
    else Ok(KeepUnexcluded(ValueTokens(line, key), CommaEnds(line, key), exclude))
  }

  /** Both readers fail on the same lines: those without `key:`. */
  lemma CorrectedValuesFailLikeCode(line: string, key: string, exclude: seq<string>)
    ensures ValuesFromYamlCorrected(line, key, exclude).Err? <==> ValuesFromYaml(line, key, exclude).Err?
    ensures ValuesFromYamlCorrected(line, key, exclude).Err? <==> !YamlLineHasKey(line, key)
  {
  }

  /**
    The corrected reader never returns an excluded token, and returns every
    other token of the value text except an empty one at the end of the line.
   */
  lemma CorrectedValuesSkipExcluded(line: string, key: string, exclude: seq<string>)
    requires YamlLineHasKey(line, key)
    ensures var ts := ValueTokens(line, key);
            forall t :: t in ValuesFromYamlCorrected(line, key, exclude).value <==>
                          t in ts && t !in exclude && (t == "" ==> CommaEnds(line, key) || t in ts[..|ts| - 1])
  {
    KeepUnexcludedMembers(ValueTokens(line, key), CommaEnds(line, key), exclude);
  }

  /** With nothing excluded the two readers agree. */
  lemma CorrectedAgreesWithoutExcludes(line: string, key: string)
    ensures ValuesFromYamlCorrected(line, key, []) == ValuesFromYaml(line, key, [])
  {
    if YamlLineHasKey(line, key) {
      KeepUnexcludedOfNothing(ValueTokens(line, key), CommaEnds(line, key));
    }
  }

  /** On the sample line the corrected reader drops both excluded tokens. */
  lemma CorrectedExcludesEveryToken()
    ensures ValuesFromYamlCorrected("keywords: A B", "keywords", ["A", "B"]) == Ok([])
  {
    SampleLineTokens();
    var line := "keywords: A B";
    assert ValueTokens(line, "keywords") == ["A", "B"];
    assert !CommaEnds(line, "keywords");
    var ts: seq<string> := ["A", "B"];
    assert ts[..1] == ["A"];
    assert ts[..1][1..] == [];
    assert Without(ts[..1], ["A", "B"]) == [];
  }
}
