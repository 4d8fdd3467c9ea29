/** The compatibility registry: what makes it valid, and exact selection of a record by a header's identity. */
module Registry {
  import opened Collections
  import opened Compatibility
  import opened Ordering
  import opened Text

  const REGISTRY_VERSION: nat := 1

  // ---------- Feature tuples ----------

  /** The order `sort` then `dedup` leave strings in. */
  predicate Ascending(s: seq<string>) {
    forall i, j :: 0 <= i < j < |s| ==> Less(s[i], s[j])
  }

  function InsertToken(x: string, s: seq<string>): (r: seq<string>)
    requires Ascending(s)
    ensures Ascending(r) && forall y :: y in r <==> y in s || y == x
  {
    if s == [] then [x]
    else if x == s[0] then s
    else if Less(x, s[0]) then
      LessThanAll(x, s);
      [x] + s
    else
      var rest := InsertToken(x, s[1..]);
      LessTotal(x, s[0]);
      assert s == [s[0]] + s[1..];
      assert forall k :: 0 <= k < |rest| ==> rest[k] in rest;
      [s[0]] + rest
  }

  lemma LessThanAll(x: string, s: seq<string>)
    requires Ascending(s) && s != [] && Less(x, s[0])
    ensures forall k :: 0 <= k < |s| ==> Less(x, s[k])
  {
    forall k | 0 < k < |s| ensures Less(x, s[k]) { LessTransitive(x, s[0], s[k]); }
  }

  /** The lowercased tokens. */
  function Lowered(tokens: seq<string>): set<string> {
    set w | w in tokens :: Lower(w)
  }

  /** Lowercase, sort, remove duplicates. */
  function Normalize(tokens: seq<string>): (r: seq<string>)
    ensures Ascending(r) && forall y :: y in r <==> y in Lowered(tokens)
  {
    if tokens == [] then []
    else
      assert tokens == [tokens[0]] + tokens[1..];
      assert Lowered(tokens) == Lowered(tokens[1..]) + {Lower(tokens[0])};
      InsertToken(Lower(tokens[0]), Normalize(tokens[1..]))
  }

  /** Two ascending sequences with the same members are the same sequence. */
  lemma {:induction false} AscendingTokensUnique(a: seq<string>, b: seq<string>)
    requires Ascending(a) && Ascending(b) && forall x :: x in a <==> x in b
    ensures a == b
  {
    var head := if a != [] then a[0] else if b != [] then b[0] else "";
    assert head in a <==> head in b;
    if a != [] {
      assert a[0] in a && b[0] in b;
      LessAsymmetric(a[0], b[0]);
      assert a[0] == b[0];
      forall x ensures x in a[1..] <==> x in b[1..] {
        LessIrreflexive(a[0]);
        assert x in a <==> x == a[0] || x in a[1..];
        assert x in b <==> x == b[0] || x in b[1..];
      }
      AscendingTokensUnique(a[1..], b[1..]);
      assert a == [a[0]] + a[1..] && b == [b[0]] + b[1..];
    }
  }

  /** `split_whitespace`. */
  function Words(s: string): (r: seq<string>)
    decreases |s|
  {
    var t := TrimStart(s);
    TrimStartShrinks(s);
    if t == "" then [] else
      var n := WordLength(t);
      [t[..n]] + Words(t[n..])
  }

  lemma {:induction false} TrimStartShrinks(s: string)
    ensures |TrimStart(s)| <= |s| && (TrimStart(s) != "" ==> !IsSpace(TrimStart(s)[0]))
    decreases |s|
  {
    if s != [] && IsSpace(s[0]) { TrimStartShrinks(s[1..]); }
  }

  function WordLength(s: string): (n: nat)
    ensures n <= |s| && (s != "" && !IsSpace(s[0]) ==> n > 0)
  {
    if s == "" || IsSpace(s[0]) then 0 else 1 + WordLength(s[1..])
  }

  /** The same words, however ordered, repeated or cased. */
  predicate SameTokens(a: string, b: string) {
    Lowered(Words(a)) == Lowered(Words(b))
  }

  predicate Solid(s: string) {
    s != "" && forall i :: 0 <= i < |s| ==> !IsSpace(s[i])
  }

  /** Words that stand in a text, and the blanks around and between them. */
  predicate SpreadOut(gaps: seq<string>, words: seq<string>) {
    && |gaps| == |words| + 1 && (forall i :: 0 <= i < |gaps| ==> Blank(gaps[i]))
    && (forall i :: 0 < i < |words| ==> gaps[i] != "") && forall i :: 0 <= i < |words| ==> Solid(words[i])
  }

  function Spread(gaps: seq<string>, words: seq<string>): string
    requires |gaps| == |words| + 1
  {
    if words == [] then gaps[0] else gaps[0] + (words[0] + Spread(gaps[1..], words[1..]))
  }

  lemma {:induction false} WordLengthIs(word: string, rest: string)
    requires Solid(word) && (rest == "" || IsSpace(rest[0]))
    ensures WordLength(word + rest) == |word|
    decreases |word|
  {
    assert (word + rest)[1..] == word[1..] + rest;
    if |word| > 1 {
      WordLengthIs(word[1..], rest);
    } else {
      assert word[1..] + rest == rest;
    }
  }

  lemma {:induction false} TrimStartBlank(s: string)
    requires Blank(s)
    ensures TrimStart(s) == ""
  {
    if s != "" { TrimStartBlank(s[1..]); }
  }

  /** The words of a text are those that stand in it. */
  lemma {:induction false} StandingWordsAreFound(gaps: seq<string>, words: seq<string>)
    requires SpreadOut(gaps, words)
    ensures Words(Spread(gaps, words)) == words
    decreases |words|
  {
    if words == [] {
      TrimStartBlank(gaps[0]);
    } else {
      var rest := Spread(gaps[1..], words[1..]);
      assert |words| > 1 ==> gaps[1..][0] == gaps[1] && gaps[1] != "";
      assert rest == "" || IsSpace(rest[0]);
      TrimStartKeeps(gaps[0], words[0] + rest);
      WordLengthIs(words[0], rest);
      StandingWordsAreFound(gaps[1..], words[1..]);
      assert (words[0] + rest)[..|words[0]|] == words[0] && (words[0] + rest)[|words[0]|..] == rest;
    }
  }

  lemma {:induction false} FirstWordIsSolid(s: string)
    requires s != "" && !IsSpace(s[0])
    ensures var n := WordLength(s); Solid(s[..n]) && (n == |s| || IsSpace(s[n]))
  {
    if |s| > 1 && !IsSpace(s[1]) {
      FirstWordIsSolid(s[1..]);
      assert s[..WordLength(s)] == [s[0]] + s[1..][..WordLength(s[1..])];
    }
  }

  lemma OneMoreWord(lead: string, word: string, gaps: seq<string>, words: seq<string>)
    requires Blank(lead) && Solid(word) && SpreadOut(gaps, words) && (words != [] ==> gaps[0] != "")
    ensures SpreadOut([lead] + gaps, [word] + words)
    ensures Spread([lead] + gaps, [word] + words) == lead + (word + Spread(gaps, words))
  {
    assert ([lead] + gaps)[1..] == gaps && ([word] + words)[1..] == words;
  }

  lemma FirstWordStands(s: string)
    requires TrimStart(s) != ""
    ensures var t := TrimStart(s); var n := WordLength(t);
            && Words(s) == [t[..n]] + Words(t[n..]) && Solid(t[..n]) && t == t[..n] + t[n..]
            && (t[n..] == "" || IsSpace(t[n..][0])) && |t[n..]| < |s|
  {
    TrimStartShrinks(s);
    FirstWordIsSolid(TrimStart(s));
  }

  /** And every text is its words, with blanks around and between them. */
  lemma {:induction false} TextsAreTheirWords(s: string) returns (gaps: seq<string>)
    ensures SpreadOut(gaps, Words(s)) && Spread(gaps, Words(s)) == s
    ensures s != "" && !IsSpace(s[0]) ==> gaps[0] == ""
    ensures s != "" && IsSpace(s[0]) ==> gaps[0] != ""
    decreases |s|
  {
    var lead := TrimStartParts(s);
    var t := TrimStart(s);
    if t == "" {
      gaps := [lead];
    } else {
      var n := WordLength(t);
      FirstWordStands(s);
      var more := TextsAreTheirWords(t[n..]);
      OneMoreWord(lead, t[..n], more, Words(t[n..]));
      gaps := [lead] + more;
    }
  }

  /** Every word of `a` is a word of `b`, but perhaps for case. */
  predicate WordsAmong(a: string, b: string) {
    forall w :: w in Words(a) ==> exists x :: x in Words(b) && SameButCase(w, x)
  }

  /** The same tokens are the same words but for order, repetition and the case of letters. */
  lemma SameTokensAreSameWords(a: string, b: string)
    ensures SameTokens(a, b) <==> WordsAmong(a, b) && WordsAmong(b, a)
  {
    forall x, y ensures Lower(x) == Lower(y) <==> SameButCase(x, y) {
      LowerForgetsOnlyCase(x, y);
    }
    if SameTokens(a, b) {
      LoweredAlikeAmong(a, b);
      LoweredAlikeAmong(b, a);
    }
    if WordsAmong(a, b) && WordsAmong(b, a) {
      assert Lowered(Words(a)) <= Lowered(Words(b)) && Lowered(Words(b)) <= Lowered(Words(a));
    }
  }

  lemma LoweredAlikeAmong(a: string, b: string)
    requires SameTokens(a, b)
    ensures WordsAmong(a, b)
  {
    forall w | w in Words(a) ensures exists x :: x in Words(b) && SameButCase(w, x) {
      assert Lower(w) in Lowered(Words(b));
      var x :| x in Words(b) && Lower(x) == Lower(w);
      LowerForgetsOnlyCase(w, x);
    }
  }

  /** Normalization forgets the order, the repetition and the case of tokens, and nothing else. */
  lemma ParsingIsExactOnTokenSets(a: string, b: string)
    ensures Normalize(Words(a)) == Normalize(Words(b)) <==> SameTokens(a, b)
  {
    if SameTokens(a, b) {
      AscendingTokensUnique(Normalize(Words(a)), Normalize(Words(b)));
    }
    if Normalize(Words(a)) == Normalize(Words(b)) {
      assert forall y :: y in Lowered(Words(a)) <==> y in Lowered(Words(b));
    }
  }

  /** Normalizing what is normalized changes nothing. */
  predicate IsNormalized(features: seq<string>) {
    Ascending(features) && forall f :: f in features ==> f != "" && Lower(f) == f
  }

  lemma NormalizedIsFixed(features: seq<string>)
    requires IsNormalized(features)
    ensures Normalize(features) == features
  {
    AscendingTokensUnique(Normalize(features), features);
  }

  // ---------- Validity ----------

  /** What hashes the canonical feature text. */
  type Digest = string -> string

  function JoinLines(tokens: seq<string>): string {
    if tokens == [] then "" else if |tokens| == 1 then tokens[0] else tokens[0] + "\n" + JoinLines(tokens[1..])
  }

  predicate OneLine(token: string) {
    token != "" && '\n' !in token
  }

  lemma {:induction false} FirstLineIs(a: string, x: string, b: string, y: string)
    requires '\n' !in a && '\n' !in b && (x == "" || x[0] == '\n') && (y == "" || y[0] == '\n') && a + x == b + y
    ensures a == b && x == y
    decreases |a|
  {
    assert (a != "" ==> (a + x)[0] == a[0]) && (b != "" ==> (b + y)[0] == b[0]);
    assert (a == "" ==> a + x == x) && (b == "" ==> b + y == y);
    if a != "" && b != "" {
      assert (a + x)[1..] == a[1..] + x && (b + y)[1..] == b[1..] + y;
      FirstLineIs(a[1..], x, b[1..], y);
      assert a == [a[0]] + a[1..] && b == [b[0]] + b[1..];
    }
  }

  function LinesBehind(tokens: seq<string>): string {
    if tokens == [] then "" else "\n" + JoinLines(tokens)
  }

  lemma JoinedLinesStart(a: seq<string>)
    requires a != []
    ensures JoinLines(a) == a[0] + LinesBehind(a[1..]) && (LinesBehind(a[1..]) == "" || LinesBehind(a[1..])[0] == '\n')
  {
  }

  lemma SameFirstLine(a: seq<string>, b: seq<string>)
    requires a != [] && b != [] && OneLine(a[0]) && OneLine(b[0]) && JoinLines(a) == JoinLines(b)
    ensures a[0] == b[0] && LinesBehind(a[1..]) == LinesBehind(b[1..])
  {
    JoinedLinesStart(a);
    JoinedLinesStart(b);
    FirstLineIs(a[0], LinesBehind(a[1..]), b[0], LinesBehind(b[1..]));
  }

  /** Different tokens never make the same text to digest. */
  lemma {:induction false} JoinedLinesTellTokensApart(a: seq<string>, b: seq<string>)
    requires (forall i :: 0 <= i < |a| ==> OneLine(a[i])) && (forall i :: 0 <= i < |b| ==> OneLine(b[i]))
    requires JoinLines(a) == JoinLines(b)
    ensures a == b
  {
    JoinedLinesAreThere(a);
    JoinedLinesAreThere(b);
    if a != [] && b != [] {
      SameFirstLine(a, b);
      LinesBehindTellApart(a[1..], b[1..]);
      JoinedLinesTellTokensApart(a[1..], b[1..]);
      assert a == [a[0]] + a[1..] && b == [b[0]] + b[1..];
    }
  }

  lemma JoinedLinesAreThere(tokens: seq<string>)
    requires tokens != [] ==> OneLine(tokens[0])
    ensures tokens != [] ==> JoinLines(tokens) != ""
  {
  }

  lemma LinesBehindTellApart(a: seq<string>, b: seq<string>)
    requires LinesBehind(a) == LinesBehind(b)
    ensures JoinLines(a) == JoinLines(b)
  {
    if a != [] && b != [] {
      assert LinesBehind(a)[1..] == JoinLines(a) && LinesBehind(b)[1..] == JoinLines(b);
    }
  }

  function CanonicalFeatureFingerprint(digest: Digest, features: seq<string>): string {
    digest(JoinLines(Normalize(features)))
  }

  predicate IsHex(s: string) {
    forall i :: 0 <= i < |s| ==> '0' <= s[i] <= '9' || 'a' <= s[i] <= 'f'
  }

  predicate ValidDigest(s: string) {
    |s| == 64 && IsHex(s)
  }

  predicate NonEmpty(s: string) {
    Trim(s) != ""
  }

  /** What stands between the slashes. */
  function Components(path: string): (r: seq<string>)
    ensures r != []
  {
    if path == "" then [""]
    else
      var rest := Components(path[1..]);
      if path[0] == '/' then [""] + rest else [[path[0]] + rest[0]] + rest[1..]
  }

  /** A relative path that neither starts at the current directory by name nor climbs anywhere. */
  predicate ContainedPath(path: string) {
    && path != "" && '\\' !in path && '\0' !in path && path[0] != '/'
    && Components(path)[0] != "." && ".." !in Components(path)
  }

  /** The directory names a path leads to from a directory, climbing where it says so. */
  function Walk(base: seq<string>, components: seq<string>): seq<string>
    decreases components
  {
    if components == [] then base
    else
      var name := components[0];
      Walk(if name == "" || name == "." then base
           else if name != ".." then base + [name]
           else if base == [] then [] else base[..|base| - 1],
           components[1..])
  }

  /** Joining a path to a directory: an absolute one starts over. */
  function Joined(base: seq<string>, path: string): seq<string> {
    Walk(if path != "" && path[0] == '/' then [] else base, Components(path))
  }

  lemma {:induction false} WalkingDownStaysBelow(base: seq<string>, components: seq<string>)
    requires ".." !in components
    ensures base <= Walk(base, components)
    decreases components
  {
    if components != [] {
      var name := components[0];
      WalkingDownStaysBelow(if name == "" || name == "." then base else base + [name], components[1..]);
    }
  }

  /** Joined to a directory, a contained path never leaves it. */
  lemma ContainedPathsStayBelow(base: seq<string>, path: string)
    requires ContainedPath(path)
    ensures base <= Joined(base, path)
  {
    WalkingDownStaysBelow(base, Components(path));
  }

  predicate ValidVariant(v: Variant) {
    && NonEmpty(v.hostOs) && NonEmpty(v.hostArch) && ContainedPath(v.path) && v.size != 0 && ValidDigest(v.sha256)
    && NonEmpty(v.provenance)
  }

  /** Every variant is valid, and no two are for one host. */
  predicate ValidVariants(variants: seq<Variant>) {
    && (forall i :: 0 <= i < |variants| ==> ValidVariant(variants[i]))
    && (forall i, j :: 0 <= i < j < |variants| ==>
          !(variants[i].hostOs == variants[j].hostOs && variants[i].hostArch == variants[j].hostArch))
  }

  predicate ValidAlias(a: SdkAlias) {
    NonEmpty(a.ecosystem) && NonEmpty(a.version) && NonEmpty(a.provenance)
  }

  predicate ValidAliases(aliases: seq<SdkAlias>) {
    && (forall i :: 0 <= i < |aliases| ==> ValidAlias(aliases[i]))
    && (forall i, j :: 0 <= i < j < |aliases| ==> aliases[i] != aliases[j])
  }

  predicate ValidReferences(r: Record) {
    && NonEmpty(r.parserFamilyId) && (r.parserFamilySha256.Some? ==> ValidDigest(r.parserFamilySha256.value))
    && NonEmpty(r.profileId) && ContainedPath(r.profilePath) && ValidDigest(r.profileSha256)
    && NonEmpty(r.artifactId) && NonEmpty(r.evidenceSource) && NonEmpty(r.evidenceProvenance)
  }

  predicate ValidRecord(digest: Digest, r: Record) {
    && |r.snapshotHash| == 32 && IsHex(r.snapshotHash)
    && r.snapshotKind == FullAot && NonEmpty(ArchText(r.targetArch))
    && IsNormalized(r.features)
    && r.featureFingerprint == CanonicalFeatureFingerprint(digest, r.features) && ValidDigest(r.featureFingerprint)
    && (forall f :: f in r.knownFeatures ==> NonEmpty(f))
    && (forall f :: f in r.forbiddenFeatures ==> NonEmpty(f) && f !in r.features)
    && ValidReferences(r) && ValidVariants(r.variants) && ValidAliases(r.sdkAliases)
  }

  predicate SameKey(a: Record, b: Record) {
    a.snapshotHash == b.snapshotHash && ArchText(a.targetArch) == ArchText(b.targetArch) &&
      a.featureFingerprint == b.featureFingerprint
  }

  /** Records of pairwise distinct keys. */
  ghost predicate DistinctKeys(records: seq<Record>) {
    forall i, j :: 0 <= i < j < |records| ==> !SameKey(records[i], records[j])
  }

  /** Every record is valid, and no two share an exact key. */
  ghost predicate ValidRegistry(digest: Digest, version: nat, records: seq<Record>) {
    && version == REGISTRY_VERSION
    && (forall r :: r in records ==> ValidRecord(digest, r))
    && DistinctKeys(records)
  }

  datatype RegistryError =
    | UnsupportedVersion(version: nat)
    | InvalidRecord
    | Ambiguous
    | NoRecord(hash: string)
    | TargetMismatch(requested: string)
    | FeatureMismatch(missing: seq<string>, forbidden: seq<string>, unknown: seq<string>)

  /** The text validation compares records by. */
  function KeyText(r: Record): string {
    r.snapshotHash + "|" + ArchText(r.targetArch) + "|" + r.featureFingerprint
  }

  predicate KeyShaped(r: Record) {
    |r.snapshotHash| == 32 && |r.featureFingerprint| == 64
  }

  /** Among valid records the text tells keys apart, whatever bars the architecture's name may hold. */
  lemma KeyTextsAreKeys(a: Record, b: Record)
    requires KeyShaped(a) && KeyShaped(b)
    ensures KeyText(a) == KeyText(b) <==> SameKey(a, b)
  {
    KeyTextParts(a);
    KeyTextParts(b);
  }

  lemma KeyTextParts(r: Record)
    requires KeyShaped(r)
    ensures var k := KeyText(r);
            && |k| >= 98 && k[..32] == r.snapshotHash && k[33..|k| - 65] == ArchText(r.targetArch) &&
              k[|k| - 64..] == r.featureFingerprint
  {
  }

  method ValidateVariants(variants: seq<Variant>) returns (ok: bool)
    ensures ok <==> ValidVariants(variants)
  {
    var hosts: set<(string, string)> := {};
    for i := 0 to |variants|
      invariant forall h :: h in hosts <==> exists j :: 0 <= j < i && h == (variants[j].hostOs, variants[j].hostArch)
      invariant ValidVariants(variants[..i])
    {
      var v := variants[i];
      if !ValidVariant(v) {
        return false;
      }
      if (v.hostOs, v.hostArch) in hosts {
        return false;
      }
      hosts := hosts + {(v.hostOs, v.hostArch)};
      assert variants[..i + 1] == variants[..i] + [v];
    }
    assert variants[..|variants|] == variants;
    ok := true;
  }

  method ValidateAliases(aliases: seq<SdkAlias>) returns (ok: bool)
    ensures ok <==> ValidAliases(aliases)
  {
    var seen: set<SdkAlias> := {};
    for i := 0 to |aliases|
      invariant forall a :: a in seen <==> exists j :: 0 <= j < i && a == aliases[j]
      invariant ValidAliases(aliases[..i])
    {
      if !ValidAlias(aliases[i]) || aliases[i] in seen {
        return false;
      }
      seen := seen + {aliases[i]};
      assert aliases[..i + 1] == aliases[..i] + [aliases[i]];
    }
    assert aliases[..|aliases|] == aliases;
    ok := true;
  }

  method ValidateRecord(digest: Digest, r: Record) returns (ok: bool)
    ensures ok <==> ValidRecord(digest, r)
  {
    if !(|r.snapshotHash| == 32 && IsHex(r.snapshotHash)) {
      return false;
    }
    if r.snapshotKind != FullAot || !NonEmpty(ArchText(r.targetArch)) {
      return false;
    }
    if (exists f :: f in r.features && (f == "" || f != Lower(f))) || !Ascending(r.features) {
      return false;
    }
    if r.featureFingerprint != CanonicalFeatureFingerprint(digest, r.features) || !ValidDigest(r.featureFingerprint) {
      return false;
    }
    if exists f :: f in r.knownFeatures && !NonEmpty(f) {
      return false;
    }
    if exists f :: f in r.forbiddenFeatures && (!NonEmpty(f) || f in r.features) {
      return false;
    }
    if !ValidReferences(r) {
      return false;
    }
    ok := ValidateVariants(r.variants);
    if ok {
      ok := ValidateAliases(r.sdkAliases);
    }
  }

  /** The key texts of these records, and no others. */
  ghost predicate HoldsKeys(keys: set<string>, records: seq<Record>) {
    forall k :: k in keys <==> exists j :: 0 <= j < |records| && KeyText(records[j]) == k
  }

  /** A repeated key text is a repeated key. */
  lemma CollidingKey(keys: set<string>, records: seq<Record>, r: Record)
    requires HoldsKeys(keys, records) && KeyShaped(r) && DistinctKeys(records)
    requires forall j :: 0 <= j < |records| ==> KeyShaped(records[j])
    ensures KeyText(r) in keys ==> exists j :: 0 <= j < |records| && SameKey(records[j], r)
    ensures KeyText(r) !in keys ==> DistinctKeys(records + [r])
    ensures HoldsKeys(keys + {KeyText(r)}, records + [r])
  {
    forall j | 0 <= j < |records| ensures KeyText(records[j]) == KeyText(r) <==> SameKey(records[j], r) {
      KeyTextsAreKeys(records[j], r);
    }
    assert (records + [r])[|records|] == r;
    forall k
      ensures k in keys + {KeyText(r)} <==> exists j :: 0 <= j < |records + [r]| && KeyText((records + [r])[j]) == k {
      if k in keys {
        var j :| 0 <= j < |records| && KeyText(records[j]) == k;
        assert (records + [r])[j] == records[j];
      }
    }
  }

  /** The first `n` records are valid and of distinct keys, whose texts are collected. */
  ghost predicate ValidSoFar(digest: Digest, records: seq<Record>, keys: set<string>, n: nat) {
    && n <= |records| && AllValid(digest, records[..n])
    && HoldsKeys(keys, records[..n]) && DistinctKeys(records[..n])
  }

  ghost predicate AllValid(digest: Digest, records: seq<Record>) {
    forall j {:trigger ValidRecord(digest, records[j])} :: 0 <= j < |records| ==> ValidRecord(digest, records[j])
  }

  lemma AllShaped(digest: Digest, records: seq<Record>)
    requires AllValid(digest, records)
    ensures forall j :: 0 <= j < |records| ==> KeyShaped(records[j])
  {
    forall j | 0 <= j < |records| ensures KeyShaped(records[j]) {
      assert ValidRecord(digest, records[j]);
    }
  }

  lemma ValidFrontGrows(digest: Digest, records: seq<Record>, n: nat)
    requires n < |records| && AllValid(digest, records[..n]) && ValidRecord(digest, records[n])
    ensures AllValid(digest, records[..n + 1]) && KeyShaped(records[n])
  {
    var next := records[..n + 1];
    forall j | 0 <= j < |next| ensures ValidRecord(digest, next[j]) {
      if j < n {
        assert next[j] == records[..n][j];
      }
    }
  }

  lemma OneMoreKey(records: seq<Record>, keys: set<string>, n: nat)
    requires n < |records| && HoldsKeys(keys, records[..n]) && DistinctKeys(records[..n])
    requires KeyShaped(records[n]) && forall j :: 0 <= j < n ==> KeyShaped(records[..n][j])
    ensures var key := KeyText(records[n]);
            if key in keys then !DistinctKeys(records)
            else HoldsKeys(keys + {key}, records[..n + 1]) && DistinctKeys(records[..n + 1])
  {
    var front := records[..n];
    CollidingKey(keys, front, records[n]);
    assert records[..n + 1] == front + [records[n]];
    if KeyText(records[n]) in keys {
      var j :| 0 <= j < |front| && SameKey(front[j], records[n]);
      assert SameKey(records[j], records[n]);
    }
  }

  lemma OneMoreRecord(digest: Digest, records: seq<Record>, keys: set<string>, n: nat)
    requires ValidSoFar(digest, records, keys, n) && n < |records| && ValidRecord(digest, records[n])
    ensures if KeyText(records[n]) in keys then !DistinctKeys(records)
            else ValidSoFar(digest, records, keys + {KeyText(records[n])}, n + 1)
  {
    AllShaped(digest, records[..n]);
    ValidFrontGrows(digest, records, n);
    OneMoreKey(records, keys, n);
  }

  /** Validation as the registry does it: record by record, collecting key texts. */
  method Validate(digest: Digest, version: nat, records: seq<Record>) returns (e: Option<RegistryError>)
    ensures e.None? <==> ValidRegistry(digest, version, records)
    ensures e == Some(Ambiguous) ==> !DistinctKeys(records)
  {
    if version != REGISTRY_VERSION {
      return Some(UnsupportedVersion(version));
    }
    var keys: set<string> := {};
    for i := 0 to |records|
      invariant ValidSoFar(digest, records, keys, i)
    {
      var ok := ValidateRecord(digest, records[i]);
      if !ok {
        return Some(InvalidRecord);
      }
      OneMoreRecord(digest, records, keys, i);
      if KeyText(records[i]) in keys {
        return Some(Ambiguous);
      }
      keys := keys + {KeyText(records[i])};
    }
    assert records[..|records|] == records;
    return None;
  }

  // ---------- Selection ----------

  datatype SelectionKey = SelectionKey(hash: string, targetArch: TargetArch, features: seq<string>)

  predicate Exact(digest: Digest, r: Record, key: SelectionKey) {
    && r.snapshotHash == key.hash && r.targetArch == key.targetArch
    && r.features == key.features && r.featureFingerprint == CanonicalFeatureFingerprint(digest, key.features)
  }

  /** How the features differ from those of the first record of the right hash and target. */
  function Mismatch(expected: Record, features: seq<string>): RegistryError {
    var missing := Filter(expected.features, f => f !in features);
    var forbidden := Filter(features, f =>
      f in expected.forbiddenFeatures || (f in expected.knownFeatures && f !in expected.features));
    var unknown := Filter(features, f => f !in expected.features && f !in forbidden);
    FeatureMismatch(missing, forbidden, unknown)
  }

  function OfHash(records: seq<Record>, hash: string): (r: seq<Record>)
    ensures forall x :: x in r <==> x in records && x.snapshotHash == hash
  {
    Filter(records, (x: Record) => x.snapshotHash == hash)
  }

  function OfTarget(records: seq<Record>, arch: TargetArch): (r: seq<Record>)
    ensures forall x :: x in r <==> x in records && x.targetArch == arch
  {
    Filter(records, (x: Record) => x.targetArch == arch)
  }

  function OfFeatures(records: seq<Record>, features: seq<string>, fingerprint: string): (r: seq<Record>)
    ensures forall x :: x in r <==> x in records && x.features == features && x.featureFingerprint == fingerprint
  {
    Filter(records, (x: Record) => x.features == features && x.featureFingerprint == fingerprint)
  }

  /** What passes all three filters of a selection. */
  function ExactOnes(digest: Digest, records: seq<Record>, key: SelectionKey): (r: seq<Record>)
    ensures forall x :: x in r <==> x in records && Exact(digest, x, key)
  {
    OfFeatures(OfTarget(OfHash(records, key.hash), key.targetArch), key.features,
               CanonicalFeatureFingerprint(digest, key.features))
  }

  function SelectKey(digest: Digest, records: seq<Record>, key: SelectionKey): Result<Record, RegistryError> {
    var sameHash := OfHash(records, key.hash);
    if sameHash == [] then Err(NoRecord(key.hash))
    else
      var sameTarget := OfTarget(sameHash, key.targetArch);
      if sameTarget == [] then Err(TargetMismatch(ArchText(key.targetArch)))
      else
        var exact := ExactOnes(digest, records, key);
        if |exact| > 1 then Err(Ambiguous)
        else if |exact| == 1 then
          if SupportedMajors(exact[0]) then Ok(exact[0]) else Err(InvalidRecord)
        else Err(Mismatch(sameTarget[0], key.features))
  }

  lemma {:induction false} FilteringKeepsKeysDistinct(records: seq<Record>, keep: Record -> bool)
    requires DistinctKeys(records)
    ensures DistinctKeys(Filter(records, keep))
  {
    if records != [] {
      var front, last := records[..|records| - 1], records[|records| - 1];
      FilteringKeepsKeysDistinct(front, keep);
      var rest := Filter(front, keep);
      forall i | 0 <= i < |rest| ensures !SameKey(rest[i], last) {
        assert rest[i] in front;
      }
    }
  }

  /** In a valid registry at most one record is exact for a key. */
  lemma ExactIsUnique(digest: Digest, version: nat, records: seq<Record>, key: SelectionKey)
    requires ValidRegistry(digest, version, records)
    ensures |ExactOnes(digest, records, key)| <= 1
  {
    var sameHash := OfHash(records, key.hash);
    FilteringKeepsKeysDistinct(records, (x: Record) => x.snapshotHash == key.hash);
    var sameTarget := OfTarget(sameHash, key.targetArch);
    FilteringKeepsKeysDistinct(sameHash, (x: Record) => x.targetArch == key.targetArch);
    var fingerprint := CanonicalFeatureFingerprint(digest, key.features);
    FilteringKeepsKeysDistinct(
      sameTarget, (x: Record) => x.features == key.features && x.featureFingerprint == fingerprint);
    var exact := ExactOnes(digest, records, key);
    forall i | 0 <= i < |exact| ensures Exact(digest, exact[i], key) {
      assert exact[i] in exact;
    }
    assert |exact| > 1 ==> SameKey(exact[0], exact[1]);
  }

  /** A valid registry never answers that it is ambiguous. */
  lemma ValidRegistriesAreNeverAmbiguous(digest: Digest, version: nat, records: seq<Record>, key: SelectionKey)
    requires ValidRegistry(digest, version, records)
    ensures SelectKey(digest, records, key) != Err(Ambiguous)
  {
    ExactIsUnique(digest, version, records, key);
  }

  /** A selection succeeds with exactly the supported record that is exact for the key. */
  lemma SelectionIsExact(digest: Digest, version: nat, records: seq<Record>, key: SelectionKey, r: Record)
    requires ValidRegistry(digest, version, records)
    ensures SelectKey(digest, records, key) == Ok(r) <==> r in records && Exact(digest, r, key) && SupportedMajors(r)
  {
    ExactIsUnique(digest, version, records, key);
    SelectedIsTheExactOne(digest, records, key, r);
  }

  lemma SelectedIsTheExactOne(digest: Digest, records: seq<Record>, key: SelectionKey, r: Record)
    requires |ExactOnes(digest, records, key)| <= 1
    ensures SelectKey(digest, records, key) == Ok(r) <==> r in ExactOnes(digest, records, key) && SupportedMajors(r)
  {
    var exact := ExactOnes(digest, records, key);
    if r in exact {
      assert r in OfTarget(OfHash(records, key.hash), key.targetArch);
      assert exact == [r];
    }
    if |exact| == 1 {
      assert exact[0] in exact;
    }
  }

  /** Nor does the order of the records matter. */
  lemma RecordOrderDoesNotMatter(digest: Digest, version: nat, a: seq<Record>, b: seq<Record>, key: SelectionKey,
                                 r: Record)
    requires ValidRegistry(digest, version, a) && multiset(a) == multiset(b)
    ensures ValidRegistry(digest, version, b)
    ensures SelectKey(digest, a, key) == Ok(r) <==> SelectKey(digest, b, key) == Ok(r)
  {
    SameMembers(a, b);
    PermutedKeysStayDistinct(a, b);
    SelectionIsExact(digest, version, a, key, r);
    SelectionIsExact(digest, version, b, key, r);
  }

  lemma {:induction false} DistinctKeysCountOne(records: seq<Record>, r: Record)
    requires DistinctKeys(records)
    ensures multiset(records)[r] <= 1
  {
    if records != [] {
      DistinctKeysCountOne(records[1..], r);
      assert records == [records[0]] + records[1..];
      forall j | 0 <= j < |records[1..]| ensures records[1..][j] != records[0] {
        assert !SameKey(records[0], records[j + 1]);
      }
    }
  }

  lemma PermutedKeysStayDistinct(a: seq<Record>, b: seq<Record>)
    requires DistinctKeys(a) && multiset(a) == multiset(b)
    ensures DistinctKeys(b)
  {
    SameMembers(a, b);
    forall i, j | 0 <= i < j < |b| ensures !SameKey(b[i], b[j]) {
      assert b[i] in a && b[j] in a;
      if b[i] == b[j] {
        DistinctKeysCountOne(a, b[i]);
        TwiceInASequence(b, i, j);
      }
    }
  }

  /** The lists of a mismatch account for the whole difference between the record's features and the header's. */
  ghost predicate Explains(e: RegistryError, expected: Record, features: seq<string>) {
    && e.FeatureMismatch?
    && (forall f :: f in e.missing <==> f in expected.features && f !in features)
    && (forall f :: f in e.forbidden || f in e.unknown <==> f in features && f !in expected.features)
    && (forall f :: f in e.forbidden <==>
          f in features && f !in expected.features && (f in expected.forbiddenFeatures || f in expected.knownFeatures))
    && (forall f :: !(f in e.forbidden && f in e.unknown))
  }

  predicate Fits(r: Record, hash: string, target: TargetArch) {
    r.snapshotHash == hash && r.targetArch == target
  }

  ghost predicate NoneFits(records: seq<Record>, hash: string, target: TargetArch) {
    forall j :: 0 <= j < |records| ==> !Fits(records[j], hash, target)
  }

  /** The first record of this hash and target. */
  ghost predicate IsFirst(records: seq<Record>, hash: string, target: TargetArch, r: Record) {
    exists i :: 0 <= i < |records| && records[i] == r && Fits(r, hash, target) && NoneFits(records[..i], hash, target)
  }

  lemma FirstStays(front: seq<Record>, last: Record, hash: string, target: TargetArch, r: Record)
    requires IsFirst(front, hash, target, r)
    ensures IsFirst(front + [last], hash, target, r)
  {
    var i :| 0 <= i < |front| && front[i] == r && Fits(r, hash, target) && NoneFits(front[..i], hash, target);
    assert (front + [last])[i] == r && (front + [last])[..i] == front[..i];
  }

  lemma LastIsFirst(front: seq<Record>, last: Record, hash: string, target: TargetArch)
    requires NoneFits(front, hash, target)
    ensures if Fits(last, hash, target) then IsFirst(front + [last], hash, target, last)
            else NoneFits(front + [last], hash, target)
  {
    assert (front + [last])[|front|] == last && (front + [last])[..|front|] == front;
  }

  lemma {:induction false} FirstFilteredTwice(records: seq<Record>, hash: string, target: TargetArch)
    ensures var both := OfTarget(OfHash(records, hash), target);
            if both == [] then NoneFits(records, hash, target) else IsFirst(records, hash, target, both[0])
  {
    if records != [] {
      var front, last := records[..|records| - 1], records[|records| - 1];
      FirstFilteredTwice(front, hash, target);
      FilterSnoc(records, hash, target);
      assert records == front + [last];
      var before := OfTarget(OfHash(front, hash), target);
      if before == [] {
        LastIsFirst(front, last, hash, target);
      } else {
        FirstStays(front, last, hash, target, before[0]);
      }
    }
  }

  lemma FilterSnoc(records: seq<Record>, hash: string, target: TargetArch)
    requires records != []
    ensures var n := |records| - 1;
            OfTarget(OfHash(records, hash), target) ==
            OfTarget(OfHash(records[..n], hash), target) + if Fits(records[n], hash, target) then [records[n]] else []
  {
    var n := |records| - 1;
    var front, last := OfHash(records[..n], hash), records[n];
    if last.snapshotHash == hash {
      assert OfHash(records, hash) == front + [last];
      assert (front + [last])[..|front|] == front;
    }
  }

  /** A hash no record has, or a target none of that hash has, is reported as such, and only then. */
  lemma MissingRecordsAreNamed(digest: Digest, records: seq<Record>, key: SelectionKey)
    ensures var s := SelectKey(digest, records, key);
            && (s == Err(NoRecord(key.hash)) <==> forall r :: r in records ==> r.snapshotHash != key.hash)
            && ((exists r :: r in records && r.snapshotHash == key.hash) &&
                (forall r :: r in records && r.snapshotHash == key.hash ==> r.targetArch != key.targetArch)
                <==> s == Err(TargetMismatch(ArchText(key.targetArch))))
  {
    var sameHash := OfHash(records, key.hash);
    assert sameHash != [] ==> sameHash[0] in sameHash;
    var sameTarget := OfTarget(sameHash, key.targetArch);
    assert sameTarget != [] ==> sameTarget[0] in sameTarget;
  }

  lemma MismatchExplains(digest: Digest, expected: Record, features: seq<string>)
    requires ValidRecord(digest, expected)
    ensures Explains(Mismatch(expected, features), expected, features)
  {
  }

  /** A mismatch says why, against a record of the same hash and target, and something is wrong. */
  lemma MismatchesAreExplained(digest: Digest, version: nat, records: seq<Record>, key: SelectionKey)
    requires ValidRegistry(digest, version, records) && Ascending(key.features)
    requires var s := SelectKey(digest, records, key); s.Err? && s.error.FeatureMismatch?
    ensures var e := SelectKey(digest, records, key).error;
            && (e.missing != [] || e.forbidden != [] || e.unknown != [])
            && (exists expected :: IsFirst(records, key.hash, key.targetArch, expected)
                                   && Explains(e, expected, key.features))
  {
    var sameTarget := OfTarget(OfHash(records, key.hash), key.targetArch);
    var expected := sameTarget[0];
    assert expected in sameTarget;
    var e := Mismatch(expected, key.features);
    assert SelectKey(digest, records, key) == Err(e);
    FirstFilteredTwice(records, key.hash, key.targetArch);
    MismatchExplains(digest, expected, key.features);
    if e.missing == [] && e.forbidden == [] && e.unknown == [] {
      NoDifferenceMeansExact(digest, records, key, expected);
    }
  }

  lemma NoDifferenceMeansExact(digest: Digest, records: seq<Record>, key: SelectionKey, expected: Record)
    requires expected in records && ValidRecord(digest, expected) && Ascending(key.features)
    requires expected.snapshotHash == key.hash && expected.targetArch == key.targetArch
    requires Mismatch(expected, key.features) == FeatureMismatch([], [], [])
    ensures expected in ExactOnes(digest, records, key)
  {
    var e := Mismatch(expected, key.features);
    assert forall f :: f in e.missing <==> f in expected.features && f !in key.features;
    assert forall f :: f in e.forbidden || f in e.unknown <==> f in key.features && f !in expected.features;
    AscendingTokensUnique(expected.features, key.features);
  }

  // ---------- From a header to a record ----------

  function StatedPointers(features: seq<string>): PointerCompression {
    match ("compressed-pointers" in features, "no-compressed-pointers" in features)
    case (true, true) => Conflicting
    case (true, false) => Compressed
    case (false, true) => Uncompressed
    case (false, false) => Unstated
  }

  const ARCH_TOKENS := {"ia32", "x64", "arm", "arm64", "riscv32", "riscv64"}

  function DeclaredTargets(features: seq<string>, architectures: set<string>): (r: seq<string>)
    ensures forall f :: f in r <==> f in features && f in architectures
  {
    Filter(features, f => f in architectures)
  }

  datatype Rejection =
    | NotFullAot | UnsupportedTarget | ConflictingTargetFeatures | TargetArchConflict | PointerCompressionUnavailable

  /** The gate between a parsed header and the registry. */
  function ExactSelectionKey(arch: TargetArch, hash: string, kind: SnapshotKind, raw: string)
    : Result<SelectionKey, Rejection> {
    var features := Normalize(Words(raw));
    var declared := DeclaredTargets(features, ARCH_TOKENS);
    if kind != FullAot then Err(NotFullAot)
    else if arch != Arm64 then Err(UnsupportedTarget)
    else if |declared| > 1 then Err(ConflictingTargetFeatures)
    else if declared != [] && declared[0] != ArchText(arch) then Err(TargetArchConflict)
    else if StatedPointers(features) in {Unstated, Conflicting} then Err(PointerCompressionUnavailable)
    else Ok(SelectionKey(Lower(hash), arch, features))
  }

  datatype Selection = Selected(record: Record) | Rejected(why: Rejection) | Failed(error: RegistryError)

  function Select(digest: Digest, records: seq<Record>, arch: TargetArch, hash: string, kind: SnapshotKind,
                  raw: string): Selection {
    match ExactSelectionKey(arch, hash, kind, raw)
    case Err(why) => Rejected(why)
    case Ok(key) =>
      match SelectKey(digest, records, key)
      case Ok(record) => Selected(record)
      case Err(error) => Failed(error)
  }

  lemma KeysSeeOnlyTokenSets(arch: TargetArch, kind: SnapshotKind, hash: string, raw: string, otherHash: string,
                             otherRaw: string)
    requires SameTokens(raw, otherRaw) && Lower(hash) == Lower(otherHash)
    ensures ExactSelectionKey(arch, hash, kind, raw) == ExactSelectionKey(arch, otherHash, kind, otherRaw)
  {
    ParsingIsExactOnTokenSets(raw, otherRaw);
  }

  /** What a header selects depends on its tokens only as a set, and on its hash only up to case. */
  lemma SelectionSeesOnlyTokenSets(digest: Digest, records: seq<Record>, arch: TargetArch, kind: SnapshotKind,
                                   hash: string, raw: string, otherHash: string, otherRaw: string)
    requires SameTokens(raw, otherRaw) && Lower(hash) == Lower(otherHash)
    ensures Select(digest, records, arch, hash, kind, raw) == Select(digest, records, arch, otherHash, kind, otherRaw)
  {
    KeysSeeOnlyTokenSets(arch, kind, hash, raw, otherHash, otherRaw);
  }

  /**
    * A record is selected exactly when its hash is the header's, its features are the header's tokens, and the gate
    * lets both through.
    */
  lemma SelectedRecordsFitTheHeader(digest: Digest, version: nat, records: seq<Record>, arch: TargetArch, hash: string,
                                    kind: SnapshotKind,
                                    raw: string, r: Record)
    requires ValidRegistry(digest, version, records)
    ensures Select(digest, records, arch, hash, kind, raw) == Selected(r) <==>
              && ExactSelectionKey(arch, hash, kind, raw).Ok?
              && r in records && r.snapshotHash == Lower(hash) && r.targetArch == arch && SupportedMajors(r)
              && (forall f :: f in r.features <==> f in Lowered(Words(raw)))
  {
    var k := ExactSelectionKey(arch, hash, kind, raw);
    if k.Ok? {
      SelectionIsExact(digest, version, records, k.value, r);
      if r in records && forall f :: f in r.features <==> f in Lowered(Words(raw)) {
        AscendingTokensUnique(r.features, Normalize(Words(raw)));
        NormalizedIsFixed(r.features);
      }
    }
  }

  /**
    * What gets through the gate is a full AOT snapshot for arm64 whose header states one pointer mode and no other
    * architecture.
    */
  lemma GateIsExact(arch: TargetArch, hash: string, kind: SnapshotKind, raw: string)
    ensures ExactSelectionKey(arch, hash, kind, raw).Ok? <==>
              && kind == FullAot && arch == Arm64
              && (forall f :: f in Lowered(Words(raw)) && f in ARCH_TOKENS ==> f == "arm64")
              && ("compressed-pointers" in Lowered(Words(raw)) <==> "no-compressed-pointers" !in Lowered(Words(raw)))
  {
    var features := Normalize(Words(raw));
    OneTargetDeclared(features, ARCH_TOKENS, ArchText(Arm64));
  }

  /** Why a header is turned away, by the first thing that is wrong with it. */
  lemma RejectionsSayWhy(arch: TargetArch, hash: string, kind: SnapshotKind, raw: string)
    ensures var r := ExactSelectionKey(arch, hash, kind, raw);
            && (r == Err(NotFullAot) <==> kind != FullAot)
            && (r == Err(UnsupportedTarget) <==> kind == FullAot && arch != Arm64)
            && (r == Err(PointerCompressionUnavailable) ==>
                  ("compressed-pointers" in Lowered(Words(raw)) <==> "no-compressed-pointers" in Lowered(Words(raw))))
            && (r in {Err(ConflictingTargetFeatures), Err(TargetArchConflict)} <==>
                  && kind == FullAot && arch == Arm64
                  && exists f :: f in Lowered(Words(raw)) && f in ARCH_TOKENS && f != "arm64")
  {
    var features := Normalize(Words(raw));
    OneTargetDeclared(features, ARCH_TOKENS, ArchText(Arm64));
  }

  lemma OneTargetDeclared(features: seq<string>, architectures: set<string>, arch: string)
    requires Ascending(features)
    ensures var declared := DeclaredTargets(features, architectures);
            |declared| <= 1 && (declared != [] ==> declared[0] == arch) <==>
            forall f :: f in features && f in architectures ==> f == arch
  {
    var declared := DeclaredTargets(features, architectures);
    FilteredTokensAscend(features, f => f in architectures);
    if |declared| > 1 {
      assert declared[0] in declared && declared[1] in declared;
      LessIrreflexive(declared[0]);
    } else if |declared| == 1 {
      assert declared[0] in declared;
    }
  }

  lemma {:induction false} FilteredTokensAscend(tokens: seq<string>, keep: string -> bool)
    requires Ascending(tokens)
    ensures Ascending(Filter(tokens, keep))
  {
    if tokens != [] {
      var front, last := tokens[..|tokens| - 1], tokens[|tokens| - 1];
      FilteredTokensAscend(front, keep);
      var rest := Filter(front, keep);
      forall i | 0 <= i < |rest| ensures Less(rest[i], last) {
        assert rest[i] in front;
      }
    }
  }
}
