/** Program-wide alias rewriting: what lines say a generated name became, counted, and put in its place. */
module AliasRewrite {
  import opened Collections
  import opened Ordering

  /**
    * A source line: the callee it assigns from, whether it says what something was, and the first generated name it
    * says that of.
    */
  datatype Line = Line(callee: Option<string>, was: bool, original: Option<string>)

  /** A generated name. */
  predicate IsGeneric(name: string) {
    "sub_" <= name || "fn_0x" <= name
  }

  /** The line shows `callee` in place of the generated name `original`. */
  predicate Evidence(line: Line, callee: string, original: string) {
    && line.was && line.callee == Some(callee) && callee != "" && !IsGeneric(callee)
    && line.original == Some(original) && IsGeneric(original)
  }

  predicate HasEvidence(line: Line) {
    line.was && line.callee.Some? && line.original.Some? && Evidence(line, line.callee.value, line.original.value)
  }

  /** The line counts as a reference to the generated name: by its evidence if it has any, by its callee if not. */
  predicate RefersTo(line: Line, original: string) {
    if HasEvidence(line) then line.original.value == original else line.callee == Some(original) && IsGeneric(original)
  }

  function EvidenceCount(lines: seq<Line>, original: string, callee: string): nat {
    if lines == [] then 0
    else
      EvidenceCount(lines[..|lines| - 1], original, callee) +
      if Evidence(lines[|lines| - 1], callee, original) then 1 else 0
  }

  function ReferenceCount(lines: seq<Line>, original: string): nat {
    if lines == [] then 0
    else ReferenceCount(lines[..|lines| - 1], original) + if RefersTo(lines[|lines| - 1], original) then 1 else 0
  }

  /**
    * `name` is shown at least twice, on at least half the references, and more than twice as often as any other
    * name.
    */
  ghost predicate IsAlias(lines: seq<Line>, original: string, name: string) {
    && EvidenceCount(lines, original, name) >= 2
    && EvidenceCount(lines, original, name) * 2 >= ReferenceCount(lines, original)
    && forall other :: other != name ==>
      EvidenceCount(lines, original, other) * 2 < EvidenceCount(lines, original, name)
  }

  lemma AliasesAreUnique(lines: seq<Line>, original: string, a: string, b: string)
    requires IsAlias(lines, original, a) && IsAlias(lines, original, b)
    ensures a == b
  {
    var counts := (EvidenceCount(lines, original, a), EvidenceCount(lines, original, b));
  }

  lemma {:induction false} CountedNamesHaveEvidence(lines: seq<Line>, original: string, callee: string)
    requires EvidenceCount(lines, original, callee) > 0
    ensures callee != "" && !IsGeneric(callee) && IsGeneric(original)
    decreases |lines|
  {
    if !Evidence(lines[|lines| - 1], callee, original) {
      CountedNamesHaveEvidence(lines[..|lines| - 1], original, callee);
    }
  }

  // ---------- Collection ----------

  type Counts = map<string, nat>

  function ByName(candidates: map<string, Counts>, original: string): Counts {
    if original in candidates then candidates[original] else map[]
  }

  /** Every count kept is a positive one. */
  predicate Positive(counts: Counts) {
    forall key :: key in counts ==> counts[key] > 0
  }

  /** The counters hold what the lines say. */
  ghost predicate Counted(lines: seq<Line>, candidates: map<string, Counts>, references: Counts) {
    && (forall o :: Positive(ByName(candidates, o)))
    && (forall o, n :: Tally(ByName(candidates, o), n) == EvidenceCount(lines, o, n))
    && (forall o :: Tally(references, o) == ReferenceCount(lines, o))
    && (forall o :: o in candidates ==> o in references)
  }

  lemma EvidenceGrows(lines: seq<Line>, line: Line, candidates: map<string, Counts>, o: string, n: string)
    requires HasEvidence(line) && Positive(ByName(candidates, o))
    requires Tally(ByName(candidates, o), n) == EvidenceCount(lines, o, n)
    ensures var original := line.original.value;
            var after := candidates[original := Bump(ByName(candidates, original), line.callee.value)];
            Positive(ByName(after, o)) && Tally(ByName(after, o), n) == EvidenceCount(lines + [line], o, n)
  {
    assert (lines + [line])[..|lines|] == lines;
  }

  lemma CountsGrow(lines: seq<Line>, line: Line)
    ensures forall o :: ReferenceCount(lines + [line], o) ==
                          ReferenceCount(lines, o) + if RefersTo(line, o) then 1 else 0
    ensures forall o, n :: EvidenceCount(lines + [line], o, n) ==
                             EvidenceCount(lines, o, n) + if Evidence(line, n, o) then 1 else 0
  {
    assert (lines + [line])[..|lines|] == lines;
  }

  lemma CountedGrows(lines: seq<Line>, line: Line, candidates: map<string, Counts>, references: Counts)
    requires Counted(lines, candidates, references)
    ensures if HasEvidence(line) then
              var o := line.original.value;
              Counted(lines + [line], candidates[o := Bump(ByName(candidates, o), line.callee.value)],
                      Bump(references, o))
            else if line.callee.Some? && IsGeneric(line.callee.value) then
              Counted(lines + [line], candidates, Bump(references, line.callee.value))
            else Counted(lines + [line], candidates, references)
  {
    CountsGrow(lines, line);
    if HasEvidence(line) {
      var original := line.original.value;
      var after := candidates[original := Bump(ByName(candidates, original), line.callee.value)];
      forall o ensures Positive(ByName(after, o)) {
        EvidenceGrows(lines, line, candidates, o, "");
      }
      forall o, n ensures Tally(ByName(after, o), n) == EvidenceCount(lines + [line], o, n) {
        EvidenceGrows(lines, line, candidates, o, n);
      }
      assert forall o :: RefersTo(line, o) <==> o == original;
    } else if line.callee.Some? && IsGeneric(line.callee.value) {
      assert forall o :: RefersTo(line, o) <==> o == line.callee.value;
    }
  }

  /** One pass over the lines. */
  method CountLines(lines: seq<Line>) returns (candidates: map<string, Counts>, references: Counts)
    ensures Counted(lines, candidates, references)
  {
    candidates, references := map[], map[];
    for i := 0 to |lines|
      invariant Counted(lines[..i], candidates, references)
    {
      CountedGrows(lines[..i], lines[i], candidates, references);
      assert lines[..i + 1] == lines[..i] + [lines[i]];
      var line := lines[i];
      if HasEvidence(line) {
        var original := line.original.value;
        references := Bump(references, original);
        candidates := candidates[original := Bump(ByName(candidates, original), line.callee.value)];
      } else if line.callee.Some? && IsGeneric(line.callee.value) {
        references := Bump(references, line.callee.value);
      }
    }
    assert lines[..|lines|] == lines;
  }

  // ---------- Ranking ----------

  datatype Ranked = Ranked(name: string, count: nat)

  function SemanticNameScore(name: string): nat {
    if "flutter." <= name then 5
    else if "package:" <= name then 4
    else if "dart." <= name then 3
    else if "dart_vm." <= name then 2
    else 1
  }

  /** More often shown, then better scored, then first by name. */
  predicate Precedes(a: Ranked, b: Ranked) {
    || a.count > b.count
    || (a.count == b.count && (SemanticNameScore(a.name) > SemanticNameScore(b.name)
        || (SemanticNameScore(a.name) == SemanticNameScore(b.name) && Less(a.name, b.name))))
  }

  ghost predicate InOrder(ranked: seq<Ranked>) {
    forall i, j :: 0 <= i < j < |ranked| ==> Precedes(ranked[i], ranked[j])
  }

  lemma PrecedesIsTotal(a: Ranked, b: Ranked)
    ensures Precedes(a, b) || Precedes(b, a) || a == b
  {
    LessTotal(a.name, b.name);
  }

  lemma PrecedesIsTransitive(a: Ranked, b: Ranked, c: Ranked)
    requires Precedes(a, b) && Precedes(b, c)
    ensures Precedes(a, c)
  {
    if Less(a.name, b.name) && Less(b.name, c.name) { LessTransitive(a.name, b.name, c.name); }
  }

  function InsertRanked(x: Ranked, s: seq<Ranked>): (r: seq<Ranked>)
    requires InOrder(s) && x !in s
    ensures InOrder(r) && forall y :: y in r <==> y in s || y == x
  {
    if s == [] then [x]
    else if Precedes(x, s[0]) then
      PrecedesAll(x, s);
      [x] + s
    else
      var rest := InsertRanked(x, s[1..]);
      PrecedesIsTotal(x, s[0]);
      assert s == [s[0]] + s[1..];
      assert forall k :: 0 <= k < |rest| ==> rest[k] in rest;
      [s[0]] + rest
  }

  lemma PrecedesAll(x: Ranked, s: seq<Ranked>)
    requires InOrder(s) && s != [] && Precedes(x, s[0])
    ensures forall k :: 0 <= k < |s| ==> Precedes(x, s[k])
  {
    forall k | 0 < k < |s| ensures Precedes(x, s[k]) {
      PrecedesIsTransitive(x, s[0], s[k]);
    }
  }

  /** Rank the names, in whatever order the map yields them. */
  method Rank(counts: Counts) returns (ranked: seq<Ranked>)
    ensures InOrder(ranked) && forall r :: r in ranked <==> r.name in counts && r.count == counts[r.name]
  {
    ranked := [];
    var todo := counts.Keys;
    while todo != {}
      invariant todo <= counts.Keys && InOrder(ranked)
      invariant forall r :: r in ranked <==> r.name in counts && r.name !in todo && r.count == counts[r.name]
    {
      var name :| name in todo;
      todo := todo - {name};
      ranked := InsertRanked(Ranked(name, counts[name]), ranked);
    }
  }

  /** The thresholds on the best and the second-best name. */
  function Decide(ranked: seq<Ranked>, total: nat): Option<string> {
    if ranked == [] || ranked[0].count < 2 || ranked[0].count * 2 < total then None
    else if |ranked| > 1 && ranked[1].count * 2 >= ranked[0].count then None
    else Some(ranked[0].name)
  }

  ghost predicate Ranks(ranked: seq<Ranked>, lines: seq<Line>, original: string) {
    InOrder(ranked) && forall r :: r in ranked <==> r.count > 0 && r.count == EvidenceCount(lines, original, r.name)
  }

  /** What the thresholds let through is the alias; so score and spelling, which only break ties, never decide. */
  lemma DecidedNamesAreAliases(ranked: seq<Ranked>, lines: seq<Line>, original: string, name: string)
    requires Ranks(ranked, lines, original)
    ensures Decide(ranked, ReferenceCount(lines, original)) == Some(name) ==> IsAlias(lines, original, name)
  {
    if Decide(ranked, ReferenceCount(lines, original)) == Some(name) {
      assert ranked[0] in ranked;
      forall other | other != name
        ensures EvidenceCount(lines, original, other) * 2 < EvidenceCount(lines, original, name) {
        var r := Ranked(other, EvidenceCount(lines, original, other));
        if r.count > 0 {
          assert r in ranked;
          var i :| 0 <= i < |ranked| && ranked[i] == r;
          assert i == 1 || Precedes(ranked[1], ranked[i]);
        }
      }
    }
  }

  lemma NoNamePrecedesItself(a: Ranked, b: Ranked)
    requires Precedes(a, b)
    ensures a != b
  {
    LessIrreflexive(a.name);
  }

  lemma AliasRanksFirst(ranked: seq<Ranked>, lines: seq<Line>, original: string, name: string)
    requires Ranks(ranked, lines, original) && IsAlias(lines, original, name)
    ensures ranked != [] && ranked[0] == Ranked(name, EvidenceCount(lines, original, name))
  {
    var best := Ranked(name, EvidenceCount(lines, original, name));
    assert best in ranked;
    var i :| 0 <= i < |ranked| && ranked[i] == best;
    var first := ranked[0];
    assert first in ranked && first.count == EvidenceCount(lines, original, first.name);
    if i > 0 {
      NoNamePrecedesItself(first, best);
    }
  }

  lemma AliasesAreDecided(ranked: seq<Ranked>, lines: seq<Line>, original: string, name: string)
    requires Ranks(ranked, lines, original) && IsAlias(lines, original, name)
    ensures Decide(ranked, ReferenceCount(lines, original)) == Some(name)
  {
    AliasRanksFirst(ranked, lines, original, name);
    if |ranked| > 1 {
      assert ranked[1] in ranked && ranked[1].count == EvidenceCount(lines, original, ranked[1].name);
      NoNamePrecedesItself(ranked[0], ranked[1]);
    }
  }

  /** The aliases of a program: whatever order the maps yield their keys in, exactly the names `IsAlias` picks out. */
  method CollectGenericSymbolAliases(lines: seq<Line>) returns (aliases: map<string, string>)
    ensures forall o, n :: o in aliases && aliases[o] == n <==> IsAlias(lines, o, n)
  {
    var candidates, references := CountLines(lines);
    aliases := map[];
    var todo := candidates.Keys;
    while todo != {}
      invariant todo <= candidates.Keys
      invariant forall o :: o in aliases ==> o in candidates && o !in todo && IsAlias(lines, o, aliases[o])
      invariant forall o, n :: o in candidates && o !in todo && IsAlias(lines, o, n) ==> o in aliases
    {
      var original :| original in todo;
      todo := todo - {original};
      var ranked := Rank(candidates[original]);
      assert Ranks(ranked, lines, original) by {
        assert ByName(candidates, original) == candidates[original];
        assert forall n :: Tally(candidates[original], n) == EvidenceCount(lines, original, n);
      }
      var decided := Decide(ranked, references[original]);
      assert references[original] == ReferenceCount(lines, original);
      forall n ensures decided == Some(n) <==> IsAlias(lines, original, n) {
        DecidedNamesAreAliases(ranked, lines, original, n);
        if IsAlias(lines, original, n) { AliasesAreDecided(ranked, lines, original, n); }
      }
      if decided.Some? {
        aliases := aliases[original := decided.value];
      }
    }
    forall o, n | IsAlias(lines, o, n) ensures o in aliases && aliases[o] == n {
      assert Tally(ByName(candidates, o), n) == EvidenceCount(lines, o, n);
      AliasesAreUnique(lines, o, n, aliases[o]);
    }
  }

  // ---------- Rewriting ----------

  /** The aliases a program's lines add up to; there is only one such map. */
  ghost predicate AreAliases(lines: seq<Line>, aliases: map<string, string>) {
    forall o, n :: o in aliases && aliases[o] == n <==> IsAlias(lines, o, n)
  }

  /**
   * One line rewritten. `carried` is what a name, put into a line, makes that line say about a generated name:
   * a callee whose own text reads as rename evidence.
   */
  function RewriteLine(line: Line, aliases: map<string, string>, carried: map<string, string>): Line {
    if line.was || line.callee.None? || !IsGeneric(line.callee.value) || line.callee.value !in aliases then line
    else
      var alias := aliases[line.callee.value];
      if alias in carried then Line(Some(alias), true, Some(carried[alias])) else Line(Some(alias), false, None)
  }

  function RewriteLines(lines: seq<Line>, aliases: map<string, string>, carried: map<string, string>): (r: seq<Line>)
    ensures |r| == |lines| && forall i :: 0 <= i < |lines| ==> r[i] == RewriteLine(lines[i], aliases, carried)
  {
    seq(|lines|, i requires 0 <= i < |lines| => RewriteLine(lines[i], aliases, carried))
  }

  /** Every line of every artifact, in order. */
  function All(program: seq<seq<Line>>): seq<Line> {
    if program == [] then [] else All(program[..|program| - 1]) + program[|program| - 1]
  }

  function RewriteProgram(program: seq<seq<Line>>, aliases: map<string, string>,
                          carried: map<string, string>): (r: seq<seq<Line>>)
    ensures |r| == |program| && forall k :: 0 <= k < |program| ==> r[k] == RewriteLines(program[k], aliases, carried)
  {
    seq(|program|, k requires 0 <= k < |program| => RewriteLines(program[k], aliases, carried))
  }

  lemma {:induction false} RewritingFlattens(program: seq<seq<Line>>, aliases: map<string, string>,
                                             carried: map<string, string>)
    ensures All(RewriteProgram(program, aliases, carried)) == RewriteLines(All(program), aliases, carried)
  {
    if program != [] {
      var front, last := program[..|program| - 1], program[|program| - 1];
      RewritingFlattens(front, aliases, carried);
      assert RewriteProgram(program, aliases, carried)[..|program| - 1] == RewriteProgram(front, aliases, carried);
    }
  }

  /** Aliases are written names, not generated ones. */
  predicate AreNames(aliases: map<string, string>) {
    forall o :: o in aliases ==> aliases[o] != "" && !IsGeneric(aliases[o])
  }

  /** The rewrite replaces this line's callee. */
  predicate IsRewritten(line: Line, aliases: map<string, string>) {
    !line.was && line.callee.Some? && IsGeneric(line.callee.value) && line.callee.value in aliases
  }

  /** Rewritten, the line shows the alias `name` and so says it was `original`. */
  predicate Echoes(line: Line, aliases: map<string, string>, carried: map<string, string>, original: string,
                   name: string) {
    IsRewritten(line, aliases) && aliases[line.callee.value] == name && name in carried && carried[name] == original &&
      IsGeneric(original)
  }

  /** Rewritten, the line says what `original` was. */
  predicate EchoesSome(line: Line, aliases: map<string, string>, carried: map<string, string>, original: string) {
    IsRewritten(line, aliases) && Echoes(line, aliases, carried, original, aliases[line.callee.value])
  }

  /** How many input lines will show `name` for `original` that did not. */
  function EchoCount(lines: seq<Line>, aliases: map<string, string>, carried: map<string, string>, original: string,
                     name: string): nat {
    if lines == [] then 0
    else
      EchoCount(lines[..|lines| - 1], aliases, carried, original, name)
      + if Echoes(lines[|lines| - 1], aliases, carried, original, name) then 1 else 0
  }

  /** How many input lines will refer to `original` that did not. */
  function EchoReferences(lines: seq<Line>, aliases: map<string, string>, carried: map<string, string>,
                          original: string): nat {
    if lines == [] then 0
    else
      EchoReferences(lines[..|lines| - 1], aliases, carried, original)
      + if EchoesSome(lines[|lines| - 1], aliases, carried, original) then 1 else 0
  }

  /** How many input lines refer to `original` and will be rewritten. */
  function LostReferences(lines: seq<Line>, aliases: map<string, string>, original: string): nat {
    if lines == [] then 0
    else
      LostReferences(lines[..|lines| - 1], aliases, original)
      + if IsRewritten(lines[|lines| - 1], aliases) && lines[|lines| - 1].callee == Some(original) then 1 else 0
  }

  /** What the counters find after a rewrite, in terms of the lines before it. */
  lemma {:induction false} CountsAfterRewriting(lines: seq<Line>, aliases: map<string, string>,
                                                carried: map<string, string>,
                                                o: string, n: string)
    requires AreNames(aliases)
    ensures var after := RewriteLines(lines, aliases, carried);
            && EvidenceCount(after, o, n) == EvidenceCount(lines, o, n) + EchoCount(lines, aliases, carried, o, n)
            && ReferenceCount(after, o) + LostReferences(lines, aliases, o) ==
               ReferenceCount(lines, o) + EchoReferences(lines, aliases, carried, o)
  {
    if lines != [] {
      var front, last := lines[..|lines| - 1], lines[|lines| - 1];
      CountsAfterRewriting(front, aliases, carried, o, n);
      assert RewriteLines(lines, aliases, carried)[..|lines| - 1] == RewriteLines(front, aliases, carried);
      OneLineAfterRewriting(last, aliases, carried, o, n);
    }
  }

  lemma OneLineAfterRewriting(line: Line, aliases: map<string, string>, carried: map<string, string>, o: string,
                              n: string)
    requires AreNames(aliases)
    ensures var after := RewriteLine(line, aliases, carried);
            && (Evidence(after, n, o) <==> Evidence(line, n, o) || Echoes(line, aliases, carried, o, n))
            && !(Evidence(line, n, o) && Echoes(line, aliases, carried, o, n))
            && (IsRewritten(line, aliases) ==>
                  (RefersTo(line, o) <==> line.callee == Some(o)) &&
                    (RefersTo(after, o) <==> EchoesSome(line, aliases, carried, o)))
            && (!IsRewritten(line, aliases) ==> after == line)
  {
  }

  /**
    * Computed from the input lines: with the lines the rewrite makes say so counted in, `name` passes the thresholds
    * for `original`, which has no alias and which some line still calls plainly.
    */
  ghost predicate Tips(lines: seq<Line>, aliases: map<string, string>, carried: map<string, string>, original: string,
                       name: string) {
    && original !in aliases && IsGeneric(original)
    && (exists i :: 0 <= i < |lines| && !lines[i].was && lines[i].callee == Some(original))
    && Augmented(lines, aliases, carried, original, name) >= 2
    && Augmented(lines, aliases, carried, original, name) * 2
       >= ReferenceCount(lines, original) + EchoReferences(lines, aliases, carried, original)
    && forall other :: other != name ==>
         Augmented(lines, aliases, carried, original, other) * 2 < Augmented(lines, aliases, carried, original, name)
  }

  /** How often `name` is shown for `original`, now or after the rewrite. */
  function Augmented(lines: seq<Line>, aliases: map<string, string>, carried: map<string, string>, original: string,
                     name: string): nat {
    EvidenceCount(lines, original, name) + EchoCount(lines, aliases, carried, original, name)
  }

  lemma {:induction false} OnlyAliasedReferencesAreLost(lines: seq<Line>, aliases: map<string, string>, o: string)
    ensures o !in aliases ==> LostReferences(lines, aliases, o) == 0
  {
    if lines != [] {
      OnlyAliasedReferencesAreLost(lines[..|lines| - 1], aliases, o);
    }
  }

  /** For a name without an alias, being one after the rewrite is passing the thresholds with the augmented counts. */
  lemma NewAliasesAreTipped(lines: seq<Line>, aliases: map<string, string>, carried: map<string, string>, o: string,
                            n: string)
    requires AreNames(aliases) && o !in aliases && IsGeneric(o)
    requires exists i :: 0 <= i < |lines| && !lines[i].was && lines[i].callee == Some(o)
    ensures IsAlias(RewriteLines(lines, aliases, carried), o, n) <==> Tips(lines, aliases, carried, o, n)
  {
    var after := RewriteLines(lines, aliases, carried);
    OnlyAliasedReferencesAreLost(lines, aliases, o);
    forall m ensures EvidenceCount(after, o, m) == Augmented(lines, aliases, carried, o, m) {
      CountsAfterRewriting(lines, aliases, carried, o, m);
    }
    CountsAfterRewriting(lines, aliases, carried, o, n);
  }

  /** A rewrite changes a list of lines exactly when it rewrites one of them. */
  lemma RewritingIsIdleExactlyWhenNoLineIsRewritten(lines: seq<Line>, aliases: map<string, string>,
                                                    carried: map<string, string>)
    requires AreNames(aliases)
    ensures RewriteLines(lines, aliases, carried) == lines <==>
            forall i :: 0 <= i < |lines| ==> !IsRewritten(lines[i], aliases)
  {
    forall i | 0 <= i < |lines|
      ensures RewriteLine(lines[i], aliases, carried) == lines[i] <==> !IsRewritten(lines[i], aliases) {
      if IsRewritten(lines[i], aliases) {
        assert RewriteLine(lines[i], aliases, carried).callee == Some(aliases[lines[i].callee.value]);
      }
    }
  }

  lemma AliasesAreNames(lines: seq<Line>, aliases: map<string, string>)
    requires AreAliases(lines, aliases)
    ensures AreNames(aliases)
  {
    forall o | o in aliases ensures aliases[o] != "" && !IsGeneric(aliases[o]) {
      assert IsAlias(lines, o, aliases[o]);
      CountedNamesHaveEvidence(lines, o, aliases[o]);
    }
  }

  /** The second pass changes something exactly when the rewrite tips some name it left alone. */
  lemma SecondRewriteChangesExactlyWhenOneTips(lines: seq<Line>, aliases: map<string, string>,
                                               carried: map<string, string>,
                                               again: map<string, string>)
    requires AreAliases(lines, aliases) && AreAliases(RewriteLines(lines, aliases, carried), again)
    ensures var once := RewriteLines(lines, aliases, carried);
            RewriteLines(once, again, carried) != once <==> exists o, n :: Tips(lines, aliases, carried, o, n)
  {
    var once := RewriteLines(lines, aliases, carried);
    AliasesAreNames(lines, aliases);
    AliasesAreNames(once, again);
    RewritingIsIdleExactlyWhenNoLineIsRewritten(once, again, carried);
    if i :| 0 <= i < |once| && IsRewritten(once[i], again) {
      var o := once[i].callee.value;
      assert !IsRewritten(lines[i], aliases) && once[i] == lines[i];
      NewAliasesAreTipped(lines, aliases, carried, o, again[o]);
    }
    if o, n :| Tips(lines, aliases, carried, o, n) {
      var i :| 0 <= i < |lines| && !lines[i].was && lines[i].callee == Some(o);
      NewAliasesAreTipped(lines, aliases, carried, o, n);
      assert once[i] == lines[i] && IsRewritten(once[i], again);
    }
  }

  lemma AliasMapIsUnique(lines: seq<Line>, a: map<string, string>, b: map<string, string>)
    requires AreAliases(lines, a) && AreAliases(lines, b)
    ensures a == b
  {
    forall o ensures o in a <==> o in b {
      assert o in a ==> IsAlias(lines, o, a[o]);
      assert o in b ==> IsAlias(lines, o, b[o]);
    }
    forall o | o in a ensures a[o] == b[o] {
      assert IsAlias(lines, o, a[o]);
    }
  }

  // ---------- When nothing tips ----------

  /** A chosen alias whose text reads as evidence says it of the very name it replaces. */
  predicate Coherent(aliases: map<string, string>, carried: map<string, string>) {
    forall o :: o in aliases && aliases[o] in carried ==> carried[aliases[o]] == o
  }

  /**
    * No line says what something was in front of its callee: where the callee's own text reads as evidence, that is the
    * evidence the line is taken for. Lines that only end in a comment of that kind are such lines.
    */
  predicate EvidenceFollowsTheCallee(lines: seq<Line>, carried: map<string, string>) {
    forall i :: 0 <= i < |lines| && lines[i].was && lines[i].callee.Some? && lines[i].callee.value in carried ==>
      lines[i].original == Some(carried[lines[i].callee.value])
  }

  lemma {:induction false} CountedEvidenceIsThere(lines: seq<Line>, o: string, n: string) returns (i: nat)
    requires EvidenceCount(lines, o, n) > 0
    ensures i < |lines| && Evidence(lines[i], n, o)
    decreases |lines|
  {
    if Evidence(lines[|lines| - 1], n, o) {
      i := |lines| - 1;
    } else {
      i := CountedEvidenceIsThere(lines[..|lines| - 1], o, n);
    }
  }

  /** Such lines choose coherent aliases. */
  lemma SuchLinesAreCoherent(lines: seq<Line>, aliases: map<string, string>, carried: map<string, string>)
    requires AreAliases(lines, aliases) && EvidenceFollowsTheCallee(lines, carried)
    ensures Coherent(aliases, carried)
  {
    forall o | o in aliases && aliases[o] in carried ensures carried[aliases[o]] == o {
      assert IsAlias(lines, o, aliases[o]);
      var i := CountedEvidenceIsThere(lines, o, aliases[o]);
    }
  }

  /** Coherent aliases echo only what they replace. */
  lemma {:induction false} CoherentEchoesStayHome(lines: seq<Line>, aliases: map<string, string>,
                                                  carried: map<string, string>, o: string, n: string)
    requires Coherent(aliases, carried)
    ensures EchoCount(lines, aliases, carried, o, n) > 0 ==> o in aliases && aliases[o] == n
    ensures o !in aliases ==> EchoReferences(lines, aliases, carried, o) == 0
    ensures EchoReferences(lines, aliases, carried, o) <= LostReferences(lines, aliases, o)
  {
    if lines != [] {
      CoherentEchoesStayHome(lines[..|lines| - 1], aliases, carried, o, n);
    }
  }

  lemma MoreOfTheSameIsStillAnAlias(lines: seq<Line>, aliases: map<string, string>, carried: map<string, string>,
                                    o: string, n: string)
    requires AreAliases(lines, aliases) && AreNames(aliases) && Coherent(aliases, carried)
    ensures IsAlias(RewriteLines(lines, aliases, carried), o, n) <==> IsAlias(lines, o, n)
  {
    var after := RewriteLines(lines, aliases, carried);
    forall m
      ensures EvidenceCount(after, o, m) == Augmented(lines, aliases, carried, o, m)
      ensures Augmented(lines, aliases, carried, o, m) > EvidenceCount(lines, o, m) ==> o in aliases && aliases[o] == m
    {
      CountsAfterRewriting(lines, aliases, carried, o, m);
      CoherentEchoesStayHome(lines, aliases, carried, o, m);
    }
    CountsAfterRewriting(lines, aliases, carried, o, n);
    CoherentEchoesStayHome(lines, aliases, carried, o, n);
    OnlyAliasedReferencesAreLost(lines, aliases, o);
    if o in aliases {
      assert IsAlias(lines, o, aliases[o]);
      if n != aliases[o] {
        var counts := (EvidenceCount(after, o, n), EvidenceCount(after, o, aliases[o]), EvidenceCount(lines, o, n));
      }
    }
  }

  /** Re-collecting after a rewrite finds the same aliases. */
  lemma RecollectingFindsTheSame(lines: seq<Line>, aliases: map<string, string>, carried: map<string, string>)
    requires AreAliases(lines, aliases) && Coherent(aliases, carried)
    ensures AreAliases(RewriteLines(lines, aliases, carried), aliases)
  {
    AliasesAreNames(lines, aliases);
    forall o, n ensures IsAlias(RewriteLines(lines, aliases, carried), o, n) <==> IsAlias(lines, o, n) {
      MoreOfTheSameIsStillAnAlias(lines, aliases, carried, o, n);
    }
  }

  lemma CoherentAliasesTipNothing(lines: seq<Line>, aliases: map<string, string>, carried: map<string, string>,
                                  o: string, n: string)
    requires AreAliases(lines, aliases) && Coherent(aliases, carried)
    ensures !Tips(lines, aliases, carried, o, n)
  {
    if Tips(lines, aliases, carried, o, n) {
      AliasesAreNames(lines, aliases);
      NewAliasesAreTipped(lines, aliases, carried, o, n);
      MoreOfTheSameIsStillAnAlias(lines, aliases, carried, o, n);
    }
  }

  // ---------- The whole program ----------

  lemma SamePartsSameWhole<T>(a: seq<T>, x: seq<T>, b: seq<T>, y: seq<T>)
    requires |a| == |b|
    ensures a + x == b + y <==> a == b && x == y
  {
    assert (a + x)[..|a|] == a && (a + x)[|a|..] == x;
    assert (b + y)[..|b|] == b && (b + y)[|b|..] == y;
  }

  lemma SameEndsSame<T>(a: seq<T>, b: seq<T>)
    requires |a| == |b| > 0
    ensures var n := |a| - 1; a == b <==> a[..n] == b[..n] && a[n] == b[n]
  {
    var n := |a| - 1;
    assert a == a[..n] + [a[n]] && b == b[..n] + [b[n]];
  }

  lemma {:induction false} SameLinesSameProgram(a: seq<seq<Line>>, b: seq<seq<Line>>)
    requires |a| == |b| && forall k :: 0 <= k < |a| ==> |a[k]| == |b[k]|
    ensures |All(a)| == |All(b)| && (All(a) == All(b) <==> a == b)
  {
    if a != [] {
      var n := |a| - 1;
      var front, back := a[..n], b[..n];
      SameLinesSameProgram(front, back);
      SamePartsSameWhole(All(front), a[n], All(back), b[n]);
      SameEndsSame(a, b);
    }
  }

  /** The whole-program pass is idempotent on a program exactly when its first rewrite tips no name it left alone. */
  lemma IdempotentExactlyWhenNothingTips(program: seq<seq<Line>>, aliases: map<string, string>,
                                         carried: map<string, string>,
                                         again: map<string, string>)
    requires AreAliases(All(program), aliases) && AreAliases(All(RewriteProgram(program, aliases, carried)), again)
    ensures var once := RewriteProgram(program, aliases, carried);
            RewriteProgram(once, again, carried) == once <==> !exists o, n :: Tips(All(program), aliases, carried, o, n)
  {
    var once := RewriteProgram(program, aliases, carried);
    RewritingFlattens(program, aliases, carried);
    RewritingFlattens(once, again, carried);
    SameLinesSameProgram(RewriteProgram(once, again, carried), once);
    SecondRewriteChangesExactlyWhenOneTips(All(program), aliases, carried, again);
  }

  /** So it is whenever the chosen aliases are coherent, and then the second pass finds the same ones. */
  lemma SecondPassChangesNothing(program: seq<seq<Line>>, aliases: map<string, string>, carried: map<string, string>,
                                 again: map<string, string>)
    requires AreAliases(All(program), aliases) && Coherent(aliases, carried)
    requires AreAliases(All(RewriteProgram(program, aliases, carried)), again)
    ensures again == aliases
    ensures RewriteProgram(RewriteProgram(program, aliases, carried), again, carried) ==
            RewriteProgram(program, aliases, carried)
  {
    RewritingFlattens(program, aliases, carried);
    RecollectingFindsTheSame(All(program), aliases, carried);
    AliasMapIsUnique(All(RewriteProgram(program, aliases, carried)), aliases, again);
    forall o, n ensures !Tips(All(program), aliases, carried, o, n) {
      CoherentAliasesTipNothing(All(program), aliases, carried, o, n);
    }
    IdempotentExactlyWhenNothingTips(program, aliases, carried, again);
  }

  /**
    * What the pass makes of one line of a program: a plain call of a name with an alias shows the alias instead, and
    * says what the alias carries, if it carries anything; every other line stays as it is.
    */
  ghost predicate LineRewritten(lines: seq<Line>, carried: map<string, string>, before: Line, after: Line) {
    && (forall n :: !before.was && before.callee.Some? && IsAlias(lines, before.callee.value, n) ==>
          after.callee == Some(n) && Says(after, if n in carried then Some(carried[n]) else None))
    && (before.was || before.callee.None? || (forall n :: !IsAlias(lines, before.callee.value, n)) ==> after == before)
  }

  /** The line says what `original` was, or nothing. */
  predicate Says(line: Line, original: Option<string>) {
    line.was == original.Some? && line.original == original
  }

  lemma OneLineIsRewritten(lines: seq<Line>, aliases: map<string, string>, carried: map<string, string>, line: Line)
    requires AreAliases(lines, aliases)
    ensures LineRewritten(lines, carried, line, RewriteLine(line, aliases, carried))
  {
    if line.callee.Some? {
      var o := line.callee.value;
      forall n | IsAlias(lines, o, n) ensures o in aliases && aliases[o] == n && IsGeneric(o) {
        CountedNamesHaveEvidence(lines, o, n);
      }
      if o in aliases {
        assert IsAlias(lines, o, aliases[o]);
      }
    }
  }

  /** Artifact by artifact and line by line, that is what rewriting a program does. */
  lemma EveryLineIsRewritten(program: seq<seq<Line>>, aliases: map<string, string>, carried: map<string, string>)
    requires AreAliases(All(program), aliases)
    ensures var after := RewriteProgram(program, aliases, carried);
            && |after| == |program|
            && (forall k :: 0 <= k < |program| ==> |after[k]| == |program[k]|)
            && (forall k, i :: 0 <= k < |program| && 0 <= i < |program[k]| ==>
                  LineRewritten(All(program), carried, program[k][i], after[k][i]))
  {
    forall k, i | 0 <= k < |program| && 0 <= i < |program[k]|
      ensures LineRewritten(All(program), carried, program[k][i], RewriteProgram(program, aliases, carried)[k][i])
    {
      OneLineIsRewritten(All(program), aliases, carried, program[k][i]);
    }
  }

  /** The program pass, in place. */
  method ApplyProgramLevelGenericCallRewrites(artifacts: array<seq<Line>>, carried: map<string, string>)
      returns (ghost aliases: map<string, string>)
    modifies artifacts
    ensures AreAliases(All(old(artifacts[..])), aliases)
    ensures artifacts[..] == RewriteProgram(old(artifacts[..]), aliases, carried)
    ensures forall k :: 0 <= k < artifacts.Length ==> |artifacts[k]| == |old(artifacts[k])|
    ensures forall k, i :: 0 <= k < artifacts.Length && 0 <= i < |artifacts[k]| ==>
              LineRewritten(All(old(artifacts[..])), carried, old(artifacts[..])[k][i], artifacts[k][i])
  {
    var lines := [];
    for k := 0 to artifacts.Length
      invariant lines == All(artifacts[..k])
    {
      lines := lines + artifacts[k];
      assert artifacts[..k + 1][..k] == artifacts[..k];
    }
    assert artifacts[..artifacts.Length] == artifacts[..];
    var collected := CollectGenericSymbolAliases(lines);
    aliases := collected;
    EveryLineIsRewritten(artifacts[..], aliases, carried);
    if collected == map[] {
      NothingToRewrite(artifacts[..], carried);
      return;
    }
    for k := 0 to artifacts.Length
      invariant forall i :: 0 <= i < k ==> artifacts[i] == RewriteLines(old(artifacts[i]), collected, carried)
      invariant forall i :: k <= i < artifacts.Length ==> artifacts[i] == old(artifacts[i])
    {
      artifacts[k] := RewriteLines(artifacts[k], collected, carried);
    }
  }

  lemma NothingToRewrite(program: seq<seq<Line>>, carried: map<string, string>)
    ensures RewriteProgram(program, map[], carried) == program
  {
    forall k | 0 <= k < |program| ensures RewriteLines(program[k], map[], carried) == program[k] {
    }
  }

  // ---------- A program on which it is not idempotent ----------

  /**
    * Two lines that show `odd` for `a`, two plain calls of `a`, one of `b`; `odd` reads as evidence about `b`. As text:
    * twice `(was: sub_1) x = was: sub_2, f(y)`, twice `x = sub_1(y)`, once `x = sub_2(y)`.
    */
  function OddProgram(odd: string, a: string, b: string): seq<Line> {
    [Line(Some(odd), true, Some(a)), Line(Some(odd), true, Some(a)),
     Line(Some(a), false, None), Line(Some(a), false, None), Line(Some(b), false, None)]
  }

  /** The first pass names `a`; the lines it rewrote make the second pass name `b` as well, and rewrite its call. */
  lemma OddNamesAreTakenUpLate(odd: string, a: string, b: string)
    requires odd != "" && !IsGeneric(odd) && IsGeneric(a) && IsGeneric(b) && a != b
    ensures var lines, carried := OddProgram(odd, a, b), map[odd := b];
            var once := RewriteLines(lines, map[a := odd], carried);
            && AreAliases(lines, map[a := odd]) && AreAliases(once, map[a := odd, b := odd])
            && RewriteLines(once, map[a := odd, b := odd], carried) != once
  {
    var shown, called, other := Line(Some(odd), true, Some(a)), Line(Some(a), false, None), Line(Some(b), false, None);
    var echoed := Line(Some(odd), true, Some(b));
    var lines, carried := OddProgram(odd, a, b), map[odd := b];
    var once := RewriteLines(lines, map[a := odd], carried);
    assert once == [shown, shown, echoed, echoed, other];
    CountsOfFive(shown, shown, called, called, other);
    CountsOfFive(shown, shown, echoed, echoed, other);
    forall o, n ensures IsAlias(lines, o, n) <==> o == a && n == odd {
      var counts := (EvidenceCount(lines, o, n), EvidenceCount(lines, o, odd));
    }
    forall o, n ensures IsAlias(once, o, n) <==> (o == a || o == b) && n == odd {
      var counts := (EvidenceCount(once, o, n), EvidenceCount(once, o, odd));
    }
    assert RewriteLine(once[4], map[a := odd, b := odd], carried) != once[4];
  }

  /** Such names there are. */
  lemma EvidenceInANameBreaksIdempotence()
    ensures var odd, carried := "was: sub_2, f", map["was: sub_2, f" := "sub_2"];
            var lines := OddProgram(odd, "sub_1", "sub_2");
            var once := RewriteLines(lines, map["sub_1" := odd], carried);
            && AreAliases(lines, map["sub_1" := odd]) && AreAliases(once, map["sub_1" := odd, "sub_2" := odd])
            && RewriteLines(once, map["sub_1" := odd, "sub_2" := odd], carried) != once
  {
    assert "was: sub_2, f"[0] == 'w' && "sub_1"[4] == '1' && "sub_2"[4] == '2';
    assert "sub_"[0] == 's' && "fn_0x"[0] == 'f';
    OddNamesAreTakenUpLate("was: sub_2, f", "sub_1", "sub_2");
  }

  lemma CountsOfFive(a: Line, b: Line, c: Line, d: Line, e: Line)
    ensures forall o, n :: EvidenceCount([a, b, c, d, e], o, n) ==
              (if Evidence(a, n, o) then 1 else 0) + (if Evidence(b, n, o) then 1 else 0) +
                (if Evidence(c, n, o) then 1 else 0)
              + (if Evidence(d, n, o) then 1 else 0) + (if Evidence(e, n, o) then 1 else 0)
    ensures forall o :: ReferenceCount([a, b, c, d, e], o) ==
              (if RefersTo(a, o) then 1 else 0) + (if RefersTo(b, o) then 1 else 0) + (if RefersTo(c, o) then 1 else 0)
              + (if RefersTo(d, o) then 1 else 0) + (if RefersTo(e, o) then 1 else 0)
  {
    CountsGrow([], a);
    CountsGrow([a], b);
    CountsGrow([a, b], c);
    CountsGrow([a, b, c], d);
    CountsGrow([a, b, c, d], e);
    assert [] + [a] == [a] && [a] + [b] == [a, b] && [a, b] + [c] == [a, b, c];
    assert [a, b, c] + [d] == [a, b, c, d] && [a, b, c, d] + [e] == [a, b, c, d, e];
  }
}
