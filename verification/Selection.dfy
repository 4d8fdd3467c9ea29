/** Capped function selection: boot-flow seeds first, then a diversity pass, then what diversity deferred. */
module Selection {
  import opened Collections
  import opened Text

  const MAX_PER_NAME: nat := 2
  const MAX_PER_OWNER_NAME: nat := 1

  datatype Candidate = Candidate(id: nat, entryVa: nat, size: nat, name: Option<string>, owner: Option<string>,
                                 score: int)
  {
    function NameText(): string {
      if name.Some? then name.value else ""
    }

    function QualifiedText(): string {
      (if owner.Some? then owner.value else "") + "::" + NameText()
    }

    function NameKey(): string {
      if name.Some? then Lower(name.value) else ""
    }

    function OwnerNameKey(): string {
      (if owner.Some? then Lower(owner.value) else "") + "::" + NameKey()
    }
  }

  datatype Disassembly = Disassembly(functionId: nat, entryVa: nat, size: nat)
  datatype Breakdown = Breakdown(functionId: nat, entryVa: nat, totalScore: int)

  /** Where the instruction bytes are: the address of the first one and how many there are. */
  datatype Window = Window(base: nat, length: nat)

  /** A function decodes when it starts inside the window and at least one word of it does too. */
  function DecodeFunction(c: Candidate, window: Window): (r: Option<Disassembly>)
    ensures r.Some? <==> window.base <= c.entryVa && c.entryVa + 4 <= window.base + window.length && 4 <= c.size
    ensures r.Some? ==>
              var d := r.value;
              && d.functionId == c.id && d.entryVa == c.entryVa && d.size <= c.size
              && d.entryVa + d.size <= window.base + window.length
              && (d.size == c.size || d.entryVa + d.size == window.base + window.length)
  {
    if c.entryVa < window.base || c.entryVa - window.base >= window.length then None
    else
      var size := Min(c.size, window.length - (c.entryVa - window.base));
      if size < 4 then None else Some(Disassembly(c.id, c.entryVa, size))
  }

  /** The candidates picked so far, by rank, with what the source accumulates beside them. */
  datatype Taken = Taken(picks: seq<nat>, out: seq<Disassembly>, priorities: seq<Breakdown>,
                         vas: set<nat>, names: map<string, nat>, owners: map<string, nat>)

  predicate InRange(ranked: seq<Candidate>, picks: seq<nat>) {
    forall k :: 0 <= k < |picks| ==> picks[k] < |ranked|
  }

  /** How many picks carry this name. */
  function NameCount(ranked: seq<Candidate>, picks: seq<nat>, name: string): nat
    requires InRange(ranked, picks)
  {
    if picks == [] then 0
    else NameCount(ranked, picks[..|picks| - 1], name) + if ranked[picks[|picks| - 1]].NameKey() == name then 1 else 0
  }

  /** How many picks carry this owner and name. */
  function OwnerCount(ranked: seq<Candidate>, picks: seq<nat>, owner: string): nat
    requires InRange(ranked, picks)
  {
    if picks == [] then 0
    else
      OwnerCount(ranked, picks[..|picks| - 1], owner) +
      if ranked[picks[|picks| - 1]].OwnerNameKey() == owner then 1 else 0
  }

  /** How many picks that have a name carry this owner and name. */
  function NamedOwnerCount(ranked: seq<Candidate>, picks: seq<nat>, owner: string): nat
    requires InRange(ranked, picks)
  {
    if picks == [] then 0
    else
      var c := ranked[picks[|picks| - 1]];
      NamedOwnerCount(ranked, picks[..|picks| - 1], owner) +
      if c.OwnerNameKey() == owner && c.NameKey() != "" then 1 else 0
  }

  lemma {:induction false} NamedOwnersAreOwners(ranked: seq<Candidate>, picks: seq<nat>, owner: string)
    requires InRange(ranked, picks)
    ensures NamedOwnerCount(ranked, picks, owner) <= OwnerCount(ranked, picks, owner)
  {
    if picks != [] {
      NamedOwnersAreOwners(ranked, picks[..|picks| - 1], owner);
    }
  }

  /** Counts after one more pick. */
  lemma CountsAfterPick(ranked: seq<Candidate>, picks: seq<nat>, i: nat, key: string)
    requires InRange(ranked, picks) && i < |ranked|
    ensures var c := ranked[i]; var more := picks + [i];
            && InRange(ranked, more)
            && NameCount(ranked, more, key) == NameCount(ranked, picks, key) + (if c.NameKey() == key then 1 else 0)
            && OwnerCount(ranked, more, key) ==
              OwnerCount(ranked, picks, key) + (if c.OwnerNameKey() == key then 1 else 0)
            && NamedOwnerCount(ranked, more, key) ==
               NamedOwnerCount(ranked, picks, key) + (if c.OwnerNameKey() == key && c.NameKey() != "" then 1 else 0)
  {
    assert (picks + [i])[..|picks|] == picks;
  }

  /** Pick `k` is a decoded candidate, and both output lists describe it at the same position. */
  predicate PickFits(ranked: seq<Candidate>, window: Window, t: Taken, k: nat) {
    && k < |t.picks| && k < |t.out| && k < |t.priorities| && t.picks[k] < |ranked|
    && var c := ranked[t.picks[k]];
    && DecodeFunction(c, window) == Some(t.out[k])
    && t.priorities[k] == Breakdown(c.id, c.entryVa, c.score)
  }

  /** Some decoded function starts at `va`. */
  predicate Holds(out: seq<Disassembly>, va: nat) {
    exists k :: 0 <= k < |out| && out[k].entryVa == va
  }

  /** Outputs aligned with the picks, whose entry addresses are pairwise distinct and collected in `vas`. */
  ghost predicate Aligned(ranked: seq<Candidate>, window: Window, t: Taken) {
    && |t.out| == |t.priorities| == |t.picks| == |t.vas|
    && (forall k: nat :: k < |t.picks| ==> PickFits(ranked, window, t, k))
    && (forall k: nat :: k < |t.picks| ==> t.out[k].entryVa in t.vas)
    && (forall va :: va in t.vas ==> Holds(t.out, va))
    && (forall j: nat, k: nat :: j < k < |t.out| ==> t.out[j].entryVa != t.out[k].entryVa)
    && t.vas <= DecodableVas(ranked, window)
  }

  ghost predicate Counted(ranked: seq<Candidate>, t: Taken)
    requires InRange(ranked, t.picks)
  {
    && (forall key :: Tally(t.names, key) == NameCount(ranked, t.picks, key))
    && (forall key :: Tally(t.owners, key) == OwnerCount(ranked, t.picks, key))
  }

  ghost predicate Valid(ranked: seq<Candidate>, window: Window, t: Taken) {
    Aligned(ranked, window, t) && InRange(ranked, t.picks) && Counted(ranked, t)
  }

  /** The entry addresses some candidate decodes at. */
  ghost function DecodableVas(ranked: seq<Candidate>, window: Window): set<nat> {
    set i | 0 <= i < |ranked| && DecodeFunction(ranked[i], window).Some? :: ranked[i].entryVa
  }

  /** What picking candidate `i` does to the lists, the set and both counters. */
  function Take(ranked: seq<Candidate>, t: Taken, i: nat, d: Disassembly): Taken
    requires i < |ranked|
  {
    var c := ranked[i];
    Taken(t.picks + [i], t.out + [d], t.priorities + [Breakdown(c.id, c.entryVa, c.score)], t.vas + {c.entryVa},
          Bump(t.names, c.NameKey()), Bump(t.owners, c.OwnerNameKey()))
  }

  lemma TakingStaysAligned(ranked: seq<Candidate>, window: Window, t: Taken, i: nat, d: Disassembly)
    requires Aligned(ranked, window, t) && i < |ranked|
    requires ranked[i].entryVa !in t.vas && DecodeFunction(ranked[i], window) == Some(d)
    ensures Aligned(ranked, window, Take(ranked, t, i, d))
  {
    var u := Take(ranked, t, i, d);
    forall k: nat | k < |u.picks| ensures PickFits(ranked, window, u, k) {
      if k < |t.picks| { assert PickFits(ranked, window, t, k); }
    }
    forall k: nat | k < |u.picks| ensures u.out[k].entryVa in u.vas {
      if k < |t.picks| { assert t.out[k].entryVa in t.vas; }
    }
    forall va | va in u.vas ensures Holds(u.out, va) {
      if va in t.vas {
        assert Holds(t.out, va);
        var k :| 0 <= k < |t.out| && t.out[k].entryVa == va;
        assert u.out[k].entryVa == va;
      } else {
        assert u.out[|t.out|].entryVa == va;
      }
    }
  }

  lemma TakingStaysValid(ranked: seq<Candidate>, window: Window, t: Taken, i: nat, d: Disassembly)
    requires Valid(ranked, window, t) && i < |ranked|
    requires ranked[i].entryVa !in t.vas && DecodeFunction(ranked[i], window) == Some(d)
    ensures Valid(ranked, window, Take(ranked, t, i, d))
  {
    TakingStaysAligned(ranked, window, t, i, d);
    forall key
      ensures Tally(Take(ranked, t, i, d).names, key) == NameCount(ranked, t.picks + [i], key)
      ensures Tally(Take(ranked, t, i, d).owners, key) == OwnerCount(ranked, t.picks + [i], key)
    {
      CountsAfterPick(ranked, t.picks, i, key);
    }
  }

  /** The name is taken often enough for the first pass to put the candidate off. */
  ghost predicate Capped(ranked: seq<Candidate>, picks: seq<nat>, c: Candidate)
    requires InRange(ranked, picks)
  {
    && c.NameKey() != ""
    && (NameCount(ranked, picks, c.NameKey()) >= MAX_PER_NAME ||
        OwnerCount(ranked, picks, c.OwnerNameKey()) >= MAX_PER_OWNER_NAME)
  }

  /** No name, and no named owner, is chosen more often than its cap, unless the seeds already did that. */
  ghost predicate CapsHold(ranked: seq<Candidate>, seeded: seq<nat>, picks: seq<nat>)
    requires InRange(ranked, seeded) && InRange(ranked, picks)
  {
    && (forall name :: name != "" ==>
        NameCount(ranked, picks, name) <= Max(MAX_PER_NAME, NameCount(ranked, seeded, name)))
    && (forall owner ::
        NamedOwnerCount(ranked, picks, owner) <= Max(MAX_PER_OWNER_NAME, NamedOwnerCount(ranked, seeded, owner)))
  }

  lemma PickingUncappedKeepsCaps(ranked: seq<Candidate>, seeded: seq<nat>, picks: seq<nat>, i: nat)
    requires InRange(ranked, seeded) && InRange(ranked, picks) && i < |ranked|
    requires CapsHold(ranked, seeded, picks) && !Capped(ranked, picks, ranked[i])
    ensures InRange(ranked, picks + [i]) && CapsHold(ranked, seeded, picks + [i])
  {
    forall key
      ensures key != "" ==> NameCount(ranked, picks + [i], key) <= Max(MAX_PER_NAME, NameCount(ranked, seeded, key))
      ensures NamedOwnerCount(ranked, picks + [i], key) <= Max(MAX_PER_OWNER_NAME, NamedOwnerCount(ranked, seeded, key))
    {
      CountsAfterPick(ranked, picks, i, key);
      NamedOwnersAreOwners(ranked, picks, key);
    }
  }

  lemma CappedStaysCapped(ranked: seq<Candidate>, picks: seq<nat>, i: nat, c: Candidate)
    requires InRange(ranked, picks) && i < |ranked| && Capped(ranked, picks, c)
    ensures InRange(ranked, picks + [i]) && Capped(ranked, picks + [i], c)
  {
    CountsAfterPick(ranked, picks, i, c.NameKey());
    CountsAfterPick(ranked, picks, i, c.OwnerNameKey());
  }

  // ---- The caps, by what names are spelled like ------------------------------------------------

  lemma QualifiedKeyIs(c: Candidate)
    ensures c.OwnerNameKey() == Lower(c.QualifiedText())
  {
    var owner := if c.owner.Some? then c.owner.value else "";
    assert Lower(owner + "::" + c.NameText()) == Lower(owner) + "::" + Lower(c.NameText());
  }

  /** Keys tell names apart, and owners with names, but for the case of letters. */
  lemma KeysAreSpellings(a: Candidate, b: Candidate)
    ensures a.NameKey() == b.NameKey() <==> SameButCase(a.NameText(), b.NameText())
    ensures a.OwnerNameKey() == b.OwnerNameKey() <==> SameButCase(a.QualifiedText(), b.QualifiedText())
    ensures a.NameKey() == "" <==> a.NameText() == ""
  {
    QualifiedKeyIs(a);
    QualifiedKeyIs(b);
    LowerForgetsOnlyCase(a.NameText(), b.NameText());
    LowerForgetsOnlyCase(a.QualifiedText(), b.QualifiedText());
  }

  /** Pick `k` has a name spelled like that of `c`. */
  ghost function NamedLike(ranked: seq<Candidate>, picks: seq<nat>, c: Candidate): nat -> bool {
    (k: nat) => k < |picks| && picks[k] < |ranked| && SameButCase(ranked[picks[k]].NameText(), c.NameText())
  }

  /** Pick `k` has an owner and name spelled like those of `c`. */
  ghost function QualifiedLike(ranked: seq<Candidate>, picks: seq<nat>, c: Candidate): nat -> bool {
    (k: nat) => k < |picks| && picks[k] < |ranked| && SameButCase(ranked[picks[k]].QualifiedText(), c.QualifiedText())
  }

  ghost function NamedQualifiedLike(ranked: seq<Candidate>, picks: seq<nat>, c: Candidate): nat -> bool {
    (k: nat) => k < |picks| && picks[k] < |ranked| && ranked[picks[k]].NameText() != ""
      && SameButCase(ranked[picks[k]].QualifiedText(), c.QualifiedText())
  }

  /** How many picks are. */
  ghost function Count(picks: seq<nat>, like: nat -> bool): nat {
    |Where(|picks|, like)|
  }

  lemma {:induction false} NameCountIs(ranked: seq<Candidate>, picks: seq<nat>, c: Candidate, n: nat)
    requires InRange(ranked, picks) && n <= |picks|
    ensures NameCount(ranked, picks[..n], c.NameKey()) == |Where(n, NamedLike(ranked, picks, c))|
  {
    if n > 0 {
      NameCountIs(ranked, picks, c, n - 1);
      OneMoreWhere(n - 1, NamedLike(ranked, picks, c));
      KeysAreSpellings(ranked[picks[n - 1]], c);
      assert picks[..n][..n - 1] == picks[..n - 1];
    }
  }

  lemma {:induction false} OwnerCountIs(ranked: seq<Candidate>, picks: seq<nat>, c: Candidate, n: nat)
    requires InRange(ranked, picks) && n <= |picks|
    ensures OwnerCount(ranked, picks[..n], c.OwnerNameKey()) == |Where(n, QualifiedLike(ranked, picks, c))|
  {
    if n > 0 {
      OwnerCountIs(ranked, picks, c, n - 1);
      OneMoreWhere(n - 1, QualifiedLike(ranked, picks, c));
      KeysAreSpellings(ranked[picks[n - 1]], c);
      assert picks[..n][..n - 1] == picks[..n - 1];
    }
  }

  lemma {:induction false} NamedOwnerCountIs(ranked: seq<Candidate>, picks: seq<nat>, c: Candidate, n: nat)
    requires InRange(ranked, picks) && n <= |picks|
    ensures NamedOwnerCount(ranked, picks[..n], c.OwnerNameKey()) == |Where(n, NamedQualifiedLike(ranked, picks, c))|
  {
    if n > 0 {
      NamedOwnerCountIs(ranked, picks, c, n - 1);
      OneMoreWhere(n - 1, NamedQualifiedLike(ranked, picks, c));
      KeysAreSpellings(ranked[picks[n - 1]], c);
      assert picks[..n][..n - 1] == picks[..n - 1];
    }
  }

  /** The counters count picks that are spelled alike. */
  lemma CountsAreSpellings(ranked: seq<Candidate>, picks: seq<nat>, c: Candidate)
    requires InRange(ranked, picks)
    ensures NameCount(ranked, picks, c.NameKey()) == Count(picks, NamedLike(ranked, picks, c))
    ensures OwnerCount(ranked, picks, c.OwnerNameKey()) == Count(picks, QualifiedLike(ranked, picks, c))
    ensures NamedOwnerCount(ranked, picks, c.OwnerNameKey()) == Count(picks, NamedQualifiedLike(ranked, picks, c))
  {
    assert picks[..|picks|] == picks;
    NameCountIs(ranked, picks, c, |picks|);
    OwnerCountIs(ranked, picks, c, |picks|);
    NamedOwnerCountIs(ranked, picks, c, |picks|);
  }

  /** A candidate is capped when it has a name, and two picks are named like it or one has its owner and name. */
  lemma CappedBySpelling(ranked: seq<Candidate>, picks: seq<nat>, c: Candidate)
    requires InRange(ranked, picks)
    ensures Capped(ranked, picks, c) <==>
            && c.NameText() != ""
            && (Count(picks, NamedLike(ranked, picks, c)) >= 2 || Count(picks, QualifiedLike(ranked, picks, c)) >= 1)
  {
    CountsAreSpellings(ranked, picks, c);
    KeysAreSpellings(c, c);
  }

  /** So while the caps hold no name is taken more than twice and no named owner more than once, but by the seeds. */
  lemma CapsBySpelling(ranked: seq<Candidate>, seeded: seq<nat>, picks: seq<nat>, c: Candidate)
    requires InRange(ranked, seeded) && InRange(ranked, picks) && CapsHold(ranked, seeded, picks)
    requires c.NameText() != ""
    ensures Count(picks, NamedLike(ranked, picks, c)) <= Max(2, Count(seeded, NamedLike(ranked, seeded, c)))
    ensures Count(picks, NamedQualifiedLike(ranked, picks, c)) <=
            Max(1, Count(seeded, NamedQualifiedLike(ranked, seeded, c)))
  {
    CountsAreSpellings(ranked, picks, c);
    CountsAreSpellings(ranked, seeded, c);
    KeysAreSpellings(c, c);
  }

  /** The pass has dealt with candidate `j`: it does not decode, its address is taken, or it was put off. */
  ghost predicate Dealt(ranked: seq<Candidate>, window: Window, vas: set<nat>, deferred: seq<nat>, j: nat)
    requires j < |ranked|
  {
    DecodeFunction(ranked[j], window).None? || ranked[j].entryVa in vas || j in deferred
  }

  /** The first candidate at this address. */
  method FindByVa(ranked: seq<Candidate>, va: nat) returns (found: Option<nat>)
    ensures found.None? ==> forall j :: 0 <= j < |ranked| ==> ranked[j].entryVa != va
    ensures found.Some? ==> FirstAt(ranked, va, found.value)
  {
    for i := 0 to |ranked|
      invariant forall j :: 0 <= j < i ==> ranked[j].entryVa != va
    {
      if ranked[i].entryVa == va {
        return Some(i);
      }
    }
    return None;
  }

  predicate Distinct(s: seq<nat>) {
    forall j, k :: 0 <= j < k < |s| ==> s[j] != s[k]
  }

  predicate FromSeeds(ranked: seq<Candidate>, picks: seq<nat>, seeds: seq<nat>)
    requires InRange(ranked, picks)
  {
    forall k :: 0 <= k < |picks| ==> ranked[picks[k]].entryVa in seeds
  }

  /** `i` is the best-ranked candidate at the address. */
  predicate FirstAt(ranked: seq<Candidate>, va: nat, i: nat) {
    i < |ranked| && ranked[i].entryVa == va && forall j :: 0 <= j < i ==> ranked[j].entryVa != va
  }

  /** Each of the first `n` seeds whose best-ranked candidate decodes is among the outputs. */
  ghost predicate SeedsTaken(ranked: seq<Candidate>, window: Window, out: seq<Disassembly>, seeds: seq<nat>, n: nat)
    requires n <= |seeds|
  {
    forall s, i: nat :: 0 <= s < n && FirstAt(ranked, seeds[s], i) && DecodeFunction(ranked[i], window).Some? ==>
      Holds(out, seeds[s])
  }

  lemma SeedsStayTaken(ranked: seq<Candidate>, window: Window, out: seq<Disassembly>, seeds: seq<nat>, n: nat,
                       d: Disassembly)
    requires n <= |seeds| && SeedsTaken(ranked, window, out, seeds, n)
    ensures SeedsTaken(ranked, window, out + [d], seeds, n)
  {
    forall s, i: nat | 0 <= s < n && FirstAt(ranked, seeds[s], i) && DecodeFunction(ranked[i], window).Some?
      ensures Holds(out + [d], seeds[s]) {
      assert Holds(out, seeds[s]);
      var k :| 0 <= k < |out| && out[k].entryVa == seeds[s];
      assert (out + [d])[k].entryVa == seeds[s];
    }
  }

  lemma OneMoreSeed(ranked: seq<Candidate>, window: Window, out: seq<Disassembly>, seeds: seq<nat>, n: nat,
                    found: Option<nat>)
    requires n < |seeds| && SeedsTaken(ranked, window, out, seeds, n)
    requires found.None? ==> forall j :: 0 <= j < |ranked| ==> ranked[j].entryVa != seeds[n]
    requires found.Some? ==> FirstAt(ranked, seeds[n], found.value)
    requires found.Some? && DecodeFunction(ranked[found.value], window).Some? ==> Holds(out, seeds[n])
    ensures SeedsTaken(ranked, window, out, seeds, n + 1)
  {
    forall i: nat | FirstAt(ranked, seeds[n], i) && DecodeFunction(ranked[i], window).Some?
      ensures Holds(out, seeds[n]) {
      assert found.Some? && found.value == i;
    }
  }

  /** Only seeds are picked, among the first `n`, and each of these that decodes is. */
  ghost predicate SeedPicks(ranked: seq<Candidate>, window: Window, picks: seq<nat>, out: seq<Disassembly>,
                            vas: set<nat>, seeds: seq<nat>, n: nat) {
    && n <= |seeds| && InRange(ranked, picks) && FromSeeds(ranked, picks, seeds)
    && (forall va :: va in vas ==> va in seeds[..n]) && SeedsTaken(ranked, window, out, seeds, n)
  }

  /** What the seed pass keeps, having looked at the first `n` seeds. */
  ghost predicate SeedPassing(ranked: seq<Candidate>, window: Window, t: Taken, seeds: seq<nat>, n: nat) {
    Valid(ranked, window, t) && SeedPicks(ranked, window, t.picks, t.out, t.vas, seeds, n)
  }

  lemma SeedPicksGrow(ranked: seq<Candidate>, window: Window, picks: seq<nat>, out: seq<Disassembly>, vas: set<nat>,
                      seeds: seq<nat>, n: nat, i: nat, d: Disassembly)
    requires SeedPicks(ranked, window, picks, out, vas, seeds, n) && n < |seeds|
    requires FirstAt(ranked, seeds[n], i) && d.entryVa == seeds[n]
    ensures SeedPicks(ranked, window, picks + [i], out + [d], vas + {seeds[n]}, seeds, n + 1)
  {
    assert seeds[..n + 1] == seeds[..n] + [seeds[n]];
    SeedsStayTaken(ranked, window, out, seeds, n, d);
    assert (out + [d])[|out|].entryVa == seeds[n];
    OneMoreSeed(ranked, window, out + [d], seeds, n, Some(i));
  }

  lemma NotTakenBefore(vas: set<nat>, seeds: seq<nat>, n: nat)
    requires Distinct(seeds) && n < |seeds| && forall va :: va in vas ==> va in seeds[..n]
    ensures seeds[n] !in vas
  {
  }

  lemma SeedPassTakes(ranked: seq<Candidate>, window: Window, t: Taken, seeds: seq<nat>, n: nat, i: nat, d: Disassembly)
    requires SeedPassing(ranked, window, t, seeds, n) && Distinct(seeds) && n < |seeds|
    requires FirstAt(ranked, seeds[n], i) && DecodeFunction(ranked[i], window) == Some(d)
    ensures SeedPassing(ranked, window, Take(ranked, t, i, d), seeds, n + 1)
  {
    NotTakenBefore(t.vas, seeds, n);
    TakingStaysValid(ranked, window, t, i, d);
    SeedPicksGrow(ranked, window, t.picks, t.out, t.vas, seeds, n, i, d);
  }

  lemma SeedPassSkips(ranked: seq<Candidate>, window: Window, t: Taken, seeds: seq<nat>, n: nat, found: Option<nat>)
    requires SeedPassing(ranked, window, t, seeds, n) && n < |seeds|
    requires found.None? ==> forall j :: 0 <= j < |ranked| ==> ranked[j].entryVa != seeds[n]
    requires found.Some? ==> FirstAt(ranked, seeds[n], found.value) && DecodeFunction(ranked[found.value], window).None?
    ensures SeedPassing(ranked, window, t, seeds, n + 1)
  {
    assert seeds[..n + 1] == seeds[..n] + [seeds[n]];
    OneMoreSeed(ranked, window, t.out, seeds, n, found);
  }

  /** Take each seed's best-ranked candidate, uncapped. */
  method SeedPass(ranked: seq<Candidate>, window: Window, max: nat, seeds: seq<nat>) returns (t: Taken, seen: nat)
    requires Distinct(seeds)
    ensures SeedPassing(ranked, window, t, seeds, seen)
    ensures |t.out| <= max && (|t.out| < max ==> seen == |seeds|)
  {
    t, seen := Taken([], [], [], {}, map[], map[]), 0;
    while seen < |seeds| && |t.out| < max
      invariant SeedPassing(ranked, window, t, seeds, seen) && |t.out| <= max
    {
      var found := FindByVa(ranked, seeds[seen]);
      var d := if found.Some? then DecodeFunction(ranked[found.value], window) else None;
      if d.Some? {
        SeedPassTakes(ranked, window, t, seeds, seen, found.value, d.value);
        t := Take(ranked, t, found.value, d.value);
      } else {
        SeedPassSkips(ranked, window, t, seeds, seen, found);
      }
      seen := seen + 1;
    }
  }

  predicate AscendingBelow(s: seq<nat>, bound: nat) {
    StrictlyAscending(s) && forall k :: 0 <= k < |s| ==> s[k] < bound
  }

  ghost predicate AllCapped(ranked: seq<Candidate>, picks: seq<nat>, deferred: seq<nat>)
    requires InRange(ranked, picks) && InRange(ranked, deferred)
  {
    forall j :: 0 <= j < |deferred| ==> Capped(ranked, picks, ranked[deferred[j]])
  }

  ghost predicate AllDealt(ranked: seq<Candidate>, window: Window, vas: set<nat>, deferred: seq<nat>, n: nat)
    requires n <= |ranked|
  {
    forall j: nat {:trigger Dealt(ranked, window, vas, deferred, j)} ::
      j < n ==> Dealt(ranked, window, vas, deferred, j)
  }

  /** Picks behind the seeds in ranking order within the caps, and every candidate before `i` dealt with. */
  ghost predicate FirstPicks(ranked: seq<Candidate>, window: Window, seeded: seq<nat>, picks: seq<nat>, vas: set<nat>,
                             early: seq<nat>, deferred: seq<nat>, i: nat) {
    && i <= |ranked| && InRange(ranked, seeded) && InRange(ranked, picks)
    && picks == seeded + early && CapsHold(ranked, seeded, picks)
    && AscendingBelow(early, i) && AscendingBelow(deferred, i)
    && AllCapped(ranked, picks, deferred) && AllDealt(ranked, window, vas, deferred, i)
  }

  /** What the first pass keeps, having looked at the first `i` candidates and picked `early`. */
  ghost predicate FirstPassing(ranked: seq<Candidate>, window: Window, seeded: seq<nat>, t: Taken, early: seq<nat>,
                               deferred: seq<nat>, i: nat) {
    Valid(ranked, window, t) && FirstPicks(ranked, window, seeded, t.picks, t.vas, early, deferred, i)
  }

  lemma DealtAfterTaking(ranked: seq<Candidate>, window: Window, vas: set<nat>, deferred: seq<nat>, i: nat)
    requires i < |ranked| && AllDealt(ranked, window, vas, deferred, i)
    ensures AllDealt(ranked, window, vas + {ranked[i].entryVa}, deferred, i + 1)
  {
    forall j: nat | j < i + 1 ensures Dealt(ranked, window, vas + {ranked[i].entryVa}, deferred, j) {
      if j < i { assert Dealt(ranked, window, vas, deferred, j); }
    }
  }

  lemma AllCappedStays(ranked: seq<Candidate>, picks: seq<nat>, i: nat, deferred: seq<nat>)
    requires InRange(ranked, picks) && InRange(ranked, deferred) && i < |ranked| && AllCapped(ranked, picks, deferred)
    ensures InRange(ranked, picks + [i]) && AllCapped(ranked, picks + [i], deferred)
  {
    forall j | 0 <= j < |deferred|
      ensures InRange(ranked, picks + [i]) && Capped(ranked, picks + [i], ranked[deferred[j]]) {
      CappedStaysCapped(ranked, picks, i, ranked[deferred[j]]);
    }
  }

  lemma FirstPicksGrow(ranked: seq<Candidate>, window: Window, seeded: seq<nat>, picks: seq<nat>, vas: set<nat>,
                       early: seq<nat>, deferred: seq<nat>, i: nat)
    requires FirstPicks(ranked, window, seeded, picks, vas, early, deferred, i) && i < |ranked|
    requires !Capped(ranked, picks, ranked[i])
    ensures FirstPicks(ranked, window, seeded, picks + [i], vas + {ranked[i].entryVa}, early + [i], deferred, i + 1)
  {
    PickingUncappedKeepsCaps(ranked, seeded, picks, i);
    AllCappedStays(ranked, picks, i, deferred);
    assert picks + [i] == seeded + (early + [i]);
    DealtAfterTaking(ranked, window, vas, deferred, i);
  }

  lemma FirstPassTakes(ranked: seq<Candidate>, window: Window, seeded: seq<nat>, t: Taken, early: seq<nat>,
                       deferred: seq<nat>, i: nat, d: Disassembly)
    requires FirstPassing(ranked, window, seeded, t, early, deferred, i) && i < |ranked|
    requires ranked[i].entryVa !in t.vas && !Capped(ranked, t.picks, ranked[i])
    requires DecodeFunction(ranked[i], window) == Some(d)
    ensures FirstPassing(ranked, window, seeded, Take(ranked, t, i, d), early + [i], deferred, i + 1)
  {
    TakingStaysValid(ranked, window, t, i, d);
    FirstPicksGrow(ranked, window, seeded, t.picks, t.vas, early, deferred, i);
  }

  lemma FirstPassDefers(ranked: seq<Candidate>, window: Window, seeded: seq<nat>, t: Taken, early: seq<nat>,
                        deferred: seq<nat>, i: nat)
    requires FirstPassing(ranked, window, seeded, t, early, deferred, i) && i < |ranked|
    requires Capped(ranked, t.picks, ranked[i])
    ensures FirstPassing(ranked, window, seeded, t, early, deferred + [i], i + 1)
  {
    assert (deferred + [i])[|deferred|] == i;
    forall j: nat | j < i + 1 ensures Dealt(ranked, window, t.vas, deferred + [i], j) {
      if j < i { assert Dealt(ranked, window, t.vas, deferred, j); }
    }
  }

  lemma FirstPassSkips(ranked: seq<Candidate>, window: Window, seeded: seq<nat>, t: Taken, early: seq<nat>,
                       deferred: seq<nat>, i: nat)
    requires FirstPassing(ranked, window, seeded, t, early, deferred, i) && i < |ranked|
    requires ranked[i].entryVa in t.vas || DecodeFunction(ranked[i], window).None?
    ensures FirstPassing(ranked, window, seeded, t, early, deferred, i + 1)
  {
    assert Dealt(ranked, window, t.vas, deferred, i);
  }

  /** Take in ranking order, putting off every candidate whose name is already taken up to its cap. */
  method FirstPass(ranked: seq<Candidate>, window: Window, max: nat, seeded: Taken)
    returns (t: Taken, early: seq<nat>, deferred: seq<nat>, seen: nat)
    requires Valid(ranked, window, seeded) && |seeded.out| <= max
    ensures FirstPassing(ranked, window, seeded.picks, t, early, deferred, seen) && seeded.out <= t.out
    ensures |t.out| <= max && (|t.out| < max ==> seen == |ranked|)
  {
    t, early, deferred, seen := seeded, [], [], 0;
    while seen < |ranked| && |t.out| < max
      invariant FirstPassing(ranked, window, seeded.picks, t, early, deferred, seen) && |t.out| <= max &&
                seeded.out <= t.out
    {
      var c := ranked[seen];
      if c.entryVa in t.vas {
        FirstPassSkips(ranked, window, seeded.picks, t, early, deferred, seen);
      } else if c.NameKey() != "" && (Tally(t.names, c.NameKey()) >= MAX_PER_NAME ||
                                      Tally(t.owners, c.OwnerNameKey()) >= MAX_PER_OWNER_NAME) {
        FirstPassDefers(ranked, window, seeded.picks, t, early, deferred, seen);
        deferred := deferred + [seen];
      } else {
        var d := DecodeFunction(c, window);
        if d.Some? {
          FirstPassTakes(ranked, window, seeded.picks, t, early, deferred, seen, d.value);
          t, early := Take(ranked, t, seen, d.value), early + [seen];
        } else {
          FirstPassSkips(ranked, window, seeded.picks, t, early, deferred, seen);
        }
      }
      seen := seen + 1;
    }
  }

  ghost predicate LateDealt(ranked: seq<Candidate>, window: Window, vas: set<nat>, deferred: seq<nat>, n: nat)
    requires n <= |deferred| && InRange(ranked, deferred)
  {
    forall j :: 0 <= j < n ==> Dealt(ranked, window, vas, [], deferred[j])
  }

  predicate AllIn(late: seq<nat>, deferred: seq<nat>) {
    forall k :: 0 <= k < |late| ==> late[k] in deferred
  }

  /** Late picks come from the first `n` deferred candidates, in order, and each of those is dealt with. */
  ghost predicate LatePicks(ranked: seq<Candidate>, window: Window, vas: set<nat>, late: seq<nat>, deferred: seq<nat>,
                            n: nat) {
    && n <= |deferred| && InRange(ranked, deferred)
    && StrictlyAscending(late) && AllIn(late, deferred[..n]) && LateDealt(ranked, window, vas, deferred, n)
  }

  /** What the deferred pass keeps, having looked at the first `n` deferred candidates and picked `late`. */
  ghost predicate DeferredPassing(ranked: seq<Candidate>, window: Window, passed: Taken, t: Taken, late: seq<nat>,
                                  deferred: seq<nat>, n: nat) {
    && Valid(ranked, window, t) && LatePicks(ranked, window, t.vas, late, deferred, n)
    && t.picks == passed.picks + late && passed.out <= t.out && passed.vas <= t.vas
  }

  lemma LateGrows(late: seq<nat>, deferred: seq<nat>, n: nat)
    requires n < |deferred| && StrictlyAscending(deferred) && StrictlyAscending(late) && AllIn(late, deferred[..n])
    ensures StrictlyAscending(late + [deferred[n]]) && AllIn(late + [deferred[n]], deferred[..n + 1])
  {
    assert deferred[..n + 1] == deferred[..n] + [deferred[n]];
    forall k | 0 <= k < |late| ensures late[k] < deferred[n] {
      var j :| 0 <= j < n && deferred[j] == late[k];
    }
  }

  lemma LatePicksGrow(ranked: seq<Candidate>, window: Window, vas: set<nat>, late: seq<nat>, deferred: seq<nat>, n: nat)
    requires LatePicks(ranked, window, vas, late, deferred, n) && n < |deferred| && StrictlyAscending(deferred)
    ensures LatePicks(ranked, window, vas + {ranked[deferred[n]].entryVa}, late + [deferred[n]], deferred, n + 1)
  {
    LateGrows(late, deferred, n);
  }

  lemma DeferredPassTakes(ranked: seq<Candidate>, window: Window, passed: Taken, t: Taken, late: seq<nat>,
                          deferred: seq<nat>, n: nat, d: Disassembly)
    requires DeferredPassing(ranked, window, passed, t, late, deferred, n)
    requires n < |deferred| && StrictlyAscending(deferred)
    requires ranked[deferred[n]].entryVa !in t.vas && DecodeFunction(ranked[deferred[n]], window) == Some(d)
    ensures DeferredPassing(ranked, window, passed, Take(ranked, t, deferred[n], d), late + [deferred[n]], deferred,
                            n + 1)
  {
    TakingStaysValid(ranked, window, t, deferred[n], d);
    LatePicksGrow(ranked, window, t.vas, late, deferred, n);
  }

  lemma DeferredPassSkips(ranked: seq<Candidate>, window: Window, passed: Taken, t: Taken, late: seq<nat>,
                          deferred: seq<nat>, n: nat)
    requires DeferredPassing(ranked, window, passed, t, late, deferred, n) && n < |deferred|
    requires ranked[deferred[n]].entryVa in t.vas || DecodeFunction(ranked[deferred[n]], window).None?
    ensures DeferredPassing(ranked, window, passed, t, late, deferred, n + 1)
  {
    assert deferred[..n + 1] == deferred[..n] + [deferred[n]];
  }

  /** Fill what room is left from the deferred candidates, in ranking order. */
  method DeferredPass(ranked: seq<Candidate>, window: Window, max: nat, passed: Taken, deferred: seq<nat>)
    returns (t: Taken, late: seq<nat>, seen: nat)
    requires Valid(ranked, window, passed) && |passed.out| <= max && StrictlyAscending(deferred) &&
             InRange(ranked, deferred)
    ensures DeferredPassing(ranked, window, passed, t, late, deferred, seen)
    ensures |t.out| <= max && (|t.out| < max ==> seen == |deferred|) && (late != [] ==> |passed.out| < max)
  {
    t, late, seen := passed, [], 0;
    while seen < |deferred| && |t.out| < max
      invariant DeferredPassing(ranked, window, passed, t, late, deferred, seen) && |t.out| <= max
      invariant late != [] ==> |passed.out| < max
    {
      var i := deferred[seen];
      var d := DecodeFunction(ranked[i], window);
      if ranked[i].entryVa !in t.vas && d.Some? {
        DeferredPassTakes(ranked, window, passed, t, late, deferred, seen, d.value);
        t, late := Take(ranked, t, i, d.value), late + [i];
      } else {
        DeferredPassSkips(ranked, window, passed, t, late, deferred, seen);
      }
      seen := seen + 1;
    }
  }

  lemma SubsetIsNoLarger(a: set<nat>, b: set<nat>)
    requires a <= b
    ensures |a| <= |b| && (|a| == |b| ==> a == b)
  {
    assert b == a + (b - a);
  }

  /** With room left over, nothing decodable was left out. */
  lemma CountIsExact(ranked: seq<Candidate>, window: Window, max: nat, t: Taken)
    requires Valid(ranked, window, t) && |t.out| <= max
    requires |t.out| < max ==> AllDealt(ranked, window, t.vas, [], |ranked|)
    ensures |t.out| == Min(max, |DecodableVas(ranked, window)|)
  {
    SubsetIsNoLarger(t.vas, DecodableVas(ranked, window));
    if |t.out| < max {
      forall va | va in DecodableVas(ranked, window) ensures va in t.vas {
        var j: nat :| j < |ranked| && DecodeFunction(ranked[j], window).Some? && ranked[j].entryVa == va;
        assert Dealt(ranked, window, t.vas, [], j);
      }
      assert t.vas == DecodableVas(ranked, window);
    }
  }

  lemma AllDealtInTheEnd(ranked: seq<Candidate>, window: Window, passed: Taken, t: Taken, late: seq<nat>,
                         deferred: seq<nat>)
    requires AllDealt(ranked, window, passed.vas, deferred, |ranked|)
    requires DeferredPassing(ranked, window, passed, t, late, deferred, |deferred|)
    ensures AllDealt(ranked, window, t.vas, [], |ranked|)
  {
    forall j: nat | j < |ranked| ensures Dealt(ranked, window, t.vas, [], j) {
      assert Dealt(ranked, window, passed.vas, deferred, j);
      if j in deferred {
        var k :| 0 <= k < |deferred| && deferred[k] == j;
        assert Dealt(ranked, window, t.vas, [], deferred[k]);
      }
    }
  }

  /** The caps the first pass kept, in the parts of the finished list; what follows was put off by a cap. */
  ghost predicate Diverse(ranked: seq<Candidate>, picks: seq<nat>, seedEnd: nat, passEnd: nat)
    requires InRange(ranked, picks) && seedEnd <= passEnd <= |picks|
  {
    && StrictlyAscending(picks[seedEnd..passEnd]) && StrictlyAscending(picks[passEnd..])
    && CapsHold(ranked, picks[..seedEnd], picks[..passEnd])
    && forall k :: passEnd <= k < |picks| ==> Capped(ranked, picks[..passEnd], ranked[picks[k]])
  }

  /** A first-pass pick, or any deferred pick, was made after candidate `j` had its turn. */
  ghost predicate PassedBy(picks: seq<nat>, seedEnd: nat, passEnd: nat, j: nat)
    requires seedEnd <= passEnd <= |picks|
  {
    passEnd < |picks| || exists k :: seedEnd <= k < passEnd && j < picks[k]
  }

  /** A decodable candidate is passed by only if its address is picked anyway or its name is capped. */
  ghost predicate NoneDisplaced(ranked: seq<Candidate>, window: Window, t: Taken, seedEnd: nat, passEnd: nat)
    requires seedEnd <= passEnd <= |t.picks| == |t.out| && InRange(ranked, t.picks)
  {
    forall j: nat ::
      j < |ranked| && DecodeFunction(ranked[j], window).Some? && PassedBy(t.picks, seedEnd, passEnd, j) ==>
      Capped(ranked, t.picks[..passEnd], ranked[j]) || Holds(t.out[..passEnd], ranked[j].entryVa)
  }

  lemma PartsAreDiverse(ranked: seq<Candidate>, seeded: seq<nat>, early: seq<nat>, deferred: seq<nat>, late: seq<nat>)
    requires InRange(ranked, seeded) && InRange(ranked, seeded + early) && InRange(ranked, deferred) &&
             InRange(ranked, seeded + early + late)
    requires StrictlyAscending(early) && StrictlyAscending(late) && CapsHold(ranked, seeded, seeded + early)
    requires AllCapped(ranked, seeded + early, deferred) && AllIn(late, deferred)
    ensures Diverse(ranked, seeded + early + late, |seeded|, |seeded + early|)
  {
    var passed := seeded + early;
    var picks := passed + late;
    assert picks[..|passed|] == passed && picks[..|seeded|] == seeded;
    assert picks[|seeded|..|passed|] == early && picks[|passed|..] == late;
    forall k | |passed| <= k < |picks| ensures Capped(ranked, passed, ranked[picks[k]]) {
      assert picks[k] == late[k - |passed|];
      var j :| 0 <= j < |deferred| && deferred[j] == picks[k];
    }
  }

  lemma TurnsCome(seeded: seq<nat>, early: seq<nat>, late: seq<nat>, seen: nat, j: nat)
    requires AscendingBelow(early, seen) && late == []
    requires PassedBy(seeded + early + late, |seeded|, |seeded + early|, j)
    ensures j < seen
  {
    var picks := seeded + early + late;
    var k :| |seeded| <= k < |seeded + early| && j < picks[k];
    assert picks[k] == early[k - |seeded|];
  }

  lemma NothingIsDisplaced(ranked: seq<Candidate>, window: Window, seeded: seq<nat>, passed: Taken, early: seq<nat>,
                           deferred: seq<nat>,
                           seen: nat, t: Taken, late: seq<nat>)
    requires |t.picks| == |t.out| && |passed.picks| == |passed.out| && InRange(ranked, t.picks) &&
             InRange(ranked, passed.picks)
    requires passed.picks == seeded + early && t.picks == passed.picks + late && passed.out <= t.out
    requires InRange(ranked, deferred) && AscendingBelow(early, seen) && seen <= |ranked| &&
             (late != [] ==> seen == |ranked|)
    requires AllDealt(ranked, window, passed.vas, deferred, seen) && AllCapped(ranked, passed.picks, deferred)
    requires forall va :: va in passed.vas ==> Holds(passed.out, va)
    ensures NoneDisplaced(ranked, window, t, |seeded|, |passed.picks|)
  {
    assert t.picks[..|passed.picks|] == passed.picks && t.out[..|passed.picks|] == passed.out;
    forall j: nat | j < |ranked| && DecodeFunction(ranked[j], window).Some? &&
      PassedBy(t.picks, |seeded|, |passed.picks|, j)
      ensures Capped(ranked, passed.picks, ranked[j]) || Holds(passed.out, ranked[j].entryVa)
    {
      if late == [] {
        TurnsCome(seeded, early, late, seen, j);
      }
      assert Dealt(ranked, window, passed.vas, deferred, j);
    }
  }

  /** Capped selection: aligned lists of distinct functions, as many as can be, no name crowding another out. */
  method SelectFunctions(ranked: seq<Candidate>, window: Window, max: nat, seeds: seq<nat>)
      returns (t: Taken, seedEnd: nat, passEnd: nat)
    requires Distinct(seeds)
    ensures Valid(ranked, window, t) && |t.out| == Min(max, |DecodableVas(ranked, window)|)
    ensures seedEnd <= passEnd <= |t.picks| && FromSeeds(ranked, t.picks[..seedEnd], seeds)
    ensures seedEnd < max ==> SeedsTaken(ranked, window, t.out[..seedEnd], seeds, |seeds|)
    ensures Diverse(ranked, t.picks, seedEnd, passEnd)
    ensures NoneDisplaced(ranked, window, t, seedEnd, passEnd)
  {
    var seeded, seedsSeen := SeedPass(ranked, window, max, seeds);
    var passed, early, deferred, seen := FirstPass(ranked, window, max, seeded);
    var late: seq<nat>, n: nat;
    t, late, n := DeferredPass(ranked, window, max, passed, deferred);
    seedEnd, passEnd := |seeded.picks|, |passed.picks|;
    if |t.out| < max {
      AllDealtInTheEnd(ranked, window, passed, t, late, deferred);
    }
    CountIsExact(ranked, window, max, t);
    PartsStand(ranked, window, seeded.picks, passed, early, deferred, seen, t, late, n);
    FrontOf(seeded.picks, passed.picks, t.picks);
    FrontOf(seeded.out, passed.out, t.out);
  }

  lemma FrontOf<T>(a: seq<T>, b: seq<T>, c: seq<T>)
    requires a <= b <= c
    ensures c[..|a|] == a
  {
  }

  lemma PartsStand(ranked: seq<Candidate>, window: Window, seeded: seq<nat>, passed: Taken, early: seq<nat>,
                   deferred: seq<nat>, seen: nat, t: Taken, late: seq<nat>, n: nat)
    requires FirstPassing(ranked, window, seeded, passed, early, deferred, seen) && (late != [] ==> seen == |ranked|)
    requires DeferredPassing(ranked, window, passed, t, late, deferred, n)
    ensures Diverse(ranked, t.picks, |seeded|, |passed.picks|)
    ensures NoneDisplaced(ranked, window, t, |seeded|, |passed.picks|)
  {
    assert forall x :: x in deferred[..n] ==> x in deferred;
    PartsAreDiverse(ranked, seeded, early, deferred, late);
    NothingIsDisplaced(ranked, window, seeded, passed, early, deferred, seen, t, late);
  }

  predicate InCategory(categories: map<nat, set<string>>, va: nat, category: string) {
    va in categories && category in categories[va]
  }

  method FindInCategory(ranked: seq<Candidate>, categories: map<nat, set<string>>, category: string, selected: set<nat>)
    returns (found: Option<nat>)
    ensures found.None? ==> forall j :: 0 <= j < |ranked| && InCategory(categories, ranked[j].entryVa, category) ==>
            ranked[j].entryVa in selected
    ensures found.Some? ==> found.value < |ranked| && ranked[found.value].entryVa !in selected
    ensures found.Some? ==> InCategory(categories, ranked[found.value].entryVa, category)
    ensures found.Some? ==> forall j :: 0 <= j < found.value && InCategory(categories, ranked[j].entryVa, category) ==>
            ranked[j].entryVa in selected
  {
    for i := 0 to |ranked|
      invariant forall j :: 0 <= j < i && InCategory(categories, ranked[j].entryVa, category) ==>
                ranked[j].entryVa in selected
    {
      if ranked[i].entryVa !in selected && InCategory(categories, ranked[i].entryVa, category) {
        return Some(i);
      }
    }
    return None;
  }

  /** Some seed belongs to the category. */
  predicate Represented(categories: map<nat, set<string>>, seeds: seq<nat>, category: string) {
    exists k :: 0 <= k < |seeds| && InCategory(categories, seeds[k], category)
  }

  predicate IsRanked(ranked: seq<Candidate>, va: nat) {
    exists j :: 0 <= j < |ranked| && ranked[j].entryVa == va
  }

  /** One seed a category: distinct addresses, and every category some candidate belongs to has a seed. */
  method CollectBootflowSeeds(ranked: seq<Candidate>, categories: map<nat, set<string>>, order: seq<string>)
      returns (seeds: seq<nat>)
    ensures Distinct(seeds) && |seeds| <= |order|
    ensures forall k :: 0 <= k < |seeds| ==> IsRanked(ranked, seeds[k])
    ensures forall c, j :: c in order && 0 <= j < |ranked| && InCategory(categories, ranked[j].entryVa, c) ==>
            Represented(categories, seeds, c)
  {
    var selected: set<nat> := {};
    seeds := [];
    for n := 0 to |order|
      invariant Distinct(seeds) && |seeds| <= n
      invariant forall va :: va in selected <==> va in seeds
      invariant forall k :: 0 <= k < |seeds| ==> IsRanked(ranked, seeds[k])
      invariant forall m, j ::
                  0 <= m < n && 0 <= j < |ranked| && InCategory(categories, ranked[j].entryVa, order[m]) ==>
                  Represented(categories, seeds, order[m])
    {
      var found := FindInCategory(ranked, categories, order[n], selected);
      ghost var before := seeds;
      if found.Some? {
        var va := ranked[found.value].entryVa;
        selected, seeds := selected + {va}, seeds + [va];
        assert seeds[|before|] == va;
        forall c | Represented(categories, before, c) ensures Represented(categories, seeds, c) {
          var k :| 0 <= k < |before| && InCategory(categories, before[k], c);
          assert seeds[k] == before[k];
        }
      } else {
        forall j | 0 <= j < |ranked| && InCategory(categories, ranked[j].entryVa, order[n])
          ensures Represented(categories, seeds, order[n]) {
          assert ranked[j].entryVa in seeds;
        }
      }
    }
  }
}
