/** The producer's code ranges: frame prologues and call targets, cut into non-overlapping guesses. */
module CodeRanges {
  import opened Collections
  import opened ProgramModel
  import PoolResolver

  const MAX_RANGE: nat := 0x8000

  /** The little-endian word at `off`. */
  function WordAt(code: string, off: nat): nat
    requires off + 4 <= |code|
  {
    code[off] as nat + 0x100 * (code[off + 1] as nat) + 0x1_0000 * (code[off + 2] as nat) +
      0x100_0000 * (code[off + 3] as nat)
  }

  /** Where a `bl` at `pc` goes; nothing for any other word. */
  function DecodeBlTarget(pc: int, word: nat): Option<int> {
    if (word / 0x400_0000) % 0x40 != 0x25 then None
    else
      var imm := word % 0x400_0000;
      Some(pc + 4 * (if imm >= 0x200_0000 then imm - 0x400_0000 else imm))
  }

  /** `stp x29, x30, [sp, ...]`, in any of its addressing forms. */
  predicate IsFramePrologue(word: nat) {
    (word / 0x4000_0000) % 4 == 2 && word % 0x20 == 29 && (word / 0x400) % 0x20 == 30 && (word / 0x20) % 0x20 == 31
  }

  /** The word at position `w` calls `target`, which lies in the region on a word boundary. */
  predicate Calls(code: string, base: nat, w: nat, target: int)
    requires 4 * w + 4 <= |code|
  {
    DecodeBlTarget(base + 4 * w, WordAt(code, 4 * w)) == Some(target) && InRegion(target, code, base)
  }

  /** A target inside the region, on a word. */
  predicate InRegion(target: int, code: string, base: nat) {
    base <= target < base + |code| && (target - base) % 4 == 0
  }

  /** How many of the first `n` words call `target`. */
  function CallCount(code: string, base: nat, n: nat, target: int): nat
    requires 4 * n <= |code|
  {
    if n == 0 then 0
    else CallCount(code, base, n - 1, target) + if Calls(code, base, n - 1, target) then 1 else 0
  }

  lemma OneMoreCounted(code: string, base: nat, n: nat, target: int)
    requires 4 * n + 4 <= |code|
    ensures CallCount(code, base, n + 1, target) ==
            CallCount(code, base, n, target) + if Calls(code, base, n, target) then 1 else 0
  {
  }

  /** A prologue sits at `address`. */
  predicate PrologueAt(code: string, base: nat, n: nat, address: int)
    requires 4 * n <= |code|
  {
    exists w :: 0 <= w < n && address == base + 4 * w && IsFramePrologue(WordAt(code, 4 * w))
  }

  /** What makes an address a guessed function start. */
  ghost predicate IsStart(code: string, base: nat, address: nat) {
    && base <= address < base + |code|
    && ((base != 0 && address == base) || PrologueAt(code, base, |code| / 4, address) ||
        CallCount(code, base, |code| / 4, address) >= 2)
  }

  lemma {:induction false} CountedTargetsLieInside(code: string, base: nat, n: nat, target: int)
    requires 4 * n <= |code| && CallCount(code, base, n, target) > 0
    ensures base <= target < base + |code|
  {
    if !Calls(code, base, n - 1, target) {
      CountedTargetsLieInside(code, base, n - 1, target);
    }
  }

  /** The counters hold, for every target, how many of the first `n` words call it. */
  ghost predicate CountsCalls(code: string, base: nat, n: nat, counts: map<nat, nat>)
    requires 4 * n <= |code|
  {
    forall t: nat :: CallCount(code, base, n, t) == if t in counts then counts[t] else 0
  }

  lemma OneMoreWord(code: string, base: nat, w: nat, counts: map<nat, nat>, target: Option<int>)
    requires 4 * w + 4 <= |code| && CountsCalls(code, base, w, counts)
    requires target == DecodeBlTarget(base + 4 * w, WordAt(code, 4 * w))
    ensures CountsCalls(code, base, w + 1,
                        if target.Some? && InRegion(target.value, code, base)
                        then counts[target.value := (if target.value in counts then counts[target.value] else 0) + 1]
                        else counts)
  {
    forall t: nat ensures CallCount(code, base, w + 1, t) ==
                          (if t in counts then counts[t] else 0) + if Calls(code, base, w, t) then 1 else 0 {
      assert CallCount(code, base, w, t) == if t in counts then counts[t] else 0;
    }
  }

  ghost predicate HoldsPrologues(code: string, base: nat, n: nat, prologues: set<nat>)
    requires 4 * n <= |code|
  {
    forall x: nat :: x in prologues <==> PrologueAt(code, base, n, x)
  }

  lemma OneMorePrologue(code: string, base: nat, w: nat, prologues: set<nat>)
    requires 4 * w + 4 <= |code| && HoldsPrologues(code, base, w, prologues)
    ensures HoldsPrologues(code, base, w + 1,
                           prologues + if IsFramePrologue(WordAt(code, 4 * w)) then {base + 4 * w} else {})
  {
  }

  method ScanWords(code: string, base: nat) returns (prologues: set<nat>, counts: map<nat, nat>)
    ensures forall x: nat :: x in prologues <==> PrologueAt(code, base, |code| / 4, x)
    ensures forall t: nat :: CallCount(code, base, |code| / 4, t) == if t in counts then counts[t] else 0
    ensures IsBytes(code) ==> forall x: nat :: x in prologues <==> exists w: nat :: SpellsFrameAt(code, base, w, x)
    ensures IsBytes(code) ==>
              forall t: nat :: |CallSites(code, base, |code| / 4, t)| == if t in counts then counts[t] else 0
  {
    prologues, counts := {}, map[];
    for w := 0 to |code| / 4
      invariant HoldsPrologues(code, base, w, prologues) && CountsCalls(code, base, w, counts)
    {
      var word, pc := WordAt(code, 4 * w), base + 4 * w;
      var target := DecodeBlTarget(pc, word);
      OneMoreWord(code, base, w, counts, target);
      if target.Some? && InRegion(target.value, code, base) {
        var t: nat := target.value;
        counts := counts[t := (if t in counts then counts[t] else 0) + 1];
      }
      OneMorePrologue(code, base, w, prologues);
      if IsFramePrologue(word) {
        prologues := prologues + {pc};
      }
    }
    if IsBytes(code) {
      ScannedAsSpelled(code, base);
    }
  }

  /** Counted calls and frame stores are those the bytes spell. */
  lemma ScannedAsSpelled(code: string, base: nat)
    requires IsBytes(code)
    ensures forall x: nat ::
              PrologueAt(code, base, |code| / 4, x) <==> exists w: nat :: SpellsFrameAt(code, base, w, x)
    ensures forall t: nat :: CallCount(code, base, |code| / 4, t) == |CallSites(code, base, |code| / 4, t)|
  {
    forall x: nat ensures PrologueAt(code, base, |code| / 4, x) <==> exists w: nat :: SpellsFrameAt(code, base, w, x) {
      PrologueIsSpelled(code, base, x);
    }
    forall t: nat ensures CallCount(code, base, |code| / 4, t) == |CallSites(code, base, |code| / 4, t)| {
      CallCountIsExact(code, base, |code| / 4, t);
    }
  }

  // ---- The words, as the instruction set spells them -------------------------------------------

  const WORDS: nat := 0x1_0000_0000

  predicate IsBytes(s: string) {
    forall i :: 0 <= i < |s| ==> s[i] < 256 as char
  }

  /** A word's bytes, least significant first. */
  function BytesOfWord(word: nat): (s: string)
    requires word < WORDS
    ensures |s| == 4 && IsBytes(s)
  {
    var second := word / 0x100;
    var third := second / 0x100;
    [(word % 0x100) as char, (second % 0x100) as char, (third % 0x100) as char, (third / 0x100) as char]
  }

  /** What is read at a place is the word whose bytes stand there. */
  lemma WordsAreTheirBytes(code: string, off: nat, word: nat)
    requires off + 4 <= |code| && IsBytes(code) && word < WORDS
    ensures WordAt(code, off) < WORDS
    ensures WordAt(code, off) == word <==> code[off..off + 4] == BytesOfWord(word)
  {
    var a, b, c, d := code[off] as nat, code[off + 1] as nat, code[off + 2] as nat, code[off + 3] as nat;
    FourBytes(a, b, c, d, word);
    var four := code[off..off + 4];
    assert four == [code[off], code[off + 1], code[off + 2], code[off + 3]];
  }

  lemma ByteAndRest(word: nat, a: nat, rest: nat)
    requires a < 256
    ensures word == a + 0x100 * rest <==> a == word % 0x100 && rest == word / 0x100
  {
  }

  lemma FourBytes(a: nat, b: nat, c: nat, d: nat, word: nat)
    requires a < 256 && b < 256 && c < 256 && d < 256
    ensures a + 0x100 * b + 0x1_0000 * c + 0x100_0000 * d == word <==>
            var second := word / 0x100;
            var third := second / 0x100;
            a == word % 0x100 && b == second % 0x100 && c == third % 0x100 && d == third / 0x100
  {
    ByteAndRest(word, a, b + 0x100 * (c + 0x100 * d));
    ByteAndRest(word / 0x100, b, c + 0x100 * d);
    ByteAndRest(word / 0x100 / 0x100, c, d);
  }

  /** A call of the instruction `k` words on, backwards when `k` is negative: section C6.2 of Arm DDI 0487, BL. */
  function CallWord(k: int): (word: nat)
    requires -0x200_0000 <= k < 0x200_0000
    ensures word < WORDS
  {
    0x9400_0000 + if k < 0 then k + 0x400_0000 else k
  }

  /** Such a word, and no other, is decoded, to exactly where it goes. */
  lemma CallsRoundTrip(pc: int, k: int)
    requires -0x200_0000 <= k < 0x200_0000
    ensures DecodeBlTarget(pc, CallWord(k)) == Some(pc + 4 * k)
  {
    var low := if k < 0 then k + 0x400_0000 else k;
    assert CallWord(k) == 0x25 * 0x400_0000 + low;
    assert CallWord(k) / 0x400_0000 == 0x25 && CallWord(k) % 0x400_0000 == low;
  }

  lemma OnlyCallsDecode(pc: int, word: nat)
    requires word < WORDS
    ensures DecodeBlTarget(pc, word).Some? <==> 0x9400_0000 <= word < 0x9800_0000
  {
    assert word / 0x400_0000 < 0x40;
  }

  lemma DecodedWordsAreCalls(pc: int, word: nat, target: int) returns (k: int)
    requires word < WORDS && DecodeBlTarget(pc, word) == Some(target)
    ensures -0x200_0000 <= k < 0x200_0000 && word == CallWord(k) && target == pc + 4 * k
  {
    OnlyCallsDecode(pc, word);
    var low := word - 0x9400_0000;
    k := if low >= 0x200_0000 then low - 0x400_0000 else low;
    CallsRoundTrip(pc, k);
  }

  /** The bytes at word `w` spell a call of the address, which lies in the region. */
  ghost predicate SpellsCall(code: string, base: nat, w: nat, target: int)
    requires 4 * w + 4 <= |code|
  {
    && base <= target < base + |code|
    && exists k :: CallsFrom(code, base, w, target, k)
  }

  predicate CallsFrom(code: string, base: nat, w: nat, target: int, k: int)
    requires 4 * w + 4 <= |code|
  {
    && -0x200_0000 <= k < 0x200_0000 && code[4 * w..4 * w + 4] == BytesOfWord(CallWord(k))
    && target == base + 4 * w + 4 * k
  }

  lemma CallsAreSpelled(code: string, base: nat, w: nat, target: int)
    requires 4 * w + 4 <= |code| && IsBytes(code)
    ensures Calls(code, base, w, target) <==> SpellsCall(code, base, w, target)
  {
    var word, pc := WordAt(code, 4 * w), base + 4 * w;
    WordsAreTheirBytes(code, 4 * w, 0);
    if Calls(code, base, w, target) {
      var k := DecodedWordsAreCalls(pc, word, target);
      WordsAreTheirBytes(code, 4 * w, word);
      assert CallsFrom(code, base, w, target, k);
    }
    if SpellsCall(code, base, w, target) {
      var k :| CallsFrom(code, base, w, target, k);
      WordsAreTheirBytes(code, 4 * w, CallWord(k));
      CallsRoundTrip(pc, k);
      assert target - base == 4 * (w + k);
    }
  }

  ghost function SpellsCallAt(code: string, base: nat, target: int): nat -> bool {
    (w: nat) => 4 * w + 4 <= |code| && SpellsCall(code, base, w, target)
  }

  /** The words among the first `n` that spell a call of the address. */
  ghost function CallSites(code: string, base: nat, n: nat, target: int): set<nat> {
    Where(n, SpellsCallAt(code, base, target))
  }

  lemma CountsKeepPace(code: string, base: nat, n: nat, target: int)
    requires 4 * n + 4 <= |code| && IsBytes(code)
    requires CallCount(code, base, n, target) == |CallSites(code, base, n, target)|
    ensures CallCount(code, base, n + 1, target) == |CallSites(code, base, n + 1, target)|
  {
    OneMoreCounted(code, base, n, target);
    CallsAreSpelled(code, base, n, target);
    OneMoreWhere(n, SpellsCallAt(code, base, target));
  }

  ghost predicate CountedExactly(code: string, base: nat, target: int, n: nat) {
    4 * n <= |code| ==> CallCount(code, base, n, target) == |CallSites(code, base, n, target)|
  }

  lemma CountedExactlyGoesOn(code: string, base: nat, target: int, n: nat)
    requires IsBytes(code) && CountedExactly(code, base, target, n)
    ensures CountedExactly(code, base, target, n + 1)
  {
    if 4 * n + 4 <= |code| { CountsKeepPace(code, base, n, target); }
  }

  lemma NothingIsCountedFirst(code: string, base: nat, target: int)
    ensures CountedExactly(code, base, target, 0)
  {
    assert CallSites(code, base, 0, target) == {};
  }

  /** What is counted are the words that spell a call. */
  lemma {:induction false} CallCountIsExact(code: string, base: nat, n: nat, target: int)
    requires IsBytes(code)
    ensures CountedExactly(code, base, target, n)
  {
    NothingIsCountedFirst(code, base, target);
    for k := 0 to n
      invariant CountedExactly(code, base, target, k)
    {
      CountedExactlyGoesOn(code, base, target, k);
    }
  }

  /** `stp x29, x30` to the stack, in any form and at any offset: `x` is what the other fields hold. */
  function FrameWord(x: nat): (word: nat)
    requires x < 0x8000
    ensures word < WORDS
  {
    0x8000_0000 + 0x8000 * x + 0x400 * 30 + 0x20 * 31 + 29
  }

  lemma FramesRoundTrip(x: nat)
    requires x < 0x8000
    ensures IsFramePrologue(FrameWord(x))
  {
    var word := FrameWord(x);
    assert word == 2 * 0x4000_0000 + (0x8000 * x + 0x7BFD);
    assert word == 0x400 * (0x20_0000 + 0x20 * x + 30) + 0x3FD;
    assert word == 0x20 * (0x400_0000 + 0x400 * x + 0x3DF) + 29;
    FieldOf(0x20_0000 + 0x20 * x + 30, 0x20, 0x1_0000 + x, 30);
    FieldOf(0x400_0000 + 0x400 * x + 0x3DF, 0x20, 0x20_0000 + 0x20 * x + 30, 31);
  }

  lemma FieldOf(n: nat, m: nat, q: nat, r: nat)
    requires m > 0 && n == m * q + r && r < m
    ensures n % m == r
  {
    PoolResolver.QuotientIsUnique(n, m, q, r);
  }

  lemma SecondField(word: nat)
    ensures word / 0x400 == word / 0x20 / 0x20
  {
  }

  lemma ThirdField(word: nat)
    ensures word / 0x8000 == word / 0x400 / 0x20
  {
  }

  lemma LastField(word: nat)
    ensures word / 0x4000_0000 == word / 0x8000 / 0x8000
  {
  }

  lemma FieldsJoin(word: nat, a: nat, b: nat, c: nat, d: nat)
    requires a == word / 0x20 && b == a / 0x20 && c == b / 0x20 && d == c / 0x8000
    requires word % 0x20 == 29 && a % 0x20 == 31 && b % 0x20 == 30 && d == 2
    ensures c % 0x8000 < 0x8000 && word == 0x8000_0000 + 0x8000 * (c % 0x8000) + 0x400 * 30 + 0x20 * 31 + 29
  {
    assert word == 0x20 * a + 29 && a == 0x20 * b + 31 && b == 0x20 * c + 30 && c == 0x8000 * d + c % 0x8000;
  }

  /** And no other word is taken for one. */
  lemma FrameWordsAreSpelled(word: nat) returns (x: nat)
    requires word < WORDS && IsFramePrologue(word)
    ensures x < 0x8000 && word == FrameWord(x)
  {
    SecondField(word);
    ThirdField(word);
    LastField(word);
    x := word / 0x8000 % 0x8000;
    assert word / 0x4000_0000 == 2;
    FieldsJoin(word, word / 0x20, word / 0x400, word / 0x8000, word / 0x4000_0000);
  }

  /** The bytes at word `w` spell such a store. */
  ghost predicate SpellsFrame(code: string, w: nat)
    requires 4 * w + 4 <= |code|
  {
    exists x: nat :: x < 0x8000 && code[4 * w..4 * w + 4] == BytesOfWord(FrameWord(x))
  }

  lemma FramesAreSpelled(code: string, w: nat)
    requires 4 * w + 4 <= |code| && IsBytes(code)
    ensures IsFramePrologue(WordAt(code, 4 * w)) <==> SpellsFrame(code, w)
  {
    var word := WordAt(code, 4 * w);
    WordsAreTheirBytes(code, 4 * w, 0);
    if IsFramePrologue(word) {
      var x := FrameWordsAreSpelled(word);
      WordsAreTheirBytes(code, 4 * w, word);
    }
    if SpellsFrame(code, w) {
      var x: nat :| x < 0x8000 && code[4 * w..4 * w + 4] == BytesOfWord(FrameWord(x));
      WordsAreTheirBytes(code, 4 * w, FrameWord(x));
      FramesRoundTrip(x);
    }
  }

  /** Word `w` spells one, at this address. */
  ghost predicate SpellsFrameAt(code: string, base: nat, w: nat, address: nat) {
    4 * w + 4 <= |code| && address == base + 4 * w && SpellsFrame(code, w)
  }

  lemma PrologueIsSpelled(code: string, base: nat, address: nat)
    requires IsBytes(code)
    ensures PrologueAt(code, base, |code| / 4, address) <==> exists w: nat :: SpellsFrameAt(code, base, w, address)
  {
    forall w: nat | 4 * w + 4 <= |code| ensures IsFramePrologue(WordAt(code, 4 * w)) <==> SpellsFrame(code, w) {
      FramesAreSpelled(code, w);
    }
    if w: nat :| SpellsFrameAt(code, base, w, address) {
      assert w < |code| / 4;
    }
    if PrologueAt(code, base, |code| / 4, address) {
      var w: nat :| w < |code| / 4 && address == base + 4 * w && IsFramePrologue(WordAt(code, 4 * w));
      assert SpellsFrameAt(code, base, w, address);
    }
  }

  /** What makes an address of the region a start, in bytes: the region's base, a frame store, or two calls of it. */
  ghost predicate SpelledStart(code: string, base: nat, address: nat) {
    && base <= address < base + |code|
    && ((base != 0 && address == base)
        || (exists w: nat :: SpellsFrameAt(code, base, w, address))
        || |CallSites(code, base, |code| / 4, address)| >= 2)
  }

  lemma StartsAreSpelled(code: string, base: nat, address: nat)
    requires IsBytes(code)
    ensures IsStart(code, base, address) <==> SpelledStart(code, base, address)
  {
    CallCountIsExact(code, base, |code| / 4, address);
    PrologueIsSpelled(code, base, address);
  }

  /** Range `i` is numbered by its position, unnamed, a guess, and fills its own gap as far as ranges go. */
  predicate RangeFits(functions: seq<Function>, base: nat, hi: nat, i: nat)
    requires i < |functions|
  {
    var f := functions[i];
    && f.id == i && f.name.None? && f.owner.None? && f.codeSectionVa == base && f.provenance == Heuristic
    && base <= f.startVa && 0 < f.size <= MAX_RANGE
    && var next := if i + 1 < |functions| then functions[i + 1].startVa else hi;
       f.startVa + f.size <= next && (f.size == MAX_RANGE || f.startVa + f.size == next)
  }

  /** Every range fits; so they ascend and no two overlap. */
  ghost predicate RangesFit(functions: seq<Function>, base: nat, hi: nat) {
    forall i :: 0 <= i < |functions| ==> RangeFits(functions, base, hi, i)
  }

  lemma {:induction false} RangesAreDisjoint(functions: seq<Function>, base: nat, hi: nat, i: nat, j: nat)
    requires RangesFit(functions, base, hi) && i < j < |functions|
    ensures functions[i].startVa + functions[i].size <= functions[j].startVa
    decreases j
  {
    assert RangeFits(functions, base, hi, i) && RangeFits(functions, base, hi, j - 1);
    if i < j - 1 {
      RangesAreDisjoint(functions, base, hi, i, j - 1);
    }
  }

  lemma {:induction false} RangesStayBelow(functions: seq<Function>, base: nat, hi: nat, i: nat)
    requires RangesFit(functions, base, hi) && i < |functions|
    ensures functions[i].startVa + functions[i].size <= hi
    decreases |functions| - i
  {
    assert RangeFits(functions, base, hi, i);
    if i + 1 < |functions| {
      RangesStayBelow(functions, base, hi, i + 1);
    }
  }

  method RecoverCodeRanges(code: string, base: nat) returns (functions: seq<Function>)
    ensures RangesFit(functions, base, base + |code|)
    ensures forall a: nat :: (exists i :: 0 <= i < |functions| && functions[i].startVa == a) <==> IsStart(code, base, a)
    ensures IsBytes(code) ==> forall a: nat :: IsStart(code, base, a) <==> SpelledStart(code, base, a)
  {
    if IsBytes(code) {
      forall a: nat ensures IsStart(code, base, a) <==> SpelledStart(code, base, a) {
        StartsAreSpelled(code, base, a);
      }
    }
    var hi := base + |code|;
    var prologues, counts := ScanWords(code, base);
    var called := set t | t in counts && (t in prologues || counts[t] >= 2);
    var starts := (if base != 0 then {base} else {}) + prologues + called;
    var inside := set s | s in starts && base <= s < hi;
    InsideAreStarts(code, base, prologues, counts, inside);
    var sorted := Sorted(inside);
    functions := CutRanges(sorted, base, hi);
    StartsAreListed(functions, sorted);
  }

  /** What the scan found, inside the region, is what makes a start. */
  lemma InsideAreStarts(code: string, base: nat, prologues: set<nat>, counts: map<nat, nat>, inside: set<nat>)
    requires HoldsPrologues(code, base, |code| / 4, prologues) && CountsCalls(code, base, |code| / 4, counts)
    requires forall a: nat :: a in inside <==>
               && base <= a < base + |code|
               && ((base != 0 && a == base) || a in prologues || (a in counts && counts[a] >= 2))
    ensures forall a: nat :: a in inside <==> IsStart(code, base, a)
  {
    forall a: nat ensures a in inside <==> IsStart(code, base, a) {
      assert CallCount(code, base, |code| / 4, a) == if a in counts then counts[a] else 0;
    }
  }

  lemma StartsAreListed(functions: seq<Function>, starts: seq<nat>)
    requires |functions| == |starts| && forall i :: 0 <= i < |starts| ==> functions[i].startVa == starts[i]
    ensures forall a: nat :: (exists i :: 0 <= i < |functions| && functions[i].startVa == a) <==> a in starts
  {
    forall a: nat | a in starts ensures exists i :: 0 <= i < |functions| && functions[i].startVa == a {
      var i :| 0 <= i < |starts| && starts[i] == a;
      assert functions[i].startVa == a;
    }
  }

  method CutRanges(starts: seq<nat>, base: nat, hi: nat) returns (functions: seq<Function>)
    requires StrictlyAscending(starts) && forall s :: s in starts ==> base <= s < hi
    ensures |functions| == |starts| && RangesFit(functions, base, hi)
    ensures forall i :: 0 <= i < |starts| ==> functions[i].startVa == starts[i]
  {
    assert forall k :: 0 <= k < |starts| ==> base <= starts[k] < hi by {
      assert forall k :: 0 <= k < |starts| ==> starts[k] in starts;
    }
    functions := [];
    for i := 0 to |starts|
      invariant |functions| == i
      invariant forall k :: 0 <= k < i ==> functions[k] == RangeAt(starts, k, base, hi)
    {
      var next := if i + 1 < |starts| then starts[i + 1] else hi;
      var size := Min(next - starts[i], MAX_RANGE);
      functions := functions + [Function(|functions|, None, None, starts[i], size, base, Heuristic)];
    }
    forall i | 0 <= i < |functions| ensures RangeFits(functions, base, hi, i) {
      assert functions[i] == RangeAt(starts, i, base, hi);
      if i + 1 < |functions| {
        assert functions[i + 1] == RangeAt(starts, i + 1, base, hi);
      }
    }
  }

  /** The range that opens at the `k`-th start. */
  function RangeAt(starts: seq<nat>, k: nat, base: nat, hi: nat): Function
    requires StrictlyAscending(starts) && k < |starts| && starts[k] < hi
  {
    var next := if k + 1 < |starts| then starts[k + 1] else hi;
    Function(k, None, None, starts[k], Min(next - starts[k], MAX_RANGE), base, Heuristic)
  }
}
