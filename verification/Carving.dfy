/** The producer's string carving: printable runs of the data image, and the library URIs among them. */
module Carving {
  import opened Collections
  import opened ProgramModel

  /** A byte, as the character of the same code. */
  predicate Printable(c: char) {
    ' ' <= c <= '~'
  }

  const MIN_LENGTH: nat := 5
  const MAX_LENGTH: nat := 220
  const MAX_ITEMS: nat := 20000

  /** `data[a..b]` is a run of printable bytes that cannot be extended either way. */
  predicate MaximalRun(data: string, a: nat, b: nat) {
    && a < b <= |data| && (forall k :: a <= k < b ==> Printable(data[k]))
    && (a > 0 ==> !Printable(data[a - 1])) && (b < |data| ==> !Printable(data[b]))
  }

  /** Worth keeping: present and not an admission of ignorance. */
  predicate Usable(s: string) {
    s != "" && !IsPlaceholder(s)
  }

  /** `s` is one whole printable run of `data`, long enough to look at. */
  ghost predicate IsRun(data: string, s: string) {
    |s| >= MIN_LENGTH && exists a: nat, b: nat :: MaximalRun(data, a, b) && data[a..b] == s
  }

  /** A string the carver may keep. */
  ghost predicate Carved(data: string, s: string) {
    IsRun(data, s) && |s| <= MAX_LENGTH && Usable(s)
  }

  ghost predicate AllRuns(data: string, runs: seq<string>) {
    forall s :: s in runs ==> IsRun(data, s)
  }

  /** Every long enough run that ends by `end` is in the list. */
  ghost predicate HasRunsUpTo(data: string, end: int, runs: seq<string>) {
    forall a: nat, b: nat :: MaximalRun(data, a, b) && b <= end && b - a >= MIN_LENGTH ==> data[a..b] in runs
  }

  /** The run that opened at `start` and ends at `end`, if it is long enough. */
  function Closed(data: string, start: nat, end: nat): seq<string>
    requires start <= end <= |data|
  {
    if end - start >= MIN_LENGTH then [data[start..end]] else []
  }

  /** The runs of `data` from `start` on, left to right, the one that opened at `start` having got as far as `i`. */
  function RunsFrom(data: string, start: nat, i: nat): seq<string>
    requires start <= i <= |data|
    decreases |data| - i
  {
    if i == |data| then Closed(data, start, i)
    else if Printable(data[i]) then RunsFrom(data, start, i + 1)
    else Closed(data, start, i) + RunsFrom(data, i + 1, i + 1)
  }

  /** The runs, in order: no other string, and no long enough run left out. */
  method FindRuns(data: string) returns (runs: seq<string>)
    ensures runs == RunsFrom(data, 0, 0)
    ensures AllRuns(data, runs) && HasRunsUpTo(data, |data|, runs)
  {
    runs := [];
    var start := 0;
    var i := 0;
    while i < |data|
      invariant start <= i <= |data|
      invariant forall k :: start <= k < i ==> Printable(data[k])
      invariant start > 0 ==> !Printable(data[start - 1])
      invariant AllRuns(data, runs) && HasRunsUpTo(data, start - 1, runs)
      invariant runs + RunsFrom(data, start, i) == RunsFrom(data, 0, 0)
    {
      if !Printable(data[i]) {
        assert runs + (Closed(data, start, i) + RunsFrom(data, i + 1, i + 1)) ==
               (runs + Closed(data, start, i)) + RunsFrom(data, i + 1, i + 1);
        runs := CloseRun(data, start, i, runs);
        start := i + 1;
      }
      i := i + 1;
    }
    runs := CloseRun(data, start, i, runs);
  }

  /** The scan reached the end of the run that opened at `start`. */
  method CloseRun(data: string, start: nat, end: nat, runs: seq<string>) returns (r: seq<string>)
    requires start <= end <= |data| && (end < |data| ==> !Printable(data[end]))
    requires forall k :: start <= k < end ==> Printable(data[k])
    requires start > 0 ==> !Printable(data[start - 1])
    requires AllRuns(data, runs) && HasRunsUpTo(data, start - 1, runs)
    ensures r == runs + Closed(data, start, end)
    ensures AllRuns(data, r) && HasRunsUpTo(data, end, r)
  {
    r := runs;
    if end - start >= MIN_LENGTH {
      assert MaximalRun(data, start, end);
      r := runs + [data[start..end]];
    }
    forall a: nat, b: nat | MaximalRun(data, a, b) && b <= end && b - a >= MIN_LENGTH ensures data[a..b] in r {
      if b >= start {
        RunsDoNotOverlap(data, start, end, a, b);
      }
    }
  }

  lemma RunsDoNotOverlap(data: string, start: nat, end: nat, a: nat, b: nat)
    requires start <= end <= |data| && (end < |data| ==> !Printable(data[end]))
    requires forall k :: start <= k < end ==> Printable(data[k])
    requires start > 0 ==> !Printable(data[start - 1])
    requires MaximalRun(data, a, b) && start <= b <= end
    ensures a == start && b == end
  {
  }

  lemma {:induction false} FilteringGrows(strings: seq<string>, keep: string -> bool, n: nat)
    requires n <= |strings|
    ensures Filter(strings[..n], keep) <= Filter(strings, keep)
    decreases |strings|
  {
    if n == |strings| {
      assert strings[..n] == strings;
    } else {
      assert strings[..|strings| - 1][..n] == strings[..n];
      FilteringGrows(strings[..|strings| - 1], keep, n);
    }
  }

  predicate Keepable(s: string) {
    |s| <= MAX_LENGTH && Usable(s)
  }

  function FirstOf(s: seq<string>, n: nat): seq<string> {
    if |s| > n then s[..n] else s
  }

  /** Each string where it first occurs, and nowhere else. */
  function Unique(s: seq<string>): (r: seq<string>)
    ensures |r| <= |s| && forall x :: x in r <==> x in s
    ensures forall i, j :: 0 <= i < j < |r| ==> r[i] != r[j]
  {
    if s == [] then []
    else
      var last := s[|s| - 1];
      var rest := Unique(s[..|s| - 1]);
      assert s == s[..|s| - 1] + [last];
      assert forall i :: 0 <= i < |rest| ==> rest[i] in rest;
      if last in rest then rest else rest + [last]
  }

  /** Where the runs stand: each is maximal and long enough, and they follow each other. */
  ghost predicate StandAt(data: string, runs: seq<string>, spans: seq<(nat, nat)>) {
    && |spans| == |runs| && (forall k :: 0 <= k < |runs| ==> SpanHolds(data, spans[k], runs[k]))
    && forall k :: 0 <= k < |runs| - 1 ==> spans[k].1 < spans[k + 1].0
  }

  predicate SpanHolds(data: string, span: (nat, nat), run: string) {
    MaximalRun(data, span.0, span.1) && span.1 - span.0 >= MIN_LENGTH && data[span.0..span.1] == run
  }

  lemma StandBehind(data: string, span: (nat, nat), run: string, runs: seq<string>, spans: seq<(nat, nat)>)
    requires SpanHolds(data, span, run) && StandAt(data, runs, spans)
    requires forall k :: 0 <= k < |spans| ==> span.1 < spans[k].0
    ensures StandAt(data, [run] + runs, [span] + spans)
  {
    forall k | 0 <= k < |runs + [run]| - 1 ensures ([span] + spans)[k].1 < ([span] + spans)[k + 1].0 {
      if k > 0 { assert ([span] + spans)[k] == spans[k - 1]; }
    }
  }

  /** The runs come left to right. */
  lemma {:induction false} RunsComeInOrder(data: string, start: nat, i: nat) returns (spans: seq<(nat, nat)>)
    requires start <= i <= |data| && (forall k :: start <= k < i ==> Printable(data[k]))
    requires start > 0 ==> !Printable(data[start - 1])
    ensures StandAt(data, RunsFrom(data, start, i), spans)
    ensures forall k :: 0 <= k < |spans| ==> spans[k].0 >= start
    decreases |data| - i
  {
    if i < |data| && Printable(data[i]) {
      spans := RunsComeInOrder(data, start, i + 1);
    } else if i < |data| {
      var rest := RunsComeInOrder(data, i + 1, i + 1);
      spans := ClosedComesFirst(data, start, i, RunsFrom(data, i + 1, i + 1), rest);
    } else {
      spans := ClosedComesFirst(data, start, i, [], []);
      assert Closed(data, start, i) + [] == Closed(data, start, i);
    }
  }

  lemma ClosedComesFirst(data: string, start: nat, end: nat, runs: seq<string>, rest: seq<(nat, nat)>)
    returns (spans: seq<(nat, nat)>)
    requires start <= end <= |data| && (end < |data| ==> !Printable(data[end]))
    requires (forall k :: start <= k < end ==> Printable(data[k])) && (start > 0 ==> !Printable(data[start - 1]))
    requires StandAt(data, runs, rest) && forall k :: 0 <= k < |rest| ==> rest[k].0 > end
    ensures StandAt(data, Closed(data, start, end) + runs, spans)
    ensures forall k :: 0 <= k < |spans| ==> spans[k].0 >= start
  {
    if end - start >= MIN_LENGTH {
      StandBehind(data, (start, end), data[start..end], runs, rest);
      spans := [(start, end)] + rest;
    } else {
      assert Closed(data, start, end) + runs == runs;
      spans := rest;
    }
  }

  /** `a` turns up in `s` before `b` first does. */
  predicate TurnsUpBefore(s: seq<string>, a: string, b: string) {
    exists i :: 0 <= i < |s| && s[i] == a && b !in s[..i + 1]
  }

  lemma {:induction false} FirstOccurrenceStays(s: seq<string>, last: string, a: string, b: string)
    requires TurnsUpBefore(s, a, b)
    ensures TurnsUpBefore(s + [last], a, b)
  {
    var i :| 0 <= i < |s| && s[i] == a && b !in s[..i + 1];
    assert (s + [last])[i] == a && (s + [last])[..i + 1] == s[..i + 1];
  }

  lemma LastOccurrenceIsNew(s: seq<string>, last: string, a: string)
    requires a in s && last !in s
    ensures TurnsUpBefore(s + [last], a, last)
  {
    var i :| 0 <= i < |s| && s[i] == a;
    assert (s + [last])[i] == a;
    forall x | x in (s + [last])[..i + 1] ensures x in s {
      var k :| 0 <= k <= i && (s + [last])[k] == x;
      assert s[k] == x;
    }
  }

  /** What is kept comes in the order in which it first turns up. */
  lemma {:induction false} FirstOccurrencesComeInOrder(s: seq<string>)
    ensures forall i, j :: 0 <= i < j < |Unique(s)| ==> TurnsUpBefore(s, Unique(s)[i], Unique(s)[j])
  {
    if s != [] {
      var front, last := s[..|s| - 1], s[|s| - 1];
      assert s == front + [last];
      FirstOccurrencesComeInOrder(front);
      var rest := Unique(front);
      forall i, j | 0 <= i < j < |Unique(s)| ensures TurnsUpBefore(s, Unique(s)[i], Unique(s)[j]) {
        assert rest[i] in rest;
        if j < |rest| {
          FirstOccurrenceStays(front, last, rest[i], rest[j]);
        } else {
          LastOccurrenceIsNew(front, last, rest[i]);
        }
      }
    }
  }

  /** What is carved from a data image. */
  function CarvedStrings(data: string): seq<string> {
    Unique(FirstOf(Filter(RunsFrom(data, 0, 0), Keepable), MAX_ITEMS))
  }

  /** The first `max` strings that `keep` accepts. */
  method FirstKept(strings: seq<string>, keep: string -> bool, max: nat) returns (out: seq<string>)
    requires max > 0
    ensures out == FirstOf(Filter(strings, keep), max)
  {
    out := [];
    for i := 0 to |strings|
      invariant out == Filter(strings[..i], keep) && |out| < max
    {
      assert strings[..i + 1][..i] == strings[..i];
      if !keep(strings[i]) {
        continue;
      }
      out := out + [strings[i]];
      if |out| >= max {
        FilteringGrows(strings, keep, i + 1);
        return;
      }
    }
    assert strings[..|strings|] == strings;
  }

  /** Every string where it first occurs. */
  method KeepFirstOccurrences(strings: seq<string>) returns (unique: seq<string>)
    ensures unique == Unique(strings)
  {
    var seen: set<string> := {};
    unique := [];
    for i := 0 to |strings|
      invariant forall s :: s in seen <==> s in unique
      invariant unique == Unique(strings[..i])
    {
      assert strings[..i + 1][..i] == strings[..i];
      if strings[i] !in seen {
        seen := seen + {strings[i]};
        unique := unique + [strings[i]];
      }
    }
    assert strings[..|strings|] == strings;
  }

  /** Usable runs of acceptable length, the first `MAX_ITEMS` of them, each once; all of them when there are no more. */
  method ExtractStrings(data: string) returns (strings: seq<string>)
    ensures strings == CarvedStrings(data) && |strings| <= MAX_ITEMS
    ensures forall s :: s in strings ==> Carved(data, s)
    ensures |Filter(RunsFrom(data, 0, 0), Keepable)| <= MAX_ITEMS ==> forall s :: Carved(data, s) ==> s in strings
    ensures forall i, j :: 0 <= i < j < |strings| ==> strings[i] != strings[j]
  {
    var runs := FindRuns(data);
    var out := FirstKept(runs, Keepable, MAX_ITEMS);
    strings := KeepFirstOccurrences(out);
    forall s | s in strings ensures Carved(data, s) {
      assert s in out && s in Filter(runs, Keepable) && s in runs;
    }
    forall s | Carved(data, s) && out == Filter(runs, Keepable) ensures s in strings {
      assert s in runs && Keepable(s);
    }
  }

  // ---- Libraries -------------------------------------------------------------------------------

  predicate Contains(s: string, sub: string) {
    exists i :: 0 <= i <= |s| && sub <= s[i..]
  }

  predicate IsLibraryUri(s: string) {
    "package:" <= s && Contains(s, ".dart") && |s| < 200
  }

  /** The library URIs among the strings, in order, each once, the first 512 of them. */
  method LibraryUris(strings: seq<string>) returns (uris: seq<string>)
    ensures uris == FirstOf(Unique(Filter(strings, IsLibraryUri)), 512)
    ensures forall u :: u in uris ==> u in strings && IsLibraryUri(u)
  {
    uris := [];
    var seen: set<string> := {};
    for i := 0 to |strings|
      invariant forall u :: u in seen <==> u in uris
      invariant uris == Unique(Filter(strings[..i], IsLibraryUri))
    {
      assert strings[..i + 1][..i] == strings[..i];
      if IsLibraryUri(strings[i]) {
        ghost var before := Filter(strings[..i], IsLibraryUri);
        assert (before + [strings[i]])[..|before|] == before;
        if strings[i] !in seen {
          seen := seen + {strings[i]};
          uris := uris + [strings[i]];
        }
      }
    }
    assert strings[..|strings|] == strings;
    if |uris| > 512 {
      assert forall u :: u in uris[..512] ==> u in uris;
      uris := uris[..512];
    }
  }
}
