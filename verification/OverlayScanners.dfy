/** The scanners over annotated lines: the decompiler's strip and code span, and the checker's strip. */
module OverlayScanners {
  import opened Collections
  import opened Overlay

  /** The bytes of one byte pushed as a character: a byte above the ASCII range takes two. */
  function PushedByte(c: char): string {
    if c < 128 as char then [c] else [(0xC0 + c as int / 64) as char, (0x80 + c as int % 64) as char]
  }

  /** Two such bytes are the UTF-8 form of the one: section 3 of RFC 3629. */
  lemma PushedBytesDecode(c: char)
    requires c < 256 as char
    ensures var p := PushedByte(c);
            if c < 128 as char then p == [c]
            else
              && |p| == 2 && 0xC2 <= p[0] as int <= 0xC3 && 0x80 <= p[1] as int < 0xC0
              && (p[0] as int - 0xC0) * 64 + (p[1] as int - 0x80) == c as int
  {
  }

  /** What one segment adds to the decompiler's strip. */
  function PushedOne(segment: Segment): string {
    match segment
    case Plain(c) => PushedByte(c)
    case Annotation(_, _) => ""
    case Literal(text) => text
    case Unterminated(text) => text
  }

  /** What the decompiler's strip leaves: code byte by byte as characters, literals and unterminated tails as slices. */
  function Pushed(segments: seq<Segment>): string {
    if segments == [] then ""
    else PushedOne(segments[0]) + Pushed(segments[1..])
  }

  /** How many code bytes outside literals and annotations are not ASCII. */
  function WideBytes(segments: seq<Segment>): nat {
    if segments == [] then 0
    else (if segments[0].Plain? && segments[0].c >= 128 as char then 1 else 0) + WideBytes(segments[1..])
  }

  lemma {:induction false} PushingWidens(segments: seq<Segment>)
    ensures |Pushed(segments)| == |Code(segments)| + WideBytes(segments)
    ensures WideBytes(segments) == 0 ==> Pushed(segments) == Code(segments)
  {
    if segments != [] {
      PushingWidens(segments[1..]);
    }
  }

  /** The two strips agree on a line exactly when its code outside literals and annotations is ASCII. */
  lemma TwinsAgreeExactlyOnAscii(openers: seq<string>, line: string)
    ensures Pushed(Segments(openers, line)) == Code(Segments(openers, line)) <==>
            WideBytes(Segments(openers, line)) == 0
  {
    PushingWidens(Segments(openers, line));
  }

  predicate IsAscii(s: string) {
    forall i :: 0 <= i < |s| ==> s[i] < 128 as char
  }

  /** An all-ASCII line has no wide bytes. */
  lemma {:induction false} AsciiLinesHaveNoWideBytes(openers: seq<string>, line: string)
    requires IsAscii(line)
    ensures WideBytes(Segments(openers, line)) == 0
    decreases |line|
  {
    if line != "" {
      AsciiLinesHaveNoWideBytes(openers, Rest(openers, line));
      assert Segments(openers, line)[1..] == Segments(openers, Rest(openers, line));
    }
  }

  /** The decompiler's strip undoes annotating exactly when the code outside literals is ASCII. */
  lemma DecompilerUndoesAnnotating(parts: seq<Insertion>, last: string)
    requires Known(ANNOTATION_LITERALS, parts) && WellAnnotated(parts, last)
    ensures var line := Weave(ANNOTATION_LITERALS, parts, last);
            && (Pushed(Segments(ANNOTATION_LITERALS, line)) == CodeOf(parts, last) <==>
                WideBytes(Segments(ANNOTATION_LITERALS, line)) == 0)
            && (IsAscii(line) ==> Pushed(Segments(ANNOTATION_LITERALS, line)) == CodeOf(parts, last))
  {
    var openers := ANNOTATION_LITERALS;
    var line := Weave(openers, parts, last);
    LiteralsAreOpeners();
    StrippingUndoesAnnotating(openers, parts, last);
    TwinsAgreeExactlyOnAscii(openers, line);
    if IsAscii(line) {
      AsciiLinesHaveNoWideBytes(openers, line);
    }
  }

  /** A string literal comes through the decompiler's strip as it is, whatever bytes it holds. */
  lemma {:induction false} DecompilerCopiesLiterals(segments: seq<Segment>, k: nat)
    requires k < |segments| && segments[k].Literal?
    ensures Pushed(segments) == Pushed(segments[..k]) + segments[k].text + Pushed(segments[k + 1..])
  {
    if k > 0 {
      DecompilerCopiesLiterals(segments[1..], k - 1);
      assert segments[..k][1..] == segments[1..][..k - 1];
    }
  }

  /** The code span analyses look at is the front of what the decompiler's strip leaves, where code is ASCII. */
  lemma DecompilerKeepsTheCodeSpan(segments: seq<Segment>)
    requires WideBytes(segments) == 0
    ensures Before(segments) <= Pushed(segments)
  {
    PushingWidens(segments);
    BeforeIsAPrefix(segments);
  }

  /** The decompiler's strip leaves a clean line as it is exactly when its code outside literals is ASCII. */
  lemma DecompilerKeepsCleanLinesExactlyOnAscii(openers: seq<string>, line: string)
    requires AreOpeners(openers) && Clean(line, true)
    ensures Pushed(Segments(openers, line)) == line <==> WideBytes(Segments(openers, line)) == 0
  {
    CleanLinesAreUntouched(openers, line);
    TwinsAgreeExactlyOnAscii(openers, line);
  }

  /** Non-overlapping occurrences of the separator, found from the left. */
  function SeparatorCount(body: string): nat {
    if |body| < |SEPARATOR| then 0
    else if SEPARATOR <= body then 1 + SeparatorCount(body[|SEPARATOR|..])
    else SeparatorCount(body[1..])
  }

  /** How many annotations opened by `opener` a line has. */
  function AnnotationCount(segments: seq<Segment>, opener: string): nat {
    if segments == [] then 0
    else
      AnnotationCount(segments[1..], opener) +
      if segments[0].Annotation? && segments[0].opener == opener then 1 else 0
  }

  /** How many candidate values the annotations of a line list. */
  function CandidateCount(segments: seq<Segment>): nat {
    if segments == [] then 0
    else (if segments[0].Annotation? then 1 + SeparatorCount(segments[0].body) else 0) + CandidateCount(segments[1..])
  }

  /** The first `n` segments that are annotations of one opener. */
  ghost function AnnotationsOf(segments: seq<Segment>, n: nat, opener: string): set<nat> {
    set k: nat | k < n && k < |segments| && segments[k].Annotation? && segments[k].opener == opener
  }

  lemma {:induction false} AnnotationsAreCountedUpTo(segments: seq<Segment>, n: nat, opener: string)
    requires n <= |segments|
    ensures AnnotationCount(segments[..n], opener) == |AnnotationsOf(segments, n, opener)|
  {
    if n > 0 {
      AnnotationsAreCountedUpTo(segments, n - 1, opener);
      CountAppend(segments, n - 1, opener);
      var last := segments[n - 1];
      assert AnnotationsOf(segments, n, opener) ==
             AnnotationsOf(segments, n - 1, opener)
             + if last.Annotation? && last.opener == opener then {n - 1} else {};
    }
  }

  /** The counters count them. */
  lemma AnnotationsAreCounted(segments: seq<Segment>, opener: string)
    ensures AnnotationCount(segments, opener) == |AnnotationsOf(segments, |segments|, opener)|
  {
    AnnotationsAreCountedUpTo(segments, |segments|, opener);
    assert segments[..|segments|] == segments;
  }

  /** The candidate list as it is rendered. */
  function Join(values: seq<string>): string {
    if values == [] then "" else if |values| == 1 then values[0] else values[0] + SEPARATOR + Join(values[1..])
  }

  lemma {:induction false} CountAfterValue(value: string, t: string)
    requires '|' !in value && (t == "" || SEPARATOR <= t)
    ensures SeparatorCount(value + t) == SeparatorCount(t)
    decreases |value|
  {
    if value == "" {
      assert value + t == t;
    } else {
      assert (value + t)[1..] == value[1..] + t;
      assert (value + t)[0] == value[0];
      assert !(SEPARATOR <= value + t) by {
        if |value| >= 2 {
          assert (value + t)[1] == value[1] && value[1] in value;
        }
      }
      CountAfterValue(value[1..], t);
      assert |t| == 0 || |t| >= 3;
      if |value + t| < 3 {
        assert t == "";
      }
    }
  }

  /** A rendered list of values, none of which holds a bar, is counted value by value. */
  lemma {:induction false} CandidatesAreCounted(values: seq<string>)
    requires values != [] && forall v :: v in values ==> '|' !in v
    ensures 1 + SeparatorCount(Join(values)) == |values|
  {
    if |values| == 1 {
      CountAfterValue(values[0], "");
      assert values[0] + "" == values[0];
    } else {
      CandidatesAreCounted(values[1..]);
      var t := SEPARATOR + Join(values[1..]);
      CountAfterValue(values[0], t);
      assert t[|SEPARATOR|..] == Join(values[1..]);
      assert values[0] + SEPARATOR + Join(values[1..]) == values[0] + t;
    }
  }

  // ---------- The scanners ----------

  /** One past the string literal that opens at `index`. */
  method LiteralEnd(line: string, index: nat) returns (end: nat)
    requires index < |line| && line[index] == '"'
    ensures end == index + 1 + LiteralTail(line[index..][1..])
  {
    end := index + 1;
    assert line[index..][1..] == line[end..];
    while end < |line|
      invariant index < end <= |line| + 1
      invariant (if end > |line| then |line| else end + LiteralTail(line[end..])) ==
                index + 1 + LiteralTail(line[index..][1..])
    {
      assert line[end..][1..] == line[end + 1..];
      if line[end] == '\\' {
        assert end + 2 <= |line| ==> line[end..][2..] == line[end + 2..];
        end := end + 2;
      } else if line[end] == '"' {
        return end + 1;
      } else {
        end := end + 1;
      }
    }
    end := if end > |line| then |line| else end;
  }

  /** Segment `k` is what a scanner finds where it starts, and the next one starts where it ends. */
  ghost predicate FitsAt(openers: seq<string>, line: string, all: seq<Segment>, starts: seq<nat>, k: nat) {
    && k < |all| && k + 1 < |starts| && starts[k] < |line|
    && all[k] == First(openers, line[starts[k]..]) && starts[k + 1] == starts[k] + Width(all[k])
  }

  ghost predicate Positioned(openers: seq<string>, line: string, all: seq<Segment>, starts: seq<nat>) {
    && |starts| == |all| + 1 && starts[|all|] == |line|
    && forall k: nat {:trigger FitsAt(openers, line, all, starts, k)} :: k < |all| ==>
      FitsAt(openers, line, all, starts, k)
  }

  lemma FitsFurther(openers: seq<string>, line: string, r: Segment, all: seq<Segment>, index: nat, starts: seq<nat>,
                    k: nat)
    requires FitsAt(openers, line, all, starts, k)
    ensures FitsAt(openers, line, [r] + all, [index] + starts, k + 1)
  {
    assert ([r] + all)[k + 1] == all[k];
    assert ([index] + starts)[k + 1] == starts[k] && ([index] + starts)[k + 2] == starts[k + 1];
  }

  lemma PositionedBehind(openers: seq<string>, line: string, r: Segment, all: seq<Segment>, index: nat,
                         starts: seq<nat>)
    requires Positioned(openers, line, all, starts) && index < |line| && starts[0] == index + Width(r)
    requires r == First(openers, line[index..])
    ensures Positioned(openers, line, [r] + all, [index] + starts)
  {
    forall k: nat | k < |[r] + all| ensures FitsAt(openers, line, [r] + all, [index] + starts, k) {
      if k > 0 {
        assert FitsAt(openers, line, all, starts, k - 1);
        FitsFurther(openers, line, r, all, index, starts, k - 1);
      }
    }
  }

  lemma NextSegment(openers: seq<string>, line: string, index: nat)
    requires index < |line|
    ensures var r := First(openers, line[index..]); var next := index + Width(r);
            next <= |line| && Segments(openers, line[index..]) == [r] + Segments(openers, line[next..])
  {
    var n := Width(First(openers, line[index..]));
    assert line[index..][n..] == line[index + n..];
  }

  lemma PositionedFrom(openers: seq<string>, line: string, index: nat, r: Segment, behind: seq<Segment>, rest: seq<nat>)
    requires index < |line| && rest != [] && r == First(openers, line[index..])
    requires rest[0] == index + Width(r) && Positioned(openers, line, behind, rest)
    requires Segments(openers, line[index..]) == [r] + behind
    ensures Positioned(openers, line, Segments(openers, line[index..]), [index] + rest)
  {
    PositionedBehind(openers, line, r, behind, index, rest);
  }

  /** Where the segments of a line start. */
  lemma {:induction false} Positions(openers: seq<string>, line: string, index: nat) returns (starts: seq<nat>)
    requires index <= |line|
    ensures Positioned(openers, line, Segments(openers, line[index..]), starts) && starts[0] == index
    decreases |line| - index
  {
    if index == |line| {
      starts := [index];
    } else {
      var r, next := First(openers, line[index..]), index + Width(First(openers, line[index..]));
      NextSegment(openers, line, index);
      var rest := Positions(openers, line, next);
      PositionedFrom(openers, line, index, r, Segments(openers, line[next..]), rest);
      starts := [index] + rest;
    }
  }

  /** The segment at `index` and where the next one starts. */
  method Scan(openers: seq<string>, line: string, index: nat, ghost all: seq<Segment>, ghost starts: seq<nat>,
              ghost k: nat)
    returns (segment: Segment, next: nat)
    requires Positioned(openers, line, all, starts) && k < |all| && index == starts[k]
    ensures segment == all[k] && index < next == starts[k + 1] <= |line| && (next < |line| <==> k + 1 < |all|)
  {
    assert FitsAt(openers, line, all, starts, k);
    if k + 1 < |all| {
      assert FitsAt(openers, line, all, starts, k + 1);
    }
    var rest := line[index..];
    if line[index] == '"' {
      next := LiteralEnd(line, index);
      segment := Literal(line[index..next]);
      assert rest[..next - index] == line[index..next];
      return;
    }
    var literal := AnnotationAt(openers, rest);
    if literal.None? {
      return Plain(line[index]), index + 1;
    }
    var open := openers[literal.value];
    var body := rest[|open|..];
    var close := FindClose(body);
    if close.None? {
      return Unterminated(rest), |line|;
    }
    return Annotation(open, body[..close.value]), index + |open| + close.value + |CLOSE|;
  }

  lemma {:induction false} PushedAppend(segments: seq<Segment>, k: nat)
    requires k < |segments|
    ensures Pushed(segments[..k + 1]) == Pushed(segments[..k]) + PushedOne(segments[k])
    decreases k
  {
    if k == 0 {
      assert segments[..1][1..] == [];
    } else {
      PushedAppend(segments[1..], k - 1);
      assert segments[..k + 1][1..] == segments[1..][..k] && segments[..k][1..] == segments[1..][..k - 1];
    }
  }

  /** The decompiler's strip: every annotation goes, every literal and every other byte of code stays. */
  method StripJoinAnnotationSpan(openers: seq<string>, line: string) returns (out: string)
    ensures out == Pushed(Segments(openers, line))
  {
    out := "";
    var index := 0;
    assert line[0..] == line;
    ghost var all, k := Segments(openers, line), 0;
    ghost var starts := Positions(openers, line, 0);
    while index < |line|
      invariant k <= |all| && Positioned(openers, line, all, starts) && index == starts[k] <= |line| &&
                (index < |line| <==> k < |all|)
      invariant out == Pushed(all[..k])
      decreases |line| - index
    {
      PushedAppend(all, k);
      var segment, next := Scan(openers, line, index, all, starts, k);
      out := out + PushedOne(segment);
      index, k := next, k + 1;
    }
    assert all[..k] == all;
  }

  lemma {:induction false} BeforeAppend(segments: seq<Segment>, k: nat)
    requires k < |segments| && forall i :: 0 <= i < k ==> !segments[i].Annotation? && !segments[i].Unterminated?
    ensures if segments[k].Annotation? || segments[k].Unterminated? then Before(segments) == Source(segments[..k])
            else Source(segments[..k + 1]) == Source(segments[..k]) + SourceOf(segments[k])
    decreases k
  {
    if k == 0 {
      assert segments[..1][1..] == [];
    } else {
      BeforeAppend(segments[1..], k - 1);
      assert segments[..k + 1][1..] == segments[1..][..k] && segments[..k][1..] == segments[1..][..k - 1];
    }
  }

  lemma {:induction false} BeforeIsAll(segments: seq<Segment>)
    requires forall i :: 0 <= i < |segments| ==> !segments[i].Annotation? && !segments[i].Unterminated?
    ensures Before(segments) == Source(segments)
  {
    if segments != [] {
      BeforeIsAll(segments[1..]);
    }
  }

  lemma SourceOfScan(openers: seq<string>, line: string, all: seq<Segment>, starts: seq<nat>, k: nat)
    requires Positioned(openers, line, all, starts) && k < |all|
    ensures starts[k] <= starts[k + 1] <= |line| && line[..starts[k]] + SourceOf(all[k]) == line[..starts[k + 1]]
  {
    assert FitsAt(openers, line, all, starts, k);
    FirstIsTheFront(openers, line[starts[k]..]);
    var w := Width(all[k]);
    assert line[starts[k]..][..w] == line[starts[k]..starts[k] + w];
    assert line[..starts[k]] + line[starts[k]..starts[k] + w] == line[..starts[k] + w];
  }

  /** The code span analyses look at. */
  method CodeBeforeAnnotation(openers: seq<string>, line: string) returns (code: string)
    ensures code == Before(Segments(openers, line)) && code <= line
  {
    var index := 0;
    assert line[0..] == line;
    ghost var all, k := Segments(openers, line), 0;
    ghost var starts := Positions(openers, line, 0);
    while index < |line|
      invariant k <= |all| && Positioned(openers, line, all, starts) && index == starts[k] <= |line| &&
                (index < |line| <==> k < |all|)
      invariant line[..index] == Source(all[..k])
      invariant forall i :: 0 <= i < k ==> !all[i].Annotation? && !all[i].Unterminated?
      decreases |line| - index
    {
      BeforeAppend(all, k);
      SourceOfScan(openers, line, all, starts, k);
      var segment, next := Scan(openers, line, index, all, starts, k);
      if segment.Annotation? || segment.Unterminated? {
        return line[..index];
      }
      index, k := next, k + 1;
    }
    assert all[..k] == all && line[..index] == line;
    BeforeIsAll(all);
    return line;
  }

  lemma {:induction false} CodeAppend(segments: seq<Segment>, k: nat)
    requires k < |segments|
    ensures Code(segments[..k + 1]) ==
            Code(segments[..k]) + if segments[k].Annotation? then "" else SourceOf(segments[k])
    ensures CandidateCount(segments[..k + 1]) ==
            CandidateCount(segments[..k]) + if segments[k].Annotation? then 1 + SeparatorCount(segments[k].body) else 0
    decreases k
  {
    if k == 0 {
      assert segments[..1][1..] == [];
    } else {
      CodeAppend(segments[1..], k - 1);
      assert segments[..k + 1][1..] == segments[1..][..k] && segments[..k][1..] == segments[1..][..k - 1];
    }
  }

  lemma {:induction false} CountAppend(segments: seq<Segment>, k: nat, opener: string)
    requires k < |segments|
    ensures AnnotationCount(segments[..k + 1], opener) ==
            AnnotationCount(segments[..k], opener) +
            if segments[k].Annotation? && segments[k].opener == opener then 1 else 0
    decreases k
  {
    if k == 0 {
      assert segments[..1][1..] == [];
    } else {
      CountAppend(segments[1..], k - 1, opener);
      assert segments[..k + 1][1..] == segments[1..][..k] && segments[..k][1..] == segments[1..][..k - 1];
    }
  }

  /** The checker's strip, on bytes, with the annotations and the candidate values it counts on the way. */
  method StripAnnotations(openers: seq<string>, line: string)
      returns (out: string, counts: map<string, nat>, candidates: nat)
    ensures out == Code(Segments(openers, line))
    ensures forall key :: Tally(counts, key) == AnnotationCount(Segments(openers, line), key)
    ensures candidates == CandidateCount(Segments(openers, line))
  {
    out, counts, candidates := "", map[], 0;
    var index := 0;
    assert line[0..] == line;
    ghost var all, k := Segments(openers, line), 0;
    ghost var starts := Positions(openers, line, 0);
    while index < |line|
      invariant k <= |all| && Positioned(openers, line, all, starts) && index == starts[k] <= |line| &&
                (index < |line| <==> k < |all|)
      invariant out == Code(all[..k]) && candidates == CandidateCount(all[..k])
      invariant forall key :: Tally(counts, key) == AnnotationCount(all[..k], key)
      decreases |line| - index
    {
      CodeAppend(all, k);
      forall key ensures AnnotationCount(all[..k + 1], key) ==
                         AnnotationCount(all[..k], key) + if all[k].Annotation? && all[k].opener == key then 1 else 0 {
        CountAppend(all, k, key);
      }
      var segment, next := Scan(openers, line, index, all, starts, k);
      if segment.Annotation? {
        counts := Bump(counts, segment.opener);
        candidates := candidates + 1 + SeparatorCount(segment.body);
      } else {
        out := out + SourceOf(segment);
      }
      index, k := next, k + 1;
    }
    assert all[..k] == all;
  }
}
