/** Value annotations woven into lines and taken out again. The characters of a line are its bytes. */
module Overlay {
  import opened Collections

  const CLOSE := " */"
  const SEPARATOR := " | "

  /** The openers of the four loss sites: exhaustive join, non-exhaustive join, loop entry, call clobber. */
  const ANNOTATION_LITERALS: seq<string> :=
    [" /* = ", " /* possible (non-exhaustive): ", " /* loop-entry value: ", " /* value before this call: "]

  /** Every opener opens a comment after a blank, and none begins with another. */
  predicate AreOpeners(openers: seq<string>) {
    && (forall i :: 0 <= i < |openers| ==> " /*" <= openers[i])
    && (forall i, j :: 0 <= i < |openers| && 0 <= j < |openers| && openers[i] <= openers[j] ==> i == j)
  }

  lemma LiteralsAreOpeners()
    ensures AreOpeners(ANNOTATION_LITERALS)
  {
    var a := ANNOTATION_LITERALS;
    assert a[0][4] == '=' && a[1][4] == 'p' && a[2][4] == 'l' && a[3][4] == 'v';
    forall i, j | 0 <= i < |a| && 0 <= j < |a| && a[i] <= a[j] ensures i == j {
      assert a[i][4] == a[j][4];
    }
  }

  /** Which opener stands at the front of `s`, if any. */
  function AnnotationAt(openers: seq<string>, s: string): (r: Option<nat>)
    ensures r.Some? ==> r.value < |openers| && openers[r.value] <= s
  {
    if openers == [] then None
    else if openers[0] <= s then Some(0)
    else
      var rest := AnnotationAt(openers[1..], s);
      if rest.Some? then Some(rest.value + 1) else None
  }

  lemma {:induction false} AnnotationIsFound(openers: seq<string>, s: string, i: nat)
    requires i < |openers| && openers[i] <= s
    ensures AnnotationAt(openers, s).Some?
  {
    if !(openers[0] <= s) {
      AnnotationIsFound(openers[1..], s, i - 1);
    }
  }

  /** How far the first terminator is. */
  function FindClose(s: string): (r: Option<nat>)
    ensures r.Some? ==> r.value + |CLOSE| <= |s|
  {
    if |s| < |CLOSE| then None
    else if CLOSE <= s then Some(0)
    else
      var rest := FindClose(s[1..]);
      if rest.Some? then Some(rest.value + 1) else None
  }

  lemma {:induction false} CloseIsThere(s: string)
    requires FindClose(s).Some?
    ensures var k := FindClose(s).value; s[k..k + |CLOSE|] == CLOSE
    decreases |s|
  {
    if CLOSE <= s {
      assert s[0..|CLOSE|] == s[..|CLOSE|] == CLOSE;
    } else {
      CloseIsThere(s[1..]);
      var k := FindClose(s[1..]).value;
      assert FindClose(s).value == k + 1;
      assert s[1..][k..k + |CLOSE|] == s[k + 1..k + 1 + |CLOSE|];
    }
  }

  /** The terminator found is the first there is. */
  lemma {:induction false} CloseIsTheFirst(s: string, i: nat)
    requires i + |CLOSE| <= |s| && s[i..i + |CLOSE|] == CLOSE
    ensures FindClose(s).Some? && FindClose(s).value <= i
    decreases |s|
  {
    if i == 0 {
      assert s[..|CLOSE|] == CLOSE;
    } else if !(CLOSE <= s) {
      assert s[1..][i - 1..i - 1 + |CLOSE|] == s[i..i + |CLOSE|];
      CloseIsTheFirst(s[1..], i - 1);
    }
  }

  /** How many bytes after its opening quote a string literal takes; one that never closes takes the whole line. */
  function LiteralTail(s: string): (n: nat)
    ensures n <= |s|
  {
    if s == "" then 0
    else if s[0] == '\\' then if |s| == 1 then 1 else 2 + LiteralTail(s[2..])
    else if s[0] == '"' then 1
    else 1 + LiteralTail(s[1..])
  }

  /** How many backslashes stand right before position `i`. */
  function BackslashesBefore(s: string, i: nat): nat
    requires i <= |s|
  {
    if i == 0 || s[i - 1] != '\\' then 0 else 1 + BackslashesBefore(s, i - 1)
  }

  /** A quote behind an even number of backslashes, which therefore escape each other and not it. */
  predicate ClosingQuote(s: string, i: nat) {
    i < |s| && s[i] == '"' && BackslashesBefore(s, i) % 2 == 0
  }

  lemma {:induction false} BackslashesFurther(s: string, n: nat, i: nat)
    requires n <= i <= |s| && n > 0 && s[n - 1] != '\\'
    ensures BackslashesBefore(s, i) == BackslashesBefore(s[n..], i - n)
    decreases i
  {
    if i > n { BackslashesFurther(s, n, i - 1); }
  }

  lemma {:induction false} BackslashesBehindAPair(s: string, i: nat)
    requires 2 <= i <= |s| && s[0] == s[1] == '\\'
    ensures BackslashesBefore(s, i) % 2 == BackslashesBefore(s[2..], i - 2) % 2
    decreases i
  {
    if i > 2 {
      BackslashesBehindAPair(s, i - 1);
    } else {
      assert BackslashesBefore(s, 2) == 1 + BackslashesBefore(s, 1) &&
             BackslashesBefore(s, 1) == 1 + BackslashesBefore(s, 0);
    }
  }

  lemma ClosingQuoteFurther(s: string, i: nat)
    requires s != ""
    ensures s[0] == '"' ==> ClosingQuote(s, 0)
    ensures s[0] != '\\' && i > 0 ==> (ClosingQuote(s, i) <==> ClosingQuote(s[1..], i - 1))
    ensures s[0] == '\\' ==> !ClosingQuote(s, 0) && !ClosingQuote(s, 1)
    ensures s[0] == '\\' && i > 1 && |s| >= 2 ==> (ClosingQuote(s, i) <==> ClosingQuote(s[2..], i - 2))
  {
    assert BackslashesBefore(s, 0) == 0 && (s[0] == '\\' ==> BackslashesBefore(s, 1) == 1 + BackslashesBefore(s, 0));
    if i < |s| {
      if s[0] != '\\' && i > 0 {
        BackslashesFurther(s, 1, i);
      }
      if s[0] == '\\' && i > 1 {
        if s[1] == '\\' { BackslashesBehindAPair(s, i); } else { BackslashesFurther(s, 2, i); }
      }
    }
  }

  /** A literal ends behind the first quote no backslash escapes, or with the line when there is none. */
  lemma {:induction false} LiteralsEndAtTheirQuote(s: string)
    ensures var n := LiteralTail(s);
            if n > 0 && ClosingQuote(s, n - 1) then forall j: nat :: j < n - 1 ==> !ClosingQuote(s, j)
            else n == |s| && forall j: nat :: !ClosingQuote(s, j)
    decreases |s|
  {
    if s != "" {
      forall j: nat
        ensures s[0] == '"' ==> ClosingQuote(s, 0)
        ensures s[0] != '\\' && j > 0 ==> (ClosingQuote(s, j) <==> ClosingQuote(s[1..], j - 1))
        ensures s[0] == '\\' ==> !ClosingQuote(s, 0) && !ClosingQuote(s, 1)
        ensures s[0] == '\\' && j > 1 && |s| >= 2 ==> (ClosingQuote(s, j) <==> ClosingQuote(s[2..], j - 2))
      {
        ClosingQuoteFurther(s, j);
      }
      if s[0] == '\\' {
        if |s| > 1 {
          LiteralsEndAtTheirQuote(s[2..]);
        }
      } else if s[0] != '"' {
        LiteralsEndAtTheirQuote(s[1..]);
      }
    }
  }

  /** What a scanner sees, left to right. */
  datatype Segment =
    | Literal(text: string)
    | Plain(c: char)
    | Annotation(opener: string, body: string)
    | Unterminated(text: string)

  function Render(opener: string, body: string): string {
    opener + body + CLOSE
  }

  function SourceOf(segment: Segment): string {
    match segment
    case Literal(text) => text
    case Plain(c) => [c]
    case Annotation(opener, body) => Render(opener, body)
    case Unterminated(text) => text
  }

  /** How many bytes a segment takes. */
  function Width(segment: Segment): nat {
    match segment
    case Literal(text) => |text|
    case Plain(c) => 1
    case Annotation(opener, body) => |opener| + |body| + |CLOSE|
    case Unterminated(text) => |text|
  }

  /** The segment at the front of a line. */
  function First(openers: seq<string>, s: string): (r: Segment)
    requires s != ""
    ensures 0 < Width(r) <= |s|
  {
    if s[0] == '"' then Literal(s[..1 + LiteralTail(s[1..])])
    else
      match AnnotationAt(openers, s)
      case None => Plain(s[0])
      case Some(i) =>
        var body := s[|openers[i]|..];
        match FindClose(body)
        case None => Unterminated(s)
        case Some(k) => Annotation(openers[i], body[..k])
  }

  function Rest(openers: seq<string>, s: string): string
    requires s != ""
  {
    s[Width(First(openers, s))..]
  }

  function Segments(openers: seq<string>, s: string): seq<Segment>
    decreases |s|
  {
    if s == "" then [] else [First(openers, s)] + Segments(openers, Rest(openers, s))
  }

  function Source(segments: seq<Segment>): string {
    if segments == [] then "" else SourceOf(segments[0]) + Source(segments[1..])
  }

  /** The line without its annotations. */
  function Code(segments: seq<Segment>): string {
    if segments == [] then ""
    else (if segments[0].Annotation? then "" else SourceOf(segments[0])) + Code(segments[1..])
  }

  /** The line up to its first annotation, terminated or not. */
  function Before(segments: seq<Segment>): string {
    if segments == [] || segments[0].Annotation? || segments[0].Unterminated? then ""
    else SourceOf(segments[0]) + Before(segments[1..])
  }

  lemma RenderedFront(opener: string, s: string, k: nat)
    requires opener <= s && k + |CLOSE| <= |s| - |opener| && s[|opener|..][k..k + |CLOSE|] == CLOSE
    ensures Render(opener, s[|opener|..][..k]) == s[..|opener| + k + |CLOSE|]
  {
    var open := |opener|;
    assert s[|opener|..][k..k + |CLOSE|] == s[open + k..open + k + |CLOSE|];
    assert s[..open + k + |CLOSE|] == s[..open] + s[open..open + k] + s[open + k..open + k + |CLOSE|];
  }

  lemma FirstIsTheFront(openers: seq<string>, s: string)
    requires s != ""
    ensures SourceOf(First(openers, s)) == s[..Width(First(openers, s))]
  {
    var r := First(openers, s);
    if r.Annotation? {
      CloseIsThere(s[|r.opener|..]);
      RenderedFront(r.opener, s, |r.body|);
    }
  }

  /** Scanning loses nothing. */
  lemma {:induction false} SegmentsAreTheLine(openers: seq<string>, s: string)
    ensures Source(Segments(openers, s)) == s
    decreases |s|
  {
    if s != "" {
      FirstIsTheFront(openers, s);
      assert s == s[..Width(First(openers, s))] + Rest(openers, s);
      SegmentsAreTheLine(openers, Rest(openers, s));
    }
  }

  /** What analyses look at is always the front of what stripping leaves. */
  lemma {:induction false} BeforeIsAPrefix(segments: seq<Segment>)
    ensures Before(segments) <= Code(segments)
  {
    if segments != [] {
      BeforeIsAPrefix(segments[1..]);
    }
  }

  /** A string literal comes through stripping as it is, between what its two sides strip to. */
  lemma {:induction false} LiteralsAreCopied(segments: seq<Segment>, k: nat)
    requires k < |segments| && segments[k].Literal?
    ensures Code(segments) == Code(segments[..k]) + segments[k].text + Code(segments[k + 1..])
  {
    if k > 0 {
      LiteralsAreCopied(segments[1..], k - 1);
      assert segments[..k][1..] == segments[1..][..k - 1];
    }
  }

  // ---------- Round trip ----------

  /** The literal opened just before `s` is closed within `s`. */
  predicate LiteralCloses(s: string) {
    s != "" && if s[0] == '\\' then |s| >= 2 && LiteralCloses(s[2..]) else s[0] == '"' || LiteralCloses(s[1..])
  }

  /** No comment opens outside a string literal, and unless `ragged` every literal is closed. */
  predicate Clean(s: string, ragged: bool)
    decreases |s|
  {
    s == "" ||
    if s[0] == '"' then (ragged || LiteralCloses(s[1..])) && Clean(s[1 + LiteralTail(s[1..])..], ragged)
    else !("/*" <= s) && Clean(s[1..], ragged)
  }

  lemma {:induction false} LiteralEndsWhereItDid(s: string, t: string)
    requires LiteralCloses(s)
    ensures LiteralTail(s + t) == LiteralTail(s)
    decreases |s|
  {
    if s[0] == '\\' {
      LiteralEndsWhereItDid(s[2..], t);
      assert (s + t)[2..] == s[2..] + t;
    } else if s[0] != '"' {
      LiteralEndsWhereItDid(s[1..], t);
      assert (s + t)[1..] == s[1..] + t;
    }
  }

  lemma NoCloseYet(body: string, t: string)
    requires FindClose(body).None? && body != ""
    ensures !(CLOSE <= body + CLOSE + t)
  {
    var s := body + CLOSE + t;
    assert s[|body|] == ' ';
    if |body| >= 3 {
      assert s[..3] == body[..3];
    }
  }

  lemma {:induction false} FirstCloseIsItsOwn(body: string, t: string)
    requires FindClose(body).None?
    ensures FindClose(body + CLOSE + t) == Some(|body|)
    decreases |body|
  {
    var s := body + CLOSE + t;
    if body == "" {
      assert CLOSE <= s;
    } else {
      NoCloseYet(body, t);
      assert s[1..] == body[1..] + CLOSE + t;
      FirstCloseIsItsOwn(body[1..], t);
    }
  }

  lemma NoCommentOpensNext(p: string, ragged: bool)
    requires |p| >= 3 && p[0] != '"' && Clean(p, ragged)
    ensures !(p[1] == '/' && p[2] == '*')
  {
    assert p[1..][0] == p[1] && p[1..][1] == p[2];
  }

  lemma OpenerShape(openers: seq<string>, s: string)
    requires AreOpeners(openers) && AnnotationAt(openers, s).Some?
    ensures |s| >= 3 && s[1] == '/' && s[2] == '*'
  {
    assert " /*" <= openers[AnnotationAt(openers, s).value] <= s;
  }

  /** No opener can begin inside clean code, even where an annotation follows. */
  lemma NoOpenerInCode(openers: seq<string>, p: string, t: string, ragged: bool)
    requires AreOpeners(openers) && p != "" && p[0] != '"' && Clean(p, ragged) && (t == "" || t[0] == ' ')
    ensures AnnotationAt(openers, p + t).None?
  {
    if |p| >= 3 {
      NoCommentOpensNext(p, ragged);
    }
    if AnnotationAt(openers, p + t).Some? {
      OpenerShape(openers, p + t);
    }
  }

  lemma LiteralComesFirst(openers: seq<string>, p: string, t: string)
    requires p != "" && p[0] == '"' && (t == "" || LiteralCloses(p[1..]))
    ensures var n := 1 + LiteralTail(p[1..]);
            First(openers, p + t) == Literal(p[..n]) && Rest(openers, p + t) == p[n..] + t
  {
    var n := 1 + LiteralTail(p[1..]);
    assert (p + t)[1..] == p[1..] + t;
    if t == "" {
      assert p + t == p;
    } else {
      LiteralEndsWhereItDid(p[1..], t);
    }
    assert (p + t)[..n] == p[..n] && (p + t)[n..] == p[n..] + t;
  }

  lemma PlainComesFirst(openers: seq<string>, p: string, t: string, ragged: bool)
    requires AreOpeners(openers) && p != "" && p[0] != '"' && Clean(p, ragged) && (t == "" || t[0] == ' ')
    ensures First(openers, p + t) == Plain(p[0]) && Rest(openers, p + t) == p[1..] + t
  {
    NoOpenerInCode(openers, p, t, ragged);
    assert (p + t)[1..] == p[1..] + t;
  }

  lemma CodeIsKept(openers: seq<string>, s: string, rest: string)
    requires s != "" && Rest(openers, s) == rest && !First(openers, s).Annotation? && !First(openers, s).Unterminated?
    ensures Code(Segments(openers, s)) == SourceOf(First(openers, s)) + Code(Segments(openers, rest))
    ensures Before(Segments(openers, s)) == SourceOf(First(openers, s)) + Before(Segments(openers, rest))
  {
    assert Segments(openers, s)[1..] == Segments(openers, rest);
  }

  /** How much of clean code the first segment takes. */
  function Taken(p: string): (n: nat)
    requires p != ""
    ensures 0 < n <= |p|
  {
    if p[0] == '"' then 1 + LiteralTail(p[1..]) else 1
  }

  lemma CleanFront(openers: seq<string>, p: string, t: string, ragged: bool)
    requires AreOpeners(openers) && p != "" && Clean(p, ragged) && (t == "" || t[0] == ' ') && (ragged ==> t == "")
    ensures var r := First(openers, p + t);
            (r.Literal? || r.Plain?) && SourceOf(r) == p[..Taken(p)] && Rest(openers, p + t) == p[Taken(p)..] + t
  {
    if p[0] == '"' {
      LiteralComesFirst(openers, p, t);
    } else {
      PlainComesFirst(openers, p, t, ragged);
    }
  }

  lemma {:induction false} CodeComesThrough(openers: seq<string>, p: string, t: string, ragged: bool)
    requires AreOpeners(openers) && Clean(p, ragged) && (t == "" || t[0] == ' ') && (ragged ==> t == "")
    ensures Code(Segments(openers, p + t)) == p + Code(Segments(openers, t))
    ensures Before(Segments(openers, p + t)) == p + Before(Segments(openers, t))
    decreases |p|
  {
    if p == "" {
      assert p + t == t;
    } else {
      CleanFront(openers, p, t, ragged);
      CodeIsKept(openers, p + t, p[Taken(p)..] + t);
      CodeComesThrough(openers, p[Taken(p)..], t, ragged);
      Joined(p, Taken(p), Code(Segments(openers, t)));
      Joined(p, Taken(p), Before(Segments(openers, t)));
    }
  }

  lemma Joined(p: string, n: nat, x: string)
    requires n <= |p|
    ensures p[..n] + (p[n..] + x) == p + x
  {
    assert p == p[..n] + p[n..];
  }

  lemma PrefixesNest(a: string, b: string, s: string)
    requires a <= s && b <= s
    ensures a <= b || b <= a
  {
    assert a == s[..|a|] && b == s[..|b|];
  }

  /** At most one opener matches, so the order they are tried in does not matter. */
  lemma OpenersExclude(openers: seq<string>, i: nat, s: string)
    requires AreOpeners(openers) && i < |openers| && openers[i] <= s
    ensures AnnotationAt(openers, s) == Some(i)
  {
    AnnotationIsFound(openers, s, i);
    PrefixesNest(openers[i], openers[AnnotationAt(openers, s).value], s);
  }

  lemma AnnotationComesFirst(openers: seq<string>, i: nat, body: string, t: string)
    requires AreOpeners(openers) && i < |openers| && FindClose(body).None?
    ensures var s := Render(openers[i], body) + t;
            s[0] == ' ' && First(openers, s) == Annotation(openers[i], body) && Rest(openers, s) == t
  {
    var s := Render(openers[i], body) + t;
    assert " /*" <= openers[i] <= s;
    OpenersExclude(openers, i, s);
    assert s[|openers[i]|..] == body + CLOSE + t;
    FirstCloseIsItsOwn(body, t);
    assert (body + CLOSE + t)[..|body|] == body;
  }

  /** A stretch of code and the annotation emitted after it. */
  datatype Insertion = Insertion(code: string, opener: nat, body: string)

  predicate Known(openers: seq<string>, parts: seq<Insertion>) {
    forall k :: 0 <= k < |parts| ==> parts[k].opener < |openers|
  }

  function Weave(openers: seq<string>, parts: seq<Insertion>, last: string): string
    requires Known(openers, parts)
  {
    if parts == [] then last
    else parts[0].code + (Render(openers[parts[0].opener], parts[0].body) + Weave(openers, parts[1..], last))
  }

  function CodeOf(parts: seq<Insertion>, last: string): string {
    if parts == [] then last else parts[0].code + CodeOf(parts[1..], last)
  }

  ghost predicate WellAnnotated(parts: seq<Insertion>, last: string) {
    && Clean(last, true)
    && forall k :: 0 <= k < |parts| ==> Clean(parts[k].code, false) && FindClose(parts[k].body).None?
  }

  lemma AnnotationIsDropped(openers: seq<string>, s: string, rest: string)
    requires s != "" && Rest(openers, s) == rest && First(openers, s).Annotation?
    ensures Code(Segments(openers, s)) == Code(Segments(openers, rest)) && Before(Segments(openers, s)) == ""
  {
    assert Segments(openers, s)[1..] == Segments(openers, rest);
  }

  lemma OneInsertion(openers: seq<string>, part: Insertion, rest: string)
    requires AreOpeners(openers) && part.opener < |openers| && Clean(part.code, false) && FindClose(part.body).None?
    ensures var line := part.code + (Render(openers[part.opener], part.body) + rest);
            Code(Segments(openers, line)) == part.code + Code(Segments(openers, rest)) &&
              Before(Segments(openers, line)) == part.code
  {
    var t := Render(openers[part.opener], part.body) + rest;
    AnnotationComesFirst(openers, part.opener, part.body, rest);
    AnnotationIsDropped(openers, t, rest);
    CodeComesThrough(openers, part.code, t, false);
  }

  /** Stripping undoes annotating, however many annotations were inserted; analyses see the code before the first. */
  lemma {:induction false} StrippingUndoesAnnotating(openers: seq<string>, parts: seq<Insertion>, last: string)
    requires AreOpeners(openers) && Known(openers, parts) && WellAnnotated(parts, last)
    ensures Code(Segments(openers, Weave(openers, parts, last))) == CodeOf(parts, last)
    ensures Before(Segments(openers, Weave(openers, parts, last))) == if parts == [] then last else parts[0].code
    decreases |parts|
  {
    if parts == [] {
      CodeComesThrough(openers, last, "", true);
      assert last + "" == last;
    } else {
      StrippingUndoesAnnotating(openers, parts[1..], last);
      OneInsertion(openers, parts[0], Weave(openers, parts[1..], last));
    }
  }

  /** A line in which no comment opens at all is clean. */
  lemma {:induction false} NoCommentIsClean(s: string)
    requires forall i :: 0 <= i < |s| ==> !("/*" <= s[i..])
    ensures Clean(s, true)
    decreases |s|
  {
    if s != "" {
      var n := if s[0] == '"' then 1 + LiteralTail(s[1..]) else 1;
      forall i | 0 <= i < |s[n..]| ensures !("/*" <= s[n..][i..]) {
        assert s[n..][i..] == s[n + i..];
      }
      NoCommentIsClean(s[n..]);
      assert s[0..] == s;
    }
  }

  /** Clean lines, and so lines in which no comment opens, are left as they are. */
  lemma CleanLinesAreUntouched(openers: seq<string>, line: string)
    requires AreOpeners(openers) && Clean(line, true)
    ensures Code(Segments(openers, line)) == line && Before(Segments(openers, line)) == line
  {
    CodeComesThrough(openers, line, "", true);
    assert line + "" == line;
  }

  /** The first character of `p` is plain code when no opener begins there. */
  lemma PlainFront(openers: seq<string>, s: string)
    requires s != "" && s[0] != '"' && AnnotationAt(openers, s).None?
    ensures Code(Segments(openers, s)) == [s[0]] + Code(Segments(openers, s[1..]))
  {
    CodeIsKept(openers, s, s[1..]);
  }

  lemma NotAnOpener(openers: seq<string>, s: string)
    requires AreOpeners(openers) && (|s| < 3 || s[1] != '/' || s[2] != '*')
    ensures AnnotationAt(openers, s).None?
  {
    if AnnotationAt(openers, s).Some? {
      OpenerShape(openers, s);
    }
  }

  /** The rest of a comment whose blank an annotation took. */
  lemma BareCommentIsKept(openers: seq<string>)
    requires AreOpeners(openers)
    ensures Code(Segments(openers, "/* =  */")) == "/* =  */"
  {
    var rest := "* =  */";
    assert "/* =  */" == ['/'] + rest;
    forall i | 0 <= i < |rest| ensures !("/*" <= rest[i..]) {
      assert rest[i] == '/' ==> i == 6;
    }
    NoCommentIsClean(rest);
    CleanLinesAreUntouched(openers, rest);
    NotAnOpener(openers, "/* =  */");
    PlainFront(openers, "/* =  */");
  }

  /**
    * Stripping twice can remove more than stripping once: an annotation may stand between a blank and a bare
    * comment.
    */
  lemma StrippingTwiceCanRemoveMore(openers: seq<string>, i: nat) returns (line: string)
    requires AreOpeners(openers) && i < |openers| && openers[i] == " /* = "
    ensures Code(Segments(openers, line)) == " /* =  */" && Code(Segments(openers, Code(Segments(openers, line)))) == ""
  {
    var hidden, once := "/* =  */", " /* =  */";
    var shown := Render(openers[i], "") + hidden;
    line := " " + shown;
    assert line[1..] == shown && once == Render(openers[i], "") + "" == " " + hidden;
    assert line[1] == ' ';
    NotAnOpener(openers, line);
    PlainFront(openers, line);
    AnnotationComesFirst(openers, i, "", hidden);
    AnnotationIsDropped(openers, shown, hidden);
    BareCommentIsKept(openers);
    AnnotationComesFirst(openers, i, "", "");
    AnnotationIsDropped(openers, once, "");
  }
}
