/** When stripping a stripped line changes it again: removing an annotation has brought an opener together. */
module OverlayIdempotence {
  import opened Overlay
  import opened OverlayScanners

  /** An opener stands at the front, and a terminator follows it. */
  predicate OpensTerminated(openers: seq<string>, s: string) {
    var i := AnnotationAt(openers, s);
    i.Some? && FindClose(s[|openers[i.value]|..]).Some?
  }

  /** At the plain byte of segment `k`, where the line had no opener, one stands once the annotations are gone. */
  predicate NewOpenerAt(openers: seq<string>, segments: seq<Segment>, k: nat) {
    k < |segments| && segments[k].Plain? && AnnotationAt(openers, Code(segments[k..])).Some?
  }

  /** The first such opener is terminated in what is left of the line. */
  ghost predicate RevealsAnAnnotation(openers: seq<string>, segments: seq<Segment>) {
    exists k :: FirstNewOpenerIsTerminated(openers, segments, k)
  }

  ghost predicate FirstNewOpenerIsTerminated(openers: seq<string>, segments: seq<Segment>, k: nat) {
    && NewOpenerAt(openers, segments, k) && OpensTerminated(openers, Code(segments[k..]))
    && forall j: nat :: j < k ==> !NewOpenerAt(openers, segments, j)
  }

  lemma RevealingFront(openers: seq<string>, segments: seq<Segment>)
    requires segments != []
    ensures RevealsAnAnnotation(openers, segments) <==>
            if NewOpenerAt(openers, segments, 0) then OpensTerminated(openers, Code(segments))
            else RevealsAnAnnotation(openers, segments[1..])
  {
    assert segments[0..] == segments;
    var rest := segments[1..];
    forall k: nat ensures NewOpenerAt(openers, segments, k + 1) <==> NewOpenerAt(openers, rest, k) {
      if k < |rest| { assert segments[k + 1..] == rest[k..]; }
    }
    if NewOpenerAt(openers, segments, 0) {
      if OpensTerminated(openers, Code(segments)) {
        assert FirstNewOpenerIsTerminated(openers, segments, 0);
      }
    } else {
      if k: nat :| FirstNewOpenerIsTerminated(openers, segments, k) {
        assert segments[k..] == rest[k - 1..];
        forall j: nat | j < k - 1 ensures !NewOpenerAt(openers, rest, j) {
          assert !NewOpenerAt(openers, segments, j + 1);
        }
        assert FirstNewOpenerIsTerminated(openers, rest, k - 1);
      }
      if k: nat :| FirstNewOpenerIsTerminated(openers, rest, k) {
        assert segments[k + 1..] == rest[k..];
        forall j: nat | j < k + 1 ensures !NewOpenerAt(openers, segments, j) {
          if j > 0 { assert !NewOpenerAt(openers, rest, j - 1); }
        }
        assert FirstNewOpenerIsTerminated(openers, segments, k + 1);
      }
    }
  }

  // ---- What stays in step ----------------------------------------------------------------------

  lemma {:induction false} StrippingNeverGrows(openers: seq<string>, s: string)
    ensures |Code(Segments(openers, s))| <= |s|
    decreases |s|
  {
    if s != "" {
      StrippingNeverGrows(openers, Rest(openers, s));
      FirstIsTheFront(openers, s);
      assert Segments(openers, s)[1..] == Segments(openers, Rest(openers, s));
    }
  }

  /** A literal that ends before the line does is closed where it ends. */
  lemma {:induction false} EndedLiteralsAreClosed(s: string)
    requires LiteralTail(s) < |s|
    ensures LiteralCloses(s[..LiteralTail(s)]) && LiteralTail(s[..LiteralTail(s)]) == LiteralTail(s)
    decreases |s|
  {
    var n := LiteralTail(s);
    var text := s[..n];
    if s[0] == '\\' {
      EndedLiteralsAreClosed(s[2..]);
      assert text[2..] == s[2..][..n - 2];
    } else if s[0] != '"' {
      EndedLiteralsAreClosed(s[1..]);
      assert text[1..] == s[1..][..n - 1];
    }
  }

  lemma LiteralIsRescanned(openers: seq<string>, s: string, t: string)
    requires s != "" && s[0] == '"' && (Rest(openers, s) == "" ==> t == "")
    ensures var text := First(openers, s).text;
            First(openers, text + t) == Literal(text) && Rest(openers, text + t) == t
  {
    var n := 1 + LiteralTail(s[1..]);
    var text := s[..n];
    assert text[1..] == s[1..][..n - 1];
    if n < |s| {
      EndedLiteralsAreClosed(s[1..]);
    } else {
      assert text == s;
    }
    LiteralComesFirst(openers, text, t);
  }

  lemma StripOfFront(openers: seq<string>, s: string)
    requires s != ""
    ensures var r := First(openers, s); var c := Code(Segments(openers, Rest(openers, s)));
            Code(Segments(openers, s)) == if r.Annotation? then c else SourceOf(r) + c
    ensures Segments(openers, s) != [] && Segments(openers, s)[0] == First(openers, s)
    ensures Segments(openers, s)[1..] == Segments(openers, Rest(openers, s))
  {
  }

  /** A plain byte in front of stripped code: an opener there decides; otherwise the rest does. */
  lemma PlainVerdict(openers: seq<string>, c: char, rest: string)
    requires c != '"'
    ensures var code := [c] + rest;
            Code(Segments(openers, code)) == code <==>
            if AnnotationAt(openers, code).Some? then !OpensTerminated(openers, code)
            else Code(Segments(openers, rest)) == rest
  {
    var code := [c] + rest;
    StripOfFront(openers, code);
    if AnnotationAt(openers, code).None? {
      assert Rest(openers, code) == rest;
    } else if OpensTerminated(openers, code) {
      StrippingNeverGrows(openers, Rest(openers, code));
    } else {
      assert First(openers, code) == Unterminated(code) && Rest(openers, code) == "";
    }
  }

  /**
    * Stripping a line once more changes it exactly when the first strip has brought an opener together at a byte of
    * code outside literals, and that opener, the first such, is terminated in what is left.
    */
  lemma {:induction false} SecondStripChangesExactlyWhenOneIsRevealed(openers: seq<string>, s: string)
    ensures var once := Code(Segments(openers, s));
            Code(Segments(openers, once)) != once <==> RevealsAnAnnotation(openers, Segments(openers, s))
    decreases |s|
  {
    if s != "" {
      var segments, rest := Segments(openers, s), Rest(openers, s);
      StripOfFront(openers, s);
      RevealingFront(openers, segments);
      assert segments[0..] == segments;
      var tail := Code(Segments(openers, rest));
      match First(openers, s)
      case Literal(text) =>
        SecondStripChangesExactlyWhenOneIsRevealed(openers, rest);
        LiteralIsRescanned(openers, s, tail);
        StripOfFront(openers, text + tail);
      case Plain(c) =>
        SecondStripChangesExactlyWhenOneIsRevealed(openers, rest);
        PlainVerdict(openers, c, tail);
      case Annotation(_, _) =>
        SecondStripChangesExactlyWhenOneIsRevealed(openers, rest);
      case Unterminated(text) =>
        assert text == s && rest == "" && tail == "" && text + tail == s;
        SecondStripChangesExactlyWhenOneIsRevealed(openers, rest);
    }
  }

  // ---- A new opener straddles an annotation ----------------------------------------------------

  /** An annotation stands among the segments before `n` bytes of code are over. */
  predicate AnnotationWithin(segments: seq<Segment>, n: nat) {
    && segments != [] && n > 0
    && (segments[0].Annotation? || (Width(segments[0]) < n && AnnotationWithin(segments[1..], n - Width(segments[0]))))
  }

  lemma NoAnnotationInFront(segments: seq<Segment>, n: nat)
    requires !AnnotationWithin(segments, n) && segments != [] && n > 0
    ensures !segments[0].Annotation?
    ensures n > Width(segments[0]) ==> !AnnotationWithin(segments[1..], n - Width(segments[0]))
  {
  }

  lemma FrontsJoin(s: string, w: nat, code: string, n: nat)
    requires w <= |s| && w < n <= w + |code| && n - w <= |s| - w && code[..n - w] == s[w..][..n - w]
    ensures (s[..w] + code)[..n] == s[..n]
  {
    assert s[..n] == s[..w] + s[w..][..n - w];
    assert (s[..w] + code)[..n] == s[..w] + code[..n - w];
  }

  lemma {:induction false} CodeIsTheLineUntilAnAnnotation(openers: seq<string>, s: string, n: nat)
    requires !AnnotationWithin(Segments(openers, s), n) && n <= |Code(Segments(openers, s))|
    ensures n <= |s| && Code(Segments(openers, s))[..n] == s[..n]
    decreases |s|
  {
    if s != "" && n > 0 {
      var rest, r := Rest(openers, s), First(openers, s);
      StripOfFront(openers, s);
      NoAnnotationInFront(Segments(openers, s), n);
      FirstIsTheFront(openers, s);
      var w, code := Width(r), Code(Segments(openers, rest));
      assert Code(Segments(openers, s)) == s[..w] + code;
      if n > w {
        CodeIsTheLineUntilAnAnnotation(openers, rest, n - w);
        FrontsJoin(s, w, code, n);
      }
    }
  }

  /** The segments from `k` on are those of the line from there on. */
  lemma {:induction false} SegmentsFrom(openers: seq<string>, s: string, k: nat) returns (t: string)
    requires k < |Segments(openers, s)|
    ensures t != "" && Segments(openers, t) == Segments(openers, s)[k..]
    decreases k
  {
    if k == 0 {
      t := s;
    } else {
      t := SegmentsFrom(openers, Rest(openers, s), k - 1);
    }
  }

  lemma PlainHasNoOpener(openers: seq<string>, s: string)
    requires s != "" && First(openers, s).Plain?
    ensures AnnotationAt(openers, s).None?
  {
  }

  lemma PrefixOfBoth(p: string, a: string, b: string)
    requires p <= a && |p| <= |b| && a[..|p|] == b[..|p|]
    ensures p <= b
  {
  }

  /** Every new opener reaches across a removed annotation. */
  lemma NewOpenersStraddleAnAnnotation(openers: seq<string>, s: string, k: nat)
    requires NewOpenerAt(openers, Segments(openers, s), k)
    ensures var code := Code(Segments(openers, s)[k..]);
            AnnotationWithin(Segments(openers, s)[k..], |openers[AnnotationAt(openers, code).value]|)
  {
    var t := SegmentsFrom(openers, s, k);
    StripOfFront(openers, t);
    PlainHasNoOpener(openers, t);
    var code := Code(Segments(openers, t));
    var i := AnnotationAt(openers, code).value;
    if !AnnotationWithin(Segments(openers, t), |openers[i]|) {
      CodeIsTheLineUntilAnAnnotation(openers, t, |openers[i]|);
      PrefixOfBoth(openers[i], code, t);
      AnnotationIsFound(openers, t, i);
    }
  }

  // ---- The decompiler's strip ------------------------------------------------------------------

  lemma {:induction false} StrippedAsciiIsAscii(openers: seq<string>, s: string)
    requires IsAscii(s)
    ensures IsAscii(Code(Segments(openers, s)))
    decreases |s|
  {
    if s != "" {
      StripOfFront(openers, s);
      FirstIsTheFront(openers, s);
      StrippedAsciiIsAscii(openers, Rest(openers, s));
    }
  }

  /** On ASCII lines the same holds of the decompiler's strip. */
  lemma SecondDecompilerStripChangesExactlyWhenOneIsRevealed(openers: seq<string>, s: string)
    requires IsAscii(s)
    ensures var once := Pushed(Segments(openers, s));
            Pushed(Segments(openers, once)) != once <==> RevealsAnAnnotation(openers, Segments(openers, s))
  {
    AsciiLinesHaveNoWideBytes(openers, s);
    TwinsAgreeExactlyOnAscii(openers, s);
    var once := Code(Segments(openers, s));
    StrippedAsciiIsAscii(openers, s);
    AsciiLinesHaveNoWideBytes(openers, once);
    TwinsAgreeExactlyOnAscii(openers, once);
    SecondStripChangesExactlyWhenOneIsRevealed(openers, s);
  }
}
