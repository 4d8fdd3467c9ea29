/** ASCII text helpers: trimming, prefixes, case. */
module Text {
  import opened Collections

  predicate IsSpace(c: char) {
    c == ' ' || '\t' <= c <= '\r'
  }

  function TrimStart(s: string): string {
    if s != [] && IsSpace(s[0]) then TrimStart(s[1..]) else s
  }

  function TrimEnd(s: string): string {
    if s != [] && IsSpace(s[|s| - 1]) then TrimEnd(s[..|s| - 1]) else s
  }

  function Trim(s: string): string {
    TrimEnd(TrimStart(s))
  }

  predicate Blank(s: string) {
    forall i :: 0 <= i < |s| ==> IsSpace(s[i])
  }

  /** No blank at either end. */
  predicate Tight(s: string) {
    s != "" ==> !IsSpace(s[0]) && !IsSpace(s[|s| - 1])
  }

  lemma {:induction false} TrimEndParts(s: string) returns (trail: string)
    ensures Blank(trail) && s == TrimEnd(s) + trail
    ensures TrimEnd(s) != "" ==> !IsSpace(TrimEnd(s)[|TrimEnd(s)| - 1]) && TrimEnd(s)[0] == s[0]
  {
    if s != "" && IsSpace(s[|s| - 1]) {
      var shorter := TrimEndParts(s[..|s| - 1]);
      trail := shorter + [s[|s| - 1]];
      assert s == s[..|s| - 1] + [s[|s| - 1]];
    } else {
      trail := "";
    }
  }

  lemma {:induction false} TrimStartParts(s: string) returns (lead: string)
    ensures Blank(lead) && s == lead + TrimStart(s) && (TrimStart(s) != "" ==> !IsSpace(TrimStart(s)[0]))
  {
    if s != "" && IsSpace(s[0]) {
      var rest := TrimStartParts(s[1..]);
      lead := [s[0]] + rest;
      assert s == [s[0]] + s[1..];
    } else {
      lead := "";
    }
  }

  /** Trimming takes blanks off both ends and leaves none there. */
  lemma TrimParts(s: string) returns (lead: string, trail: string)
    ensures Blank(lead) && Blank(trail) && s == lead + Trim(s) + trail && Tight(Trim(s))
  {
    lead := TrimStartParts(s);
    trail := TrimEndParts(TrimStart(s));
  }

  lemma {:induction false} TrimEndKeeps(text: string, trail: string)
    requires Blank(trail) && (text != "" ==> !IsSpace(text[|text| - 1]))
    ensures TrimEnd(text + trail) == text
    decreases |trail|
  {
    if trail == "" {
      assert text + trail == text;
    } else {
      assert (text + trail)[..|text + trail| - 1] == text + trail[..|trail| - 1];
      TrimEndKeeps(text, trail[..|trail| - 1]);
    }
  }

  lemma {:induction false} TrimStartKeeps(lead: string, text: string)
    requires Blank(lead) && (text != "" ==> !IsSpace(text[0]))
    ensures TrimStart(lead + text) == text
    decreases |lead|
  {
    if lead == "" {
      assert lead + text == text;
    } else {
      assert (lead + text)[1..] == lead[1..] + text;
      TrimStartKeeps(lead[1..], text);
    }
  }

  /** So it is what is left between blanks. */
  lemma TrimKeeps(lead: string, text: string, trail: string)
    requires Blank(lead) && Blank(trail) && text != "" && Tight(text)
    ensures Trim(lead + text + trail) == text
  {
    assert lead + text + trail == lead + (text + trail);
    TrimStartKeeps(lead, text + trail);
    TrimEndKeeps(text, trail);
  }

  function StripPrefix(s: string, prefix: string): Option<string> {
    if prefix <= s then Some(s[|prefix|..]) else None
  }

  function LowerChar(c: char): char {
    if 'A' <= c <= 'Z' then c + ' ' else c
  }

  const UPPER := "ABCDEFGHIJKLMNOPQRSTUVWXYZ"
  const LOWER := "abcdefghijklmnopqrstuvwxyz"

  /** The same character, or an upper-case letter and the same letter in lower case. */
  predicate SameLetter(a: char, b: char) {
    a == b || exists k :: 0 <= k < |UPPER| && ((a == UPPER[k] && b == LOWER[k]) || (a == LOWER[k] && b == UPPER[k]))
  }

  /** The same text but for the case of its letters. */
  predicate SameButCase(a: string, b: string) {
    |a| == |b| && forall i :: 0 <= i < |a| ==> SameLetter(a[i], b[i])
  }

  lemma LettersByPosition(k: int)
    requires 0 <= k < 26
    ensures UPPER[k] as int == 'A' as int + k && LOWER[k] as int == 'a' as int + k
  {
  }

  lemma LoweredCharIs(c: char)
    ensures SameLetter(c, LowerChar(c)) && LowerChar(c) !in UPPER
    ensures c !in UPPER ==> LowerChar(c) == c
  {
    if 'A' <= c <= 'Z' {
      LoweredLetter(c);
    }
    forall k | 0 <= k < |UPPER| ensures 'A' <= UPPER[k] <= 'Z' {
      LettersByPosition(k);
    }
  }

  lemma LoweredLetter(c: char)
    requires 'A' <= c <= 'Z'
    ensures exists k :: 0 <= k < |UPPER| && c == UPPER[k] && LowerChar(c) == LOWER[k]
  {
    LettersByPosition(c as int - 'A' as int);
  }

  lemma SameLetterExactlyWhenLoweredAlike(a: char, b: char)
    ensures SameLetter(a, b) <==> LowerChar(a) == LowerChar(b)
  {
    forall k | 0 <= k < |UPPER| ensures UPPER[k] as int == 'A' as int + k && LOWER[k] as int == 'a' as int + k {
      LettersByPosition(k);
    }
    if LowerChar(a) == LowerChar(b) && a != b {
      if 'A' <= a <= 'Z' {
        LoweredLetter(a);
      } else {
        LoweredLetter(b);
      }
    }
  }

  /** Lowering forgets the case of letters and nothing else, and leaves no letter in upper case. */
  lemma LowerForgetsOnlyCase(a: string, b: string)
    ensures Lower(a) == Lower(b) <==> SameButCase(a, b)
    ensures SameButCase(a, Lower(a)) && forall c :: c in Lower(a) ==> c !in UPPER
  {
    forall i | 0 <= i < |a|
      ensures SameLetter(a[i], Lower(a)[i]) && Lower(a)[i] !in UPPER
      ensures i < |b| ==> (SameLetter(a[i], b[i]) <==> Lower(a)[i] == Lower(b)[i])
    {
      LoweredCharIs(a[i]);
      if i < |b| { SameLetterExactlyWhenLoweredAlike(a[i], b[i]); }
    }
    if Lower(a) == Lower(b) {
      assert |a| == |b|;
    }
  }

  function Lower(s: string): (r: string)
    ensures |r| == |s|
  {
    seq(|s|, i requires 0 <= i < |s| => LowerChar(s[i]))
  }
}
