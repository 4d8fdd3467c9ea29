/** Lexicographic order on strings and on ledger keys, and stable sorting by key. */
module Ordering {

  predicate Less(a: string, b: string) {
    if b == [] then false
    else if a == [] then true
    else a[0] < b[0] || (a[0] == b[0] && Less(a[1..], b[1..]))
  }

  lemma {:induction false} LessIrreflexive(a: string)
    ensures !Less(a, a)
  {
    if a != [] { LessIrreflexive(a[1..]); }
  }

  lemma {:induction false} LessTransitive(a: string, b: string, c: string)
    requires Less(a, b) && Less(b, c)
    ensures Less(a, c)
  {
    if a != [] && a[0] == b[0] && b[0] == c[0] {
      LessTransitive(a[1..], b[1..], c[1..]);
    }
  }

  lemma {:induction false} LessTotal(a: string, b: string)
    ensures Less(a, b) || a == b || Less(b, a)
  {
    if a != [] && b != [] && a[0] == b[0] {
      LessTotal(a[1..], b[1..]);
      assert a == [a[0]] + a[1..] && b == [b[0]] + b[1..];
    }
  }

  lemma LessAsymmetric(a: string, b: string)
    ensures !(Less(a, b) && Less(b, a))
  {
    if Less(a, b) && Less(b, a) {
      LessTransitive(a, b, a);
      LessIrreflexive(a);
    }
  }

  /** What one ledger row is keyed by: snapshot hash, then host OS, then host architecture. */
  datatype Key = Key(hash: string, os: string, arch: string)

  predicate KeyLess(a: Key, b: Key) {
    || Less(a.hash, b.hash)
    || (a.hash == b.hash && (Less(a.os, b.os) || (a.os == b.os && Less(a.arch, b.arch))))
  }

  lemma KeyOrder(a: Key, b: Key, c: Key)
    ensures !KeyLess(a, a)
    ensures KeyLess(a, b) || a == b || KeyLess(b, a)
    ensures !(KeyLess(a, b) && KeyLess(b, a))
    ensures KeyLess(a, b) && KeyLess(b, c) ==> KeyLess(a, c)
  {
    LessIrreflexive(a.hash); LessIrreflexive(a.os); LessIrreflexive(a.arch);
    LessTotal(a.hash, b.hash); LessTotal(a.os, b.os); LessTotal(a.arch, b.arch);
    LessAsymmetric(a.hash, b.hash); LessAsymmetric(a.os, b.os); LessAsymmetric(a.arch, b.arch);
    if Less(a.hash, b.hash) && Less(b.hash, c.hash) { LessTransitive(a.hash, b.hash, c.hash); }
    if Less(a.os, b.os) && Less(b.os, c.os) { LessTransitive(a.os, b.os, c.os); }
    if Less(a.arch, b.arch) && Less(b.arch, c.arch) { LessTransitive(a.arch, b.arch, c.arch); }
  }

  /** Ascending by key, ties allowed. */
  ghost predicate SortedByKey<T>(s: seq<T>, key: T -> Key) {
    forall i, j :: 0 <= i < j < |s| ==> !KeyLess(key(s[j]), key(s[i]))
  }

  /** `x` goes in front of the first element whose key is not smaller. */
  function InsertByKey<T>(x: T, s: seq<T>, key: T -> Key): (r: seq<T>)
    requires SortedByKey(s, key)
    ensures SortedByKey(r, key) && multiset(r) == multiset(s) + multiset{x}
  {
    if s == [] then [x]
    else if !KeyLess(key(s[0]), key(x)) then
      KeysNotBelow(x, s, key);
      [x] + s
    else
      var rest := InsertByKey(x, s[1..], key);
      InsertedKeysNotBelow(x, s, rest, key);
      assert s == [s[0]] + s[1..];
      [s[0]] + rest
  }

  lemma KeysNotBelow<T>(x: T, s: seq<T>, key: T -> Key)
    requires SortedByKey(s, key) && s != [] && !KeyLess(key(s[0]), key(x))
    ensures forall i :: 0 <= i < |s| ==> !KeyLess(key(s[i]), key(x))
  {
    forall i | 0 <= i < |s| ensures !KeyLess(key(s[i]), key(x)) {
      KeyOrder(key(s[i]), key(x), key(s[0]));
      KeyOrder(key(s[0]), key(x), key(s[i]));
      KeyOrder(key(x), key(s[0]), key(s[i]));
    }
  }

  lemma InsertedKeysNotBelow<T>(x: T, s: seq<T>, rest: seq<T>, key: T -> Key)
    requires SortedByKey(s, key) && s != [] && KeyLess(key(s[0]), key(x))
    requires multiset(rest) == multiset(s[1..]) + multiset{x}
    ensures forall i :: 0 <= i < |rest| ==> !KeyLess(key(rest[i]), key(s[0]))
  {
    forall i | 0 <= i < |rest| ensures !KeyLess(key(rest[i]), key(s[0])) {
      assert rest[i] in multiset(rest);
      KeyOrder(key(x), key(s[0]), key(x));
      assert rest[i] == x || rest[i] in s[1..];
    }
  }

  /** `sort_by` on a key: stable, and a permutation. */
  function SortByKey<T>(s: seq<T>, key: T -> Key): (r: seq<T>)
    ensures SortedByKey(r, key) && multiset(r) == multiset(s)
  {
    if s == [] then []
    else
      assert s == [s[0]] + s[1..];
      InsertByKey(s[0], SortByKey(s[1..], key), key)
  }

  lemma SameMembers<T>(a: seq<T>, b: seq<T>)
    requires multiset(a) == multiset(b)
    ensures |a| == |b| && forall x :: x in a <==> x in b
  {
    forall x ensures x in a <==> x in b {
      assert x in a <==> x in multiset(a);
      assert x in b <==> x in multiset(b);
    }
    assert |multiset(a)| == |a| && |multiset(b)| == |b|;
  }
}
