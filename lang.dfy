/** The few pieces of java.lang the sign subsystem relies on: nullable values,
    the exceptions its code paths can raise, and String.trim, equalsIgnoreCase
    and replace as the subsystem uses them. */
module Lang {

  /** A Java reference that may be null. */
  datatype Option<+T> = None | Some(value: T)

  /** The exceptions (and the one error) that the modelled code can raise. */
  datatype Exception =
    | NullPointer
    | IndexOutOfBounds
    | ConcurrentModification
    | StackOverflow

  /** A computation that either returns a value or raises. */
  datatype Result<+T> = Ok(value: T) | Thrown(error: Exception)

  /** A void computation that either completes or raises. */
  datatype Outcome = Pass | Fail(error: Exception)

  /** Java's `trim` removes every leading and trailing char whose code is at most U+0020. */
  predicate IsTrimmed(c: char) {
    c <= ' '
  }

  function TrimStart(s: string): (r: string)
    ensures |r| <= |s| && r == s[|s| - |r|..]
    ensures forall i :: 0 <= i < |s| - |r| ==> IsTrimmed(s[i])
    ensures r == [] || !IsTrimmed(r[0])
  {
    if s != [] && IsTrimmed(s[0]) then
      var r := TrimStart(s[1..]);
      assert s[1..][|s| - 1 - |r|..] == s[|s| - |r|..];
      assert forall i :: 1 <= i < |s| - |r| ==> s[i] == s[1..][i - 1];
      r
    else s
  }

  function TrimEnd(s: string): (r: string)
    ensures |r| <= |s| && r == s[..|r|]
    ensures forall i :: |r| <= i < |s| ==> IsTrimmed(s[i])
    ensures r == [] || !IsTrimmed(r[|r| - 1])
  {
    if s != [] && IsTrimmed(s[|s| - 1]) then
      var r := TrimEnd(s[..|s| - 1]);
      assert s[..|s| - 1][..|r|] == s[..|r|];
      assert forall i :: |r| <= i < |s| - 1 ==> s[i] == s[..|s| - 1][i];
      r
    else s
  }

  /** `String.trim()`: the longest infix of `s` that neither starts nor ends
      with a trimmed char. */
  function Trim(s: string): (r: string)
    ensures |r| <= |s|
    ensures r == [] || (!IsTrimmed(r[0]) && !IsTrimmed(r[|r| - 1]))
    ensures s == [] || (!IsTrimmed(s[0]) && !IsTrimmed(s[|s| - 1])) ==> r == s
    ensures exists k :: Strips(s, r, k)
  {
    var t := TrimStart(s);
    var r := TrimEnd(t);
    var k := |s| - |t|;
    assert r == s[k..k + |r|];
    assert forall i :: k + |r| <= i < |s| ==> s[i] == t[i - k];
    assert Strips(s, r, k);
    r
  }

  /** `r` is the infix of `s` at offset `k`, and everything before and after
      it is trimmed. */
  predicate Strips(s: string, r: string, k: int) {
    && 0 <= k <= |s| - |r| && r == s[k..k + |r|]
    && (forall i :: 0 <= i < k ==> IsTrimmed(s[i]))
    && (forall i :: k + |r| <= i < |s| ==> IsTrimmed(s[i]))
  }

  /** `Character.toUpperCase` restricted to ASCII letters. */
  function ToUpperCase(c: char): (r: char)
    ensures 'a' <= c <= 'z' ==> r as int == c as int - 32
    ensures !('a' <= c <= 'z') ==> r == c
  {
    if 'a' <= c <= 'z' then (c as int - 32) as char else c
  }

  /** `Character.toLowerCase` restricted to ASCII letters. */
  function ToLowerCase(c: char): (r: char)
    ensures 'A' <= c <= 'Z' ==> r as int == c as int + 32
    ensures !('A' <= c <= 'Z') ==> r == c
  {
    if 'A' <= c <= 'Z' then (c as int + 32) as char else c
  }

  /** The per-char test of `String.regionMatches(true, ...)`: equal, equal
      upper-cased, or equal lower-cased after upper-casing. */
  predicate CharEqualsIgnoreCase(a: char, b: char) {
    || a == b
    || ToUpperCase(a) == ToUpperCase(b)
    || ToLowerCase(ToUpperCase(a)) == ToLowerCase(ToUpperCase(b))
  }

  /** `String.equalsIgnoreCase`. */
  predicate EqualsIgnoreCase(a: string, b: string) {
    |a| == |b| && forall i :: 0 <= i < |a| ==> CharEqualsIgnoreCase(a[i], b[i])
  }

  lemma EqualsIgnoreCaseSymmetric(a: string, b: string)
    requires EqualsIgnoreCase(a, b)
    ensures EqualsIgnoreCase(b, a)
  {
  }

  /** Upper-casing or lower-casing any chars of a string keeps it equal to the
      original, ignoring case. */
  lemma CaseVariantEqualsIgnoreCase(a: string, b: string)
    requires |a| == |b|
    requires forall i :: 0 <= i < |a| ==> b[i] == a[i] || b[i] == ToUpperCase(a[i]) || b[i] == ToLowerCase(a[i])
    ensures EqualsIgnoreCase(a, b)
  {
    forall i | 0 <= i < |a| ensures CharEqualsIgnoreCase(a[i], b[i]) {
      var c := a[i];
      if 'A' <= c <= 'Z' && b[i] == ToLowerCase(c) {
        assert ToUpperCase(b[i]) == c;
      }
    }
  }

  /** `s.replace(pair, with)` for a two-char `pair`: every non-overlapping
      occurrence, taken from left to right, is replaced. */
  function ReplacePair(s: string, p0: char, p1: char, with: string): (r: string)
    decreases |s|
  {
    if |s| >= 2 && s[0] == p0 && s[1] == p1 then with + ReplacePair(s[2..], p0, p1, with)
    else if s == [] then []
    else [s[0]] + ReplacePair(s[1..], p0, p1, with)
  }

  /** `p0` directly followed by `p1` occurs somewhere in `s`. */
  predicate ContainsPair(s: string, p0: char, p1: char) {
    exists i :: 0 <= i < |s| - 1 && s[i] == p0 && s[i + 1] == p1
  }

  /** A string without the pair is left as it is. */
  lemma {:induction false} ReplacePairIdentity(s: string, p0: char, p1: char, with: string)
    requires !ContainsPair(s, p0, p1)
    ensures ReplacePair(s, p0, p1, with) == s
  {
    if s != [] {
      ReplacePairIdentity(s[1..], p0, p1, with);
    }
  }

  /** The first char of a replacement result, when the result is not empty. */
  lemma {:induction false} ReplacePairHead(s: string, p0: char, p1: char, with: string)
    requires s != [] && with != []
    ensures ReplacePair(s, p0, p1, with) != []
    ensures ReplacePair(s, p0, p1, with)[0] ==
              if |s| >= 2 && s[0] == p0 && s[1] == p1 then with[0] else s[0]
  {
  }

  /** When the replacement neither starts with `p1` nor contains the pair and
      does not end in `p0`, no occurrence of the pair survives the replacement. */
  lemma {:induction false} ReplacePairRemovesAll(s: string, p0: char, p1: char, with: string)
    requires with != [] && with[0] != p1 && with[|with| - 1] != p0
    requires !ContainsPair(with, p0, p1)
    ensures !ContainsPair(ReplacePair(s, p0, p1, with), p0, p1)
    decreases |s|
  {
    var r := ReplacePair(s, p0, p1, with);
    if |s| >= 2 && s[0] == p0 && s[1] == p1 {
      var t := ReplacePair(s[2..], p0, p1, with);
      ReplacePairRemovesAll(s[2..], p0, p1, with);
      assert r == with + t;
      if t != [] {
        ReplacePairHead(s[2..], p0, p1, with);
      }
      NoPairInConcat(with, t, p0, p1);
    } else if s != [] {
      var t := ReplacePair(s[1..], p0, p1, with);
      ReplacePairRemovesAll(s[1..], p0, p1, with);
      assert r == [s[0]] + t;
      if t != [] {
        ReplacePairHead(s[1..], p0, p1, with);
        assert s[0] == p0 ==> t[0] != p1;
      }
      NoPairInConcat([s[0]], t, p0, p1);
    }
  }

  lemma NoPairInConcat(a: string, b: string, p0: char, p1: char)
    requires !ContainsPair(a, p0, p1) && !ContainsPair(b, p0, p1)
    requires a != [] && b != [] ==> !(a[|a| - 1] == p0 && b[0] == p1)
    ensures !ContainsPair(a + b, p0, p1)
  {
    var s := a + b;
    forall i | 0 <= i < |s| - 1 ensures !(s[i] == p0 && s[i + 1] == p1) {
      if i + 1 < |a| {
        assert s[i] == a[i] && s[i + 1] == a[i + 1];
      } else if i >= |a| {
        assert s[i] == b[i - |a|] && s[i + 1] == b[i - |a| + 1];
      }
    }
  }
}
