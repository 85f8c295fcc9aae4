/**
 * The JavaScript built-ins that the helpers of `src/utils/global.ts` lean on,
 * restated over Dafny strings (`seq<char>`):
 *  - `null` / `undefined` as `Option.None`;
 *  - `String.prototype.trim` and the regular-expression class `\s`, over the
 *    exact set of characters ECMAScript calls WhiteSpace or LineTerminator;
 *  - `String.prototype.toLowerCase`, restricted to ASCII letters;
 *  - `s.replace(/[class]/g, '')`, which deletes every character of a class;
 *  - the subsequence relation, used to say what such deletions keep.
 */
module Js {

  /** A JavaScript value that may be `null` or `undefined` (`None`). */
  datatype Option<T> = None | Some(value: T)

  // ---------------------------------------------------------------------
  // Whitespace: the characters matched by `\s` and removed by `trim`
  // ---------------------------------------------------------------------

  /** ECMAScript WhiteSpace (TAB, VT, FF, SP, NBSP, ZWNBSP and every
      Unicode space separator) and LineTerminator (LF, CR, LS, PS). */
  predicate IsSpace(c: char) {
    || c == '\t' || c == '\n' || c == '\U{000B}' || c == '\U{000C}' || c == '\r'
    || c == ' ' || c == '\U{00A0}' || c == '\U{1680}'
    || ('\U{2000}' <= c <= '\U{200A}')
    || c == '\U{2028}' || c == '\U{2029}' || c == '\U{202F}' || c == '\U{205F}'
    || c == '\U{3000}' || c == '\U{FEFF}'
  }

  /** No ASCII letter or digit is whitespace. */
  lemma SpaceIsNotAlphanumeric(c: char)
    ensures IsSpace(c) ==> !IsUpper(c) && !('a' <= c <= 'z') && !('0' <= c <= '9')
  {
  }

  predicate AllSpace(s: string) {
    forall i :: 0 <= i < |s| ==> IsSpace(s[i])
  }

  /** Drops the leading whitespace: the result is a suffix of `s`, what was
      dropped is all whitespace, and what is left does not start with any. */
  function TrimStart(s: string): (r: string)
    ensures |r| <= |s| && r == s[|s| - |r|..]
    ensures AllSpace(s[..|s| - |r|])
    ensures r == [] || !IsSpace(r[0])
    decreases |s|
  {
    if |s| > 0 && IsSpace(s[0]) then TrimStart(s[1..]) else s
  }

  /** Drops the trailing whitespace: the result is a prefix of `s`, what was
      dropped is all whitespace, and what is left does not end with any. */
  function TrimEnd(s: string): (r: string)
    ensures |r| <= |s| && r == s[..|r|]
    ensures AllSpace(s[|r|..])
    ensures r == [] || !IsSpace(r[|r| - 1])
    decreases |s|
  {
    if |s| > 0 && IsSpace(s[|s| - 1]) then TrimEnd(s[..|s| - 1]) else s
  }

  /** `s.trim()`: the slice of `s` between its leading and trailing
      whitespace. */
  function Trim(s: string): (r: string)
    ensures |r| <= |s|
    ensures r == [] || (!IsSpace(r[0]) && !IsSpace(r[|r| - 1]))
    ensures exists lo :: 0 <= lo <= |s| - |r| && r == s[lo..lo + |r|]
                         && AllSpace(s[..lo]) && AllSpace(s[lo + |r|..])
  {
    var t := TrimStart(s);
    var r := TrimEnd(t);
    var lo := |s| - |t|;
    assert t == s[lo..];
    assert r == s[lo..lo + |r|];
    assert AllSpace(s[..lo]);
    assert s[lo + |r|..] == t[|r|..];
    assert AllSpace(s[lo + |r|..]);
    r
  }

  // ---------------------------------------------------------------------
  // toLowerCase
  // ---------------------------------------------------------------------

  predicate IsUpper(c: char) {
    'A' <= c <= 'Z'
  }

  /** The ASCII case mapping: `A`..`Z` go to `a`..`z`, every other
      character is left as it is. */
  function LowerChar(c: char): (d: char)
    ensures !IsUpper(d)
    ensures IsUpper(c) ==> d as int == c as int + 32
    ensures !IsUpper(c) ==> d == c
  {
    if IsUpper(c) then (c as int + 32) as char else c
  }

  /** `s.toLowerCase()`, character by character. */
  function Lower(s: string): (r: string)
    ensures |r| == |s|
    ensures forall i :: 0 <= i < |s| ==> r[i] == LowerChar(s[i])
  {
    seq(|s|, i requires 0 <= i < |s| => LowerChar(s[i]))
  }

  lemma LowerKeepsSpace(c: char)
    ensures IsSpace(LowerChar(c)) == IsSpace(c)
  {
  }

  /** A string is left alone by `toLowerCase` exactly when it holds no
      upper-case ASCII letter. */
  lemma LowerFixesExactlyNonUpper(s: string)
    ensures Lower(s) == s <==> forall i :: 0 <= i < |s| ==> !IsUpper(s[i])
  {
  }

  /** Lowercasing twice is lowercasing once. */
  lemma LowerIdempotent(s: string)
    ensures Lower(Lower(s)) == Lower(s)
  {
  }

  lemma {:induction false} TrimStartLower(s: string)
    ensures TrimStart(Lower(s)) == Lower(TrimStart(s))
    decreases |s|
  {
    if |s| > 0 {
      LowerKeepsSpace(s[0]);
      assert Lower(s)[1..] == Lower(s[1..]);
      if IsSpace(s[0]) {
        TrimStartLower(s[1..]);
      }
    }
  }

  lemma {:induction false} TrimEndLower(s: string)
    ensures TrimEnd(Lower(s)) == Lower(TrimEnd(s))
    decreases |s|
  {
    if |s| > 0 {
      LowerKeepsSpace(s[|s| - 1]);
      assert Lower(s)[..|s| - 1] == Lower(s[..|s| - 1]);
      if IsSpace(s[|s| - 1]) {
        TrimEndLower(s[..|s| - 1]);
      }
    }
  }

  /** Lowercasing never turns whitespace into non-whitespace or back, so it
      does not matter whether a string is trimmed before or after. */
  lemma TrimLowerCommute(s: string)
    ensures Lower(Trim(s)) == Trim(Lower(s))
  {
    TrimStartLower(s);
    TrimEndLower(TrimStart(s));
  }

  // ---------------------------------------------------------------------
  // Trimming ignores added whitespace
  // ---------------------------------------------------------------------

  lemma {:induction false} TrimStartSkipsSpace(p: string, x: string)
    requires AllSpace(p)
    ensures TrimStart(p + x) == TrimStart(x)
    decreases |p|
  {
    if |p| > 0 {
      assert (p + x)[0] == p[0] && (p + x)[1..] == p[1..] + x;
      TrimStartSkipsSpace(p[1..], x);
    } else {
      assert p + x == x;
    }
  }

  lemma {:induction false} TrimEndSkipsSpace(x: string, q: string)
    requires AllSpace(q)
    ensures TrimEnd(x + q) == TrimEnd(x)
    decreases |q|
  {
    if |q| > 0 {
      assert (x + q)[|x + q| - 1] == q[|q| - 1];
      assert (x + q)[..|x + q| - 1] == x + q[..|q| - 1];
      TrimEndSkipsSpace(x, q[..|q| - 1]);
    } else {
      assert x + q == x;
    }
  }

  lemma {:induction false} TrimStartAppend(x: string, q: string)
    requires AllSpace(q)
    ensures TrimStart(x + q) == if TrimStart(x) == [] then [] else TrimStart(x) + q
    decreases |x|
  {
    if |x| == 0 {
      assert x + q == q;
      TrimStartSkipsSpace(q, []);
      assert q + [] == q;
    } else {
      assert (x + q)[1..] == x[1..] + q;
      if IsSpace(x[0]) {
        TrimStartAppend(x[1..], q);
      }
    }
  }

  /** `(pre + s + post).trim() == s.trim()` when `pre` and `post` are
      whitespace. */
  lemma TrimIgnoresPadding(pre: string, s: string, post: string)
    requires AllSpace(pre) && AllSpace(post)
    ensures Trim(pre + s + post) == Trim(s)
  {
    assert pre + s + post == pre + (s + post);
    TrimStartSkipsSpace(pre, s + post);
    TrimStartAppend(s, post);
    var t := TrimStart(s);
    assert TrimStart(pre + s + post) == TrimStart(s + post);
    if t == [] {
      assert TrimStart(s + post) == t;
    } else {
      assert TrimStart(s + post) == t + post;
      TrimEndSkipsSpace(t, post);
    }
  }

  // ---------------------------------------------------------------------
  // Subsequences and s.replace(/[class]/g, '')
  // ---------------------------------------------------------------------

  /** `a` can be obtained from `b` by deleting characters. */
  predicate IsSubsequence(a: string, b: string)
    decreases |b|
  {
    || a == []
    || (|b| > 0 && ((a[0] == b[0] && IsSubsequence(a[1..], b[1..])) || IsSubsequence(a, b[1..])))
  }

  lemma {:induction false} SubsequenceTransitive(a: string, b: string, c: string)
    requires IsSubsequence(a, b) && IsSubsequence(b, c)
    ensures IsSubsequence(a, c)
    decreases |c|
  {
    if a != [] {
      if b[0] == c[0] && IsSubsequence(b[1..], c[1..]) {
        if a[0] == b[0] && IsSubsequence(a[1..], b[1..]) {
          SubsequenceTransitive(a[1..], b[1..], c[1..]);
        } else {
          SubsequenceTransitive(a, b[1..], c[1..]);
        }
      } else {
        SubsequenceTransitive(a, b, c[1..]);
      }
    }
  }

  /** `s.replace(/[class]/g, '')`: deletes every character of the class and
      keeps the others in order. */
  function RemoveAll(s: string, inClass: char -> bool): (r: string)
    ensures forall i :: 0 <= i < |r| ==> !inClass(r[i])
    ensures forall c :: !inClass(c) ==> multiset(r)[c] == multiset(s)[c]
    ensures IsSubsequence(r, s)
    ensures (forall i :: 0 <= i < |s| ==> !inClass(s[i])) ==> r == s
    decreases |s|
  {
    if s == [] then []
    else
      var rest := RemoveAll(s[1..], inClass);
      assert s == [s[0]] + s[1..];
      assert multiset(s) == multiset{s[0]} + multiset(s[1..]);
      if inClass(s[0]) then rest
      else
        assert ([s[0]] + rest)[0] == s[0] && ([s[0]] + rest)[1..] == rest;
        [s[0]] + rest
  }

  /** Deleting a class first and then a larger class is the same as
      deleting the larger class alone. */
  lemma {:induction false} RemoveAllAbsorbed(s: string, small: char -> bool, large: char -> bool)
    requires forall c :: small(c) ==> large(c)
    ensures RemoveAll(RemoveAll(s, small), large) == RemoveAll(s, large)
    decreases |s|
  {
    if s != [] {
      RemoveAllAbsorbed(s[1..], small, large);
      if !small(s[0]) {
        assert ([s[0]] + RemoveAll(s[1..], small))[1..] == RemoveAll(s[1..], small);
      }
    }
  }
}
