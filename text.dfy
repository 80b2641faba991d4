/**
 * The java.lang.String operations and the SQL string predicates the core relies on:
 * String.trim, String.split, case mapping, substring containment and SQL LIKE.
 */
module Text {

  /** String.trim removes every character whose code is at most U+0020 from both ends. */
  predicate IsTrimmable(c: char) {
    c <= ' '
  }

  /** The index of the first character at or after i that String.trim keeps, or |s|. */
  function KeptFrom(s: string, i: nat): (r: nat)
    requires i <= |s|
    ensures i <= r <= |s|
    ensures forall k :: i <= k < r ==> IsTrimmable(s[k])
    ensures r < |s| ==> !IsTrimmable(s[r])
    decreases |s| - i
  {
    if i < |s| && IsTrimmable(s[i]) then KeptFrom(s, i + 1) else i
  }

  /** The end of the kept characters: the largest j <= hi, not below lo, with s[j - 1] kept. */
  function KeptUntil(s: string, lo: nat, hi: nat): (r: nat)
    requires lo <= hi <= |s|
    ensures lo <= r <= hi
    ensures forall k :: r <= k < hi ==> IsTrimmable(s[k])
    ensures r > lo ==> !IsTrimmable(s[r - 1])
    decreases hi - lo
  {
    if lo < hi && IsTrimmable(s[hi - 1]) then KeptUntil(s, lo, hi - 1) else hi
  }

  /** String.trim: the characters between the first and the last one above U+0020. */
  function Trim(s: string): string {
    var i := KeptFrom(s, 0);
    s[i..KeptUntil(s, i, |s|)]
  }

  /** Neither end is a character String.trim removes. */
  predicate Trimmed(s: string) {
    s == [] || (!IsTrimmable(s[0]) && !IsTrimmable(s[|s| - 1]))
  }

  /** A trimmed string neither starts nor ends with a trimmable character. */
  lemma TrimShape(s: string)
    ensures Trimmed(Trim(s))
  {
    var i := KeptFrom(s, 0);
    var j := KeptUntil(s, i, |s|);
    if i < j {
      assert Trim(s)[0] == s[i];
    }
  }

  /** Trimming a string with no blank ends changes nothing. */
  lemma TrimmedIsFixed(s: string)
    requires Trimmed(s)
    ensures Trim(s) == s
  {
    assert KeptFrom(s, 0) == 0;
    assert s[0..|s|] == s;
  }

  /** Trimming twice is trimming once. */
  lemma TrimIdempotent(s: string)
    ensures Trim(Trim(s)) == Trim(s)
  {
    TrimShape(s);
    TrimmedIsFixed(Trim(s));
  }

  /** Trimming only removes characters: whatever the result holds, the input held. */
  lemma TrimKeepsChars(s: string, c: char)
    requires c !in s
    ensures c !in Trim(s)
  {
    var i := KeptFrom(s, 0);
    var r := Trim(s);
    assert forall k :: 0 <= k < |r| ==> r[k] == s[i + k];
  }

  /** Upper case of the characters whose upper case is an ASCII letter: a-z and the long s. */
  function UpperChar(c: char): char {
    if 'a' <= c <= 'z' then (c as int - 32) as char
    else if c as int == 0x17F then 'S'
    else if c as int == 0x131 then 'I'
    else c
  }

  function LowerChar(c: char): char {
    if 'A' <= c <= 'Z' then (c as int + 32) as char else c
  }

  /** String.toUpperCase, restricted to the characters UpperChar covers. */
  function ToUpper(s: string): (r: string)
    ensures |r| == |s|
    ensures forall i :: 0 <= i < |s| ==> r[i] == UpperChar(s[i])
  {
    if s == [] then [] else [UpperChar(s[0])] + ToUpper(s[1..])
  }

  /** SQL LOWER restricted to the ASCII letters. */
  function ToLower(s: string): (r: string)
    ensures |r| == |s|
    ensures forall i :: 0 <= i < |s| ==> r[i] == LowerChar(s[i])
  {
    if s == [] then [] else [LowerChar(s[0])] + ToLower(s[1..])
  }

  /** Upper-casing after lower-casing is just upper-casing. */
  lemma UpperOfLower(s: string)
    ensures ToUpper(ToLower(s)) == ToUpper(s)
  {
    var l, r := ToUpper(ToLower(s)), ToUpper(s);
    forall i | 0 <= i < |s| ensures l[i] == r[i] {
      assert ToLower(s)[i] == LowerChar(s[i]);
    }
  }

  lemma ToLowerConcat(a: string, b: string)
    ensures ToLower(a + b) == ToLower(a) + ToLower(b)
  {
    var l, r := ToLower(a + b), ToLower(a) + ToLower(b);
    forall i | 0 <= i < |l| ensures l[i] == r[i] {
      if i < |a| { assert (a + b)[i] == a[i]; } else { assert (a + b)[i] == b[i - |a|]; }
    }
  }

  /** The pieces of s between occurrences of sep: always one more than there are separators. */
  function Pieces(s: string, sep: char): (r: seq<string>)
    ensures |r| == 1 + multiset(s)[sep]
    ensures forall i :: 0 <= i < |r| ==> sep !in r[i]
    ensures sep !in s ==> r == [s]
  {
    if s == [] then [""]
    else
      var rest := Pieces(s[1..], sep);
      assert s == [s[0]] + s[1..];
      if s[0] == sep then [""] + rest else [[s[0]] + rest[0]] + rest[1..]
  }

  function DropTrailingEmpty(ps: seq<string>): (r: seq<string>)
    ensures |r| <= |ps| && r == ps[..|r|]
    ensures r == [] || r[|r| - 1] != ""
    ensures forall i :: |r| <= i < |ps| ==> ps[i] == ""
  {
    if ps == [] then []
    else if ps[|ps| - 1] == "" then DropTrailingEmpty(ps[..|ps| - 1])
    else ps
  }

  /**
   * String.split with a one-character pattern: without a match the string itself, otherwise the
   * pieces with the trailing empty ones removed.
   */
  function Split(s: string, sep: char): (r: seq<string>)
    ensures sep !in s ==> r == [s]
  {
    if sep !in s then [s] else DropTrailingEmpty(Pieces(s, sep))
  }

  /** A piece without the separator followed by the separator is the first piece. */
  lemma {:induction false} PiecesAfter(a: string, b: string, sep: char)
    requires sep !in a
    ensures Pieces(a + [sep] + b, sep) == [a] + Pieces(b, sep)
    decreases |a|
  {
    var s := a + [sep] + b;
    if a == [] {
      assert s[0] == sep && s[1..] == b;
    } else {
      assert s[0] == a[0] && s[1..] == a[1..] + [sep] + b;
      PiecesAfter(a[1..], b, sep);
      assert [a[0]] + a[1..] == a;
    }
  }

  /** "US-CA" splits at '-' into "US" and "CA". */
  lemma SplitPair(a: string, b: string, sep: char)
    requires sep !in a && sep !in b && b != []
    ensures Split(a + [sep] + b, sep) == [a, b]
  {
    PiecesAfter(a, b, sep);
    assert (a + [sep] + b)[|a|] == sep;
  }

  /** The first piece runs up to the first separator or the end. */
  lemma FirstPiece(b: string, rest: string, sep: char)
    requires sep !in b
    requires rest == [] || rest[0] == sep
    ensures Pieces(b + rest, sep)[0] == b
  {
    if rest == [] {
      assert b + rest == b;
    } else {
      assert b + rest == b + [sep] + rest[1..];
      PiecesAfter(b, rest[1..], sep);
    }
  }

  /** The piece after the first separator runs up to the next separator or the end. */
  lemma SecondPiece(a: string, b: string, rest: string, sep: char)
    requires sep !in a && sep !in b
    requires rest == [] || rest[0] == sep
    ensures var ps := Pieces(a + [sep] + (b + rest), sep); |ps| > 1 && ps[1] == b
  {
    PiecesAfter(a, b + rest, sep);
    FirstPiece(b, rest, sep);
  }

  /** "US-" splits at '-' into "US" alone: the trailing empty piece is dropped. */
  lemma SplitTrailing(a: string, sep: char)
    requires sep !in a && a != []
    ensures Split(a + [sep], sep) == [a]
  {
    PiecesAfter(a, [], sep);
    assert a + [sep] + [] == a + [sep];
    assert (a + [sep])[|a|] == sep;
    var ps := Pieces(a + [sep], sep);
    assert ps == [a, ""];
    assert DropTrailingEmpty(ps[..1]) == [a];
  }

  /** The first piece of a split is everything before the first separator, when that is not empty. */
  lemma SplitFirst(a: string, b: string, sep: char)
    requires sep !in a && a != []
    ensures Split(a + [sep] + b, sep) != [] && Split(a + [sep] + b, sep)[0] == a
  {
    PiecesAfter(a, b, sep);
    assert (a + [sep] + b)[|a|] == sep;
    var ps := Pieces(a + [sep] + b, sep);
    assert ps[0] == a;
  }

  predicate IsPrefix(p: string, s: string) {
    |p| <= |s| && s[..|p|] == p
  }

  /** p occurs in s as a contiguous block. */
  predicate Contains(s: string, p: string) {
    IsPrefix(p, s) || (s != [] && Contains(s[1..], p))
  }

  /** The characters SQL LIKE treats as wildcards. */
  predicate IsLikeWildcard(c: char) {
    c == '%' || c == '_'
  }

  predicate IsLiteralPattern(p: string) {
    forall i :: 0 <= i < |p| ==> !IsLikeWildcard(p[i])
  }

  /** Lower-casing neither makes nor removes a wildcard. */
  lemma ToLowerKeepsLiteral(p: string)
    requires IsLiteralPattern(p)
    ensures IsLiteralPattern(ToLower(p))
  {
  }

  /** SQL LIKE without an escape character: '%' matches any run, '_' any one character. */
  function Like(pattern: string, s: string): bool
    decreases |pattern| + |s|
  {
    if pattern == [] then s == []
    else if pattern[0] == '%' then Like(pattern[1..], s) || (s != [] && Like(pattern, s[1..]))
    else if s == [] then false
    else (pattern[0] == '_' || pattern[0] == s[0]) && Like(pattern[1..], s[1..])
  }

  lemma {:induction false} LikeAnything(s: string)
    ensures Like("%", s)
    decreases |s|
  {
    if s != [] {
      LikeAnything(s[1..]);
    }
  }

  /** A literal followed by '%' matches exactly the strings that start with the literal. */
  lemma {:induction false} LikeLiteralThenAny(q: string, s: string)
    requires IsLiteralPattern(q)
    ensures Like(q + "%", s) <==> IsPrefix(q, s)
    decreases |q|
  {
    if q == [] {
      assert q + "%" == "%";
      LikeAnything(s);
    } else {
      var rest := q[1..];
      assert (q + "%")[1..] == rest + "%";
      assert (q + "%")[0] == q[0];
      if s != [] {
        LikeLiteralThenAny(rest, s[1..]);
        if IsPrefix(q, s) {
          assert s[1..][..|rest|] == s[..|q|][1..];
        }
        if IsPrefix(rest, s[1..]) && q[0] == s[0] {
          assert s[..|q|] == [s[0]] + s[1..][..|rest|];
        }
      }
    }
  }

  /**
   * The pattern '%' + q + '%' that a substring search builds matches exactly the strings that
   * contain q, provided q holds no wildcard of its own.
   */
  lemma {:induction false} LikeSubstring(q: string, s: string)
    requires IsLiteralPattern(q)
    ensures Like("%" + q + "%", s) <==> Contains(s, q)
    decreases |s|
  {
    var p := "%" + q + "%";
    assert p[0] == '%';
    assert p[1..] == q + "%";
    LikeLiteralThenAny(q, s);
    if s != [] {
      LikeSubstring(q, s[1..]);
    }
  }
}
