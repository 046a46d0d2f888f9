/**
 * The pieces of java.lang.String and java.lang.Long that the core relies on:
 * trim, indexOf, split on one separator character, startsWith, compareTo,
 * Long.parseLong and Long.toString. Characters are Dafny chars; Java compares
 * UTF-16 code units, which agrees with this model on the Basic Multilingual Plane.
 */
module Text {
  import opened Wrappers

  // ---------------------------------------------------------------- trim

  /** Java's trim() removes every leading and trailing character whose code is at most U+0020. */
  predicate IsTrimmed(c: char) { c <= ' ' }

  function TrimLeft(s: string): (r: string)
    ensures |r| <= |s|
    ensures r == [] || !IsTrimmed(r[0])
  {
    if s == [] || !IsTrimmed(s[0]) then s else TrimLeft(s[1..])
  }

  /** trimLeft keeps a suffix. */
  lemma {:induction false} TrimLeftIsSuffix(s: string)
    ensures TrimLeft(s) == s[|s| - |TrimLeft(s)|..]
  {
    if s != [] && IsTrimmed(s[0]) {
      TrimLeftIsSuffix(s[1..]);
    }
  }

  function TrimRight(s: string): (r: string)
    ensures |r| <= |s|
    ensures r == [] || !IsTrimmed(r[|r| - 1])
  {
    if s == [] || !IsTrimmed(s[|s| - 1]) then s else TrimRight(s[..|s| - 1])
  }

  /** trimRight keeps a prefix. */
  lemma {:induction false} TrimRightIsPrefix(s: string)
    ensures TrimRight(s) == s[..|TrimRight(s)|]
  {
    if s != [] && IsTrimmed(s[|s| - 1]) {
      TrimRightIsPrefix(s[..|s| - 1]);
    }
  }

  /** A string with nothing for trim() to remove: empty, or visible at both ends. */
  predicate Trimmed(s: string)
  {
    s == [] || (!IsTrimmed(s[0]) && !IsTrimmed(s[|s| - 1]))
  }

  /** String.trim(): the longest infix of `s` that starts and ends with a character above U+0020. */
  function Trim(s: string): (r: string)
    ensures |r| <= |s|
    ensures Trimmed(r)
  {
    TrimRightIsPrefix(TrimLeft(s));
    TrimRight(TrimLeft(s))
  }

  /** What trimLeft skipped is blank. */
  lemma {:induction false} TrimLeftSkipsBlanks(s: string)
    ensures forall i :: 0 <= i < |s| - |TrimLeft(s)| ==> IsTrimmed(s[i])
  {
    if s != [] && IsTrimmed(s[0]) {
      TrimLeftSkipsBlanks(s[1..]);
    }
  }

  /** What trimRight skipped is blank. */
  lemma {:induction false} TrimRightSkipsBlanks(s: string)
    ensures forall i :: |TrimRight(s)| <= i < |s| ==> IsTrimmed(s[i])
  {
    if s != [] && IsTrimmed(s[|s| - 1]) {
      TrimRightSkipsBlanks(s[..|s| - 1]);
    }
  }

  /** trim() gives the empty string exactly when every character of `s` is blank. */
  lemma TrimEmptyIffBlank(s: string)
    ensures Trim(s) == [] <==> forall i :: 0 <= i < |s| ==> IsTrimmed(s[i])
  {
    TrimLeftSkipsBlanks(s);
    TrimLeftIsSuffix(s);
    var l := TrimLeft(s);
    if l != [] {
      assert !IsTrimmed(l[0]) && l[0] == s[|s| - |l|];
      assert TrimRight(l) != [] by {
        TrimRightSkipsBlanks(l);
      }
    }
  }

  /** A string that already starts and ends with a visible character is its own trim. */
  lemma TrimOfTrimmed(s: string)
    requires Trimmed(s)
    ensures Trim(s) == s
  {
    if s != [] {
      assert TrimLeft(s) == s;
    }
  }

  /** trim() is idempotent. */
  lemma TrimIdempotent(s: string)
    ensures Trim(Trim(s)) == Trim(s)
  {
    TrimOfTrimmed(Trim(s));
  }

  /** trim() never introduces a character that was not in its argument. */
  lemma TrimKeepsOut(s: string, c: char)
    requires c !in s
    ensures c !in Trim(s)
  {
    var l := TrimLeft(s);
    var r := TrimRight(l);
    TrimLeftIsSuffix(s);
    TrimRightIsPrefix(l);
    assert r == Trim(s);
    forall k | 0 <= k < |r| ensures r[k] != c {
      assert r[k] == l[k] == s[|s| - |l| + k];
    }
  }

  // ---------------------------------------------------------------- indexOf

  /** String.indexOf(char): the first position of `c` in `s`, or -1. */
  function IndexOf(s: string, c: char): (r: int)
    ensures -1 <= r < |s|
    ensures r == -1 <==> c !in s
    ensures r >= 0 ==> s[r] == c && c !in s[..r]
  {
    if s == [] then -1
    else if s[0] == c then 0
    else
      var k := IndexOf(s[1..], c);
      assert s[1..][..k + 1] == s[1..k + 2] by { assert k + 2 <= |s| || k == -1; }
      if k == -1 then -1 else k + 1
  }

  lemma IndexOfConcat(a: string, c: char, b: string)
    requires c !in a
    ensures IndexOf(a + [c] + b, c) == |a|
  {
    var s := a + [c] + b;
    assert s[..|a|] == a;
    assert s[|a|] == c;
  }

  // ---------------------------------------------------------------- split

  /** The pieces of `s` between occurrences of `sep`, empty pieces included. */
  function Pieces(s: string, sep: char): (r: seq<string>)
    ensures |r| >= 1
    ensures forall i :: 0 <= i < |r| ==> sep !in r[i]
    decreases |s|
  {
    var i := IndexOf(s, sep);
    if i < 0 then [s] else [s[..i]] + Pieces(s[i + 1..], sep)
  }

  /** Joins pieces with `sep` between them: the inverse of Pieces. */
  function JoinWith(ps: seq<string>, sep: char): string
    requires |ps| >= 1
  {
    if |ps| == 1 then ps[0] else ps[0] + [sep] + JoinWith(ps[1..], sep)
  }

  /** Joining a first piece onto the rest puts one separator between them. */
  lemma JoinCons(head: string, tail: seq<string>, sep: char)
    requires |tail| >= 1
    ensures JoinWith([head] + tail, sep) == head + [sep] + JoinWith(tail, sep)
  {
    assert ([head] + tail)[1..] == tail;
  }

  /** A string is its prefix, the character at `i`, and its suffix. */
  lemma Around(s: string, i: nat)
    requires i < |s|
    ensures s == s[..i] + [s[i]] + s[i + 1..]
  {
  }

  /** Splitting and re-joining gives the original text back. */
  lemma {:induction false} JoinPieces(s: string, sep: char)
    ensures JoinWith(Pieces(s, sep), sep) == s
    decreases |s|
  {
    var i := IndexOf(s, sep);
    if i >= 0 {
      var rest := s[i + 1..];
      assert Pieces(s, sep) == [s[..i]] + Pieces(rest, sep);
      JoinPieces(rest, sep);
      JoinCons(s[..i], Pieces(rest, sep), sep);
      Around(s, i);
    }
  }

  lemma PiecesConcat(a: string, sep: char, b: string)
    requires sep !in a
    ensures Pieces(a + [sep] + b, sep) == [a] + Pieces(b, sep)
  {
    var s := a + [sep] + b;
    IndexOfConcat(a, sep, b);
    assert s[..|a|] == a;
    assert s[|a| + 1..] == b;
  }

  lemma PiecesSingle(a: string, sep: char)
    requires sep !in a
    ensures Pieces(a, sep) == [a]
  {
  }

  /** Drops the empty strings at the end, as String.split with limit 0 does. */
  function DropTrailingEmpty(ps: seq<string>): (r: seq<string>)
    ensures |r| <= |ps| && r == ps[..|r|]
    ensures forall i :: |r| <= i < |ps| ==> ps[i] == []
    ensures r == [] || r[|r| - 1] != []
  {
    if ps == [] || ps[|ps| - 1] != [] then ps else DropTrailingEmpty(ps[..|ps| - 1])
  }

  /**
   * String.split(String.valueOf(sep)) for a separator that is not a regex metacharacter:
   * no occurrence yields the whole input (even when empty); otherwise the pieces
   * with the trailing empty ones removed.
   */
  function Split(s: string, sep: char): (r: seq<string>)
  {
    if sep !in s then [s] else DropTrailingEmpty(Pieces(s, sep))
  }

  /** Split only ever removes empty pieces from the end of Pieces. */
  lemma SplitIsPrefixOfPieces(s: string, sep: char)
    ensures var r := Split(s, sep); var ps := Pieces(s, sep);
            |r| <= |ps| && r == ps[..|r|] && forall i :: |r| <= i < |ps| ==> ps[i] == []
  {
    if sep !in s {
      PiecesSingle(s, sep);
    }
  }

  /** When the last piece is not empty, split drops nothing. */
  lemma SplitKeepsLastPiece(s: string, sep: char)
    requires Pieces(s, sep)[|Pieces(s, sep)| - 1] != []
    ensures Split(s, sep) == Pieces(s, sep)
  {
    if sep !in s {
      PiecesSingle(s, sep);
    }
  }

  // ---------------------------------------------------------------- compareTo

  /** a.compareTo(b) <= 0: lexicographic order, a proper prefix first. */
  predicate LexLe(a: string, b: string)
  {
    a == [] || (b != [] && (a[0] < b[0] || (a[0] == b[0] && LexLe(a[1..], b[1..]))))
  }

  lemma {:induction false} LexLeTotal(a: string, b: string)
    ensures LexLe(a, b) || LexLe(b, a)
  {
    if a != [] && b != [] && a[0] == b[0] {
      LexLeTotal(a[1..], b[1..]);
    }
  }

  lemma {:induction false} LexLeAntisymmetric(a: string, b: string)
    requires LexLe(a, b) && LexLe(b, a)
    ensures a == b
  {
    if a != [] && b != [] {
      LexLeAntisymmetric(a[1..], b[1..]);
      assert a == [a[0]] + a[1..] && b == [b[0]] + b[1..];
    }
  }

  // ---------------------------------------------------------------- long

  const LONG_MIN: int := -0x8000_0000_0000_0000
  const LONG_MAX: int := 0x7FFF_FFFF_FFFF_FFFF

  predicate IsDigit(c: char) { '0' <= c <= '9' }

  predicate AllDigits(s: string) { forall i :: 0 <= i < |s| ==> IsDigit(s[i]) }

  function DigitChar(d: nat): (c: char)
    requires d < 10
    ensures IsDigit(c) && (c - '0') as int == d
  {
    ('0' as int + d) as char
  }

  /** The value of a string of decimal digits, most significant first. */
  function DigitsValue(s: string): nat
    requires AllDigits(s)
  {
    if s == [] then 0 else DigitsValue(s[..|s| - 1]) * 10 + (s[|s| - 1] - '0') as nat
  }

  /** The shortest decimal representation of `n` (Long.toString on a non-negative value). */
  function NatDigits(n: nat): (r: string)
    ensures |r| >= 1 && AllDigits(r)
  {
    if n < 10 then [DigitChar(n)] else NatDigits(n / 10) + [DigitChar(n % 10)]
  }

  lemma {:induction false} NatDigitsRoundTrip(n: nat)
    ensures DigitsValue(NatDigits(n)) == n
  {
    if n >= 10 {
      NatDigitsRoundTrip(n / 10);
      var s := NatDigits(n);
      assert s[..|s| - 1] == NatDigits(n / 10);
    }
  }

  /** Long.toString(n). */
  function FormatLong(n: int): (r: string)
    ensures |r| >= 1
    ensures forall i :: 0 <= i < |r| ==> IsDigit(r[i]) || (i == 0 && r[i] == '-')
  {
    if n < 0 then "-" + NatDigits(-n) else NatDigits(n)
  }

  /**
   * Long.parseLong(s) restricted to ASCII: an optional '+' or '-' followed by at least one
   * digit '0'..'9', whose value lies in the signed 64-bit range; anything else is None.
   * Java also accepts the other Unicode decimal digits, which this model rejects.
   */
  function ParseLong(s: string): (r: Option<int>)
    ensures r.Some? ==> LONG_MIN <= r.value <= LONG_MAX
    ensures r.Some? ==> |s| >= 1 && AllDigits(if s[0] == '-' || s[0] == '+' then s[1..] else s)
  {
    if s == [] then None
    else
      var body := if s[0] == '-' || s[0] == '+' then s[1..] else s;
      if body == [] || !AllDigits(body) then None
      else
        var v: int := if s[0] == '-' then 0 - DigitsValue(body) as int else DigitsValue(body);
        if LONG_MIN <= v <= LONG_MAX then Some(v) else None
  }

  /** Parsing what Long.toString printed gives the number back. */
  lemma FormatThenParseLong(n: int)
    requires LONG_MIN <= n <= LONG_MAX
    ensures ParseLong(FormatLong(n)) == Some(n)
  {
    var s := FormatLong(n);
    if n < 0 {
      NatDigitsRoundTrip(-n);
      assert s[1..] == NatDigits(-n);
    } else {
      NatDigitsRoundTrip(n);
    }
  }
}
