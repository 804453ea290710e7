/** The JavaScript string operations the feed relies on: `trim`, `split` on a
    single character (with `join` as its inverse), `replace` of the first
    occurrence of a character, and the `/\b\w/g` upper-casing of word starts. */
module Text {

  /** The code points that `String.prototype.trim` strips: ECMAScript's
      WhiteSpace (TAB, VT, FF, SP, NBSP, ZWNBSP and every Zs space) and
      LineTerminator (LF, CR, LS, PS). */
  predicate IsSpace(c: char) {
    || c == ' ' || c == '\t' || c == '\n' || c == '\r'
    || c == '\U{000B}' || c == '\U{000C}' || c == '\U{00A0}' || c == '\U{FEFF}'
    || c == '\U{1680}' || ('\U{2000}' <= c <= '\U{200A}')
    || c == '\U{2028}' || c == '\U{2029}' || c == '\U{202F}' || c == '\U{205F}'
    || c == '\U{3000}'
  }

  predicate AllSpace(s: string) {
    forall k | 0 <= k < |s| :: IsSpace(s[k])
  }

  /** Neither starts nor ends with whitespace. */
  predicate IsTrimmed(s: string) {
    s == [] || (!IsSpace(s[0]) && !IsSpace(s[|s| - 1]))
  }

  /** Drops leading whitespace: the result is the suffix of `s` that starts at
      its first non-space character. */
  function TrimStart(s: string): (r: string)
    ensures |r| <= |s| && r == s[|s| - |r|..]
    ensures AllSpace(s[..|s| - |r|])
    ensures r == [] || !IsSpace(r[0])
  {
    if s != [] && IsSpace(s[0]) then
      var t := TrimStart(s[1..]);
      assert s[1..][|s[1..]| - |t|..] == s[|s| - |t|..];
      assert forall k | 1 <= k < |s| - |t| :: s[k] == s[1..][..|s[1..]| - |t|][k - 1];
      t
    else s
  }

  /** Drops trailing whitespace: the result is the prefix of `s` that ends at
      its last non-space character. */
  function TrimEnd(s: string): (r: string)
    ensures |r| <= |s| && r == s[..|r|]
    ensures AllSpace(s[|r|..])
    ensures r == [] || !IsSpace(r[|r| - 1])
  {
    if s != [] && IsSpace(s[|s| - 1]) then
      var t := TrimEnd(s[..|s| - 1]);
      assert forall k | |t| <= k < |s| - 1 :: s[k] == s[..|s| - 1][|t|..][k - |t|];
      t
    else s
  }

  /** A string that starts with a non-space character loses nothing at its
      start. */
  lemma TrimStartOfNonSpace(s: string)
    requires s != [] && !IsSpace(s[0])
    ensures TrimStart(s) == s
  {
  }

  /** Where `Trim(s)` starts in `s`: the number of leading whitespace characters. */
  function TrimOffset(s: string): (i: nat)
    ensures i <= |s|
  {
    |s| - |TrimStart(s)|
  }

  /** `s.trim()`: the infix of `s` left after removing whitespace at both
      ends (see TrimMargins for what was removed). */
  function Trim(s: string): (r: string)
    ensures IsTrimmed(r)
    ensures TrimOffset(s) + |r| <= |s| && r == s[TrimOffset(s)..TrimOffset(s) + |r|]
  {
    var t := TrimStart(s);
    var r := TrimEnd(t);
    assert r == s[|s| - |t|..|s| - |t| + |r|];
    r
  }

  /** Everything `Trim` removes is whitespace. */
  lemma TrimMargins(s: string)
    ensures AllSpace(s[..TrimOffset(s)]) && AllSpace(s[TrimOffset(s) + |Trim(s)|..])
  {
    var t := TrimStart(s);
    var r := TrimEnd(t);
    assert s[|s| - |t| + |r|..] == t[|r|..];
  }

  /** A string trims to nothing exactly when it is all whitespace. */
  lemma TrimEmptyIffAllSpace(s: string)
    ensures Trim(s) == [] <==> AllSpace(s)
  {
    var r := Trim(s);
    var i := TrimOffset(s);
    TrimMargins(s);
    if r == [] {
      forall k | 0 <= k < |s| ensures IsSpace(s[k]) {
        assert s[k] == s[..i][k];
      }
    }
  }

  /** Trimming a string that has no whitespace at either end changes nothing,
      so trimming is idempotent. */
  lemma TrimOfTrimmed(s: string)
    requires IsTrimmed(s)
    ensures Trim(s) == s
  {
    assert TrimStart(s) == s;
  }

  lemma TrimIdempotent(s: string)
    ensures Trim(Trim(s)) == Trim(s)
  {
    TrimOfTrimmed(Trim(s));
  }

  /** Index of the first occurrence of `c` in `s`. */
  function IndexOf(s: string, c: char): (i: nat)
    requires c in s
    ensures i < |s| && s[i] == c && c !in s[..i]
  {
    if s[0] == c then 0 else IndexOf(s[1..], c) + 1
  }

  /** `parts.join(sep)`. */
  function Join(parts: seq<string>, sep: char): string {
    if parts == [] then []
    else if |parts| == 1 then parts[0]
    else parts[0] + [sep] + Join(parts[1..], sep)
  }

  /** `s.split(sep)` for a one-character separator: the pieces between
      separators, in order, always at least one (the empty string splits into
      one empty piece). */
  function Split(s: string, sep: char): (r: seq<string>)
    ensures |r| >= 1
    ensures forall k | 0 <= k < |r| :: sep !in r[k]
    ensures Join(r, sep) == s
    decreases |s|
  {
    if sep !in s then [s]
    else
      var i := IndexOf(s, sep);
      var rest := Split(s[i + 1..], sep);
      assert s == s[..i] + [sep] + s[i + 1..];
      [s[..i]] + rest
  }

  /** Splitting the join of separator-free pieces gives the pieces back. */
  lemma {:induction false} SplitJoin(parts: seq<string>, sep: char)
    requires |parts| >= 1
    requires forall k | 0 <= k < |parts| :: sep !in parts[k]
    ensures Split(Join(parts, sep), sep) == parts
  {
    if |parts| > 1 {
      var s := Join(parts, sep);
      var p := parts[0];
      assert s == p + [sep] + Join(parts[1..], sep);
      assert sep in s by { assert s[|p|] == sep; }
      var i := IndexOf(s, sep);
      assert s[..|p|] == p;
      assert i == |p|;
      assert s[i + 1..] == Join(parts[1..], sep);
      SplitJoin(parts[1..], sep);
    }
  }

  /** Splitting at a separator placed between two strings splits each side
      separately: the pieces of `a` come first, then those of `b`. */
  lemma {:induction false} SplitAround(a: string, b: string, sep: char)
    ensures Split(a + [sep] + b, sep) == Split(a, sep) + Split(b, sep)
    decreases |a|
  {
    var s := a + [sep] + b;
    assert s[|a|] == sep;
    var i := IndexOf(s, sep);
    if sep !in a {
      assert s[..|a|] == a;
      assert i == |a|;
      assert s[i + 1..] == b;
    } else {
      var j := IndexOf(a, sep);
      assert s[..|a|] == a;
      assert i == j;
      assert s[..i] == a[..j];
      assert s[i + 1..] == a[j + 1..] + [sep] + b;
      SplitAround(a[j + 1..], b, sep);
    }
  }

  /** `s.replace(a, b)` with a one-character pattern: only the first
      occurrence of `a` becomes `b`. */
  function ReplaceFirst(s: string, a: char, b: char): (r: string)
    ensures |r| == |s|
    ensures a !in s ==> r == s
    ensures a in s ==> forall k | 0 <= k < |s| ::
      r[k] == if k == IndexOf(s, a) then b else s[k]
  {
    if a !in s then s
    else
      var i := IndexOf(s, a);
      s[..i] + [b] + s[i + 1..]
  }

  /** A character of the regular-expression class `\w`. */
  predicate IsWordChar(c: char) {
    ('a' <= c <= 'z') || ('A' <= c <= 'Z') || ('0' <= c <= '9') || c == '_'
  }

  /** `toUpperCase` on a `\w` character: only the lower-case letters change. */
  function Upper(c: char): (u: char)
    ensures IsWordChar(c) ==> IsWordChar(u)
    ensures 'a' <= c <= 'z' ==> 'A' <= u <= 'Z'
    ensures !('a' <= c <= 'z') ==> u == c
  {
    if 'a' <= c <= 'z' then (c as int - 'a' as int + 'A' as int) as char else c
  }

  /** Position `k` of `s` is matched by `\b\w` when the character before `s`
      is (`prevWord`) or is not a word character: a word character with no
      word character just before it. */
  predicate StartsWordAfter(s: string, k: int, prevWord: bool)
    requires 0 <= k < |s|
  {
    IsWordChar(s[k]) && !(if k == 0 then prevWord else IsWordChar(s[k - 1]))
  }

  /** Position `k` of `s` is matched by `\b\w` in `s` itself. */
  predicate WordStart(s: string, k: int)
    requires 0 <= k < |s|
  {
    IsWordChar(s[k]) && (k == 0 || !IsWordChar(s[k - 1]))
  }

  /** `s.replace(/\b\w/g, l => l.toUpperCase())` on a piece `s` of a longer
      string, knowing whether the character before `s` was a word character. */
  function UpperWordStartsAfter(s: string, prevWord: bool): (r: string)
    ensures |r| == |s|
    ensures forall k | 0 <= k < |s| ::
      r[k] == if StartsWordAfter(s, k, prevWord) then Upper(s[k]) else s[k]
  {
    if s == [] then []
    else
      var c := if IsWordChar(s[0]) && !prevWord then Upper(s[0]) else s[0];
      var rest := UpperWordStartsAfter(s[1..], IsWordChar(s[0]));
      assert forall k | 1 <= k < |s| ::
        s[1..][k - 1] == s[k] && StartsWordAfter(s, k, prevWord) == StartsWordAfter(s[1..], k - 1, IsWordChar(s[0]));
      [c] + rest
  }

  /** `s.replace(/\b\w/g, l => l.toUpperCase())`: upper-cases every
      character that starts a word and leaves every other character alone. */
  function UpperWordStarts(s: string): (r: string)
    ensures |r| == |s|
    ensures forall k | 0 <= k < |s| :: r[k] == if WordStart(s, k) then Upper(s[k]) else s[k]
  {
    var r := UpperWordStartsAfter(s, false);
    assert forall k | 0 <= k < |s| :: WordStart(s, k) == StartsWordAfter(s, k, false);
    r
  }

  /** Word starts are found piece by piece: upper-casing a concatenation
      upper-cases the first piece, then the second knowing how the first
      ended. */
  lemma {:induction false} UpperWordStartsSplit(x: string, y: string, prevWord: bool)
    ensures UpperWordStartsAfter(x + y, prevWord)
         == UpperWordStartsAfter(x, prevWord) + UpperWordStartsAfter(y, if x == [] then prevWord else IsWordChar(x[|x| - 1]))
  {
    if x == [] {
      assert x + y == y;
    } else {
      assert (x + y)[0] == x[0];
      assert (x + y)[1..] == x[1..] + y;
      UpperWordStartsSplit(x[1..], y, IsWordChar(x[0]));
      assert x[1..] != [] ==> x[1..][|x[1..]| - 1] == x[|x| - 1];
    }
  }
}
