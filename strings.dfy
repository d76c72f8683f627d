/**
 * Sequence and string primitives with the meaning JavaScript gives them:
 * `startsWith`, `endsWith`, `indexOf`, `lastIndexOf`, `split` with a literal
 * separator, `join`, `trim`, `parseInt` and `Number.prototype.toString`.
 * They are generic over the element type where the source applies the same
 * operation to strings and to `Buffer`s.
 */
module Strings {
  import opened Wrappers

  /** One octet of a `Buffer` or `Uint8Array`. */
  newtype byte = x: int | 0 <= x < 256

  // ---------------------------------------------------------------------
  // Prefixes, suffixes and occurrences

  predicate StartsWith<T(==)>(s: seq<T>, p: seq<T>)
  {
    |p| <= |s| && s[..|p|] == p
  }

  predicate EndsWith<T(==)>(s: seq<T>, p: seq<T>)
  {
    |p| <= |s| && s[|s| - |p|..] == p
  }

  /** `pat` occurs in `s` starting at index `i`. */
  predicate OccursAt<T(==)>(s: seq<T>, pat: seq<T>, i: nat)
  {
    i + |pat| <= |s| && s[i..i + |pat|] == pat
  }

  /** `s.indexOf(pat, from)`, with `None` for -1. */
  function IndexOf<T(==)>(s: seq<T>, pat: seq<T>, from: nat): (r: Option<nat>)
    requires |pat| > 0
    ensures r.Some? ==> from <= r.value && OccursAt(s, pat, r.value)
    ensures r.Some? ==> forall j :: from <= j < r.value ==> !OccursAt(s, pat, j)
    ensures r.None? ==> forall j :: from <= j ==> !OccursAt(s, pat, j)
    decreases |s| - from
  {
    if from + |pat| > |s| then None
    else if OccursAt(s, pat, from) then Some(from)
    else IndexOf(s, pat, from + 1)
  }

  /** The last occurrence of `pat` starting strictly below `k`. */
  function LastIndexBelow<T(==)>(s: seq<T>, pat: seq<T>, k: nat): (r: Option<nat>)
    ensures r.Some? ==> r.value < k && OccursAt(s, pat, r.value)
    ensures r.Some? ==> forall j :: r.value < j < k ==> !OccursAt(s, pat, j)
    ensures r.None? ==> forall j :: 0 <= j < k ==> !OccursAt(s, pat, j)
    decreases k
  {
    if k == 0 then None
    else if OccursAt(s, pat, k - 1) then Some(k - 1)
    else LastIndexBelow(s, pat, k - 1)
  }

  /** `s.lastIndexOf(pat)`, with `None` for -1. */
  function LastIndexOf<T(==)>(s: seq<T>, pat: seq<T>): (r: Option<nat>)
    ensures r.Some? ==> OccursAt(s, pat, r.value)
    ensures r.Some? ==> forall j :: r.value < j ==> !OccursAt(s, pat, j)
    ensures r.None? ==> forall j :: !OccursAt(s, pat, j)
  {
    LastIndexBelow(s, pat, |s| + 1)
  }

  lemma PrefixOfPrefix<T>(s: seq<T>, j: nat)
    requires j < |s|
    ensures s[..j + 1][..j] == s[..j] && s[..j + 1][j] == s[j]
  {
  }

  lemma InitLast<T>(s: seq<T>)
    requires |s| > 0
    ensures s[..|s| - 1] + [s[|s| - 1]] == s
  {
  }

  lemma ConsSnoc<T>(x: T, s: seq<T>)
    requires |s| > 0
    ensures [x] + s == ([x] + s[..|s| - 1]) + [s[|s| - 1]]
  {
  }

  lemma WholePrefix<T>(s: seq<T>)
    ensures s[..|s|] == s
  {
  }

  /** A sequence ending with `pat` has its last occurrence of `pat` there. */
  lemma LastOccurrenceAtEnd<T>(pre: seq<T>, pat: seq<T>)
    ensures LastIndexOf(pre + pat, pat) == Some(|pre|)
  {
    var s := pre + pat;
    assert s[|pre|..|pre| + |pat|] == pat;
    assert OccursAt(s, pat, |pre|);
  }

  /** `s.includes(pat)` for a non-empty pattern. */
  predicate Contains<T(==)>(s: seq<T>, pat: seq<T>)
    requires |pat| > 0
  {
    IndexOf(s, pat, 0).Some?
  }

  // ---------------------------------------------------------------------
  // split and join

  /** `s.split(sep)` for a non-empty literal separator: the pieces between occurrences, left to right. */
  function Split<T(==)>(s: seq<T>, sep: seq<T>): (r: seq<seq<T>>)
    requires |sep| > 0
    ensures |r| >= 1
    decreases |s|
  {
    match IndexOf(s, sep, 0)
    case None => [s]
    case Some(i) => [s[..i]] + Split(s[i + |sep|..], sep)
  }

  /** `parts.join(sep)`; the empty array joins to the empty sequence. */
  function Join<T>(parts: seq<seq<T>>, sep: seq<T>): seq<T>
    decreases |parts|
  {
    if |parts| == 0 then []
    else if |parts| == 1 then parts[0]
    else parts[0] + sep + Join(parts[1..], sep)
  }

  /** No occurrence of `sep` starts inside `p`, even one that would run on into a following `sep`. */
  predicate SeparatorFree<T(==)>(p: seq<T>, sep: seq<T>)
  {
    forall j :: 0 <= j < |p| ==> !OccursAt(p + sep, sep, j)
  }

  /** Joining the pieces of a split gives back the original sequence. */
  lemma {:induction false} JoinSplit<T>(s: seq<T>, sep: seq<T>)
    requires |sep| > 0
    ensures Join(Split(s, sep), sep) == s
    decreases |s|
  {
    match IndexOf(s, sep, 0)
    case None =>
    case Some(i) =>
      var rest := s[i + |sep|..];
      JoinSplit(rest, sep);
      JoinCons(s[..i], Split(rest, sep), sep);
      SplitAround(s, sep, i);
  }

  /** Joining a first part onto a non-empty list puts one separator between them. */
  lemma JoinCons<T>(p: seq<T>, parts: seq<seq<T>>, sep: seq<T>)
    requires |parts| >= 1
    ensures Join([p] + parts, sep) == p + sep + Join(parts, sep)
  {
    assert ([p] + parts)[1..] == parts;
  }

  /** A sequence is the part before an occurrence, the occurrence and the part after it. */
  lemma SplitAround<T>(s: seq<T>, sep: seq<T>, i: nat)
    requires OccursAt(s, sep, i)
    ensures s == s[..i] + sep + s[i + |sep|..]
  {
    assert s[i..i + |sep|] == sep;
  }

  /** No piece of a split contains the separator. */
  lemma {:induction false} SplitPiecesFree<T>(s: seq<T>, sep: seq<T>)
    requires |sep| > 0
    ensures forall k :: 0 <= k < |Split(s, sep)| ==> IndexOf(Split(s, sep)[k], sep, 0).None?
    decreases |s|
  {
    match IndexOf(s, sep, 0)
    case None =>
    case Some(i) =>
      var rest := s[i + |sep|..];
      SplitPiecesFree(rest, sep);
      var head := s[..i];
      forall j | 0 <= j
        ensures !OccursAt(head, sep, j)
      {
        if OccursAt(head, sep, j) {
          assert s[j..j + |sep|] == head[j..j + |sep|];
          assert OccursAt(s, sep, j);
        }
      }
      assert Split(s, sep) == [head] + Split(rest, sep);
  }

  /** A separator-free sequence contains no occurrence of the separator. */
  lemma FreeHasNoOccurrence<T>(p: seq<T>, sep: seq<T>)
    requires |sep| > 0 && SeparatorFree(p, sep)
    ensures IndexOf(p, sep, 0).None?
  {
    forall j | 0 <= j
      ensures !OccursAt(p, sep, j)
    {
      if OccursAt(p, sep, j) {
        assert (p + sep)[j..j + |sep|] == p[j..j + |sep|];
        assert OccursAt(p + sep, sep, j);
      }
    }
  }

  /** In `p + sep + rest` with `p` separator-free, the first separator is the one after `p`. */
  lemma FirstSeparatorAfter<T>(p: seq<T>, sep: seq<T>, rest: seq<T>)
    requires |sep| > 0 && SeparatorFree(p, sep)
    ensures IndexOf(p + sep + rest, sep, 0) == Some(|p|)
  {
    var s := p + sep + rest;
    forall j | 0 <= j < |p|
      ensures !OccursAt(s, sep, j)
    {
      if OccursAt(s, sep, j) {
        assert (p + sep)[j..j + |sep|] == s[j..j + |sep|];
        assert OccursAt(p + sep, sep, j);
      }
    }
    assert s[|p|..|p| + |sep|] == sep;
    assert OccursAt(s, sep, |p|);
  }

  /** A one-element pattern occurs nowhere exactly when its element does not. */
  lemma NoCharOccurs<T>(p: seq<T>, c: T)
    requires IndexOf(p, [c], 0).None?
    ensures forall j :: 0 <= j < |p| ==> p[j] != c
  {
    forall j | 0 <= j < |p|
      ensures p[j] != c
    {
      assert !OccursAt(p, [c], j);
      assert p[j..j + 1] == [p[j]];
    }
  }

  /** Splitting a join recovers the parts when no part can hide a separator. */
  lemma {:induction false} SplitJoin<T>(parts: seq<seq<T>>, sep: seq<T>)
    requires |sep| > 0 && |parts| >= 1
    requires forall k :: 0 <= k < |parts| ==> SeparatorFree(parts[k], sep)
    ensures Split(Join(parts, sep), sep) == parts
    decreases |parts|
  {
    var p := parts[0];
    if |parts| == 1 {
      FreeHasNoOccurrence(p, sep);
    } else {
      var rest := Join(parts[1..], sep);
      var s := p + sep + rest;
      assert s == Join(parts, sep);
      FirstSeparatorAfter(p, sep, rest);
      assert s[..|p|] == p;
      assert s[|p| + |sep|..] == rest;
      SplitJoin(parts[1..], sep);
      assert parts == [p] + parts[1..];
    }
  }

  /** For a one-element separator, "separator-free" is just "does not contain it". */
  lemma SingleSeparatorFree<T>(p: seq<T>, c: T)
    requires forall i :: 0 <= i < |p| ==> p[i] != c
    ensures SeparatorFree(p, [c])
  {
    forall j | 0 <= j < |p|
      ensures !OccursAt(p + [c], [c], j)
    {
      assert (p + [c])[j] == p[j];
    }
  }

  /** For a two-element separator whose elements differ, containing no separator is enough. */
  lemma PairSeparatorFree<T>(p: seq<T>, sep: seq<T>)
    requires |sep| == 2 && sep[0] != sep[1] && IndexOf(p, sep, 0).None?
    ensures SeparatorFree(p, sep)
  {
    forall j | 0 <= j < |p|
      ensures !OccursAt(p + sep, sep, j)
    {
      if j + 2 <= |p| {
        assert !OccursAt(p, sep, j);
        assert (p + sep)[j..j + 2] == p[j..j + 2];
      } else {
        assert (p + sep)[j + 1] == sep[0];
      }
    }
  }

  /** `s` begins with `p`, and `p` runs to the end of `s` or stops just before an occurrence of `c`. */
  predicate PieceAt<T(==)>(s: seq<T>, p: seq<T>, c: T)
  {
    StartsWith(s, p) && c !in p && (p == s || (|p| < |s| && s[|p|] == c))
  }

  /** The first piece of a split on one element ends at the first occurrence of that element. */
  lemma SplitFirstPiece<T>(s: seq<T>, c: T)
    ensures PieceAt(s, Split(s, [c])[0], c)
  {
    SplitPiecesFree(s, [c]);
    NoCharOccurs(Split(s, [c])[0], c);
    match IndexOf(s, [c], 0)
    case None =>
    case Some(i) =>
      assert s[i..i + 1] == [c];
  }

  /** The second piece of a split on one element is the first piece of what follows the first occurrence. */
  lemma SplitSecondPiece<T>(s: seq<T>, c: T)
    ensures |Split(s, [c])| > 1 ==>
      |Split(s, [c])[0]| < |s| && PieceAt(s[|Split(s, [c])[0]| + 1..], Split(s, [c])[1], c)
  {
    match IndexOf(s, [c], 0)
    case None =>
    case Some(i) =>
      var rest := s[i + 1..];
      assert Split(s, [c]) == [s[..i]] + Split(rest, [c]);
      SplitFirstPiece(rest, c);
  }

  /** A split on one element has a single piece exactly when the element does not occur. */
  lemma SplitSingle<T>(s: seq<T>, c: T)
    ensures |Split(s, [c])| == 1 <==> c !in s
  {
    match IndexOf(s, [c], 0)
    case None =>
      NoCharOccurs(s, c);
    case Some(i) =>
      assert s[i..i + 1] == [c];
      assert s[i] == c;
  }

  // ---------------------------------------------------------------------
  // Whitespace, trim, numbers

  /**
   * The characters that ECMAScript counts as WhiteSpace or LineTerminator:
   * the set matched by the regular-expression class `\s` and removed by
   * `String.prototype.trim` and by `parseInt` before the digits.
   */
  predicate IsSpace(c: char)
  {
    c == '\t' || c == '\n' || c == '\U{000B}' || c == '\U{000C}' || c == '\r' || c == ' '
    || c == '\U{00A0}' || c == '\U{1680}' || ('\U{2000}' <= c <= '\U{200A}')
    || c == '\U{2028}' || c == '\U{2029}' || c == '\U{202F}' || c == '\U{205F}'
    || c == '\U{3000}' || c == '\U{FEFF}'
  }

  /** The ECMAScript LineTerminator characters, where `^` and `$` match in multiline mode. */
  predicate IsLineTerminator(c: char)
  {
    c == '\n' || c == '\r' || c == '\U{2028}' || c == '\U{2029}'
  }

  predicate IsDigit(c: char)
  {
    '0' <= c <= '9'
  }

  function TrimStart(s: string): (r: string)
    ensures |r| <= |s| && EndsWith(s, r)
    ensures r == [] || !IsSpace(r[0])
    ensures forall i :: 0 <= i < |s| - |r| ==> IsSpace(s[i])
  {
    if |s| > 0 && IsSpace(s[0]) then TrimStart(s[1..]) else s
  }

  function TrimEnd(s: string): (r: string)
    ensures |r| <= |s| && StartsWith(s, r)
    ensures r == [] || !IsSpace(r[|r| - 1])
    ensures forall i :: |r| <= i < |s| ==> IsSpace(s[i])
  {
    if |s| > 0 && IsSpace(s[|s| - 1]) then TrimEnd(s[..|s| - 1]) else s
  }

  /** `s.trim()`. */
  function Trim(s: string): string
  {
    TrimEnd(TrimStart(s))
  }

  /** The longest prefix of `s` made of decimal digits. */
  function DigitRun(s: string): (r: string)
    ensures StartsWith(s, r)
    ensures forall i :: 0 <= i < |r| ==> IsDigit(r[i])
    ensures |r| == |s| || !IsDigit(s[|r|])
  {
    if |s| > 0 && IsDigit(s[0]) then [s[0]] + DigitRun(s[1..]) else []
  }

  /** The number written by a string of decimal digits. */
  function DigitsValue(d: string): (v: nat)
    requires forall i :: 0 <= i < |d| ==> IsDigit(d[i])
  {
    if |d| == 0 then 0
    else
      assert IsDigit(d[|d| - 1]);
      DigitsValue(d[..|d| - 1]) * 10 + ((d[|d| - 1] as int) - ('0' as int))
  }

  predicate IsHexDigit(c: char)
  {
    IsDigit(c) || 'a' <= c <= 'f' || 'A' <= c <= 'F'
  }

  function HexDigitValue(c: char): (v: nat)
    requires IsHexDigit(c)
    ensures v < 16
  {
    if IsDigit(c) then (c as int) - ('0' as int)
    else if 'a' <= c <= 'f' then (c as int) - ('a' as int) + 10
    else (c as int) - ('A' as int) + 10
  }

  /** The longest prefix of `s` made of hexadecimal digits. */
  function HexRun(s: string): (r: string)
    ensures StartsWith(s, r)
    ensures forall i :: 0 <= i < |r| ==> IsHexDigit(r[i])
    ensures |r| == |s| || !IsHexDigit(s[|r|])
  {
    if |s| > 0 && IsHexDigit(s[0]) then [s[0]] + HexRun(s[1..]) else []
  }

  /** The number written by a string of hexadecimal digits. */
  function HexValue(d: string): (v: nat)
    requires forall i :: 0 <= i < |d| ==> IsHexDigit(d[i])
  {
    if |d| == 0 then 0
    else
      assert IsHexDigit(d[|d| - 1]);
      HexValue(d[..|d| - 1]) * 16 + HexDigitValue(d[|d| - 1])
  }

  /** A `0x` or `0X` prefix, which makes `parseInt` without a radix read base 16. */
  predicate HexPrefixed(s: string)
  {
    |s| >= 2 && s[0] == '0' && (s[1] == 'x' || s[1] == 'X')
  }

  /** The value of the longest digit run of an unsigned numeral, in base 16 after a `0x` prefix and in base 10 otherwise. */
  function UnsignedValue(u: string): (r: Option<nat>)
  {
    if HexPrefixed(u) then
      var d := HexRun(u[2..]);
      if |d| == 0 then None else Some(HexValue(d))
    else
      var d := DigitRun(u);
      if |d| == 0 then None else Some(DigitsValue(d))
  }

  /**
   * `parseInt(s)` without a radix: leading whitespace is skipped, one optional
   * sign is read, then the longest run of digits, hexadecimal after `0x` or
   * `0X` and decimal otherwise; `None` is `NaN` (no digit).
   */
  function ParseInt(s: string): (r: Option<int>)
  {
    ParseSigned(TrimStart(s))
  }

  /** One optional sign, then the unsigned numeral. */
  function ParseSigned(t: string): (r: Option<int>)
  {
    var negative := |t| > 0 && t[0] == '-';
    var unsigned := if |t| > 0 && (t[0] == '-' || t[0] == '+') then t[1..] else t;
    match UnsignedValue(unsigned)
    case None => None
    case Some(v) => if negative then Some(-(v as int)) else Some(v)
  }

  function DigitChar(d: nat): (c: char)
    requires d < 10
    ensures IsDigit(c) && (c as int) - ('0' as int) == d
  {
    (('0' as int) + d) as char
  }

  /** The shortest decimal numeral of `n`. */
  function NatString(n: nat): (r: string)
    ensures |r| >= 1 && forall i :: 0 <= i < |r| ==> IsDigit(r[i])
  {
    if n < 10 then [DigitChar(n)] else NatString(n / 10) + [DigitChar(n % 10)]
  }

  /** `n.toString()` for an integer `n`. */
  function IntString(n: int): (r: string)
    ensures |r| >= 1
  {
    if n < 0 then "-" + NatString(-n) else NatString(n)
  }

  lemma {:induction false} NatStringValue(n: nat)
    ensures DigitsValue(NatString(n)) == n
    decreases n
  {
    if n >= 10 {
      NatStringValue(n / 10);
      var s := NatString(n);
      assert s[..|s| - 1] == NatString(n / 10);
    }
  }

  lemma {:induction false} DigitRunAll(d: string)
    requires forall i :: 0 <= i < |d| ==> IsDigit(d[i])
    ensures DigitRun(d) == d
    decreases |d|
  {
    if |d| > 0 {
      DigitRunAll(d[1..]);
    }
  }

  /** `parseInt` reads back what `toString` writes. */
  lemma ParseIntString(n: int)
    ensures ParseInt(IntString(n)) == Some(n)
  {
    var s := IntString(n);
    TrimStartKeeps(s);
    if n < 0 {
      assert s[1..] == NatString(-n);
      UnsignedNumeral(-n);
    } else {
      UnsignedNumeral(n);
    }
  }

  /** The unsigned numeral `toString` writes reads back in base 10. */
  lemma UnsignedNumeral(m: nat)
    ensures UnsignedValue(NatString(m)) == Some(m)
  {
    DigitRunAll(NatString(m));
    NatStringValue(m);
    NatStringNotHex(m);
  }

  /** A numeral written by `toString` never carries a `0x` prefix: only 0 starts with the digit 0. */
  lemma {:induction false} NatStringNotHex(n: nat)
    ensures !HexPrefixed(NatString(n))
    ensures n > 0 ==> NatString(n)[0] != '0'
    decreases n
  {
    if n >= 10 {
      NatStringNotHex(n / 10);
      assert NatString(n)[0] == NatString(n / 10)[0];
    }
  }

  /** A `0x` prefix switches to base 16: "0x1A" reads as 26, where a decimal parse would stop at 0. */
  lemma HexParse()
    ensures ParseInt("0x1A") == Some(26)
    ensures ParseInt("0x") == None
  {
    TrimStartKeeps("0x1A");
    assert "0x1A"[2..] == "1A";
    assert HexRun("1A") == "1A" by {
      assert "1A"[1..] == "A";
      assert "A"[1..] == "";
    }
    assert HexValue("1A") == 26 by {
      assert "1A"[..1] == "1";
      assert "1"[..0] == "";
    }
    TrimStartKeeps("0x");
    assert "0x"[2..] == "";
  }

  lemma TrimStartKeeps(s: string)
    requires |s| > 0 && !IsSpace(s[0])
    ensures TrimStart(s) == s
  {
  }

  // ---------------------------------------------------------------------
  // Small sequence helpers

  /** `c.repeat(n)`. */
  function Repeat<T>(c: T, n: nat): (r: seq<T>)
    ensures |r| == n && forall i :: 0 <= i < n ==> r[i] == c
  {
    if n == 0 then [] else [c] + Repeat(c, n - 1)
  }

  /** The first `n` elements of `s`, or all of it when shorter (`substring(0, n)`, `slice(0, n)`). */
  function Take<T>(s: seq<T>, n: nat): (r: seq<T>)
    ensures |r| == if n < |s| then n else |s|
  {
    if n < |s| then s[..n] else s
  }

  /** The elements of `s` from index `n` on, or nothing when `n` is past the end (`substring(n)`). */
  function Drop<T>(s: seq<T>, n: nat): (r: seq<T>)
    ensures |r| == if n < |s| then |s| - n else 0
  {
    if n < |s| then s[n..] else []
  }

  /** The concatenation of a sequence of sequences, in order. */
  function Flatten<T>(parts: seq<seq<T>>): seq<T>
  {
    if |parts| == 0 then [] else Flatten(parts[..|parts| - 1]) + parts[|parts| - 1]
  }
}
