/** The C library and GLib string primitives the application's parsers are
    built from, stated over `seq<char>`.

    A `char*` that may be NULL is an `Option<string>`; a NULL dereference
    in the C code becomes a `None` result in the callers, never a
    precondition.
 */
module CStrings {
  import opened Wrappers

  /** `isdigit` in the C locale. */
  predicate IsDigit(c: char) {
    '0' <= c <= '9'
  }

  /** `isspace` in the C locale. */
  predicate IsSpace(c: char) {
    c == ' ' || c == '\t' || c == '\n' || c == '\U{000B}' || c == '\U{000C}' || c == '\r'
  }

  /** True when no character of `s` is in `delims`. */
  predicate NoneIn(s: string, delims: set<char>) {
    forall i :: 0 <= i < |s| ==> s[i] !in delims
  }

  /** Index of the first character of `s` that is in `delims`, if any. */
  function FindFirst(s: string, delims: set<char>): (r: Option<nat>)
    ensures r.Some? ==> r.value < |s| && s[r.value] in delims && NoneIn(s[..r.value], delims)
    ensures r.None? <==> NoneIn(s, delims)
  {
    if |s| == 0 then None
    else if s[0] in delims then Some(0)
    else
      match FindFirst(s[1..], delims)
      case None => None
      case Some(k) =>
        assert s[..k + 1] == [s[0]] + s[1..][..k];
        Some(k + 1)
  }

  /** The first delimiter of `a + [sep] + b` is the one after `a` when `a`
      holds none. */
  lemma FindFirstAfterClean(a: string, sep: char, b: string)
    requires NoneIn(a, {sep})
    ensures FindFirst(a + [sep] + b, {sep}) == Some(|a|)
  {
    var s := a + [sep] + b;
    assert s[|a|] == sep;
    assert !NoneIn(s, {sep});
    var k := FindFirst(s, {sep}).value;
    assert forall i :: 0 <= i < k ==> s[..k][i] == s[i];
    assert forall i :: 0 <= i < k ==> s[i] != sep;
    assert k <= |a|;
    assert forall i :: 0 <= i < |a| ==> s[i] == a[i];
    assert k >= |a|;
  }

  /** `strsep(&p, delims)`: returns the token up to the first delimiter and
      the new value of `p` (just past that delimiter, or NULL when there is
      none). A NULL `p` yields NULL for both. */
  function StrSep(p: Option<string>, delims: set<char>): (r: (Option<string>, Option<string>))
    ensures p.None? <==> r.0.None?
    ensures p.None? ==> r.1.None?
    ensures r.0.Some? ==> NoneIn(r.0.value, delims)
    ensures r.1.Some? ==> exists d :: d in delims && p.value == r.0.value + [d] + r.1.value
    ensures p.Some? && r.1.None? ==> r.0.value == p.value
  {
    match p
    case None => (None, None)
    case Some(s) =>
      match FindFirst(s, delims)
      case None => (Some(s), None)
      case Some(k) =>
        assert s == s[..k] + [s[k]] + s[k + 1..];
        (Some(s[..k]), Some(s[k + 1..]))
  }

  /** The non-empty list of pieces of `s` between delimiter characters. */
  function Pieces(s: string, delims: set<char>): (r: seq<string>)
    ensures |r| >= 1
    ensures forall i :: 0 <= i < |r| ==> NoneIn(r[i], delims)
    decreases |s|
  {
    match FindFirst(s, delims)
    case None => [s]
    case Some(k) => [s[..k]] + Pieces(s[k + 1..], delims)
  }

  /** `strsep` on `a + [sep] + b` returns `a` and leaves `b`. */
  lemma StrSepAfter(a: string, sep: char, b: string, delims: set<char>)
    requires sep in delims && NoneIn(a, delims)
    ensures StrSep(Some(a + [sep] + b), delims) == (Some(a), Some(b))
  {
    var s := a + [sep] + b;
    assert s[|a|] == sep;
    assert !NoneIn(s, delims);
    var k := FindFirst(s, delims).value;
    assert forall i :: 0 <= i < k ==> s[..k][i] == s[i];
    assert forall i :: 0 <= i < k ==> s[i] !in delims;
    assert k <= |a|;
    assert forall i :: 0 <= i < |a| ==> s[i] == a[i];
    assert k >= |a|;
    assert s[..k] == a && s[k + 1..] == b;
  }

  /** A concatenation is free of delimiters exactly when both parts are. */
  lemma NoneInConcat(a: string, b: string, delims: set<char>)
    ensures NoneIn(a + b, delims) <==> NoneIn(a, delims) && NoneIn(b, delims)
  {
    if NoneIn(a + b, delims) {
      forall i | 0 <= i < |b|
        ensures b[i] !in delims
      {
        assert (a + b)[|a| + i] == b[i];
      }
      forall i | 0 <= i < |a|
        ensures a[i] !in delims
      {
        assert (a + b)[i] == a[i];
      }
    }
  }

  /** Splitting `a + [sep] + b` gives `a` followed by the pieces of `b`. */
  lemma PiecesAfter(a: string, sep: char, b: string, delims: set<char>)
    requires sep in delims && NoneIn(a, delims)
    ensures Pieces(a + [sep] + b, delims) == [a] + Pieces(b, delims)
  {
    StrSepAfter(a, sep, b, delims);
  }

  /** `strsep` on a string without delimiters returns it whole and leaves
      NULL. */
  lemma StrSepNone(a: string, delims: set<char>)
    requires NoneIn(a, delims)
    ensures StrSep(Some(a), delims) == (Some(a), None)
  {
  }

  /** `g_strsplit_set(s, delims, -1)`: every piece between delimiter
      characters, empty pieces included; the empty string splits into the
      empty vector. */
  function SplitSet(s: string, delims: set<char>): (r: seq<string>)
    ensures |s| == 0 <==> |r| == 0
    ensures forall i :: 0 <= i < |r| ==> NoneIn(r[i], delims)
  {
    if |s| == 0 then [] else Pieces(s, delims)
  }

  /** `g_strjoin`-style concatenation with a single separator. */
  function Join(parts: seq<string>, sep: char): string
  {
    if |parts| == 0 then ""
    else if |parts| == 1 then parts[0]
    else parts[0] + [sep] + Join(parts[1..], sep)
  }

  /** Splitting on a single separator loses nothing: joining the pieces back
      gives the original text. */
  lemma {:induction false} PiecesJoin(s: string, sep: char)
    ensures Join(Pieces(s, {sep}), sep) == s
    decreases |s|
  {
    match FindFirst(s, {sep})
    case None =>
    case Some(k) =>
      var rest := s[k + 1..];
      var p := Pieces(s, {sep});
      assert p == [s[..k]] + Pieces(rest, {sep});
      PiecesJoin(rest, sep);
      assert Join(p, sep) == s[..k] + [sep] + Join(Pieces(rest, {sep}), sep);
      assert s == s[..k] + [sep] + rest;
  }

  lemma SplitSetJoin(s: string, sep: char)
    ensures Join(SplitSet(s, {sep}), sep) == s
  {
    if |s| > 0 {
      PiecesJoin(s, sep);
    }
  }

  /** Length of the run of digits at the start of `s`. */
  function DigitRun(s: string): (n: nat)
    ensures n <= |s|
    ensures forall i :: 0 <= i < n ==> IsDigit(s[i])
    ensures n < |s| ==> !IsDigit(s[n])
  {
    if |s| > 0 && IsDigit(s[0]) then 1 + DigitRun(s[1..]) else 0
  }

  /** Value of a decimal digit. */
  function DigitOf(c: char): (d: nat)
    requires IsDigit(c)
    ensures d < 10
  {
    c as int - '0' as int
  }

  /** Decimal value of a string of digits. */
  function DigitsValue(d: string): nat
    requires forall i :: 0 <= i < |d| ==> IsDigit(d[i])
  {
    if |d| == 0 then 0
    else DigitsValue(d[..|d| - 1]) * 10 + DigitOf(d[|d| - 1])
  }

  /** `s` with its leading white space removed. */
  function SkipSpace(s: string): (r: string)
    ensures |r| <= |s| && r == s[|s| - |r|..]
    ensures |r| > 0 ==> !IsSpace(r[0])
  {
    if |s| > 0 && IsSpace(s[0]) then SkipSpace(s[1..]) else s
  }

  /** `atoi`: optional white space, an optional sign, then as many digits as
      follow; 0 when there are none. The C `int` range is not enforced. */
  function Atoi(s: string): int
  {
    var t := SkipSpace(s);
    if |t| > 0 && (t[0] == '-' || t[0] == '+') then
      var v: int := DigitsValue(t[1..][..DigitRun(t[1..])]);
      if t[0] == '-' then -v else v
    else
      DigitsValue(t[..DigitRun(t)])
  }

  function DigitChar(d: nat): (c: char)
    requires d < 10
    ensures IsDigit(c)
  {
    ('0' as int + d) as char
  }

  /** `g_strdup_printf("%d", n)` for a non-negative `n`. */
  function NatToString(n: nat): (s: string)
    ensures |s| >= 1
    ensures forall i :: 0 <= i < |s| ==> IsDigit(s[i])
  {
    if n < 10 then [DigitChar(n)] else NatToString(n / 10) + [DigitChar(n % 10)]
  }

  /** `g_strdup_printf("%ld", n)`. */
  function IntToString(n: int): (s: string)
    ensures |s| >= 1
  {
    if n < 0 then "-" + NatToString(-n) else NatToString(n)
  }

  lemma {:induction false} NatToStringValue(n: nat)
    ensures DigitsValue(NatToString(n)) == n
  {
    if n >= 10 {
      NatToStringValue(n / 10);
      var s := NatToString(n);
      assert s[..|s| - 1] == NatToString(n / 10);
    }
  }

  /** The digit run of a number written in decimal and followed by a
      non-digit is exactly that number. */
  lemma NatToStringRun(n: nat, rest: string)
    requires |rest| > 0 ==> !IsDigit(rest[0])
    ensures DigitRun(NatToString(n) + rest) == |NatToString(n)|
    ensures (NatToString(n) + rest)[..DigitRun(NatToString(n) + rest)] == NatToString(n)
  {
    DigitRunOfDigits(NatToString(n), rest);
  }

  lemma {:induction false} DigitRunOfDigits(d: string, rest: string)
    requires forall i :: 0 <= i < |d| ==> IsDigit(d[i])
    requires |rest| > 0 ==> !IsDigit(rest[0])
    ensures DigitRun(d + rest) == |d|
  {
    if |d| > 0 {
      assert (d + rest)[1..] == d[1..] + rest;
      DigitRunOfDigits(d[1..], rest);
    } else {
      assert d + rest == rest;
    }
  }

  /** `atoi` reads a plain run of digits as its decimal value. */
  lemma AtoiDigits(d: string)
    requires |d| > 0 && forall i :: 0 <= i < |d| ==> IsDigit(d[i])
    ensures Atoi(d) == DigitsValue(d)
  {
    assert !IsSpace(d[0]);
    assert SkipSpace(d) == d;
    DigitRunOfDigits(d, "");
    assert d + "" == d;
    assert d[..DigitRun(d)] == d;
  }

  /** `atoi` reads back what `%ld` writes. */
  lemma AtoiIntToString(n: int)
    ensures Atoi(IntToString(n)) == n
  {
    var m: nat := if n < 0 then -n else n;
    var d := NatToString(m);
    NatToStringValue(m);
    if n < 0 {
      var t := "-" + d;
      assert t[0] == '-' && !IsSpace(t[0]);
      assert SkipSpace(t) == t;
      assert t[1..] == d;
      DigitRunOfDigits(d, "");
      assert d + "" == d;
      assert t[1..][..DigitRun(t[1..])] == d;
    } else {
      AtoiDigits(d);
    }
  }

  /** True when `s` begins with `p`. */
  predicate HasPrefix(s: string, p: string) {
    |p| <= |s| && s[..|p|] == p
  }

  /** True when `needle` occurs in `hay` at position `j`. */
  predicate OccursAt(hay: string, needle: string, j: nat) {
    j + |needle| <= |hay| && hay[j..j + |needle|] == needle
  }

  /** The first occurrence of `needle` in `hay` at or after `i`. */
  function StrStrFrom(hay: string, needle: string, i: nat): (r: Option<nat>)
    ensures r.Some? ==> i <= r.value && OccursAt(hay, needle, r.value)
    ensures r.Some? ==> forall j :: i <= j < r.value ==> !OccursAt(hay, needle, j)
    ensures r.None? ==> forall j :: i <= j ==> !OccursAt(hay, needle, j)
    decreases |hay| - i
  {
    if i + |needle| > |hay| then None
    else if OccursAt(hay, needle, i) then Some(i)
    else StrStrFrom(hay, needle, i + 1)
  }

  /** `strstr(hay, needle)`: the first position at which `needle` occurs. */
  function StrStr(hay: string, needle: string): (r: Option<nat>)
    ensures r.Some? ==> OccursAt(hay, needle, r.value)
    ensures r.Some? ==> forall j :: 0 <= j < r.value ==> !OccursAt(hay, needle, j)
    ensures r.None? <==> forall j :: 0 <= j ==> !OccursAt(hay, needle, j)
  {
    StrStrFrom(hay, needle, 0)
  }

  /** `strstr(hay, needle) != NULL` (also `g_strrstr`, which finds the last
      occurrence but agrees on whether there is one). */
  predicate Contains(hay: string, needle: string) {
    StrStr(hay, needle).Some?
  }

  /** `g_strcmp0`: NULL sorts before every string; otherwise byte-wise
      comparison. Only the sign of the C result matters, so -1, 0 or 1. */
  function StrCmp0(a: Option<string>, b: Option<string>): (r: int)
    ensures -1 <= r <= 1
    ensures r == 0 <==> a == b
    decreases (if a.Some? then |a.value| else 0)
  {
    match (a, b)
    case (None, None) => 0
    case (None, Some(_)) => -1
    case (Some(_), None) => 1
    case (Some(x), Some(y)) =>
      if |x| == 0 && |y| == 0 then 0
      else if |x| == 0 then -1
      else if |y| == 0 then 1
      else if x[0] < y[0] then -1
      else if x[0] > y[0] then 1
      else
        var r := StrCmp0(Some(x[1..]), Some(y[1..]));
        assert r == 0 ==> x == [x[0]] + x[1..] && y == [y[0]] + y[1..];
        r
  }

  /** `g_strcmp0` is antisymmetric: swapping the arguments flips the sign. */
  lemma {:induction false} StrCmp0Antisymmetric(a: Option<string>, b: Option<string>)
    ensures StrCmp0(a, b) == -StrCmp0(b, a)
    decreases (if a.Some? then |a.value| else 0)
  {
    match (a, b)
    case (Some(x), Some(y)) =>
      if |x| > 0 && |y| > 0 && x[0] == y[0] {
        StrCmp0Antisymmetric(Some(x[1..]), Some(y[1..]));
      }
    case _ =>
  }

  // ---------------------------------------------------------------------
  // UTF-8: the bytes C sees for a string of Unicode characters

  /** The UTF-8 encoding of one character (section 3 of RFC 3629): one
      byte below U+0080, else a lead byte announcing the length followed by
      continuation bytes `10xxxxxx`. */
  function Utf8Char(c: char): (r: seq<int>)
    ensures 1 <= |r| <= 4
    ensures forall i :: 0 <= i < |r| ==> 0 <= r[i] < 256
    ensures |r| == 1 <==> c as int < 0x80
    ensures |r| == 1 ==> r[0] == c as int
    ensures |r| > 1 ==> r[0] >= 0xC0 && forall i :: 1 <= i < |r| ==> 0x80 <= r[i] < 0xC0
  {
    var n := c as int;
    if n < 0x80 then [n]
    else if n < 0x800 then [0xC0 + n / 64, 0x80 + n % 64]
    else if n < 0x10000 then [0xE0 + n / 4096, 0x80 + (n / 64) % 64, 0x80 + n % 64]
    else [0xF0 + n / 262144, 0x80 + (n / 4096) % 64, 0x80 + (n / 64) % 64, 0x80 + n % 64]
  }

  /** The UTF-8 bytes of a string. */
  function Utf8(s: string): (r: seq<int>)
    ensures |r| >= |s|
    ensures (forall i :: 0 <= i < |s| ==> s[i] as int < 0x80) <==> |r| == |s|
  {
    if |s| == 0 then []
    else
      var rest := Utf8(s[1..]);
      assert forall i :: 0 <= i < |s[1..]| ==> s[1..][i] == s[i + 1];
      Utf8Char(s[0]) + rest
  }

  /** `strlen`: the number of UTF-8 bytes. */
  function StrLen(s: string): nat {
    |Utf8(s)|
  }
}
