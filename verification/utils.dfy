/** Helpers of `utils.c`: first-occurrence string replacement and the
    NULL-tolerant GValue accessors. */
module Utils {
  import opened Wrappers
  import opened CStrings

  /** Size of `strrpl`'s stack buffer, terminating NUL included. */
  const BufferSize: nat := 4096

  /** The replaced string fits `strrpl`'s buffer: its UTF-8 length,
      |str| - |orig| + |rep| bytes, leaves room for the terminating NUL. */
  predicate Fits(str: string, orig: string, rep: string) {
    StrLen(str) - StrLen(orig) + StrLen(rep) < BufferSize
  }

  /** `strrpl(str, orig, rep)`: `str` itself when `orig` does not occur in
      it; otherwise a copy with the first occurrence of `orig` replaced by
      `rep`, built in the stack buffer. A result that does not fit the
      buffer (UTF-8 length |str| - |orig| + |rep| bytes of 4096 or more)
      overruns it: `None`. */
  function StrRpl(str: string, orig: string, rep: string): (r: Option<string>)
    ensures r.None? <==> Contains(str, orig) && !Fits(str, orig, rep)
    ensures !Contains(str, orig) ==> r == Some(str)
    ensures forall i: nat :: OccursAt(str, orig, i) && (forall j :: 0 <= j < i ==> !OccursAt(str, orig, j)) && r.Some? ==>
              r.value == str[..i] + rep + str[i + |orig|..]
    ensures r.Some? && Contains(str, orig) ==> |r.value| == |str| - |orig| + |rep|
  {
    match StrStr(str, orig)
    case None => Some(str)
    case Some(i) => if Fits(str, orig, rep) then Some(str[..i] + rep + str[i + |orig|..]) else None
  }

  /** Reference definition: walk the string and replace at the first
      position where `orig` starts. */
  function ReplaceFirst(s: string, orig: string, rep: string): (r: string)
    decreases |s|
  {
    if HasPrefix(s, orig) then rep + s[|orig|..]
    else if |s| == 0 then s
    else [s[0]] + ReplaceFirst(s[1..], orig, rep)
  }

  lemma OccursShift(s: string, orig: string, j: nat)
    requires |s| > 0
    ensures OccursAt(s, orig, j + 1) <==> OccursAt(s[1..], orig, j)
  {
    if j + 1 + |orig| <= |s| {
      assert s[j + 1..j + 1 + |orig|] == s[1..][j..j + |orig|];
    }
  }

  /** Dropping the first character does not lengthen the UTF-8 form. */
  lemma StrLenTail(s: string)
    requires |s| > 0
    ensures StrLen(s[1..]) <= StrLen(s)
  {
  }

  /** `strstr` returns the first occurrence, whichever way it is found. */
  lemma StrStrIsFirst(hay: string, needle: string, k: nat)
    requires OccursAt(hay, needle, k)
    requires forall j :: 0 <= j < k ==> !OccursAt(hay, needle, j)
    ensures StrStr(hay, needle) == Some(k)
  {
  }

  /** Past a non-matching first character, the first occurrence moves one
      position to the left. */
  lemma StrStrTail(s: string, orig: string)
    requires |s| > 0 && !OccursAt(s, orig, 0)
    ensures StrStr(s, orig).None? ==> StrStr(s[1..], orig).None?
    ensures StrStr(s, orig).Some? ==> StrStr(s, orig).value >= 1 && StrStr(s[1..], orig) == Some(StrStr(s, orig).value - 1)
  {
    var t := s[1..];
    forall j: nat
      ensures OccursAt(s, orig, j + 1) <==> OccursAt(t, orig, j)
    {
      OccursShift(s, orig, j);
    }
    match StrStr(s, orig)
    case None =>
      forall j: nat ensures !OccursAt(t, orig, j) {
        assert !OccursAt(s, orig, j + 1);
      }
    case Some(i) =>
      forall j | 0 <= j < i - 1 ensures !OccursAt(t, orig, j) {
        assert !OccursAt(s, orig, j + 1);
      }
      StrStrIsFirst(t, orig, i - 1);
  }

  /** `rep` put in place of the `n` characters of `s` from `i` on. */
  function Splice(s: string, i: nat, n: nat, rep: string): string
    requires i + n <= |s|
  {
    s[..i] + rep + s[i + n..]
  }

  /** Splicing past the first character commutes with dropping it. */
  lemma SpliceTail(s: string, i: nat, n: nat, rep: string)
    requires 1 <= i && i + n <= |s|
    ensures Splice(s, i, n, rep) == [s[0]] + Splice(s[1..], i - 1, n, rep)
  {
    assert s[..i] == [s[0]] + s[1..][..i - 1];
    assert s[i + n..] == s[1..][i - 1 + n..];
  }

  /** Where `strstr` finds `orig` and the result fits, `strrpl` splices
      `rep` in at that position. */
  lemma StrRplAt(str: string, orig: string, rep: string, i: nat)
    requires StrStr(str, orig) == Some(i) && Fits(str, orig, rep)
    ensures StrRpl(str, orig, rep) == Some(Splice(str, i, |orig|, rep))
  {
  }

  /** Past a first character that does not start a match, the buffer test
      of the rest passes whenever the whole string's does, and splicing
      the rest at the shifted position gives the same string less its
      first character. */
  lemma StrRplStepFound(s: string, orig: string, rep: string, i: nat)
    requires |s| > 0 && 1 <= i && StrStr(s, orig) == Some(i) && StrStr(s[1..], orig) == Some(i - 1)
    requires Fits(s, orig, rep)
    ensures StrRpl(s, orig, rep).Some? && StrRpl(s[1..], orig, rep).Some?
    ensures StrRpl(s, orig, rep).value == [s[0]] + StrRpl(s[1..], orig, rep).value
  {
    StrLenTail(s);
    StrRplAt(s, orig, rep, i);
    StrRplAt(s[1..], orig, rep, i - 1);
    SpliceTail(s, i, |orig|, rep);
  }

  /** When `orig` does not start `s`, `strrpl` keeps the first character
      and works on the rest. */
  lemma StrRplStep(s: string, orig: string, rep: string)
    requires |s| > 0 && !HasPrefix(s, orig)
    requires StrRpl(s, orig, rep).Some?
    ensures StrRpl(s[1..], orig, rep).Some?
    ensures StrRpl(s, orig, rep).value == [s[0]] + StrRpl(s[1..], orig, rep).value
  {
    assert !OccursAt(s, orig, 0);
    StrStrTail(s, orig);
    if StrStr(s, orig).None? {
      assert s == [s[0]] + s[1..];
    } else {
      StrRplStepFound(s, orig, rep, StrStr(s, orig).value);
    }
  }

  /** `strrpl` agrees with the character-by-character reference. */
  lemma {:induction false} StrRplIsReplaceFirst(s: string, orig: string, rep: string)
    ensures StrRpl(s, orig, rep).Some? ==> StrRpl(s, orig, rep).value == ReplaceFirst(s, orig, rep)
    decreases |s|
  {
    if StrRpl(s, orig, rep).None? {
    } else if HasPrefix(s, orig) {
      StrStrIsFirst(s, orig, 0);
      assert StrRpl(s, orig, rep).value == s[..0] + rep + s[|orig|..];
      assert s[..0] + rep == rep;
    } else if |s| == 0 {
      assert StrStr(s, orig).None?;
    } else {
      StrRplStep(s, orig, rep);
      StrRplIsReplaceFirst(s[1..], orig, rep);
    }
  }

  /** An empty `orig` matches at the start: `rep` is put in front. */
  lemma StrRplEmptyOrig(str: string, rep: string)
    requires StrLen(str) + StrLen(rep) < BufferSize
    ensures StrRpl(str, "", rep) == Some(rep + str)
  {
    assert str[0..0] == "";
    StrStrIsFirst(str, "", 0);
    assert StrLen("") == 0;
    assert Fits(str, "", rep);
    assert str[..0] + rep + str[0..] == rep + str;
  }

  /** Replacing a string by itself changes nothing. */
  lemma StrRplSame(str: string, orig: string)
    requires Contains(str, orig) ==> StrLen(str) < BufferSize
    ensures StrRpl(str, orig, orig) == Some(str)
  {
    match StrStr(str, orig)
    case None =>
    case Some(i) =>
      assert str == str[..i] + str[i..i + |orig|] + str[i + |orig|..];
  }

  // ---------------------------------------------------------------------
  // GValue accessors
  // ---------------------------------------------------------------------

  /** A GValue as far as the accessors look at it: a string (maybe NULL),
      an object reference (maybe NULL), or a value of another type. */
  datatype GValue = StringValue(str: Option<string>) | ObjectValue(obj: Option<nat>) | OtherValue

  /** `g_value_dup_string_allow_null`: a copy of the held string, or NULL.
      A value of another type reads as NULL. */
  function DupStringAllowNull(v: GValue): (r: Option<string>)
    ensures r.Some? <==> v.StringValue? && v.str.Some?
    ensures r.Some? ==> r.value == v.str.value
  {
    if v.StringValue? && v.str.Some? then Some(v.str.value) else None
  }

  /** `g_value_ref_sink_object`: NULL for a NULL GValue, a value not
      holding an object, or a NULL object; otherwise the object. */
  function RefSinkObject(v: Option<GValue>): (r: Option<nat>)
    ensures r.Some? <==> v.Some? && v.value.ObjectValue? && v.value.obj.Some?
    ensures r.Some? ==> r == v.value.obj
  {
    if v.None? || !v.value.ObjectValue? || v.value.obj.None? then None else v.value.obj
  }

  /** Reading back a stored string, NULL included, gives what was stored. */
  lemma DupStringRoundTrip(s: Option<string>)
    ensures DupStringAllowNull(StringValue(s)) == s
  {
  }

  /** Reading back a stored object, NULL included, gives what was stored. */
  lemma RefSinkRoundTrip(o: Option<nat>)
    ensures RefSinkObject(Some(ObjectValue(o))) == o
  {
  }
}
