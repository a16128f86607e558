/** The string helpers of StringEntension.cs: a substring that clamps its
    bounds instead of throwing, and a case-insensitive containment test.
    A null string is `None`; an exception thrown by the .NET library call
    is a `Failure`. Case folding is a parameter `fold`, applied to each
    character of both strings. */
module StringExtension {
  import opened Wrappers

  /** The exceptions the two helpers can let escape. */
  datatype Exception =
    | ArgumentOutOfRange  // String.Substring with a negative start or length
    | ArgumentNull        // String.IndexOf with a null value

  function Min(a: int, b: int): int
  {
    if a <= b then a else b
  }

  /** `val.SafeSubString(startPos, length)`: both bounds are clamped from
      above to the end of the string, then String.Substring is called.
      Clamping never raises a bound that is negative, so a negative start
      or length still makes Substring throw. */
  function SafeSubString(val: Option<string>, startPos: int, length: int): (r: Result<Option<string>, Exception>)
    ensures val.None? ==> r == Success(None)
    ensures val.Some? ==> (r.Failure? <==> startPos < 0 || length < 0)
    ensures r.Failure? ==> r.error == ArgumentOutOfRange
    ensures val.Some? && r.Success? ==>
      var s := val.value;
      r.value.Some? &&
      r.value.value <= s[Min(startPos, |s|)..] &&
      |r.value.value| == Min(length, |s| - Min(startPos, |s|))
  {
    match val
    case None => Success(None)
    case Some(s) =>
      var start := Min(startPos, |s|);
      var len := Min(length, |s| - start);
      if start < 0 || len < 0 then Failure(ArgumentOutOfRange)
      else Success(Some(s[start..start + len]))
  }

  /** When the requested range lies inside the string, SafeSubString is
      exactly String.Substring: clamping only changes out-of-range requests. */
  lemma SafeSubStringInRange(s: string, startPos: int, length: int)
    requires 0 <= startPos && 0 <= length && startPos + length <= |s|
    ensures SafeSubString(Some(s), startPos, length) == Success(Some(s[startPos..startPos + length]))
  {
  }

  /** A start at or past the end yields the empty string, whatever the length. */
  lemma SafeSubStringPastEnd(s: string, startPos: int, length: int)
    requires |s| <= startPos && 0 <= length
    ensures SafeSubString(Some(s), startPos, length) == Success(Some(""))
  {
  }

  /** Two adjacent safe substrings join into the safe substring that covers
      both ranges: the clamping composes. */
  lemma SafeSubStringSplit(s: string, p: int, a: int, b: int)
    requires 0 <= p && 0 <= a && 0 <= b
    ensures SafeSubString(Some(s), p, a).Success? && SafeSubString(Some(s), p + a, b).Success?
    ensures SafeSubString(Some(s), p, a).value.value + SafeSubString(Some(s), p + a, b).value.value
            == SafeSubString(Some(s), p, a + b).value.value
  {
    var n := |s|;
    var p1 := Min(p, n);
    var p2 := Min(p + a, n);
    var l1 := Min(a, n - p1);
    var l2 := Min(b, n - p2);
    var l := Min(a + b, n - p1);
    assert p1 + l1 == p2;
    assert p2 + l2 == p1 + l;
    assert SafeSubString(Some(s), p, a) == Success(Some(s[p1..p2]));
    assert SafeSubString(Some(s), p + a, b) == Success(Some(s[p2..p1 + l]));
    assert SafeSubString(Some(s), p, a + b) == Success(Some(s[p1..p1 + l]));
    assert s[p1..p2] + s[p2..p1 + l] == s[p1..p1 + l];
  }

  /** Case folding of a whole string, character by character. */
  function Fold(s: string, fold: char -> char): (r: string)
    ensures |r| == |s|
    ensures forall i :: 0 <= i < |s| ==> r[i] == fold(s[i])
  {
    if s == [] then [] else [fold(s[0])] + Fold(s[1..], fold)
  }

  /** `v` occurs in `s` at position `k`. */
  predicate OccursAt(s: string, v: string, k: int)
  {
    0 <= k && k + |v| <= |s| && s[k..k + |v|] == v
  }

  /** String.IndexOf(value, startIndex): the first position at or after
      `k` where `v` occurs in `s`, or -1 when there is none. */
  function IndexOfFrom(s: string, v: string, k: nat): (r: int)
    requires k <= |s|
    ensures r == -1 || (k <= r && OccursAt(s, v, r))
    ensures r == -1 <==> forall j :: k <= j <= |s| ==> !OccursAt(s, v, j)
    ensures r != -1 ==> forall j :: k <= j < r ==> !OccursAt(s, v, j)
    decreases |s| - k
  {
    if OccursAt(s, v, k) then k
    else if k == |s| then -1
    else IndexOfFrom(s, v, k + 1)
  }

  /** `str.ContainsNoCase(value)`: false for a null `str` (even before
      `value` is looked at), an ArgumentNullException from IndexOf for a
      null `value`, and otherwise whether the folded `value` occurs in the
      folded `str`. */
  function ContainsNoCase(str: Option<string>, value: Option<string>, fold: char -> char): (r: Result<bool, Exception>)
    ensures str.None? ==> r == Success(false)
    ensures str.Some? && value.None? ==> r == Failure(ArgumentNull)
    ensures str.Some? && value.Some? ==> r.Success?
  {
    match str
    case None => Success(false)
    case Some(s) =>
      match value
      case None => Failure(ArgumentNull)
      case Some(v) => Success(IndexOfFrom(Fold(s, fold), Fold(v, fold), 0) >= 0)
  }

  /** For non-null arguments ContainsNoCase is substring containment after
      folding both sides. */
  lemma ContainsNoCaseIsFoldedContainment(s: string, v: string, fold: char -> char)
    ensures ContainsNoCase(Some(s), Some(v), fold).Success?
    ensures ContainsNoCase(Some(s), Some(v), fold).value
            <==> exists k :: OccursAt(Fold(s, fold), Fold(v, fold), k)
  {
    var fs, fv := Fold(s, fold), Fold(v, fold);
    var i := IndexOfFrom(fs, fv, 0);
    if i >= 0 {
      assert OccursAt(Fold(s, fold), Fold(v, fold), i);
      assert exists k :: OccursAt(Fold(s, fold), Fold(v, fold), k);
    }
  }

  /** The empty string is contained in every non-null string. */
  lemma ContainsNoCaseEmpty(s: string, fold: char -> char)
    ensures ContainsNoCase(Some(s), Some(""), fold) == Success(true)
  {
    assert OccursAt(Fold(s, fold), Fold("", fold), 0);
  }
}
