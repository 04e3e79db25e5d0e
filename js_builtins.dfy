/**
 * The few JavaScript built-ins the dashboard relies on, with their
 * ECMAScript semantics written out: an optional value (`null`/`undefined`
 * versus a value), `Array.prototype.slice` with negative and out-of-range
 * bounds, and `String.prototype.includes`.
 */
module JsBuiltins {

  /** A value that may be absent (`null` or `undefined` in the source). */
  datatype Option<+T> = None | Some(value: T) {
    /** `x || default` for a value that is present exactly when it is truthy. */
    function GetOr(default: T): T {
      match this
      case Some(v) => v
      case None => default
    }
  }

  function Max(a: int, b: int): int { if a < b then b else a }

  function Min(a: int, b: int): int { if a < b then a else b }

  /**
   * How `slice` resolves one bound against a length: a negative bound counts
   * back from the end, and the result is clamped to [0, len].
   */
  function SliceBound(k: int, len: nat): (i: nat)
    ensures i <= len
    ensures 0 <= k <= len ==> i == k
    ensures k > len ==> i == len
    ensures k < 0 && -k <= len ==> i == len + k
    ensures k < 0 && -k > len ==> i == 0
  {
    if k < 0 then Max(len + k, 0) else Min(k, len)
  }

  /** `s.slice(start, end)`: the elements from the resolved start up to the resolved end. */
  function Slice<T>(s: seq<T>, start: int, end: int): (r: seq<T>)
    ensures |r| == Max(0, SliceBound(end, |s|) - SliceBound(start, |s|))
    ensures forall i :: 0 <= i < |r| ==> r[i] == s[SliceBound(start, |s|) + i]
    ensures 0 <= start <= end ==> r == s[Min(start, |s|)..Min(end, |s|)]
  {
    var lo, hi := SliceBound(start, |s|), SliceBound(end, |s|);
    if lo < hi then s[lo..hi] else []
  }

  /** `s.includes(needle)`: the needle occurs in `s` at some offset. */
  predicate Includes(s: string, needle: string) {
    exists i :: 0 <= i <= |s| - |needle| && needle <= s[i..]
  }

  /** An occurrence of an occurrence is an occurrence. */
  lemma IncludesTransitive(s: string, middle: string, needle: string)
    requires Includes(s, middle) && Includes(middle, needle)
    ensures Includes(s, needle)
  {
    var i :| 0 <= i <= |s| - |middle| && middle <= s[i..];
    var j :| 0 <= j <= |middle| - |needle| && needle <= middle[j..];
    forall k | 0 <= k < |needle|
      ensures needle[k] == s[i + j..][k]
    {
      assert needle[k] == middle[j + k];
      assert middle[j + k] == s[i..][j + k];
    }
    assert needle <= s[i + j..];
  }

  /** A needle found at offset `i` of `s` is included in `s`. */
  lemma IncludesAt(s: string, needle: string, i: nat)
    requires i + |needle| <= |s| && s[i..i + |needle|] == needle
    ensures Includes(s, needle)
  {
    assert needle <= s[i..];
  }
}
