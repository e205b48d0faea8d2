/**
 * The JavaScript array built-ins that the room engine relies on, on
 * sequences: `find`/`findIndex` (first match), `filter` (order-preserving
 * selection) and the element assignment `a[i] = v` as it looks once the
 * array has been stored as JSON (holes come back as `null`).
 */
module JsArrays {
  import opened Wrappers

  /** `s.findIndex(f)`: the first index whose element satisfies `f`. */
  function FindIndex<T>(s: seq<T>, f: T -> bool): (r: Option<nat>)
    ensures r.Some? ==> r.value < |s| && f(s[r.value])
    ensures r.Some? ==> forall j :: 0 <= j < r.value ==> !f(s[j])
    ensures r.None? <==> forall j :: 0 <= j < |s| ==> !f(s[j])
  {
    if |s| == 0 then None
    else if f(s[0]) then Some(0)
    else match FindIndex(s[1..], f)
      case None => None
      case Some(i) => Some(i + 1)
  }

  /** `s.filter(f)`: the elements satisfying `f`, in their original order. */
  function Filter<T>(s: seq<T>, f: T -> bool): (r: seq<T>)
    ensures |r| <= |s|
    ensures forall i :: 0 <= i < |r| ==> r[i] in s && f(r[i])
    ensures forall j :: 0 <= j < |s| && f(s[j]) ==> s[j] in r
  {
    if |s| == 0 then []
    else if f(s[0]) then [s[0]] + Filter(s[1..], f)
    else Filter(s[1..], f)
  }

  /** Filtering distributes over concatenation, so it keeps relative order. */
  lemma {:induction false} FilterAppend<T>(a: seq<T>, b: seq<T>, f: T -> bool)
    ensures Filter(a + b, f) == Filter(a, f) + Filter(b, f)
  {
    if |a| == 0 {
      assert a + b == b;
    } else {
      assert (a + b)[1..] == a[1..] + b;
      FilterAppend(a[1..], b, f);
    }
  }

  /** Filtering with a predicate every element satisfies changes nothing. */
  lemma {:induction false} FilterAll<T>(s: seq<T>, f: T -> bool)
    requires forall j :: 0 <= j < |s| ==> f(s[j])
    ensures Filter(s, f) == s
  {
    if |s| > 0 {
      FilterAll(s[1..], f);
    }
  }

  /** `n` copies of `x`. */
  function Repeat<T>(x: T, n: nat): (r: seq<T>)
    ensures |r| == n && forall i :: 0 <= i < n ==> r[i] == x
  {
    seq(n, _ => x)
  }

  /**
   * `a[index] = v` on a JavaScript array, read back after a JSON round trip:
   * a non-negative index past the end grows the array and the skipped slots
   * come back as `hole` (JSON `null`); a negative index sets a property that
   * is not an element, so the stored elements do not change.
   */
  function Assign<T>(a: seq<T>, index: int, v: T, hole: T): (r: seq<T>)
    ensures index < 0 ==> r == a
    ensures 0 <= index ==> |r| == if index < |a| then |a| else index + 1
    ensures 0 <= index ==> r[index] == v
    ensures 0 <= index ==> forall i :: 0 <= i < |r| && i != index ==>
              r[i] == if i < |a| then a[i] else hole
  {
    if index < 0 then a
    else if index < |a| then a[index := v]
    else a + Repeat(hole, index - |a|) + [v]
  }
}
