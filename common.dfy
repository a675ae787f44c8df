/** Result shapes shared by every service, and the two list primitives the services
    lean on: `Array.prototype.find` (first match) and `Array.prototype.filter`. */
module Common {

  datatype Option<+T> = None | Some(value: T)

  /** A value or the human-readable message of the failure that prevented it. */
  datatype Result<+T> = Ok(value: T) | Err(error: string)

  /** The `{ ok, error? }` object every service method resolves to. */
  datatype CoreOutput = CoreOutput(ok: bool, error: Option<string>)

  function Success(): CoreOutput
  {
    CoreOutput(true, None)
  }

  function Failure(message: string): CoreOutput
  {
    CoreOutput(false, Some(message))
  }

  /** `k` is the position of the first element satisfying `p`. */
  predicate IsFirstMatch<T>(s: seq<T>, p: T -> bool, k: nat)
  {
    k < |s| && p(s[k]) && forall j :: 0 <= j < k ==> !p(s[j])
  }

  /** Index of the first element satisfying `p`, as `find`/`findIndex` would pick it. */
  function FindFirst<T>(s: seq<T>, p: T -> bool): (r: Option<nat>)
    ensures r.Some? ==> r.value < |s| && p(s[r.value])
    ensures r.Some? ==> forall j :: 0 <= j < r.value ==> !p(s[j])
    ensures r.None? <==> forall j :: 0 <= j < |s| ==> !p(s[j])
  {
    if s == [] then None
    else if p(s[0]) then Some(0)
    else match FindFirst(s[1..], p)
      case None => None
      case Some(k) => Some(k + 1)
  }

  /** Two searches whose predicates agree position by position find the same index. */
  lemma FindFirstAgree<T, U>(s: seq<T>, p: T -> bool, t: seq<U>, q: U -> bool)
    requires |s| == |t| && forall i :: 0 <= i < |s| ==> p(s[i]) == q(t[i])
    ensures FindFirst(s, p) == FindFirst(t, q)
  {
    var a, b := FindFirst(s, p), FindFirst(t, q);
    if a.Some? && b.Some? {
      assert !(a.value < b.value) && !(b.value < a.value);
    }
  }

  /** The element `find` returns: the first one satisfying `p`, or `undefined`. */
  function Find<T>(s: seq<T>, p: T -> bool): (r: Option<T>)
    ensures r.Some? <==> exists j :: 0 <= j < |s| && p(s[j])
    ensures r.Some? ==> r.value in s && p(r.value)
    ensures r.Some? ==> exists k: nat :: IsFirstMatch(s, p, k) && s[k] == r.value
  {
    match FindFirst(s, p)
    case None => None
    case Some(k) => Some(s[k])
  }

  /** The keep-in-order selection `filter` performs. */
  function Filter<T(!new)>(s: seq<T>, p: T -> bool): (r: seq<T>)
    ensures |r| <= |s|
    ensures forall x :: x in r <==> x in s && p(x)
  {
    if s == [] then [] else (if p(s[0]) then [s[0]] else []) + Filter(s[1..], p)
  }

  lemma {:induction false} FilterAppend<T(!new)>(a: seq<T>, b: seq<T>, p: T -> bool)
    ensures Filter(a + b, p) == Filter(a, p) + Filter(b, p)
  {
    if a == [] {
      assert a + b == b;
    } else {
      assert (a + b)[0] == a[0];
      assert (a + b)[1..] == a[1..] + b;
      FilterAppend(a[1..], b, p);
    }
  }

  /** Filtering twice is filtering once by the conjunction. */
  lemma {:induction false} FilterFilter<T(!new)>(s: seq<T>, p: T -> bool, q: T -> bool, pq: T -> bool)
    requires forall x :: pq(x) == (p(x) && q(x))
    ensures Filter(Filter(s, p), q) == Filter(s, pq)
  {
    if s != [] {
      FilterFilter(s[1..], p, q, pq);
      var once := Filter(s, p);
      if p(s[0]) {
        assert once == [s[0]] + Filter(s[1..], p);
        assert once[0] == s[0] && once[1..] == Filter(s[1..], p);
        assert Filter(once, q) == (if q(s[0]) then [s[0]] else []) + Filter(once[1..], q);
      } else {
        assert once == Filter(s[1..], p);
      }
    }
  }
}
