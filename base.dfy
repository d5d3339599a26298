/** Small value types shared by every module of the model, and the one
    sequence operation that every SQL `WHERE` clause of the ledger reduces to. */
module Base {

  /** A value that may be absent (SQL `NULL`, or a lookup that found nothing). */
  datatype Option<+T> = None | Some(value: T)

  /** A field of a JSON request body: `Absent` for every value the handler's
      own test treats as missing, `Given(v)` otherwise. Where the handler
      tests `!x`, that is a missing key, `null` and the falsy values; where it
      tests `x !== undefined`, it is a missing key only. */
  datatype Field<+T> = Absent | Given(value: T)

  /** The outcome of one handler: the value it answers with, or the error it reports. */
  datatype Result<+T, +E> = Ok(value: T) | Err(error: E)

  /** The elements of `s` that satisfy `p`, in their order in `s`
      (the rows a `SELECT ... WHERE p` returns from a table held as `s`). */
  function Filter<T(!new)>(p: T -> bool, s: seq<T>): (r: seq<T>)
    ensures |r| <= |s|
    ensures forall i :: 0 <= i < |r| ==> p(r[i])
    ensures forall x :: x in r <==> x in s && p(x)
    ensures forall x :: multiset(r)[x] == if p(x) then multiset(s)[x] else 0
  {
    if s == [] then []
    else
      var rest := Filter(p, s[1..]);
      assert s == [s[0]] + s[1..];
      if p(s[0]) then [s[0]] + rest else rest
  }

  /** Filtering first by a weaker condition changes nothing. */
  lemma {:induction false} FilterOfFilter<T(!new)>(q: T -> bool, p: T -> bool, s: seq<T>)
    requires forall x :: q(x) ==> p(x)
    ensures Filter(q, Filter(p, s)) == Filter(q, s)
  {
    if s != [] {
      FilterOfFilter(q, p, s[1..]);
    }
  }
}
