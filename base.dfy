/** Failure-carrying values shared by every part of the quota engine.
    The engine raises on every unexpected input; each kind of exception
    it can raise is one `Error` constructor, and an operation that can
    raise returns a `Result`. */
module Base {

  datatype Option<+T> = None | Some(value: T)

  /** The exceptions the engine raises, by cause. */
  datatype Error =
    | TypeError       // a kind other than "u"/"g", or a list built from a missing category
    | ParseError      // a report row without exactly 11 fields, or an id line with an empty group list
    | ValueError      // int() rejected a field, or the capacity report had no data row
    | IndexError      // the capacity data row had fewer than two words
    | InvalidUser     // an empty account name given to the identity lookup
    | InvalidTarget   // a target that is not among the entities of its kind
    | InvalidValue    // a quota value that is not a number
    | MissingEntry    // a field read through a lookup that found nothing
    | EmptyReduce     // a sum over no local groups
    | ExecutionError  // an external command failed

  datatype Result<+T> = Ok(value: T) | Err(error: Error) {
    predicate IsFailure() { Err? }

    function PropagateFailure<U>(): Result<U>
      requires Err?
    {
      Err(error)
    }

    function Extract(): T
      requires Ok?
    {
      value
    }
  }

  /** `a` is `b` with some elements left out, the rest kept in order. */
  predicate Subsequence<T(==)>(a: seq<T>, b: seq<T>)
    decreases |b|
  {
    if |a| == 0 then true
    else if |b| == 0 then false
    else if a[0] == b[0] then Subsequence(a[1..], b[1..])
    else Subsequence(a, b[1..])
  }

  /** Putting an element in front of `t` keeps every subsequence of `t`. */
  lemma {:induction false} SubsequenceSkip<T>(a: seq<T>, x: T, t: seq<T>)
    requires Subsequence(a, t)
    ensures Subsequence(a, [x] + t)
    decreases |a| + |t|
  {
    var b := [x] + t;
    assert b[1..] == t;
    if |a| > 0 && a[0] == x {
      if a[0] == t[0] {
        SubsequenceSkip(a[1..], t[0], t[1..]);
        assert [t[0]] + t[1..] == t;
      } else {
        SubsequenceSkip(a, x, t[1..]);
        assert ([x] + t[1..])[1..] == t[1..];
        SubsequenceSkip(a[1..], t[0], t[1..]);
        assert [t[0]] + t[1..] == t;
      }
    }
  }

  /** A non-empty sequence is its front followed by its last element. */
  lemma SplitLast<T>(s: seq<T>)
    requires |s| > 0
    ensures s == s[..|s| - 1] + [s[|s| - 1]]
  {
  }
}
