/** Failure-carrying wrappers used across the model: `Option` for lookups and
    numeric parses that may fail, `Result` for operations with an error channel
    (Rust's `Option<T>` and `Result<T, E>`). */
module Results {

  datatype Option<+T> = None | Some(value: T)

  datatype Result<+T, +E> = Ok(value: T) | Err(error: E)

  /** Every step of a sequence of fallible steps succeeded. */
  predicate AllOk<T, E>(rs: seq<Result<T, E>>) {
    forall i :: 0 <= i < |rs| ==> rs[i].Ok?
  }

  /** `e` is the error of the first step that failed: every step before it
      succeeded. */
  ghost predicate FirstError<T, E>(rs: seq<Result<T, E>>, e: E) {
    exists i :: 0 <= i < |rs| && rs[i] == Err(e) && forall j :: 0 <= j < i ==> rs[j].Ok?
  }

  lemma AllOkCons<T, E>(x: Result<T, E>, rs: seq<Result<T, E>>)
    ensures AllOk([x] + rs) <==> x.Ok? && AllOk(rs)
  {
    if x.Ok? && AllOk(rs) {
      forall i | 0 <= i < |[x] + rs| ensures ([x] + rs)[i].Ok? {
        if i > 0 { assert ([x] + rs)[i] == rs[i - 1]; }
      }
    }
    if AllOk([x] + rs) {
      assert ([x] + rs)[0] == x;
      forall i | 0 <= i < |rs| ensures rs[i].Ok? {
        assert rs[i] == ([x] + rs)[i + 1];
      }
    }
  }

  /** A failing first step is the first error, whatever follows it. */
  lemma FirstErrorHead<T, E>(e: E, rs: seq<Result<T, E>>)
    ensures FirstError([Err(e)] + rs, e)
  {
    assert ([Err(e)] + rs)[0] == Err(e);
  }

  /** A successful first step keeps the first error of what follows. */
  lemma FirstErrorTail<T, E>(x: Result<T, E>, rs: seq<Result<T, E>>, e: E)
    requires x.Ok? && FirstError(rs, e)
    ensures FirstError([x] + rs, e)
  {
    var i :| 0 <= i < |rs| && rs[i] == Err(e) && forall j :: 0 <= j < i ==> rs[j].Ok?;
    var xs := [x] + rs;
    assert xs[i + 1] == Err(e);
    forall j | 0 <= j < i + 1 ensures xs[j].Ok? {
      if j > 0 { assert xs[j] == rs[j - 1]; }
    }
  }
}
