/** Small value types shared by the client and the server model. */
module Common {

  /** A value that may be missing (a JavaScript `undefined`, a Go "not found"). */
  datatype Option<+T> = None | Some(value: T) {
    function GetOr(default: T): T {
      if Some? then value else default
    }
  }

  /** A Go `(value, error)` pair where exactly one side is meaningful. */
  datatype Result<+T, +E> = Ok(value: T) | Err(error: E)

  /** The concatenation of a list of strings, in order (a `strings.Builder`
      fed piece by piece, or chunks read from a stream one after another). */
  function Concat(pieces: seq<string>): string
    decreases |pieces|
  {
    if pieces == [] then "" else Concat(pieces[..|pieces| - 1]) + pieces[|pieces| - 1]
  }

  lemma AppendAssoc<T>(a: seq<T>, b: seq<T>, c: seq<T>)
    ensures a + (b + c) == (a + b) + c
  {
  }

  /** Dropping the last element of a concatenation with a non-empty tail. */
  lemma DropLastAppend<T>(a: seq<T>, b: seq<T>)
    requires b != []
    ensures (a + b)[..|a + b| - 1] == a + b[..|b| - 1]
    ensures (a + b)[|a + b| - 1] == b[|b| - 1]
  {
  }

  /** Dropping the last element after putting one in front. */
  lemma ConsDropLast<T>(x: T, r: seq<T>)
    requires r != []
    ensures ([x] + r)[..|r|] == [x] + r[..|r| - 1]
    ensures ([x] + r)[|r|] == r[|r| - 1]
  {
  }

  /** Replacing the head of a sequence of at least two elements, whose last
      element is then replaced by `tail`. */
  lemma ReplaceHead<T>(a: T, r: seq<T>, tail: seq<T>)
    requires |r| > 1
    ensures var q := r[..|r| - 1] + tail; var p := [a] + r[1..];
      && q[0] == r[0]
      && [a] + q[1..] == p[..|p| - 1] + tail
      && p[|p| - 1] == r[|r| - 1]
  {
    var q := r[..|r| - 1] + tail;
    var p := [a] + r[1..];
    assert q[1..] == r[1..|r| - 1] + tail;
    assert p[..|p| - 1] == [a] + r[1..|r| - 1];
  }

  lemma {:induction false} ConcatAppend(a: seq<string>, b: seq<string>)
    ensures Concat(a + b) == Concat(a) + Concat(b)
    decreases |b|
  {
    if b == [] {
      assert a + b == a;
    } else {
      DropLastAppend(a, b);
      ConcatAppend(a, b[..|b| - 1]);
      AppendAssoc(Concat(a), Concat(b[..|b| - 1]), b[|b| - 1]);
    }
  }
}
