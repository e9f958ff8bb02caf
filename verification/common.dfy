/** Shared vocabulary: the error-carrying result type, the byte subtype, and
    the few Python list operations the modelled code relies on. */
module Common {

  /** Outcome of an operation of the modelled Python code that can raise. */
  datatype Result<+T> = Ok(value: T) | Err(error: Error)

  /** The Python exceptions the modelled code can raise. */
  datatype Error =
    | KeyError             // dictionary lookup of a missing key
    | IndexError           // sequence index past the end
    | MissingCallbackArgs  // an alert callback called with no arguments

  /** A value that may be absent (Python's `None`). */
  datatype Option<+T> = None | Some(value: T)

  /** An element of a Python `bytes` object. */
  type Byte = x: int | 0 <= x < 256

  /** Number of occurrences of `x` in `s` (Python's `list.count`). */
  function Count<T(==)>(s: seq<T>, x: T): nat
    decreases |s|
  {
    if s == [] then 0
    else Count(s[..|s| - 1], x) + (if s[|s| - 1] == x then 1 else 0)
  }

  lemma CountAppend<T>(s: seq<T>, x: T, y: T)
    ensures Count(s + [x], y) == Count(s, y) + (if x == y then 1 else 0)
  {
    assert (s + [x])[..|s|] == s;
  }

  lemma {:induction false} CountConcat<T>(a: seq<T>, b: seq<T>, y: T)
    ensures Count(a + b, y) == Count(a, y) + Count(b, y)
    decreases |b|
  {
    if b == [] {
      assert a + b == a;
    } else {
      var b' := b[..|b| - 1];
      CountConcat(a, b', y);
      assert (a + b)[..|a + b| - 1] == a + b';
    }
  }

  lemma {:induction false} CountZeroIffAbsent<T>(s: seq<T>, y: T)
    ensures Count(s, y) == 0 <==> y !in s
    decreases |s|
  {
    if s != [] {
      CountZeroIffAbsent(s[..|s| - 1], y);
      assert s == s[..|s| - 1] + [s[|s| - 1]];
    }
  }

  /** Python's `list.index(x)`: position of the first occurrence of `x`. */
  function IndexOf<T(==)>(s: seq<T>, x: T): (i: nat)
    requires x in s
    ensures i < |s| && s[i] == x
    ensures x !in s[..i]
  {
    if s[0] == x then 0
    else
      assert x in s[1..];
      var j := IndexOf(s[1..], x);
      assert s[..j + 1] == [s[0]] + s[1..][..j];
      j + 1
  }

  /** Python's `list.remove(x)` on a list known to contain `x`: the FIRST
      occurrence goes, everything before it and after it keeps its order. */
  function RemoveFirst<T(==)>(s: seq<T>, x: T): (r: seq<T>)
    requires x in s
    ensures |r| == |s| - 1
    ensures r[..IndexOf(s, x)] == s[..IndexOf(s, x)]
    ensures r[IndexOf(s, x)..] == s[IndexOf(s, x) + 1..]
    ensures multiset(r) == multiset(s) - multiset{x}
  {
    var i := IndexOf(s, x);
    assert s == s[..i] + [x] + s[i + 1..];
    s[..i] + s[i + 1..]
  }

  /** `if x in s: s.remove(x)`, the guarded form the modelled code uses. */
  function RemoveIfPresent<T(==)>(s: seq<T>, x: T): seq<T> {
    if x in s then RemoveFirst(s, x) else s
  }

  /** `if x in s: s.remove(x)` removes one occurrence of `x` when there is one. */
  lemma CountRemove<T>(s: seq<T>, x: T, y: T)
    ensures Count(RemoveIfPresent(s, x), y) ==
              if x == y && Count(s, y) > 0 then Count(s, y) - 1 else Count(s, y)
  {
    CountZeroIffAbsent(s, x);
    if x in s {
      var i := IndexOf(s, x);
      assert s == s[..i] + [x] + s[i + 1..];
      CountConcat(s[..i] + [x], s[i + 1..], y);
      CountAppend(s[..i], x, y);
      CountConcat(s[..i], s[i + 1..], y);
    }
  }
}
