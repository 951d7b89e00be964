/** Small shared vocabulary: an optional value, Python-style string predicates
    and concatenation of a sequence of strings (what a generator's frames add
    up to on the wire). */
module Base {

  /** Python's `None`-or-value, and the outcome of a lookup that may miss. */
  datatype Option<+T> = None | Some(value: T)

  /** Either a value or the exception raised instead: its message, or its
      class name (`AttributeError`, `TypeError`) where the code's behaviour
      depends on the class only. */
  datatype Result<+T> = Ok(value: T) | Raised(message: string)

  /** A character that ends a line in an event stream (CR or LF). */
  predicate IsLineBreak(c: char) {
    c == '\n' || c == '\r'
  }

  /** Python truthiness of an optional string: `None` and `""` are false. */
  predicate HasText(s: Option<string>) {
    s.Some? && s.value != ""
  }

  /** A string that fits on one line of an event stream. */
  predicate OneLine(s: string) {
    forall i | 0 <= i < |s| :: !IsLineBreak(s[i])
  }

  predicate StartsWith(s: string, prefix: string) {
    |prefix| <= |s| && s[..|prefix|] == prefix
  }

  predicate EndsWith(s: string, suffix: string) {
    |suffix| <= |s| && s[|s| - |suffix|..] == suffix
  }

  /** All strings of `parts`, one after the other. */
  function Concat(parts: seq<string>): string {
    if parts == [] then "" else parts[0] + Concat(parts[1..])
  }

  /** Python's `sep.join(parts)`. */
  function Join(parts: seq<string>, sep: string): string {
    if parts == [] then ""
    else if |parts| == 1 then parts[0]
    else parts[0] + sep + Join(parts[1..], sep)
  }

  /** `[f(x) for x in xs]`. */
  function Map<A, B>(f: A -> B, xs: seq<A>): (r: seq<B>)
    ensures |r| == |xs|
    ensures forall i | 0 <= i < |xs| :: r[i] == f(xs[i])
  {
    seq(|xs|, i requires 0 <= i < |xs| => f(xs[i]))
  }

  /** The sequences of `xss`, one after the other. */
  function Flatten<T>(xss: seq<seq<T>>): seq<T> {
    if xss == [] then [] else xss[0] + Flatten(xss[1..])
  }

  /** A join starts with its first part. */
  lemma JoinStartsWith(parts: seq<string>, sep: string)
    requires parts != []
    ensures StartsWith(Join(parts, sep), parts[0])
  {
    if |parts| > 1 {
      var j := Join(parts, sep);
      assert j == parts[0] + (sep + Join(parts[1..], sep));
    }
  }

  /** Number of positions of `xs` that hold `x`. */
  function Count<T(==)>(xs: seq<T>, x: T): nat {
    if xs == [] then 0 else (if xs[0] == x then 1 else 0) + Count(xs[1..], x)
  }

  lemma AppendAssoc<T>(p: seq<T>, q: seq<T>, r: seq<T>)
    ensures p + (q + r) == (p + q) + r
  {
  }

  lemma {:induction false} ConcatAppend(a: seq<string>, b: seq<string>)
    ensures Concat(a + b) == Concat(a) + Concat(b)
  {
    if a == [] {
      assert a + b == b;
    } else {
      assert (a + b)[1..] == a[1..] + b;
      ConcatAppend(a[1..], b);
    }
  }

  lemma {:induction false} CountAppend<T>(a: seq<T>, b: seq<T>, x: T)
    ensures Count(a + b, x) == Count(a, x) + Count(b, x)
  {
    if a == [] {
      assert a + b == b;
    } else {
      assert (a + b)[1..] == a[1..] + b;
      CountAppend(a[1..], b, x);
    }
  }

  /** A value absent from a sequence is counted zero times. */
  lemma {:induction false} CountAbsent<T>(xs: seq<T>, x: T)
    requires forall i | 0 <= i < |xs| :: xs[i] != x
    ensures Count(xs, x) == 0
  {
    if xs != [] {
      CountAbsent(xs[1..], x);
    }
  }

  /** A value that sits only at the last position is counted once. */
  lemma CountOnlyLast<T>(xs: seq<T>, x: T)
    requires |xs| > 0 && xs[|xs| - 1] == x
    requires forall i | 0 <= i < |xs| - 1 :: xs[i] != x
    ensures Count(xs, x) == 1
  {
    var n := |xs|;
    assert xs == xs[..n - 1] + [x];
    CountAbsent(xs[..n - 1], x);
    CountAppend(xs[..n - 1], [x], x);
  }

  lemma OneLineAppend(a: string, b: string)
    requires OneLine(a) && OneLine(b)
    ensures OneLine(a + b)
  {
    forall i | 0 <= i < |a + b|
      ensures !IsLineBreak((a + b)[i])
    {
      if i < |a| {
        assert (a + b)[i] == a[i];
      } else {
        assert (a + b)[i] == b[i - |a|];
      }
    }
  }

  lemma {:induction false} JoinOneLine(parts: seq<string>, sep: string)
    requires OneLine(sep)
    requires forall i | 0 <= i < |parts| :: OneLine(parts[i])
    ensures OneLine(Join(parts, sep))
  {
    if |parts| > 1 {
      JoinOneLine(parts[1..], sep);
      OneLineAppend(parts[0], sep);
      OneLineAppend(parts[0] + sep, Join(parts[1..], sep));
    }
  }
}
