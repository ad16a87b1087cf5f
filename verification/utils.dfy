/** Small helpers shared by the other modules (utils.py, and Python's `str.join`). */
module Utils {

  /** `first(iterable, default)`: the first element, or `default` when there is none. */
  function First<T>(xs: seq<T>, default: T): (r: T)
    ensures |xs| > 0 ==> r == xs[0]
    ensures |xs| == 0 ==> r == default
  {
    if |xs| > 0 then xs[0] else default
  }

  /** `extend(s, var, val)`: a new model equal to `s` except that `key` is bound to `val`.
      Dafny maps are values, so the argument `s` is never changed. */
  function Extend<K, V>(s: map<K, V>, key: K, val: V): (r: map<K, V>)
    ensures key in r && r[key] == val
    ensures forall k | k in s && k != key :: k in r && r[k] == s[k]
    ensures r.Keys == s.Keys + {key}
  {
    s[key := val]
  }

  /** `sep.join(parts)`. */
  function Join(sep: string, parts: seq<string>): string
  {
    if |parts| == 0 then ""
    else if |parts| == 1 then parts[0]
    else parts[0] + sep + Join(sep, parts[1..])
  }

  /** Appending one part to a non-empty join adds one separator and the part. */
  lemma {:induction false} JoinSnoc(sep: string, parts: seq<string>, last: string)
    requires |parts| > 0
    ensures Join(sep, parts + [last]) == Join(sep, parts) + sep + last
  {
    if |parts| == 1 {
      assert parts + [last] == [parts[0], last];
    } else {
      assert (parts + [last])[1..] == parts[1..] + [last];
      JoinSnoc(sep, parts[1..], last);
    }
  }

  /** Sequences without repeated elements. */
  predicate NoDuplicates<T(==)>(xs: seq<T>)
  {
    forall i, j | 0 <= i < j < |xs| :: xs[i] != xs[j]
  }

  /** The elements of a sequence, as a set. */
  function Elements<T>(xs: seq<T>): set<T>
  {
    set x | x in xs
  }

  /** The last element of a non-empty sequence. */
  function Last<T>(xs: seq<T>): T
    requires |xs| > 0
  {
    xs[|xs| - 1]
  }

  /** Adding one element outside `b` to `b` removes exactly that element from `a - b`:
      the measure the agenda loops decrease. */
  lemma CardRemove<T>(a: set<T>, b: set<T>, p: T)
    requires p !in b
    ensures p in a ==> |a - (b + {p})| == |a - b| - 1
    ensures p !in a ==> a - (b + {p}) == a - b
  {
    if p in a {
      assert a - b == (a - (b + {p})) + {p};
    }
  }

  /** A relation that holds between `h` and `xs[0]` and pointwise between `t` and the
      rest of `xs` holds pointwise between `[h] + t` and `xs`. */
  lemma PointwiseCons<A, B>(xs: seq<A>, h: B, t: seq<B>, rel: (B, A) -> bool)
    requires |xs| > 0 && |t| == |xs| - 1
    requires rel(h, xs[0])
    requires forall i | 0 <= i < |t| :: rel(t[i], xs[1..][i])
    ensures forall i | 0 <= i < |xs| :: rel(([h] + t)[i], xs[i])
  {
    forall i | 1 <= i < |xs| ensures rel(([h] + t)[i], xs[i]) {
      assert ([h] + t)[i] == t[i - 1] && xs[i] == xs[1..][i - 1];
    }
  }
}
