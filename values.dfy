/** Python values as far as the overflow rules of an addendum field can tell them
    apart: a value has a length or not, and it can be sliced or not. */
module Values {

  datatype Option<+T> = None | Some(value: T)

  /** A value read from the interview's variable store. */
  datatype Value<T> =
    | Text(s: string)          // a `str`
    | Items(xs: seq<T>)        // a list, or a list-like object whose slices are lists
    | Unsliceable(size: nat)   // has a length but raises on slicing (a dict, a set)
    | Unsized                  // has no length at all (a number, None, a plain object)

  /** The string `""`, which the field returns whenever it has nothing to give. */
  function EmptyText<T>(): Value<T> {
    Text("")
  }

  /** `len(v)`, or None when `len` raises. */
  function Len<T>(v: Value<T>): (n: Option<nat>)
    ensures n.Some? <==> !v.Unsized?
  {
    match v
    case Text(s) => Some(|s|)
    case Items(xs) => Some(|xs|)
    case Unsliceable(size) => Some(size)
    case Unsized => None
  }

  predicate Sliceable<T>(v: Value<T>) {
    v.Text? || v.Items?
  }

  /** Where Python cuts a sequence of length `n` for the slice bound `k`:
      a negative bound counts from the end, and the result is clamped to [0, n]. */
  function SliceBound(n: nat, k: int): (i: nat)
    ensures i <= n
  {
    if k < 0 then (if n + k < 0 then 0 else n + k)
    else if k < n then k
    else n
  }

  /** `v[:k]`, or None when slicing raises. */
  function Take<T>(v: Value<T>, k: int): (r: Option<Value<T>>)
    ensures r.Some? <==> Sliceable(v)
    ensures r.Some? ==> Len(r.value) == Some(SliceBound(Len(v).value, k))
  {
    match v
    case Text(s) => Some(Text(s[..SliceBound(|s|, k)]))
    case Items(xs) => Some(Items(xs[..SliceBound(|xs|, k)]))
    case _ => None
  }

  /** `v[k:]`, or None when slicing raises. */
  function Drop<T>(v: Value<T>, k: int): (r: Option<Value<T>>)
    ensures r.Some? <==> Sliceable(v)
    ensures r.Some? ==> Len(r.value) == Some(Len(v).value - SliceBound(Len(v).value, k))
  {
    match v
    case Text(s) => Some(Text(s[SliceBound(|s|, k)..]))
    case Items(xs) => Some(Items(xs[SliceBound(|xs|, k)..]))
    case _ => None
  }

  /** `a + b`: strings and lists concatenate with their own kind; any other
      combination (a list plus a string, say) raises. */
  function Concat<T>(a: Value<T>, b: Value<T>): Option<Value<T>> {
    match (a, b)
    case (Text(s), Text(t)) => Some(Text(s + t))
    case (Items(xs), Items(ys)) => Some(Items(xs + ys))
    case _ => None
  }

  /** Slicing at one bound and gluing the halves back gives the value again. */
  lemma TakeDropConcat<T>(v: Value<T>, k: int)
    requires Sliceable(v)
    ensures Concat(Take(v, k).value, Drop(v, k).value) == Some(v)
  {
    match v
    case Text(s) =>
      assert s[..SliceBound(|s|, k)] + s[SliceBound(|s|, k)..] == s;
    case Items(xs) =>
      assert xs[..SliceBound(|xs|, k)] + xs[SliceBound(|xs|, k)..] == xs;
  }
}
