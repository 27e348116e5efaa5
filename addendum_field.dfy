/** An addendum field: a variable of the interview together with the number of
    characters (or list items) that fit in its slot on the printed form. What
    does not fit is the field's overflow and goes to the addendum. */
module AddendumField {
  import opened Values

  /** `ALAddendumField`: the variable name and the overflow trigger. The field
      stores no value of its own; it reads the variable every time. */
  datatype Field = Field(fieldName: string, overflowTrigger: int)

  /** The interview's variable store: a name is defined exactly when it is a key. */
  predicate Defined<T>(env: map<string, Value<T>>, name: string) {
    name in env
  }

  /** `value_if_defined`: the variable's value, or `""` when it is undefined. */
  function ValueIfDefined<T>(f: Field, env: map<string, Value<T>>): (v: Value<T>)
    ensures Defined(env, f.fieldName) ==> v == env[f.fieldName]
    ensures !Defined(env, f.fieldName) ==> v == EmptyText()
  {
    if Defined(env, f.fieldName) then env[f.fieldName] else EmptyText()
  }

  /** The value is longer than the trigger (false when it has no length). */
  predicate Overflows<T>(f: Field, env: map<string, Value<T>>) {
    var n := Len(ValueIfDefined(f, env));
    n.Some? && n.value > f.overflowTrigger
  }

  /** `safe_value`: the part of the value that fits. A value that does not
      overflow is returned whole; one that overflows is cut to its first
      `overflow_trigger` elements; a failure (no length, no slicing) gives `""`. */
  function SafeValue<T>(f: Field, env: map<string, Value<T>>): (r: Value<T>)
    ensures Len(r).Some?
    ensures 0 <= f.overflowTrigger ==> Len(r).value <= f.overflowTrigger
    ensures !Overflows(f, env) && !ValueIfDefined(f, env).Unsized? ==> r == ValueIfDefined(f, env)
    ensures Overflows(f, env) && Sliceable(ValueIfDefined(f, env)) ==>
      r.Text? == ValueIfDefined(f, env).Text? && IsPrefix(r, ValueIfDefined(f, env))
  {
    var v := ValueIfDefined(f, env);
    match Len(v)
    case None => EmptyText()
    case Some(n) =>
      if n > f.overflowTrigger then
        match Take(v, f.overflowTrigger)
        case None => EmptyText()
        case Some(prefix) => prefix
      else v
  }

  /** `overflow_value`: the part of the value that does not fit. It is the rest
      after the first `overflow_trigger` elements when the value overflows, and
      `""` otherwise (also for a list that fits) or on a failure. */
  function OverflowValue<T>(f: Field, env: map<string, Value<T>>): (r: Value<T>)
    ensures Sliceable(r)
    ensures !Overflows(f, env) ==> r == EmptyText()
    ensures Overflows(f, env) && Sliceable(ValueIfDefined(f, env)) && 0 <= f.overflowTrigger ==>
      Len(r).value == Len(ValueIfDefined(f, env)).value - f.overflowTrigger
  {
    var v := ValueIfDefined(f, env);
    match Len(v)
    case None => EmptyText()
    case Some(n) =>
      if n > f.overflowTrigger then
        match Drop(v, f.overflowTrigger)
        case None => EmptyText()
        case Some(suffix) => suffix
      else EmptyText()
  }

  /** `a` is a prefix of `b`, both of the same kind. */
  ghost predicate IsPrefix<T>(a: Value<T>, b: Value<T>) {
    match (a, b)
    case (Text(s), Text(t)) => s <= t
    case (Items(xs), Items(ys)) => xs <= ys
    case _ => false
  }

  /** The overflow has a length: the filter of `defined_fields` can always take it. */
  function OverflowLen<T>(f: Field, env: map<string, Value<T>>): nat {
    Len(OverflowValue(f, env)).value
  }

  /** For a string or list that overflows, the safe part followed by the overflow
      is the whole value, with nothing lost or repeated; a non-negative trigger
      puts exactly `overflow_trigger` elements in the safe part. */
  lemma SafeThenOverflowIsValue<T>(f: Field, env: map<string, Value<T>>)
    requires Sliceable(ValueIfDefined(f, env))
    requires Overflows(f, env)
    ensures Concat(SafeValue(f, env), OverflowValue(f, env)) == Some(ValueIfDefined(f, env))
    ensures Len(SafeValue(f, env)) == Some(SliceBound(Len(ValueIfDefined(f, env)).value, f.overflowTrigger))
    ensures 0 <= f.overflowTrigger ==> Len(SafeValue(f, env)) == Some(f.overflowTrigger)
  {
    TakeDropConcat(ValueIfDefined(f, env), f.overflowTrigger);
  }

  /** A value whose length is at most the trigger (the boundary `len == trigger`
      included) is safe as a whole and has the empty string as its overflow. */
  lemma FittingValueIsSafe<T>(f: Field, env: map<string, Value<T>>)
    requires Len(ValueIfDefined(f, env)).Some?
    requires Len(ValueIfDefined(f, env)).value <= f.overflowTrigger
    ensures SafeValue(f, env) == ValueIfDefined(f, env)
    ensures OverflowValue(f, env) == EmptyText()
  {
  }

  /** Because a fitting value's overflow is the string `""`, the safe part and
      the overflow of a fitting list cannot be added back together. */
  lemma FittingListDoesNotConcat<T>(f: Field, env: map<string, Value<T>>)
    requires ValueIfDefined(f, env).Items?
    requires |ValueIfDefined(f, env).xs| <= f.overflowTrigger
    ensures Concat(SafeValue(f, env), OverflowValue(f, env)).None?
  {
  }

  /** An undefined variable reads as `""`: nothing is safe and nothing overflows. */
  lemma UndefinedFieldIsEmpty<T>(f: Field, env: map<string, Value<T>>)
    requires !Defined(env, f.fieldName)
    ensures SafeValue(f, env) == EmptyText() && OverflowValue(f, env) == EmptyText()
  {
  }

  /** A value without a length makes `len` raise; both parts fall back to `""`. */
  lemma UnsizedValueIsEmpty<T>(f: Field, env: map<string, Value<T>>)
    requires ValueIfDefined(f, env).Unsized?
    ensures SafeValue(f, env) == EmptyText() && OverflowValue(f, env) == EmptyText()
  {
  }

  /** A value with a length that cannot be sliced is safe whole while it fits,
      and gives `""` for both parts once it overflows (the slice raises). */
  lemma UnsliceableValue<T>(f: Field, env: map<string, Value<T>>)
    requires ValueIfDefined(f, env).Unsliceable?
    ensures OverflowValue(f, env) == EmptyText()
    ensures SafeValue(f, env) ==
      if ValueIfDefined(f, env).size > f.overflowTrigger then EmptyText() else ValueIfDefined(f, env)
  {
  }
}
