/** `ALAddendumFieldDict`: an ordered dictionary from variable names to addendum
    fields. Its order is the order in which fields are listed on the addendum. */
module AddendumFieldDict {
  import opened Values
  import opened AddendumField

  /** One `{field_name, overflow_trigger}` record given to `from_list`. */
  datatype FieldSpec = FieldSpec(fieldName: string, overflowTrigger: int)

  /** The style under which `defined_fields` keeps only fields with overflow. */
  const OverflowOnly: string := "overflow_only"

  predicate Distinct<X(==)>(s: seq<X>) {
    forall i, j :: 0 <= i < j < |s| ==> s[i] != s[j]
  }

  /** The field names of the records, in the order given. */
  function Names(data: seq<FieldSpec>): (ns: seq<string>)
    ensures |ns| == |data|
  {
    seq(|data|, i requires 0 <= i < |data| => data[i].fieldName)
  }

  /** The field one record creates: it carries the record's name and trigger. */
  function FieldOf(entry: FieldSpec): Field {
    Field(entry.fieldName, entry.overflowTrigger)
  }

  /** The key order of the dictionary after the records are inserted one by one:
      a new name goes at the end, a name already present keeps its place. */
  function KeysAfter(keys: seq<string>, data: seq<FieldSpec>): seq<string>
    decreases |data|
  {
    if data == [] then keys
    else
      var prev := KeysAfter(keys, data[..|data| - 1]);
      var name := data[|data| - 1].fieldName;
      if name in prev then prev else prev + [name]
  }

  /** The dictionary's entries after the records are inserted one by one: each
      insertion replaces whatever field was under that name. */
  function FieldsAfter(fields: map<string, Field>, data: seq<FieldSpec>): map<string, Field>
    decreases |data|
  {
    if data == [] then fields
    else
      var last := data[|data| - 1];
      FieldsAfter(fields, data[..|data| - 1])[last.fieldName := FieldOf(last)]
  }

  /** Index of the first occurrence of `x` in `s`. */
  function FirstIndex(s: seq<string>, x: string): (i: nat)
    requires x in s
    ensures i < |s| && s[i] == x && x !in s[..i]
  {
    if s[0] == x then 0 else 1 + FirstIndex(s[1..], x)
  }

  lemma {:induction false} FirstIndexOfPrefix(s: seq<string>, y: string, x: string)
    requires x in s
    ensures FirstIndex(s + [y], x) == FirstIndex(s, x)
  {
    if s[0] != x {
      assert (s + [y])[1..] == s[1..] + [y];
      FirstIndexOfPrefix(s[1..], y, x);
    }
  }

  lemma {:induction false} FirstIndexOfNew(s: seq<string>, x: string)
    requires x !in s
    ensures FirstIndex(s + [x], x) == |s|
  {
    if s != [] {
      assert (s + [x])[1..] == s[1..] + [x];
      FirstIndexOfNew(s[1..], x);
    }
  }

  /** Inserting records keeps the old keys as a prefix, adds exactly the names
      that were not there yet, and never repeats a key. */
  lemma {:induction false} KeysAfterContents(keys: seq<string>, data: seq<FieldSpec>)
    ensures keys <= KeysAfter(keys, data)
    ensures forall k :: k in KeysAfter(keys, data) <==> k in keys || k in Names(data)
    ensures forall p :: |keys| <= p < |KeysAfter(keys, data)| ==>
      KeysAfter(keys, data)[p] in Names(data) && KeysAfter(keys, data)[p] !in keys
    ensures Distinct(keys) ==> Distinct(KeysAfter(keys, data))
    decreases |data|
  {
    if data != [] {
      var init := data[..|data| - 1];
      KeysAfterContents(keys, init);
      assert Names(data) == Names(init) + [data[|data| - 1].fieldName];
    }
  }

  /** The new keys appear in the order in which their names first occur in the records. */
  lemma {:induction false} KeysInFirstAppearanceOrder(keys: seq<string>, data: seq<FieldSpec>)
    ensures forall p :: |keys| <= p < |KeysAfter(keys, data)| ==> KeysAfter(keys, data)[p] in Names(data)
    ensures forall p, q :: |keys| <= p < q < |KeysAfter(keys, data)| ==>
      FirstIndex(Names(data), KeysAfter(keys, data)[p]) < FirstIndex(Names(data), KeysAfter(keys, data)[q])
    decreases |data|
  {
    KeysAfterContents(keys, data);
    if data != [] {
      var init := data[..|data| - 1];
      var name := data[|data| - 1].fieldName;
      var prev := KeysAfter(keys, init);
      var r := KeysAfter(keys, data);
      KeysInFirstAppearanceOrder(keys, init);
      KeysAfterContents(keys, init);
      assert Names(data) == Names(init) + [name];
      forall p | |keys| <= p < |prev|
        ensures FirstIndex(Names(data), prev[p]) == FirstIndex(Names(init), prev[p])
      {
        FirstIndexOfPrefix(Names(init), name, prev[p]);
      }
      if name !in prev {
        FirstIndexOfNew(Names(init), name);
        assert r == prev + [name];
      }
    }
  }

  /** Inserting records adds exactly the names of the records, leaves every
      other entry alone, and stores each field under its own name. */
  lemma {:induction false} FieldsAfterDomain(fields: map<string, Field>, data: seq<FieldSpec>)
    ensures FieldsAfter(fields, data).Keys == fields.Keys + set k | k in Names(data)
    ensures forall k :: k in fields && k !in Names(data) ==> FieldsAfter(fields, data)[k] == fields[k]
    ensures (forall k :: k in fields ==> fields[k].fieldName == k) ==>
      forall k :: k in FieldsAfter(fields, data) ==> FieldsAfter(fields, data)[k].fieldName == k
    decreases |data|
  {
    if data != [] {
      var init := data[..|data| - 1];
      FieldsAfterDomain(fields, init);
      assert Names(data) == Names(init) + [data[|data| - 1].fieldName];
    }
  }

  /** When a name is given several times, the field under it is that of its
      LAST record. */
  lemma {:induction false} FieldsAfterLastWins(fields: map<string, Field>, data: seq<FieldSpec>, i: nat)
    requires i < |data|
    requires forall j :: i < j < |data| ==> data[j].fieldName != data[i].fieldName
    ensures data[i].fieldName in FieldsAfter(fields, data)
    ensures FieldsAfter(fields, data)[data[i].fieldName] == FieldOf(data[i])
    decreases |data|
  {
    if i < |data| - 1 {
      var init := data[..|data| - 1];
      assert init[i] == data[i];
      forall j | i < j < |init| ensures init[j].fieldName != init[i].fieldName {
        assert init[j] == data[j];
      }
      FieldsAfterLastWins(fields, init, i);
    }
  }

  /** The fields under `keys`, in key order. */
  function FieldsInOrder(keys: seq<string>, fields: map<string, Field>): (es: seq<Field>)
    requires forall k :: k in keys ==> k in fields
    ensures |es| == |keys|
  {
    seq(|keys|, i requires 0 <= i < |keys| => fields[keys[i]])
  }

  /** `a` can be obtained from `b` by deleting elements, order kept. */
  ghost predicate IsSubsequence(a: seq<Field>, b: seq<Field>)
    decreases |b|
  {
    a == [] ||
    (b != [] && ((a[0] == b[0] && IsSubsequence(a[1..], b[1..])) || IsSubsequence(a, b[1..])))
  }

  /** A field passes the filter of `defined_fields` under `style`. */
  predicate Selected<T>(f: Field, env: map<string, Value<T>>, style: string) {
    Defined(env, f.fieldName) && (style == OverflowOnly ==> OverflowLen(f, env) > 0)
  }

  /** The list comprehension of `defined_fields` over the dictionary's fields:
      the defined ones and, in the style "overflow_only", only those whose
      overflow is not empty. */
  function SelectFields<T>(elems: seq<Field>, env: map<string, Value<T>>, style: string): (r: seq<Field>)
    ensures forall f :: f in r <==> f in elems && Selected(f, env, style)
    ensures Distinct(elems) ==> Distinct(r)
  {
    if elems == [] then []
    else if Selected(elems[0], env, style) then [elems[0]] + SelectFields(elems[1..], env, style)
    else SelectFields(elems[1..], env, style)
  }

  /** The selection keeps the dictionary's order. */
  lemma {:induction false} SelectionKeepsOrder<T>(elems: seq<Field>, env: map<string, Value<T>>, style: string)
    ensures IsSubsequence(SelectFields(elems, env, style), elems)
  {
    if elems != [] {
      SelectionKeepsOrder(elems[1..], env, style);
      var r := SelectFields(elems, env, style);
      if !Selected(elems[0], env, style) && r != [] {
        assert IsSubsequence(r, elems[1..]);
      }
    }
  }

  /** The "overflow_only" selection is the selection of any other style with the
      fields that do not overflow deleted. */
  lemma {:induction false} OverflowOnlyWithinDefined<T>(elems: seq<Field>, env: map<string, Value<T>>, style: string)
    requires style != OverflowOnly
    ensures IsSubsequence(SelectFields(elems, env, OverflowOnly), SelectFields(elems, env, style))
  {
    if elems != [] {
      OverflowOnlyWithinDefined(elems[1..], env, style);
      var a := SelectFields(elems, env, OverflowOnly);
      var b := SelectFields(elems, env, style);
      if Selected(elems[0], env, style) && !Selected(elems[0], env, OverflowOnly) && a != [] {
        assert b[1..] == SelectFields(elems[1..], env, style);
      } else if Selected(elems[0], env, OverflowOnly) {
        assert a[1..] == SelectFields(elems[1..], env, OverflowOnly);
        assert b[1..] == SelectFields(elems[1..], env, style);
      }
    }
  }

  class FieldRegistry {
    /** The dictionary's keys in insertion order. */
    var keys: seq<string>
    /** The dictionary's entries. */
    var fields: map<string, Field>

    /** Keys are unique, they are exactly the entries, and every field is
        stored under its own variable name. */
    ghost predicate Valid()
      reads this
    {
      Distinct(keys) &&
      (forall k :: k in keys <==> k in fields) &&
      (forall k :: k in fields ==> fields[k].fieldName == k)
    }

    constructor ()
      ensures Valid() && keys == [] && fields == map[]
    {
      keys := [];
      fields := map[];
    }

    /** `elements.values()`: the fields in dictionary order. */
    function Elements(): (es: seq<Field>)
      reads this
      requires Valid()
      ensures Distinct(es)
      ensures |es| == |keys| && forall i :: 0 <= i < |keys| ==> es[i].fieldName == keys[i]
    {
      FieldsInOrder(keys, fields)
    }

    /** `from_list`: create one field per record, under the record's name,
        carrying the record's name and trigger. */
    method FromList(data: seq<FieldSpec>)
      requires Valid()
      modifies this
      ensures Valid()
      ensures keys == KeysAfter(old(keys), data)
      ensures fields == FieldsAfter(old(fields), data)
    {
      var i := 0;
      while i < |data|
        invariant 0 <= i <= |data|
        invariant keys == KeysAfter(old(keys), data[..i])
        invariant fields == FieldsAfter(old(fields), data[..i])
      {
        var entry := data[i];
        assert data[..i + 1][..i] == data[..i];
        if entry.fieldName !in keys {
          keys := keys + [entry.fieldName];
        }
        fields := fields[entry.fieldName := FieldOf(entry)];
        i := i + 1;
      }
      assert data[..|data|] == data;
      KeysAfterContents(old(keys), data);
      FieldsAfterDomain(old(fields), data);
    }

    /** `defined_fields(style)`: in dictionary order and without repetition,
        exactly the fields whose variable is defined and, for "overflow_only",
        whose overflow is not empty. */
    function DefinedFields<T>(env: map<string, Value<T>>, style: string): (r: seq<Field>)
      reads this
      requires Valid()
      ensures Distinct(r)
      ensures forall f :: f in r <==> f in Elements() && Selected(f, env, style)
    {
      SelectFields(Elements(), env, style)
    }
  }
}
