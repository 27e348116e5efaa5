/** `ALDocumentBundle`: an ordered list of documents and nested bundles that is
    delivered either as one combined file or as one file per member. */
module DocumentBundle {
  import opened Values
  import opened Document

  /** A member of a bundle: a document or a nested bundle. */
  datatype Member = Doc(doc: Document) | Nested(bundle: Bundle)

  /** A bundle: its output file name, its `enabled` attribute and its members
      in delivery order. */
  datatype Bundle = Bundle(filename: string, enabled: bool, members: seq<Member>)

  /** Python's `extend` of a list under construction, with an exception in
      either part ending the whole computation at the first one raised. */
  function Then(a: Result<seq<Attachment>>, b: Result<seq<Attachment>>): Result<seq<Attachment>> {
    if a.Err? then a
    else if b.Err? then b
    else Ok(a.value + b.value)
  }

  /** What one member adds to its bundle's flat list. A document adds its
      `as_list` when it is enabled and nothing when it is not; a nested bundle
      adds its own flat list, whatever its `enabled` attribute says. */
  function Contribution(m: Member, key: string): Result<seq<Attachment>>
    decreases m, 0
  {
    match m
    case Nested(b) => FlatMembers(b.members, key)
    case Doc(d) => if d.enabled then AsList(d, key) else Ok([])
  }

  /** The flat list of a sequence of members: their contributions, left to right. */
  function FlatMembers(ms: seq<Member>, key: string): Result<seq<Attachment>>
    decreases ms, 1
  {
    if ms == [] then Ok([])
    else
      assert ms[|ms| - 1] in ms;
      Then(FlatMembers(ms[..|ms| - 1], key), Contribution(ms[|ms| - 1], key))
  }

  /** The flat list of a bundle. */
  function FlatList(b: Bundle, key: string): Result<seq<Attachment>> {
    FlatMembers(b.members, key)
  }

  /** Flattening distributes over concatenation of member lists: the members
      of `a` come first, then those of `c`, and an error in `a` wins. */
  lemma {:induction false} FlatMembersAppend(a: seq<Member>, c: seq<Member>, key: string)
    ensures FlatMembers(a + c, key) == Then(FlatMembers(a, key), FlatMembers(c, key))
    decreases |c|
  {
    if c == [] {
      assert a + c == a;
      assert FlatMembers(a, key).Ok? ==> FlatMembers(a, key).value + [] == FlatMembers(a, key).value;
    } else {
      var init := c[..|c| - 1];
      assert (a + c)[..|a + c| - 1] == a + init;
      assert (a + c)[|a + c| - 1] == c[|c| - 1];
      FlatMembersAppend(a, init, key);
      var x, y, z := FlatMembers(a, key), FlatMembers(init, key), Contribution(c[|c| - 1], key);
      assert x.Ok? && y.Ok? && z.Ok? ==> (x.value + y.value) + z.value == x.value + (y.value + z.value);
    }
  }

  /** The flat list of a single member. */
  lemma FlatMembersSingle(m: Member, key: string)
    ensures FlatMembers([m], key) == Contribution(m, key)
  {
    assert [m][..0] == [];
    assert Contribution(m, key).Ok? ==> [] + Contribution(m, key).value == Contribution(m, key).value;
  }

  /** A disabled document contributes nothing: removing it does not change the
      flat list. */
  lemma DisabledDocContributesNothing(a: seq<Member>, d: Document, c: seq<Member>, key: string)
    requires !d.enabled
    ensures FlatMembers(a + [Doc(d)] + c, key) == FlatMembers(a + c, key)
  {
    FlatMembersAppend(a + [Doc(d)], c, key);
    FlatMembersAppend(a, [Doc(d)], key);
    FlatMembersSingle(Doc(d), key);
    FlatMembersAppend(a, c, key);
    assert FlatMembers(a, key).Ok? ==> FlatMembers(a, key).value + [] == FlatMembers(a, key).value;
  }

  /** An enabled document contributes its `as_list`, between the members before
      it and the members after it. */
  lemma EnabledDocContributesAsList(a: seq<Member>, d: Document, c: seq<Member>, key: string)
    requires d.enabled
    ensures FlatMembers(a + [Doc(d)] + c, key) ==
      Then(Then(FlatMembers(a, key), AsList(d, key)), FlatMembers(c, key))
  {
    FlatMembersAppend(a + [Doc(d)], c, key);
    FlatMembersAppend(a, [Doc(d)], key);
    FlatMembersSingle(Doc(d), key);
  }

  /** A nested bundle is spliced in place: its members take its position. Its
      own `enabled` attribute is never consulted. */
  lemma NestedBundleIsSpliced(a: seq<Member>, nb: Bundle, c: seq<Member>, key: string)
    ensures FlatMembers(a + [Nested(nb)] + c, key) == FlatMembers(a + nb.members + c, key)
  {
    FlatMembersAppend(a + [Nested(nb)], c, key);
    FlatMembersAppend(a, [Nested(nb)], key);
    FlatMembersSingle(Nested(nb), key);
    FlatMembersAppend(a + nb.members, c, key);
    FlatMembersAppend(a, nb.members, key);
  }

  /** `as_flat_list(key)`: the loop that extends a list member by member,
      descending into nested bundles. */
  method AsFlatList(b: Bundle, key: string) returns (r: Result<seq<Attachment>>)
    ensures r == FlatList(b, key)
    decreases b
  {
    var flat: seq<Attachment> := [];
    var i := 0;
    while i < |b.members|
      invariant 0 <= i <= |b.members|
      invariant FlatMembers(b.members[..i], key) == Ok(flat)
    {
      var m := b.members[i];
      var part: Result<seq<Attachment>>;
      if m.Nested? {
        part := AsFlatList(m.bundle, key);
      } else if m.doc.enabled {
        part := AsList(m.doc, key);
      } else {
        part := Ok([]);
      }
      assert b.members[..i + 1][..i] == b.members[..i];
      if part.Err? {
        FlatMembersAppend(b.members[..i + 1], b.members[i + 1..], key);
        assert b.members[..i + 1] + b.members[i + 1..] == b.members;
        return part;
      }
      flat := flat + part.value;
      i := i + 1;
    }
    assert b.members[..i] == b.members;
    r := Ok(flat);
  }

  /** The flat list as the code is written: for a nested bundle it calls
      `as_list`, which a bundle does not define, so that member raises. */
  function FlatMembersAsWritten(ms: seq<Member>, key: string): Result<seq<Attachment>>
  {
    if ms == [] then Ok([])
    else
      var last := ms[|ms| - 1];
      var part :=
        match last
        case Nested(_) => Err(NoAsList)
        case Doc(d) => if d.enabled then AsList(d, key) else Ok([]);
      Then(FlatMembersAsWritten(ms[..|ms| - 1], key), part)
  }

  /** As written, any bundle with a nested bundle among its members fails to
      flatten, while the recursive flatten agrees with it on bundles of
      documents only. */
  lemma {:induction false} AsWrittenFailsOnNesting(ms: seq<Member>, key: string)
    ensures (exists i :: 0 <= i < |ms| && ms[i].Nested?) ==> FlatMembersAsWritten(ms, key).Err?
    ensures (forall i :: 0 <= i < |ms| ==> ms[i].Doc?) ==> FlatMembersAsWritten(ms, key) == FlatMembers(ms, key)
  {
    if ms != [] {
      var init := ms[..|ms| - 1];
      AsWrittenFailsOnNesting(init, key);
      if exists i :: 0 <= i < |ms| && ms[i].Nested? {
        var i :| 0 <= i < |ms| && ms[i].Nested?;
        if i < |ms| - 1 {
          assert init[i].Nested?;
        }
      }
      if forall i :: 0 <= i < |ms| ==> ms[i].Doc? {
        assert forall i :: 0 <= i < |init| ==> init[i] == ms[i];
      }
    }
  }

  /** The smallest input that shows it: a bundle holding one empty nested bundle. */
  lemma NestedEmptyBundleCounterexample(key: string)
    ensures FlatMembersAsWritten([Nested(Bundle("inner", true, []))], key) == Err(NoAsList)
    ensures FlatList(Bundle("outer", true, [Nested(Bundle("inner", true, []))]), key) == Ok([])
  {
    FlatMembersSingle(Nested(Bundle("inner", true, [])), key);
  }

  /** `as_pdf(key)` of a bundle: its flat list combined under its file name. */
  function BundleAsPdf(b: Bundle, key: string): (r: Result<Pdf>)
    ensures r.Ok? <==> FlatList(b, key).Ok?
    ensures r.Ok? ==> r.value == Pdf(FlatList(b, key).value, b.filename)
  {
    match FlatList(b, key)
    case Err(e) => Err(e)
    case Ok(parts) => Ok(Pdf(parts, b.filename))
  }

  /** `as_pdf(key)` of one member, whatever its kind. */
  function MemberAsPdf(m: Member, key: string): Result<Pdf> {
    match m
    case Doc(d) => AsPdf(d, key)
    case Nested(nb) => BundleAsPdf(nb, key)
  }

  /** `as_pdf_list(key)` over a sequence of members: one file per member, in
      order, with no member left out (not even a disabled one). */
  function PdfList(ms: seq<Member>, key: string): (r: Result<seq<Pdf>>)
    ensures r.Ok? <==> forall i :: 0 <= i < |ms| ==> MemberAsPdf(ms[i], key).Ok?
    ensures r.Ok? ==> |r.value| == |ms|
    ensures r.Ok? ==> forall i :: 0 <= i < |ms| ==> r.value[i] == MemberAsPdf(ms[i], key).value
  {
    if ms == [] then Ok([])
    else
      match PdfList(ms[..|ms| - 1], key)
      case Err(e) => Err(e)
      case Ok(init) =>
        match MemberAsPdf(ms[|ms| - 1], key)
        case Err(e) => Err(e)
        case Ok(p) => Ok(init + [p])
  }

  /** `as_pdf_list(key)` of a bundle. */
  function AsPdfList(b: Bundle, key: string): (r: Result<seq<Pdf>>)
    ensures r.Ok? <==> forall i :: 0 <= i < |b.members| ==> MemberAsPdf(b.members[i], key).Ok?
    ensures r.Ok? ==> |r.value| == |b.members|
    ensures r.Ok? ==> forall i :: 0 <= i < |b.members| ==> r.value[i] == MemberAsPdf(b.members[i], key).value
  {
    PdfList(b.members, key)
  }

  /** `preview()`: the bundle combined into one file from the "preview"
      variants of its flat list. */
  function Preview(b: Bundle): (r: Result<Pdf>)
    ensures r.Ok? <==> FlatList(b, PreviewKey).Ok?
    ensures r.Ok? ==> r.value.filename == b.filename && r.value.parts == FlatList(b, PreviewKey).value
  {
    BundleAsPdf(b, PreviewKey)
  }

  /** A bundle of enabled documents without addenda flattens to each
      document's variant `key`, in member order. */
  lemma {:induction false} PlainDocumentsFlatten(ms: seq<Member>, key: string)
    requires forall i :: 0 <= i < |ms| ==>
      ms[i].Doc? && ms[i].doc.enabled && !ms[i].doc.hasAddendum && key in ms[i].doc.variants
    ensures FlatMembers(ms, key).Ok?
    ensures |FlatMembers(ms, key).value| == |ms|
    ensures forall i :: 0 <= i < |ms| ==> FlatMembers(ms, key).value[i] == ms[i].doc.variants[key]
  {
    if ms != [] {
      PlainDocumentsFlatten(ms[..|ms| - 1], key);
    }
  }

  /** A document with only a "final" variant, named after its file, and no addendum. */
  function PlainDoc(name: string, enabled: bool): Document {
    Document(name, enabled, false, None, map[FinalKey := Attachment(name)], None)
  }

  /** The bundle [A, [C, D], E] flattens to A, C, D, E; with C disabled to
      A, D, E; and with the nested bundle itself disabled still to A, C, D, E,
      since the nested bundle's `enabled` attribute is never read. */
  lemma NestedBundleScenario(innerEnabled: bool, cEnabled: bool)
    ensures FlatList(Bundle("all", true, [
        Doc(PlainDoc("A", true)),
        Nested(Bundle("inner", innerEnabled, [Doc(PlainDoc("C", cEnabled)), Doc(PlainDoc("D", true))])),
        Doc(PlainDoc("E", true))]), FinalKey) ==
      if cEnabled then Ok([Attachment("A"), Attachment("C"), Attachment("D"), Attachment("E")])
      else Ok([Attachment("A"), Attachment("D"), Attachment("E")])
  {
    var a, c, d, e := Doc(PlainDoc("A", true)), Doc(PlainDoc("C", cEnabled)), Doc(PlainDoc("D", true)), Doc(PlainDoc("E", true));
    var inner := Bundle("inner", innerEnabled, [c, d]);
    NestedBundleIsSpliced([a], inner, [e], FinalKey);
    assert [a] + [Nested(inner)] + [e] == [a, Nested(inner), e];
    if cEnabled {
      assert [a] + inner.members + [e] == [a, c, d, e];
      PlainDocumentsFlatten([a, c, d, e], FinalKey);
      assert FlatMembers([a, c, d, e], FinalKey).value ==
        [Attachment("A"), Attachment("C"), Attachment("D"), Attachment("E")];
    } else {
      assert [a] + inner.members + [e] == [a] + [c] + [d, e];
      DisabledDocContributesNothing([a], PlainDoc("C", false), [d, e], FinalKey);
      assert c == Doc(PlainDoc("C", false));
      assert [a] + [d, e] == [a, d, e];
      PlainDocumentsFlatten([a, d, e], FinalKey);
      assert FlatMembers([a, d, e], FinalKey).value == [Attachment("A"), Attachment("D"), Attachment("E")];
    }
  }
}
