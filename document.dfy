/** `ALDocument`: one output form in its variants ("final", "preview", ...),
    with an optional addendum attachment that is appended when it is needed. */
module Document {
  import opened Values

  /** The variant a document is rendered in by default. */
  const FinalKey: string := "final"
  /** The variant a preview is rendered in. */
  const PreviewKey: string := "preview"

  /** An attachment block of the interview: an opaque handle to a rendered file. */
  datatype Attachment = Attachment(handle: string)

  /** What `pdf_concatenate` is asked for: these attachments, in this order,
      combined into one file under this name. */
  datatype Pdf = Pdf(parts: seq<Attachment>, filename: string)

  /** An attribute or entry the code reads that the interview never set. */
  datatype DocError =
    | MissingVariant(key: string)   // `self[key]` for a key the document lacks
    | MissingNeedAddendum           // `self.need_addendum` read but never set
    | MissingAddendum               // `self.addendum` read but never set
    | NoAsList                      // `as_list` called on a bundle, which has none

  datatype Result<+R> = Ok(value: R) | Err(error: DocError)

  /** An `ALDocument`. `needAddendum` and `addendum` are optional attributes:
      None stands for an attribute the interview has not set. */
  datatype Document = Document(
    filename: string,
    enabled: bool,
    hasAddendum: bool,
    needAddendum: Option<bool>,
    variants: map<string, Attachment>,
    addendum: Option<Attachment>)

  /** The addendum goes with the document: `has_addendum and need_addendum`.
      `need_addendum` is read only when `has_addendum` holds. */
  function WantsAddendum(d: Document): Result<bool> {
    if !d.hasAddendum then Ok(false)
    else if d.needAddendum.None? then Err(MissingNeedAddendum)
    else Ok(d.needAddendum.value)
  }

  /** `as_list(key)`: the document's variant `key`, followed by the addendum
      exactly when the document has one and needs it. */
  function AsList(d: Document, key: string): (r: Result<seq<Attachment>>)
    ensures r.Ok? <==>
      WantsAddendum(d).Ok? && key in d.variants && (WantsAddendum(d).value ==> d.addendum.Some?)
    ensures r.Ok? ==> 1 <= |r.value| <= 2 && r.value[0] == d.variants[key]
    ensures r.Ok? ==> (|r.value| == 2 <==> d.hasAddendum && d.needAddendum == Some(true))
    ensures r.Ok? && |r.value| == 2 ==> r.value[1] == d.addendum.value
    ensures !d.hasAddendum ==> r == if key in d.variants then Ok([d.variants[key]]) else Err(MissingVariant(key))
  {
    match WantsAddendum(d)
    case Err(e) => Err(e)
    case Ok(wants) =>
      if key !in d.variants then Err(MissingVariant(key))
      else if !wants then Ok([d.variants[key]])
      else if d.addendum.None? then Err(MissingAddendum)
      else Ok([d.variants[key], d.addendum.value])
  }

  /** A document without an addendum never consults `need_addendum` or
      `addendum`: whatever they hold, or whether they are set at all, its list
      is the same. */
  lemma NoAddendumIgnoresOverflowState(d: Document, key: string, need: Option<bool>, add: Option<Attachment>)
    requires !d.hasAddendum
    ensures AsList(d, key) == AsList(d.(needAddendum := need, addendum := add), key)
  {
  }

  /** `as_pdf(key)`: the attachments of `as_list(key)`, in that order, combined
      under the document's file name. */
  function AsPdf(d: Document, key: string): (r: Result<Pdf>)
    ensures r.Ok? <==> AsList(d, key).Ok?
    ensures r.Ok? ==> r.value.filename == d.filename && r.value.parts == AsList(d, key).value
  {
    match AsList(d, key)
    case Err(e) => Err(e)
    case Ok(parts) => Ok(Pdf(parts, d.filename))
  }
}
