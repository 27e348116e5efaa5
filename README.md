# ALDocument overflow and bundling, modelled in Dafny

This project models the core of the docassemble `ALDocument` package
(`docassemble/ALDocument/al_document.py`):

- **Addendum fields** (`ALAddendumField`, module `AddendumField`). A field is a variable
  name with an integer `overflow_trigger`. Its *safe value* is the part of the variable
  that fits on the form. Its *overflow value* is the rest, which goes to the addendum.
  The variable is read from the interview's variable store, modelled as a
  `map<string, Value<T>>`: a name is defined exactly when it is a key. Module `Values`
  gives the Python values the code can meet:
  - strings and lists, which have a length and can be sliced, with Python's slice-index
    normalisation, negative bounds included;
  - dicts and sets, which have a length but raise when sliced;
  - everything else, which has no length.
- **The field dictionary** (`ALAddendumFieldDict`, class `AddendumFieldDict.FieldRegistry`).
  This is an ordered dictionary held as a key sequence plus a map.
  - `FromList` is the `from_list` loop. A re-registered name keeps its position, and its
    last record wins.
  - `DefinedFields` is the `defined_fields` filter.
- **Documents** (`ALDocument`, module `Document`). `AsList` is the addendum-inclusion rule
  of `as_list`. Attachments are opaque handles. `need_addendum` and `addendum` are
  optional attributes that the interview supplies. The rendering call `pdf_concatenate`
  is represented by a `Pdf` record of the parts it is given and the file name.
- **Bundles** (`ALDocumentBundle`, module `DocumentBundle`). A bundle is a tree of
  documents and nested bundles.
  - `AsFlatList` is the `as_flat_list` loop. It is proved equal to the recursive
    function `FlatList`, and lemmas about `FlatList` give the ordering, splicing and
    filtering rules.
  - `AsPdfList` and `Preview` model `as_pdf_list` and `preview`.

The package's own description (the `long_description` at `setup.py:48`) says that a
document includes its addendum "automatically … when it is needed", and that a bundle
assembles "just the enabled documents". The code does less, and the model follows the code:
- `need_addendum` is an attribute the interview sets. Nothing in this file computes it
  from field overflow.
- The `enabled` attribute of a nested bundle is never read (line 180 is tested before
  line 182), so a disabled nested bundle still contributes all its members.
- `as_pdf_list` (line 191) returns one file per top-level member, disabled documents
  included, although the docstring at lines 148-149 says that enabling or disabling a
  document affects its inclusion in all bundles.

Two further facts about the code:
- An overflowing dict or set gives `""` for both parts, because slicing it raises.
- The same description names `download_buttons_html`, which this file does not define.

Errors that the code raises are modelled as `Err` values of `Document.Result`. These
are a missing variant key (`self[key]`), an unset `need_addendum`, an unset `addendum`,
and `as_list` called on a bundle. Errors that the code catches are modelled as the
values the `except` branches return.

## Model

| member | source | states |
|---|---|---|
| AddendumField.ValueIfDefined | docassemble/ALDocument/al_document.py:42-48 | the field's value is the variable's value when its name is defined, and `""` otherwise |
| AddendumField.SafeValue | docassemble/ALDocument/al_document.py:28-39 | the safe value always has a length, at most `overflow_trigger` when the trigger is non-negative; a value with a length that does not overflow comes back whole; an overflowing string or list gives a prefix of itself of the same kind |
| AddendumField.OverflowValue | docassemble/ALDocument/al_document.py:15-26 | the overflow is always a string or a list; it is `""` whenever the value does not overflow; for an overflowing string or list and a non-negative trigger its length is `len(v) - overflow_trigger` |
| AddendumField.SafeThenOverflowIsValue | docassemble/ALDocument/al_document.py:15-39 | for an overflowing string or list, safe value + overflow value is the whole value, for every trigger; the cut is where Python's slice puts it (a negative trigger counts from the end); with a non-negative trigger the safe part has exactly `overflow_trigger` elements |
| AddendumField.FittingValueIsSafe | docassemble/ALDocument/al_document.py:21-24 | a value whose length is at most the trigger, the boundary `len == trigger` included, is its own safe value and has overflow `""` |
| AddendumField.FittingListDoesNotConcat | docassemble/ALDocument/al_document.py:21-24 | a list that fits has the string `""` as overflow, so safe + overflow raises for it and the round trip is limited to overflowing values |
| AddendumField.UndefinedFieldIsEmpty | docassemble/ALDocument/al_document.py:42-48 | an undefined variable reads as `""`, and both its safe value and its overflow are `""` |
| AddendumField.UnsizedValueIsEmpty | docassemble/ALDocument/al_document.py:20-39 | a value without a length takes the `except` path: both parts are `""` and nothing raises |
| AddendumField.UnsliceableValue | docassemble/ALDocument/al_document.py:20-39 | a dict or set is safe whole while it fits and gives `""` for both parts once it overflows |
| AddendumFieldDict.FieldRegistry.FromList | docassemble/ALDocument/al_document.py:77-81 | the loop keeps the dictionary invariant (unique keys, each field stored under its own name) and leaves exactly the key order and entries of inserting the records one by one |
| AddendumFieldDict.KeysAfterContents | docassemble/ALDocument/al_document.py:77-81 | after `from_list` the old keys are a prefix, the keys are exactly the old keys plus the records' names, and no key repeats |
| AddendumFieldDict.KeysInFirstAppearanceOrder | docassemble/ALDocument/al_document.py:77-81 | the new keys appear in the order in which their names first occur in the records |
| AddendumFieldDict.FieldsAfterDomain | docassemble/ALDocument/al_document.py:77-81 | `from_list` adds entries for exactly the records' names, leaves other entries untouched, and stores each field under its own name |
| AddendumFieldDict.FieldsAfterLastWins | docassemble/ALDocument/al_document.py:79-81 | the field under a name carries the name and trigger of the last record with that name |
| AddendumFieldDict.SelectFields | docassemble/ALDocument/al_document.py:88-91 | a field is in the result iff it is in the dictionary, its variable is defined and, for "overflow_only", its overflow is not empty; no field repeats |
| AddendumFieldDict.FieldRegistry.DefinedFields | docassemble/ALDocument/al_document.py:83-91 | `defined_fields(style)` returns, without repetition, exactly the defined fields and, in the style "overflow_only", only those with non-empty overflow |
| AddendumFieldDict.SelectionKeepsOrder | docassemble/ALDocument/al_document.py:88-91 | the selection is a subsequence of the dictionary's fields, so registry order is kept |
| AddendumFieldDict.OverflowOnlyWithinDefined | docassemble/ALDocument/al_document.py:88-91 | the "overflow_only" result is a subsequence of the result of any other style |
| Document.AsList | docassemble/ALDocument/al_document.py:131-135 | `as_list(key)` succeeds iff the variant exists, `need_addendum` is set when `has_addendum` holds, and the addendum is set when it is wanted; the result starts with `self[key]`, has one or two entries, and has two iff `has_addendum and need_addendum`, the second being the addendum; without `has_addendum` it is `[self[key]]` |
| Document.NoAddendumIgnoresOverflowState | docassemble/ALDocument/al_document.py:113-135 | a document without an addendum never consults `need_addendum` or `addendum`: changing or unsetting them leaves `as_list` unchanged |
| Document.AsPdf | docassemble/ALDocument/al_document.py:128-129 | a document's combined file holds exactly its `as_list(key)`, in that order, under its file name, and fails exactly when `as_list` does |
| DocumentBundle.AsFlatList | docassemble/ALDocument/al_document.py:170-185 | the loop that extends the flat list member by member returns the recursive flat list of the bundle, including the first error raised |
| DocumentBundle.FlatMembersAppend | docassemble/ALDocument/al_document.py:178-185 | flattening distributes over concatenation of members: declared order is kept and an error in an earlier member wins |
| DocumentBundle.DisabledDocContributesNothing | docassemble/ALDocument/al_document.py:182-183 | removing a disabled document from anywhere in a bundle does not change its flat list |
| DocumentBundle.EnabledDocContributesAsList | docassemble/ALDocument/al_document.py:182-183 | an enabled document contributes its `as_list(key)` between the members before and after it |
| DocumentBundle.NestedBundleIsSpliced | docassemble/ALDocument/al_document.py:180-181 | a nested bundle is replaced in place by its members, whatever its own `enabled` attribute |
| DocumentBundle.PlainDocumentsFlatten | docassemble/ALDocument/al_document.py:178-185 | enabled documents without addenda flatten to their variant `key`, one per document, in member order |
| DocumentBundle.NestedBundleScenario | docassemble/ALDocument/al_document.py:170-185 | [A, [C, D], E] flattens to A, C, D, E; with C disabled to A, D, E; with the nested bundle disabled still to A, C, D, E |
| DocumentBundle.AsWrittenFailsOnNesting | docassemble/ALDocument/al_document.py:180-181 | as written, a bundle with any nested bundle member fails to flatten; on bundles of documents only it agrees with the recursive flatten |
| DocumentBundle.NestedEmptyBundleCounterexample | docassemble/ALDocument/al_document.py:180-181 | a bundle holding one empty nested bundle fails as written and flattens to the empty list under the recursive reading |
| DocumentBundle.BundleAsPdf | docassemble/ALDocument/al_document.py:164-165 | a bundle's combined file holds exactly its flat list under its file name, and fails exactly when the flat list does |
| DocumentBundle.PdfList | docassemble/ALDocument/al_document.py:187-191 | `as_pdf_list` succeeds iff every member's `as_pdf` does, and then has exactly one file per member, in order, the i-th being member i's combined file, disabled members included |
| DocumentBundle.AsPdfList | docassemble/ALDocument/al_document.py:187-191 | `as_pdf_list(key)` of a bundle succeeds iff every top-level member's `as_pdf` does, and then has one file per top-level member, in order, the i-th being member i's combined file, disabled members included |
| DocumentBundle.Preview | docassemble/ALDocument/al_document.py:167-168 | the preview is the bundle's flat list of "preview" variants combined under the bundle's file name |

## Findings

| source | as written | input that shows it | evidently intended | confidence | as-written member | corrected member |
|---|---|---|---|---|---|---|
| docassemble/ALDocument/al_document.py:180-181 | a nested bundle member is flattened with `document.as_list(key=key)`, and `ALDocumentBundle` defines no `as_list` | a bundle whose only member is an empty nested bundle | the nested bundle's own flat list is spliced in, as the docstring at line 171 and the comment at line 176 say | medium (assumes no inherited `as_list`); not executed | DocumentBundle.AsWrittenFailsOnNesting | DocumentBundle.AsFlatList |

The rest of the model (`FlatList`, `BundleAsPdf`, `PdfList`, `Preview`) uses the corrected,
recursive reading.

## Left out

- `pdf_concatenate` and the rendering of attachments are outside the model. A combined
  file is the `Pdf` record of its parts and file name. `pdf_concatenate` is assumed never
  to fail; a rendering failure is not modelled.
- `defined` and `value` are the interview's variable store, modelled as a map. The code
  reads the variable twice per call, and the model assumes the store does not change
  between the two reads.
- An attribute or dictionary entry that the interview has not set makes docassemble ask
  a question. The model treats that as an error result (`MissingVariant`,
  `MissingNeedAddendum`, `MissingAddendum`). `enabled`, `has_addendum`, `filename` and
  `overflow_trigger` are always set in the model.
- The default arguments `key='final'` and `style='overflow_only'` are not modelled as
  defaults. Callers pass `Document.FinalKey` or `AddendumFieldDict.OverflowOnly` explicitly.
- `overflow_trigger` is an integer in the model. A non-integer trigger, whose comparison
  could raise, is not modelled.
- `from_list` records are typed. A record lacking `field_name` or `overflow_trigger`,
  which raises `KeyError`, is not modelled.
- The dictionary's automatic creation of a field on first access to an unknown key is
  not modelled. Such a field has no `field_name`, so `defined_fields` would raise on it.
  The registry is populated by `FromList` only.
- `ALAddendumFieldDict.init` is framework plumbing and is not modelled. This covers the
  `style` default and the call `from_list(data)` on line 74, which names an unbound
  `data`. The `style` attribute is never read by `defined_fields`, which takes its own
  parameter.
- `ALAddendumField.columns` (lines 53-60) is not modelled. It passes the unbound name
  `headers` to `hasattr`, and its other branch is a TODO.
- `ALAddendumField.__str__` is not modelled, and the `field_style` attribute is never read.
- `ALDocument.init` and the `overflow_fields` dictionary it attaches are not modelled.
  Nothing in this file reads that dictionary.
- `ALDocumentBundle.as_html` is a stub returning `None`. The `init` bookkeeping
  (`auto_gather`, `gathered`) is framework plumbing.
- `ALDocumentBundleDict` (lines 196-227) is not modelled. Its `init` names undefined
  classes, `preview` and `as_attachment` lack `self`, and `preview` passes an argument
  `as_pdf` does not accept.
- Bundles are modelled as trees of values. Sharing one document object between bundles
  is harmless here, because nothing mutates it. A bundle that contains itself cannot be
  expressed. As written, flattening such a bundle raises at the nested `as_list` call.
  Under the recursive reading, Python would raise `RecursionError`.
- `setup.py` is packaging metadata and a filesystem walk. It is not part of this model.
