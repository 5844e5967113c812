/**
 * The invention form's handlers. Each one builds a fresh copy of the invention it was
 * given, changes one thing in the copy, and hands the copy to `onUpdateInvention`; the
 * functions below return that copy.
 */
module InventionSection {
  import opened Wrappers
  import opened Idf
  import JsString
  import SeqEdit
  import UseIdfData

  /** `handleFieldChange(field, value)`: keywords, components and results store the comma-split,
      trimmed pieces of the edit (empty pieces kept); every other field stores the edit as
      typed. Nothing but `field` changes. */
  function FieldChange(inv: Invention, f: InvField, value: string): (r: Invention)
    ensures SameExcept(inv, r, f)
    ensures f.IsListField() ==> ValueOf(r, f) == Listed(Items(CoerceList(value)))
    ensures !f.IsListField() ==> ValueOf(r, f) == Plain(value)
  {
    if f.IsListField() then SetItems(inv, f, CoerceList(value)) else SetPlain(inv, f, value)
  }

  /** The text the field's editor shows: a list joined with ", ". */
  function Shown(inv: Invention, f: InvField): string
  {
    match ValueOf(inv, f)
    case Plain(s) => s
    case Listed(l) => Display(l)
  }

  /** Submitting the displayed text of a non-empty list unchanged gives back the list with
      every entry trimmed, as long as no entry holds a comma. */
  lemma DisplayRoundTrip(inv: Invention, f: InvField, xs: seq<string>)
    requires f.IsListField() && ValueOf(inv, f) == Listed(Items(xs))
    requires |xs| > 0 && forall i :: 0 <= i < |xs| ==> ',' !in xs[i]
    ensures ValueOf(FieldChange(inv, f, Shown(inv, f)), f) == Listed(Items(JsString.MapTrim(xs)))
  {
    JsString.SplitJoinRoundTrip(xs);
  }

  /** A list that is already trimmed and comma-free is a fixed point of display-then-edit. */
  lemma DisplayRoundTripTrimmed(inv: Invention, f: InvField, xs: seq<string>)
    requires f.IsListField() && ValueOf(inv, f) == Listed(Items(xs))
    requires |xs| > 0
    requires forall i :: 0 <= i < |xs| ==> ',' !in xs[i] && JsString.IsTrimmed(xs[i])
    ensures FieldChange(inv, f, Shown(inv, f)) == inv
  {
    DisplayRoundTrip(inv, f, xs);
    JsString.MapTrimOfTrimmed(xs);
    var r := FieldChange(inv, f, Shown(inv, f));
    assert ValueOf(r, f) == ValueOf(inv, f);
    assert forall g: InvField :: ValueOf(r, g) == ValueOf(inv, g);
    assert r.keywords == inv.keywords by { assert ValueOf(r, Keywords) == ValueOf(inv, Keywords); }
    assert r.components == inv.components by { assert ValueOf(r, Components) == ValueOf(inv, Components); }
    assert r.results == inv.results by { assert ValueOf(r, Results) == ValueOf(inv, Results); }
    assert r.description == inv.description by { assert ValueOf(r, Description) == ValueOf(inv, Description); }
    assert r.background == inv.background by { assert ValueOf(r, Background) == ValueOf(inv, Background); }
    assert r.problem == inv.problem by { assert ValueOf(r, Problem) == ValueOf(inv, Problem); }
    assert r.advantages == inv.advantages by { assert ValueOf(r, Advantages) == ValueOf(inv, Advantages); }
    assert r.additionaldata == inv.additionaldata by { assert ValueOf(r, AdditionalData) == ValueOf(inv, AdditionalData); }
  }

  /** The empty list is the exception: it is shown as "" and comes back as one empty entry. */
  lemma EmptyListComesBackAsOneEntry(inv: Invention, f: InvField)
    requires f.IsListField() && ValueOf(inv, f) == Listed(Items([]))
    ensures ValueOf(FieldChange(inv, f, Shown(inv, f)), f) == Listed(Items([""]))
  {
    JsString.EmptyListDoesNotRoundTrip();
  }

  /** A manual edit and a generated answer are stored alike, except for additionaldata, whose
      answer is trimmed and filtered but whose edit is stored as typed. */
  lemma EditAgreesWithGeneratedAnswer(inv: Invention, f: InvField, value: string)
    requires f != AdditionalData
    ensures FieldChange(inv, f, value) == UseIdfData.MergeField(inv, f, value)
  {
  }

  /** What the upload route answers: a failed request (network error or a status that is
      not ok), or its JSON reply. */
  datatype UploadReply =
    | Failed
    | Replied(success: bool, files: Option<seq<string>>)

  /** `handleAddImage` after the upload: a successful reply with a file list appends the
      returned paths after the existing ones, in order; anything else leaves the list. */
  function AddUploaded(inv: Invention, reply: UploadReply): (r: Invention)
    ensures r.(uploadedImages := inv.uploadedImages) == inv
    ensures reply.Replied? && reply.success && reply.files.Some? ==>
      |r.uploadedImages| == |inv.uploadedImages| + |reply.files.value|
      && r.uploadedImages[..|inv.uploadedImages|] == inv.uploadedImages
      && r.uploadedImages[|inv.uploadedImages|..] == reply.files.value
    ensures !(reply.Replied? && reply.success && reply.files.Some?) ==> r == inv
  {
    match reply
    case Replied(true, Some(files)) => inv.(uploadedImages := inv.uploadedImages + files)
    case _ => inv
  }

  /** `handleDeleteImage(idx)`: `filter((_, i) => i !== idx)`. */
  function DeleteImage(inv: Invention, idx: int): (r: Invention)
    ensures r.(uploadedImages := inv.uploadedImages) == inv
    ensures 0 <= idx < |inv.uploadedImages| ==>
      r.uploadedImages == SeqEdit.RemoveAt(inv.uploadedImages, idx)
    ensures !(0 <= idx < |inv.uploadedImages|) ==> r == inv
  {
    SeqEdit.FilterOutIndexIsRemoveAt(inv.uploadedImages, idx, 0);
    inv.(uploadedImages := SeqEdit.FilterOutIndex(inv.uploadedImages, idx, 0))
  }

  /** `handleChangeImage(idx)` after the upload: a successful reply with at least one file
      puts its first path at `idx`, keeping the length and every other image; anything else
      leaves the list. The index is a position inside the list, which is what ImageUpload
      passes, so the assignment never leaves holes in the image list. */
  function ChangeImage(inv: Invention, idx: nat, reply: UploadReply): (r: Invention)
    requires idx < |inv.uploadedImages|
    ensures r.(uploadedImages := inv.uploadedImages) == inv
    ensures |r.uploadedImages| == |inv.uploadedImages|
    ensures forall k :: 0 <= k < |r.uploadedImages| && k != idx ==>
      r.uploadedImages[k] == inv.uploadedImages[k]
    ensures reply.Replied? && reply.success && reply.files.Some? && |reply.files.value| > 0 ==>
      r.uploadedImages[idx] == reply.files.value[0]
    ensures !(reply.Replied? && reply.success && reply.files.Some? && |reply.files.value| > 0) ==>
      r == inv
  {
    match reply
    case Replied(true, Some(files)) =>
      if |files| > 0 then inv.(uploadedImages := SeqEdit.AssignAt(inv.uploadedImages, idx, files[0], ""))
      else inv
    case _ => inv
  }

  /** Deleting an image that was just uploaded at the end restores the list. */
  lemma UploadThenDelete(inv: Invention, path: string)
    ensures DeleteImage(AddUploaded(inv, Replied(true, Some([path]))), |inv.uploadedImages|) == inv
  {
    var added := AddUploaded(inv, Replied(true, Some([path])));
    assert added.uploadedImages == inv.uploadedImages + [path];
    SeqEdit.AppendThenRemoveLast(inv.uploadedImages, path);
  }
}
