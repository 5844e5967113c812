/**
 * The document state hook: the current document, the `loading` flag of whole-document
 * generation, the `updatingField` marker of single-field generation, and the setters the
 * form components call. Each handler runs as one atomic step; the calls to the two
 * generation services are given as their outcomes.
 */
module UseIdfData {
  import opened Wrappers
  import opened Idf
  import JsString
  import PerplexityRoute

  /** Trimmed answers for additionaldata that mean "nothing to add" and must not overwrite
      what is there. The comparison is exact: "NONE" or "none " are not in the list. */
  const Sentinels: set<string> := {"", "null", "undefined", "none", "N/A", "n/a",
    "No additional data available", "No additional data", "None"}

  /** `keywords.toString()`, the context sent with a single-field request: a list is joined
      with ',' and a string is sent as it is. */
  function KeywordContext(k: ListField): string
  {
    match k
    case Text(s) => s
    case Items(xs) => JsString.Join(xs, ",")
  }

  /** The document after `handleUpdateOne` changed at most `item` and nothing else. */
  predicate OnlyTargetChanged(d: IdfData, r: IdfData, item: Field)
  {
    && r.date == d.date && r.inventors == d.inventors
    && (item != Title ==> r.title == d.title)
    && (item != Abstract ==> r.abstractText == d.abstractText)
    && (forall t :: item != Table(t) ==> TableOf(r, t) == TableOf(d, t))
    && r.invention.uploadedImages == d.invention.uploadedImages
    && (forall g :: item != Inv(g) ==> ValueOf(r.invention, g) == ValueOf(d.invention, g))
  }

  /**
   * How `handleUpdateOne` merges the route's answer `result` into the document: a table is
   * replaced by what `parse` (JSON.parse) makes of the answer, or kept when it does not
   * parse; title and abstract take the answer verbatim; an invention field is merged by
   * MergeField.
   */
  function MergeAnswer(d: IdfData, item: Field, result: string, parse: string -> Option<seq<Row>>)
    : IdfData
  {
    match item
    case Table(t) =>
      (match parse(result)
       case Some(rows) => WithTable(d, t, rows)
       case None => d)
    case Title => d.(title := result)
    case Abstract => d.(abstractText := result)
    case Inv(f) => d.(invention := MergeField(d.invention, f, result))
  }

  /** The invention branch: keywords, components and results take the answer's comma-split,
      trimmed pieces; additionaldata takes the trimmed answer unless it is a sentinel; the
      other fields take the answer verbatim. */
  function MergeField(inv: Invention, f: InvField, result: string): Invention
  {
    if f.IsListField() then
      SetItems(inv, f, CoerceList(result))
    else if f == AdditionalData then
      var aiResult := JsString.Trim(result);
      if aiResult !in Sentinels then SetPlain(inv, f, aiResult) else inv
    else
      SetPlain(inv, f, result)
  }

  /** Merging into an invention field goes through MergeField and leaves the rest of the
      document alone. */
  lemma MergeInventionField(d: IdfData, f: InvField, result: string, parse: string -> Option<seq<Row>>)
    ensures MergeAnswer(d, Inv(f), result, parse) == d.(invention := MergeField(d.invention, f, result))
  {
  }

  /** A single-field update never touches uploadedImages, the date, the inventors, or any
      field other than its target. */
  lemma MergeChangesOnlyTarget(d: IdfData, item: Field, result: string, parse: string -> Option<seq<Row>>)
    ensures OnlyTargetChanged(d, MergeAnswer(d, item, result, parse), item)
  {
    var r := MergeAnswer(d, item, result, parse);
    match item
    case Table(t) =>
    case Title =>
    case Abstract =>
    case Inv(f) =>
      MergeInventionField(d, f, result, parse);
      MergeFieldSameExcept(d.invention, f, result);
      assert forall g :: item != Inv(g) ==> ValueOf(r.invention, g) == ValueOf(d.invention, g);
  }

  /** MergeField changes only its target field. */
  lemma MergeFieldSameExcept(inv: Invention, f: InvField, result: string)
    ensures SameExcept(inv, MergeField(inv, f, result), f)
  {
  }

  /** A table answer that parses replaces the whole table; one that does not keeps it. */
  lemma MergeTable(d: IdfData, t: TableKey, result: string, parse: string -> Option<seq<Row>>)
    ensures TableOf(MergeAnswer(d, Table(t), result, parse), t) == parse(result).GetOr(TableOf(d, t))
  {
  }

  /** Title and abstract take the answer verbatim, untrimmed. */
  lemma MergeTopLevelVerbatim(d: IdfData, result: string, parse: string -> Option<seq<Row>>)
    ensures MergeAnswer(d, Title, result, parse).title == result
    ensures MergeAnswer(d, Abstract, result, parse).abstractText == result
  {
  }

  /** keywords, components and results become the comma-split, trimmed pieces. */
  lemma MergeListField(d: IdfData, f: InvField, result: string, parse: string -> Option<seq<Row>>)
    requires f.IsListField()
    ensures ValueOf(MergeAnswer(d, Inv(f), result, parse).invention, f) == Listed(Items(CoerceList(result)))
  {
    MergeInventionField(d, f, result, parse);
  }

  /** additionaldata takes the trimmed answer unless that is one of the sentinels. */
  lemma MergeAdditionalData(d: IdfData, result: string, parse: string -> Option<seq<Row>>)
    ensures MergeAnswer(d, Inv(AdditionalData), result, parse).invention.additionaldata ==
      if JsString.Trim(result) in Sentinels then d.invention.additionaldata else JsString.Trim(result)
  {
    MergeInventionField(d, AdditionalData, result, parse);
  }

  /** description, background, problem and advantages take the answer verbatim. */
  lemma MergePlainField(d: IdfData, f: InvField, result: string, parse: string -> Option<seq<Row>>)
    requires !f.IsListField() && f != AdditionalData
    ensures ValueOf(MergeAnswer(d, Inv(f), result, parse).invention, f) == Plain(result)
  {
    MergeInventionField(d, f, result, parse);
  }

  /** An answer that does not parse leaves the whole document as it was. */
  lemma ParseFailureKeepsDocument(d: IdfData, t: TableKey, result: string, parse: string -> Option<seq<Row>>)
    requires parse(result).None?
    ensures MergeAnswer(d, Table(t), result, parse) == d
  {
  }

  /** A sentinel answer keeps the note already there, after trimming: " None\n" counts as
      "None". */
  lemma SentinelKeepsNote(d: IdfData, parse: string -> Option<seq<Row>>)
    ensures MergeAnswer(d, Inv(AdditionalData), " None\n", parse) == d
  {
    TrimExamples();
    MergeInventionField(d, AdditionalData, " None\n", parse);
  }

  /** The comparison is case-sensitive: "NONE" is not a sentinel and replaces the note. */
  lemma UpperCaseNoneReplacesNote(d: IdfData, parse: string -> Option<seq<Row>>)
    ensures MergeAnswer(d, Inv(AdditionalData), "NONE", parse).invention.additionaldata == "NONE"
  {
    TrimExamples();
    UpperCaseNoneIsNotSentinel();
    MergeAdditionalData(d, "NONE", parse);
  }

  lemma UpperCaseNoneIsNotSentinel()
    ensures "NONE" !in Sentinels
  {
    assert "NONE"[1] == 'O';
  }

  lemma TrimExamples()
    ensures JsString.Trim(" None\n") == "None"
    ensures JsString.Trim("NONE") == "NONE"
  {
    JsString.TrimOfTrimmed("NONE");
    var s := " None\n";
    assert s[1..] == "None\n";
    assert JsString.LeadCount("None\n") == 0;
    assert JsString.LeadCount(s) == 1;
    var t := s[1..];
    assert t[..4] == "None";
    assert JsString.TrailCount("None") == 0;
    assert JsString.TrailCount(t) == 1;
  }

  /** An answer that starts with a comma gives an empty first entry: empty pieces are kept,
      not dropped. */
  lemma ListAnswerKeepsEmptyPieces(d: IdfData, f: InvField, rest: string, parse: string -> Option<seq<Row>>)
    requires f.IsListField()
    ensures ValueOf(MergeAnswer(d, Inv(f), [','] + rest, parse).invention, f) ==
      Listed(Items([""] + CoerceList(rest)))
  {
    MergeListField(d, f, [','] + rest, parse);
    JsString.SplitCons(',', rest, ',');
    JsString.TrimOfTrimmed("");
    var pieces := JsString.Split(rest, ',');
    assert JsString.MapTrim([""] + pieces) == [""] + JsString.MapTrim(pieces);
  }

  /** Whole-document generation keeps the images already attached; a document without
      images takes the generated one as it is. */
  function KeepImages(generated: IdfData, existing: seq<string>): (r: IdfData)
    ensures r.invention.uploadedImages ==
      if |existing| > 0 then existing else generated.invention.uploadedImages
    ensures r.(invention := r.invention.(uploadedImages := [])) ==
      generated.(invention := generated.invention.(uploadedImages := []))
  {
    if |existing| > 0 then
      generated.(invention := generated.invention.(uploadedImages := existing))
    else generated
  }

  /** The keys of `Partial<IDFData>` that `updateIDFData` may carry; None is an absent key. */
  datatype Patch = Patch(
    date: Option<string>, title: Option<string>, abstractText: Option<string>,
    inventors: Option<seq<Inventor>>, invention: Option<Invention>,
    prior_art: Option<seq<Row>>, disclosure: Option<seq<Row>>, plans: Option<seq<Row>>)

  /** `{ ...prev, ...newData }`: a key present in the patch wins, every other key keeps its
      value. */
  function ApplyPatch(d: IdfData, p: Patch): (r: IdfData)
    ensures r.date == p.date.GetOr(d.date) && r.title == p.title.GetOr(d.title)
    ensures r.abstractText == p.abstractText.GetOr(d.abstractText)
    ensures r.inventors == p.inventors.GetOr(d.inventors)
    ensures r.invention == p.invention.GetOr(d.invention)
    ensures r.prior_art == p.prior_art.GetOr(d.prior_art)
    ensures r.disclosure == p.disclosure.GetOr(d.disclosure)
    ensures r.plans == p.plans.GetOr(d.plans)
  {
    IdfData(p.date.GetOr(d.date), p.title.GetOr(d.title), p.abstractText.GetOr(d.abstractText),
      p.inventors.GetOr(d.inventors), p.invention.GetOr(d.invention),
      p.prior_art.GetOr(d.prior_art), p.disclosure.GetOr(d.disclosure), p.plans.GetOr(d.plans))
  }

  /** An empty patch changes nothing, and applying the same patch twice is applying it once. */
  lemma PatchIdempotent(d: IdfData, p: Patch)
    ensures ApplyPatch(ApplyPatch(d, p), p) == ApplyPatch(d, p)
    ensures ApplyPatch(d, Patch(None, None, None, None, None, None, None, None)) == d
  {
  }

  /** A request the hook sends to one of the two generation routes. */
  datatype Sent =
    | WholeDocument(title: string)
    | SingleField(body: PerplexityRoute.RequestBody)

  /** What the single-field request for `item` carries: the description as title, the
      field key as type, and the keywords as basic data. */
  function FieldRequest(d: IdfData, item: Field): PerplexityRoute.RequestBody
  {
    PerplexityRoute.RequestBody(Some(d.invention.description), Some(item.Name()),
      Some(KeywordContext(d.invention.keywords)), None)
  }

  /** Whether the route answers the request for `item` with 200: it needs a non-empty
      keyword context (its "basic" field), a configured key and a vendor answer. */
  predicate RouteSucceeds(d: IdfData, apiKey: Option<string>, upstream: Option<string>)
  {
    KeywordContext(d.invention.keywords) != "" && PerplexityRoute.Truthy(apiKey) && upstream.Some?
  }

  class IdfState {
    var idfData: IdfData
    var loading: bool
    var updatingField: Option<Field>
    /** Every value handed to `setUpdatingField`, in order. */
    var markerLog: seq<Option<Field>>
    /** Every value handed to `setLoading`, in order. */
    var loadingLog: seq<bool>
    /** Every request sent to a generation route, in order. */
    var sent: seq<Sent>
    /** JSON.parse of a table answer: the rows, or None when it throws. */
    const parse: string -> Option<seq<Row>>
    /** The key configured for the single-field route. */
    const apiKey: Option<string>

    constructor (parse: string -> Option<seq<Row>>, apiKey: Option<string>)
      ensures idfData == DefaultIdfData() && !loading && updatingField == None
      ensures markerLog == [] && loadingLog == [] && sent == []
      ensures this.parse == parse && this.apiKey == apiKey
    {
      idfData := DefaultIdfData();
      loading := false;
      updatingField := None;
      markerLog := [];
      loadingLog := [];
      sent := [];
      this.parse := parse;
      this.apiKey := apiKey;
    }

    /**
     * `handleGenerate(title)`: `reply` is what the whole-document route returns, None when
     * the call fails. Nothing happens when neither the title nor the description is set;
     * otherwise `loading` is raised and lowered around the call, a failure leaves the
     * document as it was, and a success replaces it, keeping the images already attached.
     */
    method HandleGenerate(title: Option<string>, reply: Option<IdfData>)
      modifies this
      ensures var seed := if PerplexityRoute.Truthy(title) then title.value else old(idfData.invention.description);
        if seed == "" then
          idfData == old(idfData) && loading == old(loading) && loadingLog == old(loadingLog) && sent == old(sent)
        else
          && loadingLog == old(loadingLog) + [true, false] && !loading
          && sent == old(sent) + [WholeDocument(seed)]
          && idfData == (if reply.Some? then KeepImages(reply.value, old(idfData.invention.uploadedImages))
                         else old(idfData))
      ensures updatingField == old(updatingField) && markerLog == old(markerLog)
    {
      var description := if title.Some? && title.value != "" then title.value else idfData.invention.description;
      if description == "" {
        return;
      }
      loading := true;
      loadingLog := loadingLog + [true];
      sent := sent + [WholeDocument(description)];
      if reply.Some? {
        var existingImages := idfData.invention.uploadedImages;
        if |existingImages| > 0 {
          var generated := reply.value;
          idfData := generated.(invention := generated.invention.(uploadedImages := existingImages));
        } else {
          idfData := reply.value;
        }
      }
      loading := false;
      loadingLog := loadingLog + [false];
    }

    /**
     * `handleUpdateOne(item)`: `upstream` is the language model's answer as the route
     * receives it, None when that call fails. Nothing happens when the description is
     * empty. Otherwise the marker is set to `item`, the route is called, its answer (if it
     * answers 200) is merged into the document, and the marker is cleared on every path.
     */
    method HandleUpdateOne(item: Field, upstream: Option<string>)
      modifies this
      ensures old(idfData.invention.description) == "" ==>
        idfData == old(idfData) && updatingField == old(updatingField)
        && markerLog == old(markerLog) && sent == old(sent)
      ensures old(idfData.invention.description) != "" ==>
        && markerLog == old(markerLog) + [Some(item), None] && updatingField == None
        && sent == old(sent) + [SingleField(FieldRequest(old(idfData), item))]
        && idfData == if RouteSucceeds(old(idfData), apiKey, upstream)
                      then MergeAnswer(old(idfData), item,
                             PerplexityRoute.RouteAnswer(item.Name(), upstream.value), parse)
                      else old(idfData)
      ensures loading == old(loading) && loadingLog == old(loadingLog)
    {
      if idfData.invention.description == "" {
        return;
      }
      updatingField := Some(item);
      markerLog := markerLog + [Some(item)];
      var request := FieldRequest(idfData, item);
      sent := sent + [SingleField(request)];
      NameNonEmpty(item);
      assert PerplexityRoute.Truthy(request.title) && PerplexityRoute.Truthy(request.kind);
      assert PerplexityRoute.Truthy(request.basic) <==> KeywordContext(idfData.invention.keywords) != "";
      var response, _ := PerplexityRoute.Post(Some(request), apiKey, upstream);
      assert response.status == 200 <==> RouteSucceeds(idfData, apiKey, upstream);
      if response.status == 200 {
        var result := response.body.result;
        idfData := MergeAnswer(idfData, item, result, parse);
      }
      updatingField := None;
      markerLog := markerLog + [None];
    }

    method UpdateIdfData(newData: Patch)
      modifies this`idfData
      ensures idfData == ApplyPatch(old(idfData), newData)
    {
      idfData := ApplyPatch(idfData, newData);
    }

    method UpdateInvention(invention: Invention)
      modifies this`idfData
      ensures idfData == old(idfData).(invention := invention)
    {
      idfData := idfData.(invention := invention);
    }

    method UpdateInventors(inventors: seq<Inventor>)
      modifies this`idfData
      ensures idfData == old(idfData).(inventors := inventors)
    {
      idfData := idfData.(inventors := inventors);
    }

    method UpdatePriorArt(rows: seq<Row>)
      modifies this`idfData
      ensures idfData == WithTable(old(idfData), PriorArt, rows)
    {
      idfData := idfData.(prior_art := rows);
    }

    method UpdateDisclosure(rows: seq<Row>)
      modifies this`idfData
      ensures idfData == WithTable(old(idfData), Disclosure, rows)
    {
      idfData := idfData.(disclosure := rows);
    }

    method UpdatePlans(rows: seq<Row>)
      modifies this`idfData
      ensures idfData == WithTable(old(idfData), Plans, rows)
    {
      idfData := idfData.(plans := rows);
    }
  }

  lemma NameNonEmpty(item: Field)
    ensures item.Name() != ""
  {
  }

  /** With no keywords yet, the route rejects every single-field request (its "basic" field
      is empty), so no field can be regenerated, keywords included. */
  lemma EmptyKeywordsBlockSingleFieldUpdates(d: IdfData, apiKey: Option<string>, upstream: Option<string>)
    requires d.invention.keywords == Items([]) || d.invention.keywords == Text("")
    ensures !RouteSucceeds(d, apiKey, upstream)
  {
  }
}
