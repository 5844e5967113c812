/**
 * The Invention Disclosure Form document: its records, the all-empty starting value,
 * the keys the editor addresses fields by, and the table-section test.
 */
module Idf {
  import JsString

  /** One inventor. No field is unique: inventors are identified by position only. */
  datatype Inventor = Inventor(
    name: string, id: string, nationality: string, employer: string,
    inventorship: string, address: string, phone: string, email: string)

  /** The eight inventor columns, in the order the form and the PDF list them. */
  datatype InventorField = Name | Id | Nationality | Employer | Inventorship | Address | Phone | Email

  function InventorGet(inv: Inventor, f: InventorField): string
  {
    match f
    case Name => inv.name
    case Id => inv.id
    case Nationality => inv.nationality
    case Employer => inv.employer
    case Inventorship => inv.inventorship
    case Address => inv.address
    case Phone => inv.phone
    case Email => inv.email
  }

  /** `inv[field] = value` on one inventor: that field reads `value`, every other is unchanged. */
  function InventorSet(inv: Inventor, f: InventorField, v: string): (r: Inventor)
    ensures InventorGet(r, f) == v
    ensures forall g :: g != f ==> InventorGet(r, g) == InventorGet(inv, g)
  {
    match f
    case Name => inv.(name := v)
    case Id => inv.(id := v)
    case Nationality => inv.(nationality := v)
    case Employer => inv.(employer := v)
    case Inventorship => inv.(inventorship := v)
    case Address => inv.(address := v)
    case Phone => inv.(phone := v)
    case Email => inv.(email := v)
  }

  /** The row InventorTable appends: every field the empty string. */
  const EmptyInventor := Inventor("", "", "", "", "", "", "", "")

  /** A row of one of the three citation tables, a plain object keyed by column name. Rows
      coming from the language model may lack columns; every reader falls back to "". */
  type Row = map<string, string>

  /** `row[col] || ''`. */
  function Cell(row: Row, col: string): string
  {
    if col in row then row[col] else ""
  }

  /** Column keys of PriorArtItem, DisclosureItem and PublicationPlan. */
  const PriorArtColumns: seq<string> := ["title", "authors", "published", "PublicationDate"]
  const DisclosureColumns: seq<string> := ["title", "authors", "published", "Date"]
  const PlanColumns: seq<string> := ["title", "authors", "disclosed", "Date"]

  /** keywords, components and results hold either one string or a list of strings. */
  datatype ListField = Text(s: string) | Items(items: seq<string>)

  /** Coercion of a comma-separated edit or answer into a list field:
      `value.split(',').map(v => v.trim())`. One entry per comma plus one, each trimmed and
      comma-free; empty entries are kept. */
  function CoerceList(value: string): (r: seq<string>)
    ensures |r| == JsString.Count(value, ',') + 1
    ensures forall i :: 0 <= i < |r| ==> JsString.IsTrimmed(r[i]) && ',' !in r[i]
  {
    var pieces := JsString.Split(value, ',');
    JsString.MapTrimKeepsAbsent(pieces, ',');
    JsString.MapTrim(pieces)
  }

  /** How a list field is shown in its editor and written into the PDF: a list is joined
      with ", ", a string is shown as it is. */
  function Display(l: ListField): string
  {
    match l
    case Text(s) => s
    case Items(xs) => JsString.Join(xs, ", ")
  }

  datatype Invention = Invention(
    description: string,
    keywords: ListField,
    background: string,
    problem: string,
    components: ListField,
    advantages: string,
    additionaldata: string,
    uploadedImages: seq<string>,
    results: ListField)

  datatype IdfData = IdfData(
    date: string,
    title: string,
    abstractText: string,  // the `abstract` key (a Dafny keyword)
    inventors: seq<Inventor>,
    invention: Invention,
    prior_art: seq<Row>,
    disclosure: seq<Row>,
    plans: seq<Row>)

  /** Every string empty and every list empty. */
  predicate IsBlank(d: IdfData)
  {
    && d.date == "" && d.title == "" && d.abstractText == ""
    && d.inventors == [] && d.prior_art == [] && d.disclosure == [] && d.plans == []
    && d.invention.description == "" && d.invention.background == ""
    && d.invention.problem == "" && d.invention.advantages == ""
    && d.invention.additionaldata == "" && d.invention.uploadedImages == []
    && d.invention.keywords == Items([]) && d.invention.components == Items([])
    && d.invention.results == Items([])
  }

  /** `defaultIDFData`, the document the editor starts from. */
  function DefaultIdfData(): (d: IdfData)
    ensures IsBlank(d)
  {
    IdfData("", "", "", [],
      Invention("", Items([]), "", "", Items([]), "", "", [], Items([])),
      [], [], [])
  }

  /** The invention fields that have an editor and a placeholder text: every Invention field
      except uploadedImages. */
  datatype InvField = Description | Keywords | Background | Problem | Components | Advantages
                    | AdditionalData | Results
  {
    /** The field's key in the Invention object. */
    function Name(): string
    {
      match this
      case Description => "description"
      case Keywords => "keywords"
      case Background => "background"
      case Problem => "problem"
      case Components => "components"
      case Advantages => "advantages"
      case AdditionalData => "additionaldata"
      case Results => "results"
    }

    /** The fields stored as a list after an edit (`fieldsToArray`). */
    predicate IsListField()
    {
      this == Keywords || this == Components || this == Results
    }
  }

  /** Keys of the Invention object, in declaration order. */
  const InventionKeys: seq<string> := ["description", "keywords", "background", "problem",
    "components", "advantages", "additionaldata", "uploadedImages", "results"]

  /** Keys of `placeholderText`. */
  const PlaceholderKeys: set<string> := {"description", "keywords", "background", "problem",
    "components", "advantages", "additionaldata", "results"}

  /** placeholderText has one key per editable invention field, and those are exactly the
      Invention keys other than uploadedImages. */
  lemma PlaceholderKeysAreEditableFields()
    ensures forall f: InvField :: f.Name() in PlaceholderKeys
    ensures forall k :: k in PlaceholderKeys ==> exists f: InvField :: f.Name() == k
    ensures PlaceholderKeys == set k | k in InventionKeys && k != "uploadedImages"
  {
    assert Description.Name() == "description" && Keywords.Name() == "keywords";
    assert Background.Name() == "background" && Problem.Name() == "problem";
    assert Components.Name() == "components" && Advantages.Name() == "advantages";
    assert AdditionalData.Name() == "additionaldata" && Results.Name() == "results";
  }

  /** The three citation tables. */
  datatype TableKey = PriorArt | Disclosure | Plans
  {
    function Name(): string
    {
      match this
      case PriorArt => "prior_art"
      case Disclosure => "disclosure"
      case Plans => "plans"
    }
  }

  /** What a single-field regeneration can target: the two top-level texts, a table, or an
      editable invention field. */
  datatype Field = Title | Abstract | Table(t: TableKey) | Inv(f: InvField)
  {
    /** The key the editor and the generation route use for the field. */
    function Name(): string
    {
      match this
      case Title => "title"
      case Abstract => "abstract"
      case Table(t) => t.Name()
      case Inv(f) => f.Name()
    }
  }

  /** `isTableSectionKey`. */
  predicate IsTableSectionKey(key: string)
  {
    key in ["prior_art", "disclosure", "plans"]
  }

  /** The table-section test holds exactly for the three citation tables. */
  lemma TableSectionKeyExactlyTables(f: Field)
    ensures IsTableSectionKey(f.Name()) <==> f.Table?
  {
    match f
    case Inv(g) => assert g.Name() in PlaceholderKeys by { PlaceholderKeysAreEditableFields(); }
    case _ =>
  }

  function TableOf(d: IdfData, t: TableKey): seq<Row>
  {
    match t
    case PriorArt => d.prior_art
    case Disclosure => d.disclosure
    case Plans => d.plans
  }

  /** Replaces one citation table; everything else stays. */
  function WithTable(d: IdfData, t: TableKey, rows: seq<Row>): (r: IdfData)
    ensures TableOf(r, t) == rows
    ensures forall u :: u != t ==> TableOf(r, u) == TableOf(d, u)
    ensures r.date == d.date && r.title == d.title && r.abstractText == d.abstractText
    ensures r.inventors == d.inventors && r.invention == d.invention
  {
    match t
    case PriorArt => d.(prior_art := rows)
    case Disclosure => d.(disclosure := rows)
    case Plans => d.(plans := rows)
  }

  /** The value of an editable invention field: a plain string or a list field. */
  datatype FieldValue = Plain(s: string) | Listed(l: ListField)

  function ValueOf(inv: Invention, f: InvField): FieldValue
  {
    match f
    case Description => Plain(inv.description)
    case Keywords => Listed(inv.keywords)
    case Background => Plain(inv.background)
    case Problem => Plain(inv.problem)
    case Components => Listed(inv.components)
    case Advantages => Plain(inv.advantages)
    case AdditionalData => Plain(inv.additionaldata)
    case Results => Listed(inv.results)
  }

  /** Two inventions agree on every field except `f` (uploadedImages included). */
  predicate SameExcept(a: Invention, b: Invention, f: InvField)
  {
    && a.uploadedImages == b.uploadedImages
    && forall g: InvField :: g != f ==> ValueOf(a, g) == ValueOf(b, g)
  }

  /** `updated[field] = value` on a copy, for a field stored as a string. */
  function SetPlain(inv: Invention, f: InvField, v: string): (r: Invention)
    requires !f.IsListField()
    ensures ValueOf(r, f) == Plain(v)
    ensures SameExcept(inv, r, f)
  {
    match f
    case Description => inv.(description := v)
    case Background => inv.(background := v)
    case Problem => inv.(problem := v)
    case Advantages => inv.(advantages := v)
    case AdditionalData => inv.(additionaldata := v)
  }

  /** `updated[field] = items` on a copy, for keywords, components or results. */
  function SetItems(inv: Invention, f: InvField, items: seq<string>): (r: Invention)
    requires f.IsListField()
    ensures ValueOf(r, f) == Listed(Items(items))
    ensures SameExcept(inv, r, f)
  {
    match f
    case Keywords => inv.(keywords := Items(items))
    case Components => inv.(components := Items(items))
    case Results => inv.(results := Items(items))
  }
}
