/**
 * The PDF export: a vertical cursor walks down the page while labels, wrapped text blocks,
 * tables and image references are drawn, starting a new page at fixed thresholds. The
 * PDF library is an instruction log; the two values it computes (the lines a text wraps
 * into and the bottom of a drawn table) are functions supplied from outside.
 */
module Pdf {
  import opened Idf
  import JsString

  /** A table as handed to the table plugin: header row, body rows, top edge and the fixed
      column widths (none for the citation tables). */
  datatype TableSpec = TableSpec(head: seq<string>, body: seq<seq<string>>, startY: int, widths: seq<int>)

  /** One drawing step. TextLine is a single line at a font size; Label is a bold 12-point block
      label; Caption a bold 14-point table title; Lines a wrapped 10-point block. */
  datatype Instr =
    | NewPage
    | TextLine(s: string, y: int, size: nat)
    | Label(s: string, y: int)
    | Caption(s: string, y: int)
    | Lines(lines: seq<string>, y: int)
    | TableBlock(spec: TableSpec)

  /** What the library decides: the page height, `splitTextToSize(text, 180)`, and
      `lastAutoTable.finalY` after drawing a table. */
  datatype Env = Env(pageHeight: int, wrap: string -> seq<string>, tableBottom: TableSpec -> int)

  /** The instructions a drawing step adds and where the cursor ends. */
  datatype Out = Out(log: seq<Instr>, y: int)

  /** The Hebrew block, U+0590 to U+05FF. */
  predicate IsHebrewChar(c: char)
  {
    '֐' <= c <= '׿'
  }

  /** `/[֐-׿]/.test(text)`. */
  function IsHebrew(s: string): bool
  {
    if s == [] then false else IsHebrewChar(s[0]) || IsHebrew(s[1..])
  }

  /** The test succeeds exactly when some character of the text is in the Hebrew block. */
  lemma {:induction false} IsHebrewMeans(s: string)
    ensures IsHebrew(s) <==> exists i :: 0 <= i < |s| && IsHebrewChar(s[i])
  {
    if s != [] {
      IsHebrewMeans(s[1..]);
      assert forall i :: 1 <= i < |s| ==> s[i] == s[1..][i - 1];
      if IsHebrew(s[1..]) {
        var j :| 0 <= j < |s[1..]| && IsHebrewChar(s[1..][j]);
        assert IsHebrewChar(s[j + 1]);
      }
    }
  }

  /** `writeText`: Hebrew text at 12 points, anything else at 10. */
  function TextAt(s: string, y: int): Instr
  {
    TextLine(s, y, if IsHebrew(s) then 12 else 10)
  }

  /** `addMultiline(label, text, y)`. */
  function Multiline(env: Env, labelText: string, text: string, y: int): Out
  {
    var top := if y > env.pageHeight - 50 then 20 else y;
    var brk := if y > env.pageHeight - 50 then [NewPage] else [];
    if text != "" then
      var lines := env.wrap(text);
      Out(brk + [Label(labelText, top), Lines(lines, top + 8)], top + 8 + |lines| * 6 + 5)
    else
      Out(brk + [Label(labelText, top)], top + 8 + 5)
  }

  /** `addTable(title, head, body, y)`. */
  function TableOut(env: Env, title: string, head: seq<string>, body: seq<seq<string>>, y: int): Out
  {
    var top := if y > env.pageHeight - 100 then 20 else y;
    var brk := if y > env.pageHeight - 100 then [NewPage] else [];
    var cap := if title != "" then [Caption(title, top)] else [];
    var start := if title != "" then top + 10 else top;
    var spec := TableSpec(head, body, start, []);
    Out(brk + cap + [TableBlock(spec)], env.tableBottom(spec) + 15)
  }

  /** `path.split('/').pop()`: the text after the last '/', or the whole path when it has
      no '/'. */
  function LastSegment(path: string): (r: string)
    ensures '/' !in r
    ensures |r| <= |path| && r == path[|path| - |r|..]
    ensures |r| == |path| || path[|path| - |r| - 1] == '/'
  {
    var parts := JsString.Split(path, '/');
    var r := parts[|parts| - 1];
    if |parts| >= 2 then
      JsString.JoinLast(parts, "/");
      r
    else
      r
  }

  const UploadsPrefix: string := "/uploads/"

  /** The reference drawn for one image entry at `y`: nothing for a blank entry, a name
      line and a path line for an uploaded file, one line for anything else. */
  function ImageEntry(path: string, y: int): Out
  {
    var t := JsString.Trim(path);
    if t == "" then Out([], y)
    else if UploadsPrefix <= t then
      Out([TextLine("• Image: " + LastSegment(t), y, 10), TextLine("  Path: " + t, y + 8, 8)], y + 20)
    else
      Out([TextLine("• " + t, y, 10)], y + 8)
  }

  /** A loop that draws one step per element, each starting where the previous ended. */
  function Walk<T>(step: (T, int) -> Out, xs: seq<T>, y: int): Out
  {
    if xs == [] then Out([], y)
    else
      var prev := Walk(step, xs[..|xs| - 1], y);
      var e := step(xs[|xs| - 1], prev.y);
      Out(prev.log + e.log, e.y)
  }

  /** The loop over the first `i + 1` elements is the loop over the first `i` followed by one
      more step. */
  lemma WalkStep<T>(step: (T, int) -> Out, xs: seq<T>, i: nat, y: int)
    requires i < |xs|
    ensures Walk(step, xs[..i + 1], y) ==
      var prev := Walk(step, xs[..i], y);
      var e := step(xs[i], prev.y);
      Out(prev.log + e.log, e.y)
  {
    assert xs[..i + 1][..i] == xs[..i];
  }

  lemma AppendAssoc<T>(a: seq<T>, b: seq<T>, c: seq<T>)
    ensures a + (b + c) == a + b + c
  {
  }

  /** Running a loop over two lists one after the other is running it over their
      concatenation: steps keep their order. */
  lemma {:induction false} WalkAppend<T>(step: (T, int) -> Out, a: seq<T>, b: seq<T>, y: int)
    ensures Walk(step, a + b, y) ==
      var first := Walk(step, a, y);
      var second := Walk(step, b, first.y);
      Out(first.log + second.log, second.y)
    decreases |b|
  {
    if b == [] {
      assert a + b == a;
    } else {
      assert (a + b)[..|a + b| - 1] == a + b[..|b| - 1];
      WalkAppend(step, a, b[..|b| - 1], y);
    }
  }

  /** If no step moves the cursor up or by more than `k`, neither does the loop, beyond `k`
      per element. */
  lemma {:induction false} WalkBounds<T>(step: (T, int) -> Out, xs: seq<T>, y: int, k: nat)
    requires forall x, z :: z <= step(x, z).y <= z + k
    ensures y <= Walk(step, xs, y).y <= y + k * |xs|
  {
    if xs != [] {
      WalkBounds(step, xs[..|xs| - 1], y, k);
    }
  }

  /** `addImages(paths, y)`: the entries in order, each below the previous one. */
  function Images(paths: seq<string>, y: int): Out
  {
    Walk(ImageEntry, paths, y)
  }

  /** The cursor never moves up while image references are drawn, and moves by at most 20
      per entry. */
  lemma ImagesMonotone(paths: seq<string>, y: int)
    ensures y <= Images(paths, y).y <= y + 20 * |paths|
  {
    forall p, z ensures z <= ImageEntry(p, z).y <= z + 20 {
    }
    WalkBounds(ImageEntry, paths, y, 20);
  }

  /** Blank entries draw nothing and do not move the cursor. */
  lemma {:induction false} BlankImagesDrawNothing(paths: seq<string>, y: int)
    requires forall i :: 0 <= i < |paths| ==> JsString.Trim(paths[i]) == ""
    ensures Images(paths, y) == Out([], y)
  {
    if paths != [] {
      BlankImagesDrawNothing(paths[..|paths| - 1], y);
    }
  }

  /** Drawing a list in two parts is drawing it whole: entries keep their order. */
  lemma ImagesAppend(a: seq<string>, b: seq<string>, y: int)
    ensures Images(a + b, y) ==
      var first := Images(a, y);
      var second := Images(b, first.y);
      Out(first.log + second.log, second.y)
  {
    WalkAppend(ImageEntry, a, b, y);
  }

  /** The nine invention keys in drawing order; uploadedImages sits between additionaldata
      and results. */
  datatype PdfField = Key(f: InvField) | ImagesKey

  const FieldOrder: seq<PdfField> := [Key(Description), Key(Keywords), Key(Background),
    Key(Problem), Key(Components), Key(Advantages), Key(AdditionalData), ImagesKey,
    Key(Results)]

  /** `${field.toUpperCase()}:` for the generic label. */
  function GenericLabel(f: InvField): string
  {
    match f
    case Description => "DESCRIPTION:"
    case Keywords => "KEYWORDS:"
    case Background => "BACKGROUND:"
    case Problem => "PROBLEM:"
    case Components => "COMPONENTS:"
    case Advantages => "ADVANTAGES:"
    case AdditionalData => "ADDITIONALDATA:"
    case Results => "RESULTS:"
  }

  /** The text drawn for a field: a list joined with ", ", a string as it is. */
  function FieldText(inv: Invention, f: InvField): string
  {
    match ValueOf(inv, f)
    case Plain(s) => s
    case Listed(l) => Display(l)
  }

  /** One pass of the field loop. */
  function FieldOut(env: Env, inv: Invention, pf: PdfField, y: int): Out
  {
    match pf
    case ImagesKey =>
      if |inv.uploadedImages| > 0 then
        var head := Multiline(env, "UPLOADED IMAGES:", "", y);
        var refs := Images(inv.uploadedImages, head.y);
        Out(head.log + refs.log, refs.y)
      else Out([], y)
    case Key(f) =>
      var text := FieldText(inv, f);
      if f == AdditionalData && text != "" then Multiline(env, "ADDITIONAL DATA:", text, y)
      else Multiline(env, GenericLabel(f), text, y)
  }

  /** One pass of the field loop, as a step of the loop. */
  function FieldStep(env: Env, inv: Invention): (PdfField, int) -> Out
  {
    (pf, y) => FieldOut(env, inv, pf, y)
  }

  /** The field loop over `fields`, in order. */
  function FieldsOut(env: Env, inv: Invention, fields: seq<PdfField>, y: int): Out
  {
    Walk(FieldStep(env, inv), fields, y)
  }

  const InventorHead: seq<string> :=
    ["Name", "ID", "Nationality", "Employer", "% Inventorship", "Address", "Phone", "Email"]
  const InventorWidths: seq<int> := [30, 20, 25, 25, 20, 40, 20, 30]
  const PriorArtHead: seq<string> := ["Title", "Authors", "Published", "Publication Date"]
  const DisclosureHead: seq<string> := ["Title", "Authors", "Published", "Date"]
  const PlansHead: seq<string> := ["Title", "Authors", "Disclosed", "Date"]

  /** One table row per inventor, the eight fields in column order. */
  function InventorBody(inventors: seq<Inventor>): (r: seq<seq<string>>)
    ensures |r| == |inventors|
    ensures forall i :: 0 <= i < |r| ==> |r[i]| == 8 && r[i][0] == inventors[i].name
  {
    seq(|inventors|, i requires 0 <= i < |inventors| =>
      var p := inventors[i];
      [p.name, p.id, p.nationality, p.employer, p.inventorship, p.address, p.phone, p.email])
  }

  /** One table row per citation, `item[col] || ''` for each column. */
  function RowsBody(rows: seq<Row>, columns: seq<string>): (r: seq<seq<string>>)
    ensures |r| == |rows|
    ensures forall i :: 0 <= i < |r| ==> |r[i]| == |columns|
  {
    seq(|rows|, i requires 0 <= i < |rows| => seq(|columns|, j requires 0 <= j < |columns| => Cell(rows[i], columns[j])))
  }

  /** A citation section: drawn only when it has rows, a header line, then the table
      15 lower. */
  function SectionOut(env: Env, header: string, head: seq<string>, rows: seq<Row>, columns: seq<string>, y: int): Out
  {
    if |rows| > 0 then
      var t := TableOut(env, "", head, RowsBody(rows, columns), y + 15);
      Out([TextAt(header, y)] + t.log, t.y)
    else Out([], y)
  }

  /** The inventor table, drawn below its header at 105 on the first page. */
  function InventorTable(d: IdfData): TableSpec
  {
    TableSpec(InventorHead, InventorBody(d.inventors), 105, InventorWidths)
  }

  /** Date, title, the inventor header and the inventor table. */
  function Opening(d: IdfData): seq<Instr>
  {
    [TextAt("1. DATE: " + d.date, 60)] + [TextAt("2. TITLE: " + d.title, 75)]
      + [TextAt("3. INVENTOR DETAILS:", 90)] + [TableBlock(InventorTable(d))]
  }

  /** The abstract header at `y` and the abstract block 15 below it. */
  function AbstractBlock(env: Env, text: string, y: int): Out
  {
    var abs := Multiline(env, "", text, y + 15);
    Out([TextAt("4. ABSTRACT OF THE INVENTION:", y)] + abs.log, abs.y)
  }

  /** The invention header at `y` and the field loop 15 below it. */
  function InventionBlock(env: Env, inv: Invention, y: int): Out
  {
    var fields := FieldsOut(env, inv, FieldOrder, y + 15);
    Out([TextAt("5. THE INVENTION:", y)] + fields.log, fields.y)
  }

  /** Abstract and invention blocks, from `y` below the inventor table. */
  function Body(env: Env, d: IdfData, y: int): Out
  {
    var a := AbstractBlock(env, d.abstractText, y);
    var b := InventionBlock(env, d.invention, a.y);
    Out(a.log + b.log, b.y)
  }

  /** The three citation sections, in order. */
  function Sections(env: Env, d: IdfData, y: int): Out
  {
    var p := SectionOut(env, "6. PRIOR ART:", PriorArtHead, d.prior_art, PriorArtColumns, y);
    var q := SectionOut(env, "7. DISCLOSURE:", DisclosureHead, d.disclosure, DisclosureColumns, p.y);
    var r := SectionOut(env, "8. PUBLICATION PLANS:", PlansHead, d.plans, PlanColumns, q.y);
    Out(p.log + q.log + r.log, r.y)
  }

  /** What follows the inventor table when it ends at `y`: abstract, invention and the
      citation sections. */
  function AfterInventors(env: Env, d: IdfData, y: int): Out
  {
    var b := Body(env, d, y + 15);
    var s := Sections(env, d, b.y);
    Out(b.log + s.log, s.y)
  }

  /** Everything `continueGenerating` draws after the banner. */
  function Document(env: Env, d: IdfData): Out
  {
    var rest := AfterInventors(env, d, env.tableBottom(InventorTable(d)));
    Out(Opening(d) + rest.log, rest.y)
  }

  /** The heads of the tables in a log, in drawing order. */
  function Heads(log: seq<Instr>): seq<seq<string>>
  {
    if log == [] then []
    else (if log[0].TableBlock? then [log[0].spec.head] else []) + Heads(log[1..])
  }

  /** The block labels in a log, in drawing order. */
  function Labels(log: seq<Instr>): seq<string>
  {
    if log == [] then []
    else Labels(log[..|log| - 1]) + (if log[|log| - 1].Label? then [log[|log| - 1].s] else [])
  }

  lemma {:induction false} HeadsAppend(a: seq<Instr>, b: seq<Instr>)
    ensures Heads(a + b) == Heads(a) + Heads(b)
  {
    if a == [] {
      assert a + b == b;
    } else {
      assert (a + b)[1..] == a[1..] + b;
      HeadsAppend(a[1..], b);
    }
  }

  lemma {:induction false} LabelsAppend(a: seq<Instr>, b: seq<Instr>)
    ensures Labels(a + b) == Labels(a) + Labels(b)
    decreases |b|
  {
    if b == [] {
      assert a + b == a;
    } else {
      assert (a + b)[..|a + b| - 1] == a + b[..|b| - 1];
      LabelsAppend(a, b[..|b| - 1]);
    }
  }

  /** A log without tables. */
  predicate NoTables(log: seq<Instr>)
  {
    forall i :: 0 <= i < |log| ==> !log[i].TableBlock?
  }

  /** A log without block labels. */
  predicate NoLabels(log: seq<Instr>)
  {
    forall i :: 0 <= i < |log| ==> !log[i].Label?
  }

  lemma {:induction false} NoTablesNoHeads(log: seq<Instr>)
    requires NoTables(log)
    ensures Heads(log) == []
  {
    if log != [] {
      NoTablesNoHeads(log[1..]);
    }
  }

  lemma {:induction false} NoLabelsNoLabels(log: seq<Instr>)
    requires NoLabels(log)
    ensures Labels(log) == []
  {
    if log != [] {
      NoLabelsNoLabels(log[..|log| - 1]);
    }
  }

  /** A loop whose steps draw no table draws no table. */
  lemma {:induction false} WalkNoTables<T>(step: (T, int) -> Out, xs: seq<T>, y: int)
    requires forall x, z :: NoTables(step(x, z).log)
    ensures NoTables(Walk(step, xs, y).log)
  {
    if xs != [] {
      WalkNoTables(step, xs[..|xs| - 1], y);
    }
  }

  /** A loop whose steps draw no label draws no label. */
  lemma {:induction false} WalkNoLabels<T>(step: (T, int) -> Out, xs: seq<T>, y: int)
    requires forall x, z :: NoLabels(step(x, z).log)
    ensures NoLabels(Walk(step, xs, y).log)
  {
    if xs != [] {
      WalkNoLabels(step, xs[..|xs| - 1], y);
    }
  }

  /** `lab` of every element, concatenated in order. */
  function Concat<T>(lab: T -> seq<string>, xs: seq<T>): seq<string>
  {
    if xs == [] then [] else Concat(lab, xs[..|xs| - 1]) + lab(xs[|xs| - 1])
  }

  /** A loop whose step for `x` always draws the labels `lab(x)` draws them in order. */
  lemma {:induction false} WalkLabels<T>(step: (T, int) -> Out, lab: T -> seq<string>, xs: seq<T>, y: int)
    requires forall x, z :: Labels(step(x, z).log) == lab(x)
    ensures Labels(Walk(step, xs, y).log) == Concat(lab, xs)
  {
    if xs != [] {
      var prev := Walk(step, xs[..|xs| - 1], y);
      WalkLabels(step, lab, xs[..|xs| - 1], y);
      LabelsAppend(prev.log, step(xs[|xs| - 1], prev.y).log);
    }
  }

  /** One image reference draws text lines only. */
  lemma ImageEntryPlain(path: string, y: int)
    ensures NoTables(ImageEntry(path, y).log) && NoLabels(ImageEntry(path, y).log)
  {
    var log := ImageEntry(path, y).log;
    assert forall i :: 0 <= i < |log| ==> log[i].TextLine?;
  }

  lemma ImagesHaveNoTablesOrLabels(paths: seq<string>, y: int)
    ensures NoTables(Images(paths, y).log) && Labels(Images(paths, y).log) == []
  {
    forall p, z ensures NoTables(ImageEntry(p, z).log) && NoLabels(ImageEntry(p, z).log) {
      ImageEntryPlain(p, z);
    }
    WalkNoTables(ImageEntry, paths, y);
    WalkNoLabels(ImageEntry, paths, y);
    NoLabelsNoLabels(Images(paths, y).log);
  }

  /** The labels one field contributes: the generic label, "ADDITIONAL DATA:" for
      non-empty additionaldata, and "UPLOADED IMAGES:" only when there are images. */
  function FieldLabels(inv: Invention): PdfField -> seq<string>
  {
    (pf: PdfField) =>
      match pf
      case ImagesKey => if |inv.uploadedImages| > 0 then ["UPLOADED IMAGES:"] else []
      case Key(f) =>
        if f == AdditionalData && FieldText(inv, f) != "" then ["ADDITIONAL DATA:"] else [GenericLabel(f)]
  }

  lemma MultilineShape(env: Env, labelText: string, text: string, y: int)
    ensures NoTables(Multiline(env, labelText, text, y).log)
    ensures Labels(Multiline(env, labelText, text, y).log) == [labelText]
  {
    var o := Multiline(env, labelText, text, y);
    var n := |o.log|;
    if text != "" {
      assert o.log[..n - 1][..n - 2] == o.log[..n - 2];
      assert Labels(o.log[..n - 2]) == [];
    } else {
      assert Labels(o.log[..n - 1]) == [];
    }
  }

  lemma FieldOutShape(env: Env, inv: Invention, pf: PdfField, y: int)
    ensures NoTables(FieldOut(env, inv, pf, y).log)
    ensures Labels(FieldOut(env, inv, pf, y).log) == FieldLabels(inv)(pf)
  {
    match pf
    case ImagesKey =>
      if |inv.uploadedImages| > 0 {
        var head := Multiline(env, "UPLOADED IMAGES:", "", y);
        MultilineShape(env, "UPLOADED IMAGES:", "", y);
        ImagesHaveNoTablesOrLabels(inv.uploadedImages, head.y);
        LabelsAppend(head.log, Images(inv.uploadedImages, head.y).log);
      }
    case Key(f) =>
      var text := FieldText(inv, f);
      if f == AdditionalData && text != "" {
        MultilineShape(env, "ADDITIONAL DATA:", text, y);
      } else {
        MultilineShape(env, GenericLabel(f), text, y);
      }
  }

  /** The field loop draws no table, and its labels come field by field in loop order. */
  lemma FieldsOutShape(env: Env, inv: Invention, fields: seq<PdfField>, y: int)
    ensures NoTables(FieldsOut(env, inv, fields, y).log)
    ensures Labels(FieldsOut(env, inv, fields, y).log) == Concat(FieldLabels(inv), fields)
  {
    forall pf, z ensures NoTables(FieldStep(env, inv)(pf, z).log)
      && Labels(FieldStep(env, inv)(pf, z).log) == FieldLabels(inv)(pf) {
      FieldOutShape(env, inv, pf, z);
    }
    WalkNoTables(FieldStep(env, inv), fields, y);
    WalkLabels(FieldStep(env, inv), FieldLabels(inv), fields, y);
  }

  /** The invention block's labels: the seven text fields in the fixed order, additionaldata
      under "ADDITIONAL DATA:" when it has text and under the generic "ADDITIONALDATA:" when
      empty, and "UPLOADED IMAGES:" before results only when there are images. */
  lemma FieldLabelsInOrder(env: Env, inv: Invention, y: int)
    ensures Labels(FieldsOut(env, inv, FieldOrder, y).log) ==
      ["DESCRIPTION:"] + ["KEYWORDS:"] + ["BACKGROUND:"] + ["PROBLEM:"] + ["COMPONENTS:"] + ["ADVANTAGES:"]
      + (if inv.additionaldata != "" then ["ADDITIONAL DATA:"] else ["ADDITIONALDATA:"])
      + (if |inv.uploadedImages| > 0 then ["UPLOADED IMAGES:"] else [])
      + ["RESULTS:"]
  {
    FieldsOutShape(env, inv, FieldOrder, y);
    FieldOrderLabels(inv);
  }

  lemma FieldOrderLabels(inv: Invention)
    ensures Concat(FieldLabels(inv), FieldOrder) ==
      ["DESCRIPTION:"] + ["KEYWORDS:"] + ["BACKGROUND:"] + ["PROBLEM:"] + ["COMPONENTS:"] + ["ADVANTAGES:"]
      + (if inv.additionaldata != "" then ["ADDITIONAL DATA:"] else ["ADDITIONALDATA:"])
      + (if |inv.uploadedImages| > 0 then ["UPLOADED IMAGES:"] else [])
      + ["RESULTS:"]
  {
    var ls := [["DESCRIPTION:"], ["KEYWORDS:"], ["BACKGROUND:"], ["PROBLEM:"], ["COMPONENTS:"], ["ADVANTAGES:"],
      if inv.additionaldata != "" then ["ADDITIONAL DATA:"] else ["ADDITIONALDATA:"],
      if |inv.uploadedImages| > 0 then ["UPLOADED IMAGES:"] else [],
      ["RESULTS:"]];
    forall k | 0 <= k < 9 ensures FieldLabels(inv)(FieldOrder[k]) == ls[k] {
    }
    ConcatOfNine(FieldLabels(inv), FieldOrder, ls);
  }

  lemma ConcatOfNine<T>(lab: T -> seq<string>, xs: seq<T>, ls: seq<seq<string>>)
    requires |xs| == 9 && |ls| == 9
    requires forall k :: 0 <= k < 9 ==> lab(xs[k]) == ls[k]
    ensures Concat(lab, xs) == ls[0] + ls[1] + ls[2] + ls[3] + ls[4] + ls[5] + ls[6] + ls[7] + ls[8]
  {
    assert xs[..0] == [];
    ConcatStep(lab, xs, 0);
    assert Concat(lab, xs[..1]) == ls[0];
    ConcatStep(lab, xs, 1);
    assert Concat(lab, xs[..2]) == ls[0] + ls[1];
    ConcatStep(lab, xs, 2);
    assert Concat(lab, xs[..3]) == ls[0] + ls[1] + ls[2];
    ConcatStep(lab, xs, 3);
    assert Concat(lab, xs[..4]) == ls[0] + ls[1] + ls[2] + ls[3];
    ConcatStep(lab, xs, 4);
    assert Concat(lab, xs[..5]) == ls[0] + ls[1] + ls[2] + ls[3] + ls[4];
    ConcatStep(lab, xs, 5);
    assert Concat(lab, xs[..6]) == ls[0] + ls[1] + ls[2] + ls[3] + ls[4] + ls[5];
    ConcatStep(lab, xs, 6);
    assert Concat(lab, xs[..7]) == ls[0] + ls[1] + ls[2] + ls[3] + ls[4] + ls[5] + ls[6];
    ConcatStep(lab, xs, 7);
    assert Concat(lab, xs[..8]) == ls[0] + ls[1] + ls[2] + ls[3] + ls[4] + ls[5] + ls[6] + ls[7];
    ConcatStep(lab, xs, 8);
    assert Concat(lab, xs[..9]) == ls[0] + ls[1] + ls[2] + ls[3] + ls[4] + ls[5] + ls[6] + ls[7] + ls[8];
    assert xs[..9] == xs;
  }

  lemma ConcatStep<T>(lab: T -> seq<string>, xs: seq<T>, i: nat)
    requires i < |xs|
    ensures Concat(lab, xs[..i + 1]) == Concat(lab, xs[..i]) + lab(xs[i])
  {
    assert xs[..i + 1][..i] == xs[..i];
  }

  lemma SectionShape(env: Env, header: string, head: seq<string>, rows: seq<Row>, columns: seq<string>, y: int)
    ensures Heads(SectionOut(env, header, head, rows, columns, y).log) == if |rows| > 0 then [head] else []
  {
    if |rows| > 0 {
      var t := TableOut(env, "", head, RowsBody(rows, columns), y + 15);
      var n := |t.log|;
      assert t.log == t.log[..n - 1] + [t.log[n - 1]];
      NoTablesNoHeads(t.log[..n - 1]);
      HeadsAppend(t.log[..n - 1], [t.log[n - 1]]);
      assert [t.log[n - 1]][1..] == [];
      HeadsAppend([TextAt(header, y)], t.log);
    }
  }

  /** The heads of the citation tables that have rows, in section order. */
  function CitationHeads(d: IdfData): seq<seq<string>>
  {
    (if |d.prior_art| > 0 then [PriorArtHead] else [])
    + (if |d.disclosure| > 0 then [DisclosureHead] else [])
    + (if |d.plans| > 0 then [PlansHead] else [])
  }

  /** The tables of the document, in order: the inventor table always (even with no
      inventors), then prior art, disclosure and publication plans, each exactly when it has
      rows. */
  lemma DocumentTables(env: Env, d: IdfData)
    ensures Heads(Document(env, d).log) == [InventorHead] + CitationHeads(d)
  {
    var rest := AfterInventors(env, d, env.tableBottom(InventorTable(d)));
    AfterInventorsTables(env, d, env.tableBottom(InventorTable(d)));
    OpeningTables(d);
    HeadsAppend(Opening(d), rest.log);
  }

  lemma AfterInventorsTables(env: Env, d: IdfData, y: int)
    ensures Heads(AfterInventors(env, d, y).log) == CitationHeads(d)
  {
    var b := Body(env, d, y + 15);
    BodyHasNoTables(env, d, y + 15);
    SectionsTables(env, d, b.y);
    HeadsAppend(b.log, Sections(env, d, b.y).log);
  }

  lemma OpeningTables(d: IdfData)
    ensures Heads(Opening(d)) == [InventorHead]
  {
    var a, b, c := [TextAt("1. DATE: " + d.date, 60)], [TextAt("2. TITLE: " + d.title, 75)],
      [TextAt("3. INVENTOR DETAILS:", 90)];
    var t := [TableBlock(InventorTable(d))];
    HeadsAppend(a + b + c, t);
    HeadsAppend(a + b, c);
    HeadsAppend(a, b);
    assert a[1..] == [] && b[1..] == [] && c[1..] == [] && t[1..] == [];
  }

  lemma BodyHasNoTables(env: Env, d: IdfData, y: int)
    ensures Heads(Body(env, d, y).log) == []
  {
    var a := AbstractBlock(env, d.abstractText, y);
    var b := InventionBlock(env, d.invention, a.y);
    AbstractHasNoTables(env, d.abstractText, y);
    InventionHasNoTables(env, d.invention, a.y);
    HeadsAppend(a.log, b.log);
  }

  lemma AbstractHasNoTables(env: Env, text: string, y: int)
    ensures Heads(AbstractBlock(env, text, y).log) == []
  {
    var abs := Multiline(env, "", text, y + 15);
    MultilineShape(env, "", text, y + 15);
    NoTablesNoHeads(abs.log);
    HeadsAppend([TextAt("4. ABSTRACT OF THE INVENTION:", y)], abs.log);
  }

  lemma InventionHasNoTables(env: Env, inv: Invention, y: int)
    ensures Heads(InventionBlock(env, inv, y).log) == []
  {
    var f := FieldsOut(env, inv, FieldOrder, y + 15);
    FieldsOutShape(env, inv, FieldOrder, y + 15);
    NoTablesNoHeads(f.log);
    HeadsAppend([TextAt("5. THE INVENTION:", y)], f.log);
  }

  lemma SectionsTables(env: Env, d: IdfData, y: int)
    ensures Heads(Sections(env, d, y).log) == CitationHeads(d)
  {
    var p := SectionOut(env, "6. PRIOR ART:", PriorArtHead, d.prior_art, PriorArtColumns, y);
    var q := SectionOut(env, "7. DISCLOSURE:", DisclosureHead, d.disclosure, DisclosureColumns, p.y);
    var r := SectionOut(env, "8. PUBLICATION PLANS:", PlansHead, d.plans, PlanColumns, q.y);
    SectionShape(env, "6. PRIOR ART:", PriorArtHead, d.prior_art, PriorArtColumns, y);
    SectionShape(env, "7. DISCLOSURE:", DisclosureHead, d.disclosure, DisclosureColumns, p.y);
    SectionShape(env, "8. PUBLICATION PLANS:", PlansHead, d.plans, PlanColumns, q.y);
    HeadsAppend(p.log + q.log, r.log);
    HeadsAppend(p.log, q.log);
  }

  /** A wrapped block is placed by looking at the cursor only: at the threshold itself no
      page is started, so a block of seven lines or more ends below the bottom of the page. */
  lemma MultilineCanOverflow(env: Env, text: string)
    requires text != "" && |env.wrap(text)| >= 7
    ensures var o := Multiline(env, "", text, env.pageHeight - 50);
      NewPage !in o.log && o.y > env.pageHeight
  {
  }

  /** A block placed on the current page ends at least 13 below where it starts; after a
      page break it starts at 20. */
  lemma MultilineAdvance(env: Env, labelText: string, text: string, y: int)
    ensures var o := Multiline(env, labelText, text, y);
      && (y <= env.pageHeight - 50 ==> NewPage !in o.log && o.y >= y + 13 && o.log[0] == Label(labelText, y))
      && (y > env.pageHeight - 50 ==> o.log[0] == NewPage && o.log[1] == Label(labelText, 20))
  {
  }

  /** A table starting low on the page moves to a new page at 20; its end is the library's
      bottom plus 15 either way. */
  lemma TableBreak(env: Env, head: seq<string>, body: seq<seq<string>>, y: int)
    ensures var o := TableOut(env, "", head, body, y);
      && (y > env.pageHeight - 100 ==> o.log == [NewPage, TableBlock(TableSpec(head, body, 20, []))])
      && (y <= env.pageHeight - 100 ==> o.log == [TableBlock(TableSpec(head, body, y, []))])
      && o.y == env.tableBottom(o.log[|o.log| - 1].spec) + 15
  {
  }

  /** A section header is written at the cursor with no page-break check, even below the
      bottom of the page. */
  lemma SectionHeaderNeverBreaks(env: Env, header: string, head: seq<string>, rows: seq<Row>, columns: seq<string>, y: int)
    requires |rows| > 0
    ensures SectionOut(env, header, head, rows, columns, y).log[0] == TextAt(header, y)
  {
  }

  class PdfDoc {
    /** Every drawing step so far. */
    var log: seq<Instr>
    const env: Env

    constructor (env: Env)
      ensures log == [] && this.env == env
    {
      log := [];
      this.env := env;
    }

    /** `writeText(text, 15, y)`. */
    method WriteText(text: string, y: int)
      modifies this`log
      ensures log == old(log) + [TextAt(text, y)]
    {
      if IsHebrew(text) {
        log := log + [TextLine(text, y, 12)];
      } else {
        log := log + [TextLine(text, y, 10)];
      }
    }

    /** `addMultiline(labelText, text, currentY)`. */
    method AddMultiline(labelText: string, text: string, currentY: int) returns (y: int)
      modifies this`log
      ensures log == old(log) + Multiline(env, labelText, text, currentY).log
      ensures y == Multiline(env, labelText, text, currentY).y
    {
      y := currentY;
      if y > env.pageHeight - 50 {
        log := log + [NewPage];
        y := 20;
      }
      log := log + [Label(labelText, y)];
      y := y + 8;
      if text != "" {
        var lines := env.wrap(text);
        log := log + [Lines(lines, y)];
        y := y + |lines| * 6 + 5;
      } else {
        y := y + 5;
      }
    }

    /** `addTable(title, head, body, currentY)`. */
    method AddTable(title: string, head: seq<string>, body: seq<seq<string>>, currentY: int) returns (y: int)
      modifies this`log
      ensures log == old(log) + TableOut(env, title, head, body, currentY).log
      ensures y == TableOut(env, title, head, body, currentY).y
    {
      y := currentY;
      if y > env.pageHeight - 100 {
        log := log + [NewPage];
        y := 20;
      }
      if title != "" {
        log := log + [Caption(title, y)];
        y := y + 10;
      }
      var spec := TableSpec(head, body, y, []);
      log := log + [TableBlock(spec)];
      y := env.tableBottom(spec) + 15;
    }

    /** `addImages(paths, currentY)`. */
    method AddImages(paths: seq<string>, currentY: int) returns (y: int)
      modifies this`log
      ensures log == old(log) + Images(paths, currentY).log
      ensures y == Images(paths, currentY).y
    {
      y := currentY;
      for i := 0 to |paths|
        invariant log == old(log) + Images(paths[..i], currentY).log
        invariant y == Images(paths[..i], currentY).y
      {
        WalkStep(ImageEntry, paths, i, currentY);
        AppendAssoc(old(log), Images(paths[..i], currentY).log, ImageEntry(paths[i], y).log);
        y := AddImageEntry(paths[i], y);
      }
      assert paths[..|paths|] == paths;
    }

    /** The body of the loop in `addImages`: a blank entry is skipped (`continue`). */
    method AddImageEntry(entry: string, currentY: int) returns (y: int)
      modifies this`log
      ensures log == old(log) + ImageEntry(entry, currentY).log
      ensures y == ImageEntry(entry, currentY).y
    {
      y := currentY;
      var path := JsString.Trim(entry);
      if path == "" {
        return;
      }
      if UploadsPrefix <= path {
        log := log + [TextLine("• Image: " + LastSegment(path), y, 10)];
        y := y + 8;
        log := log + [TextLine("  Path: " + path, y, 8)];
        y := y + 12;
      } else {
        log := log + [TextLine("• " + path, y, 10)];
        y := y + 8;
      }
    }

    /** The invention block's loop over the nine keys. */
    method AddFields(inv: Invention, currentY: int) returns (y: int)
      modifies this`log
      ensures log == old(log) + FieldsOut(env, inv, FieldOrder, currentY).log
      ensures y == FieldsOut(env, inv, FieldOrder, currentY).y
    {
      y := currentY;
      for i := 0 to |FieldOrder|
        invariant log == old(log) + FieldsOut(env, inv, FieldOrder[..i], currentY).log
        invariant y == FieldsOut(env, inv, FieldOrder[..i], currentY).y
      {
        WalkStep(FieldStep(env, inv), FieldOrder, i, currentY);
        AppendAssoc(old(log), FieldsOut(env, inv, FieldOrder[..i], currentY).log, FieldOut(env, inv, FieldOrder[i], y).log);
        match FieldOrder[i]
        case ImagesKey =>
          if |inv.uploadedImages| > 0 {
            ghost var before := log;
            y := AddMultiline("UPLOADED IMAGES:", "", y);
            y := AddImages(inv.uploadedImages, y);
            AppendAssoc(before, Multiline(env, "UPLOADED IMAGES:", "", FieldsOut(env, inv, FieldOrder[..i], currentY).y).log,
              Images(inv.uploadedImages, Multiline(env, "UPLOADED IMAGES:", "", FieldsOut(env, inv, FieldOrder[..i], currentY).y).y).log);
          }
        case Key(f) =>
          var text := FieldText(inv, f);
          if f == AdditionalData && text != "" {
            y := AddMultiline("ADDITIONAL DATA:", text, y);
          } else {
            y := AddMultiline(GenericLabel(f), text, y);
          }
      }
      assert FieldOrder[..|FieldOrder|] == FieldOrder;
    }

    /** One citation section. */
    method AddSection(header: string, head: seq<string>, rows: seq<Row>, columns: seq<string>, currentY: int)
      returns (y: int)
      modifies this`log
      ensures log == old(log) + SectionOut(env, header, head, rows, columns, currentY).log
      ensures y == SectionOut(env, header, head, rows, columns, currentY).y
    {
      y := currentY;
      if |rows| > 0 {
        WriteText(header, y);
        y := y + 15;
        y := AddTable("", head, RowsBody(rows, columns), y);
      }
    }

    /** `continueGenerating()` after the banner: the cursor starts at 60. */
    method ContinueGenerating(d: IdfData) returns (y: int)
      modifies this`log
      ensures log == old(log) + Document(env, d).log
      ensures y == Document(env, d).y
    {
      y := AddOpening(d);
      ghost var afterOpening := log;
      y := AddBody(d, y);
      ghost var afterBody := log;
      y := AddSections(d, y);
      ghost var b := Body(env, d, env.tableBottom(InventorTable(d)) + 15);
      AppendAssoc(afterOpening, b.log, Sections(env, d, b.y).log);
      AppendAssoc(old(log), Opening(d), AfterInventors(env, d, env.tableBottom(InventorTable(d))).log);
    }

    /** Date, title, the inventor header and the inventor table; the cursor ends 15 below
        the table. */
    method AddOpening(d: IdfData) returns (y: int)
      modifies this`log
      ensures log == old(log) + Opening(d)
      ensures y == env.tableBottom(InventorTable(d)) + 15
    {
      y := 60;
      WriteText("1. DATE: " + d.date, y);
      y := y + 15;
      WriteText("2. TITLE: " + d.title, y);
      y := y + 15;
      WriteText("3. INVENTOR DETAILS:", y);
      y := y + 15;
      var inventors := TableSpec(InventorHead, InventorBody(d.inventors), y, InventorWidths);
      log := log + [TableBlock(inventors)];
      y := env.tableBottom(inventors) + 15;
      ghost var a, b, c := [TextAt("1. DATE: " + d.date, 60)], [TextAt("2. TITLE: " + d.title, 75)],
        [TextAt("3. INVENTOR DETAILS:", 90)];
      AppendAssoc(old(log), a, b);
      AppendAssoc(old(log), a + b, c);
      AppendAssoc(old(log), a + b + c, [TableBlock(inventors)]);
    }

    /** The abstract and the invention blocks. */
    method AddBody(d: IdfData, currentY: int) returns (y: int)
      modifies this`log
      ensures log == old(log) + Body(env, d, currentY).log
      ensures y == Body(env, d, currentY).y
    {
      y := AddAbstract(d.abstractText, currentY);
      ghost var afterAbstract := log;
      y := AddInvention(d.invention, y);
      AppendAssoc(old(log), AbstractBlock(env, d.abstractText, currentY).log,
        InventionBlock(env, d.invention, AbstractBlock(env, d.abstractText, currentY).y).log);
    }

    /** The abstract header and the abstract. */
    method AddAbstract(text: string, currentY: int) returns (y: int)
      modifies this`log
      ensures log == old(log) + AbstractBlock(env, text, currentY).log
      ensures y == AbstractBlock(env, text, currentY).y
    {
      y := currentY;
      WriteText("4. ABSTRACT OF THE INVENTION:", y);
      y := y + 15;
      y := AddMultiline("", text, y);
      AppendAssoc(old(log), [TextAt("4. ABSTRACT OF THE INVENTION:", currentY)],
        Multiline(env, "", text, currentY + 15).log);
    }

    /** The invention header and the field loop. */
    method AddInvention(inv: Invention, currentY: int) returns (y: int)
      modifies this`log
      ensures log == old(log) + InventionBlock(env, inv, currentY).log
      ensures y == InventionBlock(env, inv, currentY).y
    {
      y := currentY;
      WriteText("5. THE INVENTION:", y);
      y := y + 15;
      y := AddFields(inv, y);
      AppendAssoc(old(log), [TextAt("5. THE INVENTION:", currentY)],
        FieldsOut(env, inv, FieldOrder, currentY + 15).log);
    }

    /** The three citation sections. */
    method AddSections(d: IdfData, currentY: int) returns (y: int)
      modifies this`log
      ensures log == old(log) + Sections(env, d, currentY).log
      ensures y == Sections(env, d, currentY).y
    {
      y := AddSection("6. PRIOR ART:", PriorArtHead, d.prior_art, PriorArtColumns, currentY);
      ghost var p := SectionOut(env, "6. PRIOR ART:", PriorArtHead, d.prior_art, PriorArtColumns, currentY);
      y := AddSection("7. DISCLOSURE:", DisclosureHead, d.disclosure, DisclosureColumns, y);
      ghost var q := SectionOut(env, "7. DISCLOSURE:", DisclosureHead, d.disclosure, DisclosureColumns, p.y);
      AppendAssoc(old(log), p.log, q.log);
      ghost var before := log;
      y := AddSection("8. PUBLICATION PLANS:", PlansHead, d.plans, PlanColumns, y);
      ghost var r := SectionOut(env, "8. PUBLICATION PLANS:", PlansHead, d.plans, PlanColumns, q.y);
      AppendAssoc(old(log), p.log + q.log, r.log);
    }
  }
}
