/**
 * The prior-art picker: a list of candidate rows fetched from the single-field route, the
 * set of rows the user ticked, the source URLs with one error slot each, and the keyword
 * line sent along with the request.
 */
module RightPart {
  import opened Wrappers
  import opened Idf
  import JsString
  import SeqEdit

  /** The parent's message: which section the picker works for, its title, the current
      keywords of that section, and the rows picked so far (None until Done). */
  datatype Message = Message(title: string, item: string, current: Option<seq<string>>,
                             result: Option<seq<Row>>)

  /** What `getData` hands to the route wrapper. */
  datatype ArtsRequest = ArtsRequest(title: string, item: string, basic: string, urls: string)

  const InvalidUrl: string := "Invalid URL format."

  /** The URL list the picker starts with. */
  const InitialUrls: seq<string> :=
    ["http://www.uspto.gov/", "https://patents.google.com/", "https://worldwide.espacenet.com/"]

  /** `new Set(prev)` with `index` added if absent and removed if present. */
  function Toggle(s: set<int>, i: int): (r: set<int>)
    ensures i in r <==> i !in s
    ensures forall j :: j != i ==> (j in r <==> j in s)
  {
    if i in s then s - {i} else s + {i}
  }

  /** Ticking a row twice restores the selection. */
  lemma ToggleTwice(s: set<int>, i: int)
    ensures Toggle(Toggle(s, i), i) == s
  {
  }

  /** `text.filter((_, index) => selectedRows.has(index))`, as the scan it is: `from` is the
      index of `text[0]` in the full list. */
  function Pick(text: seq<Row>, sel: set<int>, from: nat): (r: seq<Row>)
    ensures |r| <= |text|
  {
    if text == [] then []
    else if from in sel then [text[0]] + Pick(text[1..], sel, from + 1)
    else Pick(text[1..], sel, from + 1)
  }

  /** The selected positions among `from .. from + n - 1`, in increasing order: a reference
      for what Pick keeps. */
  function PickedIndices(n: nat, sel: set<int>, from: nat): (r: seq<nat>)
    ensures forall k :: 0 <= k < |r| ==> from <= r[k] < from + n && r[k] in sel
    ensures forall k, m :: 0 <= k < m < |r| ==> r[k] < r[m]
    decreases n
  {
    if n == 0 then []
    else if from in sel then [from] + PickedIndices(n - 1, sel, from + 1)
    else PickedIndices(n - 1, sel, from + 1)
  }

  /** Every selected position in range is listed. */
  lemma {:induction false} PickedIndicesComplete(n: nat, sel: set<int>, from: nat, i: int)
    requires from <= i < from + n && i in sel
    ensures i in PickedIndices(n, sel, from)
    decreases n
  {
    if i != from {
      PickedIndicesComplete(n - 1, sel, from + 1, i);
    }
  }

  /** Pick keeps exactly the rows at the selected positions, in their original order: its
      k-th row is the row at the k-th selected position. */
  lemma {:induction false} PickIsSelectedRows(text: seq<Row>, sel: set<int>, from: nat)
    ensures |Pick(text, sel, from)| == |PickedIndices(|text|, sel, from)|
    ensures forall k :: 0 <= k < |PickedIndices(|text|, sel, from)| ==>
      Pick(text, sel, from)[k] == text[PickedIndices(|text|, sel, from)[k] - from]
  {
    if text != [] {
      var rest := text[1..];
      PickIsSelectedRows(rest, sel, from + 1);
      var p, idx := Pick(text, sel, from), PickedIndices(|text|, sel, from);
      var p', idx' := Pick(rest, sel, from + 1), PickedIndices(|rest|, sel, from + 1);
      if from in sel {
        assert p == [text[0]] + p' && idx == [from] + idx';
        forall k | 0 < k < |idx| ensures p[k] == text[idx[k] - from] {
          assert p[k] == p'[k - 1] && idx[k] == idx'[k - 1];
          assert rest[idx'[k - 1] - (from + 1)] == text[idx'[k - 1] - from];
        }
      } else {
        assert p == p' && idx == idx';
        forall k | 0 <= k < |idx| ensures p[k] == text[idx[k] - from] {
          assert rest[idx'[k] - (from + 1)] == text[idx'[k] - from];
        }
      }
    }
  }

  /** With no position ticked Done picks nothing. */
  lemma {:induction false} PickNone(text: seq<Row>, sel: set<int>, from: nat)
    requires forall i :: from <= i < from + |text| ==> i !in sel
    ensures Pick(text, sel, from) == []
  {
    if text != [] {
      PickNone(text[1..], sel, from + 1);
    }
  }

  /** With every position ticked Done picks the whole list. */
  lemma {:induction false} PickAll(text: seq<Row>, sel: set<int>, from: nat)
    requires forall i :: from <= i < from + |text| ==> i in sel
    ensures Pick(text, sel, from) == text
  {
    if text != [] {
      PickAll(text[1..], sel, from + 1);
      assert text == [text[0]] + text[1..];
    }
  }

  /** `formatKeywords`' pieces: split on ',', trim each, drop the empty ones. Every output
      piece is the trim of an input piece, and every non-blank input piece appears trimmed;
      KeywordPiecesAppend and KeywordPiecesOfOne add that the input order is kept. */
  function KeywordPieces(s: string): (r: seq<string>)
    ensures forall i :: 0 <= i < |r| ==>
      r[i] != "" && JsString.IsTrimmed(r[i]) && ',' !in r[i]
    ensures forall i :: 0 <= i < |r| ==>
      exists p :: p in JsString.Split(s, ',') && r[i] == JsString.Trim(p)
    ensures forall p :: p in JsString.Split(s, ',') && JsString.Trim(p) != "" ==> JsString.Trim(p) in r
  {
    KeywordPiecesShape(s);
    JsString.NonEmpty(JsString.MapTrim(JsString.Split(s, ',')))
  }

  lemma KeywordPiecesShape(s: string)
    ensures var r := JsString.NonEmpty(JsString.MapTrim(JsString.Split(s, ',')));
      && (forall i :: 0 <= i < |r| ==> r[i] != "" && JsString.IsTrimmed(r[i]) && ',' !in r[i])
      && (forall i :: 0 <= i < |r| ==> exists p :: p in JsString.Split(s, ',') && r[i] == JsString.Trim(p))
      && (forall p :: p in JsString.Split(s, ',') && JsString.Trim(p) != "" ==> JsString.Trim(p) in r)
  {
    var pieces := JsString.Split(s, ',');
    KeptPiecesComeFromInput(pieces);
    BlankFreePiecesAreKept(pieces);
  }

  /** Every kept piece is the trim of an input piece, and holds no comma when no input piece
      does. */
  lemma KeptPiecesComeFromInput(pieces: seq<string>)
    ensures var r := JsString.NonEmpty(JsString.MapTrim(pieces));
      forall i :: 0 <= i < |r| ==>
        && JsString.IsTrimmed(r[i])
        && (exists p :: p in pieces && r[i] == JsString.Trim(p))
        && ((forall k :: 0 <= k < |pieces| ==> ',' !in pieces[k]) ==> ',' !in r[i])
  {
    var trimmed := JsString.MapTrim(pieces);
    var r := JsString.NonEmpty(trimmed);
    forall i | 0 <= i < |r|
      ensures JsString.IsTrimmed(r[i])
      ensures exists p :: p in pieces && r[i] == JsString.Trim(p)
      ensures (forall k :: 0 <= k < |pieces| ==> ',' !in pieces[k]) ==> ',' !in r[i]
    {
      var j :| 0 <= j < |trimmed| && trimmed[j] == r[i];
      assert pieces[j] in pieces && r[i] == JsString.Trim(pieces[j]);
      if ',' !in pieces[j] {
        JsString.TrimKeepsAbsent(pieces[j], ',');
      }
    }
  }

  /** Every input piece that is not blank appears, trimmed, among the kept pieces. */
  lemma BlankFreePiecesAreKept(pieces: seq<string>)
    ensures forall p :: p in pieces && JsString.Trim(p) != "" ==>
      JsString.Trim(p) in JsString.NonEmpty(JsString.MapTrim(pieces))
  {
    var trimmed := JsString.MapTrim(pieces);
    forall p | p in pieces && JsString.Trim(p) != "" ensures JsString.Trim(p) in trimmed {
      var i :| 0 <= i < |pieces| && pieces[i] == p;
      assert trimmed[i] == JsString.Trim(p);
    }
  }

  /** The pieces of two comma-separated parts are the pieces of the first followed by the
      pieces of the second: the input order is kept. */
  lemma KeywordPiecesAppend(a: string, b: string)
    ensures KeywordPieces(a + [','] + b) == KeywordPieces(a) + KeywordPieces(b)
  {
    var x := JsString.Split(a, ',');
    var y := JsString.Split(b, ',');
    JsString.SplitAppend(a, ',', b);
    JsString.MapTrimAppend(x, y);
    JsString.NonEmptyAppend(JsString.MapTrim(x), JsString.MapTrim(y));
  }

  /** Text without a comma is one piece: its trim, dropped when blank. */
  lemma KeywordPiecesOfOne(a: string)
    requires ',' !in a
    ensures KeywordPieces(a) == if JsString.Trim(a) == "" then [] else [JsString.Trim(a)]
  {
    JsString.SplitWithoutSep(a, ',');
    assert JsString.MapTrim([a]) == [JsString.Trim(a)];
    JsString.NonEmptySingle(JsString.Trim(a));
  }

  /** `formatKeywords`: the non-empty trimmed pieces joined with ", ". */
  function FormatKeywords(s: string): string
  {
    JsString.Join(KeywordPieces(s), ", ")
  }

  /** Formatted keywords split back into the same pieces. */
  lemma FormatKeepsPieces(s: string)
    ensures KeywordPieces(FormatKeywords(s)) == KeywordPieces(s)
  {
    var parts := KeywordPieces(s);
    if |parts| == 0 {
      NoPiecesFormatsEmpty(s);
    } else {
      var f := FormatKeywords(s);
      assert f == JsString.Join(parts, ", ");
      JsString.SplitJoinRoundTrip(parts);
      JsString.MapTrimOfTrimmed(parts);
      assert JsString.MapTrim(JsString.Split(f, ',')) == parts;
      JsString.NonEmptyOfNonEmpty(parts);
    }
  }

  /** No pieces format as the empty line, which has no pieces either. */
  lemma NoPiecesFormatsEmpty(s: string)
    requires KeywordPieces(s) == []
    ensures FormatKeywords(s) == "" && KeywordPieces("") == []
  {
    JsString.EmptyListDoesNotRoundTrip();
    assert JsString.MapTrim(JsString.Split("", ',')) == [""];
    assert JsString.NonEmpty([""]) == [];
  }

  /** Formatting twice is formatting once. */
  lemma FormatIdempotent(s: string)
    ensures FormatKeywords(FormatKeywords(s)) == FormatKeywords(s)
  {
    FormatKeepsPieces(s);
  }

  /** The error a blurred, non-blank URL gets. */
  function UrlError(valid: bool): (r: string)
    ensures r == "" <==> valid
  {
    if valid then "" else InvalidUrl
  }

  class PriorArtPicker {
    var text: seq<Row>
    var loading: bool
    var selectedRows: set<int>
    var urls: seq<string>
    /** One slot per URL input, "" when there is nothing to show. JavaScript holes read as
        `undefined` and show nothing, so they are written "" too. */
    var urlErrors: seq<string>
    var keywords: string
    var message: Message
    /** Every value handed to `setLoading`, in order. */
    var loadingLog: seq<bool>
    /** Every request sent, in order. */
    var requests: seq<ArtsRequest>
    /** `isValidUrl`: parses as a URL with scheme http or https and a dotted host name. */
    const validUrl: string -> bool
    /** JSON.parse of the route's answer: the rows, or None when it throws. */
    const parse: string -> Option<seq<Row>>

    /** The picker's first render: three known patent sites, one error slot, nothing
        fetched or ticked, and the message's keywords (the mount effect). */
    constructor (message: Message, validUrl: string -> bool, parse: string -> Option<seq<Row>>)
      ensures text == [] && !loading && selectedRows == {}
      ensures urls == InitialUrls && urlErrors == [""]
      ensures this.message == message && keywords == KeywordsOf(message)
      ensures loadingLog == [] && requests == []
      ensures this.validUrl == validUrl && this.parse == parse
    {
      text := [];
      loading := false;
      selectedRows := {};
      urls := InitialUrls;
      urlErrors := [""];
      this.message := message;
      keywords := KeywordsOf(message);
      loadingLog := [];
      requests := [];
      this.validUrl := validUrl;
      this.parse := parse;
    }

    /** `message.current?.join(", ") || ""`. */
    static function KeywordsOf(m: Message): string
    {
      if m.current.Some? then JsString.Join(m.current.value, ", ") else ""
    }

    /** The effect run whenever the parent passes a new message: the keyword line is reset
        from it. */
    method OnMessage(m: Message)
      modifies this`message, this`keywords
      ensures message == m && keywords == KeywordsOf(m)
    {
      message := m;
      keywords := KeywordsOf(m);
    }

    /** `handleCheckboxChange(index)`. */
    method HandleCheckboxChange(index: int)
      modifies this`selectedRows
      ensures selectedRows == Toggle(old(selectedRows), index)
    {
      var newSelected := selectedRows;
      if index in newSelected {
        newSelected := newSelected - {index};
      } else {
        newSelected := newSelected + {index};
      }
      selectedRows := newSelected;
    }

    /** `handleDone()`: the ticked rows, in list order, become the message's result (the
        same for every section). */
    method HandleDone()
      modifies this`message
      ensures message == old(message).(result := Some(Pick(text, selectedRows, 0)))
    {
      var res := Pick(text, selectedRows, 0);
      message := message.(result := Some(res));
    }

    /** `handleAddUrl()`: one more empty URL and one more empty error slot. */
    method HandleAddUrl()
      modifies this`urls, this`urlErrors
      ensures urls == old(urls) + [""] && urlErrors == old(urlErrors) + [""]
    {
      urls := urls + [""];
      urlErrors := urlErrors + [""];
    }

    /** `handleUrlChange(index, value)`: `updatedUrls[index] = value` on a copy. */
    method HandleUrlChange(index: nat, value: string)
      modifies this`urls
      ensures urls == SeqEdit.AssignAt(old(urls), index, value, "")
    {
      urls := SeqEdit.AssignAt(urls, index, value, "");
    }

    /**
     * `handleUrlBlur(index)`: a blank URL is removed together with its error slot (which
     * may not exist: the error list can be shorter); any other URL stays and its slot gets
     * "" or the invalid-format message. An index past the URL list throws before any change.
     */
    method HandleUrlBlur(index: nat)
      modifies this`urls, this`urlErrors
      ensures index >= |old(urls)| ==> urls == old(urls) && urlErrors == old(urlErrors)
      ensures index < |old(urls)| && JsString.Trim(old(urls)[index]) == "" ==>
        urls == SeqEdit.RemoveAt(old(urls), index)
        && urlErrors == SeqEdit.RemoveAt(old(urlErrors), index)
      ensures index < |old(urls)| && JsString.Trim(old(urls)[index]) != "" ==>
        urls == old(urls)
        && urlErrors == SeqEdit.AssignAt(old(urlErrors), index, UrlError(validUrl(old(urls)[index])), "")
    {
      if index >= |urls| {
        return;
      }
      var updatedUrls := urls;
      var updatedErrors := urlErrors;
      if JsString.Trim(updatedUrls[index]) == "" {
        updatedUrls := SeqEdit.RemoveAt(updatedUrls, index);
        updatedErrors := SeqEdit.RemoveAt(updatedErrors, index);
      } else {
        if !validUrl(updatedUrls[index]) {
          updatedErrors := SeqEdit.AssignAt(updatedErrors, index, InvalidUrl, "");
        } else {
          updatedErrors := SeqEdit.AssignAt(updatedErrors, index, "", "");
        }
      }
      urls := updatedUrls;
      urlErrors := updatedErrors;
    }

    /** `handleKeywordsChange(value)`. */
    method HandleKeywordsChange(value: string)
      modifies this`keywords
      ensures keywords == value
    {
      keywords := value;
    }

    /** `formatKeywords()`. */
    method FormatKeywordsNow()
      modifies this`keywords
      ensures keywords == FormatKeywords(old(keywords))
    {
      keywords := FormatKeywords(keywords);
    }

    /** Whether every URL is empty or valid. */
    predicate AllValid()
      reads this
    {
      forall i :: 0 <= i < |urls| ==> urls[i] == "" || validUrl(urls[i])
    }

    /**
     * `handleGetArts()` followed by `getData()`: `answer` is what the route wrapper
     * returns, None when it throws. Nothing happens when a URL is neither empty nor valid,
     * or when the message already has a result. Otherwise `loading` is raised and lowered
     * around the request, and an answer that parses replaces the candidate rows.
     */
    method HandleGetArts(answer: Option<string>)
      modifies this`text, this`loading, this`loadingLog, this`requests
      ensures !old(AllValid()) || old(message).result.Some? ==>
        text == old(text) && loading == old(loading)
        && loadingLog == old(loadingLog) && requests == old(requests)
      ensures old(AllValid()) && old(message).result.None? ==>
        && loadingLog == old(loadingLog) + [true, false] && !loading
        && requests == old(requests) + [ArtsRequest(message.title, message.item, keywords,
                                                    JsString.Join(urls, ", "))]
        && text == if answer.Some? && parse(answer.value).Some? then parse(answer.value).value
                   else old(text)
    {
      var allValid := true;
      var i := 0;
      while i < |urls|
        invariant 0 <= i <= |urls|
        invariant allValid <==> forall j :: 0 <= j < i ==> urls[j] == "" || validUrl(urls[j])
      {
        allValid := allValid && (urls[i] == "" || validUrl(urls[i]));
        i := i + 1;
      }
      if !allValid {
        return;
      }
      if message.result.Some? {
        return;
      }
      loading := true;
      loadingLog := loadingLog + [true];
      requests := requests + [ArtsRequest(message.title, message.item, keywords, JsString.Join(urls, ", "))];
      if answer.Some? {
        var parsed := parse(answer.value);
        if parsed.Some? {
          text := parsed.value;
        }
      }
      loading := false;
      loadingLog := loadingLog + [false];
    }
  }

  /** After a blur on a URL that is not blank, its error slot is set exactly when the URL is
      not valid. */
  lemma BlurErrorIffInvalid(errors: seq<string>, index: nat, valid: bool)
    ensures var r := SeqEdit.AssignAt(errors, index, UrlError(valid), "");
      index < |r| && (r[index] != "" <==> !valid)
  {
  }
}
