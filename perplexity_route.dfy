/**
 * The single-field generation route (POST /api/generate-perplexity): request validation,
 * the prompt-table lookup, and the post-processing of the model's answer. For the three
 * citation tables the answer is cut after the point where its bracket depth first returns
 * to zero, and every single quote is turned into a double quote.
 */
module PerplexityRoute {
  import opened Wrappers
  import Idf

  // ---------------------------------------------------------------------------------------
  // Bracket depth

  /** Depth change of one character: `[` opens, `]` closes, anything else is neutral. */
  function Step(c: char): int
  {
    if c == '[' then 1 else if c == ']' then -1 else 0
  }

  /** The value of `count` after the scan has read `s[..n]`: opening minus closing brackets.
      Brackets inside quoted strings count like any others. */
  function Depth(s: string, n: nat): int
    requires n <= |s|
  {
    if n == 0 then 0 else Depth(s, n - 1) + Step(s[n - 1])
  }

  /** The value of `count` once the scan has also read position `k`. */
  function DepthAfter(s: string, k: nat): int
    requires k < |s|
  {
    Depth(s, k + 1)
  }

  /** The first position `j >= from` after which the depth is zero, if any. */
  function FirstZeroFrom(s: string, from: nat): (r: Option<nat>)
    requires from <= |s|
    ensures r.Some? ==> from <= r.value < |s|
    decreases |s| - from
  {
    if from == |s| then None
    else if DepthAfter(s, from) == 0 then Some(from)
    else FirstZeroFrom(s, from + 1)
  }

  /** The position where the scan breaks, if it breaks. */
  function FirstZero(s: string): Option<nat>
  {
    FirstZeroFrom(s, 0)
  }

  /** Exactly characterises FirstZeroFrom: the least position from `from` on after which
      the depth is zero. */
  lemma {:induction false} FirstZeroFromSpec(s: string, from: nat, j: nat)
    requires from <= |s|
    ensures FirstZeroFrom(s, from) == Some(j) <==>
      from <= j < |s| && Depth(s, j + 1) == 0 &&
      forall k :: from <= k < j ==> DepthAfter(s, k) != 0
    decreases |s| - from
  {
    if from < |s| && Depth(s, from + 1) != 0 {
      FirstZeroFromSpec(s, from + 1, j);
    }
  }

  lemma {:induction false} FirstZeroFromNone(s: string, from: nat)
    requires from <= |s|
    ensures FirstZeroFrom(s, from) == None <==> forall k :: from <= k < |s| ==> DepthAfter(s, k) != 0
    decreases |s| - from
  {
    if from < |s| && Depth(s, from + 1) != 0 {
      FirstZeroFromNone(s, from + 1);
    }
  }

  /** `index != 0 ? result.slice(0, index + 1) : result`, where `index` is the break position
      (or stays 0 when the loop never breaks). */
  function KeptPrefix(s: string): string
  {
    match FirstZero(s)
    case Some(j) => if j != 0 then s[..j + 1] else s
    case None => s
  }

  /** `replace(/'/g, '"')`: every single quote becomes a double quote, nothing else changes. */
  function SwapQuotes(s: string): (r: string)
    ensures |r| == |s|
    ensures forall i :: 0 <= i < |s| ==> r[i] == if s[i] == '\'' then '"' else s[i]
  {
    if s == [] then [] else [if s[0] == '\'' then '"' else s[0]] + SwapQuotes(s[1..])
  }

  /** The cut-and-fix applied to answers for a citation table. */
  function FixTableAnswer(s: string): string
  {
    SwapQuotes(KeptPrefix(s))
  }

  /** The scan of the route: `count` tracks the depth, and the loop breaks at the first
      position after which it is zero, recording that position in `index`. */
  method ExtractTableSection(result: string) returns (fixed: string)
    ensures fixed == FixTableAnswer(result)
  {
    var index := 0;
    var count := 0;
    var j := 0;
    while j < |result|
      invariant 0 <= j <= |result|
      invariant count == Depth(result, j)
      invariant index == 0
      invariant FirstZero(result) == FirstZeroFrom(result, j)
    {
      if result[j] == '[' {
        count := count + 1;
      } else if result[j] == ']' {
        count := count - 1;
      }
      if count == 0 {
        index := j;
        break;
      }
      j := j + 1;
    }
    assert index != 0 ==> FirstZero(result) == Some(index);
    assert index == 0 ==> KeptPrefix(result) == result;
    var realResult := if index != 0 then result[..index + 1] else result;
    fixed := SwapQuotes(realResult);
  }

  // ---------------------------------------------------------------------------------------
  // Properties of the cut

  /** When the depth first returns to zero at a position j > 0, exactly `text[0..j]` is
      kept and everything after j is dropped. */
  lemma CutAtFirstBalance(s: string, j: nat)
    requires 0 < j < |s| && DepthAfter(s, j) == 0
    requires forall k :: 0 <= k < j ==> DepthAfter(s, k) != 0
    ensures FixTableAnswer(s) == SwapQuotes(s[..j + 1])
  {
    FirstZeroFromSpec(s, 0, j);
  }

  /** If the first character is not a bracket the depth is zero after it, `index` stays 0,
      and the whole text is kept, even when an array follows later. */
  lemma FirstCharNotBracketKeepsAll(s: string)
    requires |s| > 0 && s[0] != '[' && s[0] != ']'
    ensures FixTableAnswer(s) == SwapQuotes(s)
  {
    assert Depth(s, 1) == 0;
  }

  /** If the depth never returns to zero (unbalanced brackets, or empty text), the whole
      text is kept. */
  lemma NeverBalancedKeepsAll(s: string)
    requires forall k :: 0 <= k < |s| ==> DepthAfter(s, k) != 0
    ensures FixTableAnswer(s) == SwapQuotes(s)
  {
    FirstZeroFromNone(s, 0);
  }

  /** The table answer holds no single quote, is no longer than the model's text, and is the
      quote-swapped image of a prefix of it. */
  lemma FixedAnswerShape(s: string)
    ensures '\'' !in FixTableAnswer(s)
    ensures |FixTableAnswer(s)| <= |s|
    ensures exists m :: 0 <= m <= |s| && FixTableAnswer(s) == SwapQuotes(s[..m])
  {
    var r := FixTableAnswer(s);
    assert forall i :: 0 <= i < |r| ==> r[i] != '\'';
    match FirstZero(s)
    case Some(j) =>
      FirstZeroFromSpec(s, 0, j);
      if j != 0 {
        assert r == SwapQuotes(s[..j + 1]);
      } else {
        assert s[..|s|] == s;
      }
    case None =>
      assert s[..|s|] == s;
  }

  /** A top-level array: it opens with `[`, its depth stays positive until its last
      character, where it returns to zero. */
  predicate IsTopLevelArray(a: string)
  {
    && |a| > 0 && a[0] == '['
    && Depth(a, |a|) == 0
    && forall k :: 1 <= k < |a| ==> Depth(a, k) > 0
  }

  /** The depth over a prefix does not depend on what follows it. */
  lemma {:induction false} DepthOfPrefix(a: string, t: string, n: nat)
    requires n <= |a|
    ensures Depth(a + t, n) == Depth(a, n)
  {
    if n > 0 {
      DepthOfPrefix(a, t, n - 1);
      assert (a + t)[n - 1] == a[n - 1];
    }
  }

  /** A balanced top-level array followed by any trailing prose comes back as exactly the
      array, with its quotes swapped: nested arrays inside it do not end it early. */
  lemma ArrayThenProse(a: string, t: string)
    requires IsTopLevelArray(a)
    ensures FixTableAnswer(a + t) == SwapQuotes(a)
  {
    var s := a + t;
    var j := |a| - 1;
    DepthOfPrefix(a, t, |a|);
    assert Depth(a, 1) == 1;
    assert j > 0;
    forall k | 0 <= k < j ensures DepthAfter(s, k) != 0 {
      DepthOfPrefix(a, t, k + 1);
    }
    CutAtFirstBalance(s, j);
    assert s[..j + 1] == a;
  }

  /** `[[a],[b]] tail` yields `[[a],[b]]`. */
  lemma NestedArraysExample()
    ensures FixTableAnswer("[[a],[b]] tail") == "[[a],[b]]"
  {
    NestedIsTopLevel();
    ArrayThenProse("[[a],[b]]", " tail");
    NestedLiterals();
  }

  lemma NestedIsTopLevel()
    ensures IsTopLevelArray("[[a],[b]]")
  {
    var a := "[[a],[b]]";
    assert Depth(a, 1) == 1 && Depth(a, 2) == 2 && Depth(a, 3) == 2 && Depth(a, 4) == 1;
    assert Depth(a, 5) == 1 && Depth(a, 6) == 2 && Depth(a, 7) == 2 && Depth(a, 8) == 1;
    assert Depth(a, 9) == 0;
  }

  lemma NestedLiterals()
    ensures "[[a],[b]]" + " tail" == "[[a],[b]] tail"
    ensures SwapQuotes("[[a],[b]]") == "[[a],[b]]"
  {
  }

  /** Single-quoted values come back double-quoted. */
  lemma SingleQuotesExample()
    ensures FixTableAnswer("['A']") == "[\"A\"]"
  {
    QuotedIsTopLevel();
    ArrayThenProse("['A']", "");
    QuotedLiterals();
  }

  lemma QuotedIsTopLevel()
    ensures IsTopLevelArray("['A']")
  {
    var a := "['A']";
    assert Depth(a, 1) == 1 && Depth(a, 2) == 1 && Depth(a, 3) == 1 && Depth(a, 4) == 1;
    assert Depth(a, 5) == 0;
  }

  lemma QuotedLiterals()
    ensures "['A']" + "" == "['A']"
    ensures SwapQuotes("['A']") == "[\"A\"]"
  {
  }

  /** The scan does not know about quoted strings: a `]` inside a quoted value ends the
      array early, and what remains is not a complete array. */
  lemma BracketInQuotesCutsEarly()
    ensures FixTableAnswer("['a]b'] x") == "[\"a]"
  {
    EarlyCutDepths();
    CutAtFirstBalance("['a]b'] x", 3);
    EarlyCutLiterals();
  }

  lemma EarlyCutDepths()
    ensures var s := "['a]b'] x";
      DepthAfter(s, 3) == 0 && forall k :: 0 <= k < 3 ==> DepthAfter(s, k) != 0
  {
    var s := "['a]b'] x";
    assert Depth(s, 1) == 1 && Depth(s, 2) == 1 && Depth(s, 3) == 1 && Depth(s, 4) == 0;
  }

  lemma EarlyCutLiterals()
    ensures "['a]b'] x"[..4] == "['a]"
    ensures SwapQuotes("['a]") == "[\"a]"
  {
  }

  // ---------------------------------------------------------------------------------------
  // The prompt table

  /** `getValueFromObject`: the entry under `key`, or `undefined` (None) when the object has
      no such own key. */
  function GetValueFromObject(obj: map<string, string>, key: string): Option<string>
  {
    if key in obj then Some(obj[key]) else None
  }

  /** The keys of the route's instruction table. */
  const PromptKeys: set<string> := {"title", "abstract", "prior_art", "disclosure", "plans",
    "description", "keywords", "background", "problem", "components", "advantages",
    "additionaldata", "results"}

  /** Every field the editor can regenerate has an instruction; other document keys such as
      `date` or `inventors` look up `undefined`. */
  lemma PromptDefinedForEveryField(table: map<string, string>, f: Idf.Field)
    requires table.Keys == PromptKeys
    ensures GetValueFromObject(table, f.Name()) == Some(table[f.Name()])
    ensures GetValueFromObject(table, "date") == None
    ensures GetValueFromObject(table, "inventors") == None
  {
    match f
    case Table(t) =>
    case Inv(g) =>
      Idf.PlaceholderKeysAreEditableFields();
      assert g.Name() in Idf.PlaceholderKeys;
    case _ =>
  }

  // ---------------------------------------------------------------------------------------
  // The POST handler

  /** The JSON body of the request. A missing member is None. */
  datatype RequestBody = RequestBody(
    title: Option<string>, kind: Option<string>, basic: Option<string>, urls: Option<seq<string>>)

  datatype Body = Answer(result: string) | Failure(error: string)

  datatype Response = Response(status: int, body: Body)

  /** JavaScript truthiness of an optional string. */
  predicate Truthy(v: Option<string>)
  {
    v.Some? && v.value != ""
  }

  predicate IsTableType(kind: string)
  {
    kind == "prior_art" || kind == "disclosure" || kind == "plans"
  }

  /** What the route answers once the model has replied: table types are cut and fixed, all
      other types are passed through unchanged. */
  function RouteAnswer(kind: string, result: string): string
  {
    if IsTableType(kind) then FixTableAnswer(result) else result
  }

  /** The route's answers for citation tables are the fixed prefix of the model's text; for
      every other type they are the text itself. */
  lemma RouteAnswerShape(kind: string, result: string)
    ensures IsTableType(kind) ==> '\'' !in RouteAnswer(kind, result) && |RouteAnswer(kind, result)| <= |result|
    ensures !IsTableType(kind) ==> RouteAnswer(kind, result) == result
  {
    FixedAnswerShape(result);
  }

  /**
   * The POST handler. `body` is None when the request body is not JSON; `apiKey` is the
   * configured key; `upstream` is the model's message content, or None when the vendor call
   * fails. `called` reports whether the vendor was contacted.
   */
  method Post(body: Option<RequestBody>, apiKey: Option<string>, upstream: Option<string>)
    returns (response: Response, called: bool)
    ensures body.None? ==> !called && response == Response(500, Failure("Failed to generate with Perplexity"))
    ensures body.Some? && !(Truthy(body.value.title) && Truthy(body.value.kind) && Truthy(body.value.basic)) ==>
      !called && response == Response(400, Failure("Title, type, and basic data are required"))
    ensures body.Some? && Truthy(body.value.title) && Truthy(body.value.kind) && Truthy(body.value.basic) ==>
      if !Truthy(apiKey) then
        !called && response == Response(500, Failure("API key not configured"))
      else
        called &&
        if upstream.None? then response == Response(500, Failure("Failed to generate with Perplexity"))
        else response == Response(200, Answer(RouteAnswer(body.value.kind.value, upstream.value)))
  {
    called := false;
    if body.None? {
      return Response(500, Failure("Failed to generate with Perplexity")), false;
    }
    var req := body.value;
    if !Truthy(req.title) || !Truthy(req.kind) || !Truthy(req.basic) {
      return Response(400, Failure("Title, type, and basic data are required")), false;
    }
    if !Truthy(apiKey) {
      return Response(500, Failure("API key not configured")), false;
    }
    called := true;
    if upstream.None? {
      return Response(500, Failure("Failed to generate with Perplexity")), true;
    }
    var result := upstream.value;
    var kind := req.kind.value;
    if kind == "prior_art" || kind == "disclosure" || kind == "plans" {
      var fixed := ExtractTableSection(result);
      response := Response(200, Answer(fixed));
    } else {
      response := Response(200, Answer(result));
    }
  }
}
