/**
 * The three String.prototype operations the editor relies on, with JavaScript's semantics:
 * `trim()` (strips ECMAScript WhiteSpace and LineTerminator characters at both ends),
 * `split(sep)` for a one-character separator (always at least one piece; empty pieces kept)
 * and `Array.prototype.join(sep)`.
 */
module JsString {

  /** The characters `trim()` removes: WhiteSpace (TAB, VT, FF, SP, NBSP, ZWNBSP, category Zs)
      and LineTerminator (LF, CR, LS, PS). */
  predicate IsSpace(c: char) {
    || c == '\t' || c == '\n' || c == '\U{000B}' || c == '\U{000C}' || c == '\r' || c == ' '
    || c == '\U{00A0}' || c == '\U{1680}' || ('\U{2000}' <= c <= '\U{200A}')
    || c == '\U{2028}' || c == '\U{2029}' || c == '\U{202F}' || c == '\U{205F}'
    || c == '\U{3000}' || c == '\U{FEFF}'
  }

  /** A string `trim()` leaves alone: no space at either end. */
  predicate IsTrimmed(s: string) {
    s == [] || (!IsSpace(s[0]) && !IsSpace(s[|s| - 1]))
  }

  predicate AllSpace(s: string) {
    forall i :: 0 <= i < |s| ==> IsSpace(s[i])
  }

  /** Number of leading spaces: exactly the maximal all-space prefix. */
  function LeadCount(s: string): (n: nat)
    ensures n <= |s|
    ensures AllSpace(s[..n])
    ensures n == |s| || !IsSpace(s[n])
  {
    if s == [] || !IsSpace(s[0]) then 0
    else
      var k := LeadCount(s[1..]);
      assert s[..k + 1] == [s[0]] + s[1..][..k];
      k + 1
  }

  /** Number of trailing spaces: exactly the maximal all-space suffix. */
  function TrailCount(s: string): (n: nat)
    ensures n <= |s|
    ensures AllSpace(s[|s| - n..])
    ensures n == |s| || !IsSpace(s[|s| - n - 1])
  {
    if s == [] || !IsSpace(s[|s| - 1]) then 0
    else
      var init := s[..|s| - 1];
      var k := TrailCount(init);
      assert s[|s| - (k + 1)..] == init[|init| - k..] + [s[|s| - 1]];
      k + 1
  }

  /** `r` is `s` with an all-space run of `a` characters cut at the front and one of `b`
      characters cut at the back. */
  predicate IsCore(s: string, a: int, b: int, r: string) {
    0 <= a && 0 <= b && a + b <= |s| && AllSpace(s[..a]) && AllSpace(s[|s| - b..])
    && r == s[a..|s| - b]
  }

  /** `s.trim()`: the slice of `s` between its leading and its trailing run of spaces. The
      result is `s` with space runs cut at both ends and no space left at either end, which
      fixes it uniquely. */
  function Trim(s: string): (r: string)
    ensures IsTrimmed(r)
    ensures |r| <= |s|
    ensures r == [] <==> AllSpace(s)
    ensures exists a, b :: IsCore(s, a, b, r)
  {
    var a := LeadCount(s);
    var t := s[a..];
    var b := TrailCount(t);
    assert t[..|t| - b] == s[a..|s| - b];
    assert s[|s| - b..] == t[|t| - b..];
    assert IsCore(s, a, b, t[..|t| - b]);
    assert AllSpace(s) ==> a == |s|;
    assert a < |s| ==> !IsSpace(t[0]) && b < |t|;
    t[..|t| - b]
  }

  /** Trimming only removes characters: a character absent from `s` is absent from its trim. */
  lemma TrimKeepsAbsent(s: string, c: char)
    requires c !in s
    ensures c !in Trim(s)
  {
    var a := LeadCount(s);
    var t := s[a..];
    assert forall x :: x in t ==> x in s;
  }

  /** Trimming every piece keeps a character out of all of them. */
  lemma MapTrimKeepsAbsent(parts: seq<string>, c: char)
    requires forall i :: 0 <= i < |parts| ==> c !in parts[i]
    ensures forall i :: 0 <= i < |parts| ==> c !in MapTrim(parts)[i]
  {
    forall i | 0 <= i < |parts| ensures c !in MapTrim(parts)[i] {
      TrimKeepsAbsent(parts[i], c);
    }
  }

  /** Trimming a string that is already trimmed changes nothing; in particular trim is idempotent. */
  lemma {:induction false} TrimOfTrimmed(s: string)
    requires IsTrimmed(s)
    ensures Trim(s) == s
  {
    if s != [] {
      assert LeadCount(s) == 0;
      assert TrailCount(s) == 0;
    }
  }

  lemma TrimIdempotent(s: string)
    ensures Trim(Trim(s)) == Trim(s)
  {
    TrimOfTrimmed(Trim(s));
  }

  /** A leading space never survives trimming. */
  lemma {:induction false} TrimDropsLeadingSpace(c: char, s: string)
    requires IsSpace(c)
    ensures Trim([c] + s) == Trim(s)
  {
    var cs := [c] + s;
    assert cs[1..] == s;
    assert LeadCount(cs) == LeadCount(s) + 1;
    assert cs[LeadCount(cs)..] == s[LeadCount(s)..];
  }

  /** Number of occurrences of `c` in `s`. */
  function Count(s: string, c: char): nat
  {
    if s == [] then 0 else (if s[0] == c then 1 else 0) + Count(s[1..], c)
  }

  /** `parts.join(sep)`. */
  function Join(parts: seq<string>, sep: string): string
  {
    if |parts| == 0 then ""
    else if |parts| == 1 then parts[0]
    else parts[0] + sep + Join(parts[1..], sep)
  }

  /** `s.split(sep)` for a one-character separator: one piece more than there are separators,
      no piece contains the separator, and joining the pieces back gives `s`. */
  function Split(s: string, sep: char): (r: seq<string>)
    ensures |r| == Count(s, sep) + 1
    ensures forall i :: 0 <= i < |r| ==> sep !in r[i]
    ensures Join(r, [sep]) == s
  {
    if s == [] then [""]
    else
      var rest := Split(s[1..], sep);
      if s[0] == sep then
        assert s == [sep] + s[1..];
        [""] + rest
      else
        var r := [[s[0]] + rest[0]] + rest[1..];
        assert Join(r, [sep]) == [s[0]] + Join(rest, [sep]) by {
          if |rest| > 1 {
            assert r[1..] == rest[1..];
          }
        }
        assert s == [s[0]] + s[1..];
        r
  }

  /** Split, one character at a time. */
  lemma SplitCons(c: char, s: string, sep: char)
    ensures Split([c] + s, sep) ==
      if c == sep then [""] + Split(s, sep) else [[c] + Split(s, sep)[0]] + Split(s, sep)[1..]
  {
    assert ([c] + s)[1..] == s;
  }

  /** A string without the separator splits into itself alone. */
  lemma SplitWithoutSep(s: string, sep: char)
    requires sep !in s
    ensures Split(s, sep) == [s]
  {
    assert Count(s, sep) == 0 by { CountAbsent(s, sep); }
  }

  lemma {:induction false} CountAbsent(s: string, c: char)
    requires c !in s
    ensures Count(s, c) == 0
  {
    if s != [] {
      CountAbsent(s[1..], c);
    }
  }

  /** Splitting at the first separator: the text before it is the first piece. */
  lemma {:induction false} SplitAtFirst(a: string, sep: char, b: string)
    requires sep !in a
    ensures Split(a + [sep] + b, sep) == [a] + Split(b, sep)
  {
    if a == [] {
      assert a + [sep] + b == [sep] + b;
      assert ([sep] + b)[1..] == b;
    } else {
      var s := a + [sep] + b;
      assert s[1..] == a[1..] + [sep] + b;
      SplitAtFirst(a[1..], sep, b);
      assert a == [a[0]] + a[1..];
    }
  }

  /** Joining peels off the last piece: it follows the separator after the others. */
  lemma {:induction false} JoinLast(parts: seq<string>, sep: string)
    requires |parts| >= 2
    ensures Join(parts, sep) == Join(parts[..|parts| - 1], sep) + sep + parts[|parts| - 1]
  {
    if |parts| > 2 {
      var tail := parts[1..];
      JoinLast(tail, sep);
      assert tail[..|tail| - 1] == parts[..|parts| - 1][1..];
      assert parts[|parts| - 1] == tail[|tail| - 1];
    }
  }

  /** Pieces after trimming each one: `s.split(sep).map(v => v.trim())`. */
  function MapTrim(parts: seq<string>): (r: seq<string>)
    ensures |r| == |parts|
    ensures forall i :: 0 <= i < |r| ==> r[i] == Trim(parts[i])
  {
    if parts == [] then [] else [Trim(parts[0])] + MapTrim(parts[1..])
  }

  /** A leading space on the first piece does not change the trimmed pieces. */
  lemma SplitTrimIgnoresLeadingSpace(c: char, s: string, sep: char)
    requires IsSpace(c) && c != sep
    ensures MapTrim(Split([c] + s, sep)) == MapTrim(Split(s, sep))
  {
    var cs := [c] + s;
    assert cs[1..] == s;
    var rest := Split(s, sep);
    assert Split(cs, sep) == [[c] + rest[0]] + rest[1..];
    TrimDropsLeadingSpace(c, rest[0]);
  }

  /** `parts.filter(p => p)`: the non-empty pieces are kept, each as often as it occurs, and
      the empty ones are dropped. NonEmptyAppend and NonEmptySingle add that the order is kept. */
  function NonEmpty(parts: seq<string>): (r: seq<string>)
    ensures forall i :: 0 <= i < |r| ==> r[i] in parts && r[i] != ""
    ensures forall p :: p in parts && p != "" ==> p in r
    ensures multiset(r) == multiset(parts)["" := 0]
  {
    if parts == [] then []
    else
      var rest := NonEmpty(parts[1..]);
      assert parts == [parts[0]] + parts[1..];
      if parts[0] == "" then rest
      else [parts[0]] + rest
  }

  /** The filter works piece by piece: filtering a concatenation is concatenating the filtered
      parts, so the kept pieces stay in their input order. */
  lemma {:induction false} NonEmptyAppend(a: seq<string>, b: seq<string>)
    ensures NonEmpty(a + b) == NonEmpty(a) + NonEmpty(b)
  {
    if a != [] {
      assert (a + b)[1..] == a[1..] + b;
      NonEmptyAppend(a[1..], b);
    } else {
      assert a + b == b;
    }
  }

  /** A single piece is kept exactly when it is not empty. */
  lemma NonEmptySingle(p: string)
    ensures NonEmpty([p]) == if p == "" then [] else [p]
  {
    assert [p][1..] == [];
  }

  /** The pieces of `[c] + s` built from the pieces `z` of `s`: a separator opens a new empty
      piece, any other character joins the front of the first one. */
  function ConsPiece(c: char, sep: char, z: seq<string>): seq<string>
    requires |z| > 0
  {
    if c == sep then [""] + z else [[c] + z[0]] + z[1..]
  }

  lemma ConsPieceAppend(c: char, sep: char, x: seq<string>, y: seq<string>)
    requires |x| > 0
    ensures ConsPiece(c, sep, x + y) == ConsPiece(c, sep, x) + y
  {
    if c == sep {
      assert [""] + (x + y) == ([""] + x) + y;
    } else {
      var h := [c] + x[0];
      assert (x + y)[0] == x[0];
      assert (x + y)[1..] == x[1..] + y;
      assert [h] + (x[1..] + y) == ([h] + x[1..]) + y;
    }
  }

  lemma SplitConsPiece(c: char, s: string, sep: char)
    ensures Split([c] + s, sep) == ConsPiece(c, sep, Split(s, sep))
  {
    assert ([c] + s)[1..] == s;
  }

  /** Splitting at a separator splits the two sides independently. */
  lemma {:induction false} SplitAppend(a: string, sep: char, b: string)
    ensures Split(a + [sep] + b, sep) == Split(a, sep) + Split(b, sep)
  {
    if a == [] {
      assert a + [sep] + b == [sep] + b;
      SplitConsPiece(sep, b, sep);
    } else {
      var a' := a[1..];
      assert a + [sep] + b == [a[0]] + (a' + [sep] + b);
      assert a == [a[0]] + a';
      SplitAppend(a', sep, b);
      SplitConsPiece(a[0], a' + [sep] + b, sep);
      SplitConsPiece(a[0], a', sep);
      ConsPieceAppend(a[0], sep, Split(a', sep), Split(b, sep));
    }
  }

  /** Trimming every piece works piece by piece. */
  lemma MapTrimAppend(a: seq<string>, b: seq<string>)
    ensures MapTrim(a + b) == MapTrim(a) + MapTrim(b)
  {
  }

  lemma {:induction false} NonEmptyOfNonEmpty(parts: seq<string>)
    requires forall i :: 0 <= i < |parts| ==> parts[i] != ""
    ensures NonEmpty(parts) == parts
  {
    if parts != [] {
      NonEmptyOfNonEmpty(parts[1..]);
    }
  }

  lemma {:induction false} MapTrimOfTrimmed(parts: seq<string>)
    requires forall i :: 0 <= i < |parts| ==> IsTrimmed(parts[i])
    ensures MapTrim(parts) == parts
  {
    forall i | 0 <= i < |parts| ensures MapTrim(parts)[i] == parts[i] {
      TrimOfTrimmed(parts[i]);
    }
  }

  /** Round trip of the comma-list display: joining entries with ", " and splitting on ','
      again gives back every entry trimmed, as long as no entry holds a comma and there is at
      least one entry. */
  lemma {:induction false} SplitJoinRoundTrip(parts: seq<string>)
    requires |parts| > 0
    requires forall i :: 0 <= i < |parts| ==> ',' !in parts[i]
    ensures MapTrim(Split(Join(parts, ", "), ',')) == MapTrim(parts)
  {
    if |parts| == 1 {
      SplitWithoutSep(parts[0], ',');
    } else {
      var tail := Join(parts[1..], ", ");
      assert Join(parts, ", ") == parts[0] + [','] + ([' '] + tail);
      SplitAtFirst(parts[0], ',', [' '] + tail);
      SplitTrimIgnoresLeadingSpace(' ', tail, ',');
      SplitJoinRoundTrip(parts[1..]);
      assert MapTrim(parts) == [Trim(parts[0])] + MapTrim(parts[1..]);
    }
  }

  /** The empty list is the exception to the round trip: it is displayed as "" and comes
      back as one empty entry. */
  lemma EmptyListDoesNotRoundTrip()
    ensures MapTrim(Split(Join([], ", "), ',')) == [""]
  {
    assert Trim("") == "";
  }
}
