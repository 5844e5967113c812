/**
 * The list edits the form components perform on copies of React state arrays:
 * `splice(idx, 1)` (delete by position), `filter((_, i) => i !== idx)` (delete by position,
 * the other way round) and appending at the end.
 */
module SeqEdit {

  /** `updated.splice(idx, 1)` on a copy, for an index that is not negative: the element at
      `idx` is removed and the others keep their order; past the end nothing is removed. */
  function RemoveAt<T>(s: seq<T>, idx: nat): (r: seq<T>)
    ensures idx < |s| ==> |r| == |s| - 1
    ensures idx >= |s| ==> r == s
    ensures forall k :: 0 <= k < idx && k < |r| ==> r[k] == s[k]
    ensures forall k :: idx <= k < |r| ==> r[k] == s[k + 1]
  {
    if idx < |s| then s[..idx] + s[idx + 1..] else s
  }

  /** `s.filter((_, i) => i !== idx)`, written as the element-by-element scan it is:
      `from` is the position of `s[0]` in the original list. */
  function FilterOutIndex<T>(s: seq<T>, idx: int, from: nat): (r: seq<T>)
    ensures |r| <= |s|
  {
    if s == [] then []
    else if from == idx then FilterOutIndex(s[1..], idx, from + 1)
    else [s[0]] + FilterOutIndex(s[1..], idx, from + 1)
  }

  /** Filtering out one position is the same as splicing it out; an index outside the list
      (negative or too large) removes nothing. */
  lemma {:induction false} FilterOutIndexIsRemoveAt<T>(s: seq<T>, idx: int, from: nat)
    ensures FilterOutIndex(s, idx, from) ==
            if from <= idx < from + |s| then RemoveAt(s, idx - from) else s
  {
    if s != [] {
      FilterOutIndexIsRemoveAt(s[1..], idx, from + 1);
      if from == idx {
        assert RemoveAt(s, 0) == s[1..];
      } else if from < idx < from + |s| {
        assert RemoveAt(s, idx - from) == [s[0]] + RemoveAt(s[1..], idx - from - 1);
      } else {
        assert s == [s[0]] + s[1..];
      }
    }
  }

  /** Appending a row and then deleting the last position restores the list. */
  lemma AppendThenRemoveLast<T>(s: seq<T>, x: T)
    ensures RemoveAt(s + [x], |s|) == s
  {
    assert (s + [x])[..|s|] == s;
  }

  /** Deleting by position keeps every other element, so duplicates are harmless: identity
      is the position, not the value. */
  lemma RemoveAtKeepsOthers<T>(s: seq<T>, idx: nat)
    requires idx < |s|
    ensures multiset(RemoveAt(s, idx)) + multiset{s[idx]} == multiset(s)
  {
    assert s == s[..idx] + [s[idx]] + s[idx + 1..];
  }

  /** Two equal neighbours are interchangeable: deleting either one gives the same list. */
  lemma RemoveEitherTwin<T>(s: seq<T>, i: nat)
    requires i + 1 < |s| && s[i] == s[i + 1]
    ensures RemoveAt(s, i) == RemoveAt(s, i + 1)
  {
  }

  /** `copy[idx] = x` on a copy of a JavaScript array, for an index that is not negative.
      Inside the list it replaces one entry; past the end the array grows to idx + 1 entries
      and the gap holds `undefined`, written here as `hole`. */
  function AssignAt<T>(s: seq<T>, idx: nat, x: T, hole: T): (r: seq<T>)
    ensures |r| == if idx < |s| then |s| else idx + 1
    ensures r[idx] == x
    ensures forall k :: 0 <= k < |s| && k != idx ==> r[k] == s[k]
    ensures forall k :: |s| <= k < idx ==> r[k] == hole
  {
    if idx < |s| then s[idx := x]
    else s + Repeat(hole, idx - |s|) + [x]
  }

  /** `n` copies of `x`. */
  function Repeat<T>(x: T, n: nat): (r: seq<T>)
    ensures |r| == n && forall k :: 0 <= k < n ==> r[k] == x
  {
    if n == 0 then [] else Repeat(x, n - 1) + [x]
  }
}
