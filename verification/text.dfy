/** String searching, as the standard library's `find`, `split` and `replace` do it. */
module Text {
  import opened Prelude

  predicate OccursAt(s: string, p: string, i: int) {
    0 <= i <= |s| && p <= s[i..]
  }

  ghost predicate Contains(s: string, p: string) {
    exists i :: OccursAt(s, p, i)
  }

  /** No character of `s` is in `set`. */
  predicate Free(s: string, chars: set<char>) {
    forall i :: 0 <= i < |s| ==> s[i] !in chars
  }

  /** The first occurrence of `p`. */
  function Find(s: string, p: string): (r: Option<nat>)
    ensures r.Some? ==> OccursAt(s, p, r.value) && forall j :: 0 <= j < r.value ==> !OccursAt(s, p, j)
    ensures r.None? ==> forall j :: !OccursAt(s, p, j)
  {
    if |s| < |p| then None
    else if p <= s then Some(0)
    else
      OccursAtTail(s, p);
      match Find(s[1..], p)
      case Some(i) => Some(i + 1)
      case None => None
  }

  lemma OccursAtTail(s: string, p: string)
    requires s != ""
    ensures forall j: int {:trigger OccursAt(s, p, j)} :: 0 < j ==> (OccursAt(s, p, j) <==> OccursAt(s[1..], p, j - 1))
    ensures forall j: int {:trigger OccursAt(s[1..], p, j)} :: 0 <= j ==>
              (OccursAt(s[1..], p, j) <==> OccursAt(s, p, j + 1))
  {
    forall j: int | 0 < j <= |s|
      ensures OccursAt(s, p, j) <==> OccursAt(s[1..], p, j - 1)
    {
      assert s[1..][j - 1..] == s[j..];
    }
  }

  lemma OccursFirst(s: string, p: string, j: int)
    requires p != ""
    ensures OccursAt(s, p, j) ==> s[j] == p[0]
  {
    if OccursAt(s, p, j) {
      assert s[j..][0] == p[0];
    }
  }

  /** The first index holding a character of `chars`, else the length. */
  function FindAny(s: string, chars: set<char>): (r: nat)
    ensures r <= |s| && Free(s[..r], chars) && (r < |s| ==> s[r] in chars)
  {
    if s == "" || s[0] in chars then 0 else 1 + FindAny(s[1..], chars)
  }

  /** The last index holding `c`. */
  function FindLast(s: string, c: char): (r: Option<nat>)
    ensures r.Some? ==> r.value < |s| && s[r.value] == c && Free(s[r.value + 1..], {c})
    ensures r.None? ==> Free(s, {c})
  {
    if s == "" then None
    else if s[|s| - 1] == c then Some(|s| - 1)
    else
      var r := FindLast(s[..|s| - 1], c);
      r
  }

  /** Every occurrence of `p`, leftmost first and without overlap, replaced. */
  function Replace(s: string, p: string, mark: string): string
    requires p != ""
  {
    if |s| < |p| then s
    else if p <= s then mark + Replace(s[|p|..], p, mark)
    else [s[0]] + Replace(s[1..], p, mark)
  }

  /** What lies between the occurrences of `p`. */
  function Split(s: string, p: string): (r: seq<string>)
    requires p != ""
    ensures r != []
    decreases |s|
  {
    match Find(s, p)
    case Some(i) => [s[..i]] + Split(s[i + |p|..], p)
    case None => [s]
  }

  // ---------------------------------------------------------------------
  // Searching a concatenation
  // ---------------------------------------------------------------------

  lemma FindAfter(a: string, p: string, b: string)
    requires p != "" && p[0] !in a
    ensures Find(a + p + b, p) == Some(|a|)
  {
    var s := a + p + b;
    assert s[|a|..] == p + b;
    assert OccursAt(s, p, |a|);
    forall j | 0 <= j < |a|
      ensures !OccursAt(s, p, j)
    {
      OccursFirst(s, p, j);
    }
  }

  lemma {:induction false} FindAnyAfter(a: string, b: string, chars: set<char>)
    requires Free(a, chars) && (b != "" ==> b[0] in chars)
    ensures FindAny(a + b, chars) == |a|
  {
    if a == "" {
      assert a + b == b;
    } else {
      assert (a + b)[1..] == a[1..] + b;
      FindAnyAfter(a[1..], b, chars);
    }
  }

  lemma {:induction false} FindLastIn(a: string, c: char, b: string)
    requires Free(b, {c})
    ensures FindLast(a + [c] + b, c) == Some(|a|)
    decreases |b|
  {
    var s := a + [c] + b;
    if b != "" {
      var init := b[..|b| - 1];
      assert s[..|s| - 1] == a + [c] + init;
      assert s[|s| - 1] == b[|b| - 1];
      FindLastIn(a, c, init);
    }
  }

  lemma FindLastNone(s: string, c: char)
    requires Free(s, {c})
    ensures FindLast(s, c).None?
  {
  }

  function Shifted(i: Option<nat>, distance: nat): Option<nat> {
    match i
    case Some(at) => Some(at + distance)
    case None => None
  }

  lemma FindStep(s: string, p: string)
    requires s != "" && !(p <= s)
    ensures Find(s, p) == Shifted(Find(s[1..], p), 1)
  {
  }

  lemma FindNone(s: string, p: string)
    requires p != "" && Free(s, {p[0]})
    ensures Find(s, p).None?
  {
    forall j | 0 <= j < |s|
      ensures !OccursAt(s, p, j)
    {
      OccursFirst(s, p, j);
    }
  }
}
