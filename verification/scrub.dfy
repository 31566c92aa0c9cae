/** The parts a redaction hides, and their removal from somebody else's text (`secret.rs:110-147`). */
module Scrub {
  import opened Prelude
  import opened Text
  import opened Secret

  // ---------------------------------------------------------------------
  // The hidden parts
  // ---------------------------------------------------------------------

  /**
   `text` cut at the chunks, in order, each at its first occurrence: what lies around them.
   Absent when a chunk is not found.
   */
  function Cut(text: string, chunks: seq<string>): Option<seq<string>>
    decreases |chunks|
  {
    if chunks == [] then Some(Part(text))
    else if chunks[0] == "" then Cut(text, chunks[1..])
    else
      match Find(text, chunks[0])
      case None => None
      case Some(offset) =>
        match Cut(text[offset + |chunks[0]|..], chunks[1..])
        case None => None
        case Some(rest) => Some(Part(text[..offset]) + rest)
  }

  /** A part, unless it is empty. */
  function Part(s: string): seq<string> {
    if s == "" then [] else [s]
  }

  function SecretPartsOf(url: string): seq<string> {
    match Cut(url, Split(Redact(url), REDACTED))
    case Some(parts) => parts
    case None => [url]
  }

  /** `text` is the shown and the hidden strings laid end to end, each kind in its order. */
  ghost predicate Interleaves(text: string, shown: seq<string>, hidden: seq<string>)
    decreases |shown| + |hidden|
  {
    || (text == "" && shown == [] && hidden == [])
    || (shown != [] && shown[0] <= text && Interleaves(text[|shown[0]|..], shown[1..], hidden))
    || (hidden != [] && hidden[0] <= text && Interleaves(text[|hidden[0]|..], shown, hidden[1..]))
  }

  /** What the parts already cut and those of the rest come to. */
  function Joined(parts: seq<string>, rest: Option<seq<string>>): Option<seq<string>> {
    match rest
    case Some(more) => Some(parts + more)
    case None => None
  }

  /** One chunk of the loop. */
  lemma CutStep(parts: seq<string>, url: string, cursor: nat, chunks: seq<string>, i: nat)
    requires cursor <= |url| && i < |chunks|
    ensures var chunk, text := chunks[i], url[cursor..];
            var whole := Joined(parts, Cut(text, chunks[i..]));
            if chunk == "" then whole == Joined(parts, Cut(text, chunks[i + 1..]))
            else match Find(text, chunk)
                 case None => whole.None?
                 case Some(offset) =>
                   whole == Joined(parts + Part(url[cursor..cursor + offset]),
                                   Cut(url[cursor + offset + |chunk|..], chunks[i + 1..]))
  {
    hide Find;
    var chunk, text := chunks[i], url[cursor..];
    assert chunks[i..][0] == chunk && chunks[i..][1..] == chunks[i + 1..];
    if chunk != "" && Find(text, chunk).Some? {
      var offset := Find(text, chunk).value;
      assert text[..offset] == url[cursor..cursor + offset];
      assert text[offset + |chunk|..] == url[cursor + offset + |chunk|..];
      AssociateParts(parts, Part(url[cursor..cursor + offset]), Cut(url[cursor + offset + |chunk|..], chunks[i + 1..]));
    }
  }

  lemma AssociateParts(a: seq<string>, b: seq<string>, rest: Option<seq<string>>)
    ensures Joined(a, Joined(b, rest)) == Joined(a + b, rest)
  {
    if rest.Some? {
      assert a + (b + rest.value) == (a + b) + rest.value;
    }
  }

  /** The loop over the chunks, with its cursor. */
  method SecretParts(url: string) returns (parts: seq<string>)
    ensures parts == SecretPartsOf(url)
  {
    hide Find, Split, Redact, Cut;
    var redacted := Redact(url);
    var chunks := Split(redacted, REDACTED);
    parts := [];
    var cursor, i := 0, 0;
    CutStart(url, chunks);
    while i < |chunks|
      invariant 0 <= i <= |chunks| && 0 <= cursor <= |url|
      invariant Cut(url, chunks) == Joined(parts, Cut(url[cursor..], chunks[i..]))
    {
      var chunk := chunks[i];
      CutStep(parts, url, cursor, chunks, i);
      if chunk != "" {
        var offset := Find(url[cursor..], chunk);
        if offset.None? {
          return [url];
        }
        var at := cursor + offset.value;
        if at > cursor {
          parts := parts + [url[cursor..at]];
        } else {
          assert parts + [] == parts;
        }
        cursor := at + |chunk|;
      }
      i := i + 1;
    }
    CutEnd(url[cursor..], chunks[i..]);
    if cursor < |url| {
      parts := parts + [url[cursor..]];
    } else {
      assert parts + [] == parts;
    }
  }

  lemma CutStart(url: string, chunks: seq<string>)
    ensures Cut(url, chunks) == Joined([], Cut(url[0..], chunks[0..]))
  {
    assert url[0..] == url && chunks[0..] == chunks;
    if Cut(url, chunks).Some? {
      assert [] + Cut(url, chunks).value == Cut(url, chunks).value;
    }
  }

  lemma CutEnd(text: string, chunks: seq<string>)
    requires chunks == []
    ensures Cut(text, chunks) == Some(Part(text))
  {
  }

  // ---------------------------------------------------------------------
  // The cut is exact, and found whenever there is one
  // ---------------------------------------------------------------------

  function NonEmpty(chunks: seq<string>): seq<string> {
    if chunks == [] then []
    else (if chunks[0] == "" then [] else [chunks[0]]) + NonEmpty(chunks[1..])
  }

  lemma {:induction false} CutInterleaves(text: string, chunks: seq<string>)
    ensures Cut(text, chunks).Some? ==> Interleaves(text, NonEmpty(chunks), Cut(text, chunks).value)
    decreases |chunks|
  {
    hide Interleaves;
    if chunks == [] {
      NothingShown(text);
    } else if chunks[0] == "" {
      CutInterleaves(text, chunks[1..]);
      assert NonEmpty(chunks) == NonEmpty(chunks[1..]);
    } else if Cut(text, chunks).Some? {
      hide Find;
      var offset := Find(text, chunks[0]).value;
      var after := text[offset + |chunks[0]|..];
      CutInterleaves(after, chunks[1..]);
      ChunkInterleaves(text, offset, chunks[0], NonEmpty(chunks[1..]), Cut(after, chunks[1..]).value);
    }
  }

  lemma NothingShown(text: string)
    ensures Interleaves(text, [], Part(text))
  {
    if text != "" {
      assert text[|text|..] == "" && Part(text)[1..] == [];
    }
  }

  lemma ChunkInterleaves(text: string, offset: nat, chunk: string, shown: seq<string>, hidden: seq<string>)
    requires OccursAt(text, chunk, offset) && Interleaves(text[offset + |chunk|..], shown, hidden)
    ensures Interleaves(text, [chunk] + shown, Part(text[..offset]) + hidden)
  {
    assert text[offset..][|chunk|..] == text[offset + |chunk|..] && ([chunk] + shown)[1..] == shown;
    assert text == text[..offset] + text[offset..];
    PartInterleaves(text[..offset], text[offset..], [chunk] + shown, hidden);
  }

  lemma PartInterleaves(part: string, text: string, shown: seq<string>, hidden: seq<string>)
    requires Interleaves(text, shown, hidden)
    ensures Interleaves(part + text, shown, Part(part) + hidden)
  {
    if part == "" {
      assert part + text == text && Part(part) + hidden == hidden;
    } else {
      assert (part + text)[|part|..] == text;
      assert (Part(part) + hidden)[1..] == hidden;
    }
  }

  /** The chunks occur in `text`, in order and apart. */
  ghost predicate Embeds(text: string, chunks: seq<string>)
    decreases |chunks|
  {
    chunks == [] || exists i :: OccursAt(text, chunks[0], i) && Embeds(text[i + |chunks[0]|..], chunks[1..])
  }

  lemma EmbedsSuffix(text: string, k: nat, chunks: seq<string>)
    requires k <= |text| && Embeds(text[k..], chunks)
    ensures Embeds(text, chunks)
  {
    if chunks != [] {
      var i :| OccursAt(text[k..], chunks[0], i) && Embeds(text[k..][i + |chunks[0]|..], chunks[1..]);
      assert text[k..][i..] == text[k + i..];
      assert text[k..][i + |chunks[0]|..] == text[k + i + |chunks[0]|..];
      assert OccursAt(text, chunks[0], k + i);
    }
  }

  lemma {:induction false} InterleavesEmbeds(text: string, shown: seq<string>, hidden: seq<string>)
    requires Interleaves(text, shown, hidden)
    ensures Embeds(text, shown)
    decreases |shown| + |hidden|
  {
    if shown == [] {
    } else if shown[0] <= text && Interleaves(text[|shown[0]|..], shown[1..], hidden) {
      InterleavesEmbeds(text[|shown[0]|..], shown[1..], hidden);
      assert text[0..] == text;
      assert OccursAt(text, shown[0], 0);
    } else {
      InterleavesEmbeds(text[|hidden[0]|..], shown, hidden[1..]);
      EmbedsSuffix(text, |hidden[0]|, shown);
    }
  }

  lemma EmbedsWhere(text: string, chunk: string, rest: seq<string>) returns (i: nat)
    requires Embeds(text, [chunk] + rest)
    ensures OccursAt(text, chunk, i) && Embeds(text[i + |chunk|..], rest)
  {
    assert ([chunk] + rest)[1..] == rest;
    i :| OccursAt(text, chunk, i) && Embeds(text[i + |chunk|..], rest);
  }

  lemma DropDrop(s: string, a: nat, b: nat)
    requires a + b <= |s|
    ensures s[a..][b..] == s[a + b..]
  {
  }

  lemma FindFirst(text: string, p: string, i: nat)
    requires OccursAt(text, p, i)
    ensures Find(text, p).Some? && Find(text, p).value <= i && i + |p| <= |text|
  {
  }

  lemma EmbedsAtFirst(text: string, chunk: string, rest: seq<string>)
    requires Embeds(text, [chunk] + rest)
    ensures Find(text, chunk).Some? && Embeds(text[Find(text, chunk).value + |chunk|..], rest)
  {
    hide Embeds, Find, OccursAt;
    var i := EmbedsWhere(text, chunk, rest);
    FindFirst(text, chunk, i);
    EmbedsFromEarlier(text, Find(text, chunk).value + |chunk|, i + |chunk|, rest);
  }

  lemma EmbedsFromEarlier(text: string, from: nat, to: nat, rest: seq<string>)
    requires from <= to <= |text| && Embeds(text[to..], rest)
    ensures Embeds(text[from..], rest)
  {
    hide Embeds;
    DropDrop(text, from, to - from);
    EmbedsSuffix(text[from..], to - from, rest);
  }

  /** Taking each chunk at its first occurrence never misses a cut there is. */
  lemma {:induction false} CutFinds(text: string, chunks: seq<string>)
    requires Embeds(text, NonEmpty(chunks))
    ensures Cut(text, chunks).Some?
    decreases |chunks|
  {
    hide Find, Embeds;
    if chunks == [] {
    } else if chunks[0] == "" {
      assert NonEmpty(chunks) == NonEmpty(chunks[1..]);
      CutFinds(text, chunks[1..]);
    } else {
      EmbedsAtFirst(text, chunks[0], NonEmpty(chunks[1..]));
      CutFinds(text[Find(text, chunks[0]).value + |chunks[0]|..], chunks[1..]);
    }
  }

  /**
   `secret_parts` cuts the URL exactly: the chunks of its redaction and the parts returned
   interleave, in order, to the whole. It gives the cut up only when there is none.
   */
  lemma SecretPartsCutExactly(url: string)
    ensures var shown := NonEmpty(Split(Redact(url), REDACTED));
            if exists hidden :: Interleaves(url, shown, hidden) then Interleaves(url, shown, SecretPartsOf(url))
            else SecretPartsOf(url) == [url]
  {
    hide Split, Redact, Interleaves;
    var chunks := Split(Redact(url), REDACTED);
    CutInterleaves(url, chunks);
    if hidden :| Interleaves(url, NonEmpty(chunks), hidden) {
      InterleavesEmbeds(url, NonEmpty(chunks), hidden);
      CutFinds(url, chunks);
    }
  }

  // ---------------------------------------------------------------------
  // Scrubbing
  // ---------------------------------------------------------------------

  function ScrubParts(text: string, parts: seq<string>): string
    decreases |parts|
  {
    if parts == [] then text
    else ScrubParts(if |parts[0]| >= MIN_SCRUBBABLE then Replace(text, parts[0], REDACTED) else text, parts[1..])
  }

  function ScrubUrl(text: string, url: string): string {
    if url == "" then text else Replace(text, url, Redact(url))
  }

  method ScrubText(url: string, haystack: string) returns (out: string)
    ensures out == ScrubParts(ScrubUrl(haystack, url), SecretPartsOf(url))
  {
    hide SecretPartsOf, Replace, Redact;
    // Replacing the empty URL by its empty redaction changes nothing.
    out := if url == "" then haystack else Replace(haystack, url, Redact(url));
    var parts := SecretParts(url);
    var i := 0;
    assert parts[0..] == parts;
    while i < |parts|
      invariant 0 <= i <= |parts|
      invariant ScrubParts(out, parts[i..]) == ScrubParts(ScrubUrl(haystack, url), parts)
    {
      assert parts[i..][0] == parts[i] && parts[i..][1..] == parts[i + 1..];
      if |parts[i]| >= MIN_SCRUBBABLE {
        out := Replace(out, parts[i], REDACTED);
      }
      i := i + 1;
    }
  }

  /** A part whose removal is certain: it can straddle no marker, nor lie inside one. */
  ghost predicate Removable(part: string) {
    |part| >= MIN_SCRUBBABLE && '*' !in part && !Contains(REDACTED, part)
  }

  /** Before the first marker, a replaced text is the text itself. */
  lemma {:induction false} UnreplacedPrefix(s: string, q: string, p: string)
    requires q != "" && p <= Replace(s, q, REDACTED)
    ensures '*' in p || p <= s
    decreases |p|
  {
    var r := Replace(s, q, REDACTED);
    if p == "" || |s| < |q| {
    } else if q <= s {
      assert r[0] == '*' && p[0] == r[0];
      assert p[0] in p;
    } else {
      assert r == [s[0]] + Replace(s[1..], q, REDACTED);
      assert r[1..] == Replace(s[1..], q, REDACTED);
      assert p[1..] <= r[1..];
      UnreplacedPrefix(s[1..], q, p[1..]);
      assert p == [p[0]] + p[1..];
      assert s == [s[0]] + s[1..];
    }
  }

  lemma OccurrenceHolds(text: string, p: string, i: int, k: int)
    requires OccursAt(text, p, i) && i <= k < i + |p|
    ensures text[k] in p
  {
    assert text[i..][k - i] == p[k - i];
  }

  /** Past a marker, a star-free string lies inside it or after it. */
  lemma PastMarker(rest: string, p: string, i: int)
    requires p != "" && OccursAt(REDACTED + rest, p, i)
    ensures '*' in p || Contains(REDACTED, p) || (i >= |REDACTED| && OccursAt(rest, p, i - |REDACTED|))
  {
    var text := REDACTED + rest;
    if i >= |REDACTED| {
      assert text[i..] == rest[i - |REDACTED|..];
    } else if i + |p| <= |REDACTED| {
      assert p == text[i..][..|p|] == REDACTED[i..][..|p|];
      assert OccursAt(REDACTED, p, i);
    } else {
      OccurrenceHolds(text, p, i, |REDACTED| - 1);
    }
  }

  /** Replacing `q` by the marker removes `q`, and never makes a `p` that was not there. */
  lemma {:induction false} ReplaceLeavesNone(s: string, q: string, p: string)
    requires q != "" && p != "" && '*' !in p && !Contains(REDACTED, p)
    ensures Contains(Replace(s, q, REDACTED), p) ==> p != q && Contains(s, p)
    decreases |s|
  {
    var r := Replace(s, q, REDACTED);
    if i: int :| OccursAt(r, p, i) {
      if |s| < |q| {
        assert r == s;
      } else if q <= s {
        var rest := s[|q|..];
        PastMarker(Replace(rest, q, REDACTED), p, i);
        ReplaceLeavesNone(rest, q, p);
        NotContainedIn(s, |q|, p);
      } else if i == 0 {
        assert r[0..] == r;
        UnreplacedPrefix(s, q, p);
        assert s[0..] == s;
        assert OccursAt(s, p, 0);
      } else {
        OccursAtTail(r, p);
        assert r[1..] == Replace(s[1..], q, REDACTED);
        ReplaceLeavesNone(s[1..], q, p);
        NotContainedIn(s, 1, p);
      }
    }
  }

  lemma NotContainedIn(s: string, k: nat, p: string)
    requires k <= |s|
    ensures Contains(s[k..], p) ==> Contains(s, p)
  {
    if Contains(s[k..], p) {
      var i :| OccursAt(s[k..], p, i);
      assert s[k..][i..] == s[k + i..];
      assert OccursAt(s, p, k + i);
    }
  }

  lemma {:induction false} ScrubPartsKeepsOut(text: string, parts: seq<string>, p: string)
    requires Removable(p) && !Contains(text, p)
    ensures !Contains(ScrubParts(text, parts), p)
    decreases |parts|
  {
    hide Replace;
    if parts != [] {
      if |parts[0]| >= MIN_SCRUBBABLE {
        ReplaceLeavesNone(text, parts[0], p);
        ScrubPartsKeepsOut(Replace(text, parts[0], REDACTED), parts[1..], p);
      } else {
        ScrubPartsKeepsOut(text, parts[1..], p);
      }
    }
  }

  lemma {:induction false} ScrubPartsRemoves(text: string, parts: seq<string>, p: string)
    requires Removable(p) && p in parts
    ensures !Contains(ScrubParts(text, parts), p)
    decreases |parts|
  {
    hide Replace;
    var next := if |parts[0]| >= MIN_SCRUBBABLE then Replace(text, parts[0], REDACTED) else text;
    if parts[0] == p {
      ReplaceLeavesNone(text, p, p);
      ScrubPartsKeepsOut(next, parts[1..], p);
    } else {
      ScrubPartsRemoves(next, parts[1..], p);
    }
  }

  /** Whatever the text, no removable part of the URL is left in it once scrubbed. */
  lemma ScrubLeavesNoPart(url: string, haystack: string, p: string)
    ensures p in SecretPartsOf(url) && Removable(p) ==>
              !Contains(ScrubParts(ScrubUrl(haystack, url), SecretPartsOf(url)), p)
  {
    if p in SecretPartsOf(url) && Removable(p) {
      ScrubPartsRemoves(ScrubUrl(haystack, url), SecretPartsOf(url), p);
    }
  }

  lemma {:induction false} ReplaceNothing(s: string, q: string, mark: string)
    requires q != "" && !Contains(s, q)
    ensures Replace(s, q, mark) == s
    decreases |s|
  {
    if |s| >= |q| {
      assert s[0..] == s;
      assert !OccursAt(s, q, 0);
      NotContainedIn(s, 1, q);
      ReplaceNothing(s[1..], q, mark);
    }
  }

  /** A text holding neither the URL nor a part of it long enough is left as it is. */
  lemma ScrubLeavesTheRest(url: string, text: string)
    requires url == "" || !Contains(text, url)
    requires forall p :: p in SecretPartsOf(url) && |p| >= MIN_SCRUBBABLE ==> !Contains(text, p)
    ensures ScrubParts(ScrubUrl(text, url), SecretPartsOf(url)) == text
  {
    hide SecretPartsOf, Replace, Redact, ScrubParts;
    if url != "" {
      ReplaceNothing(text, url, Redact(url));
    }
    NoPartIsReplaced(text, SecretPartsOf(url));
  }

  lemma {:induction false} NoPartIsReplaced(text: string, parts: seq<string>)
    requires forall p :: p in parts && |p| >= MIN_SCRUBBABLE ==> !Contains(text, p)
    ensures ScrubParts(text, parts) == text
    decreases |parts|
  {
    hide Replace;
    if parts != [] {
      assert parts[0] in parts;
      if |parts[0]| >= MIN_SCRUBBABLE {
        ReplaceNothing(text, parts[0], REDACTED);
      }
      NoPartIsReplaced(text, parts[1..]);
    }
  }

  /** Where `q` is first found, it is replaced; the rest goes on past it. */
  lemma {:induction false} ReplaceFirst(a: string, q: string, b: string, mark: string)
    requires q != "" && Find(a + q + b, q) == Some(|a|)
    ensures Replace(a + q + b, q, mark) == a + mark + Replace(b, q, mark)
    decreases |a|
  {
    hide Find, Replace;
    if a == "" {
      assert a + q + b == q + b && (q + b)[|q|..] == b;
      ReplaceHead(q, b, mark);
      assert a + mark + Replace(b, q, mark) == mark + Replace(b, q, mark);
    } else {
      var rest := a[1..] + q + b;
      assert a + q + b == [a[0]] + rest;
      FoundLater([a[0]] + rest, q, |a|);
      assert ([a[0]] + rest)[1..] == rest;
      ReplaceTail(a[0], rest, q, mark);
      ReplaceFirst(a[1..], q, b, mark);
      Reheaded(a, mark, Replace(b, q, mark));
    }
  }

  lemma Reheaded(a: string, b: string, c: string)
    requires a != ""
    ensures [a[0]] + (a[1..] + b + c) == a + b + c
  {
  }

  lemma ReplaceHead(q: string, b: string, mark: string)
    requires q != ""
    ensures Replace(q + b, q, mark) == mark + Replace(b, q, mark)
  {
    assert (q + b)[|q|..] == b;
  }

  lemma ReplaceTail(c: char, rest: string, q: string, mark: string)
    requires q != "" && |q| <= |rest| + 1 && !(q <= [c] + rest)
    ensures Replace([c] + rest, q, mark) == [c] + Replace(rest, q, mark)
  {
    assert ([c] + rest)[1..] == rest;
  }

  lemma FoundLater(s: string, q: string, n: nat)
    requires s != "" && n > 0 && Find(s, q) == Some(n)
    ensures |q| <= |s| && !(q <= s) && Find(s[1..], q) == Some(n - 1)
  {
  }

  /**
   A text holding the URL once comes out with its redaction in its place, and the rest as it was, when
   no part of at least 4 characters is then found in it.
   */
  lemma ScrubShowsTheRedaction(url: string, a: string, b: string)
    requires url != "" && forall i :: OccursAt(a + url + b, url, i) ==> i == |a|
    requires forall p :: p in SecretPartsOf(url) && |p| >= MIN_SCRUBBABLE ==> !Contains(a + Redact(url) + b, p)
    ensures ScrubParts(ScrubUrl(a + url + b, url), SecretPartsOf(url)) == a + Redact(url) + b
  {
    hide SecretPartsOf, Redact, ScrubParts, Replace;
    OnlyThere(a, url, b);
    ReplaceFirst(a, url, b, Redact(url));
    ReplaceNothing(b, url, Redact(url));
    NoPartIsReplaced(a + Redact(url) + b, SecretPartsOf(url));
  }

  /** A well-formed URL in a text, scrubbed of it, shows its public view. */
  lemma ScrubShowsTheView(u: Url, a: string, b: string)
    requires WellFormed(u) && forall i :: OccursAt(a + Print(u) + b, Print(u), i) ==> i == |a|
    requires forall p :: p in SecretPartsOf(Print(u)) && |p| >= MIN_SCRUBBABLE ==>
               !Contains(a + Render(ViewOf(u)) + b, p)
    ensures ScrubParts(ScrubUrl(a + Print(u) + b, Print(u)), SecretPartsOf(Print(u))) == a + Render(ViewOf(u)) + b
  {
    PrintedIsSome(u);
    hide SecretPartsOf, Redact, ScrubParts, ScrubUrl, Print, Render, ViewOf, Contains, OccursAt, WellFormed;
    RedactShowsTheView(u);
    ScrubShowsTheRedaction(Print(u), a, b);
  }

  lemma PrintedIsSome(u: Url)
    ensures Print(u) != ""
  {
  }

  lemma OnlyThere(a: string, q: string, b: string)
    requires q != "" && forall i :: OccursAt(a + q + b, q, i) ==> i == |a|
    ensures Find(a + q + b, q) == Some(|a|) && !Contains(b, q)
  {
    var s := a + q + b;
    assert s[|a|..] == q + b;
    assert OccursAt(s, q, |a|);
    if i :| OccursAt(b, q, i) {
      assert s[|a| + |q| + i..] == b[i..];
      assert OccursAt(s, q, |a| + |q| + i);
    }
  }

  /** No text holds `secret` once scrubbed of `url`. */
  ghost predicate AlwaysRemoved(url: string, secret: string) {
    forall haystack: string :: !Contains(ScrubParts(ScrubUrl(haystack, url), SecretPartsOf(url)), secret)
  }

  /** A removable secret is always removed if and only if some part long enough lies in it; else it is left whole. */
  lemma AlwaysRemovedExactly(url: string, secret: string)
    requires url != "" && Removable(secret) && !Contains(secret, url)
    ensures AlwaysRemoved(url, secret) <==>
            exists p :: p in SecretPartsOf(url) && |p| >= MIN_SCRUBBABLE && Contains(secret, p)
    ensures !AlwaysRemoved(url, secret) ==> ScrubParts(ScrubUrl(secret, url), SecretPartsOf(url)) == secret
  {
    hide SecretPartsOf, ScrubParts, ScrubUrl, Contains;
    if p :| p in SecretPartsOf(url) && |p| >= MIN_SCRUBBABLE && Contains(secret, p) {
      forall haystack: string
        ensures !Contains(ScrubParts(ScrubUrl(haystack, url), SecretPartsOf(url)), secret)
      {
        ScrubPartsRemoveAround(ScrubUrl(haystack, url), SecretPartsOf(url), p, secret);
      }
    } else {
      ScrubLeavesTheRest(url, secret);
      ContainsItself(secret);
    }
  }

  lemma ContainsItself(s: string)
    ensures Contains(s, s)
  {
    assert s[0..] == s;
    assert OccursAt(s, s, 0);
  }

  lemma ShorterThan(s: string, p: string)
    requires Contains(s, p)
    ensures |p| <= |s|
  {
  }

  /** Before the first marker, a replaced text does not hold what was replaced. */
  lemma {:induction false} UnreplacedHoldsNone(s: string, q: string, p: string)
    requires q != "" && p <= Replace(s, q, REDACTED)
    ensures '*' in p || !Contains(p, q)
    decreases |p|
  {
    var r := Replace(s, q, REDACTED);
    if |s| < |q| || p == "" {
    } else if q <= s {
      assert r[0] == '*' && p[0] == r[0];
      assert p[0] in p;
    } else {
      assert r[1..] == Replace(s[1..], q, REDACTED) && p[1..] <= r[1..];
      UnreplacedHoldsNone(s[1..], q, p[1..]);
      UnreplacedPrefix(s, q, p);
      assert p == [p[0]] + p[1..];
      if i :| OccursAt(p, q, i) {
        HeadOrTail(p, q, i);
      }
    }
  }

  lemma HeadOrTail(s: string, q: string, i: int)
    requires s != "" && OccursAt(s, q, i)
    ensures q <= s || Contains(s[1..], q)
  {
    if i > 0 {
      OccursAtTail(s, q);
      assert OccursAt(s[1..], q, i - 1);
    } else {
      assert s[0..] == s;
    }
  }

  /** Replacing `q` by the marker leaves no star-free text around `q`, but within the marker. */
  lemma {:induction false} ReplaceLeavesNoneAround(s: string, q: string, p: string)
    requires q != "" && Contains(p, q) && '*' !in p && !Contains(REDACTED, p)
    ensures !Contains(Replace(s, q, REDACTED), p)
    decreases |s|
  {
    var r := Replace(s, q, REDACTED);
    ShorterThan(p, q);
    if i: int :| OccursAt(r, p, i) {
      if |s| < |q| {
      } else if q <= s {
        var rest := s[|q|..];
        PastMarker(Replace(rest, q, REDACTED), p, i);
        ReplaceLeavesNoneAround(rest, q, p);
      } else if i == 0 {
        assert r[0..] == r;
        UnreplacedHoldsNone(s, q, p);
      } else {
        OccursAtTail(r, p);
        assert r[1..] == Replace(s[1..], q, REDACTED);
        ReplaceLeavesNoneAround(s[1..], q, p);
      }
    }
  }

  /** A part goes, and with it whatever removable text holds it. */
  lemma {:induction false} ScrubPartsRemoveAround(text: string, parts: seq<string>, p: string, secret: string)
    requires Removable(secret) && p in parts && |p| >= MIN_SCRUBBABLE && Contains(secret, p)
    ensures !Contains(ScrubParts(text, parts), secret)
    decreases |parts|
  {
    hide Replace, Contains;
    var next := if |parts[0]| >= MIN_SCRUBBABLE then Replace(text, parts[0], REDACTED) else text;
    if parts[0] == p {
      ReplaceLeavesNoneAround(text, p, secret);
      ScrubPartsKeepsOut(next, parts[1..], secret);
    } else {
      ScrubPartsRemoveAround(next, parts[1..], p, secret);
    }
  }

  // ---------------------------------------------------------------------
  // The cut of a well-formed URL
  // ---------------------------------------------------------------------

  /** A stretch of a URL, as its redaction treats it. */
  datatype Stretch = Shown(text: string) | Hidden(text: string)

  function Flat(stretches: seq<Stretch>): string {
    if stretches == [] then "" else stretches[0].text + Flat(stretches[1..])
  }

  function Face(stretch: Stretch): string {
    if stretch.Shown? then stretch.text else REDACTED
  }

  function Masked(stretches: seq<Stretch>): string {
    if stretches == [] then "" else Face(stretches[0]) + Masked(stretches[1..])
  }

  lemma FewStretches(a: Stretch, b: Stretch, c: Stretch)
    ensures Flat([a]) == a.text && Masked([a]) == Face(a)
    ensures Flat([a, b]) == a.text + b.text && Masked([a, b]) == Face(a) + Face(b)
    ensures Flat([a, b, c]) == a.text + b.text + c.text && Masked([a, b, c]) == Face(a) + Face(b) + Face(c)
  {
    hide Flat, Masked, Face;
    FlatCons(c, []);
    FlatCons(b, []);
    FlatCons(a, []);
    FlatCons(b, [c]);
    FlatCons(a, [b]);
    FlatCons(a, [b, c]);
    assert [c] + [] == [c] && [b] + [] == [b] && [a] + [] == [a];
    assert [b] + [c] == [b, c] && [a] + [b] == [a, b] && [a] + [b, c] == [a, b, c];
    assert a.text + "" == a.text && b.text + "" == b.text && c.text + "" == c.text;
    assert Face(a) + "" == Face(a) && Face(b) + "" == Face(b) && Face(c) + "" == Face(c);
    assert a.text + (b.text + c.text) == a.text + b.text + c.text;
    assert Face(a) + (Face(b) + Face(c)) == Face(a) + Face(b) + Face(c);
  }

  lemma FlatCons(a: Stretch, rest: seq<Stretch>)
    ensures Flat([a] + rest) == a.text + Flat(rest) && Masked([a] + rest) == Face(a) + Masked(rest)
    ensures Flat([]) == "" && Masked([]) == ""
  {
    assert ([a] + rest)[1..] == rest;
  }

  /** The shown stretches, joined between the hidden ones. */
  function Chunks(stretches: seq<Stretch>): (r: seq<string>)
    ensures r != []
  {
    if stretches == [] then [""]
    else
      var rest := Chunks(stretches[1..]);
      if stretches[0].Shown? then [stretches[0].text + rest[0]] + rest[1..] else [""] + rest
  }

  predicate StarFree(stretches: seq<Stretch>) {
    forall i :: 0 <= i < |stretches| && stretches[i].Shown? ==> '*' !in stretches[i].text
  }

  lemma {:induction false} FindPastPrefix(s: string, rest: string)
    requires '*' !in s
    ensures Find(s + rest, REDACTED) == Shifted(Find(rest, REDACTED), |s|)
    decreases |s|
  {
    hide Find;
    if s == "" {
      assert s + rest == rest;
    } else {
      var text := s + rest;
      assert text[1..] == s[1..] + rest;
      assert text[0] == s[0] && s[0] in s && REDACTED[0] == '*';
      FindStep(text, REDACTED);
      FindPastPrefix(s[1..], rest);
    }
  }

  lemma SplitPrefix(s: string, rest: string)
    requires '*' !in s
    ensures Split(s + rest, REDACTED) == [s + Split(rest, REDACTED)[0]] + Split(rest, REDACTED)[1..]
  {
    hide Find, Split;
    FindPastPrefix(s, rest);
    SplitOnce(s + rest);
    SplitOnce(rest);
    match Find(rest, REDACTED)
    case None =>
      HeadTail(rest, []);
    case Some(i) =>
      assert (s + rest)[..|s| + i] == s + rest[..i];
      assert (s + rest)[|s| + i + |REDACTED|..] == rest[i + |REDACTED|..];
      HeadTail(rest[..i], Split(rest[i + |REDACTED|..], REDACTED));
  }

  lemma HeadTail(head: string, tail: seq<string>)
    ensures ([head] + tail)[0] == head && ([head] + tail)[1..] == tail
    ensures [head] + [] == [head]
  {
  }

  lemma SplitOnce(s: string)
    ensures Split(s, REDACTED) == match Find(s, REDACTED)
                                  case Some(i) => [s[..i]] + Split(s[i + |REDACTED|..], REDACTED)
                                  case None => [s]
  {
  }

  lemma SplitMark(rest: string)
    ensures Split(REDACTED + rest, REDACTED) == [""] + Split(rest, REDACTED)
  {
    assert Find(REDACTED + rest, REDACTED) == Some(0);
    assert (REDACTED + rest)[0 + |REDACTED|..] == rest;
  }

  lemma {:induction false} SplitMasked(stretches: seq<Stretch>)
    requires StarFree(stretches)
    ensures Split(Masked(stretches), REDACTED) == Chunks(stretches)
  {
    hide Split;
    if stretches == [] {
      SplitEmpty();
    } else {
      SplitMasked(stretches[1..]);
      if stretches[0].Shown? {
        SplitPrefix(stretches[0].text, Masked(stretches[1..]));
      } else {
        SplitMark(Masked(stretches[1..]));
      }
    }
  }

  lemma SplitEmpty()
    ensures Split("", REDACTED) == [""]
  {
  }

  /** The chunks of the stretches lie in their text: the first at its start, the others after it. */
  lemma {:induction false} ChunksEmbed(stretches: seq<Stretch>)
    ensures var chunks := Chunks(stretches);
            && chunks[0] <= Flat(stretches)
            && Embeds(Flat(stretches)[|chunks[0]|..], NonEmpty(chunks[1..]))
  {
    hide Embeds;
    if stretches == [] {
      NothingEmbeds("");
    } else {
      var head, rest, chunks := stretches[0].text, Flat(stretches[1..]), Chunks(stretches[1..]);
      ChunksEmbed(stretches[1..]);
      if stretches[0].Shown? {
        assert (head + rest)[|head + chunks[0]|..] == rest[|chunks[0]|..];
        assert ([head + chunks[0]] + chunks[1..])[1..] == chunks[1..];
      } else {
        assert ([""] + chunks)[1..] == chunks && (head + rest)[0..] == head + rest;
        HiddenEmbeds(head, rest, chunks);
      }
    }
  }

  lemma NothingEmbeds(text: string)
    ensures Embeds(text, [])
  {
  }

  lemma HiddenEmbeds(head: string, rest: string, chunks: seq<string>)
    requires chunks != [] && chunks[0] <= rest && Embeds(rest[|chunks[0]|..], NonEmpty(chunks[1..]))
    ensures Embeds(head + rest, NonEmpty(chunks))
  {
    hide Embeds;
    var text, shown := head + rest, NonEmpty(chunks[1..]);
    assert text[|head|..] == rest;
    if chunks[0] == "" {
      assert rest[0..] == rest && NonEmpty(chunks) == shown;
      EmbedsSuffix(text, |head|, shown);
    } else {
      DropDrop(text, |head|, |chunks[0]|);
      assert NonEmpty(chunks) == [chunks[0]] + shown;
      EmbedsFrom(text, |head|, chunks[0], shown);
    }
  }

  lemma EmbedsFrom(text: string, i: nat, chunk: string, rest: seq<string>)
    requires OccursAt(text, chunk, i) && Embeds(text[i + |chunk|..], rest)
    ensures Embeds(text, [chunk] + rest)
  {
    var chunks := [chunk] + rest;
    assert chunks[1..] == rest;
    assert OccursAt(text, chunks[0], i) && Embeds(text[i + |chunks[0]|..], chunks[1..]);
  }

  function RoleStretches(info: Option<UserInfo>, postgres: bool): seq<Stretch> {
    match info
    case None => []
    case Some(Bare(token)) => if postgres then [Shown(token + "@")] else [Hidden(token), Shown("@")]
    case Some(Login(user, password)) => [Shown(user + ":"), Hidden(password), Shown("@")]
  }

  function PathStretches(path: string, postgres: bool): seq<Stretch> {
    if postgres || OnlySlashes(path) then [Shown(path)] else [Shown("/"), Hidden(path[1..])]
  }

  function TailStretches(query: Option<string>, fragment: Option<string>): seq<Stretch> {
    if query.Some? then [Shown("?"), Hidden(query.value + if fragment.Some? then "#" + fragment.value else "")]
    else if fragment.Some? then [Shown("#"), Hidden(fragment.value)]
    else []
  }

  /** A well-formed URL as stretches. */
  function Stretches(u: Url): seq<Stretch> {
    var postgres := PostgresScheme(u.scheme);
    [Shown(u.scheme + SEPARATOR)] + RoleStretches(u.userInfo, postgres) + [Shown(u.host)]
    + PathStretches(u.path, postgres) + TailStretches(u.query, u.fragment)
  }

  lemma {:induction false} FlatConcat(a: seq<Stretch>, b: seq<Stretch>)
    ensures Flat(a + b) == Flat(a) + Flat(b) && Masked(a + b) == Masked(a) + Masked(b)
  {
    hide Face;
    if a == [] {
      assert a + b == b;
    } else {
      assert (a + b)[1..] == a[1..] + b;
      FlatConcat(a[1..], b);
    }
  }

  lemma RoleStretchesSay(info: Option<UserInfo>, postgres: bool, host: string)
    ensures var role := match info
                        case None => NoRole
                        case Some(Bare(token)) => if postgres then NamedAlone(token) else HiddenRole
                        case Some(Login(user, _)) => Named(user);
            && Flat(RoleStretches(info, postgres)) + host == PrintAuthority(info, host)
            && Masked(RoleStretches(info, postgres)) == RenderRole(role)
  {
    match info
    case None =>
    case Some(Bare(token)) =>
      FewStretches(Shown(token + "@"), Shown(""), Shown(""));
      FewStretches(Hidden(token), Shown("@"), Shown(""));
    case Some(Login(user, password)) =>
      FewStretches(Shown(user + ":"), Hidden(password), Shown("@"));
  }

  lemma PathStretchesSay(path: string, postgres: bool)
    requires path == "" || path[0] == '/'
    ensures Flat(PathStretches(path, postgres)) == path
    ensures Masked(PathStretches(path, postgres))
         == RenderPath(if postgres || OnlySlashes(path) then Some(path) else None)
  {
    FewStretches(Shown(path), Shown(""), Shown(""));
    if path != "" {
      FewStretches(Shown("/"), Hidden(path[1..]), Shown(""));
      assert path == "/" + path[1..];
    }
  }

  lemma TailStretchesSay(query: Option<string>, fragment: Option<string>)
    ensures Flat(TailStretches(query, fragment)) == PrintTail(query, fragment)
    ensures Masked(TailStretches(query, fragment))
         == RenderTail(if query.Some? then HiddenQuery else if fragment.Some? then HiddenFragment else NoTail)
  {
    if query.Some? {
      var more := if fragment.Some? then "#" + fragment.value else "";
      FewStretches(Shown("?"), Hidden(query.value + more), Shown(""));
      assert "?" + (query.value + more) == "?" + query.value + more;
    } else if fragment.Some? {
      FewStretches(Shown("#"), Hidden(fragment.value), Shown(""));
      assert "" + ("#" + fragment.value) == "#" + fragment.value;
    }
  }

  lemma StretchesSay(u: Url)
    requires WellFormed(u)
    ensures Flat(Stretches(u)) == Print(u) && Masked(Stretches(u)) == Render(ViewOf(u))
  {
    hide RoleStretches, PathStretches, TailStretches, PrintAuthority, PrintTail, RenderRole, RenderPath, RenderTail,
      PostgresScheme, Flat, Masked, WellFormed, OnlySlashes, AuthorityFormed, TailFormed;
    var postgres := PostgresScheme(u.scheme);
    var role, path := RoleStretches(u.userInfo, postgres), PathStretches(u.path, postgres);
    var tail := TailStretches(u.query, u.fragment);
    var head, host := Shown(u.scheme + SEPARATOR), Shown(u.host);
    FlatConcat([head] + role + [host] + path, tail);
    FlatConcat([head] + role + [host], path);
    FlatConcat([head] + role, [host]);
    FlatConcat([head], role);
    FewStretches(head, head, head);
    FewStretches(host, host, host);
    RoleStretchesSay(u.userInfo, postgres, u.host);
    PathOpens(u);
    PathStretchesSay(u.path, postgres);
    TailStretchesSay(u.query, u.fragment);
    assert head.text + Flat(role) + host.text == head.text + (Flat(role) + host.text);
    assert head.text + Masked(role) + host.text == head.text + (Masked(role) + host.text);
  }

  lemma PathOpens(u: Url)
    requires WellFormed(u)
    ensures u.path == "" || u.path[0] == '/'
  {
  }

  /**
   A well-formed URL that shows no star is always cut: its parts and the chunks of its redaction,
   which are exactly what it shows, interleave to it.
   */
  lemma WellFormedIsCut(u: Url)
    requires WellFormed(u) && StarFree(Stretches(u))
    ensures Split(Redact(Print(u)), REDACTED) == Chunks(Stretches(u))
    ensures Interleaves(Print(u), NonEmpty(Chunks(Stretches(u))), SecretPartsOf(Print(u)))
  {
    hide Split, Redact, Interleaves, Embeds, Print, Render, StarFree, Stretches, Chunks, Flat, Masked, WellFormed;
    var stretches := Stretches(u);
    StretchesSay(u);
    RedactShowsTheView(u);
    SplitMasked(stretches);
    ChunksEmbed(stretches);
    FirstEmbeds(Print(u), Chunks(stretches));
    CutFinds(Print(u), Chunks(stretches));
    CutInterleaves(Print(u), Chunks(stretches));
  }

  lemma FirstEmbeds(text: string, chunks: seq<string>)
    requires chunks != [] && chunks[0] <= text && Embeds(text[|chunks[0]|..], NonEmpty(chunks[1..]))
    ensures Embeds(text, NonEmpty(chunks))
  {
    assert "" + text == text;
    HiddenEmbeds("", text, chunks);
  }
}
