/** The scanner of `use` trees (`crates/check-module-visibility.py`). */
module UseTree {
  import opened Prelude
  import opened Text

  const WHITESPACE: set<char> := {' ', '\t', '\n', '\r', '\U{0B}', '\U{0C}'}

  // ---------------------------------------------------------------------
  // The scanner
  // ---------------------------------------------------------------------

  function Strip(s: string): (r: string)
    ensures |r| <= |s|
  {
    if s == "" then "" else (if s[0] in WHITESPACE then "" else [s[0]]) + Strip(s[1..])
  }

  function StripSelf(s: string): (r: string)
    ensures |r| <= |s|
  {
    if "self::" <= s then s[6..] else s
  }

  function Depth(depth: int, c: char): int {
    if c == '{' then depth + 1 else if c == '}' then depth - 1 else depth
  }

  /** Python's `s[1:-1]`. */
  function Inner(s: string): string {
    if |s| < 2 then "" else s[1..|s| - 1]
  }

  /** The head of a path: what precedes its first `::`. */
  function Head(s: string): set<string> {
    match Find(s, "::")
    case Some(i) => {s[..i]}
    case None => {}
  }

  function TopLevel(tree: string): set<string>
    decreases |tree|, |tree| + 1
  {
    var s := StripSelf(Strip(tree));
    if "{" <= s then Scan(Inner(s) + ",", 0, "") else Head(s)
  }

  /** The branches of `s` from `branch` on, each ended by a comma outside braces. */
  function Scan(s: string, depth: int, branch: string): set<string>
    decreases |branch| + |s|, |s|
  {
    if s == "" then {}
    else if s[0] == ',' && depth == 0 then TopLevel(branch) + Scan(s[1..], 0, "")
    else Scan(s[1..], Depth(depth, s[0]), branch + [s[0]])
  }

  /** The loop over the characters, a branch at a time. */
  method TopLevelModules(tree: string) returns (names: set<string>)
    ensures names == TopLevel(tree)
    decreases |tree|
  {
    var s := StripSelf(Strip(tree));
    if !("{" <= s) {
      var i := Find(s, "::");
      return if i.Some? then {s[..i.value]} else {};
    }
    var text := Inner(s) + ",";
    var depth, branch := 0, "";
    names := {};
    assert text[0..] == text;
    for i := 0 to |text|
      invariant |branch| <= i
      invariant TopLevel(tree) == names + Scan(text[i..], depth, branch)
    {
      var c := text[i];
      assert text[i..][0] == c && text[i..][1..] == text[i + 1..];
      if c == ',' && depth == 0 {
        var more := TopLevelModules(branch);
        names := names + more;
        branch := "";
      } else {
        depth := Depth(depth, c);
        branch := branch + [c];
      }
    }
    assert text[|text|..] == "";
  }

  /** The trees of a file's re-exports, gathered. */
  method ReexportedModules(trees: seq<string>) returns (names: set<string>)
    ensures forall n :: n in names <==> exists i :: 0 <= i < |trees| && n in TopLevel(trees[i])
  {
    names := {};
    for i := 0 to |trees|
      invariant forall n :: n in names <==> exists j :: 0 <= j < i && n in TopLevel(trees[j])
    {
      var more := TopLevelModules(trees[i]);
      names := names + more;
    }
  }

  // ---------------------------------------------------------------------
  // Use trees, and how they are written
  // ---------------------------------------------------------------------

  /** `a::b as c`, `a::*`, `a::{…}`; a leading `::` is an empty first segment. */
  datatype Tree =
    | Name(path: seq<string>, alias: Option<string>)
    | Glob(path: seq<string>)
    | Group(path: seq<string>, branches: seq<Tree>, trailingComma: bool)

  predicate IsIdentifier(s: string) {
    Free(s, {':', '{', '}', ','} + WHITESPACE)
  }

  predicate WellFormed(t: Tree) {
    && (forall i :: 0 <= i < |t.path| ==> IsIdentifier(t.path[i]))
    && match t
       case Name(path, alias) => path != [] && (alias.Some? ==> IsIdentifier(alias.value))
       case Glob(_) => true
       case Group(_, branches, _) => forall b :: b in branches ==> WellFormed(b)
  }

  function PrintPrefix(path: seq<string>): string {
    if path == [] then "" else path[0] + "::" + PrintPrefix(path[1..])
  }

  /** A tree without spaces. */
  function Print(t: Tree): string {
    match t
    case Name(path, alias) =>
      if path == [] then ""
      else PrintPrefix(path[..|path| - 1]) + path[|path| - 1] + (if alias.Some? then "as" + alias.value else "")
    case Glob(path) => PrintPrefix(path) + "*"
    case Group(path, branches, trailing) => PrintPrefix(path) + "{" + PrintBranches(branches, trailing) + "}"
  }

  function PrintBranches(branches: seq<Tree>, trailing: bool): string {
    if branches == [] then ""
    else if |branches| == 1 then Print(branches[0]) + if trailing then "," else ""
    else Print(branches[0]) + "," + PrintBranches(branches[1..], trailing)
  }

  /** The path less a leading `self`, unless it stands alone. */
  function PastSelf(path: seq<string>, alone: bool): seq<string> {
    if path != [] && path[0] == "self" && !(alone && |path| == 1) then path[1..] else path
  }

  /**
   The modules a tree re-exports from: the first segment of each branch that has one before its
   item, a bare item having none.
   */
  function Modules(t: Tree): set<string> {
    match t
    case Name(path, _) => var p := PastSelf(path, true); if |p| >= 2 then {p[0]} else {}
    case Glob(path) => var p := PastSelf(path, false); if p != [] then {p[0]} else {}
    case Group(path, branches, _) =>
      var p := PastSelf(path, false);
      if p != [] then {p[0]} else ModulesOf(branches)
  }

  function ModulesOf(branches: seq<Tree>): set<string> {
    if branches == [] then {} else Modules(branches[0]) + ModulesOf(branches[1..])
  }

  // ---------------------------------------------------------------------
  // Scanning a printed tree
  // ---------------------------------------------------------------------

  /** `s` takes the depth from `d` to `e`, with no comma and no closing brace at depth 0. */
  predicate Walks(s: string, d: nat, e: nat) {
    if s == "" then d == e
    else
      && (s[0] in {',', '}'} ==> d > 0)
      && Walks(s[1..], Depth(d, s[0]), e)
  }

  lemma {:induction false} WalksConcat(a: string, b: string, d: nat, e: nat, f: nat)
    requires Walks(a, d, e) && Walks(b, e, f)
    ensures Walks(a + b, d, f)
  {
    if a == "" {
      assert a + b == b;
    } else {
      assert (a + b)[1..] == a[1..] + b;
      WalksConcat(a[1..], b, Depth(d, a[0]), e, f);
    }
  }

  lemma {:induction false} PlainWalks(s: string, d: nat)
    requires Free(s, {'{', '}', ','})
    ensures Walks(s, d, d)
  {
    if s != "" {
      PlainWalks(s[1..], d);
    }
  }

  lemma {:induction false} PrefixWalks(path: seq<string>, d: nat)
    requires forall i :: 0 <= i < |path| ==> IsIdentifier(path[i])
    ensures Walks(PrintPrefix(path), d, d)
  {
    if path != [] {
      PlainWalks(path[0] + "::", d);
      PrefixWalks(path[1..], d);
      WalksConcat(path[0] + "::", PrintPrefix(path[1..]), d, d, d);
    }
  }

  lemma {:induction false} PrintWalks(t: Tree, d: nat)
    requires WellFormed(t)
    ensures Walks(Print(t), d, d)
    decreases t
  {
    match t {
      case Name(path, alias) =>
        var last := path[|path| - 1] + if alias.Some? then "as" + alias.value else "";
        PrefixWalks(path[..|path| - 1], d);
        PlainWalks(last, d);
        WalksConcat(PrintPrefix(path[..|path| - 1]), last, d, d, d);
        assert Print(t) == PrintPrefix(path[..|path| - 1]) + last;
      case Glob(path) =>
        PrefixWalks(path, d);
        PlainWalks("*", d);
        WalksConcat(PrintPrefix(path), "*", d, d, d);
      case Group(path, branches, trailing) =>
        BranchesWalk(branches, trailing, d + 1);
        GroupWalks(path, PrintBranches(branches, trailing), d);
    }
  }

  lemma GroupWalks(path: seq<string>, body: string, d: nat)
    requires forall i :: 0 <= i < |path| ==> IsIdentifier(path[i])
    requires Walks(body, d + 1, d + 1)
    ensures Walks(PrintPrefix(path) + "{" + body + "}", d, d)
  {
    var braced := "{" + (body + "}");
    assert Walks(braced, d, d) by {
      WalksConcat(body, "}", d + 1, d + 1, d);
      assert braced[1..] == body + "}";
    }
    PrefixWalks(path, d);
    WalksConcat(PrintPrefix(path), braced, d, d, d);
    assert PrintPrefix(path) + "{" + body + "}" == PrintPrefix(path) + braced;
  }

  lemma {:induction false} BranchesWalk(branches: seq<Tree>, trailing: bool, d: nat)
    requires d > 0 && forall b :: b in branches ==> WellFormed(b)
    ensures Walks(PrintBranches(branches, trailing), d, d)
    decreases branches
  {
    if branches != [] {
      PrintWalks(branches[0], d);
      WalksConcat(Print(branches[0]), ",", d, d, d);
      WalksConcat(Print(branches[0]), "", d, d, d);
      BranchesWalk(branches[1..], trailing, d);
      WalksConcat(Print(branches[0]) + ",", PrintBranches(branches[1..], trailing), d, d, d);
    }
  }

  /** A walk back to depth 0 goes whole into the branch. */
  lemma {:induction false} ScanThrough(s: string, rest: string, d: nat, branch: string)
    requires Walks(s, d, 0)
    ensures Scan(s + rest, d, branch) == Scan(rest, 0, branch + s)
    decreases |s|
  {
    if s == "" {
      assert s + rest == rest && branch + s == branch;
    } else {
      assert (s + rest)[1..] == s[1..] + rest;
      ScanThrough(s[1..], rest, Depth(d, s[0]), branch + [s[0]]);
      assert branch + [s[0]] + s[1..] == branch + s;
    }
  }

  // ---------------------------------------------------------------------
  // Spaces
  // ---------------------------------------------------------------------

  lemma {:induction false} StripUnspaced(s: string)
    requires Free(s, WHITESPACE)
    ensures Strip(s) == s
  {
    if s != "" {
      StripUnspaced(s[1..]);
    }
  }

  lemma {:induction false} PrefixUnspaced(path: seq<string>)
    requires forall i :: 0 <= i < |path| ==> IsIdentifier(path[i])
    ensures Free(PrintPrefix(path), WHITESPACE)
  {
    if path != [] {
      PrefixUnspaced(path[1..]);
    }
  }

  lemma {:induction false} PrintUnspaced(t: Tree)
    requires WellFormed(t)
    ensures Free(Print(t), WHITESPACE)
    decreases t
  {
    match t
    case Name(path, _) => PrefixUnspaced(path[..|path| - 1]);
    case Glob(path) => PrefixUnspaced(path);
    case Group(path, branches, trailing) =>
      PrefixUnspaced(path);
      BranchesUnspaced(branches, trailing);
  }

  lemma {:induction false} BranchesUnspaced(branches: seq<Tree>, trailing: bool)
    requires forall b :: b in branches ==> WellFormed(b)
    ensures Free(PrintBranches(branches, trailing), WHITESPACE)
    decreases branches
  {
    if branches != [] {
      PrintUnspaced(branches[0]);
      BranchesUnspaced(branches[1..], trailing);
    }
  }

  // ---------------------------------------------------------------------
  // The scanner finds the modules
  // ---------------------------------------------------------------------

  /** What a tree writes before its item: the segments each followed by `::`. */
  function Lead(t: Tree): seq<string>
    requires WellFormed(t)
  {
    if t.Name? then t.path[..|t.path| - 1] else t.path
  }

  function Item(t: Tree): (r: string)
    requires WellFormed(t)
    ensures !t.Group? ==> Free(r, {':', '{'})
    ensures t.Group? ==> r == "{" + PrintBranches(t.branches, t.trailingComma) + "}"
  {
    match t
    case Name(path, alias) => path[|path| - 1] + (if alias.Some? then "as" + alias.value else "")
    case Glob(_) => "*"
    case Group(_, branches, trailing) => "{" + PrintBranches(branches, trailing) + "}"
  }

  lemma PrintIsLeadThenItem(t: Tree)
    requires WellFormed(t)
    ensures Print(t) == PrintPrefix(Lead(t)) + Item(t)
  {
    hide PrintPrefix, PrintBranches;
    if t.Group? {
      var a, b := PrintPrefix(t.path), PrintBranches(t.branches, t.trailingComma);
      assert a + "{" + b + "}" == a + ("{" + b + "}");
    }
  }

  lemma SplitFirst(path: seq<string>, item: string)
    requires path != []
    ensures PrintPrefix(path) + item == path[0] + "::" + (PrintPrefix(path[1..]) + item)
  {
    var a, b := path[0] + "::", PrintPrefix(path[1..]);
    assert a + b + item == a + (b + item);
  }

  lemma StripSelfDropsSelf(lead: seq<string>, item: string)
    requires forall i :: 0 <= i < |lead| ==> IsIdentifier(lead[i])
    requires item != "" ==> item[0] == '{' || Free(item, {':'})
    ensures StripSelf(PrintPrefix(lead) + item) == PrintPrefix(PastSelf(lead, false)) + item
  {
    if lead == [] {
      assert PrintPrefix(lead) + item == item;
      SelfNeedsColons(item);
    } else {
      var segment, rest := lead[0], PrintPrefix(lead[1..]) + item;
      SplitFirst(lead, item);
      OnlySelf(segment, rest);
      hide PrintPrefix, IsIdentifier, Free;
      SelfOrNot(segment, rest);
    }
  }

  lemma SelfOrNot(segment: string, rest: string)
    requires "self::" <= segment + "::" + rest ==> segment == "self"
    ensures StripSelf(segment + "::" + rest) == if segment == "self" then rest else segment + "::" + rest
  {
    SelfDropped(rest);
  }

  lemma SelfDropped(rest: string)
    ensures StripSelf("self" + "::" + rest) == rest
  {
    assert "self" + "::" == "self::";
    assert ("self::" + rest)[6..] == rest;
  }

  lemma SelfNeedsColons(item: string)
    requires item != "" ==> item[0] == '{' || Free(item, {':'})
    ensures !("self::" <= item)
  {
    assert "self::"[0] == 's' && "self::"[4] == ':';
  }

  lemma OnlySelf(segment: string, rest: string)
    requires IsIdentifier(segment)
    ensures "self::" <= segment + "::" + rest ==> segment == "self"
  {
    var s := segment + "::" + rest;
    assert s[|segment|] == ':';
    assert "self::" <= s ==> forall k :: 0 <= k < 4 ==> s[k] == "self"[k];
    assert "self::" <= s ==> s[4] == ':';
    assert |segment| > 4 ==> s[4] == segment[4];
    assert forall k :: 0 <= k < |segment| ==> s[k] == segment[k];
  }

  lemma HeadIsTheFirstSegment(path: seq<string>, item: string)
    requires path != [] && IsIdentifier(path[0])
    ensures !("{" <= PrintPrefix(path) + item)
    ensures Head(PrintPrefix(path) + item) == {path[0]}
  {
    SplitFirst(path, item);
    var rest := PrintPrefix(path[1..]) + item;
    var s := path[0] + "::" + rest;
    FindAfter(path[0], "::", rest);
    assert s[..|path[0]|] == path[0];
    assert s[0] == if path[0] == "" then ':' else path[0][0];
  }

  /** One step of the scan, from a text that stripping turns into a lead and an item. */
  lemma TopLevelOfParts(s: string, lead: seq<string>, item: string)
    requires forall i :: 0 <= i < |lead| ==> IsIdentifier(lead[i])
    requires item != "" ==> item[0] == '{' || Free(item, {':', '{'})
    requires Strip(s) == PrintPrefix(lead) + item
    ensures TopLevel(s) ==
            if PastSelf(lead, false) != [] then {PastSelf(lead, false)[0]}
            else if "{" <= item then Scan(Inner(item) + ",", 0, "")
            else {}
  {
    var p := PastSelf(lead, false);
    assert item != "" ==> item[0] == '{' || Free(item, {':'});
    if p == [] {
      assert PrintPrefix(p) + item == item;
    }
    hide Strip, PrintPrefix, Scan, Free, IsIdentifier;
    StripSelfDropsSelf(lead, item);
    if p != [] {
      HeadIsTheFirstSegment(p, item);
    } else if !("{" <= item) {
      NoColonsNoHead(item);
    }
  }

  lemma NoColonsNoHead(item: string)
    requires Free(item, {':'})
    ensures Head(item) == {}
  {
    FindNone(item, "::");
  }

  lemma ScanOneBranch(branch: string, rest: string)
    requires Walks(branch, 0, 0)
    ensures Scan(branch + "," + rest, 0, "") == TopLevel(branch) + Scan(rest, 0, "")
  {
    hide TopLevel;
    ScanThrough(branch, "," + rest, 0, "");
    assert branch + "," + rest == branch + ("," + rest);
    assert "" + branch == branch;
    assert ("," + rest)[1..] == rest;
  }

  /** Every tree, however it is spaced, is read as its modules. */
  lemma {:induction false} TopLevelOfPrinted(s: string, t: Tree)
    requires WellFormed(t) && Strip(s) == Print(t)
    ensures TopLevel(s) == Modules(t)
    decreases t, 1
  {
    PrintIsLeadThenItem(t);
    assert forall i :: 0 <= i < |Lead(t)| ==> IsIdentifier(Lead(t)[i]);
    if t.Group? {
      ScanBranches(t.branches, t.trailingComma);
    }
    hide TopLevel, Scan, Print, PrintPrefix, PrintBranches, Strip, Free, IsIdentifier;
    TopLevelOfParts(s, Lead(t), Item(t));
    if t.Group? {
      var body := PrintBranches(t.branches, t.trailingComma);
      assert Inner("{" + body + "}") == body;
    }
  }

  lemma {:induction false} ScanBranches(branches: seq<Tree>, trailing: bool)
    requires forall b :: b in branches ==> WellFormed(b)
    ensures Scan(PrintBranches(branches, trailing) + ",", 0, "") == ModulesOf(branches)
    decreases branches, 0
  {
    hide TopLevel, Scan, Print, Modules, Walks;
    NothingScans();
    if branches == [] {
      assert PrintBranches(branches, trailing) + "," == "" + "," + "";
      ScanOneBranch("", "");
    } else {
      var b := branches[0];
      PrintWalks(b, 0);
      PrintUnspaced(b);
      StripUnspaced(Print(b));
      TopLevelOfPrinted(Print(b), b);
      ScanBranches(branches[1..], trailing);
      var rest := if |branches| > 1 then PrintBranches(branches[1..], trailing) + ","
                  else if trailing then "," else "";
      assert PrintBranches(branches, trailing) + "," == Print(b) + "," + rest;
      ScanOneBranch(Print(b), rest);
    }
  }

  lemma NothingScans()
    ensures Walks("", 0, 0)
    ensures TopLevel("") == {} && Scan("", 0, "") == {} && Scan(",", 0, "") == {}
  {
    assert StripSelf(Strip("")) == "";
    FindNone("", "::");
    assert ","[1..] == "";
  }
}
