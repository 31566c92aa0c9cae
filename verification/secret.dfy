/**
 Secret URLs (`crates/bootstrap/src/secret.rs`): the four redaction passes, the parts they hide,
 and the scrubbing of somebody else's text. A string here is its UTF-8 bytes, one `char` each, so
 that a length is the source's.
 */
module Secret {
  import opened Prelude
  import opened Text

  const REDACTED := "***REDACTED***"
  const MIN_SCRUBBABLE := 4
  const SEPARATOR := "://"

  // ---------------------------------------------------------------------
  // The passes
  // ---------------------------------------------------------------------

  predicate IsPostgres(url: string) {
    "postgres://" <= url || "postgresql://" <= url
  }

  function RedactPassword(url: string): string {
    match Find(url, SEPARATOR)
    case None => url
    case Some(schemeEnd) =>
      var start := schemeEnd + |SEPARATOR|;
      var rest := url[start..];
      var authorityEnd := FindAny(rest, {'/', '?', '#'});
      HideUserInfo(url[..start], rest[..authorityEnd], rest[authorityEnd..], IsPostgres(url))
  }

  /** The password of the authority goes, up to its last `@`; what cannot be told apart goes whole. */
  function HideUserInfo(head: string, authority: string, tail: string, postgres: bool): string {
    var atBeyond := '@' in tail;
    match FindLast(authority, '@')
    case Some(at) =>
      if !atBeyond then
        var userinfo := authority[..at];
        match Find(userinfo, ":")
        case None => head + (if postgres then userinfo else REDACTED) + authority[at..] + tail
        case Some(colon) => head + userinfo[..colon] + ":" + REDACTED + authority[at..] + tail
      else if ':' in authority then head + REDACTED
      else head + authority + tail
    case None =>
      if atBeyond && ':' in authority then head + REDACTED else head + authority + tail
  }

  function RedactPath(url: string): string {
    if IsPostgres(url) then url
    else
      match Find(url, SEPARATOR)
      case None => url
      case Some(schemeEnd) => HidePath(url[..schemeEnd + |SEPARATOR|], url[schemeEnd + |SEPARATOR|..])
  }

  /** The first `/` past the scheme, up to a `?` or `#`, replaced unless it is only slashes. */
  function HidePath(head: string, rest: string): string {
    match Find(rest, "/")
    case None => head + rest
    case Some(offset) =>
      var fromPath := rest[offset..];
      var pathEnd := FindAny(fromPath, {'?', '#'});
      if OnlySlashes(fromPath[..pathEnd]) then head + rest
      else head + rest[..offset] + "/" + REDACTED + fromPath[pathEnd..]
  }

  predicate OnlySlashes(s: string) {
    forall i :: 0 <= i < |s| ==> s[i] == '/'
  }

  function RedactFrom(url: string, mark: char): string {
    var i := FindAny(url, {mark});
    if i < |url| then url[..i] + [mark] + REDACTED else url
  }

  function Redact(url: string): string {
    RedactFrom(RedactFrom(RedactPath(RedactPassword(url)), '?'), '#')
  }

  // ---------------------------------------------------------------------
  // URLs, by their parts (sections 3.1 to 3.5 of RFC 3986)
  // ---------------------------------------------------------------------

  datatype UserInfo = Bare(token: string) | Login(user: string, password: string)

  datatype Url = Url(
    scheme: string,
    userInfo: Option<UserInfo>,
    host: string,
    path: string,
    query: Option<string>,
    fragment: Option<string>
  )

  function PrintUserInfo(u: UserInfo): string {
    match u
    case Bare(token) => token
    case Login(user, password) => user + ":" + password
  }

  function PrintAuthority(userInfo: Option<UserInfo>, host: string): string {
    match userInfo
    case None => host
    case Some(info) => PrintUserInfo(info) + "@" + host
  }

  function PrintTail(query: Option<string>, fragment: Option<string>): string {
    (if query.Some? then "?" + query.value else "") + (if fragment.Some? then "#" + fragment.value else "")
  }

  function Print(u: Url): string {
    u.scheme + SEPARATOR + PrintAuthority(u.userInfo, u.host) + u.path + PrintTail(u.query, u.fragment)
  }

  /**
   What the delimiters of the components demand, and no `@` past the authority. An `@` in the
   userinfo and any `:` in the password are allowed.
   */
  predicate WellFormed(u: Url) {
    Free(u.scheme, {':', '?', '#'}) && AuthorityFormed(u.userInfo, u.host) && TailFormed(u.path, u.query, u.fragment)
  }

  predicate AuthorityFormed(userInfo: Option<UserInfo>, host: string) {
    && Free(host, {'/', '?', '#', '@'})
    && match userInfo
       case None => true
       case Some(Bare(token)) => Free(token, {'/', '?', '#', ':'})
       case Some(Login(user, password)) => Free(user, {'/', '?', '#', ':'}) && Free(password, {'/', '?', '#'})
  }

  predicate TailFormed(path: string, query: Option<string>, fragment: Option<string>) {
    && (path == "" || path[0] == '/')
    && Free(path, {'?', '#', '@'})
    && (query.Some? ==> Free(query.value, {'#', '@'}))
    && (fragment.Some? ==> Free(fragment.value, {'@'}))
  }

  predicate PostgresScheme(scheme: string) {
    scheme == "postgres" || scheme == "postgresql"
  }

  // ---------------------------------------------------------------------
  // What the output may depend on
  // ---------------------------------------------------------------------

  datatype Role = NoRole | HiddenRole | Named(user: string) | NamedAlone(user: string)

  datatype Tail = NoTail | HiddenQuery | HiddenFragment

  /** The public view of a URL: it holds no password, no hidden path, no query and no fragment. */
  datatype View = View(scheme: string, role: Role, host: string, path: Option<string>, tail: Tail)

  function ViewOf(u: Url): View {
    View(
      u.scheme,
      match u.userInfo
      case None => NoRole
      case Some(Bare(token)) => if PostgresScheme(u.scheme) then NamedAlone(token) else HiddenRole
      case Some(Login(user, _)) => Named(user),
      u.host,
      if PostgresScheme(u.scheme) || OnlySlashes(u.path) then Some(u.path) else None,
      if u.query.Some? then HiddenQuery else if u.fragment.Some? then HiddenFragment else NoTail)
  }

  function RenderRole(r: Role): string {
    match r
    case NoRole => ""
    case HiddenRole => REDACTED + "@"
    case Named(user) => user + ":" + REDACTED + "@"
    case NamedAlone(user) => user + "@"
  }

  function RenderTail(t: Tail): string {
    match t
    case NoTail => ""
    case HiddenQuery => "?" + REDACTED
    case HiddenFragment => "#" + REDACTED
  }

  function RenderFront(v: View): string {
    v.scheme + SEPARATOR + (RenderRole(v.role) + v.host)
  }

  function RenderPath(path: Option<string>): string {
    match path
    case Some(shown) => shown
    case None => "/" + REDACTED
  }

  function Render(v: View): string {
    RenderFront(v) + RenderPath(v.path) + RenderTail(v.tail)
  }

  // ---------------------------------------------------------------------
  // Redaction is non-interfering
  // ---------------------------------------------------------------------

  lemma PostgresByScheme(scheme: string, rest: string)
    requires ':' !in scheme
    ensures IsPostgres(scheme + SEPARATOR + rest) <==> PostgresScheme(scheme)
  {
    var url := scheme + SEPARATOR + rest;
    assert url[|scheme|] == ':';
    assert forall i :: 0 <= i < |scheme| ==> url[i] == scheme[i];
    if "postgres://" <= url {
      assert url[8] == ':';
      assert |scheme| == 8;
      assert scheme == url[..8] == "postgres";
    }
    if "postgresql://" <= url {
      assert url[10] == ':';
      assert |scheme| == 10;
      assert scheme == url[..10] == "postgresql";
    }
    if scheme == "postgres" {
      assert url[..11] == "postgres://";
    }
    if scheme == "postgresql" {
      assert url[..13] == "postgresql://";
    }
  }

  lemma SplitScheme(scheme: string, rest: string)
    requires ':' !in scheme
    ensures var url := scheme + SEPARATOR + rest;
            && Find(url, SEPARATOR) == Some(|scheme|)
            && url[|scheme| + |SEPARATOR|..] == rest
            && url[..|scheme| + |SEPARATOR|] == scheme + SEPARATOR
  {
    FindAfter(scheme, SEPARATOR, rest);
  }

  lemma HideUserInfoOf(u: Url, head: string, tail: string)
    requires WellFormed(u) && '@' !in tail
    ensures HideUserInfo(head, PrintAuthority(u.userInfo, u.host), tail, PostgresScheme(u.scheme))
         == head + (RenderRole(ViewOf(u).role) + u.host) + tail
  {
    var authority := PrintAuthority(u.userInfo, u.host);
    match u.userInfo {
      case None =>
        FindLastNone(authority, '@');
      case Some(info) =>
        AuthorityCut(info, u.host);
        UserInfoColon(info);
        match info
        case Bare(token) =>
          Associate(head, if PostgresScheme(u.scheme) then token else REDACTED, "@", u.host, tail);
        case Login(user, password) =>
          AssociateLogin(head, user, REDACTED, u.host, tail);
    }
  }

  lemma AuthorityCut(info: UserInfo, host: string)
    requires Free(host, {'@'})
    ensures var userinfo := PrintUserInfo(info);
            var authority := userinfo + "@" + host;
            && FindLast(authority, '@') == Some(|userinfo|)
            && authority[..|userinfo|] == userinfo
            && authority[|userinfo|..] == "@" + host
  {
    hide PrintUserInfo, FindLast, Free;
    var userinfo := PrintUserInfo(info);
    assert userinfo + "@" + host == userinfo + ['@'] + host;
    FindLastIn(userinfo, '@', host);
    CutBetween(userinfo, "@" + host);
    assert userinfo + "@" + host == userinfo + ("@" + host);
  }

  lemma Associate(a: string, b: string, c: string, d: string, e: string)
    ensures a + b + (c + d) + e == a + ((b + c) + d) + e
  {
    assert b + (c + d) == (b + c) + d;
    assert a + b + (c + d) == a + (b + (c + d));
  }

  lemma AssociateLogin(head: string, user: string, mark: string, host: string, tail: string)
    ensures head + user + ":" + mark + ("@" + host) + tail == head + ((user + ":" + mark + "@") + host) + tail
  {
    assert head + user + ":" + mark == head + (user + ":" + mark);
    Associate(head, user + ":" + mark, "@", host, tail);
  }

  /** The password pass on a whole URL. */
  lemma RedactPasswordOf(u: Url)
    requires WellFormed(u)
    ensures RedactPassword(Print(u)) == RenderFront(ViewOf(u)) + (u.path + PrintTail(u.query, u.fragment))
  {
    hide HideUserInfo, FindAny, Find, PrintAuthority, PrintTail, RenderRole, WellFormed;
    var head, authority := u.scheme + SEPARATOR, PrintAuthority(u.userInfo, u.host);
    var tail := u.path + PrintTail(u.query, u.fragment);
    assert ':' !in u.scheme by { SchemeOf(u); }
    assert Print(u) == head + (authority + tail);
    SplitScheme(u.scheme, authority + tail);
    PostgresByScheme(u.scheme, authority + tail);
    AuthorityEnds(u);
    assert (authority + tail)[..|authority|] == authority;
    assert (authority + tail)[|authority|..] == tail;
    NoAtBeyond(u);
    HideUserInfoOf(u, head, tail);
  }

  lemma SchemeOf(u: Url)
    requires WellFormed(u)
    ensures ':' !in u.scheme
  {
  }

  lemma UserInfoColon(info: UserInfo)
    requires match info
             case Bare(token) => ':' !in token
             case Login(user, _) => ':' !in user
    ensures var s := PrintUserInfo(info);
            match info
            case Bare(_) => Find(s, ":").None?
            case Login(user, _) => Find(s, ":") == Some(|user|) && s[..|user|] == user
  {
    match info
    case Bare(token) => FindNone(token, ":");
    case Login(user, password) => FindAfter(user, ":", password);
  }

  lemma AuthorityEnds(u: Url)
    requires WellFormed(u)
    ensures FindAny(PrintAuthority(u.userInfo, u.host) + (u.path + PrintTail(u.query, u.fragment)), {'/', '?', '#'}) ==
            |PrintAuthority(u.userInfo, u.host)|
  {
    FindAnyAfter(PrintAuthority(u.userInfo, u.host), u.path + PrintTail(u.query, u.fragment), {'/', '?', '#'});
  }

  lemma NoAtBeyond(u: Url)
    requires WellFormed(u)
    ensures '@' !in u.path + PrintTail(u.query, u.fragment)
  {
  }

  /** Both empty, or opening with the same delimiter. */
  predicate SameOpening(a: string, b: string) {
    if a == "" then b == "" else b != "" && a[0] == b[0]
  }

  predicate OpensTail(t: string) {
    t == "" || t[0] == '?' || t[0] == '#'
  }

  /** The path pass where there is a path. */
  lemma HidePathOf(head: string, authority: string, path: string, tail: string)
    requires Free(authority, {'/'}) && OpensTail(tail)
    requires path != "" && path[0] == '/' && Free(path, {'?', '#'})
    ensures HidePath(head, authority + (path + tail))
         == head + authority + (if OnlySlashes(path) then path else "/" + REDACTED) + tail
  {
    var rest := authority + (path + tail);
    PathAfter(authority, path, tail);
    FindAnyAfter(path, tail, {'?', '#'});
    CutBetween(authority, path + tail);
    CutBetween(path, tail);
    hide Find, FindAny, OnlySlashes, Free, OpensTail;
    AssociateFour(head, authority, path, tail);
    AssociateFour(head, authority, "/" + REDACTED, tail);
  }

  lemma PathAfter(authority: string, path: string, tail: string)
    requires Free(authority, {'/'}) && path != "" && path[0] == '/'
    ensures Find(authority + (path + tail), "/") == Some(|authority|)
  {
    assert '/' !in authority;
    hide Find, Free;
    FindAfter(authority, "/", path[1..] + tail);
    assert path == "/" + path[1..];
    AssociateThree("/", path[1..], tail);
    AssociateThree(authority, "/", path[1..] + tail);
  }

  lemma CutBetween(a: string, b: string)
    ensures (a + b)[..|a|] == a && (a + b)[|a|..] == b
  {
  }

  lemma AssociateFour(a: string, b: string, c: string, d: string)
    ensures a + (b + (c + d)) == a + b + c + d
    ensures a + b + "/" + REDACTED + d == a + b + ("/" + REDACTED) + d
  {
  }

  lemma AssociateFive(a: string, b: string, c: string, d: string, e: string, f: string)
    ensures a + (b + c) + d + e + f == a + b + (c + d + e + f)
  {
    assert a + (b + c) == a + b + c;
    assert c + d + e + f == c + (d + e + f);
    assert a + b + (c + (d + e + f)) == a + b + c + (d + e + f);
  }

  /** Past an empty path: a `/` it finds is inside what the next passes hide. */
  lemma HidePathInTail(head: string, authority: string, tail: string) returns (tail': string)
    requires Free(authority, {'/'}) && OpensTail(tail)
    ensures SameOpening(tail, tail') && HidePath(head, authority + tail) == head + authority + tail'
  {
    hide FindAny, OnlySlashes;
    var rest := authority + tail;
    var r := Find(rest, "/");
    if r.None? {
      tail' := tail;
    } else {
      OccursFirst(rest, "/", r.value);
      var m := r.value - |authority|;
      assert m > 0 && rest[..r.value] == authority + tail[..m];
      var end := FindAny(rest[r.value..], {'?', '#'});
      if OnlySlashes(rest[r.value..][..end]) {
        tail' := tail;
      } else {
        tail' := tail[..m] + "/" + REDACTED + rest[r.value..][end..];
        AssociateFive(head, authority, tail[..m], "/", REDACTED, rest[r.value..][end..]);
      }
    }
  }

  lemma RedactPathOf(scheme: string, authority: string, path: string, tail: string) returns (tail': string)
    requires ':' !in scheme && Free(authority, {'/'}) && OpensTail(tail)
    requires (path == "" || path[0] == '/') && Free(path, {'?', '#'})
    ensures SameOpening(tail, tail')
    ensures var shown := if PostgresScheme(scheme) || OnlySlashes(path) then Some(path) else None;
            RedactPath(scheme + SEPARATOR + authority + (path + tail))
            == scheme + SEPARATOR + authority + RenderPath(shown) + tail'
  {
    hide HidePath, PostgresScheme, IsPostgres, Free;
    var head, rest := scheme + SEPARATOR, authority + (path + tail);
    assert head + authority + (path + tail) == head + rest;
    SplitScheme(scheme, rest);
    PostgresByScheme(scheme, rest);
    tail' := tail;
    if PostgresScheme(scheme) {
      AssociateFour(head, authority, path, tail);
    } else if path != "" {
      HidePathOf(head, authority, path, tail);
    } else {
      assert path + tail == tail;
      tail' := HidePathInTail(head, authority, tail);
      assert head + authority + "" == head + authority;
    }
  }

  lemma RedactFromAt(front: string, mark: char, rest: string)
    requires Free(front, {mark})
    ensures RedactFrom(front + [mark] + rest, mark) == front + [mark] + REDACTED
  {
    var url := front + [mark] + rest;
    assert url == front + ([mark] + rest);
    FindAnyAfter(front, [mark] + rest, {mark});
    assert url[..|front|] == front;
  }

  lemma RedactFromNone(url: string, mark: char)
    requires Free(url, {mark})
    ensures RedactFrom(url, mark) == url
  {
    assert url + "" == url;
    FindAnyAfter(url, "", {mark});
  }

  /** The last two passes hide all from the delimiter that opens the tail. */
  lemma RedactTailOf(front: string, tail: string)
    requires Free(front, {'?', '#'}) && OpensTail(tail)
    ensures RedactFrom(RedactFrom(front + tail, '?'), '#')
         == front + (if tail == "" then "" else [tail[0]] + REDACTED)
  {
    assert Free(front, {'?'}) && Free(front, {'#'});
    assert Free(front + ['?'] + REDACTED, {'#'});
    hide RedactFrom, Free;
    if tail == "" {
      assert front + tail == front;
      RedactFromNone(front, '?');
      RedactFromNone(front, '#');
      assert front + "" == front;
    } else {
      assert front + tail == front + [tail[0]] + tail[1..];
      assert front + [tail[0]] + REDACTED == front + ([tail[0]] + REDACTED);
      if tail[0] == '?' {
        RedactFromAt(front, '?', tail[1..]);
        RedactFromNone(front + ['?'] + REDACTED, '#');
      } else {
        var kept := RedactPastHash(front, tail[1..]);
        RedactFromAt(front, '#', kept);
      }
    }
  }

  /** The query pass cuts nothing before a `#`. */
  lemma RedactPastHash(front: string, rest: string) returns (kept: string)
    requires Free(front, {'?'})
    ensures RedactFrom(front + ['#'] + rest, '?') == front + ['#'] + kept
  {
    var head, url := front + ['#'], front + ['#'] + rest;
    assert Free(head, {'?'});
    var i := FindAny(url, {'?'});
    kept := rest;
    if i < |url| {
      assert i >= |head|;
      hide FindAny, Free;
      kept := rest[..i - |head|] + ['?'] + REDACTED;
      assert url[..i] == head + rest[..i - |head|];
      AssociateThree(head, rest[..i - |head|], ['?']);
      AssociateThree(head, rest[..i - |head|] + ['?'], REDACTED);
    }
  }

  /** Redaction renders the public view: nothing else of the URL reaches the output. */
  lemma RedactShowsTheView(u: Url)
    requires WellFormed(u)
    ensures Redact(Print(u)) == Render(ViewOf(u))
  {
    hide RedactPassword, RedactPath, RedactFrom, Print, Free;
    var v := ViewOf(u);
    var authority, tail := RenderRole(v.role) + u.host, PrintTail(u.query, u.fragment);
    RedactPasswordOf(u);
    FrontIsFree(u);
    var tail' := RedactPathOf(u.scheme, authority, u.path, tail);
    var front := RenderFront(v) + RenderPath(v.path);
    RedactTailOf(front, tail');
    assert RenderTail(v.tail) == if tail' == "" then "" else [tail'[0]] + REDACTED;
  }

  lemma FrontIsFree(u: Url)
    requires WellFormed(u)
    ensures var v := ViewOf(u);
            && ':' !in u.scheme
            && Free(RenderRole(v.role) + u.host, {'/'})
            && (u.path == "" || u.path[0] == '/') && Free(u.path, {'?', '#'})
            && OpensTail(PrintTail(u.query, u.fragment))
            && Free(RenderFront(v) + RenderPath(v.path), {'?', '#'})
  {
    var v := ViewOf(u);
    MarkIsFree();
    assert Free(RenderRole(v.role), {'/', '?', '#'});
    assert Free(RenderRole(v.role) + u.host, {'/', '?', '#'});
    assert Free(RenderPath(v.path), {'?', '#'});
    assert Free(u.scheme + SEPARATOR, {'?', '#'});
  }

  lemma MarkIsFree()
    ensures Free(REDACTED, {'/', '?', '#'})
  {
  }

  /** What the redaction of a well-formed URL prints, written out. */
  lemma RedactedInFull(u: Url)
    requires WellFormed(u)
    ensures var postgres := u.scheme == "postgres" || u.scheme == "postgresql";
            var role := match u.userInfo
                        case None => ""
                        case Some(Bare(token)) => if postgres then token + "@" else REDACTED + "@"
                        case Some(Login(user, _)) => user + ":" + REDACTED + "@";
            var path := if postgres || (forall i :: 0 <= i < |u.path| ==> u.path[i] == '/') then u.path
                        else "/" + REDACTED;
            var tail := if u.query.Some? then "?" + REDACTED else if u.fragment.Some? then "#" + REDACTED else "";
            Redact(Print(u)) == u.scheme + SEPARATOR + (role + u.host) + path + tail
  {
    RedactShowsTheView(u);
    hide Redact, Print, WellFormed;
    assert PostgresScheme(u.scheme) <==> u.scheme == "postgres" || u.scheme == "postgresql";
    assert OnlySlashes(u.path) <==> forall i :: 0 <= i < |u.path| ==> u.path[i] == '/';
    hide PostgresScheme, OnlySlashes;
  }

  /** Two URLs with the same public view are redacted alike, whatever their secrets. */
  lemma RedactionIsNonInterfering(a: Url, b: Url)
    requires WellFormed(a) && WellFormed(b) && ViewOf(a) == ViewOf(b)
    ensures Redact(Print(a)) == Redact(Print(b))
  {
    RedactShowsTheView(a);
    RedactShowsTheView(b);
  }

  // ---------------------------------------------------------------------
  // Which strings are covered, and what the others do
  // ---------------------------------------------------------------------

  /** The authority and what follows it, of a string with a scheme. */
  function AuthorityOf(rest: string): string {
    rest[..FindAny(rest, {'/', '?', '#'})]
  }

  function Beyond(rest: string): string {
    rest[FindAny(rest, {'/', '?', '#'})..]
  }

  /** Every string with a scheme and no `@` past its authority is a well-formed URL, printed. */
  lemma EveryUrlIsPrinted(scheme: string, rest: string) returns (u: Url)
    requires Free(scheme, {':', '?', '#'}) && '@' !in Beyond(rest)
    ensures WellFormed(u) && Print(u) == scheme + SEPARATOR + rest
  {
    AuthorityEndsAt(rest);
    var userInfo, host := ParseAuthority(AuthorityOf(rest));
    var path, query, fragment := ParseTail(Beyond(rest));
    u := Url(scheme, userInfo, host, path, query, fragment);
    hide AuthorityFormed, TailFormed, PrintAuthority, PrintTail, AuthorityOf, Beyond;
    CutAuthority(rest);
    AssociateFour(scheme + SEPARATOR, AuthorityOf(rest), path, PrintTail(query, fragment));
  }

  lemma CutAuthority(rest: string)
    ensures rest == AuthorityOf(rest) + Beyond(rest)
  {
  }

  lemma AuthorityEndsAt(rest: string)
    ensures Free(AuthorityOf(rest), {'/', '?', '#'})
    ensures Beyond(rest) != "" ==> Beyond(rest)[0] in {'/', '?', '#'}
  {
  }

  lemma CutAt(s: string, i: nat)
    requires i < |s|
    ensures s == s[..i] + [s[i]] + s[i + 1..]
    ensures s == s[..i] + ([s[i]] + s[i + 1..])
  {
  }

  lemma FreeParts(s: string, chars: set<char>, i: nat)
    requires i <= |s| && Free(s, chars)
    ensures Free(s[..i], chars) && Free(s[i..], chars)
  {
  }

  lemma ParseAuthority(authority: string) returns (userInfo: Option<UserInfo>, host: string)
    requires Free(authority, {'/', '?', '#'})
    ensures authority == PrintAuthority(userInfo, host) && AuthorityFormed(userInfo, host)
  {
    var at := FindLast(authority, '@');
    if at.None? {
      return None, authority;
    }
    hide FindLast;
    CutAt(authority, at.value);
    FreeParts(authority, {'/', '?', '#'}, at.value);
    FreeParts(authority, {'/', '?', '#'}, at.value + 1);
    var info := ParseUserInfo(authority[..at.value]);
    return Some(info), authority[at.value + 1..];
  }

  lemma ParseUserInfo(s: string) returns (info: UserInfo)
    requires Free(s, {'/', '?', '#'})
    ensures s == PrintUserInfo(info) && AuthorityFormed(Some(info), "")
  {
    var colon := FindAny(s, {':'});
    if colon == |s| {
      assert s[..colon] == s;
      return Bare(s);
    }
    hide FindAny;
    CutAt(s, colon);
    FreeParts(s, {'/', '?', '#'}, colon);
    FreeParts(s, {'/', '?', '#'}, colon + 1);
    return Login(s[..colon], s[colon + 1..]);
  }

  lemma ParseTail(tail: string) returns (path: string, query: Option<string>, fragment: Option<string>)
    requires '@' !in tail && (tail != "" ==> tail[0] in {'/', '?', '#'})
    ensures TailFormed(path, query, fragment) && tail == path + PrintTail(query, fragment)
  {
    var pathEnd := FindAny(tail, {'?', '#'});
    path := tail[..pathEnd];
    var rest := tail[pathEnd..];
    assert '@' !in path && '@' !in rest;
    assert tail == path + rest;
    hide FindAny;
    query, fragment := ParseQuery(rest);
  }

  lemma ParseQuery(rest: string) returns (query: Option<string>, fragment: Option<string>)
    requires '@' !in rest && OpensTail(rest)
    ensures TailFormed("", query, fragment) && rest == PrintTail(query, fragment)
  {
    if rest == "" {
      return None, None;
    }
    var after := rest[1..];
    CutAt(rest, 0);
    assert Free(after, {'@'});
    assert rest == [rest[0]] + after;
    if rest[0] == '#' {
      assert PrintTail(None, Some(after)) == "#" + after;
      return None, Some(after);
    }
    hide OpensTail;
    query, fragment := ParseFragment(after);
  }

  /** What follows a `?`: a query, then perhaps a fragment. */
  lemma ParseFragment(after: string) returns (query: Option<string>, fragment: Option<string>)
    requires Free(after, {'@'})
    ensures TailFormed("", query, fragment) && "?" + after == PrintTail(query, fragment)
  {
    var end := FindAny(after, {'#'});
    if end == |after| {
      assert after[..end] == after;
      assert PrintTail(Some(after), None) == "?" + after;
      return Some(after), None;
    }
    var before, past := after[..end], after[end + 1..];
    assert Free(before, {'#'}) && after[end] == '#';
    FreeParts(after, {'@'}, end);
    FreeParts(after, {'@'}, end + 1);
    assert Free(before, {'#', '@'}) && Free(past, {'@'}) && Free("", {'?', '#', '@'});
    hide FindAny, Free;
    CutAt(after, end);
    AssociateThree("?", before, "#" + past);
    assert "?" + after == PrintTail(Some(before), Some(past));
    return Some(before), Some(past);
  }

  // ---------------------------------------------------------------------
  // An `@` past the authority
  // ---------------------------------------------------------------------

  function PathOf(rest: string): string {
    Beyond(rest)[..FindAny(Beyond(rest), {'?', '#'})]
  }

  function TailOf(rest: string): string {
    Beyond(rest)[FindAny(Beyond(rest), {'?', '#'})..]
  }

  lemma AssociateThree(a: string, b: string, c: string)
    ensures a + (b + c) == a + b + c
  {
  }

  lemma PasswordOfAmbiguous(scheme: string, rest: string)
    requires ':' !in scheme && '@' in Beyond(rest)
    ensures RedactPassword(scheme + SEPARATOR + rest)
         == if ':' in AuthorityOf(rest) then scheme + SEPARATOR + REDACTED else scheme + SEPARATOR + rest
  {
    hide Find, FindLast, FindAny, IsPostgres;
    var head, tail := scheme + SEPARATOR, Beyond(rest);
    SplitScheme(scheme, rest);
    assert head + rest == head + AuthorityOf(rest) + tail by {
      CutAuthority(rest);
      AssociateThree(head, AuthorityOf(rest), tail);
    }
  }

  /** The last three passes, on an authority that is shown, whatever follows it. */
  lemma RedactPastAuthority(scheme: string, authority: string, path: string, tail: string)
    requires Free(scheme, {':', '?', '#'}) && Free(authority, {'/', '?', '#'}) && OpensTail(tail)
    requires (path == "" || path[0] == '/') && Free(path, {'?', '#'})
    ensures var shown := if PostgresScheme(scheme) || OnlySlashes(path) then Some(path) else None;
            RedactFrom(RedactFrom(RedactPath(scheme + SEPARATOR + authority + (path + tail)), '?'), '#')
            == scheme + SEPARATOR + authority + RenderPath(shown) + (if tail == "" then "" else [tail[0]] + REDACTED)
  {
    var shown := if PostgresScheme(scheme) || OnlySlashes(path) then Some(path) else None;
    var front := scheme + SEPARATOR + authority + RenderPath(shown);
    MarkIsFree();
    assert ':' !in scheme && Free(authority, {'/'});
    assert Free(scheme + SEPARATOR, {'?', '#'}) && Free(RenderPath(shown), {'?', '#'});
    assert Free(front, {'?', '#'});
    hide RedactPath, RedactFrom, Free, PostgresScheme, OnlySlashes, RenderPath;
    var tail' := RedactPathOf(scheme, authority, path, tail);
    RedactTailOf(front, tail');
  }

  lemma CutBeyond(rest: string)
    ensures rest == AuthorityOf(rest) + (PathOf(rest) + TailOf(rest))
    ensures (PathOf(rest) == "" || PathOf(rest)[0] == '/') && Free(PathOf(rest), {'?', '#'})
    ensures OpensTail(TailOf(rest))
  {
    CutAuthority(rest);
    AuthorityEndsAt(rest);
    hide AuthorityOf, Beyond;
    var beyond := Beyond(rest);
    var i := FindAny(beyond, {'?', '#'});
    assert beyond == beyond[..i] + beyond[i..];
  }

  /**
   With an `@` past the authority, all but the scheme goes if the authority holds a `:`; otherwise
   the authority, a bare token included, is printed whole, and the rest is hidden as ever.
   */
  lemma AmbiguousUrl(scheme: string, rest: string)
    requires Free(scheme, {':', '?', '#'}) && '@' in Beyond(rest)
    ensures var shown := if PostgresScheme(scheme) || OnlySlashes(PathOf(rest)) then Some(PathOf(rest)) else None;
            Redact(scheme + SEPARATOR + rest)
            == if ':' in AuthorityOf(rest) then scheme + SEPARATOR + REDACTED
               else scheme + SEPARATOR + AuthorityOf(rest) + RenderPath(shown)
                    + (if TailOf(rest) == "" then "" else [TailOf(rest)[0]] + REDACTED)
  {
    assert ':' !in scheme;
    hide RedactPassword, RedactPath, RedactFrom, Free, AuthorityOf, Beyond, PathOf, TailOf;
    PasswordOfAmbiguous(scheme, rest);
    if ':' in AuthorityOf(rest) {
      MarkIsFree();
      NothingPastTheMark(scheme);
    } else {
      CutBeyond(rest);
      AuthorityEndsAt(rest);
      RedactPastAuthority(scheme, AuthorityOf(rest), PathOf(rest), TailOf(rest));
      AssociateThree(scheme + SEPARATOR, AuthorityOf(rest), PathOf(rest) + TailOf(rest));
    }
  }

  lemma NothingPastTheMark(scheme: string)
    requires Free(scheme, {':', '?', '#'})
    ensures RedactFrom(RedactFrom(RedactPath(scheme + SEPARATOR + REDACTED), '?'), '#') == scheme + SEPARATOR + REDACTED
  {
    MarkIsFree();
    var url := scheme + SEPARATOR + REDACTED;
    assert url == url + ("" + "") == url + "";
    hide RedactPath, RedactFrom;
    RedactPastAuthority(scheme, REDACTED, "", "");
  }
}
