/** `new URI(location)` followed by `getHost()` and `getPath()`, as `createTable` uses them on
    `external_location`: the parts of `java.net.URI`'s parser (Java 8) that decide whether the
    text is a URI at all, and which host and path it has. */
module Locations {
  import opened Results
  import opened Errors

  /** `URI.getHost()` (absent when the URI has no host) and `URI.getPath()`. */
  datatype Location = Location(host: Option<string>, path: string)

  // ---------------------------------------------------------------------------------
  // Scanning

  /** The index of the first character of `s` in `stops`, or `|s|`. */
  function FirstOf(s: string, stops: set<char>): (k: nat)
    ensures k <= |s| && (k < |s| ==> s[k] in stops)
    ensures forall j :: 0 <= j < k ==> s[j] !in stops
  {
    if |s| == 0 then 0
    else if s[0] in stops then 0
    else 1 + FirstOf(s[1..], stops)
  }

  /** The first character of `s` in `stops` is at `n` when `s[n]` is one and none comes
      before it. */
  lemma {:induction false} FirstOfAt(s: string, stops: set<char>, n: nat)
    requires n <= |s| && (n < |s| ==> s[n] in stops)
    requires forall j :: 0 <= j < n ==> s[j] !in stops
    ensures FirstOf(s, stops) == n
  {
    if n > 0 {
      FirstOfAt(s[1..], stops, n - 1);
    }
  }

  predicate NoneOf(s: string, stops: set<char>) {
    forall i :: 0 <= i < |s| ==> s[i] !in stops
  }

  // ---------------------------------------------------------------------------------
  // Character classes

  predicate Alpha(c: char) { 'a' <= c <= 'z' || 'A' <= c <= 'Z' }
  predicate Digit(c: char) { '0' <= c <= '9' }
  predicate AlphaNum(c: char) { Alpha(c) || Digit(c) }
  predicate Hex(c: char) { Digit(c) || 'a' <= c <= 'f' || 'A' <= c <= 'F' }

  predicate AllDigits(s: string) {
    forall i :: 0 <= i < |s| ==> Digit(s[i])
  }

  /** RFC 2396's unreserved characters: letters, digits and the marks. */
  predicate Unreserved(c: char) {
    AlphaNum(c) || c == '-' || c == '_' || c == '.' || c == '!' || c == '~' || c == '*' ||
    c == '\'' || c == '(' || c == ')'
  }

  /** `Character.isSpaceChar` with Java 8's tables (Unicode 6.2): the space, line and
      paragraph separators. */
  predicate SpaceChar(c: char) {
    c == ' ' || c == '\U{A0}' || c == '\U{1680}' || c == '\U{180E}' ||
    '\U{2000}' <= c <= '\U{200A}' || c == '\U{2028}' || c == '\U{2029}' || c == '\U{202F}' ||
    c == '\U{205F}' || c == '\U{3000}'
  }

  /** A character outside US-ASCII that the parser lets through unescaped: neither an ISO
      control (those end at U+009F) nor a space. */
  predicate OtherChar(c: char) {
    '\U{A0}' <= c && !SpaceChar(c)
  }

  /** The components whose characters the parser checks. */
  datatype Component = Opaque | Authority | Path | Query | Fragment

  /** The ASCII characters a component may hold as they are. Opaque parts, queries and
      fragments take RFC 2396's `uric` (reserved and unreserved); a path takes `pchar`, `;`
      and `/`; an authority takes what a registry name or a server may hold. `#` is in none
      of them, and `?` is only in the `uric` ones. */
  predicate Allowed(c: char, part: Component) {
    Unreserved(c) ||
    match part
    case Path => c == ':' || c == '@' || c == '&' || c == '=' || c == '+' || c == '$' ||
                 c == ',' || c == ';' || c == '/'
    case Authority => c == '$' || c == ',' || c == ';' || c == ':' || c == '@' || c == '&' ||
                      c == '=' || c == '+' || c == '[' || c == ']'
    case _ => c == ';' || c == '/' || c == '?' || c == ':' || c == '@' || c == '&' ||
              c == '=' || c == '+' || c == '$' || c == ',' || c == '[' || c == ']'
  }

  /** The text of a component passes the parser's check: each character is allowed, is a
      visible non-ASCII character, or is a `%` followed by two hexadecimal digits inside the
      component. */
  predicate Valid(s: string, part: Component) {
    forall i {:trigger s[i]} :: 0 <= i < |s| ==>
      Allowed(s[i], part) || OtherChar(s[i]) ||
      (s[i] == '%' && i + 2 < |s| && Hex(s[i + 1]) && Hex(s[i + 2]))
  }

  // ---------------------------------------------------------------------------------
  // Hosts

  /** A scheme: a letter, then letters, digits, `+`, `-` and `.`. */
  predicate IsScheme(s: string) {
    |s| > 0 && Alpha(s[0]) &&
    forall i :: 0 < i < |s| ==> AlphaNum(s[i]) || s[i] == '+' || s[i] == '-' || s[i] == '.'
  }

  /** The parts of `s` between dots. */
  function Labels(s: string): (ls: seq<string>)
    ensures |ls| > 0
    decreases |s|
  {
    var d := FirstOf(s, {'.'});
    if d == |s| then [s] else [s[..d]] + Labels(s[d + 1..])
  }

  /** A domain label: letters, digits and `-`, beginning and ending with a letter or a
      digit. */
  predicate IsLabel(t: string) {
    |t| > 0 && AlphaNum(t[0]) && AlphaNum(t[|t| - 1]) &&
    forall i :: 0 <= i < |t| ==> AlphaNum(t[i]) || t[i] == '-'
  }

  /** A hostname as `java.net.URI` reads one: labels separated by single dots, an optional
      final dot, and, when there is more than one label, a last label that begins with a
      letter. */
  predicate IsHostname(h: string) {
    && (forall i :: 0 <= i < |h| ==> AlphaNum(h[i]) || h[i] == '-' || h[i] == '.')
    && var b := if |h| > 0 && h[|h| - 1] == '.' then h[..|h| - 1] else h;
       var ls := Labels(b);
       && (forall i :: 0 <= i < |ls| ==> IsLabel(ls[i]))
       && (|ls| > 1 ==> Alpha(ls[|ls| - 1][0]))
  }

  /** The value of a string of decimal digits. */
  function DecimalValue(s: string): nat
    requires AllDigits(s)
  {
    if |s| == 0 then 0
    else DecimalValue(s[..|s| - 1]) * 10 + (s[|s| - 1] as int - '0' as int)
  }

  /** An IPv4 address: four dot-separated decimal numbers, none above 255. */
  predicate IsIPv4(h: string) {
    (forall i :: 0 <= i < |h| ==> Digit(h[i]) || h[i] == '.') &&
    var ls := Labels(h);
    |ls| == 4 &&
    forall i :: 0 <= i < 4 ==> |ls[i]| > 0 && AllDigits(ls[i]) && DecimalValue(ls[i]) <= 255
  }

  /** The largest port `Integer.parseInt` accepts. */
  const MaxPort := 0x7FFF_FFFF

  /** `getHost()` of an authority `[userinfo@]host[:port]`: the host when it is an IPv4
      address or a hostname and the port, if any, is a decimal number that fits an `int`;
      otherwise the authority is read as a registry name and there is no host. */
  function AuthorityHost(a: string): Option<string> {
    var u := FirstOf(a, {'@'});
    var hp := if u < |a| then a[u + 1..] else a;
    var c := FirstOf(hp, {':'});
    var h := hp[..c];
    var port := if c < |hp| then hp[c + 1..] else "";
    if AllDigits(port) && DecimalValue(port) <= MaxPort && (IsIPv4(h) || IsHostname(h)) then Some(h)
    else None
  }

  // ---------------------------------------------------------------------------------
  // The parser

  /** `new URI(loc)`: a scheme is the text before a `:` that comes before any `/`, `?` or
      `#`; an empty or malformed scheme is a syntax error. Every syntax error is
      CONFIGURATION_INVALID on the location. */
  function ParseLocation(loc: string): Result<Location, Error> {
    var k := FirstOf(loc, {':', '/', '?', '#'});
    if k < |loc| && loc[k] == ':' then
      if IsScheme(loc[..k]) then ParseSchemeSpecific(loc, loc[k + 1..], true)
      else Failure(ConfigurationInvalid(loc))
    else ParseSchemeSpecific(loc, loc, false)
  }

  /** The text after the scheme: a fragment after the first `#`, and before it either a
      hierarchical part or, after a scheme and without a leading `/`, a non-empty opaque
      part, which has no host. */
  function ParseSchemeSpecific(loc: string, ssp: string, hasScheme: bool): Result<Location, Error> {
    var f := FirstOf(ssp, {'#'});
    if f < |ssp| && !Valid(ssp[f + 1..], Fragment) then Failure(ConfigurationInvalid(loc))
    else if hasScheme && !(|ssp| > 0 && ssp[0] == '/') then
      if f == 0 || !Valid(ssp[..f], Opaque) then Failure(ConfigurationInvalid(loc))
      else Success(Location(None, ssp[..f]))
    else ParseHierarchical(loc, ssp[..f], f < |ssp|)
  }

  /** A hierarchical part: after `//`, an authority up to the next `/` or `?`. The authority
      may be empty only when something (a path, a query or a fragment) follows. */
  function ParseHierarchical(loc: string, hier: string, hasFragment: bool): Result<Location, Error> {
    if |hier| >= 2 && hier[..2] == "//" then
      var rest := hier[2..];
      var a := FirstOf(rest, {'/', '?'});
      if a == 0 then
        if |rest| == 0 && !hasFragment then Failure(ConfigurationInvalid(loc))
        else ParsePathQuery(loc, None, rest)
      else if Valid(rest[..a], Authority) then ParsePathQuery(loc, AuthorityHost(rest[..a]), rest[a..])
      else Failure(ConfigurationInvalid(loc))
    else ParsePathQuery(loc, None, hier)
  }

  /** The path, up to the first `?`, and the query after it. */
  function ParsePathQuery(loc: string, host: Option<string>, tail: string): Result<Location, Error> {
    var q := FirstOf(tail, {'?'});
    if Valid(tail[..q], Path) && (q == |tail| || Valid(tail[q + 1..], Query)) then
      Success(Location(host, tail[..q]))
    else Failure(ConfigurationInvalid(loc))
  }

  // ---------------------------------------------------------------------------------
  // Locations with an authority

  function QueryText(query: Option<string>): string {
    if query.Some? then "?" + query.value else ""
  }

  function FragmentText(fragment: Option<string>): string {
    if fragment.Some? then "#" + fragment.value else ""
  }

  /** `scheme://authority path[?query][#fragment]`. */
  function ServerText(scheme: string, authority: string, path: string,
                      query: Option<string>, fragment: Option<string>): string {
    scheme + ":" + ("//" + (authority + (path + QueryText(query) + FragmentText(fragment))))
  }

  /** A location with a scheme and a non-empty authority is a URI exactly when each of
      authority, path, query and fragment passes its character check; its host is then the
      host of the authority, and its path is the path as written when it holds no escape. */
  lemma {:induction false} ServerLocation(scheme: string, authority: string, path: string,
                                          query: Option<string>, fragment: Option<string>)
    requires IsScheme(scheme) && authority != "" && NoneOf(authority, {'/', '?', '#'})
    requires NoneOf(path, {'?', '#'}) && (path == "" || path[0] == '/')
    requires query.Some? ==> NoneOf(query.value, {'#'})
    ensures var r := ParseLocation(ServerText(scheme, authority, path, query, fragment));
      && (r.Success? <==>
            && Valid(authority, Authority) && Valid(path, Path)
            && (query.Some? ==> Valid(query.value, Query))
            && (fragment.Some? ==> Valid(fragment.value, Fragment)))
      && (r.Success? ==> r.value.host == AuthorityHost(authority))
      && (r.Success? && NoneOf(path, {'%'}) ==> r.value.path == path)
  {
    var loc := ServerText(scheme, authority, path, query, fragment);
    var pq := path + QueryText(query);
    var hier := "//" + (authority + pq);
    assert loc == scheme + ":" + (hier + FragmentText(fragment));
    SchemeSplit(scheme, hier + FragmentText(fragment));
    assert NoneOf(hier, {'#'}) by {
      NoneOfQuery(path, query);
      NoneOfConcat(authority, pq, {'#'});
      NoneOfConcat("//", authority + pq, {'#'});
    }
    FragmentSplit(loc, hier, fragment);
    AuthoritySplit(loc, authority, pq, fragment.Some?);
    PathQuerySplit(loc, AuthorityHost(authority), path, query);
  }

  /** `NoneOf` holds of a concatenation when it holds of both parts. */
  lemma {:induction false} NoneOfConcat(a: string, b: string, stops: set<char>)
    requires NoneOf(a, stops) && NoneOf(b, stops)
    ensures NoneOf(a + b, stops)
  {
    forall i | 0 <= i < |a + b| ensures (a + b)[i] !in stops {
      if i >= |a| {
        assert (a + b)[i] == b[i - |a|];
      }
    }
  }

  lemma {:induction false} NoneOfQuery(path: string, query: Option<string>)
    requires NoneOf(path, {'#'}) && (query.Some? ==> NoneOf(query.value, {'#'}))
    ensures NoneOf(path + QueryText(query), {'#'})
  {
    if query.Some? {
      NoneOfConcat("?", query.value, {'#'});
    }
    NoneOfConcat(path, QueryText(query), {'#'});
  }

  /** After a well-formed scheme, the rest of the location is scheme-specific. */
  lemma {:induction false} SchemeSplit(scheme: string, ssp: string)
    requires IsScheme(scheme)
    ensures ParseLocation(scheme + ":" + ssp) == ParseSchemeSpecific(scheme + ":" + ssp, ssp, true)
  {
    var loc := scheme + ":" + ssp;
    FirstOfAt(loc, {':', '/', '?', '#'}, |scheme|);
    assert loc[..|scheme|] == scheme && loc[|scheme| + 1..] == ssp;
  }

  /** A hierarchical part followed by an optional fragment. */
  lemma {:induction false} FragmentSplit(loc: string, hier: string, fragment: Option<string>)
    requires NoneOf(hier, {'#'}) && |hier| > 0 && hier[0] == '/'
    ensures ParseSchemeSpecific(loc, hier + FragmentText(fragment), true) ==
      if fragment.Some? && !Valid(fragment.value, Fragment) then Failure(ConfigurationInvalid(loc))
      else ParseHierarchical(loc, hier, fragment.Some?)
  {
    var ssp := hier + FragmentText(fragment);
    assert FirstOf(ssp, {'#'}) == |hier| && ssp[..|hier|] == hier && ssp[0] == '/' by {
      FirstOfAt(ssp, {'#'}, |hier|);
    }
    if fragment.Some? {
      assert ssp[|hier| + 1..] == fragment.value;
    } else {
      assert |ssp| == |hier|;
    }
  }

  /** `//authority` followed by nothing or by text beginning with `/` or `?`. */
  lemma {:induction false} AuthoritySplit(loc: string, authority: string, pq: string, hasFragment: bool)
    requires authority != "" && NoneOf(authority, {'/', '?'})
    requires pq == "" || pq[0] == '/' || pq[0] == '?'
    ensures ParseHierarchical(loc, "//" + (authority + pq), hasFragment) ==
      if Valid(authority, Authority) then ParsePathQuery(loc, AuthorityHost(authority), pq)
      else Failure(ConfigurationInvalid(loc))
  {
    var hier := "//" + (authority + pq);
    var rest := authority + pq;
    assert hier[..2] == "//" && hier[2..] == rest;
    FirstOfAt(rest, {'/', '?'}, |authority|);
    assert rest[..|authority|] == authority && rest[|authority|..] == pq;
  }

  /** A path without `?` followed by an optional query. */
  lemma {:induction false} PathQuerySplit(loc: string, host: Option<string>, path: string,
                                          query: Option<string>)
    requires NoneOf(path, {'?'})
    ensures ParsePathQuery(loc, host, path + QueryText(query)) ==
      if Valid(path, Path) && (query.Some? ==> Valid(query.value, Query))
      then Success(Location(host, path))
      else Failure(ConfigurationInvalid(loc))
  {
    var tail := path + QueryText(query);
    FirstOfAt(tail, {'?'}, |path|);
    assert tail[..|path|] == path;
    if query.Some? {
      assert tail[|path| + 1..] == query.value;
    }
  }

  /** A character that fails the check makes the whole component fail it. */
  lemma {:induction false} InvalidAt(s: string, part: Component, j: nat)
    requires j < |s|
    requires !(Allowed(s[j], part) || OtherChar(s[j]) ||
               (s[j] == '%' && j + 2 < |s| && Hex(s[j + 1]) && Hex(s[j + 2])))
    ensures !Valid(s, part)
  {
  }

  /** A leading `/` keeps a path without escapes valid. */
  lemma {:induction false} SlashPath(prefix: string)
    requires Valid(prefix, Path) && NoneOf(prefix, {'%'})
    ensures Valid("/" + prefix, Path) && NoneOf("/" + prefix, {'?', '#', '%'})
  {
    var path := "/" + prefix;
    forall i | 0 <= i < |path|
      ensures Allowed(path[i], Path) || OtherChar(path[i])
      ensures path[i] !in {'?', '#', '%'}
    {
      if i > 0 {
        assert path[i] == prefix[i - 1];
      }
    }
  }

  lemma {:induction false} PlainServerText(scheme: string, authority: string, path: string)
    ensures ServerText(scheme, authority, path, None, None) == scheme + "://" + authority + path
  {
    assert ":" + "//" == "://";
    assert path + QueryText(None) + FragmentText(None) == path;
  }

  /** `scheme://bucket/prefix` has host `bucket` and path `/prefix` when the bucket is a
      hostname and the prefix passes the path check without escapes. */
  lemma {:induction false} ParseBucketLocation(scheme: string, bucket: string, prefix: string)
    requires IsScheme(scheme) && IsHostname(bucket) && bucket != ""
    requires Valid(prefix, Path) && NoneOf(prefix, {'%'})
    ensures ParseLocation(scheme + "://" + bucket + "/" + prefix) ==
            Success(Location(Some(bucket), "/" + prefix))
  {
    var path := "/" + prefix;
    SlashPath(prefix);
    assert Valid(bucket, Authority) && NoneOf(bucket, {'/', '?', '#'});
    ServerLocation(scheme, bucket, path, None, None);
    HostnameIsHost(bucket);
    PlainServerText(scheme, bucket, path);
    assert scheme + "://" + bucket + path == scheme + "://" + bucket + "/" + prefix;
  }

  /** A path holding `[` or `]` is not a URI path, whatever the rest: `new URI` throws. */
  lemma {:induction false} BracketInPathFails(scheme: string, authority: string, path: string,
                                              query: Option<string>, fragment: Option<string>, j: nat)
    requires IsScheme(scheme) && authority != "" && NoneOf(authority, {'/', '?', '#'})
    requires NoneOf(path, {'?', '#'}) && (path == "" || path[0] == '/')
    requires query.Some? ==> NoneOf(query.value, {'#'})
    requires j < |path| && (path[j] == '[' || path[j] == ']')
    ensures ParseLocation(ServerText(scheme, authority, path, query, fragment)).Failure?
  {
    InvalidAt(path, Path, j);
    ServerLocation(scheme, authority, path, query, fragment);
  }

  /** A `%` not followed by two hexadecimal digits in the path makes `new URI` throw. */
  lemma {:induction false} MalformedEscapeFails(scheme: string, authority: string, path: string,
                                                query: Option<string>, fragment: Option<string>, j: nat)
    requires IsScheme(scheme) && authority != "" && NoneOf(authority, {'/', '?', '#'})
    requires NoneOf(path, {'?', '#'}) && (path == "" || path[0] == '/')
    requires query.Some? ==> NoneOf(query.value, {'#'})
    requires j < |path| && path[j] == '%' && !(j + 2 < |path| && Hex(path[j + 1]) && Hex(path[j + 2]))
    ensures ParseLocation(ServerText(scheme, authority, path, query, fragment)).Failure?
  {
    InvalidAt(path, Path, j);
    ServerLocation(scheme, authority, path, query, fragment);
  }

  /** A control character or a space, ASCII or not, in the path makes `new URI` throw. */
  lemma {:induction false} ControlOrSpaceFails(scheme: string, authority: string, path: string,
                                               query: Option<string>, fragment: Option<string>, j: nat)
    requires IsScheme(scheme) && authority != "" && NoneOf(authority, {'/', '?', '#'})
    requires NoneOf(path, {'?', '#'}) && (path == "" || path[0] == '/')
    requires query.Some? ==> NoneOf(query.value, {'#'})
    requires j < |path| && (path[j] < ' ' || '\U{7F}' <= path[j] <= '\U{9F}' || SpaceChar(path[j]))
    ensures ParseLocation(ServerText(scheme, authority, path, query, fragment)).Failure?
  {
    InvalidAt(path, Path, j);
    ServerLocation(scheme, authority, path, query, fragment);
  }

  // ---------------------------------------------------------------------------------
  // Other locations

  /** Without a `/` after the scheme the rest up to `#` is an opaque part: a URI exactly
      when it is non-empty and passes its check (so `s3:` and `s3:#x` are not URIs), and
      then without a host. */
  lemma {:induction false} OpaqueLocation(scheme: string, body: string, fragment: Option<string>)
    requires IsScheme(scheme) && NoneOf(body, {'#'}) && !(|body| > 0 && body[0] == '/')
    ensures var r := ParseLocation(scheme + ":" + (body + FragmentText(fragment)));
      && (r.Success? <==>
            body != "" && Valid(body, Opaque) && (fragment.Some? ==> Valid(fragment.value, Fragment)))
      && (r.Success? ==> r.value.host.None?)
  {
    var ssp := body + FragmentText(fragment);
    SchemeSplit(scheme, ssp);
    FirstOfAt(ssp, {'#'}, |body|);
    assert ssp[..|body|] == body;
    if fragment.Some? {
      assert ssp[|body| + 1..] == fragment.value;
    }
  }

  /** A `:` before any `/`, `?` or `#` after text that is no scheme makes `new URI` throw. */
  lemma {:induction false} InvalidSchemeFails(s: string, rest: string)
    requires NoneOf(s, {':', '/', '?', '#'}) && !IsScheme(s)
    ensures ParseLocation(s + ":" + rest).Failure?
  {
    FirstOfAt(s + ":" + rest, {':', '/', '?', '#'}, |s|);
    assert (s + ":" + rest)[..|s|] == s;
  }

  // ---------------------------------------------------------------------------------
  // Hosts of authorities

  /** A single label is a hostname. */
  lemma {:induction false} LabelIsHostname(h: string)
    requires IsLabel(h)
    ensures IsHostname(h)
  {
    FirstOfAt(h, {'.'}, |h|);
    assert Labels(h) == [h];
  }

  /** A hostname has neither `@` nor `:`, so it is its own host. */
  lemma {:induction false} HostnameIsHost(h: string)
    requires IsHostname(h)
    ensures AuthorityHost(h) == Some(h)
  {
    assert FirstOf(h, {'@'}) == |h| by {
      FirstOfAt(h, {'@'}, |h|);
    }
    assert FirstOf(h, {':'}) == |h| by {
      FirstOfAt(h, {':'}, |h|);
    }
    assert h[..|h|] == h;
  }

  /** A hostname with a port is the host exactly when the port fits an `int`; a larger
      port makes the server parse fail, and the authority is then a registry name. */
  lemma {:induction false} PortedHost(h: string, port: string)
    requires IsHostname(h) && AllDigits(port)
    ensures AuthorityHost(h + ":" + port) == if DecimalValue(port) <= MaxPort then Some(h) else None
  {
    var a := h + ":" + port;
    FirstOfAt(a, {'@'}, |a|);
    assert a[..|a|] == a;
    FirstOfAt(a, {':'}, |h|);
    assert a[..|h|] == h && a[|h| + 1..] == port;
  }

  /** An authority without `@` and `:` that holds a character no hostname has, such as
      `_`, is a registry name: it has no host. */
  lemma {:induction false} RegistryNameHasNoHost(authority: string, j: nat)
    requires NoneOf(authority, {'@', ':'})
    requires j < |authority| && !(AlphaNum(authority[j]) || authority[j] == '-' || authority[j] == '.')
    ensures AuthorityHost(authority) == None
  {
    FirstOfAt(authority, {'@'}, |authority|);
    FirstOfAt(authority, {':'}, |authority|);
    assert authority[..|authority|] == authority;
  }
}
