/** Round trip of URLs: what is printed from parts is accepted by `http_parser_parse_url`, and
    its fields are the parts. */
module HttpUrlText {
  import opened Wrappers
  import opened HttpTypes
  import opened HttpSwitch
  import opened HttpUrl

  /* ---- Printing ---- */

  /** What a request names: a URL with a schema and an authority, a path alone, or the host and
      the port that CONNECT wants. */
  datatype Target = Absolute(schema: string) | Origin | Connect

  datatype Host = NoHost | Name(name: string) | V6(address: string, zone: string)

  /** The parts of a URL; those that are empty are absent. */
  datatype Parts = Parts(target: Target, user: string, host: Host, port: string,
                         path: string, query: string, fragment: string)

  predicate AllUrlChars(s: string) { forall ch <- s :: IsUrlChar(ch) || ch == '?' }

  predicate IsAddressChar(ch: char) { IsHex(ch) || ch == ':' || ch == '.' }

  predicate ProperHost(h: Host) {
    match h
    case NoHost => true
    case Name(name) => name != "" && forall ch <- name :: IsHostChar(ch)
    case V6(address, zone) => address != "" && (forall ch <- address :: IsAddressChar(ch)) && forall ch <- zone :: IsZoneChar(ch)
  }

  predicate Proper(u: Parts) {
    && (forall ch <- u.user :: IsUserinfoChar(ch)) && ProperHost(u.host) && (forall ch <- u.port :: IsNum(ch))
    && (forall ch <- u.path :: IsUrlChar(ch)) && AllUrlChars(u.query) && AllUrlChars(u.fragment)
    && match u.target
       case Absolute(schema) =>
         && schema != "" && (forall ch <- schema :: IsAlpha(ch)) && !u.host.NoHost?
         && (u.path != "" ==> u.path[0] == '/') && (u.fragment != "" ==> u.path != "" || u.query != "")
       case Origin => u.user == "" && u.host.NoHost? && u.port == "" && u.path != "" && (u.path[0] == '/' || u.path[0] == '*')
       case Connect => u.user == "" && !u.host.NoHost? && u.port != "" && u.path == "" && u.query == "" && u.fragment == ""
  }

  function After(delimiter: string, s: string): string { if s == "" then "" else delimiter + s }

  function Before(s: string, delimiter: string): string { if s == "" then "" else s + delimiter }

  function HostText(h: Host): string {
    match h
    case NoHost => ""
    case Name(name) => name
    case V6(address, zone) => address + After("%", zone)
  }

  function Opening(h: Host): string { if h.V6? then "[" else "" }

  function Closing(h: Host): string { if h.V6? then "]" else "" }

  function HeadText(u: Parts): string { if u.target.Absolute? then u.target.schema + "://" else "" }

  /** The authority behind its user. */
  function ServerText(u: Parts): string {
    ((Opening(u.host) + HostText(u.host)) + Closing(u.host)) + After(":", u.port)
  }

  function AuthorityText(u: Parts): string { Before(u.user, "@") + ServerText(u) }

  function UptoPath(u: Parts): string { (HeadText(u) + AuthorityText(u)) + u.path }

  function Print(u: Parts): string { (UptoPath(u) + After("?", u.query)) + After("#", u.fragment) }

  function SchemaText(u: Parts): string { if u.target.Absolute? then u.target.schema else "" }

  function TextOfField(u: Parts, f: UrlField): string {
    match f
    case UfSchema => SchemaText(u)
    case UfHost => HostText(u.host)
    case UfPort => u.port
    case UfPath => u.path
    case UfQuery => u.query
    case UfFragment => u.fragment
    case UfUserinfo => u.user
  }

  /** The text of a part of the printed URL. */
  ghost predicate Stands(buf: string, n: nat, s: string) { n + |s| <= |buf| && buf[n..n + |s|] == s }

  lemma InTwo(buf: string, n: nat, a: string, b: string)
    requires Stands(buf, n, a + b)
    ensures Stands(buf, n, a) && Stands(buf, n + |a|, b)
  {
    assert buf[n..n + |a|] == buf[n..n + |a + b|][..|a|];
    assert buf[n + |a|..n + |a| + |b|] == buf[n..n + |a + b|][|a|..];
  }

  /* ---- Where the parts stand ---- */

  function UserPlace(u: Parts): nat { |HeadText(u)| }

  function ServerPlace(u: Parts): nat { UserPlace(u) + |Before(u.user, "@")| }

  function HostPlace(u: Parts): nat { ServerPlace(u) + |Opening(u.host)| }

  function HostEnd(u: Parts): nat { HostPlace(u) + |HostText(u.host)| }

  function ServerEnd(u: Parts): nat { HostEnd(u) + |Closing(u.host)| }

  function PathPlace(u: Parts): nat { UserPlace(u) + |AuthorityText(u)| }

  function QueryPlace(u: Parts): nat { PathPlace(u) + |u.path| }

  function FragmentPlace(u: Parts): nat { QueryPlace(u) + |After("?", u.query)| }

  lemma Printed(u: Parts)
    ensures
      var buf := Print(u);
      && Stands(buf, 0, HeadText(u)) && Stands(buf, UserPlace(u), AuthorityText(u)) && Stands(buf, PathPlace(u), u.path)
      && Stands(buf, QueryPlace(u), After("?", u.query)) && Stands(buf, FragmentPlace(u), After("#", u.fragment))
      && |buf| == FragmentPlace(u) + |After("#", u.fragment)|
  {
    hide HeadText, AuthorityText, After, Stands;
    var buf := Print(u);
    assert Stands(buf, 0, buf) by { Whole(buf); }
    InTwo(buf, 0, UptoPath(u) + After("?", u.query), After("#", u.fragment));
    InTwo(buf, 0, UptoPath(u), After("?", u.query));
    InTwo(buf, 0, HeadText(u) + AuthorityText(u), u.path);
    InTwo(buf, 0, HeadText(u), AuthorityText(u));
  }

  lemma Whole(buf: string)
    ensures Stands(buf, 0, buf)
  {
  }

  lemma AuthorityPrinted(u: Parts)
    ensures
      var buf := Print(u);
      && Stands(buf, UserPlace(u), Before(u.user, "@")) && Stands(buf, ServerPlace(u), ServerText(u))
      && Stands(buf, ServerPlace(u), Opening(u.host)) && Stands(buf, HostPlace(u), HostText(u.host))
      && Stands(buf, HostEnd(u), Closing(u.host)) && Stands(buf, ServerEnd(u), After(":", u.port))
      && PathPlace(u) == ServerEnd(u) + |After(":", u.port)|
  {
    hide HeadText, Before, After, Stands, Opening, Closing, HostText, Print;
    var buf := Print(u);
    Printed(u);
    InTwo(buf, UserPlace(u), Before(u.user, "@"), ServerText(u));
    InTwo(buf, ServerPlace(u), (Opening(u.host) + HostText(u.host)) + Closing(u.host), After(":", u.port));
    InTwo(buf, ServerPlace(u), Opening(u.host) + HostText(u.host), Closing(u.host));
    InTwo(buf, ServerPlace(u), Opening(u.host), HostText(u.host));
  }

  /* ---- The first pass ---- */

  /** Where the first pass stands before byte `n`: its state, whether it has met an `@`, and
      the spans so far. */
  ghost predicate Found(buf: string, isConnect: bool, n: nat, s: State, at: bool, spans: map<UrlField, Span>) {
    && n <= |buf| && Trace(buf, StartOf(isConnect), n) == s && (HasAt(buf, isConnect, n) <==> at)
    && forall f: UrlField :: SpanUpto(buf, isConnect, n, f) == Lookup(spans, f)
  }

  function Lookup(spans: map<UrlField, Span>, f: UrlField): Option<Span> {
    if f in spans then Some(spans[f]) else None
  }

  /** The spans after `len` more bytes of a field. */
  function Wider(spans: map<UrlField, Span>, f: Option<UrlField>, off: nat, len: nat): map<UrlField, Span> {
    if f.None? || len == 0 then spans
    else if f.value in spans then spans[f.value := Span(spans[f.value].off, spans[f.value].len + len)]
    else spans[f.value := Span(off, len)]
  }

  lemma FoundNothing(buf: string, isConnect: bool)
    ensures Found(buf, isConnect, 0, StartOf(isConnect), false, map[])
  {
  }

  /** Bytes that lead from `s` into a state and then stay in it. */
  predicate Enters(s: State, text: string, inner: State) {
    forall i :: 0 <= i < |text| ==> ParseUrlChar(if i == 0 then s else inner, text[i]) == inner
  }

  lemma WiderTwice(spans: map<UrlField, Span>, f: Option<UrlField>, off: nat, len: nat)
    ensures Wider(Wider(spans, f, off, len), f, off + len, 1) == Wider(spans, f, off, len + 1)
  {
  }

  lemma ByteFound(buf: string, isConnect: bool, n: nat, s: State, at: bool, spans: map<UrlField, Span>)
    requires n < |buf| && Found(buf, isConnect, n, s, at, spans)
    ensures
      var t := ParseUrlChar(s, buf[n]);
      Found(buf, isConnect, n + 1, t, at || t.ReqServerWithAt?, Wider(spans, FieldOf(t), n, 1))
  {
    hide ParseUrlChar, FieldOf;
    var (m, t) := (n + 1, ParseUrlChar(s, buf[n]));
    assert Trace(buf, StartOf(isConnect), m) == t;
    forall f: UrlField
      ensures SpanUpto(buf, isConnect, m, f) == Lookup(Wider(spans, FieldOf(t), n, 1), f)
    {
      assert SpanUpto(buf, isConnect, n, f) == Lookup(spans, f);
    }
  }

  lemma {:induction false} PartFound(buf: string, isConnect: bool, n: nat, s: State, at: bool, spans: map<UrlField, Span>,
                                     text: string, inner: State)
    requires Found(buf, isConnect, n, s, at, spans) && Stands(buf, n, text) && Enters(s, text, inner)
    ensures text == "" ==> Found(buf, isConnect, n + |text|, s, at, spans)
    ensures text != "" ==> Found(buf, isConnect, n + |text|, inner, at || inner.ReqServerWithAt?,
                                 Wider(spans, FieldOf(inner), n, |text|))
    decreases |text|
  {
    hide ParseUrlChar, FieldOf, Found, Wider;
    if text != "" {
      var k := |text| - 1;
      InTwo(buf, n, text[..k], text[k..]);
      assert text == text[..k] + text[k..];
      PartFound(buf, isConnect, n, s, at, spans, text[..k], inner);
      assert buf[n + k] == text[k];
      WiderTwice(spans, FieldOf(inner), n, k);
      if k == 0 { ByteFound(buf, isConnect, n, s, at, spans); }
      else { ByteFound(buf, isConnect, n + k, inner, at || inner.ReqServerWithAt?, Wider(spans, FieldOf(inner), n, k)); }
    }
  }

  lemma SchemaMoves()
    ensures ParseUrlChar(ReqSchema, ':') == ReqSchemaSlash
    ensures ParseUrlChar(ReqSchemaSlash, '/') == ReqSchemaSlashSlash
    ensures ParseUrlChar(ReqSchemaSlashSlash, '/') == ReqServerStart
  {
  }

  lemma AtMoves()
    ensures ParseUrlChar(ReqServer, '@') == ReqServerWithAt
  {
  }

  lemma DelimiterMoves()
    ensures ParseUrlChar(ReqServer, '?') == ReqQueryStringStart && ParseUrlChar(ReqPath, '?') == ReqQueryStringStart
    ensures ParseUrlChar(ReqPath, '#') == ReqFragmentStart && ParseUrlChar(ReqQueryString, '#') == ReqFragmentStart
  {
  }

  /** The state in front of the authority, or of the path where there is none. */
  function AfterHead(u: Parts): State { if u.target.Origin? then ReqSpacesBeforeUrl else ReqServerStart }

  function SchemaSpan(u: Parts): map<UrlField, Span> {
    if u.target.Absolute? then map[UfSchema := Span(0, |SchemaText(u)|)] else map[]
  }

  lemma SchemaChars(u: Parts)
    requires Proper(u)
    ensures SchemaText(u) == "" <==> !u.target.Absolute?
    ensures Enters(ReqSpacesBeforeUrl, SchemaText(u), ReqSchema)
  {
    var text := SchemaText(u);
    assert forall i :: 0 <= i < |text| ==> text[i] in text;
  }

  lemma HeadFound(u: Parts)
    requires Proper(u)
    ensures Found(Print(u), u.target.Connect?, UserPlace(u), AfterHead(u), false, SchemaSpan(u))
  {
    hide ParseUrlChar, Print, Proper, Found, Stands, Enters;
    var (buf, schema) := (Print(u), SchemaText(u));
    Printed(u);
    SchemaChars(u);
    SchemaMoves();
    FoundNothing(buf, u.target.Connect?);
    if u.target.Absolute? {
      var spans := map[UfSchema := Span(0, |schema|)];
      assert Wider(map[], Some(UfSchema), 0, |schema|) == spans;
      InTwo(buf, 0, schema, "://");
      assert "://" == ":" + ("/" + "/");
      InTwo(buf, |schema|, ":", "/" + "/");
      InTwo(buf, |schema| + 1, "/", "/");
      OneByte(ReqSchema, ':', ReqSchemaSlash);
      OneByte(ReqSchemaSlash, '/', ReqSchemaSlashSlash);
      OneByte(ReqSchemaSlashSlash, '/', ReqServerStart);
      PartFound(buf, false, 0, ReqSpacesBeforeUrl, false, map[], schema, ReqSchema);
      PartFound(buf, false, |schema|, ReqSchema, false, spans, ":", ReqSchemaSlash);
      PartFound(buf, false, |schema| + 1, ReqSchemaSlash, false, spans, "/", ReqSchemaSlashSlash);
      PartFound(buf, false, |schema| + 2, ReqSchemaSlashSlash, false, spans, "/", ReqServerStart);
    }
  }

  predicate IsServerChar(ch: char) { IsUserinfoChar(ch) || IsHostChar(ch) || ch == '[' || ch == ']' }

  lemma ServerMoves(s: State, text: string)
    requires s.ReqServerStart? || s.ReqServer? || s.ReqServerWithAt?
    requires forall ch <- text :: IsServerChar(ch)
    ensures Enters(s, text, ReqServer)
  {
    forall i | 0 <= i < |text|
      ensures ParseUrlChar(if i == 0 then s else ReqServer, text[i]) == ReqServer
    {
      assert text[i] in text;
    }
  }

  lemma ServerClasses(ch: char)
    ensures IsAddressChar(ch) || IsZoneChar(ch) || IsNum(ch) || ch == ':' || ch == '%' ==> IsServerChar(ch)
    ensures IsUserinfoChar(ch) || IsHostChar(ch) || ch == '[' || ch == ']' ==> IsServerChar(ch)
  {
  }

  lemma ServerChars(u: Parts)
    requires Proper(u)
    ensures forall ch <- u.user :: IsServerChar(ch)
    ensures forall ch <- ServerText(u) :: IsServerChar(ch)
    ensures ServerText(u) == "" <==> u.target.Origin?
  {
    hide IsServerChar, IsAddressChar, IsZoneChar, IsHostChar, IsUserinfoChar, IsUrlChar, AllUrlChars, IsAlpha;
    forall ch | ch in u.user || ch in ServerText(u)
      ensures IsServerChar(ch)
    {
      ServerClasses(ch);
    }
  }

  /** The span of the whole authority, which the first pass takes for the host. */
  function AuthoritySpan(u: Parts): map<UrlField, Span> {
    if u.target.Origin? then map[] else SchemaSpan(u)[UfHost := Span(UserPlace(u), |AuthorityText(u)|)]
  }

  function AfterAuthority(u: Parts): State { if u.target.Origin? then ReqSpacesBeforeUrl else ReqServer }

  lemma AuthorityFound(u: Parts)
    requires Proper(u)
    ensures Found(Print(u), u.target.Connect?, PathPlace(u), AfterAuthority(u), u.user != "", AuthoritySpan(u))
  {
    hide ParseUrlChar, Print, Proper, Found, Stands, IsServerChar, HeadText, ServerText, Enters, UserPlace;
    var (buf, connect, n) := (Print(u), u.target.Connect?, UserPlace(u));
    AuthorityPrinted(u);
    HeadFound(u);
    ServerChars(u);
    if u.target.Origin? {
      OriginBare(u);
    } else if u.user == "" {
      ServerMoves(ReqServerStart, ServerText(u));
      PartFound(buf, connect, n, ReqServerStart, false, SchemaSpan(u), ServerText(u), ReqServer);
    } else {
      WithUser(buf, connect, n, SchemaSpan(u), u.user, ServerText(u));
    }
  }

  lemma WithUser(buf: string, connect: bool, n: nat, spans: map<UrlField, Span>, user: string, server: string)
    requires Found(buf, connect, n, ReqServerStart, false, spans) && UfHost !in spans
    requires Stands(buf, n, user + "@") && Stands(buf, n + |user + "@"|, server) && user != "" && server != ""
    requires (forall ch <- user :: IsServerChar(ch)) && (forall ch <- server :: IsServerChar(ch))
    ensures Found(buf, connect, n + |(user + "@") + server|, ReqServer, true, spans[UfHost := Span(n, |(user + "@") + server|)])
  {
    hide ParseUrlChar, Found, Stands, IsServerChar, Enters;
    InTwo(buf, n, user, "@");
    AtMoves();
    OneByte(ReqServer, '@', ReqServerWithAt);
    ServerMoves(ReqServerStart, user);
    ServerMoves(ReqServerWithAt, server);
    var one, two := spans[UfHost := Span(n, |user|)], spans[UfHost := Span(n, |user| + 1)];
    PartFound(buf, connect, n, ReqServerStart, false, spans, user, ReqServer);
    assert Wider(one, Some(UfHost), n + |user|, 1) == two;
    PartFound(buf, connect, n + |user|, ReqServer, false, one, "@", ReqServerWithAt);
    PartFound(buf, connect, n + |user| + 1, ReqServerWithAt, true, two, server, ReqServer);
    assert Wider(two, Some(UfHost), n + |user| + 1, |server|) == spans[UfHost := Span(n, |(user + "@") + server|)];
  }

  lemma OriginBare(u: Parts)
    requires Proper(u) && u.target.Origin?
    ensures u.user == "" && UserPlace(u) == PathPlace(u) == 0
  {
  }

  lemma PathChars(u: Parts)
    requires Proper(u)
    ensures Enters(AfterAuthority(u), u.path, ReqPath)
    ensures u.path == "" ==> !u.target.Origin?
  {
    hide IsUrlChar, IsUserinfoChar, IsHostChar, IsNum, IsAlpha, AllUrlChars, ProperHost;
    forall i | 0 <= i < |u.path|
      ensures ParseUrlChar(if i == 0 then AfterAuthority(u) else ReqPath, u.path[i]) == ReqPath
    {
      assert u.path[i] in u.path;
      PathChar(u.path[i]);
    }
  }

  lemma PathChar(ch: char)
    requires IsUrlChar(ch)
    ensures ParseUrlChar(ReqPath, ch) == ReqPath
    ensures ch == '/' ==> ParseUrlChar(ReqServer, ch) == ReqPath
    ensures ch == '/' || ch == '*' ==> ParseUrlChar(ReqSpacesBeforeUrl, ch) == ReqPath
  {
  }

  function PathSpan(u: Parts): map<UrlField, Span> {
    Wider(AuthoritySpan(u), Some(UfPath), PathPlace(u), |u.path|)
  }

  function AfterPath(u: Parts): State { if u.path == "" then ReqServer else ReqPath }

  lemma PathFound(u: Parts)
    requires Proper(u)
    ensures Found(Print(u), u.target.Connect?, QueryPlace(u), AfterPath(u), u.user != "", PathSpan(u))
  {
    hide ParseUrlChar, Print, Proper, Found, Stands;
    Printed(u);
    AuthorityFound(u);
    PathChars(u);
    PartFound(Print(u), u.target.Connect?, PathPlace(u), AfterAuthority(u), u.user != "", AuthoritySpan(u), u.path, ReqPath);
  }

  lemma LaterChars(text: string)
    requires AllUrlChars(text)
    ensures Enters(ReqQueryStringStart, text, ReqQueryString) && Enters(ReqFragmentStart, text, ReqFragment)
  {
    forall i | 0 <= i < |text|
      ensures ParseUrlChar(if i == 0 then ReqQueryStringStart else ReqQueryString, text[i]) == ReqQueryString
      ensures ParseUrlChar(if i == 0 then ReqFragmentStart else ReqFragment, text[i]) == ReqFragment
    {
      assert text[i] in text;
    }
  }

  lemma LaterParts(u: Parts)
    requires Proper(u)
    ensures AllUrlChars(u.query) && AllUrlChars(u.fragment)
    ensures u.fragment != "" ==> u.path != "" || u.query != ""
  {
    hide IsUrlChar, IsUserinfoChar, IsHostChar, IsNum, IsAlpha, AllUrlChars, ProperHost;
  }

  function QuerySpan(u: Parts): map<UrlField, Span> {
    Wider(PathSpan(u), Some(UfQuery), QueryPlace(u) + 1, |u.query|)
  }

  function AfterQuery(u: Parts): State { if u.query == "" then AfterPath(u) else ReqQueryString }

  lemma QueryFound(u: Parts)
    requires Proper(u)
    ensures Found(Print(u), u.target.Connect?, FragmentPlace(u), AfterQuery(u), u.user != "", QuerySpan(u))
  {
    hide ParseUrlChar, Print, Proper, Found, Stands, PathSpan, Enters, AllUrlChars, QueryPlace, PathPlace;
    var (buf, connect, at, n) := (Print(u), u.target.Connect?, u.user != "", QueryPlace(u));
    Printed(u);
    PathFound(u);
    if u.query != "" {
      InTwo(buf, n, "?", u.query);
      DelimiterMoves();
      LaterParts(u);
      LaterChars(u.query);
      OneByte(AfterPath(u), '?', ReqQueryStringStart);
      PartFound(buf, connect, n, AfterPath(u), at, PathSpan(u), "?", ReqQueryStringStart);
      PartFound(buf, connect, n + 1, ReqQueryStringStart, at, PathSpan(u), u.query, ReqQueryString);
    }
  }

  lemma OneByte(s: State, ch: char, t: State)
    requires ParseUrlChar(s, ch) == t
    ensures Enters(s, [ch], t)
  {
  }

  function FragmentSpan(u: Parts): map<UrlField, Span> {
    Wider(QuerySpan(u), Some(UfFragment), FragmentPlace(u) + 1, |u.fragment|)
  }

  function AfterAll(u: Parts): State { if u.fragment == "" then AfterQuery(u) else ReqFragment }

  /** The first pass over the whole URL: its spans are those of the parts, the authority being
      taken for the host. */
  lemma AllFound(u: Parts)
    requires Proper(u)
    ensures Found(Print(u), u.target.Connect?, |Print(u)|, AfterAll(u), u.user != "", FragmentSpan(u))
  {
    hide ParseUrlChar, Print, Proper, Found, Stands, PathSpan, QuerySpan, Enters, AllUrlChars, FragmentPlace;
    var (buf, connect, at, n) := (Print(u), u.target.Connect?, u.user != "", FragmentPlace(u));
    Printed(u);
    QueryFound(u);
    if u.fragment != "" {
      InTwo(buf, n, "#", u.fragment);
      DelimiterMoves();
      LaterParts(u);
      LaterChars(u.fragment);
      OneByte(AfterQuery(u), '#', ReqFragmentStart);
      PartFound(buf, connect, n, AfterQuery(u), at, QuerySpan(u), "#", ReqFragmentStart);
      PartFound(buf, connect, n + 1, ReqFragmentStart, at, QuerySpan(u), u.fragment, ReqFragment);
    }
  }

  /* ---- The second pass ---- */

  /** Where the second pass stands before byte `n` of an authority that begins at `from`. */
  ghost predicate HostFound(buf: string, from: nat, n: nat, start: HostState, s: HostState, spans: map<UrlField, Span>) {
    && from <= n <= |buf| && HostTrace(buf, from, n, start) == s
    && forall f: UrlField :: HostUpto(buf, from, n, start, f) == Lookup(spans, f)
  }

  predicate HostEnters(s: HostState, text: string, inner: HostState) {
    forall i :: 0 <= i < |text| ==> ParseHostChar(if i == 0 then s else inner, text[i]) == inner
  }

  lemma HostByteFound(buf: string, from: nat, n: nat, start: HostState, s: HostState, spans: map<UrlField, Span>)
    requires n < |buf| && HostFound(buf, from, n, start, s, spans)
    ensures
      var t := ParseHostChar(s, buf[n]);
      HostFound(buf, from, n + 1, start, t, Wider(spans, HostFieldOf(t), n, 1))
  {
    hide ParseHostChar, HostFieldOf;
    var (m, t) := (n + 1, ParseHostChar(s, buf[n]));
    assert HostTrace(buf, from, m, start) == t;
    forall f: UrlField
      ensures HostUpto(buf, from, m, start, f) == Lookup(Wider(spans, HostFieldOf(t), n, 1), f)
    {
      assert HostUpto(buf, from, n, start, f) == Lookup(spans, f);
    }
  }

  lemma {:induction false} HostPartFound(buf: string, from: nat, n: nat, start: HostState, s: HostState,
                                         spans: map<UrlField, Span>, text: string, inner: HostState)
    requires HostFound(buf, from, n, start, s, spans) && Stands(buf, n, text) && HostEnters(s, text, inner)
    ensures text == "" ==> HostFound(buf, from, n + |text|, start, s, spans)
    ensures text != "" ==> HostFound(buf, from, n + |text|, start, inner, Wider(spans, HostFieldOf(inner), n, |text|))
    decreases |text|
  {
    hide ParseHostChar, HostFieldOf, HostFound, Wider;
    if text != "" {
      var k := |text| - 1;
      InTwo(buf, n, text[..k], text[k..]);
      assert text == text[..k] + text[k..];
      HostPartFound(buf, from, n, start, s, spans, text[..k], inner);
      assert buf[n + k] == text[k];
      WiderTwice(spans, HostFieldOf(inner), n, k);
      if k == 0 { HostByteFound(buf, from, n, start, s, spans); }
      else { HostByteFound(buf, from, n + k, start, inner, Wider(spans, HostFieldOf(inner), n, k)); }
    }
  }

  function HostStartFor(u: Parts): HostState { if u.user == "" then HostStart else UserinfoStart }

  function UserSpan(u: Parts): map<UrlField, Span> { Wider(map[], Some(UfUserinfo), UserPlace(u), |u.user|) }

  lemma UserChars(text: string)
    requires forall ch <- text :: IsUserinfoChar(ch)
    ensures HostEnters(UserinfoStart, text, Userinfo)
  {
    assert forall i :: 0 <= i < |text| ==> text[i] in text;
  }

  lemma UserFound(u: Parts)
    requires Proper(u)
    ensures HostFound(Print(u), UserPlace(u), ServerPlace(u), HostStartFor(u), HostStart, UserSpan(u))
  {
    hide Print, Stands, IsUserinfoChar, HeadText, ServerText, ProperHost, AllUrlChars, IsUrlChar, IsNum, IsAlpha;
    hide HostFound, HostEnters, UserPlace;
    var (buf, n) := (Print(u), UserPlace(u));
    AuthorityPrinted(u);
    Fits(buf, n, Before(u.user, "@"));
    HostFoundNothing(buf, n, HostStartFor(u));
    if u.user != "" {
      InTwo(buf, n, u.user, "@");
      UserChars(u.user);
      HostOneByte(Userinfo, '@', HostStart);
      HostPartFound(buf, n, n, UserinfoStart, UserinfoStart, map[], u.user, Userinfo);
      HostPartFound(buf, n, n + |u.user|, UserinfoStart, Userinfo, UserSpan(u), "@", HostStart);
    }
  }

  lemma HostFoundNothing(buf: string, from: nat, start: HostState)
    requires from <= |buf|
    ensures HostFound(buf, from, from, start, start, map[])
  {
  }

  lemma Fits(buf: string, n: nat, s: string)
    requires Stands(buf, n, s)
    ensures n + |s| <= |buf|
  {
  }

  function ServerSpan(u: Parts): map<UrlField, Span> {
    Wider(UserSpan(u), Some(UfHost), HostPlace(u), |HostText(u.host)|)
  }

  /** The state behind a host. */
  function AfterHost(u: Parts): HostState { if u.host.V6? then HostV6End else HostState.Host }

  lemma NameFound(u: Parts)
    requires Proper(u) && u.host.Name?
    ensures HostFound(Print(u), UserPlace(u), ServerEnd(u), HostStartFor(u), AfterHost(u), ServerSpan(u))
  {
    hide Print, Stands, Proper, HostFound, UserPlace, UserSpan;
    AuthorityPrinted(u);
    UserFound(u);
    HostProper(u);
    NameChars(u.host.name);
    HostPartFound(Print(u), UserPlace(u), HostPlace(u), HostStartFor(u), HostStart, UserSpan(u), u.host.name, HostState.Host);
  }

  lemma HostProper(u: Parts)
    requires Proper(u)
    ensures ProperHost(u.host)
  {
    hide ProperHost, AllUrlChars, IsUrlChar, IsNum, IsAlpha, IsUserinfoChar;
  }

  lemma NameChars(text: string)
    requires forall ch <- text :: IsHostChar(ch)
    ensures HostEnters(HostStart, text, HostState.Host)
  {
    assert forall i :: 0 <= i < |text| ==> text[i] in text;
  }

  lemma AddressChars(address: string, zone: string)
    requires forall ch <- address :: IsAddressChar(ch)
    requires forall ch <- zone :: IsZoneChar(ch)
    ensures HostEnters(HostStart, "[", HostV6Start)
    ensures HostEnters(HostV6Start, address, HostV6) && HostEnters(HostV6ZoneStart, zone, HostV6Zone)
    ensures HostEnters(HostV6, "%", HostV6ZoneStart)
    ensures HostEnters(HostV6, "]", HostV6End) && HostEnters(HostV6Zone, "]", HostV6End)
  {
    assert forall i :: 0 <= i < |address| ==> address[i] in address;
    forall i | 0 <= i < |zone|
      ensures ParseHostChar(if i == 0 then HostV6ZoneStart else HostV6Zone, zone[i]) == HostV6Zone
    {
      assert zone[i] in zone;
    }
  }

  lemma AddressFound(u: Parts)
    requires Proper(u) && u.host.V6?
    ensures HostFound(Print(u), UserPlace(u), ServerEnd(u), HostStartFor(u), AfterHost(u), ServerSpan(u))
  {
    hide Print, Stands, Proper, HostFound, UserPlace, UserSpan, HostEnters, IsAddressChar, IsZoneChar;
    var (buf, from, start, address, zone) := (Print(u), UserPlace(u), HostStartFor(u), u.host.address, u.host.zone);
    var (n, user) := (HostPlace(u), UserSpan(u));
    NoHostYet(u);
    AuthorityPrinted(u);
    UserFound(u);
    HostProper(u);
    AddressChars(address, zone);
    HostPartFound(buf, from, ServerPlace(u), start, HostStart, user, "[", HostV6Start);
    if zone == "" {
      assert HostText(u.host) == address;
      HostPartFound(buf, from, n, start, HostV6Start, user, address, HostV6);
      HostPartFound(buf, from, n + |address|, start, HostV6, user[UfHost := Span(n, |address|)], "]", HostV6End);
    } else {
      InTwo(buf, n, address, "%" + zone);
      InTwo(buf, n + |address|, "%", zone);
      var one, two := user[UfHost := Span(n, |address|)], user[UfHost := Span(n, |address| + 1)];
      HostPartFound(buf, from, n, start, HostV6Start, user, address, HostV6);
      HostPartFound(buf, from, n + |address|, start, HostV6, one, "%", HostV6ZoneStart);
      assert Wider(one, Some(UfHost), n + |address|, 1) == two;
      assert Wider(two, Some(UfHost), n + |address| + 1, |zone|) == ServerSpan(u);
      HostPartFound(buf, from, n + |address| + 1, start, HostV6ZoneStart, two, zone, HostV6Zone);
      HostPartFound(buf, from, n + |address| + 1 + |zone|, start, HostV6Zone, ServerSpan(u), "]", HostV6End);
    }
  }

  lemma NoHostYet(u: Parts)
    ensures UfHost !in UserSpan(u)
  {
  }

  function PortSpans(u: Parts): map<UrlField, Span> {
    Wider(ServerSpan(u), Some(UfPort), ServerEnd(u) + 1, |u.port|)
  }

  function AfterServer(u: Parts): HostState { if u.port == "" then AfterHost(u) else HostPort }

  lemma PortChars(u: Parts)
    requires Proper(u)
    ensures HostEnters(HostPortStart, u.port, HostPort) && HostEnters(AfterHost(u), ":", HostPortStart)
  {
    hide ProperHost, AllUrlChars, IsUrlChar, IsUserinfoChar;
    assert forall i :: 0 <= i < |u.port| ==> u.port[i] in u.port;
    HostOneByte(AfterHost(u), ':', HostPortStart);
  }

  lemma HostOneByte(s: HostState, ch: char, t: HostState)
    requires ParseHostChar(s, ch) == t
    ensures HostEnters(s, [ch], t)
  {
  }

  /** The second pass over the authority: user, host and port are those that were printed. */
  lemma ServerFound(u: Parts)
    requires Proper(u) && !u.host.NoHost?
    ensures HostFound(Print(u), UserPlace(u), PathPlace(u), HostStartFor(u), AfterServer(u), PortSpans(u))
  {
    hide Print, Stands, Proper, HostFound, UserPlace, UserSpan, ServerSpan, HostEnters, AfterHost, AuthorityText, ServerEnd;
    if u.host.Name? { NameFound(u); } else { AddressFound(u); }
    AuthorityPrinted(u);
    if u.port != "" {
      var (buf, from, n) := (Print(u), UserPlace(u), ServerEnd(u));
      InTwo(buf, n, ":", u.port);
      PortChars(u);
      HostPartFound(buf, from, n, HostStartFor(u), AfterHost(u), ServerSpan(u), ":", HostPortStart);
      HostPartFound(buf, from, n + 1, HostStartFor(u), HostPortStart, ServerSpan(u), u.port, HostPort);
    }
  }

  /* ---- The round trip ---- */

  /** Where the text of a field stands, if it has one. */
  function SpanIn(u: Parts, f: UrlField): Option<Span> {
    if TextOfField(u, f) == "" then None
    else
      var off :=
        match f
        case UfSchema => 0
        case UfUserinfo => UserPlace(u)
        case UfHost => HostPlace(u)
        case UfPort => ServerEnd(u) + 1
        case UfPath => PathPlace(u)
        case UfQuery => QueryPlace(u) + 1
        case UfFragment => FragmentPlace(u) + 1;
      Some(Span(off, |TextOfField(u, f)|))
  }

  lemma AuthorityKnown(u: Parts)
    requires Proper(u)
    ensures !Trace(Print(u), StartOf(u.target.Connect?), |Print(u)|).Dead?
    ensures Authority(Print(u), u.target.Connect?)
            == if u.target.Origin? then None else Some(Span(UserPlace(u), |AuthorityText(u)|))
    ensures HostStartOf(Print(u), u.target.Connect?) == HostStartFor(u)
    ensures forall f: UrlField :: f != UfHost && f != UfPort && f != UfUserinfo
              ==> SpanUpto(Print(u), u.target.Connect?, |Print(u)|, f) == Lookup(FragmentSpan(u), f)
  {
    hide Print, Proper, HasAt, Trace, SpanUpto, AuthorityText, UserPlace;
    AllFound(u);
    assert Lookup(FragmentSpan(u), UfHost) == if u.target.Origin? then None else Some(Span(UserPlace(u), |AuthorityText(u)|));
  }

  lemma FirstSpans(u: Parts, f: UrlField)
    requires Proper(u) && f != UfHost && f != UfPort && f != UfUserinfo
    ensures Lookup(FragmentSpan(u), f) == SpanIn(u, f)
  {
    hide Print, Proper, AuthorityText, UserPlace, PathPlace, QueryPlace, FragmentPlace, Enters;
    SchemaChars(u);
  }

  lemma ServerSpans(u: Parts, f: UrlField)
    requires Proper(u) && (f == UfHost || f == UfPort || f == UfUserinfo)
    ensures Lookup(PortSpans(u), f) == SpanIn(u, f)
  {
    hide Print, Proper, AuthorityText, UserPlace, HostPlace, HostEnd, ServerEnd, HostText;
  }

  lemma OriginHasNone(u: Parts, f: UrlField)
    requires Proper(u) && u.target.Origin? && (f == UfHost || f == UfPort || f == UfUserinfo)
    ensures SpanIn(u, f) == None
  {
  }

  lemma HasServer(u: Parts)
    requires Proper(u)
    ensures u.host.NoHost? <==> u.target.Origin?
    ensures !u.target.Origin? ==> HostText(u.host) != ""
    ensures u.target.Connect? ==> u.user == "" && u.port != "" && u.path == "" && u.query == "" && u.fragment == ""
  {
    hide IsAddressChar, IsZoneChar, IsHostChar, IsUserinfoChar, IsUrlChar, AllUrlChars, IsAlpha;
  }

  lemma SpansFound(u: Parts, f: UrlField)
    requires Proper(u)
    ensures UrlSpan(Print(u), u.target.Connect?, f) == SpanIn(u, f)
  {
    hide Print, Proper, AuthorityText, HostUpto, HostTrace, SpanUpto, HasAt, SpanIn, PortSpans, FragmentSpan, Authority, HostStartOf;
    AuthorityKnown(u);
    HasServer(u);
    if f != UfHost && f != UfPort && f != UfUserinfo {
      FirstSpans(u, f);
    } else if u.target.Origin? {
      OriginHasNone(u, f);
    } else {
      ServerFound(u);
      ServerSpans(u, f);
    }
  }

  /** The span of a field holds its text. */
  lemma SpanText(u: Parts, f: UrlField)
    ensures
      match SpanIn(u, f)
      case None => TextOfField(u, f) == ""
      case Some(s) => s.off + s.len <= |Print(u)| && Print(u)[s.off..s.off + s.len] == TextOfField(u, f) != ""
  {
    hide Print, TextOfField;
    if TextOfField(u, f) != "" { FieldStands(u, f); }
  }

  lemma FieldStands(u: Parts, f: UrlField)
    requires TextOfField(u, f) != ""
    ensures SpanIn(u, f).Some? && Stands(Print(u), SpanIn(u, f).value.off, TextOfField(u, f))
  {
    hide Print, Stands, AuthorityText, HostText, UserPlace, ServerPlace, HostPlace, ServerEnd, PathPlace, QueryPlace, FragmentPlace;
    var buf := Print(u);
    match f {
      case UfSchema =>
        Printed(u);
        InTwo(buf, 0, u.target.schema, "://");
      case UfUserinfo =>
        AuthorityPrinted(u);
        InTwo(buf, UserPlace(u), u.user, "@");
      case UfHost =>
        AuthorityPrinted(u);
      case UfPort =>
        AuthorityPrinted(u);
        InTwo(buf, ServerEnd(u), ":", u.port);
      case UfPath =>
        Printed(u);
      case UfQuery =>
        Printed(u);
        InTwo(buf, QueryPlace(u), "?", u.query);
      case UfFragment =>
        Printed(u);
        InTwo(buf, FragmentPlace(u), "#", u.fragment);
    }
  }

  /** Both passes accept what is printed, and find each part where it stands. */
  lemma PartsFound(u: Parts)
    requires Proper(u)
    ensures WellFormed(Print(u), u.target.Connect?)
    ensures forall f: UrlField ::
              match UrlSpan(Print(u), u.target.Connect?, f)
              case None => TextOfField(u, f) == ""
              case Some(s) => s.off + s.len <= |Print(u)| && Print(u)[s.off..s.off + s.len] == TextOfField(u, f) != ""
  {
    hide Print, AuthorityText, UrlSpan, Authority, HostStartOf, SpanIn, Proper, AuthorityOk;
    forall f: UrlField
      ensures match UrlSpan(Print(u), u.target.Connect?, f)
              case None => TextOfField(u, f) == ""
              case Some(s) => s.off + s.len <= |Print(u)| && Print(u)[s.off..s.off + s.len] == TextOfField(u, f) != ""
    {
      SpansFound(u, f);
      SpanText(u, f);
    }
    AuthorityKnown(u);
    HasServer(u);
    AuthorityEnds(u);
  }

  lemma AuthorityEnds(u: Parts)
    requires Proper(u)
    ensures AuthorityOk(Print(u), u.target.Connect?)
  {
    hide Print, AuthorityText, HostTrace, HostUpto, Authority, HostStartOf, Proper, PortSpans, UserPlace, SpanUpto,
         FragmentSpan, Lookup, HostText, HostStartFor, Trace;
    AuthorityKnown(u);
    HasServer(u);
    if !u.target.Origin? { ServerFound(u); }
  }

  /** Round trip: a URL that is printed from parts is accepted exactly if its port is at most
      65535; each field is exactly the part that was printed, and the port is its number. */
  lemma UrlRoundTrip(u: Parts)
    requires Proper(u)
    ensures forall ch <- u.port :: IsNum(ch)
    ensures Accepts(Print(u), |Print(u)|, u.target.Connect?) <==> Decimal(u.port) <= 0xFFFF
    ensures PortValue(Print(u), |Print(u)|, u.target.Connect?) == Decimal(u.port)
    ensures forall f: UrlField ::
              match UrlSpan(Print(u), u.target.Connect?, f)
              case None => TextOfField(u, f) == ""
              case Some(s) => s.off + s.len <= |Print(u)| && Print(u)[s.off..s.off + s.len] == TextOfField(u, f) != ""
  {
    hide Print, UrlSpan, StrToUl, Decimal, WellFormed, ProperHost, IsUserinfoChar, IsUrlChar, IsAlpha, AllUrlChars;
    var buf := Print(u);
    assert buf[..|buf|] == buf;
    PartsFound(u);
    if u.port == "" {
      NoDigits();
    } else {
      PortIsItsDigits(buf, |buf|, u.target.Connect?);
    }
  }

  lemma NoDigits()
    ensures Decimal("") == 0
  {
  }

  /* ---- A port read on beyond the URL ---- */

  /** The URL "a:80" for CONNECT. */
  const EIGHTY: Parts := Parts(Connect, "", Name("a"), "80", "", "", "")

  lemma Eighty()
    ensures Proper(EIGHTY) && Print(EIGHTY) == "a:80" && SpanIn(EIGHTY, UfPort) == Some(Span(2, 2))
    ensures WellFormed("a:80", true) && UrlSpan("a:80", true, UfPort) == Some(Span(2, 2))
  {
    hide UrlSpan, WellFormed;
    assert UptoPath(EIGHTY) == "a:80";
    PartsFound(EIGHTY);
    SpansFound(EIGHTY, UfPort);
  }

  /** The number of a port is read as far as the digits in memory go: with "12" behind it in
      memory, "a:80" is accepted with the port 8012; with "00000" behind it, the URL that is
      accepted on its own is refused. */
  lemma PortReadBeyond()
    ensures UrlSpan("a:8012"[..4], true, UfPort) == Some(Span(2, 2))
    ensures Accepts("a:8012", 4, true) && PortValue("a:8012", 4, true) == 8012
    ensures Accepts("a:80", 4, true) && PortValue("a:80", 4, true) == 80
    ensures !Accepts("a:8000000", 4, true)
  {
    hide UrlSpan, WellFormed;
    Eighty();
    assert "a:8012"[..4] == "a:80" && "a:8000000"[..4] == "a:80" && "a:80"[..4] == "a:80";
    var mem := "a:8012";
    assert StrToUl(mem, 2, 0) == StrToUl(mem, 3, 8) == StrToUl(mem, 4, 80) == StrToUl(mem, 5, 801) == StrToUl(mem, 6, 8012);
    var own := "a:80";
    assert StrToUl(own, 2, 0) == StrToUl(own, 3, 8) == StrToUl(own, 4, 80);
    var zeros := "a:8000000";
    assert StrToUl(zeros, 2, 0) == StrToUl(zeros, 3, 8) == StrToUl(zeros, 4, 80) == StrToUl(zeros, 5, 800)
           == StrToUl(zeros, 6, 8000) == StrToUl(zeros, 7, 80000) == StrToUl(zeros, 8, 800000) == StrToUl(zeros, 9, 8000000);
  }
}
