/** `http_parser_parse_url`: a first pass over the URL with the parser's own URL states, and
    a second pass over the authority. */
module HttpUrl {
  import opened Wrappers
  import opened HttpTypes
  import opened HttpSwitch
  import opened HttpRun
  import opened HttpExecute
  import opened HttpChunked

  datatype UrlField = UfSchema | UfHost | UfPort | UfPath | UfQuery | UfFragment | UfUserinfo

  datatype Span = Span(off: nat, len: nat)

  /** `struct http_parser_url` */
  class ParsedUrl {
    var fieldSet: set<UrlField>
    var port: nat
    var data: map<UrlField, Span>

    constructor ()
    {
      fieldSet, port, data := {}, 0, map[];
    }
  }

  /* ---- The first pass ---- */

  function StartOf(isConnect: bool): State { if isConnect then ReqServerStart else ReqSpacesBeforeUrl }

  /** The state after the first `k` bytes. */
  function Trace(buf: string, start: State, k: nat): State
    requires k <= |buf|
  {
    if k == 0 then start else ParseUrlChar(Trace(buf, start, k - 1), buf[k - 1])
  }

  /** The field a byte belongs to, by the state it leads to; a delimiter belongs to none. */
  function FieldOf(s: State): Option<UrlField> {
    match s
    case ReqSchema => Some(UfSchema)
    case ReqServer | ReqServerWithAt => Some(UfHost)
    case ReqPath => Some(UfPath)
    case ReqQueryString => Some(UfQuery)
    case ReqFragment => Some(UfFragment)
    case _ => None
  }

  /** The order of the states in a URL. */
  function Order(s: State): nat {
    match s
    case ReqSpacesBeforeUrl => 0
    case ReqSchema => 1
    case ReqSchemaSlash => 2
    case ReqSchemaSlashSlash => 3
    case ReqServerStart => 4
    case ReqServer | ReqServerWithAt => 5
    case ReqPath => 6
    case ReqQueryStringStart => 7
    case ReqQueryString => 8
    case ReqFragmentStart => 9
    case ReqFragment => 10
    case _ => 11
  }

  lemma UrlGoesForward(s: State, ch: char)
    requires s.ReqSpacesBeforeUrl? || ReadingUrl(s)
    ensures
      var t := ParseUrlChar(s, ch);
      t.Dead? || (ReadingUrl(t) && Order(s) <= Order(t) && 1 <= Order(t) <= 10)
  {
  }

  lemma FieldsInOrder(s: State, t: State)
    requires ReadingUrl(s) && ReadingUrl(t) && FieldOf(s).Some? && Order(s) == Order(t)
    ensures FieldOf(t) == FieldOf(s)
  {
  }

  lemma {:induction false} TraceForward(buf: string, isConnect: bool, j: nat, k: nat)
    requires j <= k <= |buf|
    requires !Trace(buf, StartOf(isConnect), k).Dead?
    ensures
      var s, t := Trace(buf, StartOf(isConnect), j), Trace(buf, StartOf(isConnect), k);
      && !s.Dead? && Order(s) <= Order(t) <= 10
      && (s.ReqSpacesBeforeUrl? || ReadingUrl(s))
      && (j > 0 ==> ReadingUrl(s) && Order(s) >= 1)
    decreases k
  {
    if k > 0 {
      var s := Trace(buf, StartOf(isConnect), k - 1);
      if s.Dead? {
        assert false;
      } else if j < k {
        TraceForward(buf, isConnect, j, k - 1);
      } else {
        TraceForward(buf, isConnect, k - 1, k - 1);
      }
      if !s.Dead? {
        TraceForward(buf, isConnect, k - 1, k - 1);
        UrlGoesForward(s, buf[k - 1]);
      }
    }
  }

  /** The field of byte `k`. */
  function FieldAt(buf: string, isConnect: bool, k: nat): Option<UrlField>
    requires k < |buf|
  {
    FieldOf(Trace(buf, StartOf(isConnect), k + 1))
  }

  /** An `@` stood in the authority among the first `n` bytes. */
  predicate HasAt(buf: string, isConnect: bool, n: nat)
    requires n <= |buf|
  {
    n > 0 && (HasAt(buf, isConnect, n - 1) || Trace(buf, StartOf(isConnect), n).ReqServerWithAt?)
  }

  /** The span is exactly the bytes, of the first `n`, that belong to the field, if any do. */
  ghost predicate Exact(buf: string, isConnect: bool, n: nat, span: Option<Span>, f: UrlField)
    requires n <= |buf|
  {
    match span
    case None => forall k: nat :: k < n ==> FieldAt(buf, isConnect, k) != Some(f)
    case Some(p) =>
      && p.len > 0 && p.off + p.len <= n
      && forall k: nat :: k < n ==> (FieldAt(buf, isConnect, k) == Some(f) <==> p.off <= k < p.off + p.len)
  }

  /** Two bytes at the same place in the order of states belong to the same field. */
  lemma SameField(buf: string, isConnect: bool, j: nat, k: nat, f: UrlField, n: nat)
    requires j <= k < n < |buf| && !Trace(buf, StartOf(isConnect), n + 1).Dead?
    requires FieldAt(buf, isConnect, j) == Some(f) && FieldAt(buf, isConnect, n) == Some(f)
    ensures FieldAt(buf, isConnect, k) == Some(f)
  {
    hide Trace, FieldOf, Order, ReadingUrl, ParseUrlChar;
    TraceForward(buf, isConnect, k + 1, n + 1);
    TraceForward(buf, isConnect, j + 1, k + 1);
    FieldsOrder(Trace(buf, StartOf(isConnect), j + 1), Trace(buf, StartOf(isConnect), n + 1));
    FieldsInOrder(Trace(buf, StartOf(isConnect), j + 1), Trace(buf, StartOf(isConnect), k + 1));
  }

  lemma FieldsOrder(s: State, t: State)
    requires FieldOf(s).Some? && FieldOf(s) == FieldOf(t)
    ensures Order(s) == Order(t)
  {
  }

  /** A byte that belongs to a field already begun comes right after that field's span. */
  lemma SpanEndsHere(buf: string, isConnect: bool, n: nat, span: Option<Span>, f: UrlField)
    requires n < |buf| && !Trace(buf, StartOf(isConnect), n + 1).Dead?
    requires FieldAt(buf, isConnect, n) == Some(f)
    requires Exact(buf, isConnect, n, span, f)
    ensures span.Some? ==> span.value.off + span.value.len == n && FieldAt(buf, isConnect, n - 1) == Some(f)
  {
    hide Trace, FieldAt;
    if span.Some? {
      var end := span.value.off + span.value.len;
      assert FieldAt(buf, isConnect, end - 1) == Some(f);
      SameField(buf, isConnect, end - 1, n - 1, f, n);
    }
  }

  /** The span of a field after one more byte. */
  function SpanAfter(span: Option<Span>, mine: bool, n: nat): Option<Span> {
    if !mine then span
    else match span
      case None => Some(Span(n, 1))
      case Some(p) => Some(Span(p.off, p.len + 1))
  }

  lemma ExactNext(buf: string, isConnect: bool, n: nat, span: Option<Span>, f: UrlField)
    requires n < |buf| && Exact(buf, isConnect, n, span, f)
    requires FieldAt(buf, isConnect, n) == Some(f) && span.Some? ==> span.value.off + span.value.len == n
    ensures Exact(buf, isConnect, n + 1, SpanAfter(span, FieldAt(buf, isConnect, n) == Some(f), n), f)
  {
    hide FieldAt;
  }

  function Field(fieldSet: set<UrlField>, data: map<UrlField, Span>, f: UrlField): Option<Span> {
    if f in fieldSet && f in data then Some(data[f]) else None
  }

  ghost predicate AllExact(buf: string, isConnect: bool, n: nat, fieldSet: set<UrlField>, data: map<UrlField, Span>)
    requires n <= |buf|
  {
    fieldSet == data.Keys && forall f: UrlField :: Exact(buf, isConnect, n, Field(fieldSet, data, f), f)
  }

  /** No field's span reaches beyond that of the field set last. */
  ghost predicate LastSet(fieldSet: set<UrlField>, data: map<UrlField, Span>, oldUf: Option<UrlField>)
    requires fieldSet == data.Keys
  {
    match oldUf
    case None => fieldSet == {}
    case Some(f) => f in data && forall g <- fieldSet :: data[g].off + data[g].len <= data[f].off + data[f].len
  }

  /** The fields after one more byte. */
  function Lengthened(data: map<UrlField, Span>, f: UrlField, n: nat): map<UrlField, Span> {
    if f in data then data[f := Span(data[f].off, data[f].len + 1)] else data[f := Span(n, 1)]
  }

  lemma AllExactNext(buf: string, isConnect: bool, n: nat, fieldSet: set<UrlField>, data: map<UrlField, Span>,
                     oldUf: Option<UrlField>, f: UrlField)
    requires n < |buf| && !Trace(buf, StartOf(isConnect), n + 1).Dead?
    requires FieldAt(buf, isConnect, n) == Some(f)
    requires AllExact(buf, isConnect, n, fieldSet, data) && LastSet(fieldSet, data, oldUf)
    ensures oldUf == Some(f) <==> f in fieldSet
    ensures AllExact(buf, isConnect, n + 1, fieldSet + {f}, Lengthened(data, f, n))
    ensures LastSet(fieldSet + {f}, Lengthened(data, f, n), Some(f))
  {
    hide FieldAt, Trace;
    assert Exact(buf, isConnect, n, Field(fieldSet, data, f), f);
    SpanEndsHere(buf, isConnect, n, Field(fieldSet, data, f), f);
    if f in fieldSet {
      var g := oldUf.value;
      assert Exact(buf, isConnect, n, Field(fieldSet, data, g), g);
    }
    var m, fieldSet', data' := n + 1, fieldSet + {f}, Lengthened(data, f, n);
    forall g: UrlField
      ensures Exact(buf, isConnect, m, Field(fieldSet', data', g), g)
    {
      assert Exact(buf, isConnect, n, Field(fieldSet, data, g), g);
      ExactNext(buf, isConnect, n, Field(fieldSet, data, g), g);
    }
    forall g <- fieldSet
      ensures data[g].off + data[g].len <= n
    {
      assert Exact(buf, isConnect, n, Field(fieldSet, data, g), g);
    }
  }

  /** A delimiter belongs to no field. */
  lemma AllExactSkip(buf: string, isConnect: bool, n: nat, fieldSet: set<UrlField>, data: map<UrlField, Span>)
    requires n < |buf| && FieldAt(buf, isConnect, n) == None
    requires AllExact(buf, isConnect, n, fieldSet, data)
    ensures AllExact(buf, isConnect, n + 1, fieldSet, data)
  {
    hide FieldAt;
    var m := n + 1;
    forall g: UrlField
      ensures Exact(buf, isConnect, m, Field(fieldSet, data, g), g)
    {
      assert Exact(buf, isConnect, n, Field(fieldSet, data, g), g);
      ExactNext(buf, isConnect, n, Field(fieldSet, data, g), g);
    }
  }

  /** One byte of the first pass: it lengthens the field it follows, or starts a new one. */
  method PlaceUrlByte(buf: string, isConnect: bool, p: nat, u: ParsedUrl, oldUf: Option<UrlField>, f: UrlField)
    requires p < |buf| <= 0xFFFF && !Trace(buf, StartOf(isConnect), p + 1).Dead?
    requires FieldAt(buf, isConnect, p) == Some(f)
    requires u.fieldSet == u.data.Keys
    requires AllExact(buf, isConnect, p, u.fieldSet, u.data) && LastSet(u.fieldSet, u.data, oldUf)
    modifies u`fieldSet, u`data
    ensures u.fieldSet == u.data.Keys
    ensures AllExact(buf, isConnect, p + 1, u.fieldSet, u.data) && LastSet(u.fieldSet, u.data, Some(f))
  {
    hide AllExact, LastSet, Exact, FieldAt, Trace;
    AllExactNext(buf, isConnect, p, u.fieldSet, u.data, oldUf, f);
    if oldUf == Some(f) {
      u.data := u.data[f := Span(u.data[f].off, u.data[f].len + 1)];
      assert u.fieldSet + {f} == u.fieldSet;
    } else {
      u.data := u.data[f := Span(p, 1)];
      u.fieldSet := u.fieldSet + {f};
    }
  }

  /** The first pass: it fails on a byte the URL states refuse, and otherwise gives every
      field exactly the bytes that belong to it. */
  method FirstPass(buf: string, isConnect: bool, u: ParsedUrl) returns (bad: bool, foundAt: bool)
    requires |buf| <= 0xFFFF
    modifies u
    ensures bad <==> Trace(buf, StartOf(isConnect), |buf|).Dead?
    ensures !bad ==> AllExact(buf, isConnect, |buf|, u.fieldSet, u.data)
    ensures !bad ==> (foundAt <==> HasAt(buf, isConnect, |buf|))
    ensures u.port == 0
  {
    hide AllExact, LastSet, Exact, Order, ParseUrlChar;
    foundAt := false;
    u.port, u.fieldSet, u.data := 0, {}, map[];
    var s := StartOf(isConnect);
    var oldUf: Option<UrlField> := None;
    NothingSet(buf, isConnect);
    for p := 0 to |buf|
      invariant s == Trace(buf, StartOf(isConnect), p) && !s.Dead?
      invariant u.port == 0 && u.fieldSet == u.data.Keys
      invariant AllExact(buf, isConnect, p, u.fieldSet, u.data)
      invariant LastSet(u.fieldSet, u.data, oldUf)
      invariant foundAt <==> HasAt(buf, isConnect, p)
    {
      s := ParseUrlChar(s, buf[p]);
      if s.Dead? {
        if !Trace(buf, StartOf(isConnect), |buf|).Dead? { TraceForward(buf, isConnect, p + 1, |buf|); }
        return true, false;
      }
      TraceForward(buf, isConnect, p + 1, p + 1);
      var uf := FieldOf(s);
      match s {
        case ReqSchemaSlash | ReqSchemaSlashSlash | ReqServerStart | ReqQueryStringStart | ReqFragmentStart =>
          AllExactSkip(buf, isConnect, p, u.fieldSet, u.data);
          continue;
        case ReqServerWithAt => foundAt := true;
        case ReqSchema | ReqServer | ReqPath | ReqQueryString | ReqFragment =>
        case _ => assert false;
      }
      PlaceUrlByte(buf, isConnect, p, u, oldUf, uf.value);
      oldUf := uf;
    }
    bad := false;
  }

  lemma NothingSet(buf: string, isConnect: bool)
    ensures AllExact(buf, isConnect, 0, {}, map[]) && LastSet({}, map[], None)
  {
  }

  /* ---- The second pass, over the authority ---- */

  datatype HostState =
    | HostDead | UserinfoStart | Userinfo | HostStart | HostV6Start | Host | HostV6 | HostV6End
    | HostV6ZoneStart | HostV6Zone | HostPortStart | HostPort

  predicate IsZoneChar(ch: char) {
    IsAlphaNum(ch) || ch == '%' || ch == '.' || ch == '-' || ch == '_' || ch == '~'
  }

  /** `http_parse_host_char` */
  function ParseHostChar(s: HostState, ch: char): HostState {
    match s
    case UserinfoStart | Userinfo =>
      if ch == '@' then HostStart else if IsUserinfoChar(ch) then Userinfo else HostDead
    case HostStart =>
      if ch == '[' then HostV6Start else if IsHostChar(ch) then Host else HostDead
    case Host =>
      if IsHostChar(ch) then Host else if ch == ':' then HostPortStart else HostDead
    case HostV6End => if ch == ':' then HostPortStart else HostDead
    case HostV6 =>
      if ch == ']' then HostV6End
      else if IsHex(ch) || ch == ':' || ch == '.' then HostV6
      else if ch == '%' then HostV6ZoneStart else HostDead
    case HostV6Start => if IsHex(ch) || ch == ':' || ch == '.' then HostV6 else HostDead
    case HostV6Zone => if ch == ']' then HostV6End else if IsZoneChar(ch) then HostV6Zone else HostDead
    case HostV6ZoneStart => if IsZoneChar(ch) then HostV6Zone else HostDead
    case HostPortStart | HostPort => if IsNum(ch) then HostPort else HostDead
    case HostDead => HostDead
  }

  /** The state after the bytes from `from` up to `k`. */
  function HostTrace(buf: string, from: nat, k: nat, start: HostState): HostState
    requires from <= k <= |buf|
    decreases k
  {
    if k == from then start else ParseHostChar(HostTrace(buf, from, k - 1, start), buf[k - 1])
  }

  function HostFieldOf(s: HostState): Option<UrlField> {
    match s
    case Userinfo => Some(UfUserinfo)
    case Host | HostV6 | HostV6ZoneStart | HostV6Zone => Some(UfHost)
    case HostPort => Some(UfPort)
    case _ => None
  }

  /** The field of byte `k` of the authority. */
  function HostFieldAt(buf: string, from: nat, k: nat, start: HostState): Option<UrlField>
    requires from <= k < |buf|
  {
    HostFieldOf(HostTrace(buf, from, k + 1, start))
  }

  /** The states in which an authority may not end. */
  predicate Unfinished(s: HostState) {
    s.HostStart? || s.HostV6Start? || s.HostV6? || s.HostV6ZoneStart? || s.HostV6Zone? || s.HostPortStart?
    || s.Userinfo? || s.UserinfoStart?
  }

  /** The span is exactly the bytes from `from` up to `n` that belong to the field, if any do. */
  ghost predicate HostExact(buf: string, from: nat, n: nat, start: HostState, span: Option<Span>, f: UrlField)
    requires from <= n <= |buf|
  {
    match span
    case None => forall k: nat :: from <= k < n ==> HostFieldAt(buf, from, k, start) != Some(f)
    case Some(p) =>
      && p.len > 0 && from <= p.off && p.off + p.len <= n
      && forall k: nat :: from <= k < n ==> (HostFieldAt(buf, from, k, start) == Some(f) <==> p.off <= k < p.off + p.len)
  }

  /** The order of the states in an authority. */
  function HostOrder(s: HostState): nat {
    match s
    case UserinfoStart => 0
    case Userinfo => 1
    case HostStart => 2
    case HostV6Start => 3
    case Host | HostV6 | HostV6ZoneStart | HostV6Zone => 4
    case HostV6End => 5
    case HostPortStart => 6
    case HostPort => 7
    case HostDead => 8
  }

  lemma HostGoesForward(s: HostState, ch: char)
    ensures HostOrder(s) <= HostOrder(ParseHostChar(s, ch))
    ensures HostOrder(s) < 4 < HostOrder(ParseHostChar(s, ch)) ==> ParseHostChar(s, ch).HostDead?
  {
  }

  lemma {:induction false} HostTraceForward(buf: string, from: nat, j: nat, k: nat, start: HostState)
    requires from <= j <= k <= |buf|
    ensures HostOrder(HostTrace(buf, from, j, start)) <= HostOrder(HostTrace(buf, from, k, start))
    decreases k
  {
    hide ParseHostChar, HostOrder;
    if j < k {
      HostTraceForward(buf, from, j, k - 1, start);
      HostGoesForward(HostTrace(buf, from, k - 1, start), buf[k - 1]);
    }
  }

  lemma HostFieldOrder(s: HostState, t: HostState)
    requires HostFieldOf(s).Some?
    ensures HostFieldOf(t) == HostFieldOf(s) <==> HostOrder(t) == HostOrder(s)
  {
  }

  lemma SameHostField(buf: string, from: nat, j: nat, k: nat, n: nat, start: HostState, f: UrlField)
    requires from <= j <= k <= n < |buf|
    requires HostFieldAt(buf, from, j, start) == Some(f) && HostFieldAt(buf, from, n, start) == Some(f)
    ensures HostFieldAt(buf, from, k, start) == Some(f)
  {
    hide HostTrace, HostFieldOf, HostOrder;
    HostTraceForward(buf, from, j + 1, k + 1, start);
    HostTraceForward(buf, from, k + 1, n + 1, start);
    HostFieldOrder(HostTrace(buf, from, j + 1, start), HostTrace(buf, from, n + 1, start));
    HostFieldOrder(HostTrace(buf, from, j + 1, start), HostTrace(buf, from, k + 1, start));
  }

  /** A byte of a field comes right after the field's span, if that has begun; and it has
      begun exactly if the byte before belongs to the field too. */
  lemma HostSpanEndsHere(buf: string, from: nat, n: nat, start: HostState, span: Option<Span>, f: UrlField)
    requires from <= n < |buf|
    requires HostExact(buf, from, n, start, span, f) && HostFieldAt(buf, from, n, start) == Some(f)
    ensures span.Some? ==> span.value.off + span.value.len == n
    ensures span.Some? <==> n > from && HostFieldAt(buf, from, n - 1, start) == Some(f)
  {
    hide HostFieldAt;
    if span.Some? {
      var end := span.value.off + span.value.len;
      assert HostFieldAt(buf, from, end - 1, start) == Some(f);
      SameHostField(buf, from, end - 1, n - 1, n, start, f);
    }
  }

  lemma HostExactNext(buf: string, from: nat, n: nat, start: HostState, span: Option<Span>, f: UrlField)
    requires from <= n < |buf|
    requires HostExact(buf, from, n, start, span, f)
    requires HostFieldAt(buf, from, n, start) == Some(f) && span.Some? ==> span.value.off + span.value.len == n
    ensures HostExact(buf, from, n + 1, start, SpanAfter(span, HostFieldAt(buf, from, n, start) == Some(f), n), f)
  {
    hide HostFieldAt;
  }

  function HostSpan(data: map<UrlField, Span>): Option<Span> {
    if UfHost in data && data[UfHost].len > 0 then Some(data[UfHost]) else None
  }

  /** Where the second pass stands before byte `p`. */
  ghost predicate InHost(buf: string, from: nat, p: nat, start: HostState, fieldSet: set<UrlField>, data: map<UrlField, Span>)
    requires from <= p <= |buf|
  {
    && HostExact(buf, from, p, start, HostSpan(data), UfHost)
    && HostExact(buf, from, p, start, Field(fieldSet, data, UfPort), UfPort)
    && HostExact(buf, from, p, start, Field(fieldSet, data, UfUserinfo), UfUserinfo)
    && (HostOrder(HostTrace(buf, from, p, start)) >= 4 ==> HostSpan(data).Some?)
  }

  /** The switch over the new state: which field the byte at `p` begins or lengthens. */
  method PlaceHostByte(u: ParsedUrl, p: nat, s: HostState, next: HostState)
    requires u.fieldSet == u.data.Keys && UfHost in u.fieldSet && !next.HostDead?
    requires HostFieldOf(next) == Some(UfHost) ==> (HostSpan(u.data).Some? <==> HostOrder(s) == 4)
    requires next.Host? || next.HostV6? ==> (HostOrder(s) == 4 <==> s == next)
    requires next.HostV6ZoneStart? || next.HostV6Zone? ==> HostOrder(s) == 4
    requires next.HostPort? ==> (UfPort in u.fieldSet <==> s.HostPort?)
    requires next.Userinfo? ==> (UfUserinfo in u.fieldSet <==> s.Userinfo?)
    modifies u`fieldSet, u`data
    ensures u.fieldSet == u.data.Keys && UfHost in u.fieldSet
    ensures old(u.fieldSet) <= u.fieldSet <= old(u.fieldSet) + {UfPort, UfUserinfo}
    ensures forall f <- old(u.fieldSet) :: f != UfHost && f != UfPort && f != UfUserinfo ==> u.data[f] == old(u.data)[f]
    ensures
      var mine := HostFieldOf(next);
      && HostSpan(u.data) == SpanAfter(HostSpan(old(u.data)), mine == Some(UfHost), p)
      && Field(u.fieldSet, u.data, UfPort) == SpanAfter(Field(old(u.fieldSet), old(u.data), UfPort), mine == Some(UfPort), p)
      && Field(u.fieldSet, u.data, UfUserinfo)
         == SpanAfter(Field(old(u.fieldSet), old(u.data), UfUserinfo), mine == Some(UfUserinfo), p)
  {
    match next {
      case Host =>
        if !s.Host? { u.data := u.data[UfHost := Span(p, u.data[UfHost].len)]; }
        u.data := u.data[UfHost := Span(u.data[UfHost].off, u.data[UfHost].len + 1)];
      case HostV6 =>
        if !s.HostV6? { u.data := u.data[UfHost := Span(p, u.data[UfHost].len)]; }
        u.data := u.data[UfHost := Span(u.data[UfHost].off, u.data[UfHost].len + 1)];
      case HostV6ZoneStart | HostV6Zone =>
        u.data := u.data[UfHost := Span(u.data[UfHost].off, u.data[UfHost].len + 1)];
      case HostPort =>
        if !s.HostPort? {
          u.data := u.data[UfPort := Span(p, 0)];
          u.fieldSet := u.fieldSet + {UfPort};
        }
        u.data := u.data[UfPort := Span(u.data[UfPort].off, u.data[UfPort].len + 1)];
      case Userinfo =>
        if !s.Userinfo? {
          u.data := u.data[UfUserinfo := Span(p, 0)];
          u.fieldSet := u.fieldSet + {UfUserinfo};
        }
        u.data := u.data[UfUserinfo := Span(u.data[UfUserinfo].off, u.data[UfUserinfo].len + 1)];
      case _ =>
    }
  }

  /** `http_parse_host`: it fails on a byte the host states refuse and on an authority that
      stops too early; otherwise userinfo, host and port are exactly the bytes that belong to
      them, and the host is not empty. */
  method ParseHost(buf: string, u: ParsedUrl, foundAt: bool) returns (bad: bool)
    requires UfHost in u.fieldSet && u.fieldSet == u.data.Keys && UfPort !in u.fieldSet && UfUserinfo !in u.fieldSet
    requires u.data[UfHost].len > 0 && u.data[UfHost].off + u.data[UfHost].len <= |buf|
    modifies u`fieldSet, u`data
    ensures
      var from, end := old(u.data)[UfHost].off, old(u.data)[UfHost].off + old(u.data)[UfHost].len;
      var start := if foundAt then UserinfoStart else HostStart;
      && (bad <==> HostTrace(buf, from, end, start).HostDead? || Unfinished(HostTrace(buf, from, end, start)))
      && (!bad ==> InHost(buf, from, end, start, u.fieldSet, u.data) && HostSpan(u.data).Some?)
    ensures u.fieldSet == u.data.Keys
    ensures old(u.fieldSet) <= u.fieldSet <= old(u.fieldSet) + {UfPort, UfUserinfo}
    ensures forall f <- old(u.fieldSet) :: f != UfHost ==> u.data[f] == old(u.data)[f]
  {
    hide HostExact, HostTrace, ParseHostChar;
    var from, end := u.data[UfHost].off, u.data[UfHost].off + u.data[UfHost].len;
    u.data := u.data[UfHost := Span(from, 0)];
    var start := if foundAt then UserinfoStart else HostStart;
    var s := start;
    HostBegins(buf, from, start, u.fieldSet, u.data);
    for p := from to end
      invariant s == HostTrace(buf, from, p, start) && !s.HostDead?
      invariant InHost(buf, from, p, start, u.fieldSet, u.data)
      invariant u.fieldSet == u.data.Keys && UfHost in u.fieldSet
      invariant old(u.fieldSet) <= u.fieldSet <= old(u.fieldSet) + {UfPort, UfUserinfo}
      invariant forall f <- old(u.fieldSet) :: f != UfHost ==> u.data[f] == old(u.data)[f]
    {
      var next := ParseHostChar(s, buf[p]);
      HostTraceNext(buf, from, p, start);
      if next.HostDead? {
        HostTraceForward(buf, from, p + 1, end, start);
        HostDeadIsLast(HostTrace(buf, from, end, start));
        return true;
      }
      InHostNext(buf, from, p, start, u.fieldSet, u.data);
      PlaceHostByte(u, p, s, next);
      s := next;
    }
    bad := Unfinished(s);
  }

  lemma HostTraceNext(buf: string, from: nat, k: nat, start: HostState)
    requires from <= k < |buf|
    ensures HostTrace(buf, from, k + 1, start) == ParseHostChar(HostTrace(buf, from, k, start), buf[k])
  {
  }

  lemma HostDeadIsLast(s: HostState)
    ensures s.HostDead? <==> HostOrder(s) >= 8
  {
  }

  /** What the next byte does to the three fields. */
  lemma InHostNext(buf: string, from: nat, p: nat, start: HostState, fieldSet: set<UrlField>, data: map<UrlField, Span>)
    requires from <= p < |buf| && fieldSet == data.Keys && UfHost in data
    requires start.UserinfoStart? || start.HostStart?
    requires InHost(buf, from, p, start, fieldSet, data)
    requires !HostTrace(buf, from, p + 1, start).HostDead?
    ensures
      var s, next := HostTrace(buf, from, p, start), HostTrace(buf, from, p + 1, start);
      var mine := HostFieldOf(next);
      && next == ParseHostChar(s, buf[p])
      && (mine == Some(UfHost) ==> (HostSpan(data).Some? <==> HostOrder(s) == 4))
      && (next.Host? || next.HostV6? ==> (HostOrder(s) == 4 <==> s == next))
      && (next.HostV6ZoneStart? || next.HostV6Zone? ==> HostOrder(s) == 4)
      && (mine == Some(UfPort) ==> (UfPort in fieldSet <==> s.HostPort?))
      && (mine == Some(UfUserinfo) ==> (UfUserinfo in fieldSet <==> s.Userinfo?))
      && HostExact(buf, from, p + 1, start, SpanAfter(HostSpan(data), mine == Some(UfHost), p), UfHost)
      && HostExact(buf, from, p + 1, start, SpanAfter(Field(fieldSet, data, UfPort), mine == Some(UfPort), p), UfPort)
      && HostExact(buf, from, p + 1, start, SpanAfter(Field(fieldSet, data, UfUserinfo), mine == Some(UfUserinfo), p), UfUserinfo)
      && (HostOrder(next) >= 4 ==> HostSpan(data).Some? || mine == Some(UfHost))
  {
    hide HostExact;
    var mine := HostFieldAt(buf, from, p, start);
    HostGoesForward(HostTrace(buf, from, p, start), buf[p]);
    if mine == Some(UfHost) { HostSpanEndsHere(buf, from, p, start, HostSpan(data), UfHost); }
    if mine == Some(UfPort) { HostSpanEndsHere(buf, from, p, start, Field(fieldSet, data, UfPort), UfPort); }
    if mine == Some(UfUserinfo) { HostSpanEndsHere(buf, from, p, start, Field(fieldSet, data, UfUserinfo), UfUserinfo); }
    HostExactNext(buf, from, p, start, HostSpan(data), UfHost);
    HostExactNext(buf, from, p, start, Field(fieldSet, data, UfPort), UfPort);
    HostExactNext(buf, from, p, start, Field(fieldSet, data, UfUserinfo), UfUserinfo);
  }

  lemma HostBegins(buf: string, from: nat, start: HostState, fieldSet: set<UrlField>, data: map<UrlField, Span>)
    requires from <= |buf| && HostOrder(start) < 4
    requires UfHost in data && data[UfHost].len == 0 && UfPort !in fieldSet && UfUserinfo !in fieldSet
    ensures InHost(buf, from, from, start, fieldSet, data) && HostTrace(buf, from, from, start) == start
  {
  }

  /* ---- What the two passes compute ---- */

  /** The span of the first `n` bytes that belong to a field. */
  ghost function SpanUpto(buf: string, isConnect: bool, n: nat, f: UrlField): Option<Span>
    requires n <= |buf|
  {
    if n == 0 then None
    else SpanAfter(SpanUpto(buf, isConnect, n - 1, f), FieldAt(buf, isConnect, n - 1) == Some(f), n - 1)
  }

  lemma {:induction false} SpanUptoIsExact(buf: string, isConnect: bool, n: nat, f: UrlField)
    requires n <= |buf| && !Trace(buf, StartOf(isConnect), n).Dead?
    ensures Exact(buf, isConnect, n, SpanUpto(buf, isConnect, n, f), f)
  {
    hide FieldAt, Exact, SpanAfter, Trace;
    if n == 0 {
      ExactEmpty(buf, isConnect, f);
    } else {
      TraceForward(buf, isConnect, n - 1, n);
      SpanUptoIsExact(buf, isConnect, n - 1, f);
      var span := SpanUpto(buf, isConnect, n - 1, f);
      if FieldAt(buf, isConnect, n - 1) == Some(f) { SpanEndsHere(buf, isConnect, n - 1, span, f); }
      ExactNext(buf, isConnect, n - 1, span, f);
    }
  }

  lemma ExactEmpty(buf: string, isConnect: bool, f: UrlField)
    ensures Exact(buf, isConnect, 0, None, f)
  {
  }

  lemma SpanUptoExact(buf: string, isConnect: bool, n: nat, span: Option<Span>, f: UrlField)
    requires n <= |buf| && !Trace(buf, StartOf(isConnect), n).Dead?
    requires Exact(buf, isConnect, n, span, f)
    ensures SpanUpto(buf, isConnect, n, f) == span
  {
    hide FieldAt, SpanUpto, Trace;
    SpanUptoIsExact(buf, isConnect, n, f);
    var other := SpanUpto(buf, isConnect, n, f);
    if span.Some? {
      var p := span.value;
      assert FieldAt(buf, isConnect, p.off) == Some(f) && FieldAt(buf, isConnect, p.off + p.len - 1) == Some(f);
    }
    if other.Some? {
      var q := other.value;
      assert FieldAt(buf, isConnect, q.off) == Some(f) && FieldAt(buf, isConnect, q.off + q.len - 1) == Some(f);
    }
  }

  ghost function HostUpto(buf: string, from: nat, n: nat, start: HostState, f: UrlField): Option<Span>
    requires from <= n <= |buf|
    decreases n
  {
    if n == from then None
    else SpanAfter(HostUpto(buf, from, n - 1, start, f), HostFieldAt(buf, from, n - 1, start) == Some(f), n - 1)
  }

  lemma {:induction false} HostUptoIsExact(buf: string, from: nat, n: nat, start: HostState, f: UrlField)
    requires from <= n <= |buf|
    ensures HostExact(buf, from, n, start, HostUpto(buf, from, n, start, f), f)
    decreases n
  {
    hide HostFieldAt, HostExact, SpanAfter;
    if n == from {
      HostExactEmpty(buf, from, start, f);
    } else {
      HostUptoIsExact(buf, from, n - 1, start, f);
      var span := HostUpto(buf, from, n - 1, start, f);
      if HostFieldAt(buf, from, n - 1, start) == Some(f) { HostSpanEndsHere(buf, from, n - 1, start, span, f); }
      HostExactNext(buf, from, n - 1, start, span, f);
    }
  }

  lemma HostExactEmpty(buf: string, from: nat, start: HostState, f: UrlField)
    requires from <= |buf|
    ensures HostExact(buf, from, from, start, None, f)
  {
  }

  lemma HostUptoExact(buf: string, from: nat, n: nat, start: HostState, span: Option<Span>, f: UrlField)
    requires from <= n <= |buf|
    requires HostExact(buf, from, n, start, span, f)
    ensures HostUpto(buf, from, n, start, f) == span
  {
    hide HostFieldAt, HostUpto;
    HostUptoIsExact(buf, from, n, start, f);
    var other := HostUpto(buf, from, n, start, f);
    if span.Some? {
      var p := span.value;
      assert HostFieldAt(buf, from, p.off, start) == Some(f) && HostFieldAt(buf, from, p.off + p.len - 1, start) == Some(f);
    }
    if other.Some? {
      var q := other.value;
      assert HostFieldAt(buf, from, q.off, start) == Some(f) && HostFieldAt(buf, from, q.off + q.len - 1, start) == Some(f);
    }
  }

  /** Where the authority stands, by the first pass. */
  ghost function Authority(buf: string, isConnect: bool): Option<Span> {
    SpanUpto(buf, isConnect, |buf|, UfHost)
  }

  ghost function HostStartOf(buf: string, isConnect: bool): HostState {
    if HasAt(buf, isConnect, |buf|) then UserinfoStart else HostStart
  }

  /** The span of each field of a URL. */
  ghost function UrlSpan(buf: string, isConnect: bool, f: UrlField): Option<Span> {
    if f == UfHost || f == UfPort || f == UfUserinfo then
      match Authority(buf, isConnect)
      case None => None
      case Some(a) =>
        if a.off + a.len <= |buf| then HostUpto(buf, a.off, a.off + a.len, HostStartOf(buf, isConnect), f) else None
    else SpanUpto(buf, isConnect, |buf|, f)
  }

  /** The second pass accepts the authority. */
  ghost predicate AuthorityOk(buf: string, isConnect: bool) {
    match Authority(buf, isConnect)
    case None => true
    case Some(a) =>
      && a.off + a.len <= |buf|
      && var s := HostTrace(buf, a.off, a.off + a.len, HostStartOf(buf, isConnect));
         !s.HostDead? && !Unfinished(s)
  }

  /** `strtoul`: the digits from `off` on, wherever they end. */
  function StrToUl(mem: string, off: nat, v: nat): nat
    requires off <= |mem|
    decreases |mem| - off
  {
    if off < |mem| && IsNum(mem[off]) then StrToUl(mem, off + 1, MoreDigits(v, mem[off])) else v
  }

  ghost function PortValue(mem: string, buflen: nat, isConnect: bool): nat
    requires buflen <= |mem|
  {
    match UrlSpan(mem[..buflen], isConnect, UfPort)
    case None => 0
    case Some(p) => if p.off <= |mem| then StrToUl(mem, p.off, 0) else 0
  }

  /** The URLs that both passes accept: a schema calls for an authority, and CONNECT for a host
      and a port and nothing else. */
  ghost predicate WellFormed(buf: string, isConnect: bool) {
    && !Trace(buf, StartOf(isConnect), |buf|).Dead?
    && (UrlSpan(buf, isConnect, UfSchema).Some? ==> Authority(buf, isConnect).Some?)
    && AuthorityOk(buf, isConnect)
    && (isConnect ==> forall f: UrlField :: UrlSpan(buf, isConnect, f).Some? <==> f == UfHost || f == UfPort)
  }

  /** The URLs that are accepted. */
  ghost predicate Accepts(mem: string, buflen: nat, isConnect: bool)
    requires buflen <= |mem|
  {
    WellFormed(mem[..buflen], isConnect) && PortValue(mem, buflen, isConnect) <= 0xFFFF
  }

  /** `http_parser_parse_url` on the first `buflen` bytes of a memory that goes on behind them. */
  method ParseUrl(mem: string, buflen: nat, isConnect: bool, u: ParsedUrl) returns (failed: bool)
    requires buflen <= |mem| && buflen <= 0xFFFF
    modifies u
    ensures failed <==> !Accepts(mem, buflen, isConnect)
    ensures !failed ==> forall f: UrlField :: Field(u.fieldSet, u.data, f) == UrlSpan(mem[..buflen], isConnect, f)
    ensures !failed ==> u.port == PortValue(mem, buflen, isConnect)
  {
    hide Trace, Exact, SpanUpto, HostUpto, HostExact, HostTrace, HasAt;
    ghost var buf := mem[..buflen];
    var bad, foundAt := FirstPass(mem[..buflen], isConnect, u);
    if bad { return true; }
    ghost var first := u.data;
    FirstPassSpans(buf, isConnect, u.fieldSet, u.data);
    if UfSchema in u.fieldSet && UfHost !in u.fieldSet { return true; }
    if UfHost in u.fieldSet {
      var badHost := ParseHost(mem[..buflen], u, foundAt);
      if badHost { return true; }
      SecondPassSpans(buf, first[UfHost].off, first[UfHost].off + first[UfHost].len, HostStartOf(buf, isConnect), u.fieldSet, u.data);
    }
    assert forall f: UrlField :: Field(u.fieldSet, u.data, f) == UrlSpan(buf, isConnect, f);
    assert forall f: UrlField :: f in u.fieldSet <==> Field(u.fieldSet, u.data, f).Some?;
    if isConnect && u.fieldSet != {UfHost, UfPort} {
      assert exists f: UrlField :: !(f in u.fieldSet <==> f in {UfHost, UfPort});
      return true;
    }
    if UfPort in u.fieldSet {
      var v := StrToUl(mem, u.data[UfPort].off, 0);
      if v > 0xFFFF { return true; }
      u.port := v;
    }
    failed := false;
  }

  lemma FirstPassSpans(buf: string, isConnect: bool, fieldSet: set<UrlField>, data: map<UrlField, Span>)
    requires !Trace(buf, StartOf(isConnect), |buf|).Dead?
    requires AllExact(buf, isConnect, |buf|, fieldSet, data)
    ensures forall f: UrlField :: Field(fieldSet, data, f) == SpanUpto(buf, isConnect, |buf|, f)
    ensures UfPort !in fieldSet && UfUserinfo !in fieldSet
    ensures UfHost in fieldSet ==> data[UfHost].len > 0 && data[UfHost].off + data[UfHost].len <= |buf|
  {
    hide SpanUpto, FieldAt, Trace;
    assert Exact(buf, isConnect, |buf|, Field(fieldSet, data, UfPort), UfPort);
    assert Exact(buf, isConnect, |buf|, Field(fieldSet, data, UfUserinfo), UfUserinfo);
    assert Exact(buf, isConnect, |buf|, Field(fieldSet, data, UfHost), UfHost);
    if UfPort in fieldSet { FirstPassFields(buf, isConnect, data[UfPort].off); }
    if UfUserinfo in fieldSet { FirstPassFields(buf, isConnect, data[UfUserinfo].off); }
    forall f: UrlField
      ensures Field(fieldSet, data, f) == SpanUpto(buf, isConnect, |buf|, f)
    {
      assert Exact(buf, isConnect, |buf|, Field(fieldSet, data, f), f);
      SpanUptoExact(buf, isConnect, |buf|, Field(fieldSet, data, f), f);
    }
  }

  /** The first pass knows five fields. */
  lemma FirstPassFields(buf: string, isConnect: bool, k: nat)
    requires k < |buf|
    ensures FieldAt(buf, isConnect, k) != Some(UfPort) && FieldAt(buf, isConnect, k) != Some(UfUserinfo)
  {
  }

  lemma SecondPassSpans(buf: string, from: nat, end: nat, start: HostState, fieldSet: set<UrlField>, data: map<UrlField, Span>)
    requires from <= end <= |buf| && UfHost in fieldSet && fieldSet == data.Keys
    requires InHost(buf, from, end, start, fieldSet, data) && HostSpan(data).Some?
    ensures Field(fieldSet, data, UfHost) == HostUpto(buf, from, end, start, UfHost)
    ensures Field(fieldSet, data, UfPort) == HostUpto(buf, from, end, start, UfPort)
    ensures Field(fieldSet, data, UfUserinfo) == HostUpto(buf, from, end, start, UfUserinfo)
    ensures UfPort in fieldSet ==> data[UfPort].off <= |buf|
  {
    hide HostUpto;
    HostUptoExact(buf, from, end, start, HostSpan(data), UfHost);
    HostUptoExact(buf, from, end, start, Field(fieldSet, data, UfPort), UfPort);
    HostUptoExact(buf, from, end, start, Field(fieldSet, data, UfUserinfo), UfUserinfo);
  }

  /* ---- The layout of an accepted URL ---- */

  /** The order of the fields in a URL. */
  function Place(f: UrlField): nat {
    match f
    case UfSchema => 0
    case UfUserinfo => 1
    case UfHost => 2
    case UfPort => 3
    case UfPath => 4
    case UfQuery => 5
    case UfFragment => 6
  }

  predicate Before(a: Option<Span>, b: Option<Span>) {
    a.Some? && b.Some? ==> a.value.off + a.value.len <= b.value.off
  }

  lemma FieldPlaces(s: State, t: State)
    requires FieldOf(s).Some? && FieldOf(t).Some? && Place(FieldOf(s).value) < Place(FieldOf(t).value)
    ensures Order(s) < Order(t)
  {
  }

  lemma HostFieldPlaces(s: HostState, t: HostState)
    requires HostFieldOf(s).Some? && HostFieldOf(t).Some? && Place(HostFieldOf(s).value) < Place(HostFieldOf(t).value)
    ensures HostOrder(s) < HostOrder(t)
  {
  }

  lemma FirstPassOrder(buf: string, isConnect: bool, f: UrlField, g: UrlField)
    requires !Trace(buf, StartOf(isConnect), |buf|).Dead? && Place(f) < Place(g)
    ensures Before(SpanUpto(buf, isConnect, |buf|, f), SpanUpto(buf, isConnect, |buf|, g))
  {
    hide Trace, FieldOf, Order, Place, SpanUpto;
    SpanUptoIsExact(buf, isConnect, |buf|, f);
    SpanUptoIsExact(buf, isConnect, |buf|, g);
    var a, b := SpanUpto(buf, isConnect, |buf|, f), SpanUpto(buf, isConnect, |buf|, g);
    if a.Some? && b.Some? {
      var last, first := a.value.off + a.value.len - 1, b.value.off;
      assert FieldAt(buf, isConnect, last) == Some(f) && FieldAt(buf, isConnect, first) == Some(g);
      FieldPlaces(Trace(buf, StartOf(isConnect), last + 1), Trace(buf, StartOf(isConnect), first + 1));
      TraceForward(buf, isConnect, last + 1, |buf|);
      if first <= last { TraceForward(buf, isConnect, first + 1, last + 1); }
    }
  }

  lemma SecondPassOrder(buf: string, from: nat, end: nat, start: HostState, f: UrlField, g: UrlField)
    requires from <= end <= |buf| && Place(f) < Place(g)
    ensures Before(HostUpto(buf, from, end, start, f), HostUpto(buf, from, end, start, g))
  {
    hide HostTrace, HostFieldOf, HostOrder, Place, HostUpto;
    HostUptoIsExact(buf, from, end, start, f);
    HostUptoIsExact(buf, from, end, start, g);
    var a, b := HostUpto(buf, from, end, start, f), HostUpto(buf, from, end, start, g);
    if a.Some? && b.Some? {
      var last, first := a.value.off + a.value.len - 1, b.value.off;
      assert HostFieldAt(buf, from, last, start) == Some(f) && HostFieldAt(buf, from, first, start) == Some(g);
      HostFieldPlaces(HostTrace(buf, from, last + 1, start), HostTrace(buf, from, first + 1, start));
      if first <= last { HostTraceForward(buf, from, first + 1, last + 1, start); }
    }
  }

  /** The parts of the authority lie inside it. */
  lemma InsideAuthority(buf: string, isConnect: bool, f: UrlField)
    requires !Trace(buf, StartOf(isConnect), |buf|).Dead?
    requires f == UfHost || f == UfPort || f == UfUserinfo
    requires UrlSpan(buf, isConnect, f).Some?
    ensures
      var a := Authority(buf, isConnect);
      var p := UrlSpan(buf, isConnect, f).value;
      a.Some? && p.len > 0 && a.value.off <= p.off && p.off + p.len <= a.value.off + a.value.len <= |buf|
  {
    hide HostUpto, HostTrace, Trace, SpanUpto;
    var a := Authority(buf, isConnect).value;
    HostUptoIsExact(buf, a.off, a.off + a.len, HostStartOf(buf, isConnect), f);
  }

  predicate InAuthority(f: UrlField) { f == UfHost || f == UfPort || f == UfUserinfo }

  /** Every two fields that are set are disjoint, in the order schema, userinfo, host, port,
      path, query, fragment; each is non-empty and lies inside the URL. */
  lemma UrlLayout(buf: string, isConnect: bool, f: UrlField, g: UrlField)
    requires !Trace(buf, StartOf(isConnect), |buf|).Dead? && AuthorityOk(buf, isConnect)
    ensures UrlSpan(buf, isConnect, f).Some?
            ==> UrlSpan(buf, isConnect, f).value.len > 0
                && UrlSpan(buf, isConnect, f).value.off + UrlSpan(buf, isConnect, f).value.len <= |buf|
    ensures Place(f) < Place(g) ==> Before(UrlSpan(buf, isConnect, f), UrlSpan(buf, isConnect, g))
  {
    hide HostUpto, HostTrace, Trace, SpanUpto, FieldAt;
    SpanUptoIsExact(buf, isConnect, |buf|, f);
    if InAuthority(f) && UrlSpan(buf, isConnect, f).Some? { InsideAuthority(buf, isConnect, f); }
    if InAuthority(g) && UrlSpan(buf, isConnect, g).Some? { InsideAuthority(buf, isConnect, g); }
    if Place(f) < Place(g) {
      if InAuthority(f) && InAuthority(g) {
        if Authority(buf, isConnect).Some? {
          var a := Authority(buf, isConnect).value;
          SecondPassOrder(buf, a.off, a.off + a.len, HostStartOf(buf, isConnect), f, g);
        }
      } else if InAuthority(f) {
        FirstPassOrder(buf, isConnect, UfHost, g);
      } else if InAuthority(g) {
        FirstPassOrder(buf, isConnect, f, UfHost);
      } else {
        FirstPassOrder(buf, isConnect, f, g);
      }
    }
  }

  /** An authority that is accepted has a host, and the host is not empty. */
  lemma HostNotEmpty(buf: string, isConnect: bool)
    requires AuthorityOk(buf, isConnect) && Authority(buf, isConnect).Some?
    ensures UrlSpan(buf, isConnect, UfHost).Some?
  {
    hide HostUpto, HostTrace, SpanUpto, HasAt;
    var a := Authority(buf, isConnect).value;
    var start := HostStartOf(buf, isConnect);
    FinishedHasHost(HostTrace(buf, a.off, a.off + a.len, start));
    HostReached(buf, a.off, a.off + a.len, start);
  }

  lemma FinishedHasHost(s: HostState)
    requires !s.HostDead? && !Unfinished(s)
    ensures 4 <= HostOrder(s) < 8
  {
  }

  lemma {:induction false} HostReached(buf: string, from: nat, n: nat, start: HostState)
    requires from <= n <= |buf| && HostOrder(start) < 4 <= HostOrder(HostTrace(buf, from, n, start)) < 8
    ensures HostUpto(buf, from, n, start, UfHost).Some?
    decreases n
  {
    if n > from {
      var s := HostTrace(buf, from, n - 1, start);
      HostGoesForward(s, buf[n - 1]);
      if HostOrder(s) >= 4 { HostReached(buf, from, n - 1, start); }
    }
  }

  /* ---- The port ---- */

  /** The number that a string of digits spells. */
  function Decimal(s: string): nat
    requires forall ch <- s :: IsNum(ch)
  {
    if s == "" then 0
    else
      assert IsNum(s[|s| - 1]);
      MoreDigits(Decimal(s[..|s| - 1]), s[|s| - 1])
  }

  lemma {:induction false} StrToUlRun(mem: string, off: nat, end: nat)
    requires off <= end <= |mem| && forall ch <- mem[off..end] :: IsNum(ch)
    ensures StrToUl(mem, off, 0) == StrToUl(mem, end, Decimal(mem[off..end]))
    decreases end
  {
    if off < end {
      var s := mem[off..end];
      assert s[..|s| - 1] == mem[off..end - 1] && s[|s| - 1] == mem[end - 1];
      assert mem[end - 1] in s;
      forall ch <- mem[off..end - 1] ensures IsNum(ch) { assert ch in s; }
      StrToUlRun(mem, off, end - 1);
    }
  }

  /** Reading on past the end of a numeral keeps its value only if no digit follows, or if it
      is zero and nothing but zeros follow. */
  lemma {:induction false} StrToUlBeyond(mem: string, off: nat, v: nat)
    requires off <= |mem|
    ensures StrToUl(mem, off, v) >= v
    ensures StrToUl(mem, off, v) == v <==> off == |mem| || !IsNum(mem[off]) || (v == 0 && StrToUl(mem, off, 0) == 0)
    decreases |mem| - off
  {
    if off < |mem| && IsNum(mem[off]) {
      StrToUlBeyond(mem, off + 1, MoreDigits(v, mem[off]));
    }
  }

  lemma PortDigit(s: HostState, ch: char)
    ensures ParseHostChar(s, ch).HostPort? ==> IsNum(ch)
    ensures s.HostPort? ==> ParseHostChar(s, ch).HostPort? || ParseHostChar(s, ch).HostDead?
    ensures s.HostDead? ==> ParseHostChar(s, ch).HostDead?
  {
  }

  lemma AuthorityGoesOn(s: State, ch: char)
    requires FieldOf(s) == Some(UfHost) && IsNum(ch)
    ensures FieldOf(ParseUrlChar(s, ch)) == Some(UfHost)
  {
  }

  /** The port is the last thing in the authority, and all of it is digits. */
  lemma PortSpan(buf: string, from: nat, end: nat, start: HostState)
    requires from <= end <= |buf| && !HostTrace(buf, from, end, start).HostDead?
    requires HostUpto(buf, from, end, start, UfPort).Some?
    ensures
      var p := HostUpto(buf, from, end, start, UfPort).value;
      && from <= p.off && p.off + p.len == end && p.len > 0
      && forall k :: p.off <= k < end ==> IsNum(buf[k])
  {
    hide HostUpto, ParseHostChar, HostOrder;
    HostUptoIsExact(buf, from, end, start, UfPort);
    var p := HostUpto(buf, from, end, start, UfPort).value;
    var e := p.off + p.len;
    assert HostFieldAt(buf, from, e - 1, start) == Some(UfPort);
    if e < end {
      assert HostFieldAt(buf, from, e, start) != Some(UfPort);
      PortDigit(HostTrace(buf, from, e, start), buf[e]);
      HostTraceForward(buf, from, e + 1, end, start);
      HostDeadIsLast(HostTrace(buf, from, e + 1, start));
      HostDeadIsLast(HostTrace(buf, from, end, start));
    }
    forall k | p.off <= k < end
      ensures IsNum(buf[k])
    {
      assert HostFieldAt(buf, from, k, start) == Some(UfPort);
      PortDigit(HostTrace(buf, from, k, start), buf[k]);
    }
  }

  /** What follows the authority inside the URL is not a digit. */
  lemma AfterAuthority(buf: string, isConnect: bool)
    requires !Trace(buf, StartOf(isConnect), |buf|).Dead? && Authority(buf, isConnect).Some?
    ensures
      var a := Authority(buf, isConnect).value;
      a.off + a.len <= |buf| && (a.off + a.len < |buf| ==> !IsNum(buf[a.off + a.len]))
  {
    hide SpanUpto, FieldOf, ParseUrlChar;
    SpanUptoIsExact(buf, isConnect, |buf|, UfHost);
    var a := Authority(buf, isConnect).value;
    var e := a.off + a.len;
    assert FieldAt(buf, isConnect, e - 1) == Some(UfHost);
    if e < |buf| && IsNum(buf[e]) {
      assert FieldAt(buf, isConnect, e) != Some(UfHost);
      AuthorityGoesOn(Trace(buf, StartOf(isConnect), e), buf[e]);
    }
  }

  /** Memory behind the URL that the port is not read on into: the URL does not end with its
      port, or no digit follows. (A port of zeros followed by zeros is the same number.) */
  predicate PortStopsAt(mem: string, buflen: nat, portEnd: nat, own: nat)
    requires buflen <= |mem|
  {
    portEnd < buflen || buflen == |mem| || !IsNum(mem[buflen]) || (own == 0 && StrToUl(mem, buflen, 0) == 0)
  }

  /** The port is the number its digits spell, exactly if the digits do not go on in memory
      behind the URL. A URL that both passes accept is accepted with its own port exactly if
      besides that port is at most 65535; a port above that is never accepted. */
  lemma PortIsItsDigits(mem: string, buflen: nat, isConnect: bool)
    requires buflen <= |mem| && WellFormed(mem[..buflen], isConnect)
    requires UrlSpan(mem[..buflen], isConnect, UfPort).Some?
    ensures
      var p := UrlSpan(mem[..buflen], isConnect, UfPort).value;
      && p.off + p.len <= buflen
      && (forall ch <- mem[p.off..p.off + p.len] :: IsNum(ch))
      && var own := Decimal(mem[p.off..p.off + p.len]);
      && (PortValue(mem, buflen, isConnect) == own <==> PortStopsAt(mem, buflen, p.off + p.len, own))
      && (Accepts(mem, buflen, isConnect) && PortValue(mem, buflen, isConnect) == own
          <==> own <= 0xFFFF && PortStopsAt(mem, buflen, p.off + p.len, own))
      && (own > 0xFFFF ==> !Accepts(mem, buflen, isConnect))
  {
    hide HostUpto, SpanUpto, UrlSpan, Authority, WellFormed, StrToUl, Decimal;
    PortDigits(mem, buflen, isConnect);
    var p := UrlSpan(mem[..buflen], isConnect, UfPort).value;
    var e := p.off + p.len;
    StrToUlRun(mem, p.off, e);
    StrToUlBeyond(mem, e, Decimal(mem[p.off..e]));
  }

  /** The port's span holds digits, and the URL does not go on with another one. */
  lemma PortDigits(mem: string, buflen: nat, isConnect: bool)
    requires buflen <= |mem| && WellFormed(mem[..buflen], isConnect)
    requires UrlSpan(mem[..buflen], isConnect, UfPort).Some?
    ensures
      var p := UrlSpan(mem[..buflen], isConnect, UfPort).value;
      && 0 < p.len && p.off + p.len <= buflen
      && (forall k :: p.off <= k < p.off + p.len ==> IsNum(mem[k]))
      && (forall ch <- mem[p.off..p.off + p.len] :: IsNum(ch))
      && (p.off + p.len < buflen ==> !IsNum(mem[p.off + p.len]))
  {
    hide HostUpto, SpanUpto, Trace, HostTrace, IsNum;
    var buf := mem[..buflen];
    var a := Authority(buf, isConnect).value;
    PortSpan(buf, a.off, a.off + a.len, HostStartOf(buf, isConnect));
    AfterAuthority(buf, isConnect);
    var p := UrlSpan(buf, isConnect, UfPort).value;
    var e := p.off + p.len;
    forall k | p.off <= k < e ensures IsNum(mem[k]) { assert buf[k] == mem[k]; }
    if e < buflen { assert mem[e] == buf[e]; }
  }

  /* ---- URLs the parser delivers ---- */

  lemma UrlSwitchByte(p: Parser, ch: char)
    requires ch != ' ' && ch != CR && ch != LF
    requires p.state.ReqSpacesBeforeUrl? || ReadingUrl(p.state)
    ensures
      var first := p.state.ReqSpacesBeforeUrl?;
      Switch(p, ch) == UrlMove(p, if first then StartOf(p.verb.CONNECT?) else p.state, ch,
                               if first then [Mark(Url), Byte(Url)] else [Byte(Url)])
  {
    hide UrlMove;
  }

  /** The URL states of `http_parser_execute`. */
  lemma UrlStep(c: Config, ch: char)
    requires Valid(c) && c.live.Running? && ch != ' ' && ch != CR && ch != LF
    requires c.p.state.ReqSpacesBeforeUrl? || ReadingUrl(c.p.state)
    ensures
      var from := if c.p.state.ReqSpacesBeforeUrl? then StartOf(c.p.verb.CONNECT?) else c.p.state;
      var s := ParseUrlChar(from, ch);
      if s.Dead? then Step(c, ch).live.Failed?
      else Step(c, ch) == Config(c.p.(state := s), Emit(c.log, Data(Url, [ch])), c.nread + 1, c.used + 1, Running)
  {
    hide ParseUrlChar, Valid, Inv, Emit, Switch;
    UrlSwitchByte(c.p, ch);
    OneTrip(c, ch);
    TwoActs(c.log, Mark(Url), Byte(Url), ch);
    TwoActs(c.log, Byte(Url), Byte(Url), ch);
    EmitInPieces(c.log, Url, "", [ch]);
    assert "" + [ch] == [ch];
  }

  /** `http_parser_execute` and the first pass of `http_parser_parse_url` go through the same
      states: what the one delivers as a URL, the other does not refuse. */
  lemma {:induction false} UrlUpto(c: Config, url: string, k: nat)
    requires Valid(c) && c.live.Running? && c.p.state.ReqSpacesBeforeUrl?
    requires 1 <= k <= |url| && forall ch <- url :: ch != ' ' && ch != CR && ch != LF
    ensures
      var s := Trace(url, StartOf(c.p.verb.CONNECT?), k);
      if s.Dead? then Upto(c, url, k).live.Failed?
      else ReadingUrl(s)
           && Upto(c, url, k) == Config(c.p.(state := s), Emit(c.log, Data(Url, url[..k])), c.nread + k, c.used + k, Running)
  {
    hide Valid, Inv, Step, Emit, ParseUrlChar;
    var ch := url[k - 1];
    assert ch in url;
    assert url[..k] == url[..k - 1] + [ch];
    if k == 1 {
      AtStart(c, url);
      UrlStep(c, ch);
      assert Trace(url, StartOf(c.p.verb.CONNECT?), 0) == StartOf(c.p.verb.CONNECT?);
      UrlGoesForward(StartOf(c.p.verb.CONNECT?), ch);
      assert url[..1] == [ch];
    } else {
      UrlUpto(c, url, k - 1);
      var d := Upto(c, url, k - 1);
      if d.live.Running? {
        UrlStep(d, ch);
        UrlGoesForward(d.p.state, ch);
        EmitInPieces(c.log, Url, url[..k - 1], [ch]);
      } else {
        DeadStays(ch);
      }
    }
  }

  lemma DeadStays(ch: char)
    ensures ParseUrlChar(Dead, ch) == Dead
  {
  }

  /** The parser delivers a URL exactly when the first pass accepts it; a space ends it in
      the states in which a URL may end. */
  lemma DeliveredUrl(c: Config, url: string)
    requires Valid(c) && c.live.Running? && c.p.state.ReqSpacesBeforeUrl?
    requires url != "" && forall ch <- url :: ch != ' ' && ch != CR && ch != LF
    ensures
      var s := Trace(url, StartOf(c.p.verb.CONNECT?), |url|);
      if !s.Dead?
      then Run(c, url) == Config(c.p.(state := s), Emit(c.log, Data(Url, url)), c.nread + |url|, c.used + |url|, Running)
      else Run(c, url).live.Failed?
  {
    hide Valid, Inv, Upto, Emit, Trace;
    UrlUpto(c, url, |url|);
    assert url[..|url|] == url;
  }
}
