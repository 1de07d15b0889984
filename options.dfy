/** The per-request configuration record of pkg/request/options.go and the
    functional options that update it. `Config` is the value of the record at
    one moment; `Options` is the record itself, whose fields the options
    assign in place. */
module RequestOptions {
  import opened Base

  /** http.Header: a header name and its ordered list of values. */
  type Header = map<string, seq<string>>

  const Second: int := 1_000_000_000
  /** time.Duration(30) * time.Second, in nanoseconds. */
  const DefaultTimeout: Int64 := 30_000_000_000

  datatype Config = Config(
    timeout: Int64,
    header: Header,
    ctx: Context,
    contentLength: Int64,      // -1 means "unset"
    endpoint: Option<Url>,     // None is the nil *url.URL
    tpsLimiterToken: string,
    tps: real,                 // float64, only ever compared with 0
    tpsBurst: int)

  /** What newDefaultOption returns; the fields it does not name keep Go's
      zero values. */
  function DefaultConfig(): Config
  {
    Config(DefaultTimeout, map[], Background, -1, None, "", 0.0, 0)
  }

  /** One Option: the closure each With... constructor returns, by what it does. */
  datatype OptionFunc =
    | SetTimeout(timeout: Int64)                       // WithTimeout
    | SetContext(ctx: Context)                         // WithContext
    | MergeHeader(header: Header)                      // WithHeader
    | DeleteHeader(names: seq<string>)                 // WithoutHeader
    | SetContentLength(contentLength: Int64)           // WithContentLength
    | SetEndpoint(endpoint: Option<Url>)               // WithEndpoint, already parsed
    | SetTPSLimit(token: string, tps: real, burst: int) // WithTPSLimit

  /** The string WithEndpoint hands to the URL parser: the endpoint with a
      trailing "/" appended unless it already has one. */
  function EndpointText(endpoint: string): (r: string)
    ensures HasSuffix(r, "/")
    ensures |endpoint| <= |r| && r[..|endpoint|] == endpoint
    ensures HasSuffix(endpoint, "/") ==> r == endpoint
    ensures !HasSuffix(endpoint, "/") ==> r == endpoint + "/"
  {
    if HasSuffix(endpoint, "/") then endpoint else endpoint + "/"
  }

  /** Normalising an endpoint twice is normalising it once. */
  lemma EndpointTextIdempotent(endpoint: string)
    ensures EndpointText(EndpointText(endpoint)) == EndpointText(endpoint)
  {
  }

  /** WithEndpoint parses when the option is built, not when it is applied,
      and drops the parse error: a failed parse stores the nil URL. */
  function WithEndpoint(endpoint: string, parse: string -> Result<Url>): (o: OptionFunc)
    ensures o.SetEndpoint?
    ensures o.endpoint.Some? <==> parse(EndpointText(endpoint)).Ok?
    ensures o.endpoint.Some? ==> o.endpoint.value == parse(EndpointText(endpoint)).value
  {
    match parse(EndpointText(endpoint))
    case Ok(u) => SetEndpoint(Some(u))
    case Err(_) => SetEndpoint(None)
  }

  /** The effect of applying one option to a record. */
  function ApplyOption(c: Config, o: OptionFunc): Config
  {
    match o
    case SetTimeout(t) => c.(timeout := t)
    case SetContext(x) => c.(ctx := x)
    case MergeHeader(h) => c.(header := c.header + h)
    case DeleteHeader(names) => c.(header := c.header - set k | k in names)
    case SetContentLength(n) => c.(contentLength := n)
    case SetEndpoint(u) => c.(endpoint := u)
    case SetTPSLimit(token, tps, burst) =>
      c.(tpsLimiterToken := token, tps := tps, tpsBurst := if burst < 1 then 1 else burst)
  }

  /** Applying options left to right, as NewClient and Request do. */
  function ApplyAll(c: Config, opts: seq<OptionFunc>): Config
    decreases |opts|
  {
    if opts == [] then c
    else ApplyOption(ApplyAll(c, opts[..|opts| - 1]), opts[|opts| - 1])
  }

  /** The parts of the record; WithTPSLimit writes its three fields together. */
  datatype Field = TimeoutField | HeaderField | ContextField | ContentLengthField | EndpointField | TPSField

  function FieldOf(o: OptionFunc): Field
  {
    match o
    case SetTimeout(_) => TimeoutField
    case SetContext(_) => ContextField
    case MergeHeader(_) => HeaderField
    case DeleteHeader(_) => HeaderField
    case SetContentLength(_) => ContentLengthField
    case SetEndpoint(_) => EndpointField
    case SetTPSLimit(_, _, _) => TPSField
  }

  /** c and d hold the same value in field f. */
  predicate Agree(c: Config, d: Config, f: Field)
  {
    match f
    case TimeoutField => c.timeout == d.timeout
    case HeaderField => c.header == d.header
    case ContextField => c.ctx == d.ctx
    case ContentLengthField => c.contentLength == d.contentLength
    case EndpointField => c.endpoint == d.endpoint
    case TPSField => c.tpsLimiterToken == d.tpsLimiterToken && c.tps == d.tps && c.tpsBurst == d.tpsBurst
  }

  /** Every option writes its own field and leaves every other field alone. */
  lemma OptionFrame(c: Config, o: OptionFunc, f: Field)
    requires f != FieldOf(o)
    ensures Agree(c, ApplyOption(c, o), f)
  {
  }

  /** A field that no option of a sequence writes keeps its value. */
  lemma {:induction false} UntouchedFieldKept(c: Config, opts: seq<OptionFunc>, f: Field)
    requires forall i :: 0 <= i < |opts| ==> FieldOf(opts[i]) != f
    ensures Agree(c, ApplyAll(c, opts), f)
    decreases |opts|
  {
    if opts != [] {
      var init := opts[..|opts| - 1];
      UntouchedFieldKept(c, init, f);
      OptionFrame(ApplyAll(c, init), opts[|opts| - 1], f);
    }
  }

  /** Applying a + b is applying a, then b. */
  lemma {:induction false} ApplyAllConcat(c: Config, a: seq<OptionFunc>, b: seq<OptionFunc>)
    ensures ApplyAll(c, a + b) == ApplyAll(ApplyAll(c, a), b)
    decreases |b|
  {
    if b == [] {
      assert a + b == a;
    } else {
      var init := b[..|b| - 1];
      assert (a + b)[..|a + b| - 1] == a + init;
      ApplyAllConcat(c, a, init);
    }
  }

  /** The scalar options overwrite what was there before. */
  lemma ScalarOverwrites(c: Config, d: Config, o: OptionFunc)
    requires FieldOf(o) != HeaderField
    ensures Agree(ApplyOption(c, o), ApplyOption(d, o), FieldOf(o))
  {
  }

  /** Last write wins: when opts[i] is the last option to write a scalar
      field, the field ends up as opts[i] alone would set it. */
  lemma {:induction false} LastWriteWins(c: Config, opts: seq<OptionFunc>, i: nat)
    requires i < |opts| && FieldOf(opts[i]) != HeaderField
    requires forall j :: i < j < |opts| ==> FieldOf(opts[j]) != FieldOf(opts[i])
    ensures Agree(ApplyAll(c, opts), ApplyOption(c, opts[i]), FieldOf(opts[i]))
  {
    var f := FieldOf(opts[i]);
    var front, back := opts[..i + 1], opts[i + 1..];
    assert opts == front + back;
    ApplyAllConcat(c, front, back);
    assert front[..|front| - 1] == opts[..i];
    ScalarOverwrites(ApplyAll(c, opts[..i]), c, opts[i]);
    forall j | 0 <= j < |back| ensures FieldOf(back[j]) != f {
      assert back[j] == opts[i + 1 + j];
    }
    UntouchedFieldKept(ApplyAll(c, front), back, f);
  }

  /** Applying any option twice in a row is the same as applying it once. */
  lemma ApplyOptionIdempotent(c: Config, o: OptionFunc)
    ensures ApplyOption(ApplyOption(c, o), o) == ApplyOption(c, o)
  {
    match o
    case MergeHeader(h) =>
      assert c.header + h + h == c.header + h;
    case DeleteHeader(names) =>
      var gone := set k | k in names;
      assert c.header - gone - gone == c.header - gone;
    case _ =>
  }

  /** Once any WithTPSLimit option has been applied the burst is at least 1. */
  lemma {:induction false} BurstAtLeastOne(c: Config, opts: seq<OptionFunc>, i: nat)
    requires i < |opts| && opts[i].SetTPSLimit?
    ensures ApplyAll(c, opts).tpsBurst >= 1
    decreases |opts|
  {
    var last := |opts| - 1;
    if i < last && !opts[last].SetTPSLimit? {
      var init := opts[..last];
      assert init[i] == opts[i];
      BurstAtLeastOne(c, init, i);
      OptionFrame(ApplyAll(c, init), opts[last], TPSField);
    }
  }

  /** WithHeader then WithoutHeader of the same name leaves the name absent,
      and all names outside the removal list that the merge produced remain. */
  lemma HeaderThenWithout(c: Config, h: Header, names: seq<string>)
    ensures var r := ApplyAll(c, [MergeHeader(h), DeleteHeader(names)]).header;
            && (forall k :: k in names ==> k !in r)
            && (forall k :: k in h && k !in names ==> k in r && r[k] == h[k])
  {
    assert [MergeHeader(h), DeleteHeader(names)][..1] == [MergeHeader(h)];
    assert [MergeHeader(h)][..0] == [];
  }

  /** WithHeader: copy every entry of src into dst, one key at a time. */
  method MergeHeaders(dst: Header, src: Header) returns (r: Header)
    ensures r.Keys == dst.Keys + src.Keys
    ensures forall k :: k in src ==> r[k] == src[k]
    ensures forall k :: k in dst && k !in src ==> r[k] == dst[k]
  {
    r := dst;
    var todo := src.Keys;
    while todo != {}
      invariant todo <= src.Keys
      invariant r.Keys == dst.Keys + (src.Keys - todo)
      invariant forall k :: k in src && k !in todo ==> r[k] == src[k]
      invariant forall k :: k in dst && k !in src ==> r[k] == dst[k]
      invariant forall k :: k in dst && k in todo ==> r[k] == dst[k]
      decreases todo
    {
      var k :| k in todo;
      r := r[k := src[k]];
      todo := todo - {k};
    }
  }

  /** WithoutHeader: delete every listed name; repeated and absent names are
      harmless. */
  method DeleteHeaders(dst: Header, names: seq<string>) returns (r: Header)
    ensures forall k :: k in r <==> k in dst && k !in names
    ensures forall k :: k in r ==> r[k] == dst[k]
  {
    r := dst;
    for i := 0 to |names|
      invariant forall k :: k in r <==> k in dst && k !in names[..i]
      invariant forall k :: k in r ==> r[k] == dst[k]
    {
      r := r - {names[i]};
    }
    assert names[..|names|] == names;
  }

  /** The `options` record. */
  class Options {
    var timeout: Int64
    var header: Header
    var ctx: Context
    var contentLength: Int64
    var endpoint: Option<Url>
    var tpsLimiterToken: string
    var tps: real
    var tpsBurst: int

    function View(): Config
      reads this
    {
      Config(timeout, header, ctx, contentLength, endpoint, tpsLimiterToken, tps, tpsBurst)
    }

    /** newDefaultOption: 30s timeout, an empty header map, unset content
        length, the background context, no endpoint, no TPS limit. */
    constructor ()
      ensures timeout == 30 * Second && header == map[] && contentLength == -1
      ensures ctx == Background && endpoint == None && tps == 0.0
      ensures View() == DefaultConfig()
    {
      timeout := DefaultTimeout;
      header := map[];
      ctx := Background;
      contentLength := -1;
      endpoint := None;
      tpsLimiterToken := "";
      tps := 0.0;
      tpsBurst := 0;
    }

    /** clone: a new record holding the same values, so that later writes to
        either record, its header map included, do not reach the other. */
    method Clone() returns (r: Options)
      ensures fresh(r) && r != this
      ensures r.View() == View()
    {
      r := new Options();
      r.timeout, r.header, r.ctx, r.contentLength := timeout, header, ctx, contentLength;
      r.endpoint, r.tpsLimiterToken, r.tps, r.tpsBurst := endpoint, tpsLimiterToken, tps, tpsBurst;
    }

    /** o.apply(this): run the option's closure on this record. */
    method Apply(o: OptionFunc)
      modifies this
      ensures View() == ApplyOption(old(View()), o)
    {
      match o
      case SetTimeout(t) =>
        timeout := t;
      case SetContext(x) =>
        ctx := x;
      case MergeHeader(h) =>
        header := MergeHeaders(header, h);
        assert header == old(header) + h;
      case DeleteHeader(names) =>
        header := DeleteHeaders(header, names);
        assert header == old(header) - set k | k in names;
      case SetContentLength(n) =>
        contentLength := n;
      case SetEndpoint(u) =>
        endpoint := u;
      case SetTPSLimit(token, rate, burst) =>
        tpsLimiterToken := token;
        tps := rate;
        var b := burst;
        if b < 1 {
          b := 1;
        }
        tpsBurst := b;
    }

    /** Apply a sequence of options in order. */
    method ApplyEach(opts: seq<OptionFunc>)
      modifies this
      ensures View() == ApplyAll(old(View()), opts)
    {
      for i := 0 to |opts|
        invariant View() == ApplyAll(old(View()), opts[..i])
      {
        Apply(opts[i]);
        assert opts[..i + 1][..i] == opts[..i];
      }
      assert opts[..|opts|] == opts;
    }
  }
}
