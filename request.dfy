/** The HTTP client of request/request.go: the decisions Request makes before
    and around the transport call, the Response result with its short-circuit
    on an existing error, and the NopRSCloser partial seeker. The transport,
    URL parsing and resolution, request construction and header-key
    canonicalisation are library code; they enter as the function values of
    `Foreign`. */
module Request {
  import opened Base
  import opened RequestOptions

  /** io.SeekStart, io.SeekCurrent, io.SeekEnd */
  const SeekStart: int := 0
  const SeekCurrent: int := 1
  const SeekEnd: int := 2

  /** The initial buffer size of ioutil.ReadAll. */
  const ReadAllChunk: nat := 512

  /** The size of the chunk http.ServeContent reads to sniff the content type. */
  const ProbeSize: nat := 512

  function Min(a: int, b: int): int
  {
    if a <= b then a else b
  }

  /** What a body reports once its bytes are exhausted: io.EOF, or its read
      error when it has one. */
  function EndError(fault: Option<Error>): Error
  {
    if fault.Some? then fault.value else EOF
  }

  /** One Read into a buffer of n bytes at cursor pos: the bytes read, the
      error, and the new cursor. */
  function ReadStep(data: seq<Byte>, pos: nat, fault: Option<Error>, n: nat): (r: (seq<Byte>, Option<Error>, nat))
    requires pos <= |data|
    ensures pos <= r.2 <= |data| && r.0 == data[pos..r.2]
    ensures r.1.None? <==> pos < |data|
    ensures pos < |data| ==> |r.0| == Min(n, |data| - pos)
    ensures pos == |data| ==> r.1 == Some(EndError(fault))
  {
    if pos < |data| then
      var k := Min(n, |data| - pos);
      (data[pos..pos + k], None, pos + k)
    else
      ([], Some(EndError(fault)), pos)
  }

  /** An io.ReadCloser response body: its bytes, a read cursor and whether it
      was closed. A body ends with io.EOF, or with `fault` when it fails. */
  class Body {
    var data: seq<Byte>
    var pos: nat
    var closed: bool
    const fault: Option<Error>

    ghost predicate Valid()
      reads this
    {
      pos <= |data| && fault != Some(EOF)
    }

    constructor (data: seq<Byte>, fault: Option<Error>)
      requires fault != Some(EOF)
      ensures Valid() && this.data == data && pos == 0 && !closed && this.fault == fault
    {
      this.data := data;
      this.fault := fault;
      pos := 0;
      closed := false;
    }

    /** The bytes not yet read. */
    function Rest(): seq<Byte>
      reads this
      requires Valid()
    {
      data[pos..]
    }

    method Read(n: nat) returns (chunk: seq<Byte>, err: Option<Error>)
      requires Valid()
      modifies this`pos
      ensures Valid()
      ensures (chunk, err, pos) == ReadStep(data, old(pos), fault, n)
    {
      var step := ReadStep(data, pos, fault, n);
      chunk, err, pos := step.0, step.1, step.2;
    }

    /** ioutil.ReadAll: Read until the first error, keeping every chunk;
        io.EOF counts as success. Go grows its buffer from 512 bytes, so the
        chunk sizes vary there; they do not change what is read. */
    method ReadAll() returns (content: seq<Byte>, err: Option<Error>)
      requires Valid()
      modifies this`pos
      ensures Valid() && pos == |data|
      ensures content == old(Rest()) && err == fault
    {
      content := [];
      while true
        invariant Valid() && old(pos) <= pos
        invariant content + data[pos..] == old(Rest())
        decreases |data| - pos
      {
        var chunk, e := Read(ReadAllChunk);
        content := content + chunk;
        if e.Some? {
          err := if e.value == EOF then None else e;
          return;
        }
      }
    }

    method Close() returns (err: Option<Error>)
      modifies this`closed
      ensures closed && err == None
    {
      closed := true;
      err := None;
    }
  }

  /** The fields of *http.Response the core reads. */
  datatype HttpResponse = HttpResponse(statusCode: int, contentLength: Int64, body: Body)

  /** The shared status of a NopRSCloser: every copy of the adapter points to
      the same record. */
  class RscStatus {
    var ignoreFirst: bool
    var size: Int64

    constructor (size: Int64)
      ensures !ignoreFirst && this.size == size
    {
      ignoreFirst := false;
      this.size := size;
    }
  }

  /** Seek's answer: only offset 0 from the start or from the end is supported. */
  function SeekOutcome(offset: Int64, whence: int, size: Int64): (r: (Int64, Option<Error>))
    ensures r.1.None? <==> offset == 0 && (whence == SeekStart || whence == SeekEnd)
    ensures r.1.None? && whence == SeekStart ==> r.0 == 0
    ensures r.1.None? && whence == SeekEnd ==> r.0 == size
    ensures r.1.Some? ==> r == (0, Some(NotImplemented))
    ensures whence == SeekCurrent ==> r == (0, Some(NotImplemented))
  {
    if offset == 0 && whence == SeekStart then (0, None)
    else if offset == 0 && whence == SeekEnd then (size, None)
    else (0, Some(NotImplemented))
  }

  /** NopRSCloser is a value (its methods have value receivers) holding the
      body and a pointer to the status; copies share the status. */
  datatype NopRSCloser = NopRSCloser(body: Body, status: RscStatus) {

    method SetFirstFakeChunk()
      modifies status
      ensures status.ignoreFirst && status.size == old(status.size)
    {
      status.ignoreFirst := true;
    }

    method SetContentLength(size: Int64)
      modifies status
      ensures status.size == size && status.ignoreFirst == old(status.ignoreFirst)
    {
      status.size := size;
    }

    /** Read into a buffer of n bytes. While the flag is set a 512-byte read
        is answered with io.EOF and nothing is read; the flag stays set. Every
        other read goes to the body. */
    method Read(n: nat) returns (chunk: seq<Byte>, err: Option<Error>)
      requires body.Valid()
      modifies body`pos
      ensures body.Valid()
      ensures status.ignoreFirst && n == ProbeSize ==>
                chunk == [] && err == Some(EOF) && body.pos == old(body.pos)
      ensures !(status.ignoreFirst && n == ProbeSize) ==>
                (chunk, err, body.pos) == ReadStep(body.data, old(body.pos), body.fault, n)
    {
      if status.ignoreFirst && n == ProbeSize {
        return [], Some(EOF);
      }
      chunk, err := body.Read(n);
    }

    method Close() returns (err: Option<Error>)
      modifies body`closed
      ensures body.closed && err == None
    {
      err := body.Close();
    }

    /** Every Seek ends the probing phase, whether or not it succeeds. */
    method Seek(offset: Int64, whence: int) returns (pos: Int64, err: Option<Error>)
      modifies status
      ensures !status.ignoreFirst && status.size == old(status.size)
      ensures (pos, err) == SeekOutcome(offset, whence, status.size)
    {
      if status.ignoreFirst {
        status.ignoreFirst := false;
      }
      if offset == 0 {
        if whence == SeekStart {
          return 0, None;
        } else if whence == SeekEnd {
          return status.size, None;
        }
      }
      return 0, Some(NotImplemented);
    }
  }

  /** How http.ServeContent drives the adapter after SetFirstFakeChunk: its
      512-byte sniffing read sees an empty stream, its seek to the end learns
      the declared size, its seek back to the start ends the probing, and the
      next 512-byte read gets real data from the body. The flag is set
      through a copy of the adapter and seen through the original. */
  method ProbeThenServe(rsc: NopRSCloser) returns (sniffed: seq<Byte>, sniffErr: Option<Error>, size: Int64, chunk: seq<Byte>)
    requires rsc.body.Valid()
    modifies rsc.status, rsc.body`pos
    ensures sniffed == [] && sniffErr == Some(EOF)
    ensures size == old(rsc.status.size) && !rsc.status.ignoreFirst
    ensures chunk == ReadStep(rsc.body.data, old(rsc.body.pos), rsc.body.fault, ProbeSize).0
  {
    var copy := rsc;
    copy.SetFirstFakeChunk();
    sniffed, sniffErr := rsc.Read(ProbeSize);
    assert rsc.status.ignoreFirst;
    var err;
    size, err := rsc.Seek(0, SeekEnd);
    var start;
    start, err := rsc.Seek(0, SeekStart);
    chunk, err := rsc.Read(ProbeSize);
  }

  /** Response: an error, a result, or (after a failed status check) both. */
  class Response {
    var err: Option<Error>
    var response: Option<HttpResponse>

    /** A Response without an error has a result; otherwise the methods below
        would dereference a nil *http.Response. */
    ghost predicate Valid()
      reads this
    {
      err.None? ==> response.Some?
    }

    constructor (err: Option<Error>, response: Option<HttpResponse>)
      ensures this.err == err && this.response == response
    {
      this.err := err;
      this.response := response;
    }

    /** The whole body as text; the body is closed whatever the read gave.
        An existing error is returned at once and the body is not touched. */
    method GetResponse() returns (text: seq<Byte>, e: Option<Error>)
      requires Valid()
      requires err.None? ==> response.value.body.Valid()
      modifies if err.None? then {response.value.body} else {}
      ensures err.Some? ==> text == [] && e == err
      ensures err.None? ==>
                var b := response.value.body;
                && b.Valid() && b.closed && b.pos == |b.data|
                && b.data == old(b.data)
                && text == old(b.Rest()) && e == b.fault
    {
      if err.Some? {
        return [], err;
      }
      var b := response.value.body;
      text, e := b.ReadAll();
      var _ := b.Close();
    }

    /** Set an error when the status code differs from the expected one; an
        existing error is kept, and the result stays attached either way. */
    method CheckHTTPResponse(status: int) returns (r: Response)
      requires Valid()
      modifies this`err
      ensures r == this && Valid() && response == old(response)
      ensures old(err).Some? ==> err == old(err)
      ensures old(err).None? && response.value.statusCode != status ==>
                err == Some(StatusMismatch(response.value.statusCode))
      ensures old(err).None? && response.value.statusCode == status ==> err.None?
    {
      if err.Some? {
        return this;
      }
      if response.value.statusCode != status {
        err := Some(StatusMismatch(response.value.statusCode));
      }
      return this;
    }

    /** An adapter over the body with a fresh status seeded from the result's
        content length, or the existing error and no adapter. */
    method GetRSCloser() returns (rsc: Option<NopRSCloser>, e: Option<Error>)
      requires Valid()
      ensures e == err
      ensures err.Some? ==> rsc.None?
      ensures err.None? ==>
                && rsc.Some? && rsc.value.body == response.value.body && fresh(rsc.value.status)
                && !rsc.value.status.ignoreFirst && rsc.value.status.size == response.value.contentLength
    {
      if err.Some? {
        return None, err;
      }
      var status := new RscStatus(response.value.contentLength);
      return Some(NopRSCloser(response.value.body, status)), err;
    }
  }

  /** strings.Join */
  function Join(parts: seq<string>, sep: string): string
  {
    if |parts| == 0 then ""
    else if |parts| == 1 then parts[0]
    else parts[0] + sep + Join(parts[1..], sep)
  }

  /** The value Request adds for each option header: its values joined with
      a space. */
  function Joined(h: Header): (j: map<string, string>)
    ensures j.Keys == h.Keys
  {
    map k | k in h :: Join(h[k], " ")
  }

  /** The canonical names of a set of keys. */
  function Names(keys: set<string>, canonical: string -> string): set<string>
  {
    set k | k in keys :: canonical(k)
  }

  /** The option keys whose canonical form is `name`. */
  function KeysWith(keys: set<string>, canonical: string -> string, name: string): set<string>
  {
    set k | k in keys && canonical(k) == name
  }

  /** `out` holds exactly one value for each key of `keys`, filed under the
      key's canonical form, as repeated req.Header.Add calls leave it. */
  ghost predicate AddedOnce(out: map<string, seq<string>>, j: map<string, string>, keys: set<string>, canonical: string -> string)
    requires keys <= j.Keys
  {
    && NamesMatch(out, keys, canonical)
    && CountsMatch(out, keys, canonical)
    && ValueCountsMatch(out, j, keys, canonical)
    && EveryKeyAdded(out, j, keys, canonical)
    && OnlyTheirValues(out, j, keys, canonical)
  }

  /** The names present are the canonical forms of the keys. */
  ghost predicate NamesMatch(out: map<string, seq<string>>, keys: set<string>, canonical: string -> string)
  {
    out.Keys == Names(keys, canonical)
  }

  /** Each name holds one value per key that maps to it. */
  ghost predicate CountsMatch(out: map<string, seq<string>>, keys: set<string>, canonical: string -> string)
  {
    forall name :: name in out ==> |out[name]| == |KeysWith(keys, canonical, name)|
  }

  /** The option keys whose canonical form is `name` and whose value is `v`. */
  function KeysWithValue(j: map<string, string>, keys: set<string>, canonical: string -> string, name: string, v: string): set<string>
    requires keys <= j.Keys
  {
    set k | k in keys && canonical(k) == name && j[k] == v
  }

  /** Each name holds each value as often as keys with that value map to it. */
  ghost predicate ValueCountsMatch(out: map<string, seq<string>>, j: map<string, string>, keys: set<string>, canonical: string -> string)
    requires keys <= j.Keys
  {
    forall name, v :: name in out ==> multiset(out[name])[v] == |KeysWithValue(j, keys, canonical, name, v)|
  }

  /** Each key's value is filed under its canonical name. */
  ghost predicate EveryKeyAdded(out: map<string, seq<string>>, j: map<string, string>, keys: set<string>, canonical: string -> string)
    requires keys <= j.Keys
  {
    forall k :: k in keys ==> canonical(k) in out && j[k] in out[canonical(k)]
  }

  /** A name holds only values of keys that map to it. */
  ghost predicate OnlyTheirValues(out: map<string, seq<string>>, j: map<string, string>, keys: set<string>, canonical: string -> string)
    requires keys <= j.Keys
  {
    forall name, i :: name in out && 0 <= i < |out[name]| ==> out[name][i] in ValuesOf(j, KeysWith(keys, canonical, name))
  }

  /** The values of the given keys. */
  function ValuesOf(j: map<string, string>, keys: set<string>): set<string>
    requires keys <= j.Keys
  {
    set k | k in keys :: j[k]
  }

  /** The elements of a sequence. */
  function Elems(order: seq<string>): set<string>
  {
    set k | k in order
  }

  /** `order` lists every key of `keys` exactly once: one iteration order of
      a Go map with those keys. */
  predicate Enumerates(order: seq<string>, keys: set<string>)
  {
    && Elems(order) == keys
    && forall i, i' :: 0 <= i < i' < |order| ==> order[i] != order[i']
  }

  /** The header that req.Header.Add(k, j[k]) leaves when called on an empty
      header for the keys of `order`, one after the other. */
  function Added(j: map<string, string>, order: seq<string>, canonical: string -> string): map<string, seq<string>>
    requires Elems(order) <= j.Keys
  {
    if order == [] then map[]
    else
      var out := Added(j, order[..|order| - 1], canonical);
      var k := order[|order| - 1];
      var name := canonical(k);
      out[name := (if name in out then out[name] else []) + [j[k]]]
  }

  /** The header loop of Request: req.Header.Add(k, strings.Join(v, " ")) for
      every entry of the option headers, into the empty header of a new
      request. `order` is the order in which the map was iterated. */
  method AddHeaders(h: Header, canonical: string -> string) returns (out: map<string, seq<string>>, ghost order: seq<string>)
    ensures Enumerates(order, h.Keys)
    ensures out == Added(Joined(h), order, canonical)
    ensures AddedOnce(out, Joined(h), h.Keys, canonical)
  {
    out := map[];
    order := [];
    var todo := h.Keys;
    ghost var j := Joined(h);
    while todo != {}
      invariant todo <= h.Keys && Elems(order) == h.Keys - todo
      invariant forall i, i' :: 0 <= i < i' < |order| ==> order[i] != order[i']
      invariant out == Added(j, order, canonical)
      decreases todo
    {
      var k :| k in todo;
      var name := canonical(k);
      var prev := if name in out then out[name] else [];
      out := out[name := prev + [Join(h[k], " ")]];
      assert (order + [k])[..|order|] == order;
      assert Elems(order + [k]) == Elems(order) + {k};
      order := order + [k];
      todo := todo - {k};
    }
    HeadersAddedOnce(h, order, canonical);
  }

  /** Adding the keys of an enumeration one by one adds each key's value
      once, under its canonical name, and nothing else. */
  lemma {:induction false} AddedIsAddedOnce(j: map<string, string>, order: seq<string>, canonical: string -> string)
    requires Elems(order) <= j.Keys
    requires forall i, i' :: 0 <= i < i' < |order| ==> order[i] != order[i']
    ensures AddedOnce(Added(j, order, canonical), j, Elems(order), canonical)
  {
    if order == [] {
      AddedNone(j, canonical);
    } else {
      var prefix := order[..|order| - 1];
      var k := order[|order| - 1];
      assert Elems(order) == Elems(prefix) + {k} by {
        assert order == prefix + [k];
      }
      assert k !in Elems(prefix) by {
        forall i | 0 <= i < |prefix|
          ensures prefix[i] != k
        {
          assert prefix[i] == order[i];
        }
      }
      AddedIsAddedOnce(j, prefix, canonical);
      AddOne(Added(j, prefix, canonical), j, Elems(prefix), k, canonical);
    }
  }

  /** The header Request builds: whatever the iteration order, each option
      header key adds exactly one value under its canonical name. */
  lemma HeadersAddedOnce(h: Header, order: seq<string>, canonical: string -> string)
    requires Enumerates(order, h.Keys)
    ensures AddedOnce(Added(Joined(h), order, canonical), Joined(h), h.Keys, canonical)
  {
    AddedIsAddedOnce(Joined(h), order, canonical);
  }

  /** Before the loop: nothing processed, nothing added. */
  lemma AddedNone(j: map<string, string>, canonical: string -> string)
    ensures AddedOnce(map[], j, {}, canonical)
  {
    assert Names({}, canonical) == {};
  }

  /** Adding one key to the processed set adds its name, grows that name's
      key set by the key, and leaves every other name's alone. */
  lemma KeysWithStep(done: set<string>, k: string, canonical: string -> string)
    requires k !in done
    ensures Names(done + {k}, canonical) == Names(done, canonical) + {canonical(k)}
    ensures KeysWith(done + {k}, canonical, canonical(k)) == KeysWith(done, canonical, canonical(k)) + {k}
    ensures forall name :: name != canonical(k) ==> KeysWith(done + {k}, canonical, name) == KeysWith(done, canonical, name)
  {
  }

  /** One req.Header.Add call keeps AddedOnce, with one more key processed. */
  lemma AddOne(out: map<string, seq<string>>, j: map<string, string>, done: set<string>, k: string, canonical: string -> string)
    requires done <= j.Keys && k in j && k !in done
    requires AddedOnce(out, j, done, canonical)
    ensures var name := canonical(k);
            var prev := if name in out then out[name] else [];
            AddedOnce(out[name := prev + [j[k]]], j, done + {k}, canonical)
  {
    KeysWithStep(done, k, canonical);
    AddOneCounts(out, j, done, k, canonical);
    AddOneValueCounts(out, j, done, k, canonical);
    AddOneEveryKey(out, j, done, k, canonical);
    AddOneValues(out, j, done, k, canonical);
  }

  lemma AddOneCounts(out: map<string, seq<string>>, j: map<string, string>, done: set<string>, k: string, canonical: string -> string)
    requires done <= j.Keys && k in j && k !in done
    requires NamesMatch(out, done, canonical) && CountsMatch(out, done, canonical)
    ensures var name := canonical(k);
            var prev := if name in out then out[name] else [];
            CountsMatch(out[name := prev + [j[k]]], done + {k}, canonical)
  {
    var name := canonical(k);
    KeysWithStep(done, k, canonical);
    assert name !in out ==> KeysWith(done, canonical, name) == {};
  }

  /** Adding one key to the processed set adds it to the keys of its own
      name and value, and leaves every other such set alone. */
  lemma KeysWithValueStep(j: map<string, string>, done: set<string>, k: string, canonical: string -> string, name: string, v: string)
    requires done <= j.Keys && k in j && k !in done
    ensures KeysWithValue(j, done + {k}, canonical, name, v) ==
            if name == canonical(k) && v == j[k] then KeysWithValue(j, done, canonical, name, v) + {k}
            else KeysWithValue(j, done, canonical, name, v)
  {
  }

  lemma AddOneValueCounts(out: map<string, seq<string>>, j: map<string, string>, done: set<string>, k: string, canonical: string -> string)
    requires done <= j.Keys && k in j && k !in done
    requires NamesMatch(out, done, canonical) && ValueCountsMatch(out, j, done, canonical)
    ensures var name := canonical(k);
            var prev := if name in out then out[name] else [];
            ValueCountsMatch(out[name := prev + [j[k]]], j, done + {k}, canonical)
  {
    var name := canonical(k);
    var prev := if name in out then out[name] else [];
    var out' := out[name := prev + [j[k]]];
    forall n, v | n in out'
      ensures multiset(out'[n])[v] == |KeysWithValue(j, done + {k}, canonical, n, v)|
    {
      KeysWithValueStep(j, done, k, canonical, n, v);
      if n == name {
        if name !in out {
          assert name !in Names(done, canonical);
          assert KeysWithValue(j, done, canonical, n, v) == {};
        }
        assert multiset(out'[n]) == multiset(prev) + multiset{j[k]};
      }
    }
  }

  lemma AddOneEveryKey(out: map<string, seq<string>>, j: map<string, string>, done: set<string>, k: string, canonical: string -> string)
    requires done <= j.Keys && k in j && k !in done
    requires EveryKeyAdded(out, j, done, canonical)
    ensures var name := canonical(k);
            var prev := if name in out then out[name] else [];
            EveryKeyAdded(out[name := prev + [j[k]]], j, done + {k}, canonical)
  {
    var name := canonical(k);
    var prev := if name in out then out[name] else [];
    var out' := out[name := prev + [j[k]]];
    forall x | x in done + {k}
      ensures canonical(x) in out' && j[x] in out'[canonical(x)]
    {
      if x != k {
        assert j[x] in out[canonical(x)];
      }
    }
  }

  lemma AddOneValues(out: map<string, seq<string>>, j: map<string, string>, done: set<string>, k: string, canonical: string -> string)
    requires done <= j.Keys && k in j && k !in done
    requires OnlyTheirValues(out, j, done, canonical)
    ensures var name := canonical(k);
            var prev := if name in out then out[name] else [];
            OnlyTheirValues(out[name := prev + [j[k]]], j, done + {k}, canonical)
  {
    var name := canonical(k);
    var prev := if name in out then out[name] else [];
    var out' := out[name := prev + [j[k]]];
    var done' := done + {k};
    KeysWithStep(done, k, canonical);
    assert ValuesOf(j, KeysWith(done', canonical, name)) == ValuesOf(j, KeysWith(done, canonical, name)) + {j[k]};
    forall n, i | n in out' && 0 <= i < |out'[n]|
      ensures out'[n][i] in ValuesOf(j, KeysWith(done', canonical, n))
    {
      if n == name && i == |prev| {
        assert out'[n][i] == j[k];
      } else {
        assert n in out && out'[n][i] == out[n][i];
      }
    }
  }

  /** When no two option keys share a canonical form, each canonical name
      carries exactly the joined values of its one key. */
  lemma {:induction false} AddedOnceInjective(out: map<string, seq<string>>, h: Header, canonical: string -> string)
    requires AddedOnce(out, Joined(h), h.Keys, canonical)
    requires forall k1, k2 :: k1 in h && k2 in h && canonical(k1) == canonical(k2) ==> k1 == k2
    ensures forall k :: k in h ==> out[canonical(k)] == [Join(h[k], " ")]
  {
    forall k | k in h
      ensures out[canonical(k)] == [Join(h[k], " ")]
    {
      var name := canonical(k);
      assert KeysWith(h.Keys, canonical, name) == {k};
      assert |out[name]| == 1;
      assert Joined(h)[k] in out[name];
    }
  }

  /** The body handed to the transport: an explicit content length of zero
      drops it. */
  function EffectiveBody(cfg: Config, body: Option<Payload>): (b: Option<Payload>)
    ensures cfg.contentLength == 0 ==> b.None?
    ensures cfg.contentLength != 0 ==> b == body
  {
    if cfg.contentLength == 0 then None else body
  }

  /** The URL to request: the target as given without an endpoint; with one,
      the target parsed and resolved against it, or the parse error. */
  function ResolveTarget(cfg: Config, target: string, f: Foreign): (r: Result<string>)
    ensures cfg.endpoint.None? ==> r == Ok(target)
    ensures cfg.endpoint.Some? && f.parseUrl(target).Err? ==> r == Err(f.parseUrl(target).error)
    ensures cfg.endpoint.Some? && f.parseUrl(target).Ok? ==>
              r == Ok(f.resolve(cfg.endpoint.value, f.parseUrl(target).value))
  {
    if cfg.endpoint.None? then Ok(target)
    else match f.parseUrl(target)
      case Err(e) => Err(e)
      case Ok(u) => Ok(f.resolve(cfg.endpoint.value, u))
  }

  /** The context the request is built with: NewRequest stands for
      NewRequestWithContext with the background context. */
  function RequestContext(ctx: Context): (r: Context)
    ensures r != NilContext
    ensures ctx != NilContext ==> r == ctx
  {
    if ctx != NilContext then ctx else Background
  }

  /** req.ContentLength is overridden exactly when the option is not -1. */
  function ContentLengthOverride(cfg: Config): (r: Option<Int64>)
    ensures r.Some? <==> cfg.contentLength != -1
    ensures r.Some? ==> r.value == cfg.contentLength
  {
    if cfg.contentLength != -1 then Some(cfg.contentLength) else None
  }

  /** The io.Reader given as the request body, by identity. */
  datatype Payload = Payload(id: nat)

  /** The *http.Request handed to client.Do, with the client's timeout.
      contentLength None leaves the length http.NewRequest inferred. */
  datatype Outbound = Outbound(
    verb: string,
    url: string,
    ctx: Context,
    body: Option<Payload>,
    header: map<string, seq<string>>,
    contentLength: Option<Int64>,
    timeout: Int64)

  /** The library calls Request makes, by their outcome. */
  datatype Foreign = Foreign(
    parseUrl: string -> Result<Url>,                                       // url.Parse
    resolve: (Url, Url) -> string,                                        // base.ResolveReference(ref).String()
    newRequest: (Context, string, string, Option<Payload>) -> Option<Error>, // the error of http.NewRequestWithContext
    canonicalKey: string -> string,                                       // the key canonicalisation of Header.Add
    send: Outbound -> Result<HttpResponse>)                               // (&http.Client{...}).Do

  /** One call of TPSLimiter.Limit. */
  datatype LimitCall = LimitCall(ctx: Context, token: string, tps: real, burst: int)

  /** The rate limiter, observed through the calls it receives; its token
      bucket and blocking are not modelled. */
  class TPSLimiter {
    var calls: seq<LimitCall>

    constructor ()
      ensures calls == []
    {
      calls := [];
    }

    method Limit(ctx: Context, token: string, tps: real, burst: int)
      modifies this
      ensures calls == old(calls) + [LimitCall(ctx, token, tps, burst)]
    {
      calls := calls + [LimitCall(ctx, token, tps, burst)];
    }
  }

  /** HTTPClient; the mutex guarding `options` only serialises callers. */
  class HTTPClient {
    const options: Options
    const tpsLimiter: TPSLimiter

    /** NewClient: the default options with the given ones applied in order. */
    constructor (opts: seq<OptionFunc>, limiter: TPSLimiter)
      ensures fresh(options) && tpsLimiter == limiter
      ensures options.View() == ApplyAll(DefaultConfig(), opts)
    {
      options := new Options();
      tpsLimiter := limiter;
      new;
      options.ApplyEach(opts);
    }

    /** Request: clone the base options under the lock, apply the call's
        options to the clone, then carry out the rest of the call on it.
        `sent` is the request handed to the transport, if any. The base
        options are never written. */
    method Request(verb: string, target: string, body: Option<Payload>, opts: seq<OptionFunc>, f: Foreign)
      returns (r: Response, ghost sent: Option<Outbound>, ghost order: seq<string>)
      modifies tpsLimiter
      ensures fresh(r) && unchanged(options)
      ensures Performed(ApplyAll(options.View(), opts), verb, target, body, f,
                        r.err, r.response, sent, order, old(tpsLimiter.calls), tpsLimiter.calls)
    {
      var o := options.Clone();
      o.ApplyEach(opts);
      r, sent, order := Perform(o.View(), verb, target, body, f);
    }

    /** The steps of Request after the options are applied (request.go lines
        57-109), on the value `cfg` of the effective options. */
    method Perform(cfg: Config, verb: string, target: string, body: Option<Payload>, f: Foreign)
      returns (r: Response, ghost sent: Option<Outbound>, ghost order: seq<string>)
      modifies tpsLimiter
      ensures fresh(r)
      ensures Performed(cfg, verb, target, body, f, r.err, r.response, sent, order, old(tpsLimiter.calls), tpsLimiter.calls)
    {
      order := [];
      var payload := EffectiveBody(cfg, body);
      var resolved := ResolveTarget(cfg, target, f);
      if resolved.Err? {
        r := new Response(Some(resolved.error), None);
        sent := None;
        return;
      }
      var url := resolved.value;
      var ctx := RequestContext(cfg.ctx);
      var buildErr := f.newRequest(ctx, verb, url, payload);
      if buildErr.Some? {
        r := new Response(buildErr, None);
        sent := None;
        return;
      }

      var header;
      header, order := AddHeaders(cfg.header, f.canonicalKey);

      var length := ContentLengthOverride(cfg);
      if cfg.tps > 0.0 {
        tpsLimiter.Limit(cfg.ctx, cfg.tpsLimiterToken, cfg.tps, cfg.tpsBurst);
      }

      var req := Outbound(verb, url, ctx, payload, header, length, cfg.timeout);
      sent := Some(req);
      var outcome := f.send(req);
      if outcome.Err? {
        r := new Response(Some(outcome.error), None);
      } else {
        r := new Response(None, Some(outcome.value));
      }
    }
  }

  /** The limiter calls a request makes once it gets that far: one when the
      rate is positive, none otherwise. */
  function LimitCalls(cfg: Config): (calls: seq<LimitCall>)
    ensures |calls| <= 1
    ensures |calls| == 1 <==> cfg.tps > 0.0
    ensures calls != [] ==> calls[0] == LimitCall(cfg.ctx, cfg.tpsLimiterToken, cfg.tps, cfg.tpsBurst)
  {
    if cfg.tps > 0.0 then [LimitCall(cfg.ctx, cfg.tpsLimiterToken, cfg.tps, cfg.tpsBurst)] else []
  }

  /** What a call of Request with effective options `cfg` does: the
      Response it returns (err, response), the request it hands to the
      transport (sent) and the limiter calls it adds (before, after). A target
      parse failure or a request construction failure ends the call with that
      error before the limiter and the transport are reached. Otherwise the
      transport gets the resolved URL, the context, the body unless the
      content length is 0, the headers flattened in the iteration order
      `order`, the content length override
      and the timeout, and the Response carries its error or its result. */
  ghost predicate Performed(cfg: Config, verb: string, target: string, body: Option<Payload>, f: Foreign,
                            err: Option<Error>, response: Option<HttpResponse>, sent: Option<Outbound>,
                            order: seq<string>, before: seq<LimitCall>, after: seq<LimitCall>)
  {
    var resolved := ResolveTarget(cfg, target, f);
    var ctx := RequestContext(cfg.ctx);
    var payload := EffectiveBody(cfg, body);
    && (err.Some? <==> response.None?)
    && if resolved.Err? then
         err == Some(resolved.error) && sent.None? && after == before
       else if f.newRequest(ctx, verb, resolved.value, payload).Some? then
         err == f.newRequest(ctx, verb, resolved.value, payload) && sent.None? && after == before
       else
         && sent.Some?
         && sent.value.verb == verb && sent.value.url == resolved.value
         && sent.value.ctx == ctx && sent.value.body == payload
         && Enumerates(order, cfg.header.Keys)
         && sent.value.header == Added(Joined(cfg.header), order, f.canonicalKey)
         && sent.value.contentLength == ContentLengthOverride(cfg)
         && sent.value.timeout == cfg.timeout
         && after == before + LimitCalls(cfg)
         && (f.send(sent.value).Err? ==> err == Some(f.send(sent.value).error))
         && (f.send(sent.value).Ok? ==> response == Some(f.send(sent.value).value))
  }
}
