/** Values shared by the request client and the observer registry: optional
    values, errors, Go's fixed-width integers, bytes, contexts and URLs. */
module Base {

  datatype Option<+T> = None | Some(value: T)

  datatype Result<+T> = Ok(value: T) | Err(error: Error)

  /** The errors the modelled code produces or passes on. Errors raised by code
      outside the model (net/url, net/http, a response body, an observer) are
      `Foreign`, told apart by an identity. */
  datatype Error =
    | EOF                          // io.EOF
    | NotImplemented               // errors.New("not implemented") from Seek
    | StatusMismatch(code: int)    // fmt.Errorf(... %d, StatusCode) from CheckHTTPResponse
    | Foreign(id: nat)

  const MinInt64: int := -0x8000_0000_0000_0000
  const MaxInt64: int := 0x7fff_ffff_ffff_ffff

  /** Go's int64 (also time.Duration, counted in nanoseconds). */
  type Int64 = x: int | MinInt64 <= x <= MaxInt64

  newtype Byte = x: int | 0 <= x < 256

  /** A context.Context value. `NilContext` is the nil interface value that
      WithContext(nil) would store. */
  datatype Context = NilContext | Background | UserContext(id: nat)

  /** A parsed *url.URL; its structure belongs to net/url and is not modelled. */
  datatype Url = Url(id: nat)

  predicate HasSuffix(s: string, suffix: string)
  {
    |suffix| <= |s| && s[|s| - |suffix|..] == suffix
  }
}
