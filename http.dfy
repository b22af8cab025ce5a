/**
  * The parts of Go's `net/http` and `context` that the session and login code touch:
  * cookies, the request's cookies and context, and a response writer that records what
  * the handler sends.
  */
module Http {
  import opened Common
  import Uuid

  /** `http.Cookie`; `maxAge` 0 means no Max-Age attribute, a negative one "delete now". */
  datatype Cookie = Cookie(
    name: Bytes,
    value: Bytes,
    path: string,
    httpOnly: bool,
    secure: bool,
    maxAge: int)

  /** A context key: Go compares keys by their dynamic type and their value. */
  datatype ContextKey = ContextKey(typeName: string, name: string)

  /** A value stored in a context: a `uuid.UUID` or a value of some other type. */
  datatype ContextValue = UUIDValue(id: Uuid.UUID) | OtherValue(typeName: string)

  /** A chain of `context.WithValue` calls; the innermost value for a key wins. */
  type Context = map<ContextKey, ContextValue>

  /** `context.WithValue(ctx, key, value)`. */
  function WithValue(ctx: Context, key: ContextKey, value: ContextValue): (r: Context)
    ensures key in r && r[key] == value
    ensures forall k | k in ctx && k != key :: k in r && r[k] == ctx[k]
  {
    ctx[key := value]
  }

  /** An incoming request: its cookies (name, value), in header order, and its context. */
  datatype Request = Request(cookies: seq<(Bytes, Bytes)>, ctx: Context)

  /** `r.Cookie(name)`: the value of the first cookie with that name, `None` for `http.ErrNoCookie`. */
  function CookieValue(cookies: seq<(Bytes, Bytes)>, name: Bytes): (v: Option<Bytes>)
    ensures v.None? <==> forall i | 0 <= i < |cookies| :: cookies[i].0 != name
    ensures v.Some? ==> exists i | 0 <= i < |cookies| ::
      cookies[i] == (name, v.value) && forall j | 0 <= j < i :: cookies[j].0 != name
  {
    if cookies == [] then None
    else if cookies[0].0 == name then Some(cookies[0].1)
    else
      var v := CookieValue(cookies[1..], name);
      assert forall i | 1 <= i < |cookies| :: cookies[i] == cookies[1..][i - 1];
      assert v.Some? ==> exists i | 1 <= i < |cookies| ::
        cookies[i] == (name, v.value) && forall j | 0 <= j < i :: cookies[j].0 != name by {
        if v.Some? {
          var k :| 0 <= k < |cookies[1..]| && cookies[1..][k] == (name, v.value)
            && forall j | 0 <= j < k :: cookies[1..][j].0 != name;
          assert cookies[k + 1] == (name, v.value);
          assert forall j | 0 <= j < k + 1 :: cookies[j].0 != name by {
            forall j | 0 <= j < k + 1 ensures cookies[j].0 != name {
              if j > 0 { assert cookies[j] == cookies[1..][j - 1]; }
            }
          }
        }
      }
      v
  }

  /**
    * A `http.ResponseWriter` as the client sees it. The header, the Set-Cookie lines and
    * the status are fixed by the first `WriteHeader` or `Write`; later header changes and
    * later status codes do not reach the client.
    */
  class ResponseWriter {
    var header: map<string, string>
    var cookies: seq<Cookie>
    /** 0 until the status line has been written. */
    var status: int
    var body: string

    constructor ()
      ensures header == map[] && cookies == [] && status == 0 && body == ""
    {
      header, cookies, status, body := map[], [], 0, "";
    }

    /** `w.Header().Set(key, value)`. */
    method SetHeader(key: string, value: string)
      modifies this
      ensures header == if old(status) == 0 then old(header)[key := value] else old(header)
      ensures cookies == old(cookies) && status == old(status) && body == old(body)
    {
      if status == 0 {
        header := header[key := value];
      }
    }

    /** `http.SetCookie(w, c)`: one more Set-Cookie header line. */
    method AddCookie(c: Cookie)
      modifies this
      ensures cookies == if old(status) == 0 then old(cookies) + [c] else old(cookies)
      ensures header == old(header) && status == old(status) && body == old(body)
    {
      if status == 0 {
        cookies := cookies + [c];
      }
    }

    /** `w.WriteHeader(code)`: only the first call counts. */
    method WriteHeader(code: int)
      requires 100 <= code <= 999
      modifies this
      ensures status == if old(status) == 0 then code else old(status)
      ensures header == old(header) && cookies == old(cookies) && body == old(body)
    {
      if status == 0 {
        status := code;
      }
    }

    /** `w.Write(data)`: sends 200 first if no status was written. */
    method Write(data: string)
      modifies this
      ensures status == if old(status) == 0 then 200 else old(status)
      ensures body == old(body) + data
      ensures header == old(header) && cookies == old(cookies)
    {
      if status == 0 {
        status := 200;
      }
      body := body + data;
    }
  }
}
