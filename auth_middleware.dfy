/** middleware/auth.js: reads the bearer token from the Authorization header,
    verifies it and, on success, records the decoded payload as the request's
    user and passes the request on. */
module AuthMiddleware {
  import opened Common
  import opened Auth

  /** What a middleware does with a request: call `next`, or answer it
      with a status and an error message. */
  datatype Outcome = Next | Respond(reply: Reply<string>)

  /** The part of an Express request the middleware writes. */
  class HttpRequest {
    var user: Option<Claims>

    constructor ()
      ensures user == None
    {
      user := None;
    }
  }

  /** `String.prototype.split` with a one-character separator. */
  function Split(s: string, sep: char): (parts: seq<string>)
    ensures |parts| >= 1
  {
    if s == [] then [[]]
    else
      var rest := Split(s[1..], sep);
      if s[0] == sep then [[]] + rest else [[s[0]] + rest[0]] + rest[1..]
  }

  /** `Array.prototype.join` with a one-character separator. */
  function Join(parts: seq<string>, sep: char): string
    requires |parts| >= 1
  {
    if |parts| == 1 then parts[0] else parts[0] + [sep] + Join(parts[1..], sep)
  }

  /** Splitting never loses text: joining the parts with the separator gives
      the original string back, and no part contains the separator. */
  lemma {:induction false} SplitJoin(s: string, sep: char)
    ensures Join(Split(s, sep), sep) == s
    ensures forall i :: 0 <= i < |Split(s, sep)| ==> sep !in Split(s, sep)[i]
  {
    if s != [] {
      SplitJoin(s[1..], sep);
      var rest := Split(s[1..], sep);
      if s[0] == sep {
        assert Split(s, sep)[1..] == rest;
        assert [s[0]] + s[1..] == s;
      } else {
        var parts := Split(s, sep);
        assert parts[0] == [s[0]] + rest[0];
        if |rest| > 1 {
          assert parts[1..] == rest[1..];
          assert Join(parts, sep) == [s[0]] + (rest[0] + [sep] + Join(rest[1..], sep));
        }
        assert forall i :: 1 <= i < |parts| ==> parts[i] == rest[i];
        assert [s[0]] + s[1..] == s;
      }
    }
  }

  /** A word without the separator, followed by the end of the text or by a
      separator, is the first part. */
  lemma {:induction false} SplitFirstWord(w: string, x: string, sep: char)
    requires sep !in w
    requires x == [] || x[0] == sep
    ensures Split(w + x, sep) == if x == [] then [w] else [w] + Split(x[1..], sep)
  {
    if w == [] {
      assert w + x == x;
      if x != [] {
        assert Split(x, sep) == [[]] + Split(x[1..], sep);
      }
    } else {
      SplitFirstWord(w[1..], x, sep);
      assert (w + x)[1..] == w[1..] + x;
      assert [w[0]] + w[1..] == w;
    }
  }

  /** `authHeader.split(' ')[1]`: the second space-separated part, if any. */
  function BearerToken(header: string): Option<string> {
    var parts := Split(header, ' ');
    if |parts| >= 2 then Some(parts[1]) else None
  }

  /** The token of a header "scheme token" or "scheme token more..." is the
      second word. */
  lemma BearerTokenOf(scheme: string, token: string, more: string)
    requires ' ' !in scheme && ' ' !in token
    requires more == [] || more[0] == ' '
    ensures BearerToken(scheme + " " + token + more) == Some(token)
  {
    var rest := " " + token + more;
    assert rest[1..] == token + more;
    SplitFirstWord(scheme, rest, ' ');
    SplitFirstWord(token, more, ' ');
    var parts := Split(scheme + rest, ' ');
    assert |Split(token + more, ' ')| >= 1 && Split(token + more, ' ')[0] == token;
    assert parts == [scheme] + Split(token + more, ' ');
    assert scheme + " " + token + more == scheme + rest;
  }

  /** A header that is a single word has no token. */
  lemma NoTokenInOneWord(header: string)
    requires ' ' !in header
    ensures BearerToken(header).None?
  {
    SplitFirstWord(header, [], ' ');
    assert header + [] == header;
  }

  /** The middleware. `verify` is `jwt.verify` with the server's secret: the
      decoded payload, or None when it throws. A missing or empty header, or a
      header without a second word, gives 401; a token that does not verify
      gives 400. None of these call `next` or set the user. Otherwise the user
      becomes the decoded payload and `next` is called. */
  method Authorize(req: HttpRequest, header: Option<string>, verify: string -> Option<Claims>)
    returns (outcome: Outcome)
    modifies req
    ensures !Truthy(header) ==>
      outcome == Respond(Reply(401, "Access denied")) && req.user == old(req.user)
    ensures Truthy(header) && !Truthy(BearerToken(header.value)) ==>
      outcome == Respond(Reply(401, "Access denied")) && req.user == old(req.user)
    ensures Truthy(header) && Truthy(BearerToken(header.value)) && verify(BearerToken(header.value).value).None? ==>
      outcome == Respond(Reply(400, "Invalid token")) && req.user == old(req.user)
    ensures Truthy(header) && Truthy(BearerToken(header.value)) && verify(BearerToken(header.value).value).Some? ==>
      outcome == Next && req.user == verify(BearerToken(header.value).value)
  {
    if !Truthy(header) {
      return Respond(Reply(401, "Access denied"));
    }
    var token := BearerToken(header.value);
    if !Truthy(token) {
      return Respond(Reply(401, "Access denied"));
    }
    var verified := verify(token.value);
    if verified.None? {
      return Respond(Reply(400, "Invalid token"));
    }
    req.user := verified;
    outcome := Next;
  }
}
