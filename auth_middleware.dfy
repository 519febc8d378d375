/**
 * The authentication middleware: take the second space-separated part of
 * the Authorization header as the token, verify it, and either record the
 * token's user on the request and hand over to the next handler, or answer
 * 401. The scheme word in front of the token is not inspected.
 */
module AuthMiddleware {
  import opened Common
  import opened Http

  // ----------------------------------------------------- splitting strings

  /** JavaScript's `s.split(sep)` for a one-character separator: the pieces between separators, empty ones included. */
  function Split(s: string, sep: char): (parts: seq<string>)
    ensures |parts| >= 1
    ensures forall i :: 0 <= i < |parts| ==> sep !in parts[i]
  {
    if s == [] then [""]
    else
      var rest := Split(s[1..], sep);
      if s[0] == sep then [""] + rest
      else [[s[0]] + rest[0]] + rest[1..]
  }

  /** JavaScript's `parts.join(sep)`. */
  function Join(parts: seq<string>, sep: char): string
    requires |parts| >= 1
  {
    if |parts| == 1 then parts[0] else parts[0] + [sep] + Join(parts[1..], sep)
  }

  /** Joining the pieces of a split gives back the string. */
  lemma {:induction false} JoinSplit(s: string, sep: char)
    ensures Join(Split(s, sep), sep) == s
  {
    if s != [] {
      JoinSplit(s[1..], sep);
      var rest := Split(s[1..], sep);
      if s[0] == sep {
        assert ([""] + rest)[1..] == rest;
      } else {
        var parts := [[s[0]] + rest[0]] + rest[1..];
        if |rest| == 1 {
          assert parts == [[s[0]] + rest[0]];
        } else {
          assert parts[1..] == rest[1..];
          assert Join(rest, sep) == rest[0] + [sep] + Join(rest[1..], sep);
        }
      }
    }
  }

  /** A piece without separators splits to itself, and in front of a separator it becomes the first piece. */
  lemma {:induction false} SplitPiece(w: string, sep: char, tail: string)
    requires sep !in w
    ensures Split(w, sep) == [w]
    ensures Split(w + [sep] + tail, sep) == [w] + Split(tail, sep)
  {
    if w != [] {
      SplitPiece(w[1..], sep, tail);
      assert (w + [sep] + tail)[1..] == w[1..] + [sep] + tail;
      assert [w[0]] + w[1..] == w;
    } else {
      assert w + [sep] + tail == [sep] + tail;
      assert ([sep] + tail)[1..] == tail;
    }
  }

  /** Splitting a join of pieces without separators gives back the pieces. */
  lemma {:induction false} SplitJoin(parts: seq<string>, sep: char)
    requires |parts| >= 1
    requires forall i :: 0 <= i < |parts| ==> sep !in parts[i]
    ensures Split(Join(parts, sep), sep) == parts
  {
    if |parts| == 1 {
      SplitPiece(parts[0], sep, "");
    } else {
      SplitJoin(parts[1..], sep);
      SplitPiece(parts[0], sep, Join(parts[1..], sep));
      assert [parts[0]] + parts[1..] == parts;
    }
  }

  // ---------------------------------------------------------- the token

  /** `req.headers.authorization?.split(' ')[1]`, when it is present and not empty. */
  function BearerToken(authorization: Option<string>): (token: Option<string>)
    ensures token.Some? ==> token.value != "" && ' ' !in token.value
  {
    if authorization.None? then None
    else
      var parts := Split(authorization.value, ' ');
      if |parts| >= 2 && parts[1] != "" then Some(parts[1]) else None
  }

  /** The header `<scheme> <token>`, with any further space-separated words, yields the token. */
  lemma BearerTokenOfHeader(scheme: string, token: string, more: seq<string>)
    requires ' ' !in scheme && ' ' !in token && token != ""
    requires forall i :: 0 <= i < |more| ==> ' ' !in more[i]
    ensures BearerToken(Some(Join([scheme, token] + more, ' '))) == Some(token)
  {
    var parts := [scheme, token] + more;
    forall i | 0 <= i < |parts| ensures ' ' !in parts[i] {
      if i >= 2 {
        assert parts[i] == more[i - 2];
      }
    }
    SplitJoin(parts, ' ');
  }

  /** A header without a space, such as a bare token, yields no token. */
  lemma NoTokenWithoutSpace(header: string)
    requires ' ' !in header
    ensures BearerToken(Some(header)).None?
  {
    SplitPiece(header, ' ', "");
  }

  // ------------------------------------------------------ the middleware

  /** The parts of an Express request the middleware reads and writes. */
  class Request {
    var authorization: Option<string>
    var userId: Option<nat>

    constructor (authorization: Option<string>)
      ensures this.authorization == authorization && userId.None?
    {
      this.authorization := authorization;
      userId := None;
    }
  }

  /**
   * authMiddleware: `nextCalls` counts the calls of `next`, and `res` is the
   * response written, if any. Exactly one of the two happens.
   */
  method Authenticate(req: Request, verifyToken: string -> Option<nat>) returns (nextCalls: nat, res: Option<Response>)
    modifies req
    ensures req.authorization == old(req.authorization)
    ensures (nextCalls == 1 && res.None?) || (nextCalls == 0 && res.Some? && res.value.status == 401)
    ensures BearerToken(req.authorization).None? ==>
              nextCalls == 0 && res == Some(Response(401, Message("No token proporcionado"))) &&
              req.userId == old(req.userId)
    ensures BearerToken(req.authorization).Some? && verifyToken(BearerToken(req.authorization).value).None? ==>
              nextCalls == 0 && res == Some(Response(401, Message("Token inválido o expirado"))) &&
              req.userId == old(req.userId)
    ensures BearerToken(req.authorization).Some? && verifyToken(BearerToken(req.authorization).value).Some? ==>
              nextCalls == 1 && res.None? && req.userId == verifyToken(BearerToken(req.authorization).value)
  {
    var token := BearerToken(req.authorization);
    if token.None? {
      return 0, Some(Response(401, Message("No token proporcionado")));
    }
    var decoded := verifyToken(token.value);
    if decoded.None? {
      return 0, Some(Response(401, Message("Token inválido o expirado")));
    }
    req.userId := decoded;
    nextCalls, res := 1, None;
  }
}
