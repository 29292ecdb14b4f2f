/** The request guard of backend/middleware/auth.js: find the authorization
    header, take the token out of it, and let the request through with the
    token's user id or answer 401.

    The `Bearer` handling only loosely follows section 2.1 of RFC 6750: the
    prefix is matched case-sensitively, the token is the second
    space-separated piece, and a header without the prefix is used whole as
    the token. Token verification (jsonwebtoken with the server secret) is a
    parameter that yields the decoded `_id`, or `None` when it throws. */
module AuthMiddleware {
  import opened Common

  /** `s.split(sep)` for a one-character separator. */
  function Split(s: string, sep: char): (parts: seq<string>)
    ensures |parts| == Count(s, sep) + 1
    ensures forall k :: 0 <= k < |parts| ==> sep !in parts[k]
  {
    if s == [] then [""]
    else
      var rest := Split(s[1..], sep);
      if s[0] == sep then [""] + rest
      else [[s[0]] + rest[0]] + rest[1..]
  }

  /** `parts.join(sep)`. */
  function Join(parts: seq<string>, sep: char): string {
    if |parts| == 0 then ""
    else if |parts| == 1 then parts[0]
    else parts[0] + [sep] + Join(parts[1..], sep)
  }

  /** Splitting and joining back with the same separator gives the string
      back, so `split` loses nothing but the separators. */
  lemma {:induction false} JoinSplit(s: string, sep: char)
    ensures Join(Split(s, sep), sep) == s
  {
    if s != [] {
      JoinSplit(s[1..], sep);
      var rest := Split(s[1..], sep);
      if s[0] == sep {
        assert Split(s, sep) == [""] + rest;
        assert (([""] + rest)[1..]) == rest;
      } else {
        var parts := Split(s, sep);
        assert parts[0] == [s[0]] + rest[0];
        assert parts[1..] == rest[1..];
        if |rest| == 1 {
          assert s == [s[0]] + s[1..];
        } else {
          assert Join(rest, sep) == rest[0] + [sep] + Join(rest[1..], sep);
          assert s == [s[0]] + s[1..];
        }
      }
    }
  }

  /** The longest prefix of `s` that holds no `sep`. */
  function TakeUntil(s: string, sep: char): (r: string)
    ensures |r| <= |s| && r == s[..|r|] && sep !in r
    ensures |r| < |s| ==> s[|r|] == sep
  {
    if s == [] || s[0] == sep then [] else [s[0]] + TakeUntil(s[1..], sep)
  }

  /** The first piece of a split is the text before the first separator. */
  lemma {:induction false} SplitFirst(s: string, sep: char)
    ensures Split(s, sep)[0] == TakeUntil(s, sep)
  {
    if s != [] && s[0] != sep {
      SplitFirst(s[1..], sep);
    }
  }

  /** A separator-free word followed by a separator splits off as the first
      piece. */
  lemma {:induction false} SplitAfterWord(w: string, rest: string, sep: char)
    requires sep !in w
    ensures Split(w + [sep] + rest, sep) == [w] + Split(rest, sep)
  {
    if w == [] {
      assert w + [sep] + rest == [sep] + rest;
      assert ([sep] + rest)[1..] == rest;
    } else {
      var s := w + [sep] + rest;
      assert s[0] == w[0];
      assert s[1..] == w[1..] + [sep] + rest;
      SplitAfterWord(w[1..], rest, sep);
      assert [w[0]] + w[1..] == w;
    }
  }

  const BearerPrefix: string := "Bearer "

  /** Line 7: after a case-sensitive "Bearer " the token is the second piece
      of `split(' ')`, which is the text after the prefix up to the next
      space; any other header is the token as it stands. */
  function ExtractToken(header: string): (token: string)
    ensures StartsWith(header, BearerPrefix) ==> token == TakeUntil(header[|BearerPrefix|..], ' ')
    ensures !StartsWith(header, BearerPrefix) ==> token == header
    ensures ' ' in token ==> !StartsWith(header, BearerPrefix)
  {
    if StartsWith(header, BearerPrefix) then
      var rest := header[|BearerPrefix|..];
      assert header == "Bearer" + [' '] + rest;
      SplitAfterWord("Bearer", rest, ' ');
      SplitFirst(rest, ' ');
      Split(header, ' ')[1]
    else
      header
  }

  /** `req.user`, as the middleware sets it. */
  datatype RequestUser = RequestUser(id: Id)

  /** Either the 401 answer, or the request passed on to the next handler
      (`next()` called once) with `req.userId` and `req.user` set. */
  datatype AuthResult =
    | Rejected(status: nat, message: string)
    | PassedOn(userId: Id, user: RequestUser)

  /** `req.headers.authorization || req.headers.Authorization`. */
  function HeaderOf(authorization: Option<string>, capitalized: Option<string>): (h: Option<string>)
    ensures OptTruthy(h) <==> OptTruthy(authorization) || OptTruthy(capitalized)
    ensures OptTruthy(authorization) ==> h == authorization
  {
    if OptTruthy(authorization) then authorization else capitalized
  }

  /** Lines 3-18. `authorization` and `capitalized` are the
      `req.headers.authorization` and `req.headers.Authorization` values. */
  function Authenticate(authorization: Option<string>, capitalized: Option<string>,
                        verify: string -> Option<Id>): (r: AuthResult)
    ensures r == Rejected(401, "No token provided") <==> !OptTruthy(HeaderOf(authorization, capitalized))
    ensures var h := HeaderOf(authorization, capitalized);
      OptTruthy(h) && ExtractToken(h.value) == "" ==> r == Rejected(401, "Invalid token")
    ensures var h := HeaderOf(authorization, capitalized);
      OptTruthy(h) && ExtractToken(h.value) != "" && verify(ExtractToken(h.value)).None? ==>
        r == Rejected(401, "Token invalid or expired")
    ensures r.PassedOn? ==> r.user.id == r.userId
    ensures r.Rejected? ==> r.status == 401
    ensures r.PassedOn? <==>
      && OptTruthy(HeaderOf(authorization, capitalized))
      && ExtractToken(HeaderOf(authorization, capitalized).value) != ""
      && verify(ExtractToken(HeaderOf(authorization, capitalized).value)).Some?
    ensures r.PassedOn? ==> r.userId == verify(ExtractToken(HeaderOf(authorization, capitalized).value)).value
  {
    var header := HeaderOf(authorization, capitalized);
    if !OptTruthy(header) then Rejected(401, "No token provided")
    else
      var token := ExtractToken(header.value);
      if token == "" then Rejected(401, "Invalid token")
      else
        match verify(token)
        case None => Rejected(401, "Token invalid or expired")
        case Some(id) => PassedOn(id, RequestUser(id))
  }

  /** The header the client builds, `Bearer ${token}`, gives back the token
      for any token without spaces (a JWT has none). */
  lemma ClientHeaderRoundTrip(token: string)
    requires ' ' !in token
    ensures ExtractToken(BearerPrefix + token) == token
  {
    var h := BearerPrefix + token;
    assert h[|BearerPrefix|..] == token;
    assert StartsWith(h, BearerPrefix);
  }

  /** "Bearer " with nothing after it yields the empty token and is refused
      as an invalid token, whatever the verifier would say. */
  lemma EmptyBearerRejected(verify: string -> Option<Id>)
    ensures ExtractToken(BearerPrefix) == ""
    ensures Authenticate(Some(BearerPrefix), None, verify) == Rejected(401, "Invalid token")
  {
    assert StartsWith(BearerPrefix, BearerPrefix);
  }

  /** The prefix is case-sensitive: a lower-case "bearer abc" is passed to the
      verifier whole, prefix included. */
  lemma LowerCaseBearerUsedVerbatim()
    ensures ExtractToken("bearer abc") == "bearer abc"
  {
    assert "bearer abc"[0] != BearerPrefix[0];
  }

  /** Only the piece up to the next space counts: "Bearer a b" yields "a",
      and a double space yields the empty token. */
  lemma TokenStopsAtSpace()
    ensures ExtractToken("Bearer a b") == "a"
    ensures ExtractToken("Bearer  a") == ""
  {
    assert StartsWith("Bearer a b", BearerPrefix);
    assert "Bearer a b"[|BearerPrefix|..] == "a b";
    assert StartsWith("Bearer  a", BearerPrefix);
    assert "Bearer  a"[|BearerPrefix|..] == " a";
  }
}
