/**
 * Which user a request acts for: `resolveUserId` in
 * backend/controller/orderController.js and backend/controller/cartController.js.
 * Both try six request fields in a fixed order and then fall back to an
 * `Authorization: Bearer <token>` header. Verifying or decoding the token (JWT)
 * is a parameter: `decode` returns the token's claims, or None when the token is
 * rejected or decodes to nothing.
 */
module Identity {
  import opened Wrappers
  import opened JsValues
  import opened Seqs

  /** The properties of one part of a request (`req.body`, `req.query`, ...); an absent part is empty. */
  type Fields = map<string, JsValue>

  /** `obj?.key`. */
  function Field(f: Fields, key: string): JsValue
  {
    if key in f then f[key] else Undefined
  }

  /** `req.user` is the object an authentication middleware may have attached. */
  datatype Request = Request(body: Fields, params: Fields, query: Fields, user: Fields, headers: Fields)

  /** Token verification/decoding: the claims of a valid token, None otherwise. */
  type Decoder = string -> Option<Fields>

  /** The six explicit places, in the order the handlers consult them. */
  function ExplicitSources(req: Request): seq<JsValue>
  {
    [Field(req.body, "userId"), Field(req.body, "user_id"), Field(req.params, "user_id"),
     Field(req.query, "userId"), Field(req.query, "user_id"), Field(req.user, "userId")]
  }

  /** The first truthy value among the explicit places, as the handlers' if-chain finds it. */
  function ExplicitUserId(req: Request): (r: Option<JsValue>)
    ensures r.Some? ==> Truthy(r.value) && r.value in ExplicitSources(req)
    ensures r.None? ==> forall v :: v in ExplicitSources(req) ==> !Truthy(v)
  {
    if Truthy(Field(req.body, "userId")) then Some(Field(req.body, "userId"))
    else if Truthy(Field(req.body, "user_id")) then Some(Field(req.body, "user_id"))
    else if Truthy(Field(req.params, "user_id")) then Some(Field(req.params, "user_id"))
    else if Truthy(Field(req.query, "userId")) then Some(Field(req.query, "userId"))
    else if Truthy(Field(req.query, "user_id")) then Some(Field(req.query, "user_id"))
    else if Truthy(Field(req.user, "userId")) then Some(Field(req.user, "userId"))
    else None
  }

  /** The position of the first truthy value in `vs`. */
  function FirstTruthy(vs: seq<JsValue>): (k: Option<nat>)
    ensures k.Some? ==> k.value < |vs| && Truthy(vs[k.value])
    ensures k.Some? ==> forall j :: 0 <= j < k.value ==> !Truthy(vs[j])
    ensures k.None? ==> forall j :: 0 <= j < |vs| ==> !Truthy(vs[j])
  {
    if |vs| == 0 then None
    else if Truthy(vs[0]) then Some(0)
    else match FirstTruthy(vs[1..])
      case Some(j) => Some(j + 1)
      case None => None
  }

  /**
   * Precedence of the explicit places: the chain returns the value at the first
   * truthy position of body.userId, body.user_id, params.user_id, query.userId,
   * query.user_id, user.userId, and nothing when all six are falsy.
   */
  lemma ExplicitPrecedence(req: Request)
    ensures var k := FirstTruthy(ExplicitSources(req));
      ExplicitUserId(req) == if k.Some? then Some(ExplicitSources(req)[k.value]) else None
  {
    var vs := ExplicitSources(req);
    var k := FirstTruthy(vs);
    if Truthy(vs[0]) {
      FirstTruthyAt(vs, 0);
      assert ExplicitUserId(req) == Some(vs[0]);
    } else if Truthy(vs[1]) {
      FirstTruthyAt(vs, 1);
      assert ExplicitUserId(req) == Some(vs[1]);
    } else if Truthy(vs[2]) {
      FirstTruthyAt(vs, 2);
      assert ExplicitUserId(req) == Some(vs[2]);
    } else if Truthy(vs[3]) {
      FirstTruthyAt(vs, 3);
      assert ExplicitUserId(req) == Some(vs[3]);
    } else if Truthy(vs[4]) {
      FirstTruthyAt(vs, 4);
      assert ExplicitUserId(req) == Some(vs[4]);
    } else if Truthy(vs[5]) {
      FirstTruthyAt(vs, 5);
      assert ExplicitUserId(req) == Some(vs[5]);
    } else {
      assert k.None?;
      assert ExplicitUserId(req) == None;
    }
  }

  /** A truthy position preceded only by falsy ones is the first truthy position. */
  lemma FirstTruthyAt(vs: seq<JsValue>, i: nat)
    requires i < |vs| && Truthy(vs[i])
    requires forall j :: 0 <= j < i ==> !Truthy(vs[j])
    ensures FirstTruthy(vs) == Some(i)
  {
  }

  /** `str.split(sep)`: the pieces between occurrences of `sep`. */
  function Split(s: string, sep: char): (parts: seq<string>)
    ensures |parts| >= 1
    ensures forall k :: 0 <= k < |parts| ==> sep !in parts[k]
  {
    if |s| == 0 then [""]
    else if s[0] == sep then [""] + Split(s[1..], sep)
    else
      var rest := Split(s[1..], sep);
      [[s[0]] + rest[0]] + rest[1..]
  }

  /** Splitting and joining back with the same separator gives the string again. */
  lemma {:induction false} SplitJoin(s: string, sep: char)
    ensures Join(Split(s, sep), [sep]) == s
  {
    if |s| > 0 {
      var rest := Split(s[1..], sep);
      SplitJoin(s[1..], sep);
      if s[0] == sep {
        assert Split(s, sep) == [""] + rest;
        assert Split(s, sep)[1..] == rest;
      } else {
        var parts := Split(s, sep);
        assert parts[0] == [s[0]] + rest[0];
        assert parts[1..] == rest[1..];
        if |rest| == 1 {
          assert parts == [[s[0]] + rest[0]];
        } else {
          assert Join(rest, [sep]) == rest[0] + [sep] + Join(rest[1..], [sep]);
        }
      }
    }
  }

  /** A string without the separator is one piece. */
  lemma {:induction false} SplitNone(s: string, sep: char)
    requires sep !in s
    ensures Split(s, sep) == [s]
  {
    if |s| > 0 {
      SplitNone(s[1..], sep);
      assert [s[0]] + s[1..] == s;
    }
  }

  /** A prefix without the separator, then the separator, is split off as the first piece. */
  lemma {:induction false} SplitAfter(w: string, sep: char, t: string)
    requires sep !in w
    ensures Split(w + [sep] + t, sep) == [w] + Split(t, sep)
  {
    if |w| == 0 {
      assert w + [sep] + t == [sep] + t;
    } else {
      var u := w + [sep] + t;
      assert u[0] == w[0] && u[1..] == w[1..] + [sep] + t;
      SplitAfter(w[1..], sep, t);
      var rest := Split(u[1..], sep);
      assert rest == [w[1..]] + Split(t, sep);
      assert Split(u, sep) == [[w[0]] + rest[0]] + rest[1..];
      assert [w[0]] + w[1..] == w;
    }
  }

  /** `req.headers?.authorization || req.headers?.Authorization`. */
  function AuthHeader(req: Request): JsValue
  {
    Or(Field(req.headers, "authorization"), Field(req.headers, "Authorization"))
  }

  /**
   * The token of an `Authorization` header: only a string that splits on " "
   * into exactly two parts, the first being "Bearer".
   */
  function BearerToken(header: JsValue): (r: Option<string>)
    ensures r.Some? ==> header.Str? && header.s != "" && ' ' !in r.value
  {
    if Truthy(header) && header.Str? then
      var parts := Split(header.s, ' ');
      if |parts| == 2 && parts[0] == "Bearer" then Some(parts[1]) else None
    else None
  }

  /** A token is found exactly in a header "Bearer " + t where t has no space. */
  lemma BearerTokenShape(header: JsValue, t: string)
    ensures BearerToken(header) == Some(t) <==> header.Str? && header.s == "Bearer " + t && ' ' !in t
  {
    if header.Str? && header.s == "Bearer " + t && ' ' !in t {
      assert "Bearer " + t == "Bearer" + [' '] + t;
      SplitAfter("Bearer", ' ', t);
      SplitNone(t, ' ');
    }
    if BearerToken(header) == Some(t) {
      var parts := Split(header.s, ' ');
      SplitJoin(header.s, ' ');
      assert parts == ["Bearer", t];
      assert Join(parts, " ") == "Bearer" + " " + t;
    }
  }

  /** orderController.js: the token's `userId` claim when truthy, else null. */
  function OrderTokenUserId(claims: Fields): (r: JsValue)
    ensures Truthy(r) || r == Null
    ensures Truthy(r) <==> Truthy(Field(claims, "userId"))
    ensures Truthy(r) ==> r == Field(claims, "userId")
  {
    if Truthy(Field(claims, "userId")) then Field(claims, "userId") else Null
  }

  /** The claims cartController.js accepts, in the order it tries them. */
  function ClaimSources(claims: Fields): seq<JsValue>
  {
    [Field(claims, "userId"), Field(claims, "user_id"), Field(claims, "id"), Field(claims, "sub")]
  }

  /**
   * cartController.js: `decoded.userId || decoded.user_id || decoded.id || decoded.sub || null`,
   * the first truthy claim of the four, or null.
   */
  function CartTokenUserId(claims: Fields): (r: JsValue)
    ensures Truthy(r) || r == Null
    ensures var k := FirstTruthy(ClaimSources(claims));
      r == if k.Some? then ClaimSources(claims)[k.value] else Null
  {
    ClaimPrecedence(ClaimSources(claims));
    Or(Field(claims, "userId"), Or(Field(claims, "user_id"), Or(Field(claims, "id"), Or(Field(claims, "sub"), Null))))
  }

  /** The `||` chain over four values, ending in null, yields the first truthy one. */
  lemma ClaimPrecedence(vs: seq<JsValue>)
    requires |vs| == 4
    ensures var k := FirstTruthy(vs);
      Or(vs[0], Or(vs[1], Or(vs[2], Or(vs[3], Null)))) == if k.Some? then vs[k.value] else Null
  {
    if Truthy(vs[0]) {
      FirstTruthyAt(vs, 0);
    } else if Truthy(vs[1]) {
      FirstTruthyAt(vs, 1);
    } else if Truthy(vs[2]) {
      FirstTruthyAt(vs, 2);
    } else if Truthy(vs[3]) {
      FirstTruthyAt(vs, 3);
    }
  }

  /** `resolveUserId` of orderController.js. */
  function OrderResolveUserId(req: Request, decode: Decoder): (r: JsValue)
    ensures Truthy(r) || r == Null
  {
    match ExplicitUserId(req)
    case Some(v) => v
    case None =>
      match BearerToken(AuthHeader(req))
      case None => Null
      case Some(token) =>
        match decode(token)
        case None => Null
        case Some(claims) => OrderTokenUserId(claims)
  }

  /** `resolveUserId` of cartController.js. */
  function CartResolveUserId(req: Request, decode: Decoder): (r: JsValue)
    ensures Truthy(r) || r == Null
  {
    match ExplicitUserId(req)
    case Some(v) => v
    case None =>
      match BearerToken(AuthHeader(req))
      case None => Null
      case Some(token) =>
        match decode(token)
        case None => Null
        case Some(claims) => CartTokenUserId(claims)
  }

  /**
   * Both resolvers return the first truthy explicit place when there is one,
   * whatever the token; with none, and no well-formed Bearer header, they
   * return null without consulting the decoder. With none and a Bearer token,
   * a rejected token gives null and accepted claims give each resolver's
   * claim choice.
   */
  lemma ResolvePrecedence(req: Request, decode: Decoder)
    ensures var k := FirstTruthy(ExplicitSources(req));
      k.Some? ==> (OrderResolveUserId(req, decode) == ExplicitSources(req)[k.value]
                   && CartResolveUserId(req, decode) == ExplicitSources(req)[k.value])
    ensures FirstTruthy(ExplicitSources(req)).None? && BearerToken(AuthHeader(req)).None? ==>
      OrderResolveUserId(req, decode) == Null && CartResolveUserId(req, decode) == Null
    ensures FirstTruthy(ExplicitSources(req)).None? && BearerToken(AuthHeader(req)).Some? ==>
      var t := BearerToken(AuthHeader(req)).value;
      && (decode(t).None? ==> OrderResolveUserId(req, decode) == Null && CartResolveUserId(req, decode) == Null)
      && (decode(t).Some? ==>
            OrderResolveUserId(req, decode) == OrderTokenUserId(decode(t).value)
            && CartResolveUserId(req, decode) == CartTokenUserId(decode(t).value))
  {
    ExplicitPrecedence(req);
  }

  /** The two resolvers differ only in the claims they accept from a token. */
  lemma ResolversAgreeOnUserIdClaim(req: Request, decode: Decoder)
    ensures Truthy(OrderResolveUserId(req, decode)) ==>
      CartResolveUserId(req, decode) == OrderResolveUserId(req, decode)
  {
  }
}
