/**
 * src/middlewares/auth.middleware.ts: bearer-token extraction and the
 * authentication outcome.  Token verification (signature and expiry) is the
 * parameter `verify`, None standing for a rejected token.
 */
module Auth {
  import opened Wrappers
  import opened Domain
  import opened Http

  const TokenRequired := "Access token required"
  const TokenInvalid := "Invalid or expired token"

  /** The claims a verified token carries. */
  datatype TokenPayload = TokenPayload(userId: Id, role: Role, phone: string)

  datatype AuthOutcome = Authenticated(user: AuthUser) | Refused(reply: Reply)

  /** `s.split(' ')`: the pieces between single spaces; consecutive spaces give empty pieces. */
  function Split(s: string): (parts: seq<string>)
    ensures |parts| >= 1
    ensures forall i :: 0 <= i < |parts| ==> ' ' !in parts[i]
    decreases |s|
  {
    if s == [] then [""]
    else if s[0] == ' ' then [""] + Split(s[1..])
    else
      var rest := Split(s[1..]);
      [[s[0]] + rest[0]] + rest[1..]
  }

  /** `parts.join(' ')`. */
  function Join(parts: seq<string>): string
    requires |parts| >= 1
    decreases |parts|
  {
    if |parts| == 1 then parts[0] else parts[0] + " " + Join(parts[1..])
  }

  /** Splitting and joining again gives back the string. */
  lemma {:induction false} JoinSplit(s: string)
    ensures Join(Split(s)) == s
    decreases |s|
  {
    if s == [] {
    } else if s[0] == ' ' {
      JoinSplit(s[1..]);
      assert Split(s) == [""] + Split(s[1..]);
      assert Split(s)[1..] == Split(s[1..]);
      assert s == [' '] + s[1..];
    } else {
      JoinSplit(s[1..]);
      var rest := Split(s[1..]);
      var parts := Split(s);
      assert parts == [[s[0]] + rest[0]] + rest[1..];
      if |rest| == 1 {
        assert Join(parts) == [s[0]] + rest[0];
      } else {
        assert parts[1..] == rest[1..];
        assert Join(parts) == [s[0]] + rest[0] + " " + Join(rest[1..]);
        assert Join(rest) == rest[0] + " " + Join(rest[1..]);
      }
      assert s == [s[0]] + s[1..];
    }
  }

  /** Joining space-free pieces and splitting again gives back the pieces. */
  lemma {:induction false} SplitJoin(parts: seq<string>)
    requires |parts| >= 1
    requires forall i :: 0 <= i < |parts| ==> ' ' !in parts[i]
    ensures Split(Join(parts)) == parts
    decreases |parts|
  {
    if |parts| == 1 {
      SplitWord(parts[0]);
    } else {
      SplitJoin(parts[1..]);
      SplitWordSpace(parts[0], Join(parts[1..]));
      assert parts == [parts[0]] + parts[1..];
    }
  }

  /** A space-free word followed by a space is the first piece of the split. */
  lemma {:induction false} SplitWordSpace(w: string, rest: string)
    requires ' ' !in w
    ensures Split(w + " " + rest) == [w] + Split(rest)
    decreases |w|
  {
    if w == [] {
      assert w + " " + rest == [' '] + rest;
      assert ([' '] + rest)[1..] == rest;
    } else {
      SplitWordSpace(w[1..], rest);
      assert (w + " " + rest)[1..] == w[1..] + " " + rest;
      assert w == [w[0]] + w[1..];
    }
  }

  /** A space-free word splits into itself. */
  lemma {:induction false} SplitWord(w: string)
    requires ' ' !in w
    ensures Split(w) == [w]
    decreases |w|
  {
    if w != [] {
      SplitWord(w[1..]);
      assert w == [w[0]] + w[1..];
    }
  }

  /** `authHeader && authHeader.split(' ')[1]`, truthy: the token, if there is one. */
  function TokenOf(header: Option<string>): (t: Option<string>)
    ensures t.Some? ==> t.value != "" && header.Some? && |Split(header.value)| >= 2 && t.value == Split(header.value)[1]
    ensures header.Some? && |Split(header.value)| >= 2 && Split(header.value)[1] != "" ==> t.Some?
  {
    if header.None? || header.value == "" then None
    else
      var parts := Split(header.value);
      if |parts| >= 2 && parts[1] != "" then Some(parts[1]) else None
  }

  /**
   * `Bearer <token>` yields the token, and so does any other first word: the
   * scheme is not checked.
   */
  lemma SchemeWordIsIgnored(scheme: string, token: string)
    requires ' ' !in scheme && ' ' !in token && token != ""
    ensures TokenOf(Some(scheme + " " + token)) == Some(token)
  {
    SplitWordSpace(scheme, token);
    SplitWord(token);
  }

  /** A header without a space, such as a bare token, carries no token. */
  lemma BareTokenIsRefused(header: string)
    requires ' ' !in header
    ensures TokenOf(Some(header)) == None
  {
    SplitWord(header);
  }

  /**
   * `authenticateToken`: no token gives 401 "Access token required", a token
   * `verify` rejects gives 401 "Invalid or expired token", and otherwise the
   * token's claims become the request's user and the request goes on.
   */
  function Authenticate(header: Option<string>, verify: string -> Option<TokenPayload>): (o: AuthOutcome)
    ensures TokenOf(header).None? ==> o == Refused(Reply(401, TokenRequired))
    ensures TokenOf(header).Some? && verify(TokenOf(header).value).None? ==> o == Refused(Reply(401, TokenInvalid))
    ensures o.Authenticated? <==> TokenOf(header).Some? && verify(TokenOf(header).value).Some?
    ensures o.Authenticated? ==>
      var p := verify(TokenOf(header).value).value;
      o.user == AuthUser(p.userId, p.role, p.phone)
  {
    var token := TokenOf(header);
    if token.None? then Refused(Reply(401, TokenRequired))
    else
      var payload := verify(token.value);
      if payload.None? then Refused(Reply(401, TokenInvalid))
      else Authenticated(AuthUser(payload.value.userId, payload.value.role, payload.value.phone))
  }
}
