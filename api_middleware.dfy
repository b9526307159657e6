// The authorization middleware: parse "Bearer <token>" out of the
// Authorization header and verify the token.

module AuthMiddleware {
  import opened Base
  import opened Http

  const AuthorizationTypeBearer: string := "bearer"
  const AuthorizationPayloadKey: string := "authorization_payload"

  /** Go's unicode.IsSpace. */
  predicate IsSpace(c: char)
  {
    c == ' ' || c == '\t' || c == '\n' || c == '\r' || c == '\U{000B}' || c == '\U{000C}' ||
    c == '\U{0085}' || c == '\U{00A0}' || c == '\U{1680}' ||
    ('\U{2000}' <= c <= '\U{200A}') || c == '\U{2028}' || c == '\U{2029}' ||
    c == '\U{202F}' || c == '\U{205F}' || c == '\U{3000}'
  }

  /** The length of the run of non-space characters that starts `s`. */
  function WordLength(s: string): (n: nat)
    ensures n <= |s|
    ensures forall i :: 0 <= i < n ==> !IsSpace(s[i])
    ensures n < |s| ==> IsSpace(s[n])
  {
    if s == [] || IsSpace(s[0]) then 0 else 1 + WordLength(s[1..])
  }

  /** strings.Fields: the maximal runs of non-space characters, in order. */
  function Fields(s: string): (r: seq<string>)
    ensures |r| <= |s|
    decreases |s|
  {
    if s == [] then []
    else if IsSpace(s[0]) then Fields(s[1..])
    else var n := WordLength(s); [s[..n]] + Fields(s[n..])
  }

  /** A string has no fields exactly when it is all spaces. */
  lemma {:induction false} FieldsEmptyIff(s: string)
    ensures Fields(s) == [] <==> forall i :: 0 <= i < |s| ==> IsSpace(s[i])
    decreases |s|
  {
    if s != [] && IsSpace(s[0]) {
      FieldsEmptyIff(s[1..]);
      assert forall i :: 0 < i < |s| ==> s[i] == s[1..][i - 1];
    }
  }

  /** A field: non-empty and free of spaces. */
  predicate IsWord(w: string)
  {
    |w| > 0 && forall i :: 0 <= i < |w| ==> !IsSpace(w[i])
  }

  lemma {:induction false} FieldsAreWords(s: string)
    ensures forall i :: 0 <= i < |Fields(s)| ==> IsWord(Fields(s)[i])
    decreases |s|
  {
    if s == [] {
    } else if IsSpace(s[0]) {
      FieldsAreWords(s[1..]);
    } else {
      var n := WordLength(s);
      FieldsAreWords(s[n..]);
      assert Fields(s) == [s[..n]] + Fields(s[n..]);
    }
  }

  /** Text that begins with a space adds its own fields after those of what precedes it. */
  lemma {:induction false} FieldsAppendSpaced(a: string, rest: string)
    requires |rest| > 0 && IsSpace(rest[0])
    ensures Fields(a + rest) == Fields(a) + Fields(rest)
    decreases |a|
  {
    if a == [] {
      assert a + rest == rest;
    } else if IsSpace(a[0]) {
      assert (a + rest)[1..] == a[1..] + rest;
      FieldsAppendSpaced(a[1..], rest);
    } else {
      var n := WordLength(a);
      WordOfPrefix(a, rest, n);
      assert (a + rest)[..n] == a[..n];
      assert (a + rest)[n..] == a[n..] + rest;
      FieldsAppendSpaced(a[n..], rest);
    }
  }

  /** A space between two strings separates their fields. */
  lemma FieldsAppendSpace(a: string, b: string)
    ensures Fields(a + " " + b) == Fields(a) + Fields(b)
  {
    var rest := " " + b;
    FieldsAppendSpaced(a, rest);
    assert a + " " + b == a + rest;
    assert rest[1..] == b;
  }

  /** Appending text that begins with a space does not lengthen the first word. */
  lemma {:induction false} WordOfPrefix(a: string, rest: string, n: nat)
    requires n == WordLength(a) && |rest| > 0 && IsSpace(rest[0])
    ensures WordLength(a + rest) == n
    decreases |a|
  {
    if a != [] && !IsSpace(a[0]) {
      assert (a + rest)[1..] == a[1..] + rest;
      WordOfPrefix(a[1..], rest, n - 1);
    }
  }

  /** A word is its own only field. */
  lemma {:induction false} FieldsOfWord(w: string)
    requires IsWord(w)
    ensures Fields(w) == [w]
  {
    var n := WordLength(w);
    assert w[..n] == w && w[n..] == [];
  }

  /** unicode.ToLower restricted to ASCII: capitals map to small letters. */
  function LowerChar(c: char): char
  {
    if 'A' <= c <= 'Z' then (c - 'A' + 'a') as char else c
  }

  /** s with ASCII capitals lowered; other characters are kept. */
  function ToLowerAscii(s: string): (r: string)
    ensures |r| == |s|
    ensures forall i :: 0 <= i < |s| ==> r[i] == LowerChar(s[i])
  {
    if s == [] then [] else [LowerChar(s[0])] + ToLowerAscii(s[1..])
  }

  /** The verified token's payload; only the user name matters to the handlers. */
  datatype Payload = Payload(username: string)

  datatype AuthFailure = MissingHeader | MalformedHeader | UnsupportedType(scheme: string) | InvalidToken

  /**
   * Abort: respond with the status and stop the handler chain. Proceed:
   * store the payload under the key and run the next handler.
   */
  datatype AuthOutcome = Abort(status: Status, reason: AuthFailure) | Proceed(key: string, payload: Payload)

  /** authMiddleware on one request; `verify` is the token maker's VerifyToken. */
  function Authorize(header: string, verify: string -> Option<Payload>): (r: AuthOutcome)
    ensures r.Abort? ==> r.status == Unauthorized
    ensures r.Proceed? ==> r.key == AuthorizationPayloadKey
  {
    if |header| == 0 then Abort(Unauthorized, MissingHeader)
    else
      var fields := Fields(header);
      if |fields| < 2 then Abort(Unauthorized, MalformedHeader)
      else if ToLowerAscii(fields[0]) != AuthorizationTypeBearer then Abort(Unauthorized, UnsupportedType(ToLowerAscii(fields[0])))
      else match verify(fields[1])
        case None => Abort(Unauthorized, InvalidToken)
        case Some(payload) => Proceed(AuthorizationPayloadKey, payload)
  }

  /**
   * The chain continues exactly when the header's first field is "bearer"
   * in some case and its second field verifies; the payload is that token's.
   */
  lemma AuthorizeSpec(header: string, verify: string -> Option<Payload>)
    ensures var r := Authorize(header, verify);
      var fields := Fields(header);
      (r.Proceed? <==> |fields| >= 2 && ToLowerAscii(fields[0]) == AuthorizationTypeBearer && verify(fields[1]).Some?) &&
      (r.Proceed? ==> r.payload == verify(fields[1]).value) &&
      (|fields| < 2 ==> r.Abort? && (r.reason == MissingHeader || r.reason == MalformedHeader))
  {
    if |header| == 0 {
      assert header == [];
    }
  }

  /** Fields after the token are ignored. */
  lemma ExtraFieldsIgnored(header: string, extra: string, verify: string -> Option<Payload>)
    requires |Fields(header)| >= 2
    ensures Authorize(header + " " + extra, verify) == Authorize(header, verify)
  {
    FieldsAppendSpace(header, extra);
  }

  /** "<scheme> <token>" with a bearer scheme yields exactly the token's verification. */
  lemma BearerHeader(scheme: string, token: string, verify: string -> Option<Payload>)
    requires IsWord(scheme) && IsWord(token) && ToLowerAscii(scheme) == AuthorizationTypeBearer
    ensures Authorize(scheme + " " + token, verify) ==
      if verify(token).Some? then Proceed(AuthorizationPayloadKey, verify(token).value) else Abort(Unauthorized, InvalidToken)
  {
    FieldsAppendSpace(scheme, token);
    FieldsOfWord(scheme);
    FieldsOfWord(token);
    assert Fields(scheme + " " + token) == [scheme, token];
  }

  /** The scheme is compared without regard to case: two spellings that lower alike are treated alike. */
  lemma SchemeCaseInsensitive(scheme1: string, scheme2: string, token: string, verify: string -> Option<Payload>)
    requires IsWord(scheme1) && IsWord(scheme2) && IsWord(token)
    requires ToLowerAscii(scheme1) == ToLowerAscii(scheme2)
    ensures Authorize(scheme1 + " " + token, verify) == Authorize(scheme2 + " " + token, verify)
  {
    FieldsAppendSpace(scheme1, token);
    FieldsAppendSpace(scheme2, token);
    FieldsOfWord(scheme1);
    FieldsOfWord(scheme2);
    FieldsOfWord(token);
    assert Fields(scheme1 + " " + token) == [scheme1, token];
    assert Fields(scheme2 + " " + token) == [scheme2, token];
  }
}
