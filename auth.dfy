/**
 * The bearer gate of src/middlewares/auth.ts. Reading the header is pure: a
 * case-sensitive prefix test and the second field of a split on one space. Verifying
 * the token is jsonwebtoken's business and is passed in as `verify`. The middleware
 * itself writes `req.user` and calls `next`, and is modelled on a `Request` object.
 */
module Auth {
  import opened Wrappers

  /** The payload a token carries: the `{ id, email }` it was signed over. */
  datatype Claims = Claims(id: string, email: string)

  const NoTokenMessage := "There is no token attached to header"
  const NotAuthorizedMessage := "Not authorized. Please login and try again."
  const BearerPrefix := "Bearer"

  predicate StartsWith(s: string, prefix: string) {
    |prefix| <= |s| && s[..|prefix|] == prefix
  }

  /** `s.split(sep)` for a one-character separator: the text between consecutive separators. */
  function Split(s: string, sep: char): (parts: seq<string>)
    ensures |parts| >= 1
    ensures forall i :: 0 <= i < |parts| ==> sep !in parts[i]
    decreases |s|
  {
    if |s| == 0 then [""]
    else
      var rest := Split(s[1..], sep);
      if s[0] == sep then [""] + rest
      else [[s[0]] + rest[0]] + rest[1..]
  }

  /** `parts.join(sep)`. */
  function Join(parts: seq<string>, sep: char): string
    requires |parts| >= 1
    decreases |parts|
  {
    if |parts| == 1 then parts[0] else parts[0] + [sep] + Join(parts[1..], sep)
  }

  /** Joining the fields of a split gives back the string. */
  lemma {:induction false} JoinSplit(s: string, sep: char)
    ensures Join(Split(s, sep), sep) == s
    decreases |s|
  {
    if |s| > 0 {
      JoinSplit(s[1..], sep);
      var rest := Split(s[1..], sep);
      if s[0] != sep {
        if |rest| > 1 {
          assert ([[s[0]] + rest[0]] + rest[1..])[1..] == rest[1..];
        }
      } else {
        assert ([""] + rest)[1..] == rest;
      }
    }
  }

  /** Splitting a join of separator-free fields gives back the fields. */
  lemma {:induction false} SplitJoin(parts: seq<string>, sep: char)
    requires |parts| >= 1
    requires forall i :: 0 <= i < |parts| ==> sep !in parts[i]
    ensures Split(Join(parts, sep), sep) == parts
    decreases |parts|, |parts[0]|
  {
    var p := parts[0];
    if |p| == 0 {
      if |parts| > 1 {
        SplitJoin(parts[1..], sep);
        assert Join(parts, sep) == [sep] + Join(parts[1..], sep);
        assert ([sep] + Join(parts[1..], sep))[1..] == Join(parts[1..], sep);
      }
    } else {
      var tail := [p[1..]] + parts[1..];
      assert sep !in p[1..] by {
        assert forall k :: 0 <= k < |p[1..]| ==> p[1..][k] == p[k + 1];
      }
      assert forall i :: 0 <= i < |tail| ==> sep !in tail[i] by {
        forall i | 0 <= i < |tail| ensures sep !in tail[i] {
          if i > 0 { assert tail[i] == parts[i]; }
        }
      }
      SplitJoin(tail, sep);
      assert Join(tail, sep) == Join(parts, sep)[1..] by {
        if |parts| > 1 {
          assert Join(tail, sep) == p[1..] + [sep] + Join(parts[1..], sep);
          assert tail[1..] == parts[1..];
        }
      }
      assert Join(parts, sep)[0] == p[0];
      assert [p[0]] + p[1..] == p;
    }
  }

  /** `header.split(" ")[1]`: `None` stands for `undefined` when there is no space. */
  function SecondField(header: string): (r: Option<string>)
    ensures r.Some? <==> ' ' in header
    ensures r.Some? ==> ' ' !in r.value
  {
    var parts := Split(header, ' ');
    JoinSplit(header, ' ');
    if |parts| > 1 then
      assert header == parts[0] + [' '] + Join(parts[1..], ' ');
      assert header[|parts[0]|] == ' ';
      Some(parts[1])
    else
      None
  }

  /** The first position of `c` in `s`. */
  function IndexOf(s: string, c: char): (r: Option<nat>)
    ensures r.None? <==> c !in s
    ensures r.Some? ==> r.value < |s| && s[r.value] == c && c !in s[..r.value]
  {
    if |s| == 0 then None
    else if s[0] == c then Some(0)
    else match IndexOf(s[1..], c)
      case None => None
      case Some(k) =>
        assert s[..k + 1] == [s[0]] + s[1..][..k];
        Some(k + 1)
  }

  /** The second field read straight off the header: after the first space, up to the next one. */
  function TextAfterFirstSpace(header: string): Option<string> {
    match IndexOf(header, ' ')
    case None => None
    case Some(i) =>
      var rest := header[i + 1..];
      match IndexOf(rest, ' ')
      case None => Some(rest)
      case Some(j) => Some(rest[..j])
  }

  /** Split fields of a string with no separator, or after a separator-free prefix. */
  lemma {:induction false} SplitNoSep(s: string, sep: char)
    requires sep !in s
    ensures Split(s, sep) == [s]
    decreases |s|
  {
    if |s| > 0 {
      assert sep !in s[1..] by {
        assert forall k :: 0 <= k < |s[1..]| ==> s[1..][k] == s[k + 1];
      }
      SplitNoSep(s[1..], sep);
      assert [s[0]] + s[1..] == s;
    }
  }

  lemma {:induction false} SplitAtFirst(s: string, sep: char, i: nat)
    requires i < |s| && s[i] == sep && sep !in s[..i]
    ensures Split(s, sep) == [s[..i]] + Split(s[i + 1..], sep)
    decreases i
  {
    if i > 0 {
      assert s[0] != sep by { assert s[..i][0] == s[0]; }
      assert s[1..][..i - 1] == s[..i][1..];
      assert sep !in s[1..][..i - 1] by {
        assert forall k :: 0 <= k < i - 1 ==> s[..i][1..][k] == s[..i][k + 1];
      }
      SplitAtFirst(s[1..], sep, i - 1);
      assert s[1..][i..] == s[i + 1..];
      assert [s[0]] + s[1..][..i - 1] == s[..i];
    }
  }

  /** The token the middleware reads is the text between the first and the second space. */
  lemma SecondFieldIsTextAfterFirstSpace(header: string)
    ensures SecondField(header) == TextAfterFirstSpace(header)
  {
    match IndexOf(header, ' ')
    case None =>
      SplitNoSep(header, ' ');
    case Some(i) =>
      SplitAtFirst(header, ' ', i);
      var rest := header[i + 1..];
      match IndexOf(rest, ' ')
      case None =>
        SplitNoSep(rest, ' ');
      case Some(j) =>
        SplitAtFirst(rest, ' ', j);
  }

  /** `req.headers.authorization?.startsWith("Bearer")`. */
  predicate HasBearerPrefix(authorization: Option<string>) {
    authorization.Some? && StartsWith(authorization.value, BearerPrefix)
  }

  /** The token the middleware extracts, `None` when it is `undefined` or `""` (JavaScript falsy). */
  function BearerToken(authorization: Option<string>): (r: Option<string>)
    requires HasBearerPrefix(authorization)
    ensures var t := TextAfterFirstSpace(authorization.value);
            r.Some? <==> t.Some? && t.value != ""
    ensures r.Some? ==> r == TextAfterFirstSpace(authorization.value) && r.value != "" && ' ' !in r.value
  {
    SecondFieldIsTextAfterFirstSpace(authorization.value);
    match SecondField(authorization.value)
    case Some(t) => if t != "" then Some(t) else None
    case None => None
  }

  /** What the middleware does with a request. */
  datatype GateOutcome =
    | Reject(message: string)   // throws this error; `next` is not called
    | Proceed(claims: Claims)   // sets `req.user` and calls `next` once
    | Idle                      // neither throws nor calls `next`

  function Gate(authorization: Option<string>, verify: string -> Option<Claims>): (g: GateOutcome)
    ensures g == Reject(NoTokenMessage) <==> !HasBearerPrefix(authorization)
    ensures g.Proceed? <==>
              HasBearerPrefix(authorization) &&
              var t := TextAfterFirstSpace(authorization.value);
              t.Some? && t.value != "" && verify(t.value).Some?
    ensures g.Proceed? ==> Some(g.claims) == verify(TextAfterFirstSpace(authorization.value).value)
    ensures g == Reject(NotAuthorizedMessage) <==>
              HasBearerPrefix(authorization) &&
              var t := TextAfterFirstSpace(authorization.value);
              t.Some? && t.value != "" && verify(t.value).None?
    ensures g == Idle <==>
              HasBearerPrefix(authorization) &&
              (TextAfterFirstSpace(authorization.value) == None || TextAfterFirstSpace(authorization.value) == Some(""))
  {
    if !HasBearerPrefix(authorization) then Reject(NoTokenMessage)
    else
      SecondFieldIsTextAfterFirstSpace(authorization.value);
      match BearerToken(authorization)
      case None => Idle
      case Some(token) =>
        match verify(token)
        case None => Reject(NotAuthorizedMessage)
        case Some(decoded) => Proceed(decoded)
  }

  /** A header made of two space-free words has the second word as its second field. */
  lemma SecondFieldOfTwoWords(first: string, second: string)
    requires ' ' !in first && ' ' !in second
    ensures SecondField(first + " " + second) == Some(second)
  {
    var h := first + " " + second;
    assert h[..|first|] == first;
    assert h[|first| + 1..] == second;
    SplitAtFirst(h, ' ', |first|);
    SplitNoSep(second, ' ');
  }

  /** The prefix test needs no space after "Bearer": `"BearerX tok"` yields the token `"tok"`. */
  lemma BearerWithoutSpace()
    ensures BearerToken(Some("BearerX tok")) == Some("tok")
  {
    var h := "BearerX tok";
    assert h == "BearerX" + " " + "tok";
    assert HasBearerPrefix(Some(h)) by { assert h[..6] == BearerPrefix; }
    SecondFieldOfTwoWords("BearerX", "tok");
  }

  /** The prefix test is case-sensitive. */
  lemma LowerCaseBearerRejected(verify: string -> Option<Claims>)
    ensures Gate(Some("bearer tok"), verify) == Reject(NoTokenMessage)
  {
    assert "bearer tok"[..6] != BearerPrefix by { assert "bearer tok"[..6][0] == 'b'; }
  }

  /** Two spaces after the prefix leave an empty second field: nothing happens. */
  lemma DoubleSpaceIsIdle(verify: string -> Option<Claims>)
    ensures Gate(Some("Bearer  tok"), verify) == Idle
  {
    var h := "Bearer  tok";
    assert HasBearerPrefix(Some(h)) by { assert h[..6] == BearerPrefix; }
    assert TextAfterFirstSpace(h) == Some("") by {
      assert IndexOf(h, ' ') == Some(6) by {
        assert h[6] == ' ';
        assert h[..6] == BearerPrefix;
      }
      assert h[7..] == " tok";
      assert IndexOf(" tok", ' ') == Some(0);
    }
    var g := Gate(Some(h), verify);
    assert !g.Proceed? && g != Reject(NotAuthorizedMessage) && g != Reject(NoTokenMessage);
  }

  /** The state of one inbound request that the middleware reads and writes. */
  class Request {
    const authorization: Option<string>
    var user: Option<Claims>
    /** How many times `next` has been called for this request. */
    var nextCalls: nat

    constructor (authorization: Option<string>)
      ensures this.authorization == authorization
      ensures user == None && nextCalls == 0
    {
      this.authorization := authorization;
      user := None;
      nextCalls := 0;
    }
  }

  /**
   * `authMiddleware`: returns the message of the error it throws, if any. It touches
   * nothing but `req.user` and the `next` call; it does not consult the user table.
   */
  method AuthMiddleware(req: Request, verify: string -> Option<Claims>) returns (thrown: Option<string>)
    modifies req
    ensures var g := Gate(req.authorization, verify);
            && thrown == (if g.Reject? then Some(g.message) else None)
            && req.user == (if g.Proceed? then Some(g.claims) else old(req.user))
            && req.nextCalls == old(req.nextCalls) + (if g.Proceed? then 1 else 0)
  {
    var token: Option<string> := None;
    if HasBearerPrefix(req.authorization) {
      token := SecondField(req.authorization.value);
      if token.Some? && token.value != "" {
        var decoded := verify(token.value);
        if decoded.None? {
          return Some(NotAuthorizedMessage);
        }
        req.user := decoded;
        req.nextCalls := req.nextCalls + 1;
      }
      thrown := None;
    } else {
      thrown := Some(NoTokenMessage);
    }
  }
}
