/** The status interpreter every strict call goes through, and the lenient
    "contains 200" check a few calls use instead. */
module Status {
  import opened Errors
  import opened Values
  import opened Text
  import opened Decimal

  /** The envelope carries a status line the lenient check can search. */
  predicate HasStatusText(env: Envelope) {
    "status" in env && env["status"].String?
  }

  function StatusText(env: Envelope): string
    requires HasStatusText(env)
  {
    env["status"].s
  }

  /** The status line starts (after whitespace) with an integer token, so the
      interpreter can read a code from it. */
  predicate WellFormed(env: Envelope) {
    && HasStatusText(env)
    && var t := FirstToken(StatusText(env)); t.Some? && IsIntLiteral(t.value)
  }

  /** The integer read from the first whitespace-separated token of the status. */
  function StatusCode(env: Envelope): int
    requires WellFormed(env)
  {
    ParseInt(FirstToken(StatusText(env)).value)
  }

  const RequestFailedPrefix := "Request failed: status: "

  /** Reads `key` from a 200 response, or raises the error the status names. */
  function Interpret(env: Envelope, key: string): (r: Result<Value>)
    requires WellFormed(env)
    ensures r.Ok? <==> StatusCode(env) == 200
    ensures r.Ok? ==> (r.value == Nil <==> key !in env || env[key] == Nil)
    ensures r.Ok? && key in env ==> r.value == env[key]
    ensures r.Err? ==> r.error.FromStatus()
    ensures r.Err? && r.error.RequestFailed? ==>
              |r.error.message| >= |StatusText(env)|
              && r.error.message[|r.error.message| - |StatusText(env)|..] == StatusText(env)
  {
    var code := StatusCode(env);
    if code == 200 then Ok(Get(env, key))
    else if code == 401 then Err(Unauthorized)
    else if code == 406 then Err(NoSession)
    else if code == 407 then Err(DownloadLimitReached)
    else if code == 429 then Err(TooManyRequests)
    else if code == 503 then Err(ServiceUnavailable)
    else if code == 506 then Err(ServerMaintenance)
    else Err(RequestFailed(RequestFailedPrefix + StatusText(env)))
  }

  /** The service's documented status codes and the kinds they stand for. */
  const StatusErrors: map<int, ClientError> := map[
    401 := Unauthorized,
    406 := NoSession,
    407 := DownloadLimitReached,
    429 := TooManyRequests,
    503 := ServiceUnavailable,
    506 := ServerMaintenance
  ]

  /** The code a specific error kind stands for; `None` for the kinds that
      do not come from one code. */
  function CodeOf(e: ClientError): Option<int> {
    match e
    case Unauthorized => Some(401)
    case NoSession => Some(406)
    case DownloadLimitReached => Some(407)
    case TooManyRequests => Some(429)
    case ServiceUnavailable => Some(503)
    case ServerMaintenance => Some(506)
    case _ => None
  }

  /** The table and `CodeOf` are inverse: the six codes and the six kinds are
      in one-to-one correspondence. */
  lemma StatusErrorsBijective()
    ensures forall c :: c in StatusErrors ==> CodeOf(StatusErrors[c]) == Some(c)
    ensures forall e: ClientError :: CodeOf(e).Some? ==>
              CodeOf(e).value in StatusErrors && StatusErrors[CodeOf(e).value] == e
  {
  }

  /** The interpreter agrees with the table: a listed code raises its kind,
      an unlisted code other than 200 raises the generic failure carrying
      the whole status line. */
  lemma InterpretFollowsTable(env: Envelope, key: string)
    requires WellFormed(env)
    ensures StatusCode(env) in StatusErrors ==>
              Interpret(env, key) == Err(StatusErrors[StatusCode(env)])
    ensures StatusCode(env) != 200 && StatusCode(env) !in StatusErrors ==>
              Interpret(env, key) == Err(RequestFailed(RequestFailedPrefix + StatusText(env)))
  {
  }

  /** A specific kind is raised for its own code and for no other. */
  lemma KindIffCode(env: Envelope, key: string, e: ClientError)
    requires WellFormed(env)
    requires CodeOf(e).Some?
    ensures Interpret(env, key) == Err(e) <==> StatusCode(env) == CodeOf(e).value
  {
  }

  /** The generic failure is raised exactly for codes outside the table and
      other than 200. */
  lemma GenericFailureIff(env: Envelope, key: string)
    requires WellFormed(env)
    ensures Interpret(env, key).Err? && Interpret(env, key).error.RequestFailed?
            <==> StatusCode(env) != 200 && StatusCode(env) !in StatusErrors
  {
  }

  /** The check `logout`, `no_operation` and `auto_update` use: the status
      line merely contains "200" somewhere. */
  predicate LenientOk(env: Envelope)
    requires HasStatusText(env)
  {
    Contains(StatusText(env), "200")
  }

  /** Every status the interpreter accepts also passes the lenient check. */
  lemma {:induction false} StrictImpliesLenient(env: Envelope)
    requires WellFormed(env) && StatusCode(env) == 200
    ensures LenientOk(env)
  {
    var s := StatusText(env);
    var t := FirstToken(s).value;
    FirstTokenIff(s, t);
    var i, j :| TokenAt(s, i, j) && t == s[i..j];
    var digits := if t[0] == '+' || t[0] == '-' then t[1..] else t;
    assert DigitsValue(digits) == 200;
    TwoHundredEndsInTwoHundred(digits);
    assert s[j - 3..j] == t[|t| - 3..] == digits[|digits| - 3..];
    assert OccursAt(s, "200", j - 3);
  }

  /** A status line in the service's usual shape, three digits and a space,
      carries the code those digits spell. */
  lemma ThreeDigitStatus(env: Envelope)
    requires HasStatusText(env)
    requires var s := StatusText(env);
             |s| >= 4 && IsDigit(s[0]) && IsDigit(s[1]) && IsDigit(s[2]) && s[3] == ' '
    ensures WellFormed(env)
    ensures var s := StatusText(env);
            StatusCode(env) == 100 * DigitValue(s[0]) + 10 * DigitValue(s[1]) + DigitValue(s[2])
  {
    var s := StatusText(env);
    assert TokenAt(s, 0, 3);
    FirstTokenIff(s, s[..3]);
    var t := s[..3];
    assert t[0] == s[0] && t[1] == s[1] && t[2] == s[2];
    assert t[..2][..1][..0] == [];
    assert DigitsValue(t[..2][..1]) == DigitValue(s[0]);
    assert DigitsValue(t[..2]) == 10 * DigitValue(s[0]) + DigitValue(s[1]);
    assert ParseInt(t) == DigitsValue(t);
  }

  /** The converse fails: a status naming another code passes the lenient
      check whenever "200" appears later in the line, as in "429 wait 200 ms". */
  lemma LenientAdmitsOtherCodes(before: string, after: string)
    ensures var env := map["status" := String("429 " + before + "200" + after)];
            WellFormed(env) && StatusCode(env) == 429 && LenientOk(env)
  {
    var s := "429 " + before + "200" + after;
    var env := map["status" := String(s)];
    ThreeDigitStatus(env);
    var i := 4 + |before|;
    assert s[i..i + 3] == "200";
    assert OccursAt(s, "200", i);
  }

  /** A 200 response hands back the payload unchanged; without the key it
      hands back nil. */
  lemma OkStatusExamples(text: string, x: Value)
    ensures var env := map["status" := String("200 " + text), "data" := x];
            WellFormed(env) && Interpret(env, "data") == Ok(x)
    ensures var env := map["status" := String("200 " + text)];
            WellFormed(env) && Interpret(env, "data") == Ok(Nil)
  {
    ThreeDigitStatus(map["status" := String("200 " + text), "data" := x]);
    ThreeDigitStatus(map["status" := String("200 " + text)]);
  }

  /** An unlisted code such as 414 raises the generic failure carrying the
      whole status line. */
  lemma UnknownStatusExample(text: string)
    ensures var env := map["status" := String("414 " + text)];
            && WellFormed(env)
            && Interpret(env, "data") == Err(RequestFailed(RequestFailedPrefix + "414 " + text))
  {
    ThreeDigitStatus(map["status" := String("414 " + text)]);
  }
}
