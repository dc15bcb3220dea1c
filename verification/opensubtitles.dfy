/** The OpenSubtitles client: a session record threaded through the
    operations, each of which builds one remote call, receives the
    service's reply envelope as an input, and interprets it. */
module OpenSubtitles {
  import opened Errors
  import opened Values
  import opened Text
  import opened Decimal
  import opened Status
  import Remote

  /** Language codes the client names. */
  const English := "eng"
  const Russian := "rus"

  /** The client's state: the preferred language and user agent given at
      construction, the session token (nil until a login stores one) and the
      reply of the most recent remote call, if any. */
  datatype Session = Session(language: string, userAgent: string, token: Value, last: Option<Envelope>)

  /** The outcome of one operation: the remote call it issued (`None` when it
      failed before reaching the transport), the session afterwards, and
      what it returned or raised. */
  datatype Step<T> = Step(sent: Option<Remote.Call>, session: Session, result: Result<T>)

  /** A login has stored a token. */
  predicate HasSession(c: Session) {
    Truthy(c.token)
  }

  /** The state after a remote call answered with `reply`: only the stored
      reply changes. */
  function Answered(c: Session, reply: Envelope): Session {
    c.(last := Some(reply))
  }

  /** A fresh client: no token and no reply yet. */
  function NewSession(userAgent: string, language: string): (c: Session)
    ensures !HasSession(c) && c.token == Nil && c.last.None?
    ensures c.language == language && c.userAgent == userAgent
  {
    Session(language, userAgent, Nil, None)
  }

  // ---------------------------------------------------------------- login

  /** Logs in; the token the reply carries is returned, and stored only when
      it is truthy. A non-200 status raises its mapped error. */
  function Login(c: Session, username: string, password: string, reply: Envelope): (s: Step<Value>)
    requires WellFormed(reply)
    ensures s.sent == Some(Remote.LogIn(username, password, c.language, c.userAgent))
    ensures s.result.Ok? <==> StatusCode(reply) == 200
    ensures s.result.Ok? ==> s.result.value == Get(reply, "token")
    ensures s.result.Err? ==> s.result.error == Interpret(reply, "token").error
    ensures s.result.Ok? && Truthy(s.result.value) ==> s.session == Answered(c, reply).(token := s.result.value)
    ensures !(s.result.Ok? && Truthy(s.result.value)) ==> s.session == Answered(c, reply)
  {
    var token := Interpret(reply, "token");
    var c' := Answered(c, reply);
    Step(Some(Remote.LogIn(username, password, c.language, c.userAgent)),
         if token.Ok? && Truthy(token.value) then c'.(token := token.value) else c',
         token)
  }

  /** A 200 reply with a truthy token opens a session holding that token. */
  lemma LoginEstablishesSession(c: Session, username: string, password: string, reply: Envelope)
    requires WellFormed(reply) && StatusCode(reply) == 200
    requires "token" in reply && Truthy(reply["token"])
    ensures var s := Login(c, username, password, reply);
            s.result == Ok(reply["token"]) && HasSession(s.session) && s.session.token == reply["token"]
  {
  }

  /** A non-200 reply raises the error its code is mapped to and leaves the
      token as it was. */
  lemma LoginFailureKeepsToken(c: Session, username: string, password: string, reply: Envelope)
    requires WellFormed(reply) && StatusCode(reply) != 200
    ensures var s := Login(c, username, password, reply);
            && s.result.Err? && s.result.error.FromStatus()
            && (StatusCode(reply) in StatusErrors ==> s.result.error == StatusErrors[StatusCode(reply)])
            && s.session.token == c.token
  {
    InterpretFollowsTable(reply, "token");
  }

  /** A 200 reply whose token is missing or falsy is returned as is but
      does not replace the stored token. */
  lemma LoginFalsyTokenKeepsToken(c: Session, username: string, password: string, reply: Envelope)
    requires WellFormed(reply) && StatusCode(reply) == 200
    requires !Truthy(Get(reply, "token"))
    ensures var s := Login(c, username, password, reply);
            s.result == Ok(Get(reply, "token")) && s.session.token == c.token
  {
  }

  // ------------------------------------------------------- lenient calls

  /** Ends the session on the service side. Succeeds exactly when the status
      line contains "200"; never raises a status error, and keeps the
      token. */
  function Logout(c: Session, reply: Envelope): (s: Step<bool>)
    requires HasStatusText(reply)
    ensures s.sent == Some(Remote.LogOut(c.token))
    ensures s.result.Ok? && (s.result.value <==> Contains(StatusText(reply), "200"))
    ensures s.session == Answered(c, reply)
  {
    Step(Some(Remote.LogOut(c.token)), Answered(c, reply), Ok(LenientOk(reply)))
  }

  /** Keep-alive ping, with the same lenient check as `Logout`. */
  function NoOperation(c: Session, reply: Envelope): (s: Step<bool>)
    requires HasStatusText(reply)
    ensures s.sent == Some(Remote.NoOperation(c.token))
    ensures s.result.Ok? && (s.result.value <==> Contains(StatusText(reply), "200"))
    ensures s.session == Answered(c, reply)
  {
    Step(Some(Remote.NoOperation(c.token)), Answered(c, reply), Ok(LenientOk(reply)))
  }

  /** Asks for update information about a program; the whole reply comes
      back when its status line contains "200", and `None` otherwise. The
      call carries no token. */
  function AutoUpdate(c: Session, program: string, reply: Envelope): (s: Step<Option<Envelope>>)
    requires HasStatusText(reply)
    ensures s.sent == Some(Remote.AutoUpdate(program))
    ensures s.result.Ok?
    ensures Contains(StatusText(reply), "200") ==> s.result.value == Some(reply)
    ensures !Contains(StatusText(reply), "200") ==> s.result.value.None?
    ensures s.session == Answered(c, reply)
  {
    Step(Some(Remote.AutoUpdate(program)), Answered(c, reply),
         Ok(if LenientOk(reply) then Some(reply) else None))
  }

  /** Whenever the strict interpreter would accept a reply, the lenient
      calls report success too. */
  lemma LenientCallsAcceptStrictSuccess(c: Session, program: string, reply: Envelope)
    requires WellFormed(reply) && Interpret(reply, "data").Ok?
    ensures Logout(c, reply).result == Ok(true)
    ensures NoOperation(c, reply).result == Ok(true)
    ensures AutoUpdate(c, program, reply).result == Ok(Some(reply))
  {
    StrictImpliesLenient(reply);
  }

  // ---------------------------------------------------------------- search

  /** `params` supplies key `k`, which then overrides any built-in entry. */
  predicate Overrides(params: Option<map<string, Value>>, k: string) {
    params.Some? && k in params.value
  }

  /** The search filter: `imdbid` when one is given, `sublanguageid` as the
      comma-joined language list when there is one, then the caller's
      `params` on top. */
  function SearchFilter(imdbid: Value, langs: Option<seq<string>>, params: Option<map<string, Value>>)
    : (f: map<string, Value>)
    ensures "imdbid" in f <==> imdbid != Nil || Overrides(params, "imdbid")
    ensures "sublanguageid" in f <==> langs.Some? || Overrides(params, "sublanguageid")
    ensures imdbid != Nil && !Overrides(params, "imdbid") ==> f["imdbid"] == imdbid
    ensures langs.Some? && !Overrides(params, "sublanguageid") ==>
              f["sublanguageid"] == String(Join(langs.value, ','))
    ensures params.Some? ==> forall k :: k in params.value ==> k in f && f[k] == params.value[k]
    ensures forall k :: k in f ==> k == "imdbid" || k == "sublanguageid" || Overrides(params, k)
  {
    var withId: map<string, Value> := if imdbid != Nil then map["imdbid" := imdbid] else map[];
    var builtIn := if langs.Some? then withId["sublanguageid" := String(Join(langs.value, ','))] else withId;
    if params.Some? then builtIn + params.value else builtIn
  }

  /** The default language list of a search. */
  const DefaultLanguages: Option<seq<string>> := Some([English])

  /** Searches for subtitles: the filter goes out as a one-element list and
      the `data` field of the reply comes back through the interpreter. */
  function SearchSubtitles(c: Session, imdbid: Value, langs: Option<seq<string>>,
                           params: Option<map<string, Value>>, reply: Envelope): (s: Step<Value>)
    requires WellFormed(reply)
    ensures s.sent.Some? && s.sent.value.SearchSubtitles? && s.sent.value.token == c.token
    ensures |s.sent.value.filters| == 1 && s.sent.value.filters[0] == SearchFilter(imdbid, langs, params)
    ensures s.result.Ok? <==> StatusCode(reply) == 200
    ensures s.result.Ok? ==> s.result.value == Get(reply, "data")
    ensures s.result.Err? ==> s.result.error == Interpret(reply, "data").error
    ensures s.session == Answered(c, reply)
  {
    Step(Some(Remote.SearchSubtitles(c.token, [SearchFilter(imdbid, langs, params)])),
         Answered(c, reply), Interpret(reply, "data"))
  }

  /** The language list can be read back from the filter, as long as the
      caller did not override it and no code contains a comma. */
  lemma SearchLanguagesRecoverable(imdbid: Value, langs: seq<string>, params: Option<map<string, Value>>)
    requires |langs| >= 1 && !Overrides(params, "sublanguageid")
    requires forall k :: 0 <= k < |langs| ==> ',' !in langs[k]
    ensures var f := SearchFilter(imdbid, Some(langs), params);
            "sublanguageid" in f && f["sublanguageid"].String?
            && SplitOn(f["sublanguageid"].s, ',') == langs
  {
    JoinSplitRoundTrip(langs, ',');
  }

  /** A search with the default arguments (no IMDb id, English, no extra
      parameters) filters on English alone. */
  lemma DefaultSearchFilterExample()
    ensures SearchFilter(Nil, DefaultLanguages, None) == map["sublanguageid" := String("eng")]
  {
    var f := SearchFilter(Nil, DefaultLanguages, None);
    assert f.Keys == {"sublanguageid"};
  }

  /** A search by IMDb id in English and Russian sends exactly those two
      entries. */
  lemma SearchFilterExample()
    ensures SearchFilter(String("tt0111161"), Some([English, Russian]), None)
            == map["imdbid" := String("tt0111161"), "sublanguageid" := String("eng,rus")]
  {
    var f := SearchFilter(String("tt0111161"), Some([English, Russian]), None);
    assert Join([English, Russian], ',') == "eng,rus";
    assert f.Keys == {"imdbid", "sublanguageid"};
  }

  // ---------------------------------------------------------------- upload

  /** Asks whether a subtitle is already in the database: true exactly when
      the reply's `alreadyindb` equals 1 (`True` included, as in Python). */
  function TryUploadSubtitles(c: Session, params: Value, reply: Envelope): (s: Step<bool>)
    requires WellFormed(reply)
    ensures s.sent == Some(Remote.TryUploadSubtitles(c.token, params))
    ensures s.result.Ok? <==> StatusCode(reply) == 200
    ensures s.result.Ok? ==> (s.result.value <==> EqualsOne(Get(reply, "alreadyindb")))
    ensures s.result.Err? ==> s.result.error == Interpret(reply, "alreadyindb").error
    ensures s.session == Answered(c, reply)
  {
    var known := Interpret(reply, "alreadyindb");
    Step(Some(Remote.TryUploadSubtitles(c.token, params)), Answered(c, reply),
         if known.Ok? then Ok(EqualsOne(known.value)) else Err(known.error))
  }

  /** On a 200 reply, `alreadyindb` set to `True` or to 1 reports a known
      subtitle; 0 or the string "1" does not. */
  lemma TryUploadOneExamples(c: Session, params: Value, reply: Envelope)
    requires WellFormed(reply) && StatusCode(reply) == 200
    ensures TryUploadSubtitles(c, params, reply["alreadyindb" := Boolean(true)]).result == Ok(true)
    ensures TryUploadSubtitles(c, params, reply["alreadyindb" := Integer(1)]).result == Ok(true)
    ensures TryUploadSubtitles(c, params, reply["alreadyindb" := Integer(0)]).result == Ok(false)
    ensures TryUploadSubtitles(c, params, reply["alreadyindb" := String("1")]).result == Ok(false)
  {
    assert StatusText(reply["alreadyindb" := Boolean(true)]) == StatusText(reply);
    assert StatusText(reply["alreadyindb" := Integer(1)]) == StatusText(reply);
    assert StatusText(reply["alreadyindb" := Integer(0)]) == StatusText(reply);
    assert StatusText(reply["alreadyindb" := String("1")]) == StatusText(reply);
  }

  /** Uploads a subtitle; the reply's `data` (the subtitle's URL) comes back
      through the interpreter. */
  function UploadSubtitles(c: Session, params: Value, reply: Envelope): (s: Step<Value>)
    requires WellFormed(reply)
    ensures s.sent == Some(Remote.UploadSubtitles(c.token, params))
    ensures s.result.Ok? <==> StatusCode(reply) == 200
    ensures s.result.Ok? ==> s.result.value == Get(reply, "data")
    ensures s.result.Err? ==> s.result.error.FromStatus()
    ensures s.result.Err? ==> s.result.error == Interpret(reply, "data").error
    ensures s.session == Answered(c, reply)
  {
    Step(Some(Remote.UploadSubtitles(c.token, params)), Answered(c, reply), Interpret(reply, "data"))
  }

  // -------------------------------------------------------------- download

  /** The id argument of a download: one id, or a list of them. */
  datatype SubtitleIds = OneId(id: string) | IdList(ids: seq<string>)

  /** A lone id stands for the one-element list holding it. */
  function IdsAsList(ids: SubtitleIds): seq<string> {
    match ids
    case OneId(id) => [id]
    case IdList(xs) => xs
  }

  /** The service's limit on ids per download. */
  const MaxDownloadIds := 20
  const TooManyIdsPrefix := "Maximum number of subids is 20, given "

  type Bytes = seq<bv8>

  /** Every entry is a struct with a `data` field to decode. */
  predicate DecodableEntries(entries: seq<Value>) {
    forall k :: 0 <= k < |entries| ==> entries[k].Struct? && "data" in entries[k].fields
  }

  /** The elements a Python `for` loop visits in a download payload: the
      items of a list, and none for an empty string or an empty struct. */
  function LoopItems(v: Value): seq<Value> {
    if v.Array? then v.items else []
  }

  /** A reply the download can read: a status with a code, and on 200 a
      payload under `data` that a loop can walk without raising: a list of
      decodable entries, or an empty string or struct. */
  predicate DownloadReplyReadable(reply: Envelope) {
    && WellFormed(reply)
    && (StatusCode(reply) == 200 ==>
          var data := Get(reply, "data");
          && (data.Array? || data == String("") || data == Struct(map[]))
          && DecodableEntries(LoopItems(data)))
  }

  /** Decodes the `data` field of each entry, one output per entry, in order;
      `decode` stands for the base64-then-gzip decoder. */
  function DecodeEntries(entries: seq<Value>, decode: Value -> Bytes): (subs: seq<Bytes>)
    requires DecodableEntries(entries)
    ensures |subs| == |entries|
    ensures forall k :: 0 <= k < |entries| ==> subs[k] == decode(entries[k].fields["data"])
  {
    if |entries| == 0 then []
    else DecodeEntries(entries[..|entries| - 1], decode) + [decode(entries[|entries| - 1].fields["data"])]
  }

  /** Downloads subtitle files. More than twenty ids are refused before any
      remote call; otherwise the decoded files come back one per reply
      entry, in reply order. */
  function DownloadSubtitles(c: Session, ids: SubtitleIds, reply: Envelope, decode: Value -> Bytes)
    : (s: Step<seq<Bytes>>)
    requires |IdsAsList(ids)| <= MaxDownloadIds ==> DownloadReplyReadable(reply)
    ensures |IdsAsList(ids)| > MaxDownloadIds ==>
              && s.sent.None? && s.session == c
              && s.result == Err(InvalidArgument(TooManyIdsPrefix + NatToString(|IdsAsList(ids)|)))
    ensures |IdsAsList(ids)| <= MaxDownloadIds ==>
              && s.sent == Some(Remote.DownloadSubtitles(c.token, IdsAsList(ids)))
              && s.session == Answered(c, reply)
              && (s.result.Ok? <==> StatusCode(reply) == 200)
              && (s.result.Err? ==> s.result.error == Interpret(reply, "data").error)
    ensures s.result.Ok? ==>
              var entries := LoopItems(Get(reply, "data"));
              && |s.result.value| == |entries|
              && forall k :: 0 <= k < |entries| ==> s.result.value[k] == decode(entries[k].fields["data"])
  {
    var list := IdsAsList(ids);
    if |list| > MaxDownloadIds then
      Step(None, c, Err(InvalidArgument(TooManyIdsPrefix + NatToString(|list|))))
    else
      var data := Interpret(reply, "data");
      Step(Some(Remote.DownloadSubtitles(c.token, list)), Answered(c, reply),
           if data.Ok? then Ok(DecodeEntries(LoopItems(data.value), decode)) else Err(data.error))
  }

  /** A 200 reply whose `data` is an empty string or an empty struct
      downloads nothing and raises nothing. */
  lemma EmptyPayloadDownloadsNothing(c: Session, ids: SubtitleIds, reply: Envelope, decode: Value -> Bytes)
    requires |IdsAsList(ids)| <= MaxDownloadIds
    requires WellFormed(reply) && StatusCode(reply) == 200
    requires Get(reply, "data") == String("") || Get(reply, "data") == Struct(map[])
    ensures DownloadSubtitles(c, ids, reply, decode).result == Ok([])
  {
  }

  /** A single id downloads exactly as the one-element list holding it. */
  lemma SingleIdIsOneElementList(c: Session, id: string, reply: Envelope, decode: Value -> Bytes)
    requires DownloadReplyReadable(reply)
    ensures DownloadSubtitles(c, OneId(id), reply, decode) == DownloadSubtitles(c, IdList([id]), reply, decode)
  {
  }

  /** The refusal message names the number of ids given, and that number can
      be read back from it. */
  lemma TooManyIdsMessageReportsCount(c: Session, ids: seq<string>, reply: Envelope, decode: Value -> Bytes)
    requires |ids| > MaxDownloadIds
    ensures var s := DownloadSubtitles(c, IdList(ids), reply, decode);
            && s.result.Err? && s.result.error.InvalidArgument?
            && |s.result.error.message| > |TooManyIdsPrefix|
            && s.result.error.message[..|TooManyIdsPrefix|] == TooManyIdsPrefix
            && IsIntLiteral(s.result.error.message[|TooManyIdsPrefix|..])
            && ParseInt(s.result.error.message[|TooManyIdsPrefix|..]) == |ids|
  {
    var m := TooManyIdsPrefix + NatToString(|ids|);
    NatToStringRoundTrip(|ids|);
    assert m[|TooManyIdsPrefix|..] == NatToString(|ids|);
  }

  // ------------------------------------------------------ not implemented

  /** An advertised call without a body: it raises at once, issues no remote
      call and leaves the client untouched. */
  function Unimplemented(c: Session, call: Remote.PlannedCall): (s: Step<Value>)
    ensures s.sent.None? && s.session == c
    ensures s.result == Err(NotImplemented)
  {
    Step(None, c, Err(NotImplemented))
  }
}
