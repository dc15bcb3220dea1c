# python-opensubtitles client, modelled in Dafny

This project models the `OpenSubtitles` client class of python-opensubtitles.
The class is a thin XML-RPC wrapper around the OpenSubtitles subtitle
database. The model covers what the client itself decides:

- how it reads the status line of every reply and turns it into a value or
  one of its exceptions;
- how it builds the search filter;
- how it checks and normalises the ids of a download, and shapes the
  decoded result;
- how the session token evolves;
- the lenient "contains 200" check of `logout`, `no_operation` and
  `auto_update`.

The XML-RPC transport is not modelled. Each operation receives the reply
envelope the service would send (a map from field names to XML-RPC values) as
an input. It returns a `Step`: the remote call it issued, the client state
afterwards, and the value it returned or the exception it raised (a
`Result`). A `Step` whose `sent` is `None` made no remote call.

Files:

- `errors.dfy` (module `Errors`): `Option`, `Result`, and `ClientError`, the
  closed set of exceptions. It holds the six status exception classes, the
  generic `RuntimeError` (`RequestFailed`), the download `ValueError`
  (`InvalidArgument`) and `NotImplementedError`.
- `values.dfy` (module `Values`): XML-RPC values, Python truthiness,
  `dict.get`, and Python's `== 1`.
- `text.dfy` (module `Text`): the first token of `str.split()`, substring
  containment, `str.join` and `str.split(sep)`.
- `decimal.dfy` (module `Decimal`): `int()` on a status token, and `'%d' %`.
- `status.dfy` (module `Status`): the status interpreter
  `_get_from_data_or_none` and the lenient check.
- `remote.dfy` (module `Remote`): the remote method names and their
  positional arguments, plus the advertised methods that have no body.
- `opensubtitles.dfy` (module `OpenSubtitles`): the client state and every
  operation.

The model follows the code under Python 2, the runtime its `download_subtitles`
(which tests for `basestring`) is written for. Behaviour of the code worth knowing:

- The status code is whatever integer `int()` reads from the first
  whitespace-separated token, not necessarily three digits. A sign and
  leading zeros are accepted.
- `dict.get` cannot tell a missing key from a stored nil. Both read as `Nil`.
- `login` stores the token only when it is truthy, although its docstring
  (opensubtitles.py:49) speaks of a successful login in general. A 200 reply
  with an empty token returns it without storing it.
- The generic failure carries the message `"Request failed: status: "`
  followed by the whole status line.
- `logout` does not clear the stored token.

## Model

| member | source | states |
|---|---|---|
| `Status.Interpret` | pythonopensubtitles/opensubtitles.py:34-46 | Succeeds exactly when the status code is 200. On success it returns the requested field, which is nil exactly when the field is missing or nil. Every failure is a status error. A generic failure's message ends with the whole status line. |
| `Status.InterpretFollowsTable` | pythonopensubtitles/opensubtitles.py:40-46 | Each of the codes 401, 406, 407, 429, 503 and 506 raises the kind the code table assigns it. Any other non-200 code raises the generic failure carrying the status line. |
| `Status.KindIffCode` | pythonopensubtitles/opensubtitles.py:40-45 | A specific error kind is raised if and only if the status code is that kind's code. |
| `Status.GenericFailureIff` | pythonopensubtitles/opensubtitles.py:46 | The generic failure is raised if and only if the code is neither 200 nor one of the six mapped codes. |
| `Status.StatusErrorsBijective` | pythonopensubtitles/opensubtitles.py:40-45 | The six codes and the six specific kinds correspond one to one. |
| `Status.ThreeDigitStatus` | pythonopensubtitles/opensubtitles.py:38 | A status line made of three digits and a space is readable, and its code is the number those digits spell. |
| `Status.OkStatusExamples` | pythonopensubtitles/opensubtitles.py:38-39 | A reply with status "200 ..." returns its `data` unchanged, or nil when `data` is absent. |
| `Status.UnknownStatusExample` | pythonopensubtitles/opensubtitles.py:46 | Status "414 ..." raises the generic failure with the prefix and the whole status line. |
| `Status.StrictImpliesLenient` | pythonopensubtitles/opensubtitles.py:38-39 | Every status the interpreter reads as 200 also contains "200", even with a sign or leading zeros. So the lenient check accepts everything the strict one does. |
| `Status.LenientAdmitsOtherCodes` | pythonopensubtitles/opensubtitles.py:61 | The converse fails: a 429 status line that mentions "200" later passes the lenient check. |
| `Text.FirstTokenIff` | pythonopensubtitles/opensubtitles.py:38 | The token read from the status is exactly the first maximal run of non-whitespace after leading whitespace. Every such run is the token read. |
| `Text.JoinSplitRoundTrip` | pythonopensubtitles/opensubtitles.py:68 | Splitting the comma-join of a non-empty list of comma-free codes on the comma gives back the list. |
| `Decimal.NatToStringRoundTrip` | pythonopensubtitles/opensubtitles.py:133 | The decimal count written into the refusal message reads back as the same count. |
| `OpenSubtitles.NewSession` | pythonopensubtitles/opensubtitles.py:28-32 | A new client keeps the given language and user agent, holds the nil token (so calls made before a login send nil) and has stored no reply. |
| `OpenSubtitles.Login` | pythonopensubtitles/opensubtitles.py:48-55 | Sends username, password, language and user agent. Returns the interpreted `token`, or raises the mapped error. Replaces the stored token only when the returned token is truthy. |
| `OpenSubtitles.LoginEstablishesSession` | pythonopensubtitles/opensubtitles.py:51-55 | A 200 reply with a truthy token returns it and leaves the client holding it. |
| `OpenSubtitles.LoginFailureKeepsToken` | pythonopensubtitles/opensubtitles.py:51-55 | A non-200 reply raises the mapped status error and the previous token survives. |
| `OpenSubtitles.LoginFalsyTokenKeepsToken` | pythonopensubtitles/opensubtitles.py:52-55 | A 200 reply with a missing or falsy token returns that value and the previous token survives. |
| `OpenSubtitles.Logout` | pythonopensubtitles/opensubtitles.py:57-61 | Sends the token. Returns true if and only if the status line contains "200". Never raises a status error. Does not clear the token. |
| `OpenSubtitles.NoOperation` | pythonopensubtitles/opensubtitles.py:87-94 | Sends the token. Returns true if and only if the status line contains "200". Never raises. Changes only the stored reply. |
| `OpenSubtitles.AutoUpdate` | pythonopensubtitles/opensubtitles.py:96-100 | Sends only the program name. Returns the whole reply when the status line contains "200", and `None` otherwise. Never raises. |
| `OpenSubtitles.LenientCallsAcceptStrictSuccess` | pythonopensubtitles/opensubtitles.py:57-61 | Whenever the interpreter would accept a reply, `logout`, `no_operation` (line 94) and `auto_update` (line 100) report success too. |
| `OpenSubtitles.SearchFilter` | pythonopensubtitles/opensubtitles.py:66-69 | The filter has `imdbid` if and only if an id is given or `params` supplies one. It has `sublanguageid`, equal to the comma-join of `langs`, if and only if `langs` is given or `params` supplies one. Every key of `params` appears with the caller's value. No other key appears. |
| `OpenSubtitles.SearchSubtitles` | pythonopensubtitles/opensubtitles.py:63-72 | Sends the token and a one-element list holding the filter. On 200, returns the reply's `data`; otherwise raises the interpreter's error. Changes only the stored reply. |
| `OpenSubtitles.SearchLanguagesRecoverable` | pythonopensubtitles/opensubtitles.py:68 | When the caller does not override `sublanguageid`, splitting that entry on commas gives back the language list. |
| `OpenSubtitles.DefaultSearchFilterExample` | pythonopensubtitles/opensubtitles.py:63-68 | A search with the default arguments (no id, languages `[Language.EN]`, no params) yields exactly `sublanguageid` "eng". |
| `OpenSubtitles.SearchFilterExample` | pythonopensubtitles/opensubtitles.py:63-68 | IMDb id "tt0111161" with languages eng and rus yields exactly `imdbid` "tt0111161" and `sublanguageid` "eng,rus". |
| `OpenSubtitles.TryUploadSubtitles` | pythonopensubtitles/opensubtitles.py:74-78 | On a 200 reply, returns true if and only if `alreadyindb` equals 1 under Python's `==`. Otherwise raises the interpreter's error. |
| `OpenSubtitles.TryUploadOneExamples` | pythonopensubtitles/opensubtitles.py:78 | `True` and 1 report a known subtitle. 0 and the string "1" do not. |
| `OpenSubtitles.UploadSubtitles` | pythonopensubtitles/opensubtitles.py:80-85 | Sends the token and the parameters. On 200, returns the reply's `data`, nil when absent. Otherwise raises exactly the interpreter's error for the status. |
| `OpenSubtitles.DecodeEntries` | pythonopensubtitles/opensubtitles.py:135-138 | One decoded file per entry, in entry order. The k-th is the decode of the k-th entry's `data` field. |
| `OpenSubtitles.DownloadSubtitles` | pythonopensubtitles/opensubtitles.py:130-138 | More than 20 ids are refused with an invalid-argument error, with no remote call and no state change. Otherwise sends the token and the id list, and raises the interpreter's error on non-200. On 200, returns exactly one decoded file per reply entry, in reply order. |
| `OpenSubtitles.EmptyPayloadDownloadsNothing` | pythonopensubtitles/opensubtitles.py:135-138 | A 200 reply whose `data` is an empty string or empty struct makes the loop run zero times: the result is the empty list, with no error. |
| `OpenSubtitles.SingleIdIsOneElementList` | pythonopensubtitles/opensubtitles.py:131 | A lone id downloads exactly as the one-element list holding it. |
| `OpenSubtitles.TooManyIdsMessageReportsCount` | pythonopensubtitles/opensubtitles.py:133 | The refusal message is the fixed prefix followed by a numeral that reads back as the number of ids given. |
| `OpenSubtitles.Unimplemented` | pythonopensubtitles/opensubtitles.py:106-128 | Each advertised call without a body, here and at lines 140-178, raises not-implemented. It issues no remote call and leaves the client unchanged. |

## Left out

- The XML-RPC transport and the network: the reply envelope is an input of each operation, and the outgoing call is returned as data.
- The settings module is not part of this model. The server URL is not modelled; language and user agent are plain inputs of `NewSession`.
- The base64 and gzip decoder `get_gzip_base64_decoded`, from a module not part of this model, is the uninterpreted parameter `decode`. Its round trip is not stated, and the exceptions it raises on a corrupt payload are not modelled: `decode` is total.
- Python 3 behaviour of `download_subtitles`: `basestring` is undefined there, so every call raises `NameError` before the length check. The model follows Python 2, where the check and the call run as described.
- `search_movies_on_imdb` returns the reply unchanged and has no logic.
- Malformed replies are preconditions rather than modelled failures. On the following, Python raises an incidental exception: a missing status; a status whose first token is not an integer (for the interpreted calls); a 200 download reply whose `data` is nil, a number, a non-empty string or struct, or a list holding an entry that is not a struct with a `data` field.
- `Status.HasStatusText`: the lenient calls `logout`, `no_operation` and `auto_update` are modelled only for a string status. On an XML-RPC list or struct status, Python's `'200' in status` is a membership test that returns normally (true exactly when the list holds, or the struct has the key, "200"); the model excludes those replies instead of modelling that test.
- `Text.IsSpace` treats only the six ASCII whitespace characters as separators. This matches `str.split()` on Python 2 byte strings; the extra Unicode whitespace of Python 3 strings is not modelled.
- `Decimal.ParseInt` accepts an optional sign followed by ASCII digits. Underscore separators and non-ASCII digits, which some Python versions accept, are not modelled.
- `Values.EqualsOne` covers integers and booleans. XML-RPC doubles, where `1.0 == 1`, are not modelled, and neither are dates or binary values.
- The `isinstance` checks on the download argument are modelled by the `SubtitleIds` datatype, which admits only a string or a list of strings.
- Concurrency and object identity: the client is a value threaded through the operations. The reply stored by each call is the `last` field.
