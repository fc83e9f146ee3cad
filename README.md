# Getty in Dafny

Getty is a small PHP HTTP client facade. A `Getty` object holds instance
defaults: content type, timeout, extra stream options, extra header lines
and Basic credentials. It also holds a list of listeners. Each request
goes through these steps:

- merge the per-call arguments with the defaults, using PHP's `?:`
  truthiness fallback;
- build the header lines: the defaults, one Content-Type line and, when
  both credentials resolve, an `Authorization: Basic` line;
- build the `http` stream options;
- tell every listener the request is starting, handing it a copy whose
  Authorization lines are rewritten to `Authorization: Basic _removed_`
  when the default user is truthy;
- call the transport;
- tell every listener the request has ended;
- wrap the result in a `Response`: its body (or "" when the body is falsy),
  the raw response header lines, and a status code read off the first
  line with a regular expression.

The model is split into these modules:

- `PhpValues` (php_values.dfy): PHP values, `Truthy` and `?:`.
- `Utf8` (utf8.dfy): the bytes behind a PHP string, following RFC 3629.
- `Base64` (base64.dfy): `base64_encode`, following section 4 of RFC 4648.
- `StatusLine` (status_line.dfy): the status-code regex and the `(int)`
  cast.
- `Redaction` (redaction.dfy): the credential-scrubbing `preg_replace`.
- `HttpResponse` (response.dfy): `Response`, a plain value that never
  changes after construction.
- `Getty` (getty.dfy): the header and option builders as functions, and
  the client as a class whose setters and `AddListener` update its fields.
- `Arith` (arith.dfy): division facts the bit packing needs.

The outside world for one request is an `Exchange` value: the `mt_rand` id,
the body `file_get_contents` returns, and `$http_response_header`. The
calls the client makes come back as a trace of `Event`s: listener start
calls, the transport call and listener end calls, in order.

Behaviour kept exactly as the code has it:

- Redaction is triggered by the *default* user being truthy. The
  credentials of the call do not matter (`PerCallCredentialsNotRedacted`).
- `head` sends method `GET`.
- The regex takes the *rightmost* whitespace-delimited digit run of the
  first line, so a reason phrase holding a number wins over the
  status-code (`ReasonDigitsWin`). Section 4 of RFC 9112 defines the
  status-code as exactly three digits, but the pattern accepts any
  whitespace-delimited digit run (`\s(\d+)\s`) on the line; the model
  follows the pattern.

## Model

| member | source | states |
|---|---|---|
| PhpValues.Truthy | src/Getty.php:208-212 | PHP's boolean conversion, used by `?:` here and at lines 174 and 191, and by the `if` test at line 123: a value is falsy exactly when it is null, false, 0, "", "0" or an empty array |
| PhpValues.OrElse | src/Getty.php:208-212 | `a ?: b` yields the per-call value exactly when it is truthy, otherwise the default |
| PhpValues.OrElseNull | src/Getty.php:211-213 | a resolved credential is null iff the default is null and the per-call value is null, "" or "0" |
| PhpValues.FalsyStrings | src/Getty.php:208 | the falsy nullable strings are exactly null, "" and "0" |
| Utf8.EncodeScalar | src/Getty.php:214 | one character takes 1 to 4 bytes, and a single byte equal to its code exactly when it is ASCII |
| Utf8.RoundTrip | src/Getty.php:214 | decoding the UTF-8 bytes of a string gives the string back, so distinct credentials give distinct bytes |
| Utf8.DecodeSound | src/Getty.php:214 | the decoder's converse of `RoundTrip`: any byte string that decodes is the encoding of its decoded text, so the decoder used to read the credentials back accepts only encodings |
| Utf8.AsciiIsIdentity | src/Getty.php:214 | an ASCII string's bytes are its character codes, one per character |
| Utf8.EncodeAppend | src/Getty.php:214 | encoding distributes over concatenation; `AuthorizationLineCarriesCredentials` uses it to split the bytes of `"$user:$password"` |
| Base64.Value | src/Getty.php:214 | a character has a 6-bit value only if it is the alphabet symbol for that value |
| Base64.Encode | src/Getty.php:214 | the output has 4 characters per started 3-byte group, each an alphabet symbol or `=` |
| Base64.RoundTrip | src/Getty.php:214 | decoding the base64 text gives back exactly the encoded bytes |
| Base64.DecodeSound | src/Getty.php:214 | the converse of `RoundTrip`: any text that decodes is the encoding of the bytes it decodes to, and non-empty text decodes to non-empty bytes |
| Base64.NoLineBreak | src/Getty.php:214 | the encoded text holds no line feed |
| Redaction.FirstOccurrence | src/Getty.php:125 | the result is the leftmost position of `Authorization: Basic ` at or after the start, or none when there is no such position |
| Redaction.FromLineBreak | src/Getty.php:125 | what greedy `.*` leaves is a suffix that is empty or starts at a line feed, and the consumed prefix holds no line feed, so `.*` stops at the first one |
| Redaction.Redact | src/Getty.php:125 | with no `Authorization: Basic ` in the line it is unchanged; otherwise the text before the first occurrence is kept and `Authorization: Basic _removed_` follows it; the rest of the string is fixed by `RedactSingleLine` and `RedactAcrossLineFeed` |
| Redaction.RedactAcrossLineFeed | src/Getty.php:125 | every match is replaced, and `.` stops at a line feed: the rewrite of a line, a line feed and the rest is the rewrite of the line, the line feed and the rewrite of the rest; with `RedactSingleLine` this fixes the result on every string |
| Redaction.TwoAuthorizationLines | src/Getty.php:125 | one header element holding two Basic Authorization lines has both tokens replaced by `_removed_` |
| Redaction.RedactLines | src/Getty.php:124-126 | every header line is rewritten on its own; the count and order are kept |
| Redaction.RedactSingleLine | src/Getty.php:125 | a line without the marker is unchanged; otherwise it becomes the text before the first marker followed by `Authorization: Basic _removed_` |
| Redaction.RedactIdempotent | src/Getty.php:125 | rewriting an already rewritten line changes nothing |
| Redaction.RedactLinesIdempotent | src/Getty.php:124-126 | rewriting a header list twice is the same as rewriting it once |
| Redaction.RedactAuthorizationLine | src/Getty.php:125 | a Basic Authorization line becomes exactly `Authorization: Basic _removed_`, whatever its token |
| StatusLine.LastGroupIn | src/Getty.php:169 | the result is the rightmost position in range where `\s(\d+)\s` matches, or none when nothing matches there |
| StatusLine.MatchFrom | src/Getty.php:169 | a match tried from position `p` lands on an occurrence of `\s(\d+)\s` at or after `p`, and fails iff there is no occurrence from `p` on |
| StatusLine.Match | src/Getty.php:169 | a match found is an occurrence of `\s(\d+)\s`, and there is none iff the group occurs nowhere in the line |
| StatusLine.MatchOnSingleLine | src/Getty.php:169 | on a line without line feeds, the match is at `i` iff the group occurs at `i` and nowhere to its right; there is none iff the group occurs nowhere |
| StatusLine.IntCast | src/Getty.php:170 | `(int)` of a digit string, as 64-bit PHP 7 or later does it: the value itself up to PHP_INT_MAX; PHP_INT_MAX for a larger value whose double is finite; 0 once the double overflows to infinity (at 2^1024 - 2^970 and above) |
| StatusLine.CodeOf | src/Getty.php:168-171 | the code lies in 0..PHP_INT_MAX and is 0 when the pattern does not match |
| StatusLine.CodeOfSingleLine | src/Getty.php:169-170 | on a line without line feeds the code is the cast of the digits captured at the rightmost occurrence of the group |
| StatusLine.StatusLineCode | src/Getty.php:169-170 | a status-line `version SP code SP reason` yields its status-code when the reason holds no whitespace-led digit |
| StatusLine.NotFoundLine | src/Getty.php:169-170 | `HTTP/1.1 404 Not Found` yields 404 |
| StatusLine.ReasonDigitsWin | src/Getty.php:169-170 | `HTTP/1.1 500 Retry in 30 s` yields 30: the greedy leading `.*` prefers the last digit run |
| HttpResponse.AccessorsReturnConstructorArguments | src/Response.php:28-67 | `getBody`, `getHeader` and `getCode` return the constructor's arguments unchanged, header lines in order |
| Getty.BuildHeaders | src/Getty.php:204-218 | the defaults come first and unchanged, then the Content-Type line with the effective type; an Authorization line for the resolved credentials comes last exactly when both resolve to non-null |
| Getty.EffectiveContentType | src/Getty.php:208 | a truthy per-call content type is used; a null, "" or "0" one falls back to the default |
| Getty.ResolvedCredentials | src/Getty.php:211-213 | credentials resolve iff each of user and password is truthy per call or has a non-null default; each resolved value is the per-call one when that is truthy and the default otherwise |
| Getty.ContentTypeFallback | src/Getty.php:208 | the default content type is used iff the per-call one is null, "", "0" or already equal to it |
| Getty.CredentialsResolve | src/Getty.php:211-213 | no Authorization line iff the user or the password is falsy per call with a null default |
| Getty.AuthorizationLineCarriesCredentials | src/Getty.php:214 | the line is `Authorization: Basic ` followed by a token that decodes (base64, then UTF-8) back to `user:password`, whose bytes are the user's bytes, `:` and the password's bytes |
| Getty.AsciiCredentials | src/Getty.php:214 | for ASCII credentials the bytes base64 encodes are the character codes of `user:password`, one per character, as PHP holds them |
| Getty.AuthorizationLineIsSingleLine | src/Getty.php:214 | the token never holds a line feed |
| Getty.EffectiveTimeout | src/Getty.php:191 | a non-zero per-call timeout is the one used; null or 0 falls back to the default; the result is 0 only when the default is 0 |
| Getty.BuildHttpOptions | src/Getty.php:185-195 | the keys are the defaults plus the five per-call keys; other defaults are kept; method, header, content, timeout and `ignore_errors = true` are set |
| Getty.RequestOptions | src/Getty.php:240-247 | the stream options have the single key `http`, and their header list is the built header lines |
| Getty.RequestOptionsShape | src/Getty.php:240-247 | `request` hands `fire` exactly `['http' => options]`, whose header list is the built header lines |
| Getty.DefaultGetOptions | src/Getty.php:258-261 | a default client's GET sends only `Content-Type: application/json`, an empty body, timeout 10 and `ignore_errors` |
| Getty.Observed | src/Getty.php:122-127 | the copy listeners get still has a header list |
| Getty.ObservedChangesOnlyHeaderLines | src/Getty.php:122-127 | only the header lines change, each by the rewrite, their count kept; with a falsy default user the copy equals the options |
| Getty.ObservedIdempotent | src/Getty.php:122-127 | scrubbing the listeners' copy again changes nothing |
| Getty.ListenersSeeRemovedCredentials | src/Getty.php:123-125 | with a truthy default user, listeners see the Authorization line as `Authorization: Basic _removed_`, while the options sent keep the real line |
| Getty.PerCallCredentialsNotRedacted | src/Getty.php:123 | with a falsy default user, listeners see the options unchanged, per-call credentials included |
| Getty.StartNotifications | src/Getty.php:129-131 | one start call per listener, in registration order, all with the same id, url and copy |
| Getty.EndNotifications | src/Getty.php:143-145 | one end call per listener, in registration order, with the same id |
| Getty.FireTrace | src/Getty.php:154-162 | 2n+1 calls: the n start calls first, listener i's at i; the transport call with the options as given at n; then the n end calls, listener i's at n+1+i |
| Getty.FireTraceOrder | src/Getty.php:154-162 | trace length 2n+1: listener i's start call at i, the transport call with the unredacted options at n, listener i's end call at n+1+i, one id throughout |
| Getty.NoListenersNoHooks | src/Getty.php:118-120 | with no listeners the transport call is the only call |
| Getty.RequestTraceHidesCredentials | src/Getty.php:116-162 | over a whole request, every start call shows `_removed_` where the transport call shows the real Authorization line |
| Getty.FireResponse | src/Getty.php:164-174 | the code lies in 0..PHP_INT_MAX; the body is "" or the transport's result; without header lines the code is 0; non-empty response lines are the header as given |
| Getty.FireResponseRules | src/Getty.php:164-174 | the body is "" iff the result is false, "" or "0", and otherwise the result; without response lines the header is empty and the code 0; otherwise the header is those lines and the code is read off the first; 0 <= code |
| Getty.NotFoundResponse | src/Getty.php:166-170 | a first response line `HTTP/1.1 404 Not Found` gives code 404 |
| Getty.Getty.constructor | src/Getty.php:45-59 | the defaults are the constructor's arguments (`application/json`, 10, no options, no lines, no credentials unless given); no listeners |
| Getty.Getty.SetDefaultTimeout | src/Getty.php:64-67 | only the default timeout changes |
| Getty.Getty.SetDefaultHTTPStreamOptions | src/Getty.php:72-75 | only the default stream options change |
| Getty.Getty.SetDefaultHTTPHeader | src/Getty.php:80-83 | only the default header lines change |
| Getty.Getty.SetBasicAuth | src/Getty.php:89-93 | only user and password change, both together |
| Getty.Getty.SetDefaultContentType | src/Getty.php:98-101 | only the default content type changes |
| Getty.Getty.AddListener | src/Getty.php:106-109 | the listener is appended at the end; the defaults are unchanged |
| Getty.Getty.NotifyStart | src/Getty.php:116-132 | the calls made are the start notifications with the scrubbed copy (none without listeners) |
| Getty.Getty.NotifyEnd | src/Getty.php:137-146 | the calls made are the end notifications (none without listeners) |
| Getty.Getty.Fire | src/Getty.php:154-175 | the calls made are the fire trace, and the response is built from the exchange by the response rules |
| Getty.Getty.Request | src/Getty.php:231-248 | the fire trace over the options built from the defaults and the arguments, with the matching response |
| Getty.Getty.Get | src/Getty.php:258-261 | `request` with `GET`, an empty body and no content type |
| Getty.Getty.Post | src/Getty.php:273-282 | `request` with `POST` and the given body and content type |
| Getty.Getty.Put | src/Getty.php:294-303 | `request` with `PUT` and the given body and content type |
| Getty.Getty.Delete | src/Getty.php:315-324 | `request` with `DELETE` and the given body and content type |
| Getty.Getty.Head | src/Getty.php:334-337 | exactly what `get` sends, method `GET` included |

## Left out

- Network I/O: `stream_context_create` and `file_get_contents` are not modelled. What they return, and the `$http_response_header` they set, come in through `Exchange`. The transport call is recorded as a `Transport` event.
- `mt_rand`: the correlation id is a field of `Exchange`.
- Listener behaviour: `src/Listener.php` is an interface with no code. Listeners are identities, and their hooks are the recorded events. The model assumes every hook returns normally, does not change what it is handed and does not call back into the client. Not modelled are:
  - an exception thrown by `requestStart` or `requestEnd` (src/Getty.php:130, 144), which would leave `fire` early, so that the trace would stop before the transport call or before the remaining end calls;
  - the PHP reference that the `foreach (... as &$header)` loop (src/Getty.php:124-126) leaves on the last header slot of the copy, through which a listener writing that slot would change what the listeners after it receive.
- `Response.getBodyJSONDecoded` (src/Response.php:48-51) is left out, because `json_decode` is outside the model.
- Only the two regular expressions the client uses are modelled: the pattern at line 169 and the rewrite at line 125. The `/i` flag of the pattern at line 169 is dropped, because that pattern (`.`, `\s`, `\d`) holds no letter. The pattern at line 125 has no `/i` and is matched case-sensitively, as modelled: `authorization: basic x` is not rewritten.
- StatusLine.IntCast: assumes a 64-bit build of PHP 7 or later (PHP_INT_MAX = 2^63-1, an infinite double cast to 0). PHP 5, which caps every overflowing digit string at PHP_INT_MAX, is not modelled. PHP's notice for the undefined `$matches[1]` is not modelled; only the resulting code 0 is.
- Getty.Getty.NotifyStart and Getty.Getty.Fire: they require a header list under `http`. The only caller of `notifyStart` is `fire` (src/Getty.php:158), and the only caller of `fire` is `request`, which always builds one (`RequestOptionsShape`). PHP's warning path for other arrays is not modelled.
- PHP arrays are modelled as a `map` for options and a `seq` for lists, so the key order of an options array is not kept.
- Dynamic typing is narrowed:
  - content types, users and passwords are strings or null;
  - timeouts are integers or null;
  - the default content type and timeout are a string and an integer.
  Float timeouts and values of other types are not modelled.
- Strings are sequences of Unicode scalar values, and their bytes are their UTF-8 encoding. PHP strings holding byte sequences that are not UTF-8 are not modelled.
- The field initialisers at src/Getty.php:11-31 are left out, because the constructor always overwrites them. `DefaultConfig` is the constructor's defaults. The constructor never assigns `$listeners`, so the initialiser at line 35 is what makes a new client's list empty; the model's constructor sets `listeners := []` for it.
