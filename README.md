# wifireset, modelled in Dafny

wifireset is a watchdog for a WiFi router whose radio sometimes stops
transmitting. It pings a neighbour on the network a few times. If the
neighbour never answers, it logs in to the router's web administration pages
and power-cycles the radio: it disables the radio, waits, then enables it.
The one supported router is the Arris SBG6580.

The model covers the logic under the I/O:

- `Prober` is the `ping` retry loop. The one-shot probe is an oracle:
  `outcomes[i]` is the answer of the i-th probe. Each attempt, each 3-second
  pause and each debug log line is recorded as an event of a trace.
- `Nonce` is the one regular expression of the driver,
  `"GetNonce" size=31 value=(\w+)>`, written out as a leftmost search for
  the literal followed by the maximal run of word characters and a `>`.
  `MatchAtIff` proves that this is what the pattern matches.
- `Protocol` holds the three endpoint URLs, the login and commit forms, and
  the case-sensitive substring checks that accept or refuse a reply.
- `Arris` holds the driver. The class `ArrisSbg6580` keeps the router
  address, the HTTP session and a trace of requests and pauses. The session
  is the list of replies its server will give, in order. `Open` is the
  constructor of the source: it opens the session and logs in. `Radio` is
  `_radio` and `ToggleRadio` is `toggle_radio`. Each method is proved to
  perform a pure `Exchange` (outcome, actions taken, replies left), and the
  properties are proved about those exchanges. A ghost flag `loggedIn`
  records that the login passed. `Radio` and `ToggleRadio` require it,
  because in the source no router object exists before its login succeeds.

The checks of the source are Python `assert`s. They are modelled as error
outcomes (`Fault`), as the code intends. An exception raised by
`_radio(False)` or `_radio(True)` inside `toggle_radio` is reported as a
`ToggleFault` that names its phase (`Disabling` or `Enabling`). In the
source, the traceback gives the same information.

After a failed probe, the source logs only the host (wifireset.py:81), not
the attempt number. The model follows the code.

## Model

| member | source | states |
|---|---|---|
| Prober.Ping | wifireset.py:75-82 | result is true iff one of the first `retry` outcomes is true (none when `retry <= 0`); the trace is that of the attempts up to and including the first success, or of all `retry` attempts; attempts = index of the first success + 1, or `retry` when all fail; pauses = attempts - 1; one debug line per failed attempt; every pause comes before an attempt other than the first, and the first event is attempt 0 |
| Prober.FirstSuccess | wifireset.py:79-80 | the index where the loop returns: every earlier outcome is false, and the outcome at that index is true unless all `n` attempts fail |
| Prober.PingTraceTally | wifireset.py:76-81 | `n` iterations record exactly `n` attempts, `n - 1` pauses (none for `n = 0`) and one debug line per failed outcome |
| Prober.PingTraceSleeps | wifireset.py:77-78 | no pause before the first attempt or after the last; each pause is directly followed by attempt `i >= 1` |
| Prober.PingFacts | wifireset.py:76-82 | for a run that stopped at a success after `m` attempts, or failed all `m`: the attempt, pause and debug counts and the pause placement |
| Nonce.RunEnd | wifireset.py:54-55 | the greedy `\w+` stops at the end of the maximal run of word characters |
| Nonce.FindMatch | wifireset.py:54-55 | `re.search` scanning from the left: the position found matches the pattern and no earlier position does; `None` only when no position matches |
| Nonce.ExtractNonce | wifireset.py:54-55 | `re.search(...).group(1)`: a nonce is found iff the pattern matches somewhere; it is the group of the leftmost match and a non-empty run of word characters; `None` stands for the failing `.group` of a search that found nothing |
| Nonce.MatchSpells | wifireset.py:54-55 | at a match, the text spells the literal, then the token, then `>` |
| Nonce.SpelledMatch | wifireset.py:54-55 | text that spells the literal, a word and `>` is a match whose group is that word |
| Nonce.MatchAtIff | wifireset.py:54-55 | both directions: a match at `p` with group `t` iff the text at `p` is literal + `t` + `>` with `t` a word |
| Nonce.FirstMatchFound | wifireset.py:54-55 | a match with no match before it is the one the search reports |
| Nonce.OverlapIsBorder | wifireset.py:54-55 | two overlapping occurrences of the pattern's literal force a proper suffix of it to equal a prefix of it |
| Nonce.PrefixBorderFree | wifireset.py:54 | no proper suffix of the literal `"GetNonce" size=31 value=` is also a prefix of it, so two of its occurrences never overlap |
| Nonce.RenderedNonce | wifireset.py:54-55 | a page that renders the nonce field after any markup in which the pattern's literal does not occur yields exactly the rendered token |
| Nonce.HiddenInputNonce | wifireset.py:54-55 | the field as rendered inside `<input type="hidden" name=…>` yields exactly its token |
| Protocol.Url | wifireset.py:46 | `"http://" + ip + path`, which splits back into the scheme, the address and the path |
| Protocol.UrlPathInjective | wifireset.py:46-53 | two URLs for one router are equal only if their paths are |
| Protocol.EndpointsDistinct | wifireset.py:46-53 | the login, settings-page and commit URLs of one router are pairwise distinct |
| Protocol.LoginForm | wifireset.py:47 | the login form has exactly the fields `loginUsername` and `loginPassword`, holding the given credentials |
| Protocol.CommitForm | wifireset.py:53-67 | the commit form has the nine fixed settings plus `GetNonce = token` and `WirelessEnable = 1` if enabling, `0` otherwise, and no other field |
| Protocol.CommitFormInjective | wifireset.py:53-67 | a commit form determines the token and the enable flag it was built from |
| Protocol.CommitFormsDifferInSwitchOnly | wifireset.py:56 | the disable and enable forms for one token agree on every field except `WirelessEnable`, where they differ |
| Protocol.Contains | wifireset.py:48 | `pat in text`: true iff some window of `text` equals `pat` character for character |
| Protocol.LoginAccepted | wifireset.py:48 | the login reply is accepted iff no window of it spells `login` |
| Protocol.CommitAccepted | wifireset.py:68-69 | the commit reply is accepted iff no window of it spells `login` or `Error`; an accepted commit reply would also pass the login check |
| Protocol.MarkersRefuse | wifireset.py:68-69 | a reply with `login` anywhere fails both checks; a reply with `Error` anywhere fails the commit check |
| Protocol.MarkersAreCaseSensitive | wifireset.py:48 | `Login` passes the login check and `error` passes the commit check |
| Arris.LoginExchange | wifireset.py:45-48 | the login makes one POST to `/goform/login` with the credentials; it passes iff there is a reply and the reply does not contain `login`; it uses up one reply |
| Arris.CommitVerdict | wifireset.py:68-69 | a commit reply passes iff it contains neither `login` nor `Error`; the `login` check comes first, and an `Error` fault carries the reply text |
| Arris.RadioExchange | wifireset.py:50-69 | the GET of the settings page comes first; a POST follows iff the page has a nonce, and it sends that nonce with the requested flag; a page with no nonce fails with `NonceMissing` and sends no POST; the switch passes iff the page has a nonce and the commit reply is accepted; once the POST is answered its fault is the `CommitVerdict` of the reply; it fails with `NoResponse` when the replies run out before a request is answered; one reply is used up per request |
| Arris.ToggleExchange | wifireset.py:36-39 | a fault in the disable phase leaves exactly the disable step's actions and replies |
| Arris.ToggleSuccess | wifireset.py:36-39 | a toggle passes iff both pages have a nonce and both commits are accepted; it then does GET, disable POST, pause of `wait`, GET, enable POST, in that order |
| Arris.DisableFailureAborts | wifireset.py:36-37 | a failed disable ends the toggle with a disable-phase fault; no pause and no second switch follow |
| Arris.EnableFailureLeavesRadioOff | wifireset.py:37-39 | a failed enable comes after the disable commit and the pause, so the radio is left off, and the fault names the enable phase |
| Arris.ToggleWithFreshTokens | wifireset.py:36-39 | against two freshly rendered pages, the disable commit carries the first page's token and the enable commit the second's |
| Arris.ArrisSbg6580.constructor | wifireset.py:43-44 | a new session with the given address, no request made yet and not logged in |
| Arris.ArrisSbg6580.Issue | wifireset.py:45-47 | one request is recorded and answered by the next reply, if there is one |
| Arris.ArrisSbg6580.Login | wifireset.py:45-48 | performs `LoginExchange` on the object: outcome, new trace and remaining replies; the object counts as logged in iff the login passed |
| Arris.ArrisSbg6580.Radio | wifireset.py:50-69 | on a logged-in object, performs `RadioExchange`; only the trace and the replies change |
| Arris.ArrisSbg6580.ToggleRadio | wifireset.py:36-39 | on a logged-in object, performs `ToggleExchange`, with the default wait of 5; only the trace and the replies change |
| Arris.Open | wifireset.py:42-48 | yields a logged-in router iff the login passes, with the login request as its trace; otherwise yields the login fault and no router |

## Left out

- The one-shot probe `_ping` (wifireset.py:71-73) runs a shell `ping`. It is not modelled; its answers are the `outcomes` input. `Prober.Ping` requires at least `retry` answers.
- The `requests` session: its cookies, real HTTP and the different transport errors. A request made when no reply is left fails with `NoResponse`, which stands for all of them.
- `time.sleep` takes real time. Pauses are only recorded as trace events. `ToggleRadio` takes a `nat` wait, so the `ValueError` that `time.sleep` raises for a negative wait is not modelled, and neither is a fractional wait such as `toggle_radio(2.5)`. The only call (wifireset.py:109) uses the default of 5.
- The logging setup and the log level (wifireset.py:26, 85). Debug lines of `ping` are trace events.
- The command-line interface, the `supported_routers` registry and the main flow (wifireset.py:84-109).
- The abstract `Router` constructor and `Router._radio`, which only raise `NotImplementedError` (wifireset.py:30-34). `toggle_radio` is a method of the one concrete driver class, since only one driver exists.
- A general regular-expression engine. Only the one fixed pattern is modelled.
- Nonce.ExtractNonce: `\w` is taken as ASCII letters, digits and `_`. Python 3 also counts Unicode letters and digits in `str` patterns.
- Under `python -O` the `assert` checks are stripped and a refused login or commit would go unnoticed. The model keeps the checks, as the code intends.
