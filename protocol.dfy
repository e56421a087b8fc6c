/**
 * The router's web protocol as the driver speaks it: the three endpoints, the
 * form payloads, and the substring tests that decide whether a reply means
 * success.
 */
module Protocol {

  /** A form value: the driver sends the nonce and the credentials as text, the settings as integers. */
  datatype FormValue = Text(text: string) | Number(number: int)

  type Form = map<string, FormValue>

  datatype Verb = Get | Post

  /** One HTTP request as the session issues it. */
  datatype Request = Request(verb: Verb, url: string, form: Form)

  const LoginPath: string := "/goform/login"
  const RadioPagePath: string := "/wlanRadio.asp"
  const CommitPath: string := "/goform/wlanRadio.pl"
  const Scheme: string := "http://"

  /** `"http://{}<path>".format(ip)`. */
  function Url(ip: string, path: string): (u: string)
    ensures |u| == |Scheme| + |ip| + |path|
    ensures u[..|Scheme|] == Scheme
    ensures u[|Scheme|..|Scheme| + |ip|] == ip
    ensures u[|Scheme| + |ip|..] == path
  {
    Scheme + ip + path
  }

  /** Two URLs built for the same router are equal only if their paths are. */
  lemma UrlPathInjective(ip: string, p1: string, p2: string)
    requires Url(ip, p1) == Url(ip, p2)
    ensures p1 == p2
  {
    assert p1 == Url(ip, p1)[|Scheme| + |ip|..];
  }

  /** Requests to the three endpoints never share a URL. */
  lemma EndpointsDistinct(ip: string)
    ensures Url(ip, LoginPath) != Url(ip, RadioPagePath)
    ensures Url(ip, LoginPath) != Url(ip, CommitPath)
    ensures Url(ip, RadioPagePath) != Url(ip, CommitPath)
  {
  }

  /** The login form. */
  function LoginForm(username: string, password: string): (f: Form)
    ensures f.Keys == {"loginUsername", "loginPassword"}
    ensures f["loginUsername"] == Text(username) && f["loginPassword"] == Text(password)
  {
    map["loginUsername" := Text(username), "loginPassword" := Text(password)]
  }

  /** The nine settings the commit sends whatever the token and the flag. */
  const FixedSettings: Form := map[
    "OutputPower" := Number(100),
    "Band" := Number(2),            // 2.4 GHz
    "NMode" := Number(3),           // b/g/n
    "NBandwidth" := Number(20),     // 20 MHz
    "ChannelNumber" := Number(0),   // automatic channel
    "commitwlanRadio" := Number(1),
    "restoreWirelessDefaults" := Number(0),
    "scanActions" := Number(0),
    "SelectedRadio" := Number(0)
  ]

  /** The value of the radio switch field: 1 to enable, 0 to disable. */
  function EnableFlag(enable: bool): int
  {
    if enable then 1 else 0
  }

  /** The commit form for `token` that switches the radio on or off. */
  function CommitForm(token: string, enable: bool): (f: Form)
    ensures f.Keys == FixedSettings.Keys + {"GetNonce", "WirelessEnable"}
    ensures f["GetNonce"] == Text(token)
    ensures f["WirelessEnable"] == Number(if enable then 1 else 0)
    ensures forall k :: k in FixedSettings ==> f[k] == FixedSettings[k]
  {
    FixedSettings["GetNonce" := Text(token)]["WirelessEnable" := Number(EnableFlag(enable))]
  }

  /** A commit form determines the token and the flag it was built from. */
  lemma CommitFormInjective(t1: string, e1: bool, t2: string, e2: bool)
    requires CommitForm(t1, e1) == CommitForm(t2, e2)
    ensures t1 == t2 && e1 == e2
  {
    assert CommitForm(t1, e1)["GetNonce"] == Text(t1);
    assert CommitForm(t1, e1)["WirelessEnable"] == Number(EnableFlag(e1));
  }

  /** Disabling and enabling with the same token differ in the radio switch only. */
  lemma CommitFormsDifferInSwitchOnly(token: string)
    ensures CommitForm(token, false) - {"WirelessEnable"} == CommitForm(token, true) - {"WirelessEnable"}
    ensures CommitForm(token, false) != CommitForm(token, true)
  {
    assert CommitForm(token, false)["WirelessEnable"] != CommitForm(token, true)["WirelessEnable"];
  }

  function LoginRequest(ip: string, username: string, password: string): Request
  {
    Request(Post, Url(ip, LoginPath), LoginForm(username, password))
  }

  function RadioPageRequest(ip: string): Request
  {
    Request(Get, Url(ip, RadioPagePath), map[])
  }

  function CommitRequest(ip: string, token: string, enable: bool): Request
  {
    Request(Post, Url(ip, CommitPath), CommitForm(token, enable))
  }

  /** The window of `text` at `i` spells `pat`. */
  predicate OccursAt(text: string, pat: string, i: nat)
  {
    i + |pat| <= |text| && text[i..i + |pat|] == pat
  }

  /** `pat in text` for strings: some window of `text` spells `pat`, compared case-sensitively. */
  function Contains(text: string, pat: string): (r: bool)
    ensures r <==> exists i: nat :: OccursAt(text, pat, i)
    decreases |text|
  {
    if |text| < |pat| then false
    else if text[..|pat|] == pat then (assert OccursAt(text, pat, 0); true)
    else
      var r := Contains(text[1..], pat);
      assert forall i: nat :: OccursAt(text, pat, i + 1) <==> OccursAt(text[1..], pat, i) by {
        forall i: nat ensures OccursAt(text, pat, i + 1) <==> OccursAt(text[1..], pat, i) {
          if i + 1 + |pat| <= |text| {
            assert text[1..][i..i + |pat|] == text[i + 1..i + 1 + |pat|];
          }
        }
      }
      assert (exists i: nat :: OccursAt(text, pat, i)) ==> exists i: nat :: OccursAt(text[1..], pat, i) by {
        if exists i: nat :: OccursAt(text, pat, i) {
          var i: nat :| OccursAt(text, pat, i);
          assert i != 0;
          assert OccursAt(text[1..], pat, i - 1);
        }
      }
      r
  }

  /** Text put around a marker still contains it. */
  lemma ContainsEmbedded(before: string, pat: string, after: string)
    ensures Contains(before + pat + after, pat)
  {
    var s := before + pat + after;
    assert s[|before|..|before| + |pat|] == pat;
    assert OccursAt(s, pat, |before|);
  }

  /** The login is accepted when the reply is not the login page again. */
  predicate LoginAccepted(reply: string)
    ensures LoginAccepted(reply) <==> forall i: nat :: !OccursAt(reply, "login", i)
  {
    !Contains(reply, "login")
  }

  /** A commit is accepted when the reply shows neither the login page nor an error. */
  predicate CommitAccepted(reply: string)
    ensures CommitAccepted(reply) <==>
      forall i: nat :: !OccursAt(reply, "login", i) && !OccursAt(reply, "Error", i)
    ensures CommitAccepted(reply) ==> LoginAccepted(reply)
  {
    !Contains(reply, "login") && !Contains(reply, "Error")
  }

  /** Any reply that shows a login marker or an error marker is refused, wherever the marker stands. */
  lemma MarkersRefuse(before: string, after: string)
    ensures !LoginAccepted(before + "login" + after)
    ensures !CommitAccepted(before + "login" + after)
    ensures !CommitAccepted(before + "Error" + after)
  {
    ContainsEmbedded(before, "login", after);
    ContainsEmbedded(before, "Error", after);
  }

  /** The tests are case-sensitive: capitalised or lower-case variants of the markers pass. */
  lemma MarkersAreCaseSensitive()
    ensures LoginAccepted("Login")
    ensures CommitAccepted("error")
  {
    assert "Login"[0..5][0] != "login"[0];
    assert "error"[0..5][0] != "Error"[0];
  }
}
