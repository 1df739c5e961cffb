/** `authType`: the `-tls_auth_type` flag's value read as a client-certificate policy. */
module TlsAuth {

  /** The client-certificate policies of Go's `crypto/tls`. */
  datatype ClientAuthType =
    | NoClientCert
    | RequestClientCert
    | RequireAnyClientCert
    | VerifyClientCertIfGiven
    | RequireAndVerifyClientCert

  /**
   * The flag value that names each policy, spelled as the switch recognises
   * it (`no_client_cert` is not in the switch and falls to its default).
   */
  function ModeName(t: ClientAuthType): string
  {
    match t
    case NoClientCert => "no_client_cert"
    case RequestClientCert => "request_client_cert"
    case RequireAnyClientCert => "require_any_client_cert"
    case VerifyClientCertIfGiven => "verify_client_cert_if_given"
    case RequireAndVerifyClientCert => "require_and_verify_client_cert"
  }

  /** `authType` as written: `require_any_client_cert` selects `RequireAndVerifyClientCert`. */
  function AuthTypeAsWritten(s: string): (t: ClientAuthType)
    ensures t == RequestClientCert <==> s == "request_client_cert"
    ensures t == VerifyClientCertIfGiven <==> s == "verify_client_cert_if_given"
    ensures t == RequireAndVerifyClientCert <==> s == "require_any_client_cert" || s == "require_and_verify_client_cert"
    ensures t != RequireAnyClientCert
    ensures t == NoClientCert <==>
      s != "request_client_cert" && s != "require_any_client_cert" &&
      s != "verify_client_cert_if_given" && s != "require_and_verify_client_cert"
  {
    if s == "request_client_cert" then RequestClientCert
    else if s == "require_any_client_cert" then RequireAndVerifyClientCert
    else if s == "verify_client_cert_if_given" then VerifyClientCertIfGiven
    else if s == "require_and_verify_client_cert" then RequireAndVerifyClientCert
    else NoClientCert
  }

  /** `authType` with each name selecting the policy it names; any other value selects `NoClientCert`. */
  function AuthType(s: string): (t: ClientAuthType)
    ensures t != NoClientCert ==> ModeName(t) == s
    ensures (forall u :: u != NoClientCert ==> ModeName(u) != s) ==> t == NoClientCert
  {
    if s == "request_client_cert" then RequestClientCert
    else if s == "require_any_client_cert" then RequireAnyClientCert
    else if s == "verify_client_cert_if_given" then VerifyClientCertIfGiven
    else if s == "require_and_verify_client_cert" then RequireAndVerifyClientCert
    else NoClientCert
  }

  /**
   * The option names the flag's help text lists, as written: the fifth is cut
   * short to `require_and_verify_client`.
   */
  const HelpTextNamesAsWritten: seq<string> := ["no_client_cert", "request_client_cert",
    "require_any_client_cert", "verify_client_cert_if_given", "require_and_verify_client"]

  /** The policies, in the order the help text lists them. */
  const Policies: seq<ClientAuthType> := [NoClientCert, RequestClientCert,
    RequireAnyClientCert, VerifyClientCertIfGiven, RequireAndVerifyClientCert]

  /**
   * The help text with each option spelled by its policy's `ModeName`: the
   * first four options are as written, and the fifth regains its `_cert`.
   */
  function HelpTextNames(): (names: seq<string>)
    ensures |names| == |HelpTextNamesAsWritten|
    ensures forall i :: 0 <= i < 4 ==> names[i] == HelpTextNamesAsWritten[i]
    ensures names[4] == HelpTextNamesAsWritten[4] + "_cert"
  {
    seq(|Policies|, i requires 0 <= i < |Policies| => ModeName(Policies[i]))
  }

  /**
   * As written, the help text's last option selects no client-certificate
   * policy under either switch: a user who copies it gets `NoClientCert`.
   */
  lemma HelpTextTruncatedOption()
    ensures HelpTextNamesAsWritten[4] == "require_and_verify_client"
    ensures HelpTextNamesAsWritten[4] != ModeName(RequireAndVerifyClientCert)
    ensures AuthTypeAsWritten(HelpTextNamesAsWritten[4]) == NoClientCert
    ensures AuthType(HelpTextNamesAsWritten[4]) == NoClientCert
  {
  }

  /** With the help text spelled out, each listed option selects the policy it names, under the corrected switch. */
  lemma HelpTextSelectsListedPolicies()
    ensures forall i :: 0 <= i < |Policies| ==> AuthType(HelpTextNames()[i]) == Policies[i]
    ensures forall t: ClientAuthType :: t in Policies
  {
    forall i | 0 <= i < |Policies|
      ensures AuthType(HelpTextNames()[i]) == Policies[i]
    {
      AuthTypeRoundTrip(Policies[i]);
    }
    forall t: ClientAuthType
      ensures t in Policies
    {
      match t
      case NoClientCert => assert Policies[0] == t;
      case RequestClientCert => assert Policies[1] == t;
      case RequireAnyClientCert => assert Policies[2] == t;
      case VerifyClientCertIfGiven => assert Policies[3] == t;
      case RequireAndVerifyClientCert => assert Policies[4] == t;
    }
  }

  /** With the correction every policy is selected by its own name, and the empty default selects `NoClientCert`. */
  lemma AuthTypeRoundTrip(t: ClientAuthType)
    ensures AuthType(ModeName(t)) == t
    ensures AuthType("") == NoClientCert
  {
  }

  /** With the correction distinct flag values that name a policy select distinct policies. */
  lemma AuthTypeInjective(s: string, s': string)
    requires AuthType(s) != NoClientCert && AuthType(s') != NoClientCert
    requires s != s'
    ensures AuthType(s) != AuthType(s')
  {
  }

  /** As written, `require_any_client_cert` selects a stricter policy, and `RequireAnyClientCert` cannot be selected at all. */
  lemma AsWrittenMisreadsRequireAny(s: string)
    ensures AuthTypeAsWritten(ModeName(RequireAnyClientCert)) == RequireAndVerifyClientCert
    ensures AuthTypeAsWritten(s) != RequireAnyClientCert
    ensures s != ModeName(RequireAnyClientCert) ==> AuthTypeAsWritten(s) == AuthType(s)
  {
  }
}
