/**
 * da-ayr-rest-api-auth/lambda_function.py: the API Gateway authorizer. It
 * reads the API, region, account, API id and stage from the method ARN,
 * asks Keycloak whether the bearer token is active, and returns an IAM
 * policy that allows or denies invoking that API stage.
 */
module RestApiAuth {
  import opened Wrappers
  import opened Text
  import opened Dicts
  import opened Json
  import opened Environ
  import opened OpenSearchHost

  const EnvParamStoreKeyKeycloakClientSecret := "PARAM_STORE_KEY_KEYCLOAK_CLIENT_SECRET"
  const EnvKeycloakHost := "KEYCLOAK_HOST"
  const EnvKeycloakClientId := "KEYCLOAK_CLIENT_ID"
  const EnvKeycloakRealm := "KEYCLOAK_REALM"
  const KeyMethodArn := "methodArn"
  const KeyAuthorizationToken := "authorizationToken"
  const KeyActive := "active"
  const IntrospectPath := "/protocol/openid-connect/token/introspect"
  const PolicyVersion := "2012-10-17"

  /** Keycloak's token introspection endpoint for a host and a realm. */
  function IntrospectUrl(host: string, realm: string): (url: string)
    ensures "https://" <= url && EndsWith(url, IntrospectPath)
  {
    var url := "https://" + host + "/realms/" + realm + IntrospectPath;
    assert url == "https://" + (host + "/realms/" + realm + IntrospectPath);
    assert url[|url| - |IntrospectPath|..] == IntrospectPath;
    url
  }

  /** Host and realm can be read back from the URL when the host holds no '/'. */
  lemma IntrospectUrlParts(host: string, realm: string)
    requires '/' !in host
    ensures var rest := RemovePrefix(IntrospectUrl(host, realm), "https://");
      && rest[..IndexOf(rest, '/')] == host
      && RemoveSuffix(RemovePrefix(rest, host + "/realms/"), IntrospectPath) == realm
  {
    ReadBack("https://", host, "/realms/", realm, IntrospectPath);
  }

  /** prefix + host + sep + realm + suffix, read back when sep starts with the first '/' after the host. */
  lemma ReadBack(prefix: string, host: string, sep: string, realm: string, suffix: string)
    requires '/' !in host && |sep| > 0 && sep[0] == '/'
    ensures var rest := RemovePrefix(prefix + host + sep + realm + suffix, prefix);
      && rest == host + sep + realm + suffix
      && rest[..IndexOf(rest, '/')] == host
      && RemoveSuffix(RemovePrefix(rest, host + sep), suffix) == realm
  {
    var rest := host + sep + realm + suffix;
    assert prefix + host + sep + realm + suffix == prefix + rest;
    RemovePrefixOfConcat(prefix, rest);
    ReadBackHost(host, sep, realm + suffix);
    assert rest == (host + sep) + (realm + suffix);
    RemovePrefixOfConcat(host + sep, realm + suffix);
    RemoveSuffixOfConcat(realm, suffix);
  }

  lemma ReadBackHost(host: string, sep: string, tail: string)
    requires '/' !in host && |sep| > 0 && sep[0] == '/'
    ensures var rest := host + sep + tail; rest[..IndexOf(rest, '/')] == host
  {
    var rest := host + sep + tail;
    assert rest == host + ['/'] + (sep[1..] + tail);
    IndexOfSeparator(host, '/', sep[1..] + tail);
    assert rest[..|host|] == host;
  }

  /** Different hosts or realms give different endpoints. */
  lemma IntrospectUrlInjective(host1: string, realm1: string, host2: string, realm2: string)
    requires '/' !in host1 && '/' !in host2
    requires IntrospectUrl(host1, realm1) == IntrospectUrl(host2, realm2)
    ensures host1 == host2 && realm1 == realm2
  {
    IntrospectUrlParts(host1, realm1);
    IntrospectUrlParts(host2, realm2);
  }

  /** The form POST to the introspection endpoint. */
  datatype IntrospectPost = IntrospectPost(url: string, verify: bool, headers: Dict<string>, data: Dict<Json>)

  /**
   * The request get_keycloak_token_introspect_response sends: the client
   * secret from the parameter store key named in the environment, then
   * host, client id and realm from the environment, in that order.
   */
  function IntrospectRequest(token: Json, env: Env, parameters: ParameterStore): (r: Result<IntrospectPost, Error>)
    ensures r.Success? <==>
      && EnvParamStoreKeyKeycloakClientSecret in env && env[EnvParamStoreKeyKeycloakClientSecret] in parameters
      && EnvKeycloakHost in env && EnvKeycloakClientId in env && EnvKeycloakRealm in env
    ensures EnvParamStoreKeyKeycloakClientSecret !in env ==> r == Failure(KeyError(EnvParamStoreKeyKeycloakClientSecret))
    ensures EnvParamStoreKeyKeycloakClientSecret in env && env[EnvParamStoreKeyKeycloakClientSecret] !in parameters ==>
      r == Failure(ParameterNotFound(env[EnvParamStoreKeyKeycloakClientSecret]))
    ensures r.Success? ==>
      && r.value.url == IntrospectUrl(env[EnvKeycloakHost], env[EnvKeycloakRealm])
      && r.value.verify && r.value.headers == []
      && Lookup(r.value.data, "client_id") == Some(JStr(env[EnvKeycloakClientId]))
      && Lookup(r.value.data, "client_secret") == Some(JStr(parameters[env[EnvParamStoreKeyKeycloakClientSecret]]))
      && Lookup(r.value.data, "token") == Some(token)
  {
    var secretKey :- Getenv(env, EnvParamStoreKeyKeycloakClientSecret);
    var secret :- if secretKey in parameters then Success(parameters[secretKey]) else Failure(ParameterNotFound(secretKey));
    var host :- Getenv(env, EnvKeycloakHost);
    var clientId :- Getenv(env, EnvKeycloakClientId);
    var realm :- Getenv(env, EnvKeycloakRealm);
    var data := [("client_id", JStr(clientId)), ("client_secret", JStr(secret)), ("token", token)];
    assert "client_secret" != "client_id" by { assert "client_secret"[7] != "client_id"[7]; }
    assert "token" != "client_id" && "token" != "client_secret" by { assert "token"[0] != "client_id"[0]; }
    LookupFirst(data, "client_id", 0);
    LookupFirst(data, "client_secret", 1);
    LookupFirst(data, "token", 2);
    Success(IntrospectPost(IntrospectUrl(host, realm), true, [], data))
  }

  /** The parts of the method ARN the policy is built from. */
  datatype MethodArn = MethodArn(apiName: string, awsRegion: string, awsAccountId: string, restApiId: string, stage: string)

  /**
   * Fields 2, 3 and 4 of the method ARN split on ':', then fields 0 and 1
   * of field 5 split on '/'; an IndexError when a field is missing.
   */
  function ParseMethodArn(methodArn: string): (r: Result<MethodArn, Error>)
    ensures r.Failure? ==> r.error == IndexError
  {
    var parts := Split(methodArn, ':');
    if |parts| < 6 then Failure(IndexError)
    else
      var endParts := Split(parts[5], '/');
      if |endParts| < 2 then Failure(IndexError)
      else Success(MethodArn(parts[2], parts[3], parts[4], endParts[0], endParts[1]))
  }

  /** Split gives a single piece exactly when the separator is absent. */
  lemma SplitSingle(s: string, c: char)
    ensures |Split(s, c)| == 1 <==> c !in s
  {
  }

  /** Parsing fails exactly when the ARN has fewer than six ':' fields or its sixth field holds no '/'. */
  lemma ParseMethodArnFails(methodArn: string)
    ensures ParseMethodArn(methodArn).Failure? <==>
      var parts := Split(methodArn, ':');
      |parts| < 6 || '/' !in parts[5]
  {
    var parts := Split(methodArn, ':');
    if |parts| >= 6 {
      SplitSingle(parts[5], '/');
    }
  }

  /** No field of a parsed ARN holds ':', and neither the API id nor the stage holds '/'. */
  predicate Clean(m: MethodArn) {
    && ':' !in m.apiName && ':' !in m.awsRegion && ':' !in m.awsAccountId
    && ':' !in m.restApiId && ':' !in m.stage && '/' !in m.restApiId && '/' !in m.stage
  }

  lemma ParsedClean(methodArn: string)
    requires ParseMethodArn(methodArn).Success?
    ensures Clean(ParseMethodArn(methodArn).value)
  {
    var parts := Split(methodArn, ':');
    var endParts := Split(parts[5], '/');
    JoinSplit(parts[5], '/');
    if ':' in endParts[0] {
      JoinHas(endParts, '/', 0, ':');
    }
    if ':' in endParts[1] {
      JoinHas(endParts, '/', 1, ':');
    }
  }

  /** An ARN joined from its fields parses back to them. */
  lemma {:induction false} ParseMethodArnJoin(head: seq<string>, endParts: seq<string>, tail: seq<string>)
    requires |head| == 5 && |endParts| >= 2
    requires forall k :: 0 <= k < |head| ==> ':' !in head[k]
    requires forall k :: 0 <= k < |tail| ==> ':' !in tail[k]
    requires forall k :: 0 <= k < |endParts| ==> ':' !in endParts[k] && '/' !in endParts[k]
    ensures ParseMethodArn(Join(head + [Join(endParts, '/')] + tail, ':'))
         == Success(MethodArn(head[2], head[3], head[4], endParts[0], endParts[1]))
  {
    var field5 := Join(endParts, '/');
    JoinAvoids(endParts, '/', ':');
    var parts := head + [field5] + tail;
    assert forall k :: 0 <= k < |parts| ==> ':' !in parts[k] by {
      forall k | 0 <= k < |parts|
        ensures ':' !in parts[k]
      {
        if k < 5 {
          assert parts[k] == head[k];
        } else if k > 5 {
          assert parts[k] == tail[k - 6];
        }
      }
    }
    SplitJoin(parts, ':');
    SplitJoin(endParts, '/');
    assert parts[5] == field5 && parts[2] == head[2] && parts[3] == head[3] && parts[4] == head[4];
    assert Split(Join(parts, ':'), ':') == parts && |parts| >= 6;
    assert Split(parts[5], '/') == endParts;
  }

  /** The ARN of the stage with wildcards for the method and the path: every method and path of the stage. */
  function ResourceOf(m: MethodArn): string {
    "arn:aws:" + m.apiName + ":" + m.awsRegion + ":" + m.awsAccountId + ":" + m.restApiId + "/" + m.stage + "/*/*"
  }

  /** The resource is an `arn:aws:` ARN that covers every method and path of the stage. */
  lemma ResourceShape(m: MethodArn)
    ensures "arn:aws:" <= ResourceOf(m) && EndsWith(ResourceOf(m), "/" + m.stage + "/*/*")
  {
    var tail := "/" + m.stage + "/*/*";
    var r := ResourceOf(m);
    assert r == "arn:aws:" + (m.apiName + ":" + m.awsRegion + ":" + m.awsAccountId + ":" + m.restApiId + tail);
    assert r == "arn:aws:" + m.apiName + ":" + m.awsRegion + ":" + m.awsAccountId + ":" + m.restApiId + tail;
    assert r[|r| - |tail|..] == tail;
  }

  /** The resource is an ARN whose sixth field is the API id, the stage and two wildcards. */
  lemma ResourceJoin(m: MethodArn)
    ensures ResourceOf(m) == Join(["arn", "aws", m.apiName, m.awsRegion, m.awsAccountId]
                                  + [Join([m.restApiId, m.stage, "*", "*"], '/')], ':')
  {
    JoinFour(m.restApiId, m.stage, "*", "*", '/');
    var field5 := Join([m.restApiId, m.stage, "*", "*"], '/');
    JoinSix("arn", "aws", m.apiName, m.awsRegion, m.awsAccountId, field5, ':');
    assert "arn:aws:" == "arn" + [':'] + "aws" + [':'];
    assert "/*/*" == ['/'] + "*" + ['/'] + "*";
  }


  /** The policy's resource parses back to the API and stage it was built from. */
  lemma ResourceParsesBack(m: MethodArn)
    requires Clean(m)
    ensures ParseMethodArn(ResourceOf(m)) == Success(m)
  {
    ResourceJoin(m);
    var head := ["arn", "aws", m.apiName, m.awsRegion, m.awsAccountId];
    var ends := [m.restApiId, m.stage, "*", "*"];
    assert head + [Join(ends, '/')] + [] == head + [Join(ends, '/')];
    ParseMethodArnJoin(head, ends, []);
  }

  /** The policy is for the very API stage the request named, whatever the method and path. */
  lemma PolicyCoversCaller(methodArn: string)
    requires ParseMethodArn(methodArn).Success?
    ensures ParseMethodArn(ResourceOf(ParseMethodArn(methodArn).value)) == ParseMethodArn(methodArn)
  {
    ParsedClean(methodArn);
    ResourceParsesBack(ParseMethodArn(methodArn).value);
  }

  /** 'Allow' if keycloak_response['active'] is True else 'Deny'. */
  function Effect(response: Json): (r: Result<string, Error>)
    ensures r.Success? ==> r.value == "Allow" || r.value == "Deny"
  {
    var active :- Member(response, KeyActive);
    Success(if active == JBool(true) then "Allow" else "Deny")
  }

  /** Allow exactly when active is the boolean True; a truthy value of another type denies. */
  lemma EffectAllowIff(response: Json)
    ensures Effect(response) == Success("Allow") <==> Member(response, KeyActive) == Success(JBool(true))
    ensures Member(response, KeyActive).Success? && Member(response, KeyActive) != Success(JBool(true)) ==>
      Effect(response) == Success("Deny")
    ensures Member(response, KeyActive).Failure? ==> Effect(response) == Failure(Member(response, KeyActive).error)
  {
    assert "Allow" != "Deny" by { assert "Allow"[0] != "Deny"[0]; }
  }

  /** The one statement of the policy. */
  function Statement(m: MethodArn, effect: string): (s: Json)
    ensures s.JObj? && Keys(s.fields) == ["Action", "Effect", "Resource"] && UniqueKeys(s.fields)
  {
    JObj([("Action", JStr(m.apiName + ":Invoke")), ("Effect", JStr(effect)), ("Resource", JArr([JStr(ResourceOf(m))]))])
  }

  /** The authorizer's response. */
  function Policy(m: MethodArn, effect: string): (p: Json)
    ensures p.JObj? && Keys(p.fields) == ["principalId", "policyDocument"] && UniqueKeys(p.fields)
  {
    JObj([("principalId", JNull),
          ("policyDocument", JObj([("Version", JStr(PolicyVersion)), ("Statement", JArr([Statement(m, effect)]))]))])
  }

  /** The policy as API Gateway reads it: no principal, version 2012-10-17, and exactly one statement. */
  lemma PolicyFields(m: MethodArn, effect: string)
    ensures Member(Policy(m, effect), "principalId") == Success(JNull)
    ensures Member(Policy(m, effect), "policyDocument").Success?
    ensures var document := Member(Policy(m, effect), "policyDocument").value;
      && Member(document, "Version") == Success(JStr(PolicyVersion))
      && Member(document, "Statement") == Success(JArr([Statement(m, effect)]))
  {
    var document := [("Version", JStr(PolicyVersion)), ("Statement", JArr([Statement(m, effect)]))];
    var top := [("principalId", JNull), ("policyDocument", JObj(document))];
    assert "policyDocument" != "principalId" by { assert "policyDocument"[1] != "principalId"[1]; }
    LookupFirst(top, "principalId", 0);
    LookupFirst(top, "policyDocument", 1);
    assert "Statement" != "Version" by { assert "Statement"[0] != "Version"[0]; }
    LookupFirst(document, "Version", 0);
    LookupFirst(document, "Statement", 1);
  }

  /** The statement invokes the API named in the ARN, with the effect, on the stage's resource. */
  lemma StatementFields(m: MethodArn, effect: string)
    ensures Member(Statement(m, effect), "Action") == Success(JStr(m.apiName + ":Invoke"))
    ensures Member(Statement(m, effect), "Effect") == Success(JStr(effect))
    ensures Member(Statement(m, effect), "Resource") == Success(JArr([JStr(ResourceOf(m))]))
  {
    var statement := [("Action", JStr(m.apiName + ":Invoke")), ("Effect", JStr(effect)), ("Resource", JArr([JStr(ResourceOf(m))]))];
    assert "Effect" != "Action" by { assert "Effect"[0] != "Action"[0]; }
    assert "Resource" != "Action" && "Resource" != "Effect" by { assert "Resource"[0] != "Action"[0] && "Resource"[0] != "Effect"[0]; }
    LookupFirst(statement, "Action", 0);
    LookupFirst(statement, "Effect", 1);
    LookupFirst(statement, "Resource", 2);
  }

  /** Python's s.split on a value: only a str has it. */
  function AsSplittable(j: Json): (r: Result<string, Error>)
    ensures j.JStr? ==> r == Success(j.s)
    ensures !j.JStr? ==> r == Failure(AttributeError)
  {
    if j.JStr? then Success(j.s) else Failure(AttributeError)
  }

  /**
   * lambda_handler: the ARN is parsed before the token is read; `post`
   * stands for the HTTP call to Keycloak and the decoding of its answer.
   */
  function AuthResponse(event: Event, env: Env, parameters: ParameterStore, post: IntrospectPost -> Result<Json, Error>)
    : (r: Result<Json, Error>)
    ensures !HasKey(event, KeyMethodArn) ==> r == Failure(KeyError(KeyMethodArn))
    ensures r.Success? ==> HasKey(event, KeyMethodArn) && Lookup(event, KeyMethodArn).value.JStr?
    ensures r.Success? ==>
      && ParseMethodArn(Lookup(event, KeyMethodArn).value.s).Success?
      && exists effect :: && (effect == "Allow" || effect == "Deny")
                          && r.value == Policy(ParseMethodArn(Lookup(event, KeyMethodArn).value.s).value, effect)
  {
    var arnValue :- At(event, KeyMethodArn);
    var methodArn :- AsSplittable(arnValue);
    var arn :- ParseMethodArn(methodArn);
    var token :- At(event, KeyAuthorizationToken);
    var request :- IntrospectRequest(token, env, parameters);
    var response :- post(request);
    var effect :- Effect(response);
    Success(Policy(arn, effect))
  }

  /** The errors of the handler, in the order it meets them. */
  lemma AuthResponseFailures(event: Event, env: Env, parameters: ParameterStore, post: IntrospectPost -> Result<Json, Error>)
    ensures !HasKey(event, KeyMethodArn) ==> AuthResponse(event, env, parameters, post) == Failure(KeyError(KeyMethodArn))
    ensures HasKey(event, KeyMethodArn) ==>
      var arnValue := At(event, KeyMethodArn).value;
      && (!arnValue.JStr? ==> AuthResponse(event, env, parameters, post) == Failure(AttributeError))
      && (arnValue.JStr? && ParseMethodArn(arnValue.s).Failure? ==> AuthResponse(event, env, parameters, post) == Failure(IndexError))
      && (arnValue.JStr? && ParseMethodArn(arnValue.s).Success? && !HasKey(event, KeyAuthorizationToken) ==>
            AuthResponse(event, env, parameters, post) == Failure(KeyError(KeyAuthorizationToken)))
  {
  }

  /**
   * A response is the policy for the caller's API stage, and it allows
   * exactly when Keycloak reports the token active as the boolean True.
   */
  lemma AuthResponseAllows(event: Event, env: Env, parameters: ParameterStore, post: IntrospectPost -> Result<Json, Error>)
    requires AuthResponse(event, env, parameters, post).Success?
    ensures HasKey(event, KeyMethodArn) && At(event, KeyMethodArn).value.JStr?
    ensures var methodArn := At(event, KeyMethodArn).value.s;
      && ParseMethodArn(methodArn).Success?
      && HasKey(event, KeyAuthorizationToken)
      && var request := IntrospectRequest(At(event, KeyAuthorizationToken).value, env, parameters);
      && request.Success? && post(request.value).Success?
      && var active := Member(post(request.value).value, KeyActive);
      && active.Success?
      && AuthResponse(event, env, parameters, post).value ==
           Policy(ParseMethodArn(methodArn).value, if active.value == JBool(true) then "Allow" else "Deny")
      && ParseMethodArn(ResourceOf(ParseMethodArn(methodArn).value)) == ParseMethodArn(methodArn)
  {
    PolicyCoversCaller(At(event, KeyMethodArn).value.s);
  }
}
