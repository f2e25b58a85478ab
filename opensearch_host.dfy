/**
 * The OpenSearch connection settings that da-ayr-bag-to-opensearch/lambda_function.py
 * and da-ayr-rest-api/aws_lambda.py both read (the two files carry the same
 * check_verify_ssl_cert, get_opensearch_user_password and get_opensearch_url),
 * and the HTTP request the two lambdas send.
 */
module OpenSearchHost {
  import opened Wrappers
  import opened Text
  import opened Dicts
  import opened Json
  import opened Environ

  const EnvDoNotVerifySsl := "DO_NOT_VERIFY_SSL"
  const EnvOpenSearchHostUrl := "OPENSEARCH_HOST_URL"
  const EnvOpenSearchIndex := "OPENSEARCH_INDEX"
  const EnvOpenSearchUser := "OPENSEARCH_USER"
  const EnvOpenSearchUserPassword := "OPENSEARCH_USER_PASSWORD"
  const EnvOpenSearchUserPasswordParamStoreKey := "OPENSEARCH_USER_PASSWORD_PARAM_STORE_KEY"

  /** The parameter store, by parameter name (values decrypted). */
  type ParameterStore = map<string, string>

  /** check_verify_ssl_cert: certificates are checked unless DO_NOT_VERIFY_SSL is exactly TRUE. */
  function CheckVerifySslCert(env: Env): (verify: bool)
    ensures !verify <==> EnvDoNotVerifySsl in env && env[EnvDoNotVerifySsl] == "TRUE"
  {
    match Getenv(env, EnvDoNotVerifySsl)
    case Success(value) => value != "TRUE"
    case Failure(_) => true
  }

  /** The test is exact: any other spelling, or no variable at all, keeps checking on. */
  lemma VerifySslUnlessExactlyTrue(env: Env, value: string)
    requires value != "TRUE"
    ensures CheckVerifySslCert(env - {EnvDoNotVerifySsl})
    ensures CheckVerifySslCert(env[EnvDoNotVerifySsl := value])
  {
  }

  /** The host URL with a '/' appended unless it already ends in one. */
  function WithTrailingSlash(url: string): (r: string)
    ensures EndsWith(r, "/")
    ensures EndsWith(url, "/") ==> r == url
    ensures !EndsWith(url, "/") ==> r == url + "/"
  {
    if !EndsWith(url, "/") then url + "/" else url
  }

  /** Appending the '/' once is enough. */
  lemma WithTrailingSlashIdempotent(url: string)
    ensures WithTrailingSlash(WithTrailingSlash(url)) == WithTrailingSlash(url)
  {
  }

  /** get_opensearch_url: OPENSEARCH_HOST_URL, ending in '/'. */
  function OpenSearchUrl(env: Env): (r: Result<string, Error>)
    ensures r.Success? <==> EnvOpenSearchHostUrl in env
    ensures r.Success? ==> r.value == WithTrailingSlash(env[EnvOpenSearchHostUrl]) && EndsWith(r.value, "/")
    ensures r.Failure? ==> r.error == KeyError(EnvOpenSearchHostUrl)
  {
    var url :- Getenv(env, EnvOpenSearchHostUrl);
    Success(WithTrailingSlash(url))
  }

  /**
   * get_opensearch_user_password: OPENSEARCH_USER_PASSWORD when set;
   * otherwise the parameter named by OPENSEARCH_USER_PASSWORD_PARAM_STORE_KEY.
   */
  function UserPassword(env: Env, parameters: ParameterStore): (r: Result<string, Error>)
    ensures EnvOpenSearchUserPassword in env ==> r == Success(env[EnvOpenSearchUserPassword])
    ensures EnvOpenSearchUserPassword !in env && EnvOpenSearchUserPasswordParamStoreKey !in env ==>
      r == Failure(KeyError(EnvOpenSearchUserPasswordParamStoreKey))
    ensures EnvOpenSearchUserPassword !in env && EnvOpenSearchUserPasswordParamStoreKey in env ==>
      var name := env[EnvOpenSearchUserPasswordParamStoreKey];
      r == if name in parameters then Success(parameters[name]) else Failure(ParameterNotFound(name))
  {
    match Getenv(env, EnvOpenSearchUserPassword)
    case Success(password) => Success(password)
    case Failure(_) =>
      var name :- Getenv(env, EnvOpenSearchUserPasswordParamStoreKey);
      if name in parameters then Success(parameters[name]) else Failure(ParameterNotFound(name))
  }

  /** The request a lambda hands to requests.put or requests.post. */
  datatype HttpRequest = HttpRequest(
    url: string, verify: bool, user: string, password: string, headers: Dict<string>, data: Json)

  const JsonHeaders: Dict<string> := [("Content-Type", "application/json")]

  /** The settings both lambdas read first, in their order: certificate check, host URL, user, password. */
  datatype Connection = Connection(verify: bool, hostUrl: string, user: string, password: string)

  function OpenConnection(env: Env, parameters: ParameterStore): (r: Result<Connection, Error>)
    ensures r.Success? ==> && r.value.verify == CheckVerifySslCert(env)
                           && Success(r.value.hostUrl) == OpenSearchUrl(env)
                           && Success(r.value.user) == Getenv(env, EnvOpenSearchUser)
                           && Success(r.value.password) == UserPassword(env, parameters)
    ensures EnvOpenSearchHostUrl !in env ==> r == Failure(KeyError(EnvOpenSearchHostUrl))
    ensures EnvOpenSearchHostUrl in env && EnvOpenSearchUser !in env ==> r == Failure(KeyError(EnvOpenSearchUser))
  {
    var verify := CheckVerifySslCert(env);
    var hostUrl :- OpenSearchUrl(env);
    var user :- Getenv(env, EnvOpenSearchUser);
    var password :- UserPassword(env, parameters);
    Success(Connection(verify, hostUrl, user, password))
  }
}
